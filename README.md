# Email triage: search and batch actions, in Dafny

This project models the mailbox logic of an email-triage backend. That logic lives in
`backend/gmail_service.py` and has three parts:

- **Header lookup.** It finds a header in a message's metadata by name, ignoring case.
  It returns the value of the first matching header, or `""`.
- **Subject search.** It sends the query `subject:<keyword>` to the mail provider.
  Then it fetches the `From` and `Subject` headers of each listed message and builds one
  `EmailItem` (id, sender, subject) per message, in the provider's order. Any failure aborts
  the whole search.
- **Batch action.** It dispatches on the action name. `dry-run` changes nothing and reports a
  count. `trash` trashes each listed id in order. `archive` removes the `INBOX` label from each
  listed id in order. Both loops stop at the first failing request and roll nothing back. The
  success message counts the input list, duplicates included. Any other action name is an error.

How each part is modelled:

- `Wrappers` (`wrappers.dfy`) holds `Option` (a JSON key that may be missing) and `Result`.
  `Result` is a value, or one opaque error that stands for any raised exception.
- `Headers` (`headers.dfy`) has header records whose `name` and `value` keys may be missing.
  It holds the recursive lookup `HeaderValue` and lemmas that characterise it exactly.
- `Search` (`search.dfy`) treats the provider as two total functions. One gives the reply to
  the listing request for a query and page size. The other gives the reply to the metadata
  fetch of one id. Either reply can be a failure. `SearchEmails` is the loop of the source,
  proved against a postcondition that fixes the result completely.
- `Mailboxes` (`mailbox.dfy`) models the provider as seen by the actions, as the class `Mailbox`:
  - a map from message id to (label set, trashed flag);
  - a fixed set of ids on which the provider errs (fault injection);
  - a ghost log of every mutation request received.

  A mutation fails when the id is not in the mailbox or is in the fault set.
- `Decimal` (`decimal.dfy`) renders counts in decimal, with a parser proved to invert it.
- `Actions` (`actions.dfy`) holds the dispatch and the two loops, which are methods that change
  the mailbox. It also holds the reference functions `FirstFailure` and `ApplyAll` that those
  methods are proved against, and lemmas about those functions.

Building the authenticated client (`get_gmail_service`) happens inside the `try` of both
operations. So even a dry run, or an unsupported action name, fails when the client cannot be
built. Both operations therefore take a flag `serviceAvailable` that stands for whether that
step succeeded.

Facts about the code that the model keeps:

- The action loops stop at the first failing request, which aborts the batch. Earlier
  mutations stay in place.
- The ids of an action are a list: duplicates are kept, and they are counted in the summary.
- The code does not cap the number of search results itself. It passes the page size to the
  provider and trusts the reply.

## Model

| member | source | states |
|---|---|---|
| `Headers.HeaderValueFirstMatch` | backend/gmail_service.py:115-121 | if header k is the first whose name equals the requested name ignoring case, the lookup returns header k's value, or "" when header k has no `value` key |
| `Headers.HeaderValueNoMatch` | backend/gmail_service.py:119-122 | if no header's name (a missing name counts as "") equals the requested name ignoring case, the lookup returns "" |
| `Headers.HeaderValueIgnoresCase` | backend/gmail_service.py:120 | two requested names that agree after ASCII lower-casing get the same answer |
| `Headers.HeaderValueAppend` | backend/gmail_service.py:119-121 | the first match wins: headers after a matching prefix are never consulted, and a prefix with no match is skipped |
| `Headers.FirstMatchWithoutValue` | backend/gmail_service.py:121 | a first match that has no `value` key gives "", even if a later header of the same name has a value |
| `Search.QueryRoundTrip` | backend/gmail_service.py:34 | the query is `subject:` followed by the keyword verbatim: stripping the prefix gives the keyword back unchanged |
| `Search.QueryInjective` | backend/gmail_service.py:34 | distinct keywords give distinct queries, so nothing in the keyword is dropped or escaped |
| `Search.SearchEmails` | backend/gmail_service.py:25-73 | fails exactly when the client cannot be built, the listing fails, some summary has no `id`, or some fetch fails, so no partial list is returned; otherwise it returns one item per listed summary, in listing order, where item i has summary i's id and the `From`/`Subject` lookups over that message's headers; a reply without `messages` gives an empty list |
| `Search.MissingHeadersGiveEmptyFields` | backend/gmail_service.py:55-57 | a fetched message with no `payload`, or a payload with no `headers`, gives an empty sender and an empty subject |
| `Decimal.DecimalRoundTrip` | backend/gmail_service.py:89 | the count printed into a message reads back as the same number |
| `Actions.ParseActionExact` | backend/gmail_service.py:87-104 | an action name selects an action if and only if it is exactly `dry-run`, `trash` or `archive`, each selecting its own action; every other name is unsupported |
| `Actions.ReportRoundTrip` | backend/gmail_service.py:89-101 | the dry-run, trash and archive summaries cite exactly the count they are given, and it can be read back from them |
| `Actions.MutateIdempotent` | backend/gmail_service.py:92-100 | trashing or archiving a message twice leaves it as trashing or archiving it once, so duplicate ids do no further harm |
| `Actions.FirstFailure` | backend/gmail_service.py:92-93 | the index n returned is at most the number of ids; no id before n fails; the id at n (if any) fails |
| `Actions.ApplyAllEffect` | backend/gmail_service.py:92-100 | mutating a list of ids in turn mutates each listed message (once in effect, even if listed twice) and leaves every other message as it was |
| `Actions.BatchOutcome` | backend/gmail_service.py:91-101 | after a trash or archive batch, the mailbox has the same ids; messages listed before the first failure are mutated; all other messages are unchanged; with no failure, every listed message is trashed, or no longer carries `INBOX` |
| `Actions.TrashStopsAtFailure` | backend/gmail_service.py:92-94 | trashing a, b, c where b fails: requests go out for a and b only, and only a ends up trashed |
| `Actions.TrashEach` | backend/gmail_service.py:92-93 | sends trash requests for the ids in order, up to and including the first failing one; the mailbox becomes the reference batch over the ids before it; reports success exactly when no request failed |
| `Actions.ArchiveEach` | backend/gmail_service.py:98-100 | sends requests removing `INBOX` for the ids in order, up to and including the first failing one; the mailbox becomes the reference batch over the ids before it; reports success exactly when no request failed |
| `Actions.PerformAction` | backend/gmail_service.py:79-109 | without a client, or for `dry-run` or an unsupported name, no request is sent and the mailbox is unchanged; a missing client and an unsupported name are errors; `dry-run` returns the dry-run summary citing the number of ids; `trash`/`archive` mutate in order up to the first failure, which makes the call an error, and otherwise return the summary citing the number of ids, duplicates included |
| `Mailboxes.Mailbox.Trash` | backend/gmail_service.py:93 | one trash request is logged; it fails exactly when the id is unknown or faulty, and then changes nothing; otherwise only that message changes, and it becomes trashed |
| `Mailboxes.Mailbox.Modify` | backend/gmail_service.py:98-100 | one modify request is logged; it fails exactly when the id is unknown or faulty, and then changes nothing; otherwise only that message changes, and it loses the given labels |

## Left out

- Building the client (`get_gmail_service`, backend/gmail_service.py:12-19) and the secret
  fetch in backend/secrets_manager.py are foreign calls (boto3, JSON decoding, Google's
  credential constructor, the Google API client). Whether they succeed is the
  `serviceAvailable` parameter.
- The routing layer (backend/routers/email_routes.py), the app setup (backend/main.py) and the
  front end (frontend/app.js) are I/O and UI. They are not part of this model. This includes the
  response records that echo the request's id list back to the caller.
- How the provider matches a query and applies the page size is provider-defined. The listing
  reply is an arbitrary function of the query and the page size.
- The text of the raised exceptions and their re-wrapping (backend/gmail_service.py:69-73,
  106-109) are not modelled: every failure is the single `Err` outcome.
- `Headers.Matches`: compares names after ASCII lower-casing only, not Python's full Unicode
  `str.lower()`.
- Replies whose JSON values have the wrong type are not modelled. Examples: a `messages` key
  holding `null`, a header name that is not a string.
- The provider's own bookkeeping on trash (such as a TRASH label) is not modelled. A trashed
  message carries only the trashed flag.
- Concurrent requests against the same mailbox are not modelled. Each call runs alone.
