/** Subject-keyword search: one listing request, then one metadata fetch per
    listed message, assembling an `EmailItem` for each in provider order. */
module Search {
  import opened Wrappers
  import opened Headers

  /** A search hit as returned to the caller. */
  datatype EmailItem = EmailItem(id: string, sender: string, subject: string)

  /** One entry of the listing reply; the `id` key may be missing. */
  datatype Summary = Summary(id: Option<string>)

  /** The provider's reply to a listing request: a failure, or a JSON object
      whose `messages` key may be missing. */
  datatype ListReply = ListFailed | Listed(messages: Option<seq<Summary>>)

  /** The `payload` part of a metadata fetch; its `headers` key may be missing. */
  datatype Payload = Payload(headers: Option<seq<Header>>)

  /** The provider's reply to a metadata fetch of one message: a failure, or a
      JSON object whose `payload` key may be missing. */
  datatype FetchReply = FetchFailed | Fetched(payload: Option<Payload>)

  const QueryPrefix: string := "subject:"

  /** The provider query for "subject contains keyword"; the keyword is not escaped. */
  function SearchQuery(keyword: string): (q: string)
    ensures |q| == |QueryPrefix| + |keyword|
    ensures q[..|QueryPrefix|] == QueryPrefix && q[|QueryPrefix|..] == keyword
  {
    QueryPrefix + keyword
  }

  /** The keyword a subject query searches for, if `q` is one. */
  function QueryKeyword(q: string): Option<string> {
    if |QueryPrefix| <= |q| && q[..|QueryPrefix|] == QueryPrefix then Some(q[|QueryPrefix|..]) else None
  }

  /** The keyword is carried into the query verbatim: it can be read back unchanged. */
  lemma QueryRoundTrip(keyword: string)
    ensures QueryKeyword(SearchQuery(keyword)) == Some(keyword)
  {
  }

  /** Different keywords never produce the same query. */
  lemma QueryInjective(a: string, b: string)
    requires SearchQuery(a) == SearchQuery(b)
    ensures a == b
  {
  }

  /** The summaries of a successful listing; none when the `messages` key is missing. */
  function SummariesOf(reply: ListReply): seq<Summary>
    requires reply.Listed?
  {
    reply.messages.GetOr([])
  }

  /** The header list of a successful fetch; empty when `payload` or `headers` is missing. */
  function HeadersOf(reply: FetchReply): seq<Header>
    requires reply.Fetched?
  {
    match reply.payload
    case None => []
    case Some(p) => p.headers.GetOr([])
  }

  /** Whether every summary carries an id and every such id can be fetched. */
  ghost predicate AllFetchable(summaries: seq<Summary>, fetch: string -> FetchReply) {
    forall i :: 0 <= i < |summaries| ==> summaries[i].id.Some? && fetch(summaries[i].id.value).Fetched?
  }

  /** The item built for message `id` from its fetched metadata. */
  function ItemFor(id: string, reply: FetchReply): EmailItem
    requires reply.Fetched?
  {
    EmailItem(id, HeaderValue(HeadersOf(reply), "From"), HeaderValue(HeadersOf(reply), "Subject"))
  }

  /** Whether `items` holds, in order, the item of each of the first |items| summaries. */
  ghost predicate Assembled(items: seq<EmailItem>, summaries: seq<Summary>, fetch: string -> FetchReply) {
    && |items| <= |summaries|
    && forall i :: 0 <= i < |items| ==>
         && summaries[i].id.Some?
         && fetch(summaries[i].id.value).Fetched?
         && items[i] == ItemFor(summaries[i].id.value, fetch(summaries[i].id.value))
  }

  /** Search the mailbox for messages whose subject contains `keyword`.
      `serviceAvailable` says whether the authenticated client could be built;
      `list` and `fetch` are the provider's replies to the listing and fetch requests.
      `maxResults` is the page size handed to the provider; callers that give none use 10. */
  method SearchEmails(keyword: string, maxResults: int, serviceAvailable: bool,
                      list: (string, int) -> ListReply, fetch: string -> FetchReply)
    returns (r: Result<seq<EmailItem>>)
    // it fails exactly when the client, the listing or some per-message step fails
    ensures r.Ok? <==> serviceAvailable && list(SearchQuery(keyword), maxResults).Listed? &&
                       AllFetchable(SummariesOf(list(SearchQuery(keyword), maxResults)), fetch)
    // on success: one item per summary, in listing order, fields from that message's headers
    ensures r.Ok? ==>
      var summaries := SummariesOf(list(SearchQuery(keyword), maxResults));
      |r.value| == |summaries| && Assembled(r.value, summaries, fetch)
  {
    if !serviceAvailable {
      return Err;
    }
    var query := SearchQuery(keyword);
    var response := list(query, maxResults);
    if response.ListFailed? {
      return Err;
    }
    var messages := SummariesOf(response);
    var results: seq<EmailItem> := [];
    var i := 0;
    while i < |messages|
      invariant 0 <= i <= |messages|
      invariant |results| == i
      invariant Assembled(results, messages, fetch)
    {
      if messages[i].id.None? {
        return Err;
      }
      var msgId := messages[i].id.value;
      var msgDetail := fetch(msgId);
      if msgDetail.FetchFailed? {
        return Err;
      }
      var headers := HeadersOf(msgDetail);
      var sender := HeaderValue(headers, "From");
      var subject := HeaderValue(headers, "Subject");
      results := results + [EmailItem(msgId, sender, subject)];
      i := i + 1;
    }
    return Ok(results);
  }

  /** A fetched message without `payload`, or whose payload has no `headers`, yields an item
      with empty sender and subject. */
  lemma MissingHeadersGiveEmptyFields(reply: FetchReply)
    requires reply.Fetched? && (reply.payload.None? || reply.payload.value.headers.None?)
    ensures HeaderValue(HeadersOf(reply), "From") == "" && HeaderValue(HeadersOf(reply), "Subject") == ""
  {
  }
}
