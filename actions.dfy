/** The batch action: dispatch on the action name, then trash or archive each listed
    message in order, stopping at the first failing mutation without rolling back. */
module Actions {
  import opened Wrappers
  import opened Decimal
  import opened Mailboxes

  datatype ActionKind = DryRun | Trash | Archive

  /** The name a caller uses for each action. */
  function ActionName(k: ActionKind): string {
    match k
    case DryRun => "dry-run"
    case Trash => "trash"
    case Archive => "archive"
  }

  /** The action a name selects; any other name is unsupported. */
  function ParseAction(action: string): Option<ActionKind> {
    if action == "dry-run" then Some(DryRun)
    else if action == "trash" then Some(Trash)
    else if action == "archive" then Some(Archive)
    else None
  }

  /** Exactly the three names are supported, each selecting its own action. */
  lemma ParseActionExact(action: string, k: ActionKind)
    ensures ParseAction(action) == Some(k) <==> action == ActionName(k)
  {
  }

  // ---------------------------------------------------------------------------
  // The summary message

  const ReportSuffix: string := " emails."

  function ReportPrefix(k: ActionKind): string {
    match k
    case DryRun => "Dry-run: would apply '" + ActionName(DryRun) + "' to "
    case Trash => "Trashed "
    case Archive => "Archived "
  }

  /** The summary returned on success: it cites `count` emails. */
  function Report(k: ActionKind, count: nat): string {
    ReportPrefix(k) + ToDecimal(count) + ReportSuffix
  }

  /** The count a summary of action `k` cites, if `msg` is such a summary. */
  function ReportedCount(k: ActionKind, msg: string): Option<nat> {
    var p := ReportPrefix(k);
    if |p| + |ReportSuffix| <= |msg| && msg[..|p|] == p && msg[|msg| - |ReportSuffix|..] == ReportSuffix
    then Some(DecimalValue(msg[|p|..|msg| - |ReportSuffix|]))
    else None
  }

  /** The summary of action `k` cites exactly the count it was given. */
  lemma ReportRoundTrip(k: ActionKind, count: nat)
    ensures ReportedCount(k, Report(k, count)) == Some(count)
  {
    var p, d := ReportPrefix(k), ToDecimal(count);
    var msg := Report(k, count);
    assert msg[..|p|] == p;
    assert msg[|msg| - |ReportSuffix|..] == ReportSuffix;
    assert msg[|p|..|msg| - |ReportSuffix|] == d;
    DecimalRoundTrip(count);
  }

  // ---------------------------------------------------------------------------
  // The effect of a batch on the mailbox

  /** The new state of one message after a successful mutation of action `k`. */
  function Mutate(m: MessageState, k: ActionKind): MessageState {
    match k
    case DryRun => m
    case Trash => Trashed(m)
    case Archive => WithoutLabels(m, [Inbox])
  }

  /** Mutating twice is mutating once, so a repeated id changes nothing more. */
  lemma MutateIdempotent(m: MessageState, k: ActionKind)
    ensures Mutate(Mutate(m, k), k) == Mutate(m, k)
  {
  }

  /** The request sent for one id. */
  function RequestFor(id: string, k: ActionKind): Request
    requires k != DryRun
  {
    if k == Trash then TrashRequest(id) else ModifyRequest(id, [Inbox])
  }

  /** The requests sent for `ids`, in order. */
  function Requests(ids: seq<string>, k: ActionKind): (rs: seq<Request>)
    requires k != DryRun
    ensures |rs| == |ids| && forall i :: 0 <= i < |ids| ==> rs[i] == RequestFor(ids[i], k)
  {
    if ids == [] then [] else Requests(ids[..|ids| - 1], k) + [RequestFor(ids[|ids| - 1], k)]
  }

  /** The position of the first id whose mutation fails, or |ids| when none does. */
  function FirstFailure(messages: map<string, MessageState>, failing: set<string>, ids: seq<string>): (n: nat)
    ensures n <= |ids|
    ensures forall j :: 0 <= j < n ==> !MutationFails(messages, failing, ids[j])
    ensures n < |ids| ==> MutationFails(messages, failing, ids[n])
  {
    if ids == [] then 0
    else if MutationFails(messages, failing, ids[0]) then 0
    else 1 + FirstFailure(messages, failing, ids[1..])
  }

  /** The ids a batch sends a request for: those before the first failure, and the failing one. */
  function Attempted(ids: seq<string>, n: nat): seq<string>
    requires n <= |ids|
  {
    if n < |ids| then ids[..n + 1] else ids
  }

  /** The mailbox after mutating each of `ids` in turn (ids absent from the mailbox are skipped). */
  function ApplyAll(messages: map<string, MessageState>, ids: seq<string>, k: ActionKind): (r: map<string, MessageState>)
    ensures r.Keys == messages.Keys
  {
    if ids == [] then messages
    else
      var prev := ApplyAll(messages, ids[..|ids| - 1], k);
      var id := ids[|ids| - 1];
      if id in prev then prev[id := Mutate(prev[id], k)] else prev
  }

  /** One more id extends the batch by one mutation of the current state. */
  lemma ApplyAllStep(messages: map<string, MessageState>, ids: seq<string>, i: nat, k: ActionKind)
    requires i < |ids| && ids[i] in messages
    ensures ApplyAll(messages, ids[..i + 1], k) ==
              ApplyAll(messages, ids[..i], k)[ids[i] := Mutate(ApplyAll(messages, ids[..i], k)[ids[i]], k)]
  {
    assert ids[..i + 1][..i] == ids[..i];
  }

  /** One more id extends the requests by that id's request. */
  lemma RequestsStep(ids: seq<string>, i: nat, k: ActionKind)
    requires i < |ids| && k != DryRun
    ensures Requests(ids[..i + 1], k) == Requests(ids[..i], k) + [RequestFor(ids[i], k)]
  {
  }

  /** Every listed message is mutated exactly once in effect, and every other message is untouched. */
  lemma {:induction false} ApplyAllEffect(messages: map<string, MessageState>, ids: seq<string>, k: ActionKind)
    ensures forall x :: x in messages ==>
              ApplyAll(messages, ids, k)[x] == if x in ids then Mutate(messages[x], k) else messages[x]
  {
    if ids != [] {
      var front := ids[..|ids| - 1];
      ApplyAllEffect(messages, front, k);
      forall x | x in messages
        ensures ApplyAll(messages, ids, k)[x] == if x in ids then Mutate(messages[x], k) else messages[x]
      {
        assert x in ids <==> x in front || x == ids[|ids| - 1] by {
          assert ids == front + [ids[|ids| - 1]];
        }
        if x == ids[|ids| - 1] {
          MutateIdempotent(messages[x], k);
        }
      }
    }
  }

  /** What a trash or archive batch leaves behind: the messages before the first failure are
      mutated, the others (those at or after it that do not also occur before it, and those
      not listed at all) are as they were; with no failure every listed message is trashed,
      or has left the inbox. */
  lemma BatchOutcome(messages: map<string, MessageState>, failing: set<string>, ids: seq<string>, k: ActionKind)
    requires k != DryRun
    ensures
      var n := FirstFailure(messages, failing, ids);
      var after := ApplyAll(messages, ids[..n], k);
      && after.Keys == messages.Keys
      && (forall x :: x in messages && x in ids[..n] ==> after[x] == Mutate(messages[x], k))
      && (forall x :: x in messages && x !in ids[..n] ==> after[x] == messages[x])
      && (n == |ids| && k == Trash ==> forall x :: x in ids ==> x in after && after[x].trashed)
      && (n == |ids| && k == Archive ==> forall x :: x in ids ==> x in after && Inbox !in after[x].labels)
  {
    var n := FirstFailure(messages, failing, ids);
    ApplyAllEffect(messages, ids[..n], k);
    if n == |ids| {
      assert ids[..n] == ids;
      forall x | x in ids ensures x in messages {
        var j :| 0 <= j < |ids| && ids[j] == x;
        assert !MutationFails(messages, failing, ids[j]);
      }
    }
  }

  /** Trashing a, b, c where b fails: a is trashed, b is attempted and fails, c is never attempted. */
  lemma TrashStopsAtFailure(ma: MessageState, mb: MessageState, mc: MessageState)
    ensures
      var messages := map["a" := ma, "b" := mb, "c" := mc];
      var ids := ["a", "b", "c"];
      var n := FirstFailure(messages, {"b"}, ids);
      && n == 1
      && Requests(Attempted(ids, n), Trash) == [TrashRequest("a"), TrashRequest("b")]
      && ApplyAll(messages, ids[..n], Trash) == messages["a" := Trashed(ma)]
  {
  }

  // ---------------------------------------------------------------------------
  // The operation

  /** Whether the call reaches one of the mutating loops. */
  predicate Mutating(serviceAvailable: bool, action: string) {
    serviceAvailable && (ParseAction(action) == Some(Trash) || ParseAction(action) == Some(Archive))
  }

  /** The outcome of a trash or archive batch over `ids`: requests were sent for the ids up to and
      including the first failing one, the ids before it were mutated, and the call succeeds,
      citing |ids|, exactly when nothing failed. */
  ghost predicate BatchDone(before: map<string, MessageState>, logBefore: seq<Request>,
                            after: map<string, MessageState>, logAfter: seq<Request>,
                            failing: set<string>, ids: seq<string>, k: ActionKind, r: Result<string>)
    requires k != DryRun
  {
    var n := FirstFailure(before, failing, ids);
    && logAfter == logBefore + Requests(Attempted(ids, n), k)
    && after == ApplyAll(before, ids[..n], k)
    && (r.Ok? <==> n == |ids|)
    && (r.Ok? ==> r.value == Report(k, |ids|))
  }

  /** Send a trash request for each of `ids` in order, stopping at the first that fails;
      `ok` says whether none failed. */
  method TrashEach(mb: Mailbox, ids: seq<string>) returns (ok: bool)
    modifies mb
    ensures var n := FirstFailure(old(mb.messages), mb.failing, ids);
            && mb.log == old(mb.log) + Requests(Attempted(ids, n), Trash)
            && mb.messages == ApplyAll(old(mb.messages), ids[..n], Trash)
            && (ok <==> n == |ids|)
  {
    ghost var n := FirstFailure(mb.messages, mb.failing, ids);
    var i := 0;
    while i < |ids|
      invariant i <= n
      invariant mb.messages == ApplyAll(old(mb.messages), ids[..i], Trash)
      invariant mb.log == old(mb.log) + Requests(ids[..i], Trash)
    {
      var msgId := ids[i];
      ghost var prev := mb.messages;
      ok := mb.Trash(msgId);
      RequestsStep(ids, i, Trash);
      assert msgId in prev <==> msgId in old(mb.messages);
      if !ok {
        assert i == n && Attempted(ids, n) == ids[..i + 1];
        return;
      }
      ApplyAllStep(old(mb.messages), ids, i, Trash);
      assert mb.messages == prev[msgId := Mutate(prev[msgId], Trash)];
      i := i + 1;
    }
    assert ids[..i] == ids;
    ok := true;
  }

  /** Send a request removing the inbox label for each of `ids` in order, stopping at the first
      that fails; `ok` says whether none failed. */
  method ArchiveEach(mb: Mailbox, ids: seq<string>) returns (ok: bool)
    modifies mb
    ensures var n := FirstFailure(old(mb.messages), mb.failing, ids);
            && mb.log == old(mb.log) + Requests(Attempted(ids, n), Archive)
            && mb.messages == ApplyAll(old(mb.messages), ids[..n], Archive)
            && (ok <==> n == |ids|)
  {
    ghost var n := FirstFailure(mb.messages, mb.failing, ids);
    var body := [Inbox];
    var i := 0;
    while i < |ids|
      invariant i <= n
      invariant mb.messages == ApplyAll(old(mb.messages), ids[..i], Archive)
      invariant mb.log == old(mb.log) + Requests(ids[..i], Archive)
    {
      var msgId := ids[i];
      ghost var prev := mb.messages;
      ok := mb.Modify(msgId, body);
      RequestsStep(ids, i, Archive);
      assert msgId in prev <==> msgId in old(mb.messages);
      if !ok {
        assert i == n && Attempted(ids, n) == ids[..i + 1];
        return;
      }
      ApplyAllStep(old(mb.messages), ids, i, Archive);
      assert mb.messages == prev[msgId := Mutate(prev[msgId], Archive)];
      i := i + 1;
    }
    assert ids[..i] == ids;
    ok := true;
  }

  /** Apply `action` to the messages `emailIds` of `mb`. `serviceAvailable` says whether the
      authenticated client could be built. On success the summary cites |emailIds|,
      duplicates included. */
  method PerformAction(mb: Mailbox, emailIds: seq<string>, action: string, serviceAvailable: bool)
    returns (r: Result<string>)
    modifies mb
    // no client, a dry run or an unsupported action: nothing is sent and nothing changes
    ensures !Mutating(serviceAvailable, action) ==> mb.messages == old(mb.messages) && mb.log == old(mb.log)
    ensures !serviceAvailable ==> r == Err
    ensures serviceAvailable && ParseAction(action) == None ==> r == Err
    ensures serviceAvailable && ParseAction(action) == Some(DryRun) ==> r == Ok(Report(DryRun, |emailIds|))
    // trash or archive: mutate in order up to the first failure, which aborts the batch
    ensures Mutating(serviceAvailable, action) ==>
              BatchDone(old(mb.messages), old(mb.log), mb.messages, mb.log, mb.failing, emailIds,
                        ParseAction(action).value, r)
  {
    if !serviceAvailable {
      return Err;
    }

    if action == "dry-run" {
      return Ok("Dry-run: would apply '" + action + "' to " + ToDecimal(|emailIds|) + " emails.");
    }

    if action == "trash" {
      var ok := TrashEach(mb, emailIds);
      if !ok {
        return Err;
      }
      return Ok("Trashed " + ToDecimal(|emailIds|) + " emails.");
    }

    if action == "archive" {
      var ok := ArchiveEach(mb, emailIds);
      if !ok {
        return Err;
      }
      return Ok("Archived " + ToDecimal(|emailIds|) + " emails.");
    }

    return Err;
  }
}
