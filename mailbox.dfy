/** The mailbox provider as seen by the batch action: the state of each message and
    the mutation requests it receives. */
module Mailboxes {

  /** The label the archive action removes. */
  const Inbox: string := "INBOX"

  /** What the provider keeps about one message that the actions can change. */
  datatype MessageState = MessageState(labels: set<string>, trashed: bool)

  /** A mutation request sent to the provider. */
  datatype Request = TrashRequest(id: string) | ModifyRequest(id: string, removeLabelIds: seq<string>)

  /** A mutation of `id` fails when the mailbox has no such message or when the provider
      errs on it (`failing` is the set of ids on which it errs). */
  predicate MutationFails(messages: map<string, MessageState>, failing: set<string>, id: string) {
    id !in messages || id in failing
  }

  /** A message after a successful trash request. */
  function Trashed(m: MessageState): MessageState {
    m.(trashed := true)
  }

  /** A message after a successful request removing the labels `removeLabelIds`. */
  function WithoutLabels(m: MessageState, removeLabelIds: seq<string>): (r: MessageState)
    ensures r.trashed == m.trashed
    ensures forall l :: l in r.labels <==> l in m.labels && l !in removeLabelIds
  {
    m.(labels := m.labels - set l | l in removeLabelIds)
  }

  class Mailbox {
    /** The messages of the mailbox, by id. */
    var messages: map<string, MessageState>
    /** The ids whose mutation the provider answers with an error. */
    const failing: set<string>
    /** Every mutation request received, in order. */
    ghost var log: seq<Request>

    constructor (messages: map<string, MessageState>, failing: set<string>)
      ensures this.messages == messages && this.failing == failing && log == []
    {
      this.messages := messages;
      this.failing := failing;
      log := [];
    }

    /** Move message `id` to the trash; `ok` is false when the provider answers with an error,
        in which case nothing changes. */
    method Trash(id: string) returns (ok: bool)
      modifies this
      ensures log == old(log) + [TrashRequest(id)]
      ensures ok == !MutationFails(old(messages), failing, id)
      ensures messages == if ok then old(messages)[id := Trashed(old(messages)[id])]
                          else old(messages)
    {
      log := log + [TrashRequest(id)];
      ok := !MutationFails(messages, failing, id);
      if ok {
        messages := messages[id := Trashed(messages[id])];
      }
    }

    /** Remove the labels `removeLabelIds` from message `id`; `ok` is false when the provider
        answers with an error, in which case nothing changes. */
    method Modify(id: string, removeLabelIds: seq<string>) returns (ok: bool)
      modifies this
      ensures log == old(log) + [ModifyRequest(id, removeLabelIds)]
      ensures ok == !MutationFails(old(messages), failing, id)
      ensures messages == if ok then old(messages)[id := WithoutLabels(old(messages)[id], removeLabelIds)]
                          else old(messages)
    {
      log := log + [ModifyRequest(id, removeLabelIds)];
      ok := !MutationFails(messages, failing, id);
      if ok {
        messages := messages[id := WithoutLabels(messages[id], removeLabelIds)];
      }
    }
  }
}
