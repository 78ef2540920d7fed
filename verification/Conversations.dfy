/** The conversation store: entries on the heap, shared with readers. Every change is made on a fresh copy
    that then replaces the entry, so what a reader holds never changes. */
module Conversations {
  import opened Wrappers
  import opened Strings
  import opened Sanitizer
  import opened ConversationSpec
  import Spec = ConversationSpec

  /** A `ConversationEntry`. `messages` is the backing array of its slice. */
  class Entry {
    var id: string
    var status: Status
    var error: string
    var ephemeral: bool
    var autoDeleteAt: Option<Time>
    var createdAt: Time
    var updatedAt: Time
    var responseId: string
    var completionId: string
    var threadId: string
    var messages: array<Message>

    ghost function View(): Conversation
      reads this, messages
    {
      Conversation(id, status, error, ephemeral, autoDeleteAt, createdAt, updatedAt, responseId, completionId,
                   threadId, messages[..])
    }

    constructor Open(id: string, request: Request, now: Time)
      ensures View() == Opened(id, request, now) && fresh(messages)
    {
      hide TrimSpace;
      this.id := id;
      status, error := Running, "";
      ephemeral, autoDeleteAt := request.ephemeral, request.autoDeleteAt;
      createdAt, updatedAt := now, now;
      responseId, completionId, threadId := "", "", "";
      messages := new Message[0];
      new;
      if AsksSomething(request) {
        Append(UserMessage(request, now));
      }
    }

    constructor Stored(c: Conversation)
      ensures View() == c && fresh(messages)
    {
      id, status, error, ephemeral, autoDeleteAt := c.id, c.status, c.error, c.ephemeral, c.autoDeleteAt;
      createdAt, updatedAt := c.createdAt, c.updatedAt;
      responseId, completionId, threadId := c.responseId, c.completionId, c.threadId;
      var own := new Message[|c.messages|](i requires 0 <= i < |c.messages| => c.messages[i]);
      messages := own;
      new;
      assert messages[..] == c.messages;
    }

    /** `copyConversationEntryValue`: the copy shares the messages. */
    constructor Shallow(from: Entry)
      ensures View() == from.View() && messages == from.messages
    {
      id, status, error, ephemeral, autoDeleteAt := from.id, from.status, from.error, from.ephemeral, from.autoDeleteAt;
      createdAt, updatedAt := from.createdAt, from.updatedAt;
      responseId, completionId, threadId := from.responseId, from.completionId, from.threadId;
      messages := from.messages;
    }

    /** `cloneConversationEntry`: the copy has messages of its own. */
    constructor Deep(from: Entry)
      ensures View() == from.View() && fresh(messages)
    {
      id, status, error, ephemeral, autoDeleteAt := from.id, from.status, from.error, from.ephemeral, from.autoDeleteAt;
      createdAt, updatedAt := from.createdAt, from.updatedAt;
      responseId, completionId, threadId := from.responseId, from.completionId, from.threadId;
      var own := new Message[from.messages.Length](i requires 0 <= i < from.messages.Length
        reads from, from.messages => from.messages[i]);
      messages := own;
      new;
      assert messages[..] == from.messages[..];
    }

    method Append(message: Message)
      modifies this`messages
      ensures fresh(messages) && messages[..] == old(messages[..]) + [message]
    {
      var n := messages.Length;
      var longer := new Message[n + 1](i requires 0 <= i <= n reads this, messages =>
        if i < messages.Length then messages[i] else message);
      assert longer[..] == messages[..] + [message];
      messages := longer;
    }

    method AbandonAnswer(now: Time)
      modifies messages
      ensures messages[..] == Spec.AbandonAnswer(old(messages[..]), now)
    {
      var n := messages.Length;
      if n > 0 && messages[n - 1].role.Assistant? && !messages[n - 1].status.Completed? {
        messages[n - 1] := messages[n - 1].(status := Failed, updatedAt := now);
      }
    }

    /** `ensureAssistantMessageLocked`. */
    method EnsureAnswer(now: Time)
      modifies this`messages, messages
      ensures messages == old(messages) || fresh(messages)
      ensures messages[..] == Spec.EnsureAnswer(old(messages[..]), now)
    {
      var n := messages.Length;
      if n > 0 && messages[n - 1].role.Assistant? && !messages[n - 1].status.Completed? {
        messages[n - 1] := messages[n - 1].(updatedAt := now);
        return;
      }
      Append(Message(Assistant, Streaming, "", [], now, now));
    }

    function Last(): (m: Message)
      requires messages.Length > 0
      reads this, messages
      ensures m == messages[..][|messages[..]| - 1]
    {
      messages[messages.Length - 1]
    }

    method SetLast(message: Message)
      requires messages.Length > 0
      modifies messages
      ensures messages[..] == Spec.SetLast(old(messages[..]), message)
    {
      messages[messages.Length - 1] := message;
    }

    // Each of these makes a changed deep copy.

    method Continued(request: Request, now: Time) returns (next: Entry)
      ensures fresh(next) && next.View() == Spec.Continued(View(), request, now)
    {
      hide TrimSpace, Spec.AbandonAnswer, UserMessage, AsksSomething;
      next := new Entry.Deep(this);
      if request.ephemeral {
        next.ephemeral := true;
        if request.autoDeleteAt.Some? {
          next.autoDeleteAt := request.autoDeleteAt;
        }
      }
      next.status, next.error, next.updatedAt := Running, "", now;
      next.Ask(request, now);
    }

    method Ask(request: Request, now: Time)
      modifies this`messages, messages
      ensures messages == old(messages) || fresh(messages)
      ensures messages[..] == Spec.AbandonAnswer(old(messages[..]), now)
                              + (if AsksSomething(request) then [UserMessage(request, now)] else [])
    {
      hide TrimSpace, Spec.AbandonAnswer, UserMessage;
      AbandonAnswer(now);
      if TrimSpace(request.prompt) != "" || |request.attachments| > 0 {
        Append(UserMessage(request, now));
      }
    }

    method WithEnvelopeIds(responseId: string, completionId: string, now: Time) returns (next: Entry)
      ensures fresh(next) && next.View() == Spec.WithEnvelopeIds(View(), responseId, completionId, now)
    {
      hide TrimSpace;
      next := new Entry.Deep(this);
      if TrimSpace(responseId) != "" {
        next.responseId := TrimSpace(responseId);
      }
      if TrimSpace(completionId) != "" {
        next.completionId := TrimSpace(completionId);
      }
      next.updatedAt := now;
    }

    method WithDelta(delta: string, now: Time) returns (next: Entry)
      ensures fresh(next) && next.View() == Spec.WithDelta(View(), delta, now)
    {
      hide Spec.EnsureAnswer, Spec.SetLast;
      next := new Entry.Deep(this);
      next.EnsureAnswer(now);
      var answer := next.Last();
      next.SetLast(answer.(content := answer.content + delta, status := Streaming, updatedAt := now));
      next.status, next.updatedAt := Running, now;
    }

    method Finished(outcome: Outcome, now: Time) returns (next: Entry)
      ensures fresh(next) && next.View() == Spec.Finished(View(), outcome, now)
    {
      hide TrimSpace, Sanitize, Spec.EnsureAnswer, Spec.SetLast;
      next := new Entry.Deep(this);
      next.status, next.updatedAt := Completed, now;
      if next.ephemeral {
        next.autoDeleteAt := Some(now + QUIET_TTL);
      }
      next.threadId, next.error := TrimSpace(outcome.threadId), "";
      next.CompleteAnswer(outcome, now);
    }

    method CompleteAnswer(outcome: Outcome, now: Time)
      modifies this`messages, messages
      ensures messages == old(messages) || fresh(messages)
      ensures var open := Spec.EnsureAnswer(old(messages[..]), now);
        messages[..] == Spec.SetLast(open, open[|open| - 1].(status := Completed, content := Sanitize(outcome.text),
                                                            attachments := outcome.attachments, updatedAt := now))
    {
      hide Sanitize, Spec.EnsureAnswer, Spec.SetLast;
      EnsureAnswer(now);
      var answer := Last();
      var clean := SanitizeAssistantVisibleText(outcome.text);
      SetLast(answer.(status := Completed, content := clean, attachments := outcome.attachments, updatedAt := now));
    }

    method FailedWith(error: string, now: Time) returns (next: Entry)
      ensures fresh(next) && next.View() == Spec.FailedWith(View(), error, now)
    {
      hide TrimSpace, Spec.AbandonAnswer;
      next := new Entry.Deep(this);
      next.status, next.error, next.updatedAt := Failed, TrimSpace(error), now;
      if next.ephemeral {
        next.autoDeleteAt := Some(now + QUIET_TTL);
      }
      next.AbandonAnswer(now);
    }
  }

  class ConversationStore {
    var items: map<string, Entry>
    var order: seq<string>

    ghost function View(): Store
      reads this, items.Values, set e | e in items.Values :: e.messages
    {
      Store(map id | id in items :: items[id].View(), order)
    }

    constructor ()
      ensures View() == EMPTY
    {
      items, order := map[], [];
    }

    /** `newConversationStoreFromEntries`. */
    constructor FromEntries(entries: seq<Conversation>)
      ensures View() == Loaded(entries)
    {
      items, order := map[], [];
      new;
      hide ById, Ids, Spec.Trim;
      NoneLoaded(entries);
      for i := 0 to |entries|
        invariant View() == Store(ById(entries[..i]), Ids(entries[..i]))
      {
        OneMoreLoaded(entries, i);
        var entry := new Entry.Stored(entries[i]);
        Add(entry);
      }
      assert entries[..|entries|] == entries;
      Trim();
    }

    method Add(entry: Entry)
      modifies this
      ensures items == old(items)[entry.id := entry]
      ensures View() == Store(old(View()).items[entry.id := entry.View()], old(order) + [entry.id])
    {
      items := items[entry.id := entry];
      order := order + [entry.id];
    }

    /** `moveToFrontLocked`. */
    method MoveToFront(id: string)
      modifies this`order
      ensures order == Spec.MoveToFront(old(order), id)
    {
      if |order| == 0 || order[0] == id {
        return;
      }
      var next := [id];
      for i := 0 to |order|
        invariant next == [id] + Without(order[..i], id)
      {
        assert order[..i + 1][..i] == order[..i];
        if order[i] != id {
          next := next + [order[i]];
        }
      }
      assert order[..|order|] == order;
      order := next;
    }

    /** `trimLocked`. */
    method Trim()
      modifies this
      ensures View() == Spec.Trim(old(View()))
    {
      hide Spec.Trim;
      while |order| > MAX_ENTRIES
        invariant items.Values <= old(items.Values)
        invariant Spec.Trim(View()) == Spec.Trim(old(View()))
        decreases |order|
      {
        var last := order[|order| - 1];
        ghost var before := View();
        items := items - {last};
        order := order[..|order| - 1];
        assert View() == Store(before.items - {last}, before.order[..|before.order| - 1]);
        TrimOneStep(before);
      }
      TrimOneStep(View());
    }

    /** Puts a revised entry in place of the one under its id, which is left as it is, and moves it to the front. */
    method Replace(id: string, next: Entry)
      modifies this
      ensures items == old(items)[id := next]
      ensures View() == Store(old(View()).items[id := next.View()], Spec.MoveToFront(old(order), id))
    {
      hide Spec.MoveToFront;
      items := items[id := next];
      MoveToFront(id);
    }

    method Create(generated: string, request: Request, now: Time) returns (snapshot: Entry, sent: Entry)
      modifies this
      ensures View() == Apply(old(View()), Spec.Create(generated, request, now))
      ensures fresh(sent) && fresh(snapshot)
      ensures snapshot.View() == sent.View() == Opened(CreatedId(old(View()), generated, request), request, now)
    {
      hide TrimSpace, Opened, Spec.Trim;
      var id := TrimSpace(request.preferredId);
      if id == "" {
        id := generated;
      }
      if id in items {
        id := generated;
      }
      sent := new Entry.Open(id, request, now);
      InsertFirst(id, sent);
      snapshot := new Entry.Shallow(sent);
    }

    method InsertFirst(id: string, entry: Entry)
      modifies this
      ensures View() == Spec.Trim(Store(old(View()).items[id := entry.View()], [id] + old(order)))
    {
      hide Spec.Trim;
      items := items[id := entry];
      order := [id] + order;
      assert View() == Store(old(View()).items[id := entry.View()], [id] + old(order));
      Trim();
    }

    method Continue(id: string, request: Request, now: Time) returns (snapshot: Entry?, sent: Entry?)
      modifies this
      ensures View() == Apply(old(View()), Spec.Continue(id, request, now))
      ensures (snapshot != null <==> id in old(items)) && (sent != null <==> id in old(items))
      ensures snapshot != null && sent != null ==>
        fresh(sent) && fresh(snapshot)
          && snapshot.View() == sent.View() == Spec.Continued(old(View()).items[id], request, now)
    {
      hide Spec.Continued, Spec.MoveToFront;
      snapshot, sent := null, null;
      if id !in items {
        return;
      }
      var next := items[id].Continued(request, now);
      Replace(id, next);
      sent := next;
      snapshot := new Entry.Shallow(next);
    }

    method SetEnvelopeIds(id: string, responseId: string, completionId: string, now: Time) returns (sent: Entry?)
      modifies this
      ensures View() == Apply(old(View()), Spec.SetEnvelopeIds(id, responseId, completionId, now))
      ensures sent != null ==> fresh(sent) && id in View().items && sent.View() == View().items[id]
    {
      hide Spec.WithEnvelopeIds, Spec.MoveToFront;
      sent := null;
      if id !in items {
        return;
      }
      var next := items[id].WithEnvelopeIds(responseId, completionId, now);
      Replace(id, next);
      sent := next;
    }

    method AppendAssistantDelta(id: string, delta: string, now: Time) returns (sent: Entry?)
      modifies this
      ensures View() == Apply(old(View()), Spec.AppendDelta(id, delta, now))
      ensures sent != null ==> fresh(sent) && id in View().items && sent.View() == View().items[id]
    {
      hide TrimReturns, Spec.WithDelta, Spec.MoveToFront;
      sent := null;
      if TrimReturns(delta) == "" || id !in items {
        return;
      }
      var next := items[id].WithDelta(TrimReturns(delta), now);
      Replace(id, next);
      sent := next;
    }

    method Complete(id: string, outcome: Outcome, now: Time) returns (sent: Entry?)
      modifies this
      ensures View() == Apply(old(View()), Spec.Complete(id, outcome, now))
      ensures sent != null ==> fresh(sent) && id in View().items && sent.View() == View().items[id]
    {
      hide Spec.Finished, Spec.MoveToFront;
      sent := null;
      if id !in items {
        return;
      }
      var next := items[id].Finished(outcome, now);
      Replace(id, next);
      sent := next;
    }

    method Fail(id: string, error: Option<string>, now: Time) returns (sent: Entry?)
      modifies this
      ensures View() == Apply(old(View()), Spec.Fail(id, error, now))
      ensures sent != null ==> fresh(sent) && id in View().items && sent.View() == View().items[id]
    {
      hide Spec.FailedWith, Spec.MoveToFront;
      sent := null;
      if error.None? || id !in items {
        return;
      }
      var next := items[id].FailedWith(error.value, now);
      Replace(id, next);
      sent := next;
    }

    method Delete(id: string) returns (ok: bool)
      modifies this
      ensures View() == Apply(old(View()), Spec.Delete(id))
      ensures ok <==> id in old(items) && !old(items[id].status).Running?
    {
      if id !in items || items[id].status.Running? {
        return false;
      }
      items := items - {id};
      var next := [];
      for i := 0 to |order|
        invariant next == Without(order[..i], id)
      {
        assert order[..i + 1][..i] == order[..i];
        if order[i] != id {
          next := next + [order[i]];
        }
      }
      assert order[..|order|] == order;
      order := next;
      return true;
    }

    method Get(id: string) returns (snapshot: Entry?)
      ensures snapshot != null <==> id in items
      ensures snapshot != null ==> fresh(snapshot) && snapshot.View() == View().items[id]
    {
      if id !in items {
        return null;
      }
      snapshot := new Entry.Shallow(items[id]);
    }
  }

  // ---------- Snapshots ----------

  method Perform(store: ConversationStore, op: Op)
    modifies store
    ensures store.View() == Apply(old(store.View()), op)
  {
    match op
    case Create(generated, request, now) => var _, _ := store.Create(generated, request, now);
    case Continue(id, request, now) => var _, _ := store.Continue(id, request, now);
    case SetEnvelopeIds(id, responseId, completionId, now) =>
      var _ := store.SetEnvelopeIds(id, responseId, completionId, now);
    case AppendDelta(id, delta, now) => var _ := store.AppendAssistantDelta(id, delta, now);
    case Complete(id, outcome, now) => var _ := store.Complete(id, outcome, now);
    case Fail(id, error, now) => var _ := store.Fail(id, error, now);
    case Delete(id) => var _ := store.Delete(id);
  }

  /** What a reader got before any number of further operations still reads the same after them, although it
      shares its messages with the store, and so does every entry sent out in an event. */
  method ReadThenRun(store: ConversationStore, id: string, sent: Entry, ops: seq<Op>) returns (snapshot: Entry?)
    modifies store
    ensures store.View() == ApplyAll(old(store.View()), ops)
    ensures snapshot != null <==> id in old(store.items)
    ensures snapshot != null ==> snapshot.View() == old(store.View()).items[id]
    ensures sent.View() == old(sent.View())
  {
    snapshot := store.Get(id);
    for i := 0 to |ops|
      invariant store.View() == ApplyAll(old(store.View()), ops[..i])
      invariant snapshot != null ==> snapshot.View() == old(store.View()).items[id]
      invariant sent.View() == old(sent.View())
    {
      assert ops[..i + 1][..i] == ops[..i];
      Perform(store, ops[i]);
    }
    assert ops[..|ops|] == ops;
  }
}
