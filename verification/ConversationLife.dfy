/** The message lifecycle: what every conversation of every reachable store looks like, and what a streaming
    answer contains. */
module ConversationLife {
  import opened Strings
  import opened Sanitizer
  import opened ConversationSpec
  import opened ConversationOrder

  // ---------- Where a message can be streaming ----------

  /** Only the last message can be streaming; it is then an answer of a running conversation. */
  predicate Sound(c: Conversation) {
    forall i | 0 <= i < |c.messages| && c.messages[i].status.Streaming? ::
      i == |c.messages| - 1 && c.messages[i].role.Assistant? && c.status.Running?
  }

  predicate AllSound(st: Store) {
    forall id | id in st.items :: Sound(st.items[id])
  }

  lemma RevisedSound(c: Conversation, op: Op)
    requires Sound(c)
    ensures Sound(Revised(c, op))
  {
    hide Sanitize, TrimSpace, AsksSomething;
  }

  lemma ApplySound(st: Store, op: Op)
    requires InStep(st) && DrawsUnusedId(st, op) && AllSound(st)
    ensures AllSound(Apply(st, op))
  {
    hide Revised, Sound;
    match op
    case Create(_, request, now) =>
      OpenedSound(CreatedId(st, op.generated, request), request, now);
      CreateEvictsTheLast(st, op);
      CreateKeys(st, op);
      hide Apply;
    case Delete(_) =>
    case _ => if op.id in st.items { RevisedSound(st.items[op.id], op); }
  }

  lemma OpenedSound(id: string, request: Request, now: Time)
    ensures Sound(Opened(id, request, now))
  {}

  lemma CreateKeys(st: Store, op: Op)
    requires InStep(st) && op.Create?
    ensures forall k | k in Apply(st, op).items :: k in st.items || k == CreatedId(st, op.generated, op.request)
  {
    var id := CreatedId(st, op.generated, op.request);
    TrimOne(Store(st.items[id := Opened(id, op.request, op.now)], [id] + st.order));
    hide Opened;
  }

  /** In every store reached from one like it, only the last message of a conversation can be streaming, it is
      then an answer, and the conversation is running; so completed and failed conversations have none. */
  lemma {:induction false} RunsAreSound(start: Store, ops: seq<Op>)
    requires InStep(start) && AllSound(start) && AllUnused(start, ops)
    ensures AllSound(ApplyAll(start, ops))
  {
    if ops != [] {
      AllUnusedFront(start, ops);
      RunsAreSound(start, ops[..|ops| - 1]);
      RunsKeepOrder(start, ops[..|ops| - 1]);
      ApplySound(ApplyAll(start, ops[..|ops| - 1]), ops[|ops| - 1]);
      hide AllSound, Apply, AllUnused, InStep;
    }
  }

  /** No operation changes a message other than an open answer at the end. */
  lemma HistoryIsKept(c: Conversation, op: Op)
    ensures var kept := if OpenAnswer(c.messages) then c.messages[..|c.messages| - 1] else c.messages;
            kept <= Revised(c, op).messages && |Revised(c, op).messages| >= |c.messages|
  {
    hide Sanitize, TrimSpace, AsksSomething;
  }

  // ---------- What a streaming answer contains ----------

  function ReviseAll(c: Conversation, ops: seq<Op>): Conversation {
    if ops == [] then c else Revised(ReviseAll(c, ops[..|ops| - 1]), ops[|ops| - 1])
  }

  /** The last message is an open answer with exactly these deltas, or there are none and it is not. */
  predicate Carries(messages: seq<Message>, deltas: seq<string>) {
    && (OpenAnswer(messages) <==> deltas != [])
    && (OpenAnswer(messages) ==> messages[|messages| - 1].content == Concat(deltas))
  }

  lemma AppendCarries(c: Conversation, deltas: seq<string>, delta: string, now: Time)
    requires Carries(c.messages, deltas)
    ensures Carries(WithDelta(c, delta, now).messages, deltas + [delta])
  {
    assert (deltas + [delta])[..|deltas|] == deltas;
    assert deltas == [] ==> Concat(deltas) + delta == delta;
  }

  /** What one operation makes of the deltas pending. */
  function PendingAfter(deltas: seq<string>, op: Op): seq<string> {
    match op
    case AppendDelta(_, delta, _) => if TrimReturns(delta) != "" then deltas + [TrimReturns(delta)] else deltas
    case Complete(_, _, _) => []
    case Continue(_, request, _) => if AsksSomething(request) then [] else deltas
    case _ => deltas
  }

  /** The deltas since the last completion or question. */
  function Pending(ops: seq<Op>): seq<string> {
    if ops == [] then [] else PendingAfter(Pending(ops[..|ops| - 1]), ops[|ops| - 1])
  }

  lemma AbandonCarries(messages: seq<Message>, deltas: seq<string>, now: Time)
    requires Carries(messages, deltas)
    ensures Carries(AbandonAnswer(messages, now), deltas)
  {
    hide Concat;
  }

  lemma QuestionCarries(messages: seq<Message>, message: Message)
    requires message.role.User? || message.status.Completed?
    ensures Carries(messages + [message], [])
  {}

  lemma FinishCarries(c: Conversation, outcome: Outcome, now: Time)
    ensures Carries(Finished(c, outcome, now).messages, [])
  {
    hide Sanitize, TrimSpace, Concat;
  }

  lemma StepCarries(c: Conversation, op: Op, deltas: seq<string>)
    requires Carries(c.messages, deltas)
    ensures Carries(Revised(c, op).messages, PendingAfter(deltas, op))
  {
    hide Carries, AsksSomething, WithDelta, Finished, AbandonAnswer, TrimReturns, TrimSpace;
    match op
    case AppendDelta(_, delta, now) =>
      if TrimReturns(delta) != "" { AppendCarries(c, deltas, TrimReturns(delta), now); }
    case Complete(_, outcome, now) => FinishCarries(c, outcome, now);
    case Continue(_, request, now) =>
      AbandonCarries(c.messages, deltas, now);
      QuestionCarries(AbandonAnswer(c.messages, now), UserMessage(request, now));
      assert AbandonAnswer(c.messages, now) + [] == AbandonAnswer(c.messages, now);
    case Fail(_, _, now) => AbandonCarries(c.messages, deltas, now);
    case _ =>
  }

  lemma OpenedCarries(id: string, request: Request, now: Time)
    ensures Carries(Opened(id, request, now).messages, [])
  {
    hide TrimSpace, AsksSomething;
  }

  /** Whatever happens to a conversation after it was opened: its last message is an open answer exactly if
      deltas have come since the last completion or question, and it reads as their concatenation. Failures
      in between do not start the text afresh. */
  lemma {:induction false} AnswerIsItsDeltas(id: string, request: Request, now: Time, ops: seq<Op>)
    ensures Carries(ReviseAll(Opened(id, request, now), ops).messages, Pending(ops))
  {
    hide Revised, Carries, Opened, PendingAfter;
    if ops == [] {
      OpenedCarries(id, request, now);
    } else {
      AnswerIsItsDeltas(id, request, now, ops[..|ops| - 1]);
      StepCarries(ReviseAll(Opened(id, request, now), ops[..|ops| - 1]), ops[|ops| - 1], Pending(ops[..|ops| - 1]));
    }
  }

  /** A delta that arrives after the completion opens a second answer and sets the conversation running
      again, so it can no longer be deleted. */
  lemma LateDeltaReopens(st: Store, id: string, outcome: Outcome, delta: string, now: Time, later: Time)
    requires InStep(st) && id in st.items && TrimReturns(delta) != ""
    ensures var done := Apply(st, Complete(id, outcome, now));
            var late := Apply(done, AppendDelta(id, delta, later));
      && id in done.items && id in late.items
      && late.items[id].messages == done.items[id].messages
          + [Message(Assistant, Streaming, TrimReturns(delta), [], later, later)]
      && Apply(late, Delete(id)) == late
  {
    hide Sanitize, TrimSpace, MoveToFront, TrimReturns;
    assert "" + TrimReturns(delta) == TrimReturns(delta);
  }

  // ---------- From the store to one conversation ----------

  predicate Concerns(op: Op, id: string) {
    !op.Create? && !op.Delete? && op.id == id
  }

  function OpsFor(id: string, ops: seq<Op>): seq<Op> {
    if ops == [] then []
    else OpsFor(id, ops[..|ops| - 1]) + (if Concerns(ops[|ops| - 1], id) then [ops[|ops| - 1]] else [])
  }

  predicate StaysIn(st: Store, ops: seq<Op>, id: string) {
    forall i | 0 <= i <= |ops| :: id in ApplyAll(st, ops[..i]).items
  }

  lemma StepProjects(st: Store, op: Op, id: string)
    requires InStep(st) && DrawsUnusedId(st, op) && id in st.items && id in Apply(st, op).items
    ensures Apply(st, op).items[id] == if Concerns(op, id) then Revised(st.items[id], op) else st.items[id]
  {
    match op
    case Create(_, _, _) =>
      CreateEvictsTheLast(st, op);
      hide Apply;
    case _ =>
      hide Continued, WithDelta, Finished, FailedWith, WithEnvelopeIds, TrimReturns;
  }

  lemma StaysInFront(st: Store, ops: seq<Op>, id: string)
    requires StaysIn(st, ops, id)
    ensures id in st.items && id in ApplyAll(st, ops).items
    ensures ops != [] ==> StaysIn(st, ops[..|ops| - 1], id)
  {
    hide ApplyAll;
    assert ops[..0] == [] && ops[..|ops|] == ops;
    assert id in ApplyAll(st, ops[..0]).items && id in ApplyAll(st, ops[..|ops|]).items;
    assert ApplyAll(st, []) == st by { NothingApplied(st); }
    if ops != [] {
      var front := ops[..|ops| - 1];
      assert forall i | 0 <= i <= |front| :: front[..i] == ops[..i];
    }
  }

  lemma NothingApplied(st: Store)
    ensures ApplyAll(st, []) == st
  {}

  /** As long as a conversation stays in the store, it is what the operations on it alone make of it. */
  lemma {:induction false} RunProjects(st: Store, ops: seq<Op>, id: string)
    requires InStep(st) && AllUnused(st, ops) && StaysIn(st, ops, id)
    ensures InStep(ApplyAll(st, ops)) && id in st.items && id in ApplyAll(st, ops).items
    ensures ApplyAll(st, ops).items[id] == ReviseAll(st.items[id], OpsFor(id, ops))
  {
    hide Apply, Revised, InStep, AllUnused, StaysIn;
    StaysInFront(st, ops, id);
    if ops != [] {
      var front, op := ops[..|ops| - 1], ops[|ops| - 1];
      AllUnusedFront(st, ops);
      RunProjects(st, front, id);
      var before, own := ApplyAll(st, front), OpsFor(id, front);
      StaysInStep(before, op);
      StepProjects(before, op, id);
      assert (own + [op])[..|own|] == own;
      assert own + [] == own;
    }
  }

  /** A conversation created in a store, through any further run that keeps it: its open answer is the
      concatenation of the deltas sent to it since its last completion or question. */
  lemma CreatedAnswerIsItsDeltas(st: Store, create: Op, ops: seq<Op>)
    requires InStep(st) && create.Create? && DrawsUnusedId(st, create)
    requires AllUnused(Apply(st, create), ops)
    requires StaysIn(Apply(st, create), ops, CreatedId(st, create.generated, create.request))
    ensures var id := CreatedId(st, create.generated, create.request);
            var after := ApplyAll(Apply(st, create), ops);
      id in after.items && Carries(after.items[id].messages, Pending(OpsFor(id, ops)))
  {
    var id := CreatedId(st, create.generated, create.request);
    CreateEvictsTheLast(st, create);
    StaysInStep(st, create);
    RunProjects(Apply(st, create), ops, id);
    AnswerIsItsDeltas(id, create.request, create.now, OpsFor(id, ops));
    hide Apply, ApplyAll, Carries, Opened;
  }
}
