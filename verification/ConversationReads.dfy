/** What a conversation reads like, told from the calls made on it: its questions, its answers, and every field by
    the last call that sets it. */
module ConversationReads {
  import opened Wrappers
  import opened Strings
  import opened Sanitizer
  import opened ConversationSpec
  import opened ConversationOrder
  import opened ConversationLife

  // ---------- Questions and answers ----------

  datatype Text = Text(content: string, attachments: seq<string>, at: Time)

  /** The user messages, in order. */
  function Questions(messages: seq<Message>): seq<Text> {
    if messages == [] then []
    else
      var last := messages[|messages| - 1];
      Questions(messages[..|messages| - 1])
      + (if last.role.User? && last.status.Completed? then [Text(last.content, last.attachments, last.createdAt)]
         else [])
  }

  /** The completed answers, in order. */
  function Answers(messages: seq<Message>): seq<Text> {
    if messages == [] then []
    else
      var last := messages[|messages| - 1];
      Answers(messages[..|messages| - 1])
      + (if last.role.Assistant? && last.status.Completed? then [Text(last.content, last.attachments, last.updatedAt)]
         else [])
  }

  /** A request asks with its prompt, less the spaces around it, and its attachments; with neither it asks nothing. */
  function Asked(request: Request, at: Time): seq<Text> {
    if TrimSpace(request.prompt) == "" && |request.attachments| == 0 then []
    else [Text(TrimSpace(request.prompt), request.attachments, at)]
  }

  function AskedIn(ops: seq<Op>): seq<Text> {
    if ops == [] then []
    else
      var last := ops[|ops| - 1];
      AskedIn(ops[..|ops| - 1]) + (if last.Continue? then Asked(last.request, last.now) else [])
  }

  function AnsweredIn(ops: seq<Op>): seq<Text> {
    if ops == [] then []
    else
      var last := ops[|ops| - 1];
      AnsweredIn(ops[..|ops| - 1])
      + (if last.Complete? then [Text(Sanitize(last.outcome.text), last.outcome.attachments, last.now)] else [])
  }

  /** No message is anything but a question, a completed answer or an answer that is open or failed. */
  predicate Ordinary(messages: seq<Message>) {
    forall m | m in messages :: (m.role.User? && m.status.Completed?) || m.role.Assistant?
  }

  lemma OneMore(messages: seq<Message>, m: Message)
    ensures Questions(messages + [m]) == Questions(messages)
      + (if m.role.User? && m.status.Completed? then [Text(m.content, m.attachments, m.createdAt)] else [])
    ensures Answers(messages + [m]) == Answers(messages)
      + (if m.role.Assistant? && m.status.Completed? then [Text(m.content, m.attachments, m.updatedAt)] else [])
  {
    assert (messages + [m])[..|messages|] == messages;
  }

  /** Rewriting an open answer at the end adds nothing unless it is completed by that. */
  lemma LastRewritten(messages: seq<Message>, m: Message)
    requires OpenAnswer(messages) && m.role.Assistant?
    ensures Questions(SetLast(messages, m)) == Questions(messages)
    ensures Answers(SetLast(messages, m)) == Answers(messages)
      + (if m.status.Completed? then [Text(m.content, m.attachments, m.updatedAt)] else [])
    ensures Ordinary(messages) ==> Ordinary(SetLast(messages, m))
  {
    var front := messages[..|messages| - 1];
    assert messages == front + [messages[|messages| - 1]] && SetLast(messages, m) == front + [m];
    OneMore(front, messages[|messages| - 1]);
    OneMore(front, m);
    assert forall x | x in SetLast(messages, m) :: x in front || x == m;
  }

  lemma AbandonReads(messages: seq<Message>, now: Time)
    ensures var after := AbandonAnswer(messages, now);
      Questions(after) == Questions(messages) && Answers(after) == Answers(messages)
      && (Ordinary(messages) ==> Ordinary(after))
  {
    hide Questions, Answers, Ordinary;
    if OpenAnswer(messages) {
      LastRewritten(messages, messages[|messages| - 1].(status := Failed, updatedAt := now));
      assert Answers(messages) + [] == Answers(messages);
    }
  }

  lemma EnsureReads(messages: seq<Message>, now: Time)
    ensures var after := EnsureAnswer(messages, now);
      && OpenAnswer(after) && Questions(after) == Questions(messages) && Answers(after) == Answers(messages)
      && (Ordinary(messages) ==> Ordinary(after))
  {
    if OpenAnswer(messages) {
      hide Questions, Answers, Ordinary;
      LastRewritten(messages, messages[|messages| - 1].(updatedAt := now));
      assert Answers(messages) + [] == Answers(messages);
    } else {
      OneMore(messages, Message(Assistant, Streaming, "", [], now, now));
      assert Answers(messages) + [] == Answers(messages) && Questions(messages) + [] == Questions(messages);
    }
  }

  lemma AskReads(messages: seq<Message>, request: Request, now: Time)
    ensures var after := messages + (if AsksSomething(request) then [UserMessage(request, now)] else []);
      && Questions(after) == Questions(messages) + Asked(request, now) && Answers(after) == Answers(messages)
      && (Ordinary(messages) ==> Ordinary(after))
  {
    hide TrimSpace;
    assert messages + [] == messages;
    assert Answers(messages) + [] == Answers(messages) && Questions(messages) + [] == Questions(messages);
    if AsksSomething(request) { OneMore(messages, UserMessage(request, now)); }
  }

  lemma StepReads(c: Conversation, op: Op)
    ensures var after := Revised(c, op).messages;
      && Questions(after) == Questions(c.messages) + (if op.Continue? then Asked(op.request, op.now) else [])
      && Answers(after) == Answers(c.messages)
         + (if op.Complete? then [Text(Sanitize(op.outcome.text), op.outcome.attachments, op.now)] else [])
      && (Ordinary(c.messages) ==> Ordinary(after))
  {
    hide Questions, Answers, Ordinary, Asked, AsksSomething, AbandonAnswer, EnsureAnswer, OpenAnswer;
    hide Sanitize, TrimSpace, TrimReturns;
    assert Questions(c.messages) + [] == Questions(c.messages) && Answers(c.messages) + [] == Answers(c.messages);
    match op
    case Continue(_, request, now) =>
      AbandonReads(c.messages, now);
      AskReads(AbandonAnswer(c.messages, now), request, now);
    case AppendDelta(_, delta, now) =>
      var ready := EnsureAnswer(c.messages, now);
      var answer := ready[|ready| - 1];
      EnsureReads(c.messages, now);
      LastRewritten(ready,
        answer.(content := answer.content + TrimReturns(delta), status := Streaming, updatedAt := now)) by {
        OpenIsAnswer(ready);
      }
    case Complete(_, outcome, now) =>
      var ready := EnsureAnswer(c.messages, now);
      EnsureReads(c.messages, now);
      LastRewritten(ready, ready[|ready| - 1].(status := Completed, content := Sanitize(outcome.text),
                                               attachments := outcome.attachments, updatedAt := now)) by {
        OpenIsAnswer(ready);
      }
    case Fail(_, _, now) => AbandonReads(c.messages, now);
    case _ =>
  }

  lemma OpenIsAnswer(messages: seq<Message>)
    requires OpenAnswer(messages)
    ensures messages != [] && messages[|messages| - 1].role.Assistant?
  {}

  lemma OpenedReads(id: string, request: Request, now: Time)
    ensures var messages := Opened(id, request, now).messages;
      Questions(messages) == Asked(request, now) && Answers(messages) == [] && Ordinary(messages)
  {
    hide TrimSpace;
    AskReads([], request, now);
    assert [] + Asked(request, now) == Asked(request, now);
    assert forall more: seq<Message> :: [] + more == more;
  }

  /** Whatever calls follow its creation: the questions of a conversation are what was asked, the completed answers
      what it was completed with, and the rest are answers that are open or failed. */
  lemma {:induction false} ReadsAsCalled(id: string, request: Request, now: Time, ops: seq<Op>)
    ensures var messages := ReviseAll(Opened(id, request, now), ops).messages;
      && Questions(messages) == Asked(request, now) + AskedIn(ops) && Answers(messages) == AnsweredIn(ops)
      && Ordinary(messages)
  {
    hide Questions, Answers, Ordinary, Asked, Revised, Opened, Sanitize;
    if ops == [] {
      OpenedReads(id, request, now);
      assert Asked(request, now) + [] == Asked(request, now);
    } else {
      var front, last := ops[..|ops| - 1], ops[|ops| - 1];
      ReadsAsCalled(id, request, now, front);
      StepReads(ReviseAll(Opened(id, request, now), front), last);
    }
  }

  // ---------- Every field by its last writer ----------

  function StatusBy(ops: seq<Op>): Status {
    if ops == [] then Running
    else match ops[|ops| - 1]
      case Continue(_, _, _) => Running
      case AppendDelta(_, delta, _) => if TrimReturns(delta) == "" then StatusBy(ops[..|ops| - 1]) else Running
      case Complete(_, _, _) => Completed
      case Fail(_, Some(_), _) => Failed
      case _ => StatusBy(ops[..|ops| - 1])
  }

  /** The error of a failure stays until a question or a completion; an answer that goes on does not clear it. */
  function ErrorBy(ops: seq<Op>): string {
    if ops == [] then ""
    else match ops[|ops| - 1]
      case Continue(_, _, _) => ""
      case Complete(_, _, _) => ""
      case Fail(_, Some(error), _) => TrimSpace(error)
      case _ => ErrorBy(ops[..|ops| - 1])
  }

  function UpdatedBy(created: Time, ops: seq<Op>): Time {
    if ops == [] then created
    else match ops[|ops| - 1]
      case AppendDelta(_, delta, now) => if TrimReturns(delta) == "" then UpdatedBy(created, ops[..|ops| - 1]) else now
      case Fail(_, None, _) => UpdatedBy(created, ops[..|ops| - 1])
      case Create(_, _, _) => UpdatedBy(created, ops[..|ops| - 1])
      case Delete(_) => UpdatedBy(created, ops[..|ops| - 1])
      case _ => ops[|ops| - 1].now
  }

  function ThreadBy(ops: seq<Op>): string {
    if ops == [] then ""
    else if ops[|ops| - 1].Complete? then TrimSpace(ops[|ops| - 1].outcome.threadId) else ThreadBy(ops[..|ops| - 1])
  }

  function ResponseBy(ops: seq<Op>): string {
    if ops == [] then ""
    else match ops[|ops| - 1]
      case SetEnvelopeIds(_, id, _, _) => if TrimSpace(id) == "" then ResponseBy(ops[..|ops| - 1]) else TrimSpace(id)
      case _ => ResponseBy(ops[..|ops| - 1])
  }

  function CompletionBy(ops: seq<Op>): string {
    if ops == [] then ""
    else match ops[|ops| - 1]
      case SetEnvelopeIds(_, _, id, _) => if TrimSpace(id) == "" then CompletionBy(ops[..|ops| - 1]) else TrimSpace(id)
      case _ => CompletionBy(ops[..|ops| - 1])
  }

  /** Once a question makes it ephemeral it stays so. */
  predicate EphemeralBy(request: Request, ops: seq<Op>) {
    request.ephemeral || exists i | 0 <= i < |ops| :: ops[i].Continue? && ops[i].request.ephemeral
  }

  /** The time to delete it: given by an ephemeral question, or ten minutes after an ephemeral one ended. */
  function DeadlineBy(request: Request, ops: seq<Op>): Option<Time> {
    if ops == [] then request.autoDeleteAt
    else
      var front := ops[..|ops| - 1];
      match ops[|ops| - 1]
      case Continue(_, more, _) =>
        if more.ephemeral && more.autoDeleteAt.Some? then more.autoDeleteAt else DeadlineBy(request, front)
      case Complete(_, _, now) => if EphemeralBy(request, front) then Some(now + 600) else DeadlineBy(request, front)
      case Fail(_, Some(_), now) => if EphemeralBy(request, front) then Some(now + 600) else DeadlineBy(request, front)
      case _ => DeadlineBy(request, front)
  }

  lemma EphemeralMore(request: Request, ops: seq<Op>)
    requires ops != []
    ensures var last := ops[|ops| - 1];
      EphemeralBy(request, ops) <==>
        EphemeralBy(request, ops[..|ops| - 1]) || (last.Continue? && last.request.ephemeral)
  {
    assert forall i | 0 <= i < |ops| - 1 :: ops[..|ops| - 1][i] == ops[i];
  }

  /** Every field of a conversation is what the last call that sets it says, and the rest are as created. */
  lemma {:induction false} FieldsAsCalled(id: string, request: Request, now: Time, ops: seq<Op>)
    ensures var c := ReviseAll(Opened(id, request, now), ops);
      && c.id == id && c.createdAt == now && c.updatedAt == UpdatedBy(now, ops)
      && c.status == StatusBy(ops) && c.error == ErrorBy(ops)
      && c.threadId == ThreadBy(ops) && c.responseId == ResponseBy(ops) && c.completionId == CompletionBy(ops)
      && (c.ephemeral <==> EphemeralBy(request, ops)) && c.autoDeleteAt == DeadlineBy(request, ops)
  {
    hide Sanitize, TrimSpace, TrimReturns, EnsureAnswer, AbandonAnswer, AsksSomething, EphemeralBy;
    hide UserMessage, SetLast;
    if ops == [] {
      NotYetContinued(request);
    } else {
      FieldsAsCalled(id, request, now, ops[..|ops| - 1]);
      EphemeralMore(request, ops);
    }
  }

  lemma NotYetContinued(request: Request)
    ensures EphemeralBy(request, []) <==> request.ephemeral
  {}

  /** A delta loses exactly the carriage returns at its end. */
  lemma {:induction false} ReturnsTrimmed(delta: string)
    ensures TrimReturns(delta) <= delta
    ensures forall i | |TrimReturns(delta)| <= i < |delta| :: delta[i] == '\r'
    ensures TrimReturns(delta) == "" || TrimReturns(delta)[|TrimReturns(delta)| - 1] != '\r'
  {
    if delta != "" && delta[|delta| - 1] == '\r' { ReturnsTrimmed(delta[..|delta| - 1]); }
  }

  predicate StreamingAfter(before: bool, op: Op) {
    match op
    case AppendDelta(_, delta, _) => TrimReturns(delta) != "" || before
    case Continue(_, _, _) => false
    case Complete(_, _, _) => false
    case Fail(_, Some(_), _) => false
    case _ => before
  }

  /** The open answer is streaming if the last call that touches it was a delta; the others make it failed. */
  predicate StreamingBy(ops: seq<Op>) {
    ops != [] && StreamingAfter(StreamingBy(ops[..|ops| - 1]), ops[|ops| - 1])
  }

  /** An open answer has no attachments, and is streaming or failed. */
  predicate OpenAs(messages: seq<Message>, streaming: bool) {
    OpenAnswer(messages) ==>
      var answer := messages[|messages| - 1];
      answer.attachments == [] && answer.status == if streaming then Streaming else Failed
  }

  lemma OpenStep(c: Conversation, op: Op, streaming: bool)
    requires OpenAs(c.messages, streaming)
    ensures OpenAs(Revised(c, op).messages, StreamingAfter(streaming, op))
  {
    hide Sanitize, TrimSpace, TrimReturns, AsksSomething;
  }

  lemma {:induction false} OpenAnswerAsCalled(id: string, request: Request, now: Time, ops: seq<Op>)
    ensures OpenAs(ReviseAll(Opened(id, request, now), ops).messages, StreamingBy(ops))
  {
    if ops == [] {
      hide TrimSpace, AsksSomething;
    } else {
      hide OpenAs, Revised, StreamingAfter, Opened;
      OpenAnswerAsCalled(id, request, now, ops[..|ops| - 1]);
      OpenStep(ReviseAll(Opened(id, request, now), ops[..|ops| - 1]), ops[|ops| - 1], StreamingBy(ops[..|ops| - 1]));
    }
  }

  // ---------- In the store ----------

  /** A conversation is created under the id the request prefers, less the spaces around it, if there is one and it is
      not taken, or else under the one drawn; it stands first and asks what the request asks. */
  lemma CreatedAsPreferred(st: Store, create: Op)
    requires InStep(st) && create.Create? && DrawsUnusedId(st, create)
    ensures var preferred := TrimSpace(create.request.preferredId);
      var id := if |preferred| > 0 && preferred !in st.items then preferred else create.generated;
      var after := Apply(st, create);
      && id in after.items && id !in st.items && after.order != [] && after.order[0] == id && after.items[id].id == id
      && Questions(after.items[id].messages) == Asked(create.request, create.now)
  {
    CreateEvictsTheLast(st, create);
    OpenedReads(CreatedId(st, create.generated, create.request), create.request, create.now);
    hide Apply, Opened, Questions, Asked, TrimSpace;
  }

  /** A conversation created in any store, through any further run that keeps it. */
  lemma KeptReadsAsCalled(st: Store, create: Op, ops: seq<Op>)
    requires InStep(st) && create.Create? && DrawsUnusedId(st, create)
    requires AllUnused(Apply(st, create), ops)
    requires StaysIn(Apply(st, create), ops, CreatedId(st, create.generated, create.request))
    ensures var id := CreatedId(st, create.generated, create.request);
      var own := OpsFor(id, ops); var after := ApplyAll(Apply(st, create), ops);
      && id in after.items
      && Questions(after.items[id].messages) == Asked(create.request, create.now) + AskedIn(own)
      && Answers(after.items[id].messages) == AnsweredIn(own) && Ordinary(after.items[id].messages)
      && after.items[id].status == StatusBy(own) && after.items[id].updatedAt == UpdatedBy(create.now, own)
  {
    var id := CreatedId(st, create.generated, create.request);
    CreateEvictsTheLast(st, create);
    StaysInStep(st, create);
    RunProjects(Apply(st, create), ops, id);
    ReadsAsCalled(id, create.request, create.now, OpsFor(id, ops));
    FieldsAsCalled(id, create.request, create.now, OpsFor(id, ops));
    hide Apply, ApplyAll, Opened, Questions, Answers, Ordinary;
  }
}
