/** What the operations of the conversation store do, on values: conversations by id and their recency
    order, the message lifecycle, and the properties that every run keeps. */
module ConversationSpec {
  import opened Wrappers
  import opened Strings
  import opened Sanitizer

  const MAX_ENTRIES: nat := 1000
  const QUIET_TTL: int := 600

  type Time = int

  // ---------- Entities ----------

  datatype Status = Running | Streaming | Completed | Failed | OtherStatus(text: string)

  datatype Role = User | Assistant | OtherRole(text: string)

  datatype Message = Message(
    role: Role, status: Status, content: string, attachments: seq<string>, createdAt: Time, updatedAt: Time)

  datatype Conversation = Conversation(
    id: string, status: Status, error: string, ephemeral: bool, autoDeleteAt: Option<Time>,
    createdAt: Time, updatedAt: Time, responseId: string, completionId: string, threadId: string,
    messages: seq<Message>)

  datatype Request = Request(
    preferredId: string, ephemeral: bool, autoDeleteAt: Option<Time>, prompt: string, attachments: seq<string>)

  datatype Outcome = Outcome(threadId: string, text: string, attachments: seq<string>)

  /** A call on the store. `generated` is the id drawn when no usable one is preferred, `now` the clock
      reading taken at its start. */
  datatype Op =
    | Create(generated: string, request: Request, now: Time)
    | Continue(id: string, request: Request, now: Time)
    | SetEnvelopeIds(id: string, responseId: string, completionId: string, now: Time)
    | AppendDelta(id: string, delta: string, now: Time)
    | Complete(id: string, outcome: Outcome, now: Time)
    | Fail(id: string, error: Option<string>, now: Time)
    | Delete(id: string)

  datatype Store = Store(items: map<string, Conversation>, order: seq<string>)

  // ---------- One conversation ----------

  predicate AsksSomething(request: Request) {
    TrimSpace(request.prompt) != "" || request.attachments != []
  }

  function UserMessage(request: Request, now: Time): Message {
    Message(User, Completed, TrimSpace(request.prompt), request.attachments, now, now)
  }

  function Opened(id: string, request: Request, now: Time): Conversation {
    Conversation(id, Running, "", request.ephemeral, request.autoDeleteAt, now, now, "", "", "",
                 if AsksSomething(request) then [UserMessage(request, now)] else [])
  }

  predicate OpenAnswer(messages: seq<Message>) {
    messages != [] && messages[|messages| - 1].role.Assistant? && !messages[|messages| - 1].status.Completed?
  }

  function SetLast(messages: seq<Message>, message: Message): seq<Message>
    requires messages != []
  {
    messages[|messages| - 1 := message]
  }

  /** An answer that is not completed is marked failed. */
  function AbandonAnswer(messages: seq<Message>, now: Time): seq<Message> {
    if OpenAnswer(messages) then SetLast(messages, messages[|messages| - 1].(status := Failed, updatedAt := now))
    else messages
  }

  /** `ensureAssistantMessageLocked`: the last message is an answer that is not completed. */
  function EnsureAnswer(messages: seq<Message>, now: Time): (r: seq<Message>)
    ensures r != []
  {
    if OpenAnswer(messages) then SetLast(messages, messages[|messages| - 1].(updatedAt := now))
    else messages + [Message(Assistant, Streaming, "", [], now, now)]
  }

  function Continued(c: Conversation, request: Request, now: Time): Conversation {
    c.(ephemeral := c.ephemeral || request.ephemeral,
       autoDeleteAt := if request.ephemeral && request.autoDeleteAt.Some? then request.autoDeleteAt else c.autoDeleteAt,
       status := Running, error := "", updatedAt := now,
       messages := AbandonAnswer(c.messages, now)
                    + (if AsksSomething(request) then [UserMessage(request, now)] else []))
  }

  function WithEnvelopeIds(c: Conversation, responseId: string, completionId: string, now: Time): Conversation {
    c.(responseId := if TrimSpace(responseId) != "" then TrimSpace(responseId) else c.responseId,
       completionId := if TrimSpace(completionId) != "" then TrimSpace(completionId) else c.completionId,
       updatedAt := now)
  }

  /** `strings.TrimRight(delta, "\r")`. */
  function TrimReturns(delta: string): string {
    if delta != "" && delta[|delta| - 1] == '\r' then TrimReturns(delta[..|delta| - 1]) else delta
  }

  function WithDelta(c: Conversation, delta: string, now: Time): Conversation {
    var messages := EnsureAnswer(c.messages, now);
    var answer := messages[|messages| - 1];
    c.(status := Running, updatedAt := now,
       messages := SetLast(messages, answer.(content := answer.content + delta, status := Streaming, updatedAt := now)))
  }

  function QuietDeadline(c: Conversation, now: Time): Option<Time> {
    if c.ephemeral then Some(now + QUIET_TTL) else c.autoDeleteAt
  }

  function Finished(c: Conversation, outcome: Outcome, now: Time): Conversation {
    var messages := EnsureAnswer(c.messages, now);
    var answer := messages[|messages| - 1];
    c.(status := Completed, updatedAt := now, autoDeleteAt := QuietDeadline(c, now),
       threadId := TrimSpace(outcome.threadId), error := "",
       messages := SetLast(messages, answer.(status := Completed, content := Sanitize(outcome.text),
                                             attachments := outcome.attachments, updatedAt := now)))
  }

  function FailedWith(c: Conversation, error: string, now: Time): Conversation {
    c.(status := Failed, error := TrimSpace(error), updatedAt := now, autoDeleteAt := QuietDeadline(c, now),
       messages := AbandonAnswer(c.messages, now))
  }

  // ---------- The store ----------

  predicate Acts(op: Op) {
    match op
    case AppendDelta(_, delta, _) => TrimReturns(delta) != ""
    case Fail(_, error, _) => error.Some?
    case _ => true
  }

  /** What an operation on an existing conversation makes of it. */
  function Revised(c: Conversation, op: Op): Conversation {
    if !Acts(op) then c
    else match op
      case Continue(_, request, now) => Continued(c, request, now)
      case SetEnvelopeIds(_, responseId, completionId, now) => WithEnvelopeIds(c, responseId, completionId, now)
      case AppendDelta(_, delta, now) => WithDelta(c, TrimReturns(delta), now)
      case Complete(_, outcome, now) => Finished(c, outcome, now)
      case Fail(_, error, now) => FailedWith(c, error.value, now)
      case _ => c
  }

  function Without(order: seq<string>, id: string): seq<string> {
    if order == [] then []
    else Without(order[..|order| - 1], id) + (if order[|order| - 1] == id then [] else [order[|order| - 1]])
  }

  function MoveToFront(order: seq<string>, id: string): seq<string> {
    if order == [] || order[0] == id then order else [id] + Without(order, id)
  }

  function Trim(st: Store): Store
    decreases |st.order|
  {
    if |st.order| <= MAX_ENTRIES then st
    else
      var last := st.order[|st.order| - 1];
      Trim(Store(st.items - {last}, st.order[..|st.order| - 1]))
  }

  lemma TrimOneStep(st: Store)
    ensures Trim(st) == if |st.order| <= MAX_ENTRIES then st
                        else Trim(Store(st.items - {st.order[|st.order| - 1]}, st.order[..|st.order| - 1]))
  {}

  function CreatedId(st: Store, generated: string, request: Request): string {
    var id := TrimSpace(request.preferredId);
    if id == "" || id in st.items then generated else id
  }

  function Apply(st: Store, op: Op): Store {
    match op
    case Create(generated, request, now) =>
      var id := CreatedId(st, generated, request);
      Trim(Store(st.items[id := Opened(id, request, now)], [id] + st.order))
    case Delete(id) =>
      if id in st.items && !st.items[id].status.Running? then Store(st.items - {id}, Without(st.order, id)) else st
    case _ =>
      if Acts(op) && op.id in st.items
      then Store(st.items[op.id := Revised(st.items[op.id], op)], MoveToFront(st.order, op.id))
      else st
  }

  function ApplyAll(st: Store, ops: seq<Op>): Store {
    if ops == [] then st else Apply(ApplyAll(st, ops[..|ops| - 1]), ops[|ops| - 1])
  }

  const EMPTY := Store(map[], [])

  function ById(entries: seq<Conversation>): map<string, Conversation> {
    if entries == [] then map[]
    else ById(entries[..|entries| - 1])[entries[|entries| - 1].id := entries[|entries| - 1]]
  }

  function Ids(entries: seq<Conversation>): seq<string> {
    seq(|entries|, i requires 0 <= i < |entries| => entries[i].id)
  }

  lemma NoneLoaded(entries: seq<Conversation>)
    ensures ById(entries[..0]) == map[] && Ids(entries[..0]) == []
  {}

  lemma OneMoreLoaded(entries: seq<Conversation>, i: nat)
    requires i < |entries|
    ensures ById(entries[..i + 1]) == ById(entries[..i])[entries[i].id := entries[i]]
    ensures Ids(entries[..i + 1]) == Ids(entries[..i]) + [entries[i].id]
  {
    assert entries[..i + 1][..i] == entries[..i];
  }

  /** `newConversationStoreFromEntries`. */
  function Loaded(entries: seq<Conversation>): Store {
    Trim(Store(ById(entries), Ids(entries)))
  }
}
