/** The event stream of a live response: one handler and any number of keep-alive goroutines write events
    under a lock, and the connection takes only so many. */
module ResponsesStream {
  import opened Wrappers
  import opened Strings
  import opened Sanitizer
  import opened Deltas

  datatype Event =
    | Created | InProgress | ItemAdded | PartAdded
    | TextDelta(text: string) | ReasoningDelta(text: string) | ReasoningDone
    | TextDone | PartDone | ItemDone | CompletedEvent | FailedEvent

  /** An event on the wire with its sequence number. */
  datatype Entry = Entry(number: nat, event: Event)

  const OPENING: seq<Event> := [Created, InProgress, ItemAdded, PartAdded]
  const HEARTBEAT := "\U{200B}"

  datatype Callback = Text(part: string) | Reasoning(part: string) | Warmup

  datatype PC =
    | Idle
    | Starting(callback: Callback)
    | ClosingReasoning(part: string)
    | Writing(event: Event)
    | FinalStart | Finals | Finished

  /** The result of the run, and the text that had been emitted when it came. */
  datatype Final = Final(text: string, reasoning: string, emitted: string)

  /** What the handler's closures share. `queue` are the callbacks it still owes after the result, `sent` and
      `rest` the two parts of the closing events. */
  datatype Handler = Handler(
    pc: PC, queue: seq<Callback>, final: Option<Final>, text: string, reasoning: string,
    warmupSent: bool, phaseStarted: bool, phaseDone: bool, sent: seq<Event>, rest: seq<Event>)

  datatype Keeper = Waiting | Beating

  datatype Config = Config(warmup: bool, suppressReasoning: bool)

  /** `room` is the number of events the connection takes before it breaks. */
  datatype System = System(
    config: Config, handler: Handler, keepers: seq<Keeper>, sequence: nat, headersSent: bool, room: nat,
    wire: seq<Entry>)

  function Initial(config: Config, keepers: nat, room: nat): System {
    System(config, Handler(Idle, [], None, "", "", false, false, false, [], []), seq(keepers, _ => Waiting), 0, false,
           room, [])
  }

  // ---------- Writing ----------

  predicate Accepts(sys: System) {
    |sys.wire| < sys.room
  }

  /** `safeWriteEvent`: the number is used up whether or not the write succeeds. */
  function Write(sys: System, event: Event): System {
    if Accepts(sys) then sys.(wire := sys.wire + [Entry(sys.sequence, event)], sequence := sys.sequence + 1)
    else sys.(sequence := sys.sequence + 1)
  }

  /** Writes until one fails. */
  function WriteAll(sys: System, events: seq<Event>): System
    decreases |events|
  {
    if events == [] then sys
    else if Accepts(sys) then WriteAll(Write(sys, events[0]), events[1..])
    else Write(sys, events[0])
  }

  /** `startStream`, which holds the lock throughout. */
  function StartStream(sys: System): System {
    if sys.headersSent then sys else WriteAll(sys.(headersSent := true), OPENING)
  }

  predicate Starts(sys: System) {
    sys.headersSent || |sys.wire| + |OPENING| <= sys.room
  }

  // ---------- The handler ----------

  datatype Step =
    | Deliver(callback: Callback)                    // the run calls the sink
    | Return(text: string, reasoning: string)        // the run returns a result,
    | Break                                          // or an error
    | Advance
    | Tick(keeper: nat)
    | Beat(keeper: nat)

  predicate Wanted(config: Config, h: Handler, callback: Callback) {
    match callback
    case Text(part) => part != ""
    case Reasoning(part) => part != "" && !config.suppressReasoning
    case Warmup => config.warmup && !config.suppressReasoning && !h.warmupSent
  }

  /** A callback returned nil. */
  function Proceed(h: Handler): Handler {
    if h.final.None? then h.(pc := Idle)
    else if h.queue == [] then h.(pc := FinalStart)
    else h.(pc := Starting(h.queue[0]), queue := h.queue[1..])
  }

  /** A callback returned an error. */
  function Abandon(h: Handler): Handler {
    h.(pc := if h.final.None? then Idle else Finished)
  }

  function TakeText(h: Handler, part: string): Handler {
    h.(phaseStarted := false, text := h.text + part, pc := Writing(TextDelta(part)))
  }

  /** A callback once the stream is open. */
  function Begin(h: Handler, callback: Callback): Handler {
    match callback
    case Text(part) =>
      if h.phaseStarted && !h.phaseDone then
        var done := h.(phaseDone := true);
        if Sanitize(h.reasoning) != "" then done.(pc := ClosingReasoning(part)) else TakeText(done, part)
      else TakeText(h, part)
    case Reasoning(part) =>
      h.(phaseStarted := true, reasoning := h.reasoning + part, pc := Writing(ReasoningDelta(part)))
    case Warmup => h.(warmupSent := true, phaseStarted := true, pc := Writing(ReasoningDelta(HEARTBEAT)))
  }

  function ClosingEvents(reasoningDone: bool): seq<Event> {
    [TextDone, PartDone] + (if reasoningDone then [ReasoningDone] else []) + [ItemDone, CompletedEvent]
  }

  function Close(h: Handler, hasReasoning: bool): Handler {
    h.(pc := Finals, phaseDone := h.phaseDone || hasReasoning, rest := ClosingEvents(hasReasoning && !h.phaseDone))
  }

  /** The next closing event is on the wire. */
  function SendOne(h: Handler): Handler
    requires h.rest != []
  {
    h.(sent := h.sent + [h.rest[0]], rest := h.rest[1..])
  }

  function AdvanceHandler(sys: System): System {
    var h := sys.handler;
    match h.pc
    case Starting(callback) =>
      StartStream(sys).(handler := if Starts(sys) then Begin(h, callback) else Abandon(h))
    case ClosingReasoning(part) =>
      Write(sys, ReasoningDone).(handler := if Accepts(sys) then TakeText(h, part) else Abandon(h))
    case Writing(event) => Write(sys, event).(handler := if Accepts(sys) then Proceed(h) else Abandon(h))
    case FinalStart =>
      StartStream(sys).(handler := if Starts(sys) then Close(h, h.final.Some? && h.final.value.reasoning != "")
                                   else h.(pc := Finished))
    case Finals =>
      if h.rest == [] then sys.(handler := h.(pc := Finished))
      else Write(sys, h.rest[0]).(handler := if Accepts(sys) then SendOne(h) else h.(pc := Finished))
    case _ => sys
  }

  /** The run returned a result: what it adds to what was emitted is sent first. */
  function Settle(config: Config, h: Handler, text: string, reasoning: string): Handler {
    var moreReasoning, moreText := DeltaSuffix(h.reasoning, reasoning), DeltaSuffix(h.text, text);
    Proceed(h.(final := Some(Final(text, reasoning, h.text)),
               queue := (if moreReasoning != "" && !config.suppressReasoning then [Reasoning(moreReasoning)] else [])
                      + (if moreText != "" then [Text(moreText)] else [])))
  }

  /** The run failed. */
  function BreakOff(sys: System): System {
    var h := sys.handler;
    if !sys.headersSent then sys.(handler := h.(pc := Finished))
    else if TrimSpace(Sanitize(h.text)) != "" then sys.(handler := Close(h, Sanitize(h.reasoning) != ""))
    else sys.(handler := h.(pc := Finals, rest := [FailedEvent]))
  }

  /** A step that is not possible changes nothing. */
  function Next(sys: System, step: Step): System {
    match step
    case Deliver(callback) =>
      if sys.handler.pc.Idle? && Wanted(sys.config, sys.handler, callback)
      then sys.(handler := sys.handler.(pc := Starting(callback))) else sys
    case Return(text, reasoning) =>
      if sys.handler.pc.Idle? then sys.(handler := Settle(sys.config, sys.handler, text, reasoning)) else sys
    case Break => if sys.handler.pc.Idle? then BreakOff(sys) else sys
    case Advance => AdvanceHandler(sys)
    case Tick(k) =>
      if k < |sys.keepers| && sys.keepers[k].Waiting?
      then StartStream(sys).(keepers := if Starts(sys) then sys.keepers[k := Beating] else sys.keepers) else sys
    case Beat(k) =>
      if k < |sys.keepers| && sys.keepers[k].Beating?
      then Write(sys, InProgress).(keepers := sys.keepers[k := Waiting]) else sys
  }

  function Execute(sys: System, steps: seq<Step>): System {
    if steps == [] then sys else Next(Execute(sys, steps[..|steps| - 1]), steps[|steps| - 1])
  }

  // ---------- The wire ----------

  /** The opening events come first, numbers follow without a gap, and after a failed write nothing follows. */
  predicate WireOk(sys: System) {
    && |sys.wire| <= sys.room
    && (forall i | 0 <= i < |sys.wire| :: sys.wire[i].number == i)
    && (forall i | 0 <= i < |sys.wire| && i < |OPENING| :: sys.wire[i].event == OPENING[i])
    && (Accepts(sys) ==> sys.sequence == |sys.wire|)
    && (!sys.headersSent ==> sys.wire == [] && sys.sequence == 0)
    && (sys.headersSent && Accepts(sys) ==> |OPENING| <= |sys.wire|)
  }

  /** Whoever is about to write has opened the stream. */
  predicate WritersOpened(sys: System) {
    && (sys.handler.pc.ClosingReasoning? || sys.handler.pc.Writing? || sys.handler.pc.Finals? ==> sys.headersSent)
    && (forall k | 0 <= k < |sys.keepers| && sys.keepers[k].Beating? :: sys.headersSent)
  }

  /** What the handler has put on the wire after the opening: everything but the keep-alive events. */
  function Own(wire: seq<Entry>): seq<Event> {
    if |wire| <= |OPENING| then []
    else
      var last := wire[|wire| - 1].event;
      Own(wire[..|wire| - 1]) + (if last.InProgress? then [] else [last])
  }

  lemma WriteKeeps(sys: System, event: Event)
    requires WireOk(sys) && sys.headersSent
    ensures WireOk(Write(sys, event))
    ensures Own(Write(sys, event).wire) == Own(sys.wire) + (if Accepts(sys) && !event.InProgress? then [event] else [])
  {
    if Accepts(sys) {
      var wire := sys.wire + [Entry(sys.sequence, event)];
      assert wire[..|wire| - 1] == sys.wire;
    }
  }

  /** The first `n` opening events are written and none has failed. */
  predicate OpeningUpTo(sys: System, n: nat)
    requires n <= |OPENING|
  {
    && sys.headersSent && |sys.wire| == n <= sys.room && sys.sequence == n
    && (forall i | 0 <= i < n :: sys.wire[i] == Entry(i, OPENING[i]))
  }

  lemma {:induction false} OpeningWritten(sys: System, n: nat)
    requires n <= |OPENING| && OpeningUpTo(sys, n)
    ensures var after := WriteAll(sys, OPENING[n..]);
      WireOk(after) && after == sys.(wire := after.wire, sequence := after.sequence) && |after.wire| <= |OPENING|
      && (|OPENING| <= sys.room || !Accepts(after))
    decreases |OPENING| - n
  {
    if n < |OPENING| && Accepts(sys) {
      assert OPENING[n..][0] == OPENING[n] && OPENING[n..][1..] == OPENING[n + 1..];
      OpeningWritten(Write(sys, OPENING[n]), n + 1);
    }
  }

  lemma StartKeeps(sys: System)
    requires WireOk(sys)
    ensures var after := StartStream(sys);
      && WireOk(after) && after.headersSent && Own(after.wire) == Own(sys.wire)
      && after.handler == sys.handler && after.keepers == sys.keepers && after.config == sys.config
      && (Starts(sys) || !Accepts(after)) && (Accepts(after) ==> Accepts(sys)) && after.room == sys.room
  {
    if !sys.headersSent {
      OpeningWritten(sys.(headersSent := true), 0);
      assert OPENING[0..] == OPENING;
    }
    hide WriteAll;
  }

  // ---------- The handler's invariant ----------

  predicate BodyEvent(event: Event) {
    event.TextDelta? || event.ReasoningDelta? || event.ReasoningDone?
  }

  /** The forms the end of a stream can take. */
  predicate Closing(events: seq<Event>) {
    || events == [FailedEvent]
    || events == [TextDone, PartDone, ItemDone, CompletedEvent]
    || events == [TextDone, PartDone, ReasoningDone, ItemDone, CompletedEvent]
  }

  predicate BodyThenClosing(own: seq<Event>, sent: seq<Event>) {
    && |sent| <= |own| && own[|own| - |sent|..] == sent
    && (forall i | 0 <= i < |own| - |sent| :: BodyEvent(own[i]))
  }

  function DonesLeft(h: Handler): nat {
    multiset(h.rest)[ReasoningDone] + (if h.pc.ClosingReasoning? then 1 else 0)
  }

  function Texts(events: seq<Event>): string {
    if events == [] then ""
    else
      var last := events[|events| - 1];
      Texts(events[..|events| - 1]) + (if last.TextDelta? then last.text else "")
  }

  /** Text counted as emitted whose event is not yet on the wire. */
  function Unwritten(h: Handler): string {
    if h.pc.Writing? && h.pc.event.TextDelta? then h.pc.event.text else ""
  }

  function TextOf(callback: Callback): string {
    if callback.Text? then callback.part else ""
  }

  function QueuedText(queue: seq<Callback>): string {
    if queue == [] then "" else TextOf(queue[0]) + QueuedText(queue[1..])
  }

  /** Text that the handler still owes after the result. */
  function Owed(h: Handler): string {
    (match h.pc
     case Starting(callback) => TextOf(callback)
     case ClosingReasoning(part) => part
     case _ => "")
    + QueuedText(h.queue)
  }

  predicate Shape(h: Handler) {
    && (h.pc.Writing? ==> BodyEvent(h.pc.event) && !h.pc.event.ReasoningDone?)
    && (!h.pc.Finals? && !h.pc.Finished? ==> h.sent == [] && h.rest == [])
    && (h.pc.Finals? || h.sent != [] ==> Closing(h.sent + h.rest))
    && (h.pc.Idle? ==> h.final.None?)
    && (h.pc.FinalStart? ==> h.final.Some?)
    && (h.pc.Finals? && h.final.Some? ==> h.sent + h.rest != [FailedEvent])
  }

  /** At most one reasoning.done, written or still to come. */
  predicate DonesOk(h: Handler, own: seq<Event>) {
    multiset(own)[ReasoningDone] + DonesLeft(h) <= (if h.phaseDone then 1 else 0)
  }

  predicate TextOk(h: Handler, own: seq<Event>) {
    Texts(own) + Unwritten(h) == h.text
  }

  /** What the result still owes to the text is under way, and all of it before the closing events. */
  predicate OwedOk(h: Handler) {
    h.final.Some? ==>
      && h.text + Owed(h) == h.final.value.emitted + DeltaSuffix(h.final.value.emitted, h.final.value.text)
      && (h.pc.FinalStart? || h.pc.Finals? || h.pc.Finished? ==> h.queue == [])
      && (h.pc.Finished? ==> Closing(h.sent) && h.sent != [FailedEvent])
  }

  /** `own` is what the handler has put on the wire, `live` that no write has failed. */
  predicate HandlerOk(h: Handler, own: seq<Event>, live: bool) {
    && Shape(h) && BodyThenClosing(own, h.sent) && DonesOk(h, own)
    && (live ==> TextOk(h, own) && OwedOk(h))
  }

  predicate Inv(sys: System) {
    WireOk(sys) && WritersOpened(sys) && HandlerOk(sys.handler, Own(sys.wire), Accepts(sys))
  }

  // ---------- Every step keeps it ----------

  lemma LiveEnds(h: Handler, own: seq<Event>, live: bool, still: bool)
    requires HandlerOk(h, own, live) && (still ==> live)
    ensures HandlerOk(h, own, still)
  {
    hide Shape, BodyThenClosing, DonesOk, TextOk, OwedOk;
  }

  lemma OwnMore(own: seq<Event>, event: Event)
    requires BodyEvent(event) && BodyThenClosing(own, [])
    ensures BodyThenClosing(own + [event], [])
    ensures Texts(own + [event]) == Texts(own) + (if event.TextDelta? then event.text else "")
    ensures multiset(own + [event])[ReasoningDone] == multiset(own)[ReasoningDone]
      + (if event.ReasoningDone? then 1 else 0)
  {
    assert (own + [event])[..|own|] == own;
  }

  lemma BeginOk(h: Handler, own: seq<Event>, live: bool)
    requires HandlerOk(h, own, live) && h.pc.Starting?
    ensures HandlerOk(Begin(h, h.pc.callback), own, live)
    ensures !Begin(h, h.pc.callback).pc.Finals?
  {
    hide Sanitize, Texts, DeltaSuffix, BodyThenClosing, Closing;
    var callback, after := h.pc.callback, Begin(h, h.pc.callback);
    match callback
    case Text(part) =>
      assert Texts(own) + (h.text + part)[|h.text|..] == Texts(own) + part;
      if live { TextTaken(Texts(own), h.text, part, QueuedText(h.queue)); }
    case _ =>
      if live { NothingOwed(h.text, QueuedText(h.queue)); }
  }

  lemma TextTaken(own: string, text: string, part: string, queued: string)
    ensures own + "" == own
    ensures own == text ==> own + part == text + part
    ensures text + (part + queued) == (text + part) + ("" + queued)
  {
    assert "" + queued == queued;
  }

  lemma NothingOwed(text: string, queued: string)
    ensures text + "" == text && "" + queued == queued
  {}

  lemma AbandonOk(h: Handler, own: seq<Event>, live: bool)
    requires HandlerOk(h, own, live) && (h.pc.Starting? || h.pc.ClosingReasoning? || h.pc.Writing?)
    ensures HandlerOk(Abandon(h), own, false)
  {}

  lemma ReasoningClosedOk(h: Handler, own: seq<Event>, live: bool)
    requires HandlerOk(h, own, true) && h.pc.ClosingReasoning?
    ensures HandlerOk(TakeText(h, h.pc.part), own + [ReasoningDone], live)
  {
    hide Texts, DeltaSuffix, Closing;
    OwnMore(own, ReasoningDone);
    TextTaken(Texts(own), h.text, h.pc.part, QueuedText(h.queue));
    NothingOwed(Texts(own), QueuedText(h.queue));
    hide BodyThenClosing;
  }

  lemma WrittenOk(h: Handler, own: seq<Event>, live: bool)
    requires HandlerOk(h, own, true) && h.pc.Writing?
    ensures HandlerOk(Proceed(h), own + [h.pc.event], live)
  {
    hide Proceed, Texts, OwedOk, BodyThenClosing, Closing;
    OwnMore(own, h.pc.event);
    ProceedOwes(h);
    ProceedShape(h);
    assert h.sent == [] && DonesLeft(h) == 0;
    assert Texts(own) + "" == Texts(own);
    assert Texts(own + [h.pc.event]) + "" == Texts(own + [h.pc.event]);
    hide Shape;
  }

  lemma ProceedShape(h: Handler)
    requires h.sent == [] && h.rest == [] && !h.pc.Finals? && !h.pc.Finished? && !h.pc.ClosingReasoning?
    ensures var after := Proceed(h);
      && Shape(after) && after.sent == [] && after.rest == [] && DonesLeft(after) == DonesLeft(h) == 0
      && after.phaseDone == h.phaseDone && after.text == h.text && Unwritten(after) == "" && after.final == h.final
      && (h.final.Some? ==> after.pc.Starting? || after.pc.FinalStart?)
  {
    hide Closing;
  }

  lemma ProceedOwes(h: Handler)
    requires OwedOk(h) && h.pc.Writing?
    ensures OwedOk(Proceed(h))
  {
    hide DeltaSuffix, Closing;
    NothingOwed("", QueuedText(h.queue));
    if h.queue != [] { NothingOwed(TextOf(h.queue[0]), QueuedText(h.queue[1..])); }
  }

  lemma CloseOk(h: Handler, own: seq<Event>, live: bool, hasReasoning: bool)
    requires HandlerOk(h, own, live) && (h.pc.FinalStart? || h.pc.Idle?)
    ensures HandlerOk(Close(h, hasReasoning), own, live)
  {
    CloseShape(h, hasReasoning);
    hide Closing, ClosingEvents, Shape, BodyThenClosing, Texts, DeltaSuffix;
  }

  lemma CloseShape(h: Handler, hasReasoning: bool)
    requires Shape(h) && (h.pc.FinalStart? || h.pc.Idle?)
    ensures Shape(Close(h, hasReasoning)) && h.sent == []
    ensures multiset(Close(h, hasReasoning).rest)[ReasoningDone] == (if hasReasoning && !h.phaseDone then 1 else 0)
  {
    hide Shape, Close, Closing, ClosingEvents;
    ClosingForms(hasReasoning && !h.phaseDone);
    ClosingKeepsShape(h, hasReasoning, ClosingEvents(hasReasoning && !h.phaseDone));
  }

  lemma ClosingKeepsShape(h: Handler, hasReasoning: bool, events: seq<Event>)
    requires Shape(h) && (h.pc.FinalStart? || h.pc.Idle?)
    requires events == ClosingEvents(hasReasoning && !h.phaseDone) && Closing(events) && events != [FailedEvent]
    ensures Shape(Close(h, hasReasoning)) && h.sent == [] && Close(h, hasReasoning).rest == events
  {
    hide Closing, ClosingEvents;
    var after := Close(h, hasReasoning);
    assert after.sent == [] && after.rest == events;
    assert after.sent + after.rest == events;
  }

  lemma ClosingForms(reasoningDone: bool)
    ensures Closing(ClosingEvents(reasoningDone)) && ClosingEvents(reasoningDone) != [FailedEvent]
    ensures multiset(ClosingEvents(reasoningDone))[ReasoningDone] == if reasoningDone then 1 else 0
  {
    if reasoningDone {
      assert ClosingEvents(true) == [TextDone, PartDone, ReasoningDone, ItemDone, CompletedEvent];
    } else {
      assert ClosingEvents(false) == [TextDone, PartDone, ItemDone, CompletedEvent];
    }
  }

  lemma SentOneShape(h: Handler)
    requires Shape(h) && h.pc.Finals? && h.rest != []
    ensures Shape(SendOne(h)) && !h.rest[0].TextDelta? && !h.rest[0].InProgress?
    ensures DonesLeft(SendOne(h)) + (if h.rest[0].ReasoningDone? then 1 else 0) == DonesLeft(h)
  {
    assert h.rest == [h.rest[0]] + h.rest[1..];
    assert h.sent + [h.rest[0]] + h.rest[1..] == h.sent + h.rest;
    PlainClosing(h.sent + h.rest, |h.sent|);
    hide Closing;
  }

  lemma PlainClosing(events: seq<Event>, i: nat)
    requires Closing(events) && i < |events|
    ensures !events[i].TextDelta? && !events[i].InProgress?
  {}

  lemma ClosedOneMoreOk(h: Handler, own: seq<Event>, live: bool)
    requires HandlerOk(h, own, true) && h.pc.Finals? && h.rest != []
    ensures HandlerOk(SendOne(h), own + [h.rest[0]], live)
  {
    hide Shape, DonesOk, DonesLeft, TextOk, OwedOk, BodyThenClosing, Texts;
    SentOneShape(h);
    LongerClosing(own, h.sent, h.rest[0]);
    DonesStay(h, SendOne(h), own, h.rest[0]);
    TextStays(h, own, h.rest[0]);
  }

  lemma TextStays(h: Handler, own: seq<Event>, event: Event)
    requires TextOk(h, own) && OwedOk(h) && h.pc.Finals? && h.rest != [] && Texts(own + [event]) == Texts(own)
    ensures TextOk(SendOne(h), own + [event]) && OwedOk(SendOne(h))
  {
    hide Texts, DeltaSuffix, QueuedText, Closing;
  }

  lemma DonesStay(h: Handler, after: Handler, own: seq<Event>, event: Event)
    requires DonesOk(h, own) && after.phaseDone == h.phaseDone
    requires DonesLeft(after) + (if event.ReasoningDone? then 1 else 0) == DonesLeft(h)
    ensures DonesOk(after, own + [event])
  {
    hide DonesLeft;
    assert multiset(own + [event])[ReasoningDone] == multiset(own)[ReasoningDone] + multiset{event}[ReasoningDone];
  }

  lemma LongerClosing(own: seq<Event>, sent: seq<Event>, event: Event)
    requires BodyThenClosing(own, sent) && !event.TextDelta?
    ensures BodyThenClosing(own + [event], sent + [event]) && Texts(own + [event]) == Texts(own)
  {
    assert (own + [event])[|own| - |sent|..] == own[|own| - |sent|..] + [event];
    assert (own + [event])[..|own|] == own;
    assert Texts(own) + "" == Texts(own);
  }

  lemma QueuedMore(more: string, callback: Callback)
    ensures more != "" ==> QueuedText([Text(more)]) == more
    ensures more != "" && !callback.Text? ==> QueuedText([callback] + [Text(more)]) == more
    ensures "" + more == more && more + "" == more && QueuedText([]) == ""
  {
    assert [Text(more)][1..] == [] && ([callback] + [Text(more)])[1..] == [Text(more)];
    assert QueuedText([Text(more)]) == more + "";
  }

  lemma SettledOwes(config: Config, h: Handler, text: string, reasoning: string)
    requires h.pc.Idle?
    ensures Owed(Settle(config, h, text, reasoning)) == DeltaSuffix(h.text, text)
    ensures Settle(config, h, text, reasoning).pc.FinalStart? ==> Settle(config, h, text, reasoning).queue == []
  {
    hide DeltaSuffix, QueuedText;
    var moreReasoning, more := DeltaSuffix(h.reasoning, reasoning), DeltaSuffix(h.text, text);
    var owesReasoning := moreReasoning != "" && !config.suppressReasoning;
    var queue := Settle(config, h, text, reasoning).queue;
    QueuedMore(more, Reasoning(moreReasoning));
    if owesReasoning {
      assert queue == if more != "" then [Text(more)] else [];
    } else {
      assert queue == [];
    }
  }

  lemma IdleShape(h: Handler)
    requires Shape(h) && h.pc.Idle?
    ensures h.sent == [] && h.rest == [] && DonesLeft(h) == 0 && Unwritten(h) == ""
  {}

  lemma SettleOk(config: Config, h: Handler, own: seq<Event>, live: bool, text: string, reasoning: string)
    requires HandlerOk(h, own, live) && h.pc.Idle?
    ensures HandlerOk(Settle(config, h, text, reasoning), own, live)
  {
    hide DeltaSuffix, Texts, BodyThenClosing, Closing, Owed, Proceed, DonesLeft, Unwritten;
    SettledOwes(config, h, text, reasoning);
    IdleShape(h);
    var moreReasoning, moreText := DeltaSuffix(h.reasoning, reasoning), DeltaSuffix(h.text, text);
    ProceedShape(h.(final := Some(Final(text, reasoning, h.text)),
                    queue := (if moreReasoning != "" && !config.suppressReasoning
                              then [Reasoning(moreReasoning)] else [])
                           + (if moreText != "" then [Text(moreText)] else [])));
    hide Shape;
  }

  /** A write by the handler, whichever way it goes. */
  lemma HandlerWrites(sys: System, event: Event, done: Handler, failed: Handler)
    requires WireOk(sys) && WritersOpened(sys) && sys.headersSent && !event.InProgress?
    requires forall live | Accepts(sys) :: HandlerOk(done, Own(sys.wire) + [event], live)
    requires HandlerOk(failed, Own(sys.wire), false)
    ensures Inv(Write(sys, event).(handler := if Accepts(sys) then done else failed))
  {
    hide HandlerOk, Own, WireOk;
    WriteKeeps(sys, event);
    assert Own(sys.wire) + [] == Own(sys.wire);
    WireIgnoresHandler(Write(sys, event), if Accepts(sys) then done else failed);
  }

  lemma WireIgnoresHandler(sys: System, h: Handler)
    requires WireOk(sys)
    ensures WireOk(sys.(handler := h))
  {}

  /** The handler opens the stream, whichever way it goes. */
  lemma HandlerOpens(sys: System, done: Handler, failed: Handler)
    requires WireOk(sys) && WritersOpened(sys)
    requires forall live | live ==> Accepts(sys) :: HandlerOk(done, Own(sys.wire), live)
    requires HandlerOk(failed, Own(sys.wire), false)
    ensures Inv(StartStream(sys).(handler := if Starts(sys) then done else failed))
  {
    hide HandlerOk, Own, WireOk, StartStream, Starts;
    StartKeeps(sys);
    WireIgnoresHandler(StartStream(sys), if Starts(sys) then done else failed);
  }

  /** The handler's own step. */
  lemma AdvanceOk(sys: System)
    requires Inv(sys)
    ensures Inv(AdvanceHandler(sys))
  {
    var h, own := sys.handler, Own(sys.wire);
    hide Begin, Proceed, Abandon, TakeText, Close, Write, StartStream, Starts, WireOk, HandlerOk, Own, OwedOk, TextOk;
    match h.pc
    case Starting(callback) =>
      forall live | live ==> Accepts(sys) ensures HandlerOk(Begin(h, callback), own, live) {
        LiveEnds(h, own, Accepts(sys), live);
        BeginOk(h, own, live);
      }
      AbandonOk(h, own, Accepts(sys));
      HandlerOpens(sys, Begin(h, callback), Abandon(h));
    case ClosingReasoning(part) =>
      forall live | Accepts(sys) ensures HandlerOk(TakeText(h, part), own + [ReasoningDone], live) {
        ReasoningClosedOk(h, own, live);
      }
      AbandonOk(h, own, Accepts(sys));
      HandlerWrites(sys, ReasoningDone, TakeText(h, part), Abandon(h));
    case Writing(event) =>
      forall live | Accepts(sys) ensures HandlerOk(Proceed(h), own + [event], live) { WrittenOk(h, own, live); }
      AbandonOk(h, own, Accepts(sys));
      WritesBody(h, own, Accepts(sys));
      HandlerWrites(sys, event, Proceed(h), Abandon(h));
    case FinalStart =>
      var hasReasoning := h.final.Some? && h.final.value.reasoning != "";
      forall live | live ==> Accepts(sys) ensures HandlerOk(Close(h, hasReasoning), own, live) {
        LiveEnds(h, own, Accepts(sys), live);
        CloseOk(h, own, live, hasReasoning);
      }
      StopOk(h, own, Accepts(sys));
      HandlerOpens(sys, Close(h, hasReasoning), h.(pc := Finished));
    case Finals => FinalsOk(sys);
    case _ =>
  }

  lemma WritesBody(h: Handler, own: seq<Event>, live: bool)
    requires HandlerOk(h, own, live) && h.pc.Writing?
    ensures !h.pc.event.InProgress?
  {}

  lemma StopOk(h: Handler, own: seq<Event>, live: bool)
    requires HandlerOk(h, own, live) && (h.pc.FinalStart? || h.pc.Finals?)
    ensures HandlerOk(h.(pc := Finished), own, false)
  {
    hide Texts, Closing, BodyThenClosing;
  }

  lemma FinalsOk(sys: System)
    requires Inv(sys) && sys.handler.pc.Finals?
    ensures Inv(AdvanceHandler(sys))
  {
    var h, own := sys.handler, Own(sys.wire);
    if h.rest == [] {
      AllClosed(h, own, Accepts(sys));
      hide HandlerOk, Own, WireOk;
      WireIgnoresHandler(sys, h.(pc := Finished));
    } else {
      var event, done := h.rest[0], SendOne(h);
      NextClosing(h, own, Accepts(sys));
      hide Write, WireOk, HandlerOk, Own;
      forall live | Accepts(sys) ensures HandlerOk(done, own + [event], live) { ClosedOneMoreOk(h, own, live); }
      StopOk(h, own, Accepts(sys));
      HandlerWrites(sys, event, done, h.(pc := Finished));
    }
  }

  lemma NextClosing(h: Handler, own: seq<Event>, live: bool)
    requires HandlerOk(h, own, live) && h.pc.Finals? && h.rest != []
    ensures !h.rest[0].InProgress?
  {
    SentOneShape(h);
  }

  lemma AllClosed(h: Handler, own: seq<Event>, live: bool)
    requires HandlerOk(h, own, live) && h.pc.Finals? && h.rest == []
    ensures HandlerOk(h.(pc := Finished), own, live)
  {
    hide Texts, Closing, BodyThenClosing, DeltaSuffix, QueuedText;
    assert h.sent + [] == h.sent;
  }

  lemma BreakOk(sys: System)
    requires Inv(sys) && sys.handler.pc.Idle?
    ensures Inv(BreakOff(sys))
  {
    hide WireOk, Own, Close, Sanitize, TrimSpace;
    var h, own, after := sys.handler, Own(sys.wire), BreakOff(sys).handler;
    WireIgnoresHandler(sys, after);
    if sys.headersSent && TrimSpace(Sanitize(h.text)) != "" {
      CloseOk(h, own, Accepts(sys), Sanitize(h.reasoning) != "");
      hide HandlerOk;
    } else {
      hide Texts, DeltaSuffix, BodyThenClosing;
      assert [] + [FailedEvent] == [FailedEvent];
    }
  }

  lemma KeeperOk(sys: System, step: Step)
    requires Inv(sys) && (step.Tick? || step.Beat?)
    ensures Inv(Next(sys, step))
  {
    hide HandlerOk, StartStream, Starts, Own;
    var h, own, after := sys.handler, Own(sys.wire), Next(sys, step);
    StartKeeps(sys);
    if sys.headersSent { WriteKeeps(sys, InProgress); }
    assert own + [] == own;
    LiveEnds(h, own, Accepts(sys), Accepts(after));
  }

  lemma DeliverOk(sys: System, callback: Callback)
    requires Inv(sys) && sys.handler.pc.Idle?
    ensures Inv(sys.(handler := sys.handler.(pc := Starting(callback))))
  {
    hide Own, WireOk, Texts, BodyThenClosing, Closing;
    WireIgnoresHandler(sys, sys.handler.(pc := Starting(callback)));
  }

  lemma StepOk(sys: System, step: Step)
    requires Inv(sys)
    ensures Inv(Next(sys, step))
  {
    hide Inv, HandlerOk, WireOk, Own, Settle, BreakOff, AdvanceHandler, WritersOpened;
    match step
    case Deliver(callback) => if sys.handler.pc.Idle? { DeliverOk(sys, callback); }
    case Return(text, reasoning) => if sys.handler.pc.Idle? { ReturnOk(sys, text, reasoning); }
    case Break => if sys.handler.pc.Idle? { BreakOk(sys); }
    case Advance => AdvanceOk(sys);
    case _ => KeeperOk(sys, step);
  }

  lemma ReturnOk(sys: System, text: string, reasoning: string)
    requires Inv(sys) && sys.handler.pc.Idle?
    ensures Inv(sys.(handler := Settle(sys.config, sys.handler, text, reasoning)))
  {
    hide Own, WireOk, HandlerOk;
    var after := Settle(sys.config, sys.handler, text, reasoning);
    SettleOk(sys.config, sys.handler, Own(sys.wire), Accepts(sys), text, reasoning);
    WireIgnoresHandler(sys, after);
  }

  lemma {:induction false} ExecuteInv(config: Config, keepers: nat, room: nat, steps: seq<Step>)
    ensures Inv(Execute(Initial(config, keepers, room), steps))
  {
    if steps != [] {
      hide Inv, Next, Initial;
      ExecuteInv(config, keepers, room, steps[..|steps| - 1]);
      StepOk(Execute(Initial(config, keepers, room), steps[..|steps| - 1]), steps[|steps| - 1]);
    }
  }

  // ---------- What every interleaving guarantees ----------

  function Run(config: Config, keepers: nat, room: nat, steps: seq<Step>): System {
    Execute(Initial(config, keepers, room), steps)
  }

  /** Numbers on the wire are 0, 1, 2, ... and the first four events are the opening; apart from keep-alive
      events, what follows is deltas and at most one reasoning.done, and then a beginning of one closing
      form; so there is at most one terminal event and nothing of the handler comes after it. */
  lemma StreamGrammar(config: Config, keepers: nat, room: nat, steps: seq<Step>)
    ensures var sys := Run(config, keepers, room, steps);
            var own, h := Own(sys.wire), sys.handler;
      && (forall i | 0 <= i < |sys.wire| :: sys.wire[i].number == i && (i < 4 ==> sys.wire[i].event == OPENING[i]))
      && BodyThenClosing(own, h.sent) && (h.sent != [] ==> Closing(h.sent + h.rest))
      && multiset(own)[ReasoningDone] <= 1
      && multiset(own)[CompletedEvent] + multiset(own)[FailedEvent] <= 1
  {
    ExecuteInv(config, keepers, room, steps);
    var sys := Run(config, keepers, room, steps);
    var own, h := Own(sys.wire), sys.handler;
    OneTerminal(own, h.sent, h.rest);
    hide Own, Execute, Closing, BodyThenClosing, Texts, DeltaSuffix;
  }

  lemma OneTerminal(own: seq<Event>, sent: seq<Event>, rest: seq<Event>)
    requires BodyThenClosing(own, sent) && (sent != [] ==> Closing(sent + rest))
    ensures multiset(own)[CompletedEvent] + multiset(own)[FailedEvent] <= 1
  {
    var body := own[..|own| - |sent|];
    assert own == body + sent;
    assert CompletedEvent !in body && FailedEvent !in body;
    var all := sent + rest;
    assert multiset(all) == multiset(sent) + multiset(rest);
    assert sent != [] ==> multiset(all)[CompletedEvent] + multiset(all)[FailedEvent] == 1 by {
      if sent != [] { ClosingHasOneTerminal(all); }
    }
  }

  lemma ClosingHasOneTerminal(events: seq<Event>)
    requires Closing(events)
    ensures multiset(events)[CompletedEvent] + multiset(events)[FailedEvent] == 1
  {}

  /** When the handler is done with a result and no write has failed, the stream is closed as completed, and
      its text deltas make up the final text exactly if what had been emitted before was a prefix of it. */
  lemma TextReachesTheClient(config: Config, keepers: nat, room: nat, steps: seq<Step>)
    requires var sys := Run(config, keepers, room, steps);
      sys.handler.pc.Finished? && sys.handler.final.Some? && Accepts(sys)
    ensures var sys := Run(config, keepers, room, steps);
            var own, final := Own(sys.wire), sys.handler.final.value;
      && Closing(sys.handler.sent) && sys.handler.sent != [FailedEvent] && BodyThenClosing(own, sys.handler.sent)
      && (Texts(own) == final.text <==> final.emitted <= final.text)
  {
    ExecuteInv(config, keepers, room, steps);
    var sys := Run(config, keepers, room, steps);
    var own, h, final := Own(sys.wire), sys.handler, sys.handler.final.value;
    hide Own, Execute, Closing, BodyThenClosing, Texts, DeltaSuffix, WireOk, Run;
    assert QueuedText(h.queue) == "";
    assert h.text + "" == h.text && Texts(own) + "" == Texts(own) && "" + "" == "";
    if final.emitted <= final.text { DeltaOfExtension(final.emitted, final.text); }
  }

  // ---------- What the grammar does not guarantee ----------

  lemma StepOnce(sys: System, steps: seq<Step>, step: Step, now: System)
    requires Execute(sys, steps) == now
    ensures Execute(sys, steps + [step]) == Next(now, step)
  {
    assert (steps + [step])[..|steps|] == steps;
  }

  /** The handler waits for the run, and the wire has room for another six events. */
  predicate Ready(sys: System) {
    && WireOk(sys) && sys.handler.pc.Idle? && sys.handler.final.None? && |sys.wire| + 6 <= sys.room
    && (sys.headersSent ==> |OPENING| <= |sys.wire|)
  }

  /** A callback that runs undisturbed and writes one event. */
  lemma CallbackAlone(start: System, steps: seq<Step>, sys: System, callback: Callback, event: Event)
    returns (after: System)
    requires Execute(start, steps) == sys && Ready(sys) && Wanted(sys.config, sys.handler, callback)
    requires Begin(sys.handler, callback).pc == Writing(event) && !event.InProgress?
    ensures Execute(start, steps + [Deliver(callback)] + [Advance] + [Advance]) == after
    ensures WireOk(after) && after.headersSent && after.room == sys.room && after.config == sys.config
    ensures |after.wire| <= |sys.wire| + 5 && |OPENING| <= |after.wire|
    ensures after.handler == Begin(sys.handler, callback).(pc := Idle) && Own(after.wire) == Own(sys.wire) + [event]
  {
    hide Execute, Own, Wanted, WriteAll, Sanitize;
    var s1 := Next(sys, Deliver(callback));
    StepOnce(start, steps, Deliver(callback), sys);
    assert s1 == sys.(handler := sys.handler.(pc := Starting(callback)));
    StartKeeps(s1);
    StartGrows(s1);
    var s2 := Next(s1, Advance);
    StepOnce(start, steps + [Deliver(callback)], Advance, s1);
    assert s2.handler == Begin(sys.handler, callback);
    WireIgnoresHandler(StartStream(s1), s2.handler);
    StepOnce(start, steps + [Deliver(callback)] + [Advance], Advance, s2);
    WriteKeeps(s2, event);
    after := Next(s2, Advance);
    WireIgnoresHandler(Write(s2, event), after.handler);
  }

  lemma StartGrows(sys: System)
    requires WireOk(sys)
    ensures |StartStream(sys).wire| <= |sys.wire| + |OPENING|
  {
    if !sys.headersSent {
      OpeningWritten(sys.(headersSent := true), 0);
      assert OPENING[0..] == OPENING;
    }
  }

  /** Text that follows reasoning and runs undisturbed ends the reasoning first. */
  lemma TextEndsReasoning(start: System, steps: seq<Step>, sys: System, part: string) returns (after: System)
    requires Execute(start, steps) == sys && Ready(sys) && part != "" && sys.headersSent
    requires sys.handler.phaseStarted && !sys.handler.phaseDone && Sanitize(sys.handler.reasoning) != ""
    ensures Execute(start, steps + [Deliver(Text(part))] + [Advance] + [Advance] + [Advance]) == after
    ensures WireOk(after) && after.headersSent && after.room == sys.room && after.config == sys.config
    ensures |after.wire| <= |sys.wire| + 2 && |OPENING| <= |after.wire|
    ensures after.handler == TakeText(sys.handler.(phaseDone := true), part).(pc := Idle)
    ensures Own(after.wire) == Own(sys.wire) + [ReasoningDone] + [TextDelta(part)]
  {
    hide Execute, Own, Sanitize;
    var h1 := sys.handler.(pc := Starting(Text(part)));
    var h2 := h1.(phaseDone := true, pc := ClosingReasoning(part));
    var s1, s2 := sys.(handler := h1), sys.(handler := h2);
    StepOnce(start, steps, Deliver(Text(part)), sys);
    StepOnce(start, steps + [Deliver(Text(part))], Advance, s1);
    assert Next(s1, Advance) == s2;
    WireIgnoresHandler(sys, h2);
    WriteKeeps(s2, ReasoningDone);
    var s3 := Write(s2, ReasoningDone).(handler := TakeText(h2, part));
    assert Next(s2, Advance) == s3;
    StepOnce(start, steps + [Deliver(Text(part))] + [Advance], Advance, s2);
    WireIgnoresHandler(Write(s2, ReasoningDone), s3.handler);
    WriteKeeps(s3, TextDelta(part));
    after := Next(s3, Advance);
    StepOnce(start, steps + [Deliver(Text(part))] + [Advance] + [Advance], Advance, s3);
    WireIgnoresHandler(Write(s3, TextDelta(part)), after.handler);
  }

  const IDLE := Handler(Idle, [], None, "", "", false, false, false, [], [])

  lemma StartsReady(config: Config, keepers: nat, room: nat)
    requires room >= 6
    ensures var start := Initial(config, keepers, room);
      && Execute(start, []) == start && Ready(start) && start.handler == IDLE && start.wire == []
      && start.config == config && start.room == room && |start.keepers| == keepers && !start.headersSent
      && (forall k | 0 <= k < keepers :: start.keepers[k] == Waiting)
      && Own([]) == []
  {}

  lemma ReasoningTextReasoning(start: System) returns (steps: seq<Step>, last: System)
    requires Execute(start, []) == start && Ready(start) && start.handler == IDLE && start.wire == []
    requires start.room >= 20 && !start.config.suppressReasoning
    ensures Execute(start, steps) == last
    ensures Own(last.wire) == Own([]) + [ReasoningDelta("r")] + [ReasoningDone]
      + [TextDelta("t")] + [ReasoningDelta("s")]
  {
    PlainIsVisible();
    hide Execute, Own, Sanitize, Next, WireOk, Initial;
    assert "" + "r" == "r";
    var s1 := CallbackAlone(start, [], start, Reasoning("r"), ReasoningDelta("r"));
    steps := [] + [Deliver(Reasoning("r"))] + [Advance] + [Advance];
    assert s1.handler.reasoning == "r" && s1.handler.phaseStarted && !s1.handler.phaseDone;
    var s2 := TextEndsReasoning(start, steps, s1, "t");
    steps := steps + [Deliver(Text("t"))] + [Advance] + [Advance] + [Advance];
    last := CallbackAlone(start, steps, s2, Reasoning("s"), ReasoningDelta("s"));
    steps := steps + [Deliver(Reasoning("s"))] + [Advance] + [Advance];
  }

  /** Reasoning deltas can follow reasoning.done: it is sent when text first follows reasoning, and reasoning
      that comes later is sent all the same, without another end. */
  lemma ReasoningCanFollowItsEnd() returns (steps: seq<Step>)
    ensures Own(Run(Config(false, false), 0, 100, steps).wire)
         == [ReasoningDelta("r"), ReasoningDone, TextDelta("t"), ReasoningDelta("s")]
  {
    hide Execute, Initial, Ready, Own;
    StartsReady(Config(false, false), 0, 100);
    var last;
    steps, last := ReasoningTextReasoning(Initial(Config(false, false), 0, 100));
  }

  lemma PlainIsVisible()
    ensures Sanitize("r") != ""
  {
    SanitizeToPlain("r", "r");
  }

  /** A keep-alive event can follow the terminal event: its goroutine opened the stream before the handler
      finished and writes afterwards. */
  lemma KeepAliveCanComeLast() returns (steps: seq<Step>)
    ensures var wire := Run(Config(false, false), 1, 100, steps).wire;
      |wire| == 9 && wire[7].event == CompletedEvent && wire[8].event == InProgress
  {
    hide Execute, Initial, Ready, Own;
    var start := Initial(Config(false, false), 1, 100);
    StartsReady(Config(false, false), 1, 100);
    var s3 := BeatThenFinish(start);
    steps := [] + [Tick(0)] + [Return("", "")] + [Advance];
    var s7 := CloseAlone(start, steps, s3);
    steps := steps + [Advance] + [Advance] + [Advance] + [Advance];
    StepOnce(start, steps, Beat(0), s7);
    steps := steps + [Beat(0)];
  }

  lemma SettleNothing(config: Config)
    ensures Settle(config, IDLE, "", "") == IDLE.(final := Some(Final("", "", "")), pc := FinalStart)
    ensures Close(IDLE.(final := Some(Final("", "", "")), pc := FinalStart), false).rest
         == [TextDone, PartDone, ItemDone, CompletedEvent]
  {
    assert DeltaSuffix("", "") == "";
    assert ClosingEvents(false) == [TextDone, PartDone, ItemDone, CompletedEvent];
  }

  lemma OpeningAlone(start: System) returns (after: System)
    requires Ready(start) && start.wire == [] && !start.headersSent
    ensures StartStream(start) == after == start.(wire := after.wire, sequence := after.sequence, headersSent := true)
    ensures |after.wire| == 4
  {
    hide WriteAll, Own;
    after := StartStream(start);
    assert OpeningUpTo(start.(headersSent := true), 0);
    OpeningWritten(start.(headersSent := true), 0);
    assert OPENING[0..] == OPENING;
  }

  lemma TickAlone(start: System) returns (after: System)
    requires Ready(start) && start.keepers == [Waiting] && start.wire == [] && !start.headersSent
    ensures Next(start, Tick(0)) == after && |after.wire| == 4 && after.headersSent
    ensures after == start.(wire := after.wire, sequence := after.sequence, headersSent := true, keepers := [Beating])
  {
    hide StartStream, WireOk;
    after := OpeningAlone(start);
    after := Next(start, Tick(0));
  }

  /** A keep-alive goroutine opens the stream, and the run returns an empty result. */
  lemma BeatThenFinish(start: System) returns (after: System)
    requires Execute(start, []) == start && Ready(start) && start.handler == IDLE && start.wire == []
    requires start.keepers == [Waiting] && start.room >= 20 && !start.headersSent
    ensures Execute(start, [] + [Tick(0)] + [Return("", "")] + [Advance]) == after
    ensures |after.wire| == 4 && after.keepers == [Beating] && after.room == start.room
    ensures after.handler.pc.Finals? && after.handler.rest == [TextDone, PartDone, ItemDone, CompletedEvent]
  {
    hide Execute, Own, Settle, WireOk, WriteAll, ClosingEvents;
    var s1 := TickAlone(start);
    StepOnce(start, [], Tick(0), start);
    SettleNothing(start.config);
    var h := Settle(start.config, IDLE, "", "");
    StepOnce(start, [] + [Tick(0)], Return("", ""), s1);
    assert Next(s1, Return("", "")) == s1.(handler := h);
    StepOnce(start, [] + [Tick(0)] + [Return("", "")], Advance, s1.(handler := h));
    after := Next(s1.(handler := h), Advance);
  }

  lemma CloseAlone(start: System, steps: seq<Step>, sys: System) returns (after: System)
    requires Execute(start, steps) == sys && sys.handler.pc.Finals? && |sys.wire| + 4 < sys.room
    requires sys.handler.rest == [TextDone, PartDone, ItemDone, CompletedEvent]
    ensures Execute(start, steps + [Advance] + [Advance] + [Advance] + [Advance]) == after
    ensures |after.wire| == |sys.wire| + 4 && after.wire[|sys.wire| + 3].event == CompletedEvent
    ensures after.keepers == sys.keepers && after.room == sys.room
  {
    hide Execute;
    var rest := sys.handler.rest;
    assert rest[1..] == [PartDone, ItemDone, CompletedEvent] && rest[1..][1..] == [ItemDone, CompletedEvent];
    assert rest[1..][1..][1..] == [CompletedEvent];
    var s1, s2, s3 := Next(sys, Advance), Next(Next(sys, Advance), Advance),
      Next(Next(Next(sys, Advance), Advance), Advance);
    StepOnce(start, steps, Advance, sys);
    StepOnce(start, steps + [Advance], Advance, s1);
    StepOnce(start, steps + [Advance] + [Advance], Advance, s2);
    StepOnce(start, steps + [Advance] + [Advance] + [Advance], Advance, s3);
    after := Next(s3, Advance);
  }
}