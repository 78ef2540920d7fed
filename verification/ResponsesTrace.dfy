/** What the callbacks of a live response make appear on the wire, in which order, and what comes after the
    closing events. */
module ResponsesTrace {
  import opened Strings
  import opened Sanitizer
  import opened ResponsesStream

  /** What the handler puts on the wire in a step. */
  function OwnEvent(sys: System, step: Step): seq<Event> {
    if !step.Advance? || !Accepts(sys) then []
    else match sys.handler.pc
      case ClosingReasoning(_) => [ReasoningDone]
      case Writing(event) => [event]
      case Finals => if sys.handler.rest != [] then [sys.handler.rest[0]] else []
      case _ => []
  }

  lemma AdvanceOwn(sys: System)
    requires Inv(sys)
    ensures Own(AdvanceHandler(sys).wire) == Own(sys.wire) + OwnEvent(sys, Advance)
  {
    hide Own, Begin, Proceed, Abandon, TakeText, Close, StartStream, Starts, Write;
    var h := sys.handler;
    match h.pc
    case Starting(_) => StartKeeps(sys);
    case ClosingReasoning(_) => WriteKeeps(sys, ReasoningDone);
    case Writing(event) => WriteKeeps(sys, event);
    case FinalStart => StartKeeps(sys);
    case Finals =>
      if h.rest != [] {
        WriteKeeps(sys, h.rest[0]);
        NextClosing(h, Own(sys.wire), Accepts(sys));
      }
    case _ =>
  }

  lemma OwnStep(sys: System, step: Step)
    requires Inv(sys)
    ensures Own(Next(sys, step).wire) == Own(sys.wire) + OwnEvent(sys, step)
  {
    hide Own, AdvanceHandler, Settle, BreakOff, StartStream, Starts, Write, HandlerOk;
    match step
    case Advance => AdvanceOwn(sys);
    case Tick(_) => StartKeeps(sys);
    case Beat(_) => if sys.headersSent { WriteKeeps(sys, InProgress); }
    case Break => BreakKeepsWire(sys);
    case _ =>
  }

  lemma BreakKeepsWire(sys: System)
    ensures BreakOff(sys).wire == sys.wire
  {}

  // ---------- Reasoning behind its end ----------

  /** No reasoning delta comes behind a reasoning.done. */
  predicate NoneBehindDone(own: seq<Event>) {
    forall i, j | 0 <= i < j < |own| && own[i].ReasoningDone? :: !own[j].ReasoningDelta?
  }

  lemma OneMoreEvent(own: seq<Event>, event: Event)
    requires NoneBehindDone(own)
    ensures NoneBehindDone(own + [event]) <==> !(event.ReasoningDelta? && ReasoningDone in own)
  {
    var longer := own + [event];
    assert forall i | 0 <= i < |own| :: longer[i] == own[i];
    if event.ReasoningDelta? && ReasoningDone in own {
      var i :| 0 <= i < |own| && own[i] == ReasoningDone;
      assert longer[i].ReasoningDone? && longer[|own|].ReasoningDelta?;
    }
  }

  /** A step puts reasoning behind its end exactly if it writes a reasoning delta when reasoning.done is
      already on the wire. */
  lemma StepKeepsReasoningOrder(sys: System, step: Step)
    requires Inv(sys) && NoneBehindDone(Own(sys.wire))
    ensures NoneBehindDone(Own(Next(sys, step).wire)) <==>
      !(step.Advance? && sys.handler.pc.Writing? && sys.handler.pc.event.ReasoningDelta? && Accepts(sys)
        && ReasoningDone in Own(sys.wire))
  {
    hide Own, Next, NoneBehindDone, HandlerOk;
    OwnStep(sys, step);
    var own, more := Own(sys.wire), OwnEvent(sys, step);
    assert own + [] == own;
    if more != [] {
      if sys.handler.pc.Finals? { NextIsPlain(sys.handler, own, Accepts(sys)); }
      OneMoreEvent(own, more[0]);
    }
  }

  lemma NextIsPlain(h: Handler, own: seq<Event>, live: bool)
    requires HandlerOk(h, own, live) && h.pc.Finals? && h.rest != []
    ensures !h.rest[0].ReasoningDelta?
  {
    assert (h.sent + h.rest)[|h.sent|] == h.rest[0];
  }

  // ---------- The script of the callbacks ----------

  /** The callbacks that found or opened the stream, in order, those owed after the result included. */
  function Begun(sys: System, steps: seq<Step>): seq<Callback> {
    if steps == [] then []
    else
      var before, step := Execute(sys, steps[..|steps| - 1]), steps[|steps| - 1];
      Begun(sys, steps[..|steps| - 1])
      + (if step.Advance? && before.handler.pc.Starting? && Starts(before) then [before.handler.pc.callback] else [])
  }

  /** The last callback was not a text. */
  predicate PhaseStarted(cbs: seq<Callback>) {
    cbs != [] && !cbs[|cbs| - 1].Text?
  }

  /** Some text came directly behind a callback that was none. */
  predicate PhaseDone(cbs: seq<Callback>) {
    exists i | 0 <= i < |cbs| :: cbs[i].Text? && PhaseStarted(cbs[..i])
  }

  function ReasoningOf(cbs: seq<Callback>): string {
    if cbs == [] then ""
    else
      var last := cbs[|cbs| - 1];
      ReasoningOf(cbs[..|cbs| - 1]) + (if last.Reasoning? then last.part else "")
  }

  /** `callback` after `cbs` ends the reasoning: it is the first text directly behind a callback that was none,
      and the reasoning so far is visible. */
  predicate EndsReasoning(cbs: seq<Callback>, callback: Callback) {
    callback.Text? && PhaseStarted(cbs) && !PhaseDone(cbs) && Sanitize(ReasoningOf(cbs)) != ""
  }

  function Delta(callback: Callback): Event {
    match callback
    case Text(part) => TextDelta(part)
    case Reasoning(part) => ReasoningDelta(part)
    case Warmup => ReasoningDelta(HEARTBEAT)
  }

  function EventsFor(cbs: seq<Callback>, callback: Callback): seq<Event> {
    (if EndsReasoning(cbs, callback) then [ReasoningDone] else []) + [Delta(callback)]
  }

  /** The events that callbacks ask for, told from the callbacks alone. */
  function Script(cbs: seq<Callback>): seq<Event> {
    if cbs == [] then [] else Script(cbs[..|cbs| - 1]) + EventsFor(cbs[..|cbs| - 1], cbs[|cbs| - 1])
  }

  /** Events of a callback under way that are not on the wire yet. */
  function Underway(pc: PC): seq<Event> {
    match pc
    case ClosingReasoning(part) => [ReasoningDone, TextDelta(part)]
    case Writing(event) => [event]
    case _ => []
  }

  /** The wire and the handler's flags are what the script says; `live` that no write has failed. */
  predicate Follows(h: Handler, own: seq<Event>, cbs: seq<Callback>, live: bool) {
    live ==>
      && own + Underway(h.pc) == Script(cbs) + h.sent
      && (!h.pc.Finals? && !h.pc.Finished? ==>
            && h.reasoning == ReasoningOf(cbs) && h.phaseDone == PhaseDone(cbs)
            && (if h.pc.ClosingReasoning? then !PhaseStarted(cbs) else h.phaseStarted == PhaseStarted(cbs)))
  }

  lemma PhaseDoneMore(cbs: seq<Callback>, callback: Callback)
    ensures PhaseDone(cbs + [callback]) <==> PhaseDone(cbs) || (callback.Text? && PhaseStarted(cbs))
  {
    var more := cbs + [callback];
    assert more[..|cbs|] == cbs;
    assert forall i | 0 <= i < |cbs| :: more[i] == cbs[i] && more[..i] == cbs[..i];
  }

  lemma ScriptMore(cbs: seq<Callback>, callback: Callback)
    ensures Script(cbs + [callback]) == Script(cbs) + EventsFor(cbs, callback)
    ensures ReasoningOf(cbs + [callback]) == ReasoningOf(cbs) + (if callback.Reasoning? then callback.part else "")
    ensures PhaseStarted(cbs + [callback]) <==> !callback.Text?
  {
    assert (cbs + [callback])[..|cbs|] == cbs;
  }

  lemma BeginFollows(h: Handler, own: seq<Event>, cbs: seq<Callback>, live: bool)
    requires Follows(h, own, cbs, live) && h.pc.Starting? && h.sent == []
    ensures Follows(Begin(h, h.pc.callback), own, cbs + [h.pc.callback], live)
  {
    hide Script, ReasoningOf, PhaseDone, PhaseStarted, Sanitize;
    var callback := h.pc.callback;
    PhaseDoneMore(cbs, callback);
    ScriptMore(cbs, callback);
    if live {
      var after := Begin(h, callback);
      assert own + [] == own && Script(cbs) + [] == Script(cbs) && h.reasoning + "" == h.reasoning;
      assert Underway(after.pc) == EventsFor(cbs, callback);
      assert Script(cbs) + EventsFor(cbs, callback) + [] == Script(cbs) + EventsFor(cbs, callback);
    }
  }

  /** A step of the handler other than the beginning of a callback. */
  lemma WriteFollows(h: Handler, after: Handler, own: seq<Event>, event: Event, cbs: seq<Callback>, live: bool)
    requires Follows(h, own, cbs, true) && h.sent == []
    requires (h.pc == Writing(event) && after == Proceed(h))
          || (h.pc.ClosingReasoning? && event == ReasoningDone && after == TakeText(h, h.pc.part))
    ensures Follows(after, own + [event], cbs, live)
  {
    hide Script, ReasoningOf, PhaseDone, PhaseStarted;
    assert own + [event] + Underway(after.pc) == own + Underway(h.pc);
  }

  lemma CloseFollows(h: Handler, after: Handler, own: seq<Event>, cbs: seq<Callback>, live: bool)
    requires Follows(h, own, cbs, live) && Underway(h.pc) == Underway(after.pc) == []
    requires after.sent == h.sent && (after.pc.Finals? || after.pc.Finished?)
    ensures Follows(after, own, cbs, live)
  {
    hide Script;
  }

  lemma SendFollows(h: Handler, own: seq<Event>, cbs: seq<Callback>, live: bool)
    requires Follows(h, own, cbs, true) && h.pc.Finals? && h.rest != []
    ensures Follows(SendOne(h), own + [h.rest[0]], cbs, live)
  {
    hide Script;
    assert own + [] == own && own + [h.rest[0]] + [] == own + [h.rest[0]];
    assert Script(cbs) + h.sent + [h.rest[0]] == Script(cbs) + (h.sent + [h.rest[0]]);
  }

  /** The callback that the step begins, if any. */
  function BegunBy(sys: System, step: Step): seq<Callback> {
    if step.Advance? && sys.handler.pc.Starting? && Starts(sys) then [sys.handler.pc.callback] else []
  }

  predicate TraceOk(sys: System, cbs: seq<Callback>) {
    Follows(sys.handler, Own(sys.wire), cbs, Accepts(sys))
  }

  lemma NothingSentYet(sys: System)
    requires Inv(sys) && !sys.handler.pc.Finals? && !sys.handler.pc.Finished?
    ensures sys.handler.sent == []
  {
    hide Own, WireOk;
  }

  lemma TraceWrites(sys: System, event: Event, done: Handler, failed: Handler, cbs: seq<Callback>)
    requires WireOk(sys) && sys.headersSent && !event.InProgress?
    requires forall live | Accepts(sys) :: Follows(done, Own(sys.wire) + [event], cbs, live)
    ensures TraceOk(Write(sys, event).(handler := if Accepts(sys) then done else failed), cbs)
  {
    hide Own, WireOk;
    WriteKeeps(sys, event);
  }

  lemma TraceOpens(sys: System, done: Handler, failed: Handler, cbs: seq<Callback>)
    requires WireOk(sys)
    requires forall live | live ==> Accepts(sys) :: Follows(done, Own(sys.wire), cbs, live)
    ensures TraceOk(StartStream(sys).(handler := if Starts(sys) then done else failed), cbs)
  {
    hide Own, WireOk, StartStream, Starts;
    StartKeeps(sys);
  }

  /** If the stream does not open, no later write succeeds, and the trace says nothing more. */
  lemma TraceEnds(sys: System, h: Handler, cbs: seq<Callback>)
    requires WireOk(sys) && !Starts(sys)
    ensures TraceOk(StartStream(sys).(handler := h), cbs)
  {
    hide Own, WireOk, StartStream, Starts;
    StartKeeps(sys);
  }

  lemma StillFollows(h: Handler, own: seq<Event>, cbs: seq<Callback>, live: bool, still: bool)
    requires Follows(h, own, cbs, live) && (still ==> live)
    ensures Follows(h, own, cbs, still)
  {
    hide Script, Underway, ReasoningOf, PhaseDone, PhaseStarted;
  }

  lemma StartingTrace(sys: System, cbs: seq<Callback>)
    requires Inv(sys) && TraceOk(sys, cbs) && sys.handler.pc.Starting?
    ensures TraceOk(AdvanceHandler(sys), cbs + BegunBy(sys, Advance))
  {
    var h, own := sys.handler, Own(sys.wire);
    NothingSentYet(sys);
    hide Own, Begin, Abandon, StartStream, Starts, Follows, WireOk, HandlerOk;
    var callback := h.pc.callback;
    if Starts(sys) {
      forall live | live ==> Accepts(sys) ensures Follows(Begin(h, callback), own, cbs + [callback], live) {
        StillFollows(h, own, cbs, Accepts(sys), live);
        BeginFollows(h, own, cbs, live);
      }
      TraceOpens(sys, Begin(h, callback), Abandon(h), cbs + [callback]);
    } else {
      TraceEnds(sys, Abandon(h), cbs + []);
    }
  }

  lemma AdvanceTrace(sys: System, cbs: seq<Callback>)
    requires Inv(sys) && TraceOk(sys, cbs) && !sys.handler.pc.Starting?
    ensures TraceOk(AdvanceHandler(sys), cbs)
  {
    var h, own := sys.handler, Own(sys.wire);
    if !h.pc.Finals? && !h.pc.Finished? { NothingSentYet(sys); }
    if h.pc.Finals? && h.rest != [] { NextClosing(h, own, Accepts(sys)); }
    if h.pc.Writing? { WritesBody(h, own, Accepts(sys)); }
    hide Own, Begin, Proceed, Abandon, TakeText, Close, SendOne, StartStream, Starts, Write, HandlerOk, WireOk, Follows;
    match h.pc
    case ClosingReasoning(part) =>
      forall live | Accepts(sys) ensures Follows(TakeText(h, part), own + [ReasoningDone], cbs, live) {
        WriteFollows(h, TakeText(h, part), own, ReasoningDone, cbs, live);
      }
      TraceWrites(sys, ReasoningDone, TakeText(h, part), Abandon(h), cbs);
    case Writing(event) =>
      forall live | Accepts(sys) ensures Follows(Proceed(h), own + [event], cbs, live) {
        WriteFollows(h, Proceed(h), own, event, cbs, live);
      }
      TraceWrites(sys, event, Proceed(h), Abandon(h), cbs);
    case FinalStart => FinalStartTrace(sys, cbs);
    case Finals => FinalsTrace(sys, cbs);
    case _ =>
  }

  lemma FinalStartTrace(sys: System, cbs: seq<Callback>)
    requires Inv(sys) && TraceOk(sys, cbs) && sys.handler.pc.FinalStart?
    ensures TraceOk(AdvanceHandler(sys), cbs)
  {
    var h, own := sys.handler, Own(sys.wire);
    hide Own, Close, StartStream, Starts, HandlerOk, WireOk, Follows;
    var hasReasoning := h.final.Some? && h.final.value.reasoning != "";
    CloseIsFinal(h, hasReasoning);
    forall live | live ==> Accepts(sys) ensures Follows(Close(h, hasReasoning), own, cbs, live) {
      StillFollows(h, own, cbs, Accepts(sys), live);
      CloseFollows(h, Close(h, hasReasoning), own, cbs, live);
    }
    TraceOpens(sys, Close(h, hasReasoning), h.(pc := Finished), cbs);
  }

  lemma FinalsTrace(sys: System, cbs: seq<Callback>)
    requires Inv(sys) && TraceOk(sys, cbs) && sys.handler.pc.Finals?
    ensures TraceOk(AdvanceHandler(sys), cbs)
  {
    var h, own := sys.handler, Own(sys.wire);
    hide Own, SendOne, Write, HandlerOk, WireOk, Follows;
    if h.rest == [] {
      CloseFollows(h, h.(pc := Finished), own, cbs, Accepts(sys));
    } else {
      NextClosing(h, own, Accepts(sys));
      SendTrace(sys, cbs);
    }
  }

  lemma SendTrace(sys: System, cbs: seq<Callback>)
    requires WireOk(sys) && TraceOk(sys, cbs) && sys.handler.pc.Finals?
    requires sys.headersSent && sys.handler.rest != [] && !sys.handler.rest[0].InProgress?
    ensures TraceOk(AdvanceHandler(sys), cbs)
  {
    var h, own := sys.handler, Own(sys.wire);
    hide Own, SendOne, Write, WireOk, Follows;
    forall live | Accepts(sys) ensures Follows(SendOne(h), own + [h.rest[0]], cbs, live) {
      SendFollows(h, own, cbs, live);
    }
    TraceWrites(sys, h.rest[0], SendOne(h), h.(pc := Finished), cbs);
  }

  lemma CloseIsFinal(h: Handler, hasReasoning: bool)
    ensures Close(h, hasReasoning).pc.Finals? && Close(h, hasReasoning).sent == h.sent
  {}

  lemma StepTrace(sys: System, step: Step, cbs: seq<Callback>)
    requires Inv(sys) && TraceOk(sys, cbs)
    ensures TraceOk(Next(sys, step), cbs + BegunBy(sys, step))
  {
    hide AdvanceHandler, Inv, TraceOk, Settle, BreakOff, Starts, StartStream, Write, Accepts;
    assert cbs + [] == cbs;
    match step
    case Advance => if sys.handler.pc.Starting? { StartingTrace(sys, cbs); } else { AdvanceTrace(sys, cbs); }
    case Break => BreakTrace(sys, cbs);
    case Return(text, reasoning) => if sys.handler.pc.Idle? { ReturnFollows(sys, text, reasoning, cbs); }
    case Deliver(callback) => if sys.handler.pc.Idle? { DeliverFollows(sys, callback, cbs); }
    case _ => KeeperTrace(sys, step, cbs);
  }

  lemma DeliverFollows(sys: System, callback: Callback, cbs: seq<Callback>)
    requires TraceOk(sys, cbs) && sys.handler.pc.Idle?
    ensures TraceOk(sys.(handler := sys.handler.(pc := Starting(callback))), cbs)
  {
    hide Own, Script, ReasoningOf, PhaseDone, PhaseStarted;
  }

  lemma KeeperTrace(sys: System, step: Step, cbs: seq<Callback>)
    requires Inv(sys) && TraceOk(sys, cbs) && (step.Tick? || step.Beat?)
    ensures TraceOk(Next(sys, step), cbs)
  {
    hide Own, StartStream, Starts, Write, HandlerOk, WireOk, Follows;
    OwnStep(sys, step);
    assert Own(sys.wire) + [] == Own(sys.wire);
    StartKeeps(sys);
    if sys.headersSent { WriteKeepsRoom(sys, InProgress); }
    StillFollows(sys.handler, Own(sys.wire), cbs, Accepts(sys), Accepts(Next(sys, step)));
  }

  lemma WriteKeepsRoom(sys: System, event: Event)
    ensures Write(sys, event).room == sys.room && Write(sys, event).handler == sys.handler
    ensures |Write(sys, event).wire| >= |sys.wire|
  {}

  lemma BreakTrace(sys: System, cbs: seq<Callback>)
    requires Inv(sys) && TraceOk(sys, cbs)
    ensures TraceOk(Next(sys, Break), cbs)
  {
    hide Own, BreakOff, Inv, Follows;
    if sys.handler.pc.Idle? {
      BreakKeepsRest(sys);
      CloseFollows(sys.handler, BreakOff(sys).handler, Own(sys.wire), cbs, Accepts(sys));
    }
  }

  lemma BreakKeepsRest(sys: System)
    ensures BreakOff(sys) == sys.(handler := BreakOff(sys).handler) && BreakOff(sys).handler.sent == sys.handler.sent
    ensures BreakOff(sys).handler.pc.Finals? || BreakOff(sys).handler.pc.Finished?
  {
    hide Sanitize, TrimSpace;
  }

  lemma ReturnFollows(sys: System, text: string, reasoning: string, cbs: seq<Callback>)
    requires TraceOk(sys, cbs) && sys.handler.pc.Idle?
    ensures TraceOk(sys.(handler := Settle(sys.config, sys.handler, text, reasoning)), cbs)
  {
    hide Own, Script, ReasoningOf, PhaseDone, PhaseStarted;
  }

  // ---------- Whole runs ----------

  lemma {:induction false} RunTrace(config: Config, keepers: nat, room: nat, steps: seq<Step>)
    ensures TraceOk(Run(config, keepers, room, steps), Begun(Initial(config, keepers, room), steps))
  {
    if steps == [] {
      assert Own([]) == [];
    } else {
      var before := Run(config, keepers, room, steps[..|steps| - 1]);
      hide Inv, TraceOk, Next, Initial;
      RunTrace(config, keepers, room, steps[..|steps| - 1]);
      ExecuteInv(config, keepers, room, steps[..|steps| - 1]);
      StepTrace(before, steps[|steps| - 1], Begun(Initial(config, keepers, room), steps[..|steps| - 1]));
    }
  }

  /** In every interleaving without a failed write, the handler's events on the wire are the script of the
      callbacks, followed by the closing events sent, up to the events of the callback under way. */
  lemma WireIsScript(config: Config, keepers: nat, room: nat, steps: seq<Step>)
    requires Accepts(Run(config, keepers, room, steps))
    ensures var sys := Run(config, keepers, room, steps);
      Own(sys.wire) + Underway(sys.handler.pc)
        == Script(Begun(Initial(config, keepers, room), steps)) + sys.handler.sent
  {
    RunTrace(config, keepers, room, steps);
    hide Run, Script, Own, Underway;
  }

  /** Reasoning or the warm-up comes in again behind a text that ended visible reasoning. */
  predicate ReasoningResumes(cbs: seq<Callback>) {
    exists i, j | 0 <= i < j < |cbs| :: EndsReasoning(cbs[..i], cbs[i]) && !cbs[j].Text?
  }

  predicate ReasoningEnded(cbs: seq<Callback>) {
    exists i | 0 <= i < |cbs| :: EndsReasoning(cbs[..i], cbs[i])
  }

  lemma EndedMore(cbs: seq<Callback>, callback: Callback)
    ensures ReasoningEnded(cbs + [callback]) <==> ReasoningEnded(cbs) || EndsReasoning(cbs, callback)
    ensures ReasoningResumes(cbs + [callback]) <==> ReasoningResumes(cbs) || (ReasoningEnded(cbs) && !callback.Text?)
  {
    hide EndsReasoning;
    var more := cbs + [callback];
    assert more[..|cbs|] == cbs && more[|cbs|] == callback;
    assert forall i | 0 <= i < |cbs| :: more[i] == cbs[i] && more[..i] == cbs[..i];
    if ReasoningEnded(cbs) && !callback.Text? {
      var i :| 0 <= i < |cbs| && EndsReasoning(cbs[..i], cbs[i]);
      assert EndsReasoning(more[..i], more[i]) && !more[|cbs|].Text?;
    }
  }

  lemma NoScriptYet()
    ensures ReasoningDone !in Script([]) && !ReasoningEnded([])
    ensures NoneBehindDone(Script([])) && !ReasoningResumes([])
  {}

  lemma {:induction false} ScriptOrder(cbs: seq<Callback>)
    ensures ReasoningDone in Script(cbs) <==> ReasoningEnded(cbs)
    ensures NoneBehindDone(Script(cbs)) <==> !ReasoningResumes(cbs)
  {
    hide Script, ReasoningEnded, ReasoningResumes, NoneBehindDone, EventsFor, EndsReasoning;
    if cbs == [] {
      NoScriptYet();
    } else {
      var front, last := cbs[..|cbs| - 1], cbs[|cbs| - 1];
      ScriptOrder(front);
      assert cbs == front + [last];
      EndedMore(front, last);
      ScriptMore(front, last);
      ScriptGrows(Script(front), front, last);
    }
  }

  lemma ScriptGrows(script: seq<Event>, cbs: seq<Callback>, callback: Callback)
    ensures ReasoningDone in script + EventsFor(cbs, callback)
      <==> ReasoningDone in script || EndsReasoning(cbs, callback)
    ensures NoneBehindDone(script + EventsFor(cbs, callback)) <==>
      NoneBehindDone(script) && !(ReasoningDone in script && !callback.Text?)
  {
    hide EndsReasoning;
    var events := EventsFor(cbs, callback);
    if NoneBehindDone(script) {
      if EndsReasoning(cbs, callback) {
        assert callback.Text? by { EndsWithText(cbs, callback); }
        OneMoreEvent(script, ReasoningDone);
        OneMoreEvent(script + [ReasoningDone], Delta(callback));
        assert script + events == script + [ReasoningDone] + [Delta(callback)];
      } else {
        OneMoreEvent(script, Delta(callback));
        assert events == [Delta(callback)];
      }
    } else {
      assert forall i | 0 <= i < |script| :: (script + events)[i] == script[i];
    }
  }

  lemma EndsWithText(cbs: seq<Callback>, callback: Callback)
    requires EndsReasoning(cbs, callback)
    ensures callback.Text?
  {}

  /** In every interleaving without a failed write, once the callback under way has written its events: a
      reasoning delta stands behind reasoning.done exactly if a reasoning callback, the warm-up or the
      remaining reasoning of the result came behind a text that ended visible reasoning. */
  lemma ReasoningOrderExactly(config: Config, keepers: nat, room: nat, steps: seq<Step>)
    requires Accepts(Run(config, keepers, room, steps))
    requires Underway(Run(config, keepers, room, steps).handler.pc) == []
    ensures NoneBehindDone(Own(Run(config, keepers, room, steps).wire)) <==>
      !ReasoningResumes(Begun(Initial(config, keepers, room), steps))
  {
    var sys, cbs := Run(config, keepers, room, steps), Begun(Initial(config, keepers, room), steps);
    WireIsScript(config, keepers, room, steps);
    ScriptOrder(cbs);
    ExecuteInv(config, keepers, room, steps);
    SentIsPlain(sys);
    hide Script, Own, Run, ReasoningResumes, Inv;
    assert Own(sys.wire) + [] == Own(sys.wire);
    BehindPlain(Script(cbs), sys.handler.sent);
  }

  lemma SentIsPlain(sys: System)
    requires Inv(sys)
    ensures forall i | 0 <= i < |sys.handler.sent| :: !sys.handler.sent[i].ReasoningDelta?
  {
    var h := sys.handler;
    hide Own, WireOk, Texts;
    assert forall i | 0 <= i < |h.sent| :: (h.sent + h.rest)[i] == h.sent[i];
  }

  lemma BehindPlain(body: seq<Event>, sent: seq<Event>)
    requires forall i | 0 <= i < |sent| :: !sent[i].ReasoningDelta?
    ensures NoneBehindDone(body + sent) <==> NoneBehindDone(body)
  {
    assert forall i | 0 <= i < |body| :: (body + sent)[i] == body[i];
    assert forall i | |body| <= i < |body| + |sent| :: (body + sent)[i] == sent[i - |body|];
  }

  // ---------- Which callbacks are taken ----------

  lemma WarmupSetByBegin(h: Handler, callback: Callback)
    ensures Begin(h, callback).warmupSent <==> h.warmupSent || callback == Warmup
  {
    hide Sanitize;
  }

  lemma WarmupKept(h: Handler, part: string, hasReasoning: bool)
    ensures Proceed(h).warmupSent == Abandon(h).warmupSent == TakeText(h, part).warmupSent == h.warmupSent
    ensures Close(h, hasReasoning).warmupSent == h.warmupSent
    ensures h.rest != [] ==> SendOne(h).warmupSent == h.warmupSent
  {}

  lemma WarmupKeptAtEnd(sys: System, text: string, reasoning: string)
    ensures Settle(sys.config, sys.handler, text, reasoning).warmupSent == sys.handler.warmupSent
    ensures BreakOff(sys).handler.warmupSent == sys.handler.warmupSent && BreakOff(sys).config == sys.config
  {
    hide Sanitize, TrimSpace;
  }

  lemma WriteKeepsHandler(sys: System, event: Event)
    ensures Write(sys, event).handler == sys.handler && Write(sys, event).config == sys.config
  {}

  lemma WarmupStep(sys: System, step: Step)
    ensures Next(sys, step).config == sys.config
    ensures Next(sys, step).handler.warmupSent <==>
      sys.handler.warmupSent || (step.Advance? && sys.handler.pc == Starting(Warmup) && Starts(sys))
  {
    hide Settle, BreakOff, StartStream, Starts, Write, AdvanceHandler;
    OpeningKeepsHandler(sys);
    match step
    case Advance => WarmupAdvance(sys);
    case Return(text, reasoning) => WarmupKeptAtEnd(sys, text, reasoning);
    case Break => WarmupKeptAtEnd(sys, "", "");
    case Beat(_) => WriteKeepsHandler(sys, InProgress);
    case _ =>
  }

  lemma WarmupAdvance(sys: System)
    ensures AdvanceHandler(sys).config == sys.config
    ensures AdvanceHandler(sys).handler.warmupSent <==>
      sys.handler.warmupSent || (sys.handler.pc == Starting(Warmup) && Starts(sys))
  {
    hide StartStream, Starts, Write, Begin, Proceed, Abandon, TakeText, Close, SendOne;
    var h := sys.handler;
    OpeningKeepsHandler(sys);
    WriteKeepsHandler(sys, ReasoningDone);
    WarmupKept(h, "", false);
    WarmupKept(h, "", h.final.Some? && h.final.value.reasoning != "");
    match h.pc
    case Starting(callback) => WarmupSetByBegin(h, callback);
    case ClosingReasoning(part) => WarmupKept(h, part, false);
    case Writing(event) => WriteKeepsHandler(sys, event);
    case Finals => if h.rest != [] { WriteKeepsHandler(sys, h.rest[0]); }
    case _ =>
  }

  lemma OpeningKeepsHandler(sys: System)
    ensures StartStream(sys).handler == sys.handler && StartStream(sys).config == sys.config
  {
    WritingKeepsHandler(sys.(headersSent := true), OPENING);
  }

  lemma {:induction false} WritingKeepsHandler(sys: System, events: seq<Event>)
    ensures WriteAll(sys, events).handler == sys.handler && WriteAll(sys, events).config == sys.config
    decreases |events|
  {
    if events != [] && Accepts(sys) { WritingKeepsHandler(Write(sys, events[0]), events[1..]); }
  }

  lemma {:induction false} WarmupNoted(config: Config, keepers: nat, room: nat, steps: seq<Step>)
    ensures var sys := Run(config, keepers, room, steps);
      sys.config == config && (sys.handler.warmupSent <==> Warmup in Begun(Initial(config, keepers, room), steps))
  {
    if steps != [] {
      hide Next, Starts;
      WarmupNoted(config, keepers, room, steps[..|steps| - 1]);
      WarmupStep(Run(config, keepers, room, steps[..|steps| - 1]), steps[|steps| - 1]);
    }
  }

  /** In every run a callback that comes while none is under way is taken up exactly if it says something and, for
      reasoning, that is not suppressed; the warm-up only if it is asked for, and only once. */
  lemma CallbackTakenExactly(config: Config, keepers: nat, room: nat, steps: seq<Step>, callback: Callback)
    requires Run(config, keepers, room, steps).handler.pc.Idle?
    ensures var sys := Run(config, keepers, room, steps); var after := Next(sys, Deliver(callback));
      var wanted := match callback
        case Text(part) => |part| > 0
        case Reasoning(part) => |part| > 0 && !config.suppressReasoning
        case Warmup => config.warmup && !config.suppressReasoning
                       && Warmup !in Begun(Initial(config, keepers, room), steps);
      after == if wanted then sys.(handler := sys.handler.(pc := Starting(callback))) else sys
  {
    WarmupNoted(config, keepers, room, steps);
    hide Run, Begun;
  }

  /** Opening succeeds exactly if all its events get on the wire. */
  lemma OpeningSucceedsExactly(sys: System)
    requires WireOk(sys) && !sys.headersSent
    ensures var after := StartStream(sys).wire;
      Starts(sys) <==> |after| == 4 && after[0].event == Created && after[1].event == InProgress
                       && after[2].event == ItemAdded && after[3].event == PartAdded
  {
    StartKeeps(sys);
    assert OPENING[0..] == OPENING;
    OpeningWritten(sys.(headersSent := true), 0);
    hide Own, WriteAll;
  }

  // ---------- What comes behind the terminal event ----------

  predicate Terminal(event: Event) {
    event.CompletedEvent? || event.FailedEvent?
  }

  /** The last event on the wire is the terminal one. */
  predicate EndsTerminal(sys: System) {
    sys.wire != [] && Terminal(sys.wire[|sys.wire| - 1].event)
  }

  /** A keep-alive event reaches the wire. */
  predicate BeatAccepted(sys: System, step: Step) {
    step.Beat? && step.keeper < |sys.keepers| && sys.keepers[step.keeper].Beating? && Accepts(sys)
  }

  lemma ClosedHandlerIsSilent(sys: System)
    requires Inv(sys) && exists i | 0 <= i < |Own(sys.wire)| :: Terminal(Own(sys.wire)[i])
    ensures sys.headersSent && sys.handler.rest == [] && (sys.handler.pc.Finals? || sys.handler.pc.Finished?)
  {
    assert sys.headersSent by { assert !sys.headersSent ==> Own(sys.wire) == []; }
    hide Own, WireOk;
    var i :| 0 <= i < |Own(sys.wire)| && Terminal(Own(sys.wire)[i]);
    TerminalWasSent(sys.handler, Own(sys.wire), i);
  }

  lemma TerminalWasSent(h: Handler, own: seq<Event>, i: nat)
    requires Shape(h) && BodyThenClosing(own, h.sent) && i < |own| && Terminal(own[i])
    ensures h.rest == [] && (h.pc.Finals? || h.pc.Finished?)
  {
    hide Closing;
    var k := i - (|own| - |h.sent|);
    assert k >= 0 && own[|own| - |h.sent|..][k] == own[i];
    TerminalIsLast(h.sent, h.rest, k);
  }

  lemma TerminalIsLast(sent: seq<Event>, rest: seq<Event>, k: nat)
    requires k < |sent| && Terminal(sent[k]) && Closing(sent + rest)
    ensures rest == []
  {
    assert (sent + rest)[k] == sent[k];
  }

  predicate Closed(sys: System) {
    exists i | 0 <= i < |Own(sys.wire)| :: Terminal(Own(sys.wire)[i])
  }

  lemma TerminalIsOwn(sys: System)
    requires WireOk(sys) && EndsTerminal(sys)
    ensures Closed(sys)
  {
    var n := |sys.wire|;
    assert n > |OPENING|;
    assert Own(sys.wire)[|Own(sys.wire)| - 1] == sys.wire[n - 1].event;
  }

  /** Once the terminal event is on the wire, only keep-alive events can be added. */
  lemma ClosedStep(sys: System, step: Step)
    requires Inv(sys) && Closed(sys)
    ensures Closed(Next(sys, step))
    ensures Next(sys, step).wire
         == sys.wire + (if BeatAccepted(sys, step) then [Entry(sys.sequence, InProgress)] else [])
  {
    ClosedHandlerIsSilent(sys);
    OwnStep(sys, step);
    hide Own, HandlerOk;
    SilentStep(sys, step);
    assert Own(sys.wire) + [] == Own(sys.wire);
  }

  lemma SilentStep(sys: System, step: Step)
    requires sys.headersSent && sys.handler.rest == [] && (sys.handler.pc.Finals? || sys.handler.pc.Finished?)
    ensures OwnEvent(sys, step) == []
    ensures Next(sys, step).wire
         == sys.wire + (if BeatAccepted(sys, step) then [Entry(sys.sequence, InProgress)] else [])
  {
    assert sys.wire + [] == sys.wire;
  }

  /** A keep-alive event is accepted somewhere in the run. */
  predicate BeatsIn(sys: System, more: seq<Step>) {
    exists i | 0 <= i < |more| :: BeatAccepted(Execute(sys, more[..i]), more[i])
  }

  lemma BeatsInMore(sys: System, more: seq<Step>)
    requires more != []
    ensures BeatsIn(sys, more) <==>
      BeatsIn(sys, more[..|more| - 1]) || BeatAccepted(Execute(sys, more[..|more| - 1]), more[|more| - 1])
  {
    hide Execute, BeatAccepted;
    var front := more[..|more| - 1];
    assert forall i | 0 <= i < |front| :: front[i] == more[i] && front[..i] == more[..i];
  }

  lemma NoBeatsYet(sys: System)
    requires Inv(sys) && EndsTerminal(sys)
    ensures Closed(sys) && !BeatsIn(sys, [])
  {
    hide Own, HandlerOk;
    TerminalIsOwn(sys);
  }

  lemma {:induction false} ClosedRun(sys: System, more: seq<Step>)
    requires Inv(sys) && EndsTerminal(sys)
    ensures var after := Execute(sys, more);
      && Inv(after) && Closed(after) && after.wire != []
      && (if BeatsIn(sys, more) then after.wire[|after.wire| - 1].event.InProgress? else after.wire == sys.wire)
  {
    hide Inv, Closed, Next, BeatsIn, BeatAccepted;
    if more == [] {
      NoBeatsYet(sys);
    } else {
      var front, step := more[..|more| - 1], more[|more| - 1];
      ClosedRun(sys, front);
      BeatsInMore(sys, more);
      StepOk(Execute(sys, front), step);
      ClosedStep(Execute(sys, front), step);
    }
  }

  lemma {:induction false} ExecuteOn(sys: System, steps: seq<Step>, more: seq<Step>)
    ensures Execute(sys, steps + more) == Execute(Execute(sys, steps), more)
  {
    if more == [] {
      assert steps + more == steps;
    } else {
      hide Next;
      ExecuteOn(sys, steps, more[..|more| - 1]);
      assert (steps + more)[..|steps + more| - 1] == steps + more[..|more| - 1];
    }
  }

  /** The terminal event stays the last one exactly as long as no keep-alive event is accepted after it. */
  lemma TerminalStaysLastExactly(config: Config, keepers: nat, room: nat, steps: seq<Step>, more: seq<Step>)
    requires EndsTerminal(Run(config, keepers, room, steps))
    ensures EndsTerminal(Run(config, keepers, room, steps + more))
      <==> !BeatsIn(Run(config, keepers, room, steps), more)
  {
    var sys := Run(config, keepers, room, steps);
    hide Execute, Inv, Closed, BeatsIn, Initial;
    ExecuteInv(config, keepers, room, steps);
    ExecuteOn(Initial(config, keepers, room), steps, more);
    ClosedRun(sys, more);
  }

  // ---------- Quiet keepers ----------

  predicate Quiet(sys: System) {
    forall k | 0 <= k < |sys.keepers| :: sys.keepers[k].Waiting?
  }

  /** Since `start`, where the closing events began, nothing but them has been written. */
  predicate ClosingUndisturbed(start: System, sys: System) {
    var h, n := sys.handler, |start.wire|;
    && Quiet(sys) && (h.pc.Finals? || h.pc.Finished?)
    && |sys.wire| == n + |h.sent| && sys.wire[..n] == start.wire
    && (forall i | 0 <= i < |h.sent| :: sys.wire[n + i].event == h.sent[i])
    && h.sent + h.rest == start.handler.rest
    && (h.pc.Finished? && Accepts(sys) ==> h.rest == [])
  }

  lemma QuietStep(start: System, sys: System, step: Step)
    requires ClosingUndisturbed(start, sys) && !step.Tick?
    ensures ClosingUndisturbed(start, Next(sys, step))
  {
    hide StartStream, Starts, Settle, BreakOff, Begin, Proceed, Abandon, Close;
    var h := sys.handler;
    if step.Advance? && h.pc.Finals? && h.rest != [] {
      assert h.rest == [h.rest[0]] + h.rest[1..];
      assert h.sent + [h.rest[0]] + h.rest[1..] == h.sent + h.rest;
    }
  }

  lemma {:induction false} QuietRun(start: System, more: seq<Step>)
    requires ClosingUndisturbed(start, start) && forall i | 0 <= i < |more| :: !more[i].Tick?
    ensures ClosingUndisturbed(start, Execute(start, more))
  {
    if more != [] {
      hide ClosingUndisturbed, Next;
      QuietRun(start, more[..|more| - 1]);
      QuietStep(start, Execute(start, more[..|more| - 1]), more[|more| - 1]);
    }
  }

  /** If every keeper waits when the closing events begin and none ticks again, the closing events stand
      together, and when the handler is done without a failed write the terminal event is the last. */
  lemma QuietKeepersLeaveTerminalLast(config: Config, keepers: nat, room: nat, steps: seq<Step>, more: seq<Step>)
    requires var start := Run(config, keepers, room, steps);
      start.handler.pc.Finals? && start.handler.sent == [] && Quiet(start)
    requires forall i | 0 <= i < |more| :: !more[i].Tick?
    ensures var start, sys := Run(config, keepers, room, steps), Run(config, keepers, room, steps + more);
      && start.wire <= sys.wire && |sys.wire| == |start.wire| + |sys.handler.sent|
      && (forall i | 0 <= i < |sys.handler.sent| :: sys.wire[|start.wire| + i].event == sys.handler.sent[i])
      && (sys.handler.pc.Finished? && Accepts(sys) ==> EndsTerminal(sys))
  {
    var start := Run(config, keepers, room, steps);
    hide Execute, Initial, Inv, Closing;
    ExecuteInv(config, keepers, room, steps);
    ExecuteOn(Initial(config, keepers, room), steps, more);
    ClosingOfStart(start);
    assert [] + start.handler.rest == start.handler.rest;
    QuietRun(start, more);
    var sys := Execute(start, more);
    assert start.wire == sys.wire[..|start.wire|];
    if sys.handler.pc.Finished? && Accepts(sys) {
      assert sys.handler.sent + [] == sys.handler.sent;
      ClosingEndsTerminal(sys.handler.sent);
    }
  }

  lemma ClosingOfStart(start: System)
    requires Inv(start) && start.handler.pc.Finals? && start.handler.sent == []
    ensures Closing(start.handler.rest)
  {
    hide Own, WireOk, DonesOk, TextOk, OwedOk, BodyThenClosing, Closing;
    assert [] + start.handler.rest == start.handler.rest;
  }

  lemma ClosingEndsTerminal(events: seq<Event>)
    requires Closing(events)
    ensures events != [] && Terminal(events[|events| - 1])
  {}

  // ---------- A failure behind visible text ----------

  /** When the run fails behind visible text and no write fails, the stream closes as completed with the
      sanitised partial text; the deltas sent are the text emitted, and they make up that text exactly if it
      is presentable. */
  lemma PartialTextReachesTheClient(config: Config, keepers: nat, room: nat, steps: seq<Step>)
    requires var sys := Run(config, keepers, room, steps);
      sys.handler.pc.Finished? && sys.handler.final.None? && Accepts(sys) && CompletedEvent in sys.handler.sent
    ensures var sys := Run(config, keepers, room, steps);
      && Texts(Own(sys.wire)) == sys.handler.text
      && (Texts(Own(sys.wire)) == Sanitize(sys.handler.text) <==> Presentable(sys.handler.text))
  {
    ExecuteInv(config, keepers, room, steps);
    var sys := Run(config, keepers, room, steps);
    ShownAsIs(sys.handler.text);
    hide Presentable, Own, Execute, Texts, Sanitize, WireOk, Shape, BodyThenClosing;
    assert Texts(Own(sys.wire)) + "" == Texts(Own(sys.wire));
  }
}
