/** The two readers of the upstream stream: one loop, and one with a scanning goroutine, a channel of
    capacity one and an idle timer. In every interleaving they agree. */
module Readers {
  import opened Wrappers
  import opened Strings
  import opened TranscriptSpec
  import Deltas
  import Transcript

  // ---------- The sequential reader ----------

  /** How the scanner ends behind the last line: end of input, or a read error. */
  type ScanEnd = Option<string>

  function EndOf(r: Run, end: ScanEnd): Run {
    if end.None? then r else r.(err := Some(ReadFailed(end.value)))
  }

  predicate Stops(r: Run) {
    r.err.Some? || HasTerminalAnswer(r.s)
  }

  /** `consumeNDJSONStream`: handle line after line until an error, a terminal answer or the end. */
  function ReadSequentially(r: Run, lines: seq<Line>, end: ScanEnd): Run
    decreases |lines|
  {
    if lines == [] then EndOf(r, end)
    else
      var next := HandleLine(r, lines[0]);
      if Stops(next) then next else ReadSequentially(next, lines[1..], end)
  }

  method ConsumeNDJSONStream(lines: seq<Line>, end: ScanEnd, sink: Transcript.Sink)
    returns (result: ParseResult, err: Option<Error>)
    modifies sink
    ensures old(sink.View()) == Client("", "", old(sink.room)) ==>
              var r := ReadSequentially(Initial(old(sink.room)), lines, end);
              result == Result(r.s) && err == r.err && sink.View() == r.client
  {
    hide HandleLine, Result, HasTerminalAnswer;
    var state := new Transcript.TranscriptState();
    ghost var start := state.Now(sink, None);
    for i := 0 to |lines|
      invariant fresh(state)
      invariant ReadSequentially(start, lines, end) == ReadSequentially(state.Now(sink, None), lines[i..], end)
    {
      ghost var now := state.Now(sink, None);
      assert lines[i..][0] == lines[i] && lines[i..][1..] == lines[i + 1..];
      err := state.HandleLine(lines[i], sink);
      if err.Some? {
        result := state.ResultOf();
        return;
      }
      if HasTerminalAnswer(state.View()) {
        result := state.ResultOf();
        return result, None;
      }
    }
    result := state.ResultOf();
    if end.Some? { return result, Some(ReadFailed(end.value)); }
    return result, None;
  }

  // ---------- The threaded reader ----------

  datatype Event = LineRead(line: Line) | ScanEnded(end: ScanEnd)

  datatype Exit = Answered(run: Run) | IdleClosed(run: Run)

  /** Scanner position and channel on one side; transcript, timer and exit on the other. */
  datatype System = System(pos: nat, ended: bool, channel: Option<Event>, run: Run, armed: bool, exit: Option<Exit>)

  datatype Input = Input(start: Run, lines: seq<Line>, end: ScanEnd, idleAfterAnswer: int)

  function Begin(input: Input): System {
    System(0, false, None, input.start, false, None)
  }

  /** `resetIdleTimer`: arms (or restarts) the timer behind a visible, unfinished answer. */
  predicate Rearms(input: Input, r: Run) {
    input.idleAfterAnswer > 0 && HasVisibleAnswer(r.s) && !HasTerminalAnswer(r.s)
  }

  function Receive(input: Input, sys: System): System
    requires sys.channel.Some?
  {
    var taken := sys.(channel := None);
    match sys.channel.value
    case ScanEnded(end) => taken.(exit := Some(Answered(EndOf(sys.run, end))))
    case LineRead(line) =>
      if line == Blank(true) then taken else
      var next := HandleLine(sys.run, line);
      if Stops(next) then taken.(run := next, exit := Some(Answered(next)))
      else taken.(run := next, armed := sys.armed || Rearms(input, next))
  }

  datatype Actor = Scan | ScanFinish | HandleEvent | IdleTimer

  predicate Enabled(input: Input, sys: System, actor: Actor) {
    match actor
    case Scan => !sys.ended && sys.channel.None? && sys.pos < |input.lines|
    case ScanFinish => !sys.ended && sys.channel.None? && sys.pos == |input.lines|
    case HandleEvent => sys.exit.None? && sys.channel.Some?
    case IdleTimer => sys.exit.None? && sys.armed
  }

  function Act(input: Input, sys: System, actor: Actor): System
    requires Enabled(input, sys, actor)
  {
    match actor
    case Scan => sys.(channel := Some(LineRead(input.lines[sys.pos])), pos := sys.pos + 1)
    case ScanFinish => sys.(channel := Some(ScanEnded(input.end)), ended := true)
    case HandleEvent => Receive(input, sys)
    case IdleTimer => sys.(exit := Some(IdleClosed(sys.run)))
  }

  /** A schedule picks who moves next; steps that are not enabled are not taken. */
  function Execute(input: Input, schedule: seq<Actor>): System {
    if schedule == [] then Begin(input)
    else
      var sys := Execute(input, schedule[..|schedule| - 1]);
      if Enabled(input, sys, schedule[|schedule| - 1]) then Act(input, sys, schedule[|schedule| - 1]) else sys
  }

  // ---------- Agreement ----------

  /** The first `k` lines leave the reader running. */
  predicate RunsThrough(input: Input, k: nat)
    requires k <= |input.lines|
  {
    forall i | 0 <= i <= k :: !Stops(HandleLines(input.start, input.lines[..i]))
  }

  /** How many lines the handler has taken. */
  function Handled(sys: System): int {
    if sys.channel.Some? && sys.channel.value.LineRead? then sys.pos - 1 else sys.pos
  }

  ghost predicate Agrees(input: Input, sys: System) {
    && sys.pos <= |input.lines|
    && (sys.ended ==> sys.pos == |input.lines|)
    && (sys.channel.Some? && sys.channel.value.LineRead? ==>
          sys.pos > 0 && !sys.ended && sys.channel.value.line == input.lines[sys.pos - 1])
    && (sys.channel.Some? && sys.channel.value.ScanEnded? ==> sys.ended && sys.channel.value.end == input.end)
    && (sys.exit.None? ==>
          && 0 <= Handled(sys)
          && RunsThrough(input, Handled(sys))
          && sys.run == HandleLines(input.start, input.lines[..Handled(sys)])
          && (sys.armed ==> HasVisibleAnswer(sys.run.s))
          && (sys.ended ==> sys.channel.Some?))
    && (sys.exit.Some? && sys.exit.value.Answered? ==>
          sys.exit.value.run == ReadSequentially(input.start, input.lines, input.end))
    && (sys.exit.Some? && sys.exit.value.IdleClosed? ==>
          exists k | 0 <= k <= |input.lines| :: IdleAt(input, sys.exit.value.run, k))
  }

  /** The idle exit: the state after some prefix, with an answer that is visible but not terminal. */
  ghost predicate IdleAt(input: Input, r: Run, k: nat)
    requires k <= |input.lines|
  {
    RunsThrough(input, k) && r == HandleLines(input.start, input.lines[..k])
    && HasVisibleAnswer(r.s) && !HasTerminalAnswer(r.s)
  }

  lemma {:induction false} SequentialFromPrefix(input: Input, k: nat)
    requires k <= |input.lines| && RunsThrough(input, k)
    ensures ReadSequentially(input.start, input.lines, input.end)
            == ReadSequentially(HandleLines(input.start, input.lines[..k]), input.lines[k..], input.end)
  {
    hide HandleLine, HasTerminalAnswer;
    if k == 0 {
      assert input.lines[..0] == [] && input.lines[0..] == input.lines;
    } else {
      SequentialFromPrefix(input, k - 1);
      OneMoreLine(input, k - 1);
      assert input.lines[k - 1..][1..] == input.lines[k..];
    }
  }

  lemma OneMoreLine(input: Input, k: nat)
    requires k < |input.lines|
    ensures HandleLines(input.start, input.lines[..k + 1])
            == HandleLine(HandleLines(input.start, input.lines[..k]), input.lines[k])
  {
    hide HandleLine;
    assert input.lines[..k + 1][..k] == input.lines[..k];
  }

  lemma RunsOneFurther(input: Input, k: nat)
    requires k < |input.lines| && RunsThrough(input, k)
    requires !Stops(HandleLines(input.start, input.lines[..k + 1]))
    ensures RunsThrough(input, k + 1)
  {
    hide HandleLines, Stops;
    forall i | 0 <= i <= k + 1 ensures !Stops(HandleLines(input.start, input.lines[..i])) {
      if i <= k { assert !Stops(HandleLines(input.start, input.lines[..i])); }
    }
  }

  /** Text shown once stays visible, so an armed timer always stands behind a visible answer. */
  lemma VisibleStays(a: Run, b: Run)
    requires Sound(a) && Evolves(a, b) && HasVisibleAnswer(a.s)
    ensures HasVisibleAnswer(b.s)
  {
    hide Deltas.EmitAll, HasVisibleAnswer, TrimSpace, Trimmed;
    VisibleMeansEmitted(a.s);
    VisibleMeansEmitted(b.s);
  }

  /** In a sound transcript an answer is visible exactly when text has been shown. */
  lemma VisibleMeansEmitted(s: State)
    requires (s.final.text == "" || s.final.text == s.emittedText) && Trimmed(s.emittedText)
    ensures HasVisibleAnswer(s) <==> s.emittedText != ""
  {
    hide TrimSpace;
    TrimSpaceOfTrimmed(s.emittedText);
    TrimSpaceOfTrimmed("");
  }

  predicate Fair(input: Input) {
    Sound(input.start) && !Stops(input.start)
  }

  lemma BeginAgrees(input: Input)
    requires Fair(input)
    ensures Agrees(input, Begin(input))
  {
    hide HasTerminalAnswer, Sound;
    assert input.lines[..0] == [];
    assert HandleLines(input.start, input.lines[..0]) == input.start;
  }

  lemma ReceiveAgrees(input: Input, sys: System)
    requires Fair(input) && Agrees(input, sys) && Enabled(input, sys, HandleEvent)
    ensures Agrees(input, Receive(input, sys))
  {
    hide HandleLine, HandleLines, HasTerminalAnswer, HasVisibleAnswer, Sound, Evolves, RunsThrough;
    var k := Handled(sys);
    SequentialFromPrefix(input, k);
    if sys.channel.value.ScanEnded? {
      assert input.lines[|input.lines|..] == [];
    } else {
      OneMoreLine(input, k);
      assert input.lines[k..][0] == input.lines[k] && input.lines[k..][1..] == input.lines[k + 1..];
      BlankChangesNothing(sys.run);
      RunningHere(input, k);
      var next := HandleLine(sys.run, input.lines[k]);
      if !Stops(next) {
        RunsOneFurther(input, k);
        if sys.armed {
          SoundThroughout(input, k);
          HandleLineEvolves(sys.run, input.lines[k]);
          VisibleStays(sys.run, next);
        }
      }
    }
  }

  lemma RunningHere(input: Input, k: nat)
    requires k <= |input.lines| && RunsThrough(input, k)
    ensures !Stops(HandleLines(input.start, input.lines[..k]))
  {
  }

  lemma BlankChangesNothing(r: Run)
    ensures HandleLine(r, Blank(true)) == r
  {
  }

  lemma SoundThroughout(input: Input, k: nat)
    requires Fair(input) && k <= |input.lines|
    ensures Sound(HandleLines(input.start, input.lines[..k]))
  {
    hide HandleLines, Sound;
    HandleLinesEvolve(input.start, input.lines[..k]);
  }

  lemma ActAgrees(input: Input, sys: System, actor: Actor)
    requires Fair(input) && Agrees(input, sys) && Enabled(input, sys, actor)
    ensures Agrees(input, Act(input, sys, actor))
  {
    hide HandleLine, HandleLines, HasTerminalAnswer, HasVisibleAnswer, Sound;
    match actor
    case HandleEvent => ReceiveAgrees(input, sys);
    case IdleTimer =>
      var k := Handled(sys);
      RunningHere(input, k);
      assert IdleAt(input, sys.run, k);
    case _ =>
  }

  lemma {:induction false} ExecuteAgrees(input: Input, schedule: seq<Actor>)
    requires Fair(input)
    ensures Agrees(input, Execute(input, schedule))
  {
    hide Agrees, Act, Enabled, Fair;
    if schedule == [] {
      BeginAgrees(input);
    } else {
      var n := |schedule| - 1;
      ExecuteAgrees(input, schedule[..n]);
      if Enabled(input, Execute(input, schedule[..n]), schedule[n]) {
        ActAgrees(input, Execute(input, schedule[..n]), schedule[n]);
      }
    }
  }

  /** For every schedule: an exit that is not the idle exit returns exactly what the sequential reader
      returns; the idle exit returns the sequential state after some prefix, with a visible answer. */
  lemma ReadersAgree(room: nat, lines: seq<Line>, end: ScanEnd, idleAfterAnswer: int, schedule: seq<Actor>)
    ensures var input := Input(Initial(room), lines, end, idleAfterAnswer);
            var sys := Execute(input, schedule);
            sys.exit.Some? ==>
              match sys.exit.value
              case Answered(r) => r == ReadSequentially(input.start, lines, end)
              case IdleClosed(r) =>
                idleAfterAnswer > 0 && exists k | 0 <= k <= |lines| :: IdleAt(input, r, k)
  {
    hide Agrees, Execute, Sound, IdleAt, ReadSequentially;
    var input := Input(Initial(room), lines, end, idleAfterAnswer);
    InitialSound(room);
    InitialRuns(room);
    ExecuteAgrees(input, schedule);
    if Execute(input, schedule).exit.Some? { AgreesAtExit(input, Execute(input, schedule)); }
    IdleNeedsTimeout(input, schedule);
  }

  lemma InitialRuns(room: nat)
    ensures !Stops(Initial(room))
  {
  }

  lemma AgreesAtExit(input: Input, sys: System)
    requires Agrees(input, sys) && sys.exit.Some?
    ensures match sys.exit.value
            case Answered(r) => r == ReadSequentially(input.start, input.lines, input.end)
            case IdleClosed(r) => exists k | 0 <= k <= |input.lines| :: IdleAt(input, r, k)
  {
    hide RunsThrough, IdleAt, HandleLines;
  }

  lemma {:induction false} IdleNeedsTimeout(input: Input, schedule: seq<Actor>)
    ensures var sys := Execute(input, schedule);
            (sys.armed || (sys.exit.Some? && sys.exit.value.IdleClosed?)) ==> input.idleAfterAnswer > 0
  {
    hide HandleLine, HasVisibleAnswer, HasTerminalAnswer;
    if schedule != [] { IdleNeedsTimeout(input, schedule[..|schedule| - 1]); }
  }

  /** The threaded reader cannot get stuck: until the handler has returned, somebody can move. */
  lemma NeverStuck(input: Input, schedule: seq<Actor>)
    requires Fair(input)
    ensures var sys := Execute(input, schedule);
            sys.exit.None? ==> exists actor :: actor != IdleTimer && Enabled(input, sys, actor)
  {
    hide HandleLines, RunsThrough, Execute, Sound, HasTerminalAnswer, ReadSequentially, HandleLine;
    ExecuteAgrees(input, schedule);
    var sys := Execute(input, schedule);
    if sys.exit.None? {
      var actor := if sys.channel.Some? then HandleEvent
                   else if sys.pos < |input.lines| then Scan else ScanFinish;
      assert Enabled(input, sys, actor);
    }
  }

  /** Work left; every step of any actor uses some of it up, so every run ends. */
  function Remaining(input: Input, sys: System): int {
    2 * (|input.lines| - sys.pos) + (if sys.ended then 0 else 2) + (if sys.channel.Some? then 1 else 0)
    + (if sys.exit.Some? then 0 else 1)
  }

  lemma StepsUseUpWork(input: Input, sys: System, actor: Actor)
    requires sys.pos <= |input.lines| && Enabled(input, sys, actor)
    ensures 0 <= Remaining(input, Act(input, sys, actor)) < Remaining(input, sys)
  {
    hide HandleLine, HasVisibleAnswer, HasTerminalAnswer;
  }
}
