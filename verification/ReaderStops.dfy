/** When the readers may stop: at an error, at a complete answer, or behind the last line. */
module ReaderStops {
  import opened Wrappers
  import opened Strings
  import opened Sanitizer
  import opened Deltas
  import opened PatchTable
  import opened TranscriptSpec
  import opened Readers

  /** The transcript reports a completed answer with text to show. */
  predicate AnswerComplete(r: Run) {
    r.s.final.completed && TrimSpace(r.s.final.text) != ""
  }

  function Behind(room: nat, lines: seq<Line>, k: nat): Run
    requires k <= |lines|
  {
    HandleLines(Initial(room), lines[..k])
  }

  predicate GoesOn(r: Run) {
    r.err.None? && !AnswerComplete(r)
  }

  /** The result of reading as far as line `k`, when that is as far as one may read. */
  predicate ReadUpTo(room: nat, lines: seq<Line>, end: ScanEnd, k: nat, r: Run)
    requires k <= |lines|
  {
    && (forall i | 0 <= i < k :: GoesOn(Behind(room, lines, i)))
    && (if GoesOn(Behind(room, lines, k))
        then
          && k == |lines|
          && r == Behind(room, lines, k).(err := if end.Some? then Some(ReadFailed(end.value)) else None)
        else r == Behind(room, lines, k))
  }

  lemma StopsOtherwise(r: Run)
    ensures Stops(r) <==> !GoesOn(r)
  {
    hide TrimSpace;
  }

  lemma {:induction false} ReadsFrom(room: nat, lines: seq<Line>, end: ScanEnd, k: nat) returns (n: nat)
    requires k <= |lines| && forall i | 0 <= i <= k :: GoesOn(Behind(room, lines, i))
    ensures n <= |lines| && ReadUpTo(room, lines, end, n, ReadSequentially(Behind(room, lines, k), lines[k..], end))
    decreases |lines| - k
  {
    hide HandleLine, Stops, GoesOn, HandleLines, Initial;
    if k == |lines| {
      n := k;
      assert lines[k..] == [];
      assert GoesOn(Behind(room, lines, k));
      NoErrorYet(Behind(room, lines, k));
    } else {
      var next := Behind(room, lines, k + 1);
      OneMoreLine(Input(Initial(room), lines, end, 0), k);
      assert lines[k..][0] == lines[k] && lines[k..][1..] == lines[k + 1..];
      StopsOtherwise(next);
      if GoesOn(next) { n := ReadsFrom(room, lines, end, k + 1); } else { n := k + 1; }
    }
  }

  lemma NoErrorYet(r: Run)
    requires GoesOn(r)
    ensures r.err.None?
  {}

  lemma FreshGoesOn(room: nat, lines: seq<Line>)
    ensures Behind(room, lines, 0) == Initial(room) && GoesOn(Initial(room))
  {
    assert lines[..0] == [];
  }

  /** The sequential reader returns the state behind some line: the first where an error or a complete answer
      stands, or else the last. */
  lemma SequentialStops(room: nat, lines: seq<Line>, end: ScanEnd) returns (k: nat)
    ensures k <= |lines| && ReadUpTo(room, lines, end, k, ReadSequentially(Initial(room), lines, end))
  {
    FreshGoesOn(room, lines);
    hide HandleLine, GoesOn, HandleLines, Initial;
    assert lines[0..] == lines;
    k := ReadsFrom(room, lines, end, 0);
  }

  /** The threaded reader stops in no other place, unless its timer fires: then it is behind some line with text
      shown, and neither there nor before was an error or a complete answer. */
  lemma ThreadedStops(room: nat, lines: seq<Line>, end: ScanEnd, idleAfterAnswer: int, schedule: seq<Actor>)
    returns (k: nat)
    ensures k <= |lines|
    ensures var exit := Execute(Input(Initial(room), lines, end, idleAfterAnswer), schedule).exit;
      match exit
      case None => true
      case Some(Answered(r)) => ReadUpTo(room, lines, end, k, r)
      case Some(IdleClosed(r)) =>
        && idleAfterAnswer > 0 && r == Behind(room, lines, k) && r.s.emittedText != ""
        && forall i | 0 <= i <= k :: GoesOn(Behind(room, lines, i))
  {
    hide HandleLine, GoesOn, HandleLines, Initial, Execute, ReadSequentially, HasVisibleAnswer, HasTerminalAnswer;
    hide Sound;
    ReadersAgree(room, lines, end, idleAfterAnswer, schedule);
    var input := Input(Initial(room), lines, end, idleAfterAnswer);
    match Execute(input, schedule).exit
    case Some(IdleClosed(r)) =>
      k :| 0 <= k <= |lines| && IdleAt(input, r, k);
      InitialSound(room);
      HandleLinesEvolve(Initial(room), lines[..k]);
      SoundShows(r);
      forall i | 0 <= i <= k ensures GoesOn(Behind(room, lines, i)) {
        assert !Stops(HandleLines(input.start, input.lines[..i]));
        StopsOtherwise(Behind(room, lines, i));
      }
    case _ => k := SequentialStops(room, lines, end);
  }

  lemma SoundShows(r: Run)
    requires Sound(r) && HasVisibleAnswer(r.s)
    ensures r.s.emittedText != ""
  {
    hide HasVisibleAnswer, EmitAll;
    VisibleMeansEmitted(r.s);
  }

  // ---------- When the timer runs ----------

  lemma ArmedStep(input: Input, sys: System)
    requires Fair(input) && Agrees(input, sys) && Enabled(input, sys, HandleEvent)
    requires sys.armed <==> input.idleAfterAnswer > 0 && HasVisibleAnswer(sys.run.s)
    ensures var next := Receive(input, sys);
      next.exit.None? ==> (next.armed <==> input.idleAfterAnswer > 0 && HasVisibleAnswer(next.run.s))
  {
    hide HandleLine, HandleLines, HasTerminalAnswer, HasVisibleAnswer, Sound, Evolves, RunsThrough;
    if sys.channel.value.LineRead? && sys.channel.value.line != Blank(true) {
      SoundThroughout(input, Handled(sys));
      HandleLineEvolves(sys.run, sys.channel.value.line);
      if HasVisibleAnswer(sys.run.s) { VisibleStays(sys.run, HandleLine(sys.run, sys.channel.value.line)); }
    }
  }

  lemma {:induction false} ArmedThroughout(input: Input, schedule: seq<Actor>)
    requires Fair(input) && !HasVisibleAnswer(input.start.s)
    ensures var sys := Execute(input, schedule);
      sys.exit.None? ==> (sys.armed <==> input.idleAfterAnswer > 0 && HasVisibleAnswer(sys.run.s))
  {
    hide HandleLine, HasVisibleAnswer, Agrees, Receive, Fair;
    if schedule != [] {
      var n := |schedule| - 1;
      var sys := Execute(input, schedule[..n]);
      ArmedThroughout(input, schedule[..n]);
      ExecuteAgrees(input, schedule[..n]);
      if Enabled(input, sys, schedule[n]) && schedule[n].HandleEvent? { ArmedStep(input, sys); }
    }
  }

  /** Until the handler has returned, the timer runs exactly if a timeout is set and text has been shown. */
  lemma TimerRunsExactly(room: nat, lines: seq<Line>, end: ScanEnd, idleAfterAnswer: int, schedule: seq<Actor>)
    ensures var sys := Execute(Input(Initial(room), lines, end, idleAfterAnswer), schedule);
      sys.exit.None? ==> (sys.armed <==> idleAfterAnswer > 0 && |sys.run.s.emittedText| > 0)
  {
    hide HandleLines, Execute, HasVisibleAnswer, Sound, Agrees;
    var input := Input(Initial(room), lines, end, idleAfterAnswer);
    InitialSound(room);
    InitialRuns(room);
    NothingVisible(room);
    ArmedThroughout(input, schedule);
    ExecuteAgrees(input, schedule);
    var sys := Execute(input, schedule);
    if sys.exit.None? {
      RunIsPrefix(input, sys);
      SoundThroughout(input, Handled(sys));
      ShownIsVisible(sys.run);
    }
  }

  lemma RunIsPrefix(input: Input, sys: System)
    requires Agrees(input, sys) && sys.exit.None?
    ensures 0 <= Handled(sys) <= |input.lines| && sys.run == HandleLines(input.start, input.lines[..Handled(sys)])
  {
    hide HandleLines, Stops, HasVisibleAnswer;
  }

  lemma NothingVisible(room: nat)
    ensures !HasVisibleAnswer(Initial(room).s)
  {
    InitialSound(room);
    ShownIsVisible(Initial(room));
  }

  lemma ShownIsVisible(r: Run)
    requires Sound(r)
    ensures HasVisibleAnswer(r.s) <==> r.s.emittedText != ""
  {
    hide HasVisibleAnswer, EmitAll;
    VisibleMeansEmitted(r.s);
  }

  // ---------- What completes an answer ----------

  /** The operation finishes an agent step that exists. */
  predicate FinishesStep(r: Run, op: PatchOp) {
    op.FinishStep? && 0 <= op.step < |r.s.steps| && r.s.steps[op.step].isAgent
  }

  lemma EmissionsKeepCompletion(r: Run, raw: string)
    ensures var text, reasoning := EmitFullText(r, raw), EmitFullReasoning(r, raw);
      && text.s.final.completed == reasoning.s.final.completed == r.s.final.completed
      && text.s.final.completedTime == reasoning.s.final.completedTime == r.s.final.completedTime
  {
    hide Sanitize, TrimSpace, DeltaSuffix;
  }

  predicate SameCompletion(a: Run, b: Run) {
    a.s.final.completed == b.s.final.completed && a.s.final.completedTime == b.s.final.completedTime
  }

  lemma RefreshKeepsCompletion(r: Run, i: nat)
    requires i < |r.s.steps| && r.err.None?
    ensures SameCompletion(r, Refresh(r, i))
  {
    hide EmitFullText, EmitFullReasoning, ComposeReasoning, Compose, Row;
    var content := Compose(Row(r.s.table, i));
    var thought := SetReasoning(r, i, content.reasoning);
    EmissionsKeepCompletion(thought, ComposeReasoning(thought.s));
    var shown := if content.hasReasoning then ShowReasoning(r, i, content.reasoning) else r;
    if content.hasReasoning { ShowReasoningEvolves(r, i, content.reasoning); }
    EmissionsKeepCompletion(SetText(shown, i, content.text), content.text);
  }

  lemma AddStepKeepsCompletion(r: Run, id: string, isAgent: bool, value: StepValue)
    requires r.err.None?
    ensures SameCompletion(r, AddNewStep(r, id, isAgent, value))
  {
    hide EmitFullText, EmitFullReasoning, ComposeReasoning, StepText, StepReasoning, Register, TrimSpace;
    var n := |r.s.steps|;
    var step := Step(TrimSpace(id), true, StepText(value), StepReasoning(value), false);
    var current := WithActive(r.(s := r.s.(steps := r.s.steps + [step],
                                           table := Register(r.s.table, n, ValueParts(value)))), n);
    EmissionsKeepCompletion(current, ComposeReasoning(current.s));
    EmissionsKeepCompletion(EmitFullReasoning(current, ComposeReasoning(current.s)), step.text);
  }

  lemma PatchCompletes(r: Run, op: PatchOp)
    ensures var after, finishes := ApplyPatch(r, op).s.final, r.err.None? && FinishesStep(r, op);
      && after.completed == (r.s.final.completed || finishes)
      && after.completedTime == (if finishes then op.at else r.s.final.completedTime)
  {
    hide AddNewStep, Refresh, Append, SetKind, PatchContent, Remove;
    if r.err.None? {
      if op.AddStep? {
        AddStepKeepsCompletion(r, op.id, op.isAgent, op.value);
      } else if 0 <= op.step < |r.s.steps| && r.s.steps[op.step].isAgent {
        var i := op.step;
        var table := match op
          case AppendValue(_, part) => Append(r.s.table, i, part)
          case PatchType(_, index, kind) => SetKind(r.s.table, Key(i, index), kind)
          case PatchText(_, index, how, content) => PatchContent(r.s.table, Key(i, index), how, content)
          case RemoveValue(_, index) => Remove(r.s.table, i, index)
          case _ => r.s.table;
        RefreshKeepsCompletion(WithTable(WithActive(r, i), table), i);
        assert WithTable(WithActive(r, i), table) == WithActive(WithTable(r, table), i);
      }
    }
  }

  /** Patches complete the answer exactly if one of them finishes an agent step, before any write failed. */
  lemma {:induction false} PatchesComplete(r: Run, ops: seq<PatchOp>)
    ensures ApplyPatches(r, ops).s.final.completed <==>
      r.s.final.completed || exists i | 0 <= i < |ops| :: FinishesAt(r, ops, i)
  {
    hide ApplyPatch;
    if ops != [] {
      var n := |ops| - 1;
      PatchesComplete(r, ops[..n]);
      PatchCompletes(ApplyPatches(r, ops[..n]), ops[n]);
      FinishesMore(r, ops);
      hide FinishesAt;
    }
  }

  lemma FinishesMore(r: Run, ops: seq<PatchOp>)
    requires ops != []
    ensures var n := |ops| - 1; var mid := ApplyPatches(r, ops[..n]);
      (exists i | 0 <= i < |ops| :: FinishesAt(r, ops, i)) <==>
        (exists i | 0 <= i < n :: FinishesAt(r, ops[..n], i)) || (mid.err.None? && FinishesStep(mid, ops[n]))
  {
    hide ApplyPatches, FinishesStep;
    var n := |ops| - 1;
    var mid := ApplyPatches(r, ops[..n]);
    forall i | 0 <= i < n ensures FinishesAt(r, ops[..n], i) <==> FinishesAt(r, ops, i) {
      assert ops[..n][..i] == ops[..i];
    }
    assert FinishesAt(r, ops, n) <==> mid.err.None? && FinishesStep(mid, ops[n]);
    hide FinishesAt;
    assert (exists i | 0 <= i < |ops| :: FinishesAt(r, ops, i)) ==>
      FinishesAt(r, ops, n) || exists i | 0 <= i < n :: FinishesAt(r, ops, i);
    if i :| 0 <= i < n && FinishesAt(r, ops[..n], i) { assert FinishesAt(r, ops, i); }
    if i :| 0 <= i < n && FinishesAt(r, ops, i) { assert FinishesAt(r, ops[..n], i); }
  }

  predicate FinishesAt(r: Run, ops: seq<PatchOp>, i: nat)
    requires i < |ops|
  {
    ApplyPatches(r, ops[..i]).err.None? && FinishesStep(ApplyPatches(r, ops[..i]), ops[i])
  }

  lemma MergeValueKeepsCompletion(r: Run, i: nat, n: nat, part: Part)
    requires i < |r.s.steps|
    ensures SameCompletion(r, MergeValue(r, i, n, part))
  {
    hide EmitFullText, EmitFullReasoning, ComposeReasoning, MergeCumulative, MergeEvent;
    var merged := WithTable(r, MergeEvent(r.s.table, i, n, part));
    var thought := SetReasoning(merged, i, MergeCumulative(r.s.steps[i].reasoning, part.content));
    EmissionsKeepCompletion(thought, ComposeReasoning(thought.s));
    var text := MergeCumulative(r.s.steps[i].text, part.content);
    EmissionsKeepCompletion(SetText(merged, i, text), text);
  }

  lemma {:induction false} MergeValuesKeepCompletion(r: Run, i: nat, values: seq<Part>)
    requires i < |r.s.steps|
    ensures SameCompletion(r, MergeValues(r, i, values))
  {
    hide MergeValue;
    if values != [] {
      var n := |values| - 1;
      MergeValuesKeepCompletion(r, i, values[..n]);
      MergeValueKeepsCompletion(MergeValues(r, i, values[..n]), i, n, values[n]);
    }
  }

  lemma InferenceCompletes(r: Run, id: string, values: seq<Part>, finishedAt: Option<string>)
    requires r.err.None?
    ensures var after := MergeInference(r, id, values, finishedAt); var finishes := after.err.None? && finishedAt.Some?;
      && after.s.final.completed == (r.s.final.completed || finishes)
      && after.s.final.completedTime == (if finishes then finishedAt.value else r.s.final.completedTime)
  {
    hide MergeValues, TrimSpace;
    var i := FindStep(r.s.steps, TrimSpace(id));
    var steps := if i < |r.s.steps| then r.s.steps else r.s.steps + [Step(TrimSpace(id), true, "", "", false)];
    var found := r.(s := r.s.(steps := steps, active := i));
    var named := if steps[i].id != "" then found.(s := found.s.(final := r.s.final.(messageID := steps[i].id)))
      else found;
    MergeValuesKeepCompletion(named, i, values);
  }

  /** A final record sets the completion it carries, whatever was known before. */
  lemma RecordCompletes(r: Run, agent: Agent)
    requires r.err.None?
    ensures var after := MergeFinal(r, agent).s.final;
      after.completed == agent.completed && after.completedTime == agent.completedTime
  {
    hide EmitFullText, EmitFullReasoning, FinalReasoning, TrimSpace;
    var id := if agent.messageID != "" then agent.messageID else r.s.final.messageID;
    var named := r.(s := r.s.(final := r.s.final.(messageID := id, completed := agent.completed,
                                                  completedTime := agent.completedTime)));
    var reasoning := FinalReasoning(named.s, agent);
    var settled := named.(s := named.s.(final := named.s.final.(reasoning := reasoning)));
    EmissionsKeepCompletion(settled, reasoning);
    var reasoned := if TrimSpace(reasoning) == "" then named else EmitFullReasoning(settled, reasoning);
    EmissionsKeepCompletion(reasoned, agent.text);
  }

  // ---------- Lines that never finish ----------

  /** The line has nothing in it that could finish an answer. */
  predicate NeverFinishes(line: Line) {
    match line
    case Patch(ops) => forall op | op in ops :: !op.FinishStep?
    case Inference(_, _, finishedAt) => finishedAt.None?
    case RecordMap(_, FinalAgent(agent)) => !agent.completed
    case _ => true
  }

  lemma LineKeepsOpen(r: Run, line: Line)
    requires !r.s.final.completed && NeverFinishes(line)
    ensures !HandleLine(r, line).s.final.completed
  {
    hide ApplyPatches, MergeInference, MergeFinal;
    if r.err.None? {
      var counted := r.(s := r.s.(lineCount := r.s.lineCount + 1));
      match line
      case Patch(ops) => PatchesComplete(counted, ops);
      case Inference(id, values, finishedAt) => InferenceCompletes(counted, id, values, finishedAt);
      case RecordMap(messageIDs, outcome) =>
        var known := if messageIDs == [] then counted else counted.(s := counted.s.(messageIDs := messageIDs));
        if outcome.FinalAgent? { RecordCompletes(known, outcome.agent); }
      case _ =>
    }
  }

  lemma {:induction false} LinesKeepOpen(room: nat, lines: seq<Line>)
    requires forall line | line in lines :: NeverFinishes(line)
    ensures !HandleLines(Initial(room), lines).s.final.completed
  {
    hide HandleLine, NeverFinishes;
    if lines != [] {
      LinesKeepOpen(room, lines[..|lines| - 1]);
      LineKeepsOpen(HandleLines(Initial(room), lines[..|lines| - 1]), lines[|lines| - 1]);
    }
  }

  /** Lines that never finish the answer are all read, up to the first error. */
  lemma UnfinishedIsReadThrough(room: nat, lines: seq<Line>, end: ScanEnd) returns (k: nat)
    requires forall line | line in lines :: NeverFinishes(line)
    ensures k <= |lines| && ReadUpTo(room, lines, end, k, ReadSequentially(Initial(room), lines, end))
    ensures Behind(room, lines, k).err.None? ==> k == |lines|
  {
    hide HandleLines, Initial, ReadSequentially, NeverFinishes, TrimSpace;
    k := SequentialStops(room, lines, end);
    LinesKeepOpen(room, lines[..k]);
  }
}
