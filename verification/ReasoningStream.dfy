/** When the reasoning of the result is what the client received: the result composes it from the steps, while a
    final record can show another one. */
module ReasoningStream {
  import opened Wrappers
  import opened Strings
  import opened Sanitizer
  import opened Deltas
  import opened PatchTable
  import opened TranscriptSpec
  import opened Streaming

  // ---------- Blank texts ----------

  lemma {:induction false} TrimRightKeepsFirst(s: string)
    requires s != "" && !IsSpace(s[0])
    ensures TrimRight(s) != ""
  {
    if IsSpace(s[|s| - 1]) { TrimRightKeepsFirst(s[..|s| - 1]); }
  }

  /** Text of spaces alone is sanitised to nothing. */
  lemma SanitizeBlank(s: string)
    requires TrimSpace(s) == ""
    ensures Sanitize(s) == ""
  {
    hide CleanLangTags, CutCitation, StripLeadingTags, HasPrefixFold;
    if s != "" && !IsSpace(s[0]) { TrimRightKeepsFirst(s); }
    SanitizeEmpty();
  }

  // ---------- What is shown follows the steps ----------

  lemma {:induction false} SameParts(a: seq<Step>, b: seq<Step>)
    requires |a| == |b| && forall i | 0 <= i < |a| :: a[i].reasoning == b[i].reasoning
    ensures ReasoningParts(a) == ReasoningParts(b)
  {
    if a != [] { SameParts(a[..|a| - 1], b[..|b| - 1]); }
  }

  lemma BlankStepAdded(steps: seq<Step>, step: Step)
    requires step.reasoning == ""
    ensures ReasoningParts(steps + [step]) == ReasoningParts(steps)
  {
    hide TrimSpace;
    TrimSpaceOfTrimmed("");
    assert (steps + [step])[..|steps|] == steps;
  }

  /** The reasoning shown last is what the steps compose, if they hold any. */
  predicate Tracks(r: Run) {
    r.err.None? && ReasoningParts(r.s.steps) != [] ==>
      r.shownReasoning != [] && r.shownReasoning[|r.shownReasoning| - 1] == TrimSpace(ComposeReasoning(r.s))
  }

  lemma EmitTracks(r: Run)
    ensures Tracks(EmitFullReasoning(r, ComposeReasoning(r.s)))
  {
    hide TrimSpace, ReasoningParts, Join, DeltaSuffix;
  }

  /** Nothing that reasoning depends on has changed. */
  lemma StillTracks(a: Run, b: Run)
    requires Tracks(a) && ReasoningParts(a.s.steps) == ReasoningParts(b.s.steps)
    requires b.err.None? ==> a.err.None? && b.shownReasoning == a.shownReasoning
    ensures Tracks(b)
  {
    hide TrimSpace, ReasoningParts, Join;
  }

  lemma TextTracks(r: Run, raw: string)
    requires Tracks(r)
    ensures Tracks(EmitFullText(r, raw)) && |EmitFullText(r, raw).s.steps| == |r.s.steps|
  {
    hide Tracks, Sanitize, DeltaSuffix;
    StillTracks(r, EmitFullText(r, raw));
  }

  lemma ShowTextTracks(r: Run, i: nat, text: string)
    requires Tracks(r) && i < |r.s.steps|
    ensures Tracks(ShowText(r, i, text))
  {
    hide Tracks, EmitFullText;
    SameParts(r.s.steps, SetText(r, i, text).s.steps);
    StillTracks(r, SetText(r, i, text));
    TextTracks(SetText(r, i, text), text);
  }

  lemma ShowReasoningTracks(r: Run, i: nat, reasoning: string)
    requires i < |r.s.steps|
    ensures Tracks(ShowReasoning(r, i, reasoning)) && |ShowReasoning(r, i, reasoning).s.steps| == |r.s.steps|
  {
    hide Tracks, ComposeReasoning, TrimSpace, DeltaSuffix;
    EmitTracks(SetReasoning(r, i, reasoning));
  }

  lemma RefreshTracks(r: Run, i: nat)
    requires Tracks(r) && i < |r.s.steps| && r.err.None?
    ensures Tracks(Refresh(r, i))
  {
    hide Tracks, ShowText, ShowReasoning, Compose, Row;
    var content := Compose(Row(r.s.table, i));
    if content.hasReasoning { ShowReasoningTracks(r, i, content.reasoning); }
    var shown := if content.hasReasoning then ShowReasoning(r, i, content.reasoning) else r;
    if content.hasText { ShowTextTracks(shown, i, content.text); }
  }

  lemma AddStepTracks(r: Run, id: string, isAgent: bool, value: StepValue)
    requires Tracks(r) && r.err.None?
    ensures Tracks(AddNewStep(r, id, isAgent, value))
  {
    hide Tracks, EmitFullText, EmitFullReasoning, ComposeReasoning, StepText, StepReasoning, Register, TrimSpace;
    var step := Step(TrimSpace(id), isAgent,
                     if isAgent then StepText(value) else "", if isAgent then StepReasoning(value) else "", false);
    var n := |r.s.steps|;
    var added := r.(s := r.s.(steps := r.s.steps + [step], table := Register(r.s.table, n, ValueParts(value))));
    if isAgent {
      EmitTracks(WithActive(added, n));
      TextTracks(EmitFullReasoning(WithActive(added, n), ComposeReasoning(WithActive(added, n).s)), step.text);
    } else {
      BlankStepAdded(r.s.steps, step);
      StillTracks(r, added);
    }
  }

  lemma ApplyPatchTracks(r: Run, op: PatchOp)
    requires Tracks(r)
    ensures Tracks(ApplyPatch(r, op))
  {
    if r.err.None? {
      if op.AddStep? {
        hide Tracks, AddNewStep;
        AddStepTracks(r, op.id, op.isAgent, op.value);
      } else if 0 <= op.step < |r.s.steps| {
        hide Tracks, ApplyPatch;
        if op.FinishStep? { FinishStepTracks(r, op); } else { EditTracks(r, op); }
      } else {
        hide Tracks;
      }
    }
  }

  lemma FinishStepTracks(r: Run, op: PatchOp)
    requires Tracks(r) && r.err.None? && op.FinishStep? && 0 <= op.step < |r.s.steps|
    ensures Tracks(ApplyPatch(r, op))
  {
    hide Tracks, AddNewStep, Refresh;
    StillTracks(r, WithActive(r, op.step));
    FinishedTracks(WithActive(r, op.step), op.step, op.at);
  }

  /** An operation on the table, whose effect is shown. */
  lemma EditTracks(r: Run, op: PatchOp)
    requires Tracks(r) && r.err.None? && !op.AddStep? && !op.FinishStep? && 0 <= op.step < |r.s.steps|
    ensures Tracks(ApplyPatch(r, op))
  {
    hide Tracks, Refresh, Append, SetKind, PatchContent, Remove;
    var i := op.step;
    var table := match op
      case AppendValue(_, part) => Append(r.s.table, i, part)
      case PatchType(_, index, kind) => SetKind(r.s.table, Key(i, index), kind)
      case PatchText(_, index, how, content) => PatchContent(r.s.table, Key(i, index), how, content)
      case RemoveValue(_, index) => Remove(r.s.table, i, index)
      case _ => r.s.table;
    var current := WithTable(WithActive(r, i), table);
    assert current == WithActive(WithTable(r, table), i);
    TableTracks(r, table, i);
    RefreshTracks(current, i);
  }

  lemma TableTracks(r: Run, table: Table, i: int)
    requires Tracks(r)
    ensures Tracks(WithTable(r, table)) && Tracks(WithActive(r, i)) && Tracks(WithTable(WithActive(r, i), table))
  {
    hide Tracks;
    StillTracks(r, WithTable(r, table));
    StillTracks(r, WithActive(r, i));
    StillTracks(r, WithTable(WithActive(r, i), table));
  }

  lemma {:induction false} ApplyPatchesTracks(r: Run, ops: seq<PatchOp>)
    requires Tracks(r)
    ensures Tracks(ApplyPatches(r, ops))
  {
    hide Tracks, ApplyPatch;
    if ops != [] {
      ApplyPatchesTracks(r, ops[..|ops| - 1]);
      ApplyPatchTracks(ApplyPatches(r, ops[..|ops| - 1]), ops[|ops| - 1]);
    }
  }

  lemma MergeValueTracks(r: Run, i: nat, n: nat, part: Part)
    requires Tracks(r) && i < |r.s.steps|
    ensures Tracks(MergeValue(r, i, n, part))
  {
    hide Tracks, ShowReasoning, ShowText, MergeCumulative, MergeEvent;
    var merged := WithTable(r, MergeEvent(r.s.table, i, n, part));
    StillTracks(r, merged);
    match part.kind
    case Reasoning => ShowReasoningTracks(merged, i, MergeCumulative(r.s.steps[i].reasoning, part.content));
    case Text => ShowTextTracks(merged, i, MergeCumulative(r.s.steps[i].text, part.content));
    case Unknown =>
  }

  lemma {:induction false} MergeValuesTracks(r: Run, i: nat, values: seq<Part>)
    requires Tracks(r) && i < |r.s.steps|
    ensures Tracks(MergeValues(r, i, values))
  {
    hide Tracks, MergeValue;
    if values != [] {
      var n := |values| - 1;
      MergeValuesTracks(r, i, values[..n]);
      MergeValueTracks(MergeValues(r, i, values[..n]), i, n, values[n]);
    }
  }

  lemma MergeInferenceTracks(r: Run, id: string, values: seq<Part>, finishedAt: Option<string>)
    requires Tracks(r) && r.err.None?
    ensures Tracks(MergeInference(r, id, values, finishedAt))
  {
    hide Tracks, MergeValues, TrimSpace, ReasoningParts;
    var i := FindStep(r.s.steps, TrimSpace(id));
    var added := Step(TrimSpace(id), true, "", "", false);
    var steps := if i < |r.s.steps| then r.s.steps else r.s.steps + [added];
    var found := r.(s := r.s.(steps := steps, active := i));
    var named := if steps[i].id != "" then found.(s := found.s.(final := r.s.final.(messageID := steps[i].id)))
      else found;
    BlankStepAdded(r.s.steps, added);
    StillTracks(r, named);
    MergeValuesTracks(named, i, values);
    var merged := MergeValues(named, i, values);
    if finishedAt.Some? { FinishedTracks(merged, i, finishedAt.value); }
  }

  lemma FinishedTracks(r: Run, i: nat, at: string)
    requires Tracks(r) && i < |r.s.steps|
    ensures Tracks(r.(s := r.s.(steps := r.s.steps[i := r.s.steps[i].(completed := true)],
                                final := r.s.final.(completed := true, completedTime := at))))
  {
    hide Tracks, ReasoningParts;
    var out := r.(s := r.s.(steps := r.s.steps[i := r.s.steps[i].(completed := true)],
                            final := r.s.final.(completed := true, completedTime := at)));
    SameParts(r.s.steps, out.s.steps);
    StillTracks(r, out);
  }

  /** A final record without reasoning settles on what the steps compose. */
  lemma OwnReasoningKept(s: State, agent: Agent)
    requires TrimSpace(agent.reasoning) == ""
    ensures TrimSpace(FinalReasoning(s, agent)) == "" || FinalReasoning(s, agent) == ComposeReasoning(s)
  {
    hide ComposeReasoning, Sanitize, TrimSpace;
    SanitizeBlank(agent.reasoning);
  }

  lemma MergeFinalTracks(r: Run, agent: Agent)
    requires Tracks(r) && r.err.None? && TrimSpace(agent.reasoning) == ""
    ensures Tracks(MergeFinal(r, agent))
  {
    hide Tracks, EmitFullText, FinalReasoning, TrimSpace, DeltaSuffix, Sanitize, Join, ReasoningParts;
    var id := if agent.messageID != "" then agent.messageID else r.s.final.messageID;
    var named := r.(s := r.s.(final := r.s.final.(messageID := id, completed := agent.completed,
                                                  completedTime := agent.completedTime)));
    var reasoning := FinalReasoning(named.s, agent);
    var settled := named.(s := named.s.(final := named.s.final.(reasoning := reasoning)));
    StillTracks(r, named);
    OwnReasoningKept(named.s, agent);
    if TrimSpace(reasoning) == "" {
      TextTracks(named, agent.text);
    } else {
      if ReasoningParts(named.s.steps) != [] { EmitTracks(settled); } else { NothingToTrack(settled, reasoning); }
      TextTracks(EmitFullReasoning(settled, reasoning), agent.text);
    }
  }

  lemma NothingToTrack(r: Run, raw: string)
    requires ReasoningParts(r.s.steps) == []
    ensures Tracks(EmitFullReasoning(r, raw))
  {
    hide TrimSpace, ReasoningParts, DeltaSuffix;
  }

  /** The line is a final record with reasoning of its own. */
  predicate CarriesReasoning(line: Line) {
    line.RecordMap? && line.outcome.FinalAgent? && TrimSpace(line.outcome.agent.reasoning) != ""
  }

  lemma HandleLineTracks(r: Run, line: Line)
    requires Tracks(r) && !CarriesReasoning(line)
    ensures Tracks(HandleLine(r, line))
  {
    hide Tracks, ApplyPatches, MergeInference, MergeFinal, TrimSpace;
    StillTracks(r, r.(err := Some(BadLine)));
    if r.err.None? {
      var counted := r.(s := r.s.(lineCount := r.s.lineCount + 1));
      StillTracks(r, counted);
      match line
      case Patch(ops) => ApplyPatchesTracks(counted, ops);
      case Inference(id, values, finishedAt) => MergeInferenceTracks(counted, id, values, finishedAt);
      case RecordMap(messageIDs, outcome) =>
        var known := if messageIDs == [] then counted else counted.(s := counted.s.(messageIDs := messageIDs));
        StillTracks(r, known);
        match outcome {
          case FinalAgent(agent) => MergeFinalTracks(known, agent);
          case StepError(message) => StillTracks(known, known.(err := Some(UpstreamError(message))));
          case NoOutcome =>
        }
      case _ =>
    }
  }

  lemma {:induction false} HandleLinesTrack(room: nat, lines: seq<Line>)
    requires forall line | line in lines :: !CarriesReasoning(line)
    ensures Tracks(HandleLines(Initial(room), lines))
  {
    hide HandleLine, CarriesReasoning;
    if lines != [] {
      HandleLinesTrack(room, lines[..|lines| - 1]);
      HandleLineTracks(HandleLines(Initial(room), lines[..|lines| - 1]), lines[|lines| - 1]);
    }
  }

  /** For every run of lines without a final record that carries reasoning: if no write failed and the steps hold
      visible reasoning, the client received the reasoning of the result, up to spaces around it, if and only if
      the reasoning shown was a chain of prefixes. */
  lemma StepReasoningReachesClient(room: nat, lines: seq<Line>)
    requires forall line | line in lines :: !CarriesReasoning(line)
    ensures var r := HandleLines(Initial(room), lines);
      r.err.None? && TrimSpace(Join(ReasoningParts(r.s.steps), "\n\n")) != "" ==>
        (r.client.reasoning == TrimSpace(Result(r.s).final.reasoning) <==> PrefixChain(r.shownReasoning))
  {
    hide HandleLines, Initial, EmitAll, ReasoningParts, TrimSpace, CarriesReasoning;
    var r := HandleLines(Initial(room), lines);
    InitialSound(room);
    HandleLinesEvolve(Initial(room), lines);
    ClientSeesResult(room, lines);
    HandleLinesTrack(room, lines);
    var k := EmittedIsLastShown(r.shownReasoning);
    TrimSpaceOfTrimmed("");
  }

  // ---------- One reasoning part, extended ----------

  /** One agent step, whose only part is this reasoning; the client has received it. */
  predicate Thinks(r: Run, entry: string) {
    && r.err.None? && |r.s.steps| == 1 && r.s.steps[0].isAgent
    && r.s.steps[0].reasoning == entry && Row(r.s.table, 0) == [Part(Reasoning, entry)]
    && r.client.reasoning == r.s.emittedReasoning == r.s.final.reasoning == Sanitize(entry)
  }

  /** Reasoning of one step, blank only if none was shown before. */
  lemma OneStepComposed(s: State, entry: string)
    requires |s.steps| == 1 && s.steps[0].reasoning == entry
    requires s.final.reasoning != "" ==> Sanitize(entry) != ""
    ensures ComposeReasoning(s) == Sanitize(entry)
  {
    hide Sanitize, TrimSpace;
    assert s.steps[..0] == [];
    SanitizeEmpty();
    if TrimSpace(entry) == "" {
      SanitizeBlank(entry);
      assert ReasoningParts(s.steps) == [];
    } else {
      assert ReasoningParts(s.steps) == [Sanitize(entry)];
    }
  }

  lemma ComposedPart(entry: string)
    ensures Compose([Part(Reasoning, entry)]) == Content("", false, entry, entry != "")
  {
    var row := [Part(Reasoning, entry)];
    assert row[..0] == [] && [entry][..0] == [];
    assert Texts(row, Text) == [] && Texts(row, Reasoning) == if entry == "" then [] else [entry];
    assert CombineAll([]) == "" && CombineAll([entry]) == entry;
  }

  lemma ThoughtShown(r: Run, entry: string)
    requires r.err.None? && |r.s.steps| == 1
    requires r.client.reasoning == r.s.emittedReasoning == r.s.final.reasoning
    requires r.s.emittedReasoning <= Sanitize(entry)
    ensures var next := ShowReasoning(r, 0, entry);
      next.err.None? ==>
        && |next.s.steps| == 1 && next.s.steps[0] == r.s.steps[0].(reasoning := entry) && next.s.table == r.s.table
        && next.client.reasoning == next.s.emittedReasoning == next.s.final.reasoning == Sanitize(entry)
  {
    hide Sanitize, TrimSpace, ComposeReasoning, DeltaSuffix;
    OneStepComposed(SetReasoning(r, 0, entry).s, entry);
    TrimSpaceOfTrimmed(Sanitize(entry));
    DeltaOfExtension(r.s.emittedReasoning, Sanitize(entry));
  }

  lemma ThoughtStep(r: Run, entry: string, delta: string)
    requires Thinks(r, entry) && TagFree(AppendDelta(entry, delta))
    ensures var next := ApplyPatch(r, PatchText(0, 0, Extend, delta));
      next.err.None? ==> Thinks(next, AppendDelta(entry, delta))
  {
    hide Sanitize, ShowReasoning, PatchContent, AppendDelta, Row, TagFree, Compose;
    var after := AppendDelta(entry, delta);
    var patched := WithTable(WithActive(r, 0), PatchContent(r.s.table, Key(0, 0), Extend, delta));
    assert ApplyPatch(r, PatchText(0, 0, Extend, delta)) == Refresh(patched, 0);
    PatchChangesOne(r.s.table, 0, 0, Extend, delta);
    AppendNothing(entry);
    assert Row(patched.s.table, 0) == [Part(Reasoning, after)];
    ComposedPart(after);
    AppendDeltaGrows(entry, delta);
    if after == "" { EmptyAppend(entry, delta); } else { ThoughtShown(patched, after); }
  }

  lemma EmptyAppend(entry: string, delta: string)
    requires AppendDelta(entry, delta) == ""
    ensures entry == ""
  {}

  lemma {:induction false} ThoughtsStream(r: Run, entry: string, deltas: seq<string>)
    requires Thinks(r, entry) && '<' !in entry && forall d | d in deltas :: '<' !in d
    ensures var next := ApplyPatches(r, TextPatches(0, 0, deltas));
      next.err.None? ==> Thinks(next, EntryAfter(entry, deltas))
  {
    hide TagFree, ApplyPatch, Thinks, AppendDelta;
    if deltas == [] {
      assert TextPatches(0, 0, deltas) == [];
    } else {
      var n := |deltas| - 1;
      ThoughtsStream(r, entry, deltas[..n]);
      var ops := TextPatches(0, 0, deltas);
      assert ops[..|ops| - 1] == TextPatches(0, 0, deltas[..n]);
      var mid := ApplyPatches(r, TextPatches(0, 0, deltas[..n]));
      NoAngleEntries(entry, deltas);
      NoAngleIsTagFree(EntryAfter(entry, deltas));
      if mid.err.None? {
        ThoughtStep(mid, EntryAfter(entry, deltas[..n]), deltas[n]);
      } else {
        ErrorStays(mid, ops[|ops| - 1]);
      }
    }
  }

  function FreshThought(room: nat, id: string): Run {
    ApplyPatch(Initial(room), AddStep(id, true, Parts([Part(Reasoning, "")])))
  }

  lemma FreshThinks(room: nat, id: string)
    ensures Thinks(FreshThought(room, id), "")
  {
    hide Sanitize, Register, Row, AddNewStep;
    SanitizeEmpty();
    FreshAddThought(room, id);
    RegisterStartsRow(InitialState.table, 0, [Part(Reasoning, "")]);
  }

  lemma FreshAddThought(room: nat, id: string)
    ensures var parts := [Part(Reasoning, "")]; var r := AddNewStep(Initial(room), id, true, Parts(parts));
      && r.err.None? && |r.s.steps| == 1 && r.s.steps[0].isAgent && r.s.steps[0].reasoning == ""
      && r.s.table == Register(InitialState.table, 0, parts)
      && r.client.reasoning == r.s.emittedReasoning == r.s.final.reasoning == ""
  {
    hide Sanitize, TrimSpace, Register, ReasoningParts, StepText, StepReasoning;
    SanitizeEmpty();
    TrimSpaceOfTrimmed("");
    EmptyThought();
    NoReasoningYet(Step(TrimSpace(id), true, "", "", false));
    assert InitialState.steps + [Step(TrimSpace(id), true, "", "", false)]
      == [Step(TrimSpace(id), true, "", "", false)];
  }

  lemma EmptyThought()
    ensures StepText(Parts([Part(Reasoning, "")])) == "" && StepReasoning(Parts([Part(Reasoning, "")])) == ""
  {
    hide TrimSpace;
    TrimSpaceOfTrimmed("");
    assert [Part(Reasoning, "")][..0] == [];
  }

  /** From an empty transcript: an agent step with an empty reasoning part, then any "x" patches without `<`. If no
      write failed, the client received exactly the sanitised reasoning, and the result carries it. */
  lemma FreshReasoningDelivers(room: nat, id: string, deltas: seq<string>)
    requires forall d | d in deltas :: '<' !in d
    ensures var r := ApplyPatches(FreshThought(room, id), TextPatches(0, 0, deltas));
      r.err.None? ==> r.client.reasoning == Result(r.s).final.reasoning == Sanitize(EntryAfter("", deltas))
  {
    hide Sanitize, ApplyPatches, FreshThought, EntryAfter, ComposeReasoning, TrimSpace, Row;
    var r := ApplyPatches(FreshThought(room, id), TextPatches(0, 0, deltas));
    FreshThinks(room, id);
    ThoughtsStream(FreshThought(room, id), "", deltas);
    if r.err.None? {
      OneStepComposed(r.s, EntryAfter("", deltas));
      TrimSpaceOfTrimmed(Sanitize(EntryAfter("", deltas)));
      TrimSpaceOfTrimmed("");
    }
  }
}
