/** What single lines and operations do to a transcript, field by field. */
module TranscriptReads {
  import opened Wrappers
  import opened Strings
  import opened Sanitizer
  import opened Deltas
  import opened PatchTable
  import opened TranscriptSpec

  // ---------- What is counted and named over a run ----------

  /** The line is counted: it holds something, and that can be read. */
  predicate Counted(line: Line) {
    !line.Blank? && !line.Malformed?
  }

  function CountIn(lines: seq<Line>): nat {
    if lines == [] then 0 else CountIn(lines[..|lines| - 1]) + (if Counted(lines[|lines| - 1]) then 1 else 0)
  }

  /** The ids of the last record map that named any. */
  function IdsIn(lines: seq<Line>): seq<string> {
    if lines == [] then []
    else
      var last := lines[|lines| - 1];
      if last.RecordMap? && |last.messageIDs| > 0 then last.messageIDs else IdsIn(lines[..|lines| - 1])
  }

  /** Neither the count nor the ids known from record maps. */
  predicate SameCounts(a: Run, b: Run) {
    a.s.lineCount == b.s.lineCount && a.s.messageIDs == b.s.messageIDs
  }

  lemma EmitKeepsCounts(r: Run, raw: string)
    ensures SameCounts(r, EmitFullText(r, raw)) && SameCounts(r, EmitFullReasoning(r, raw))
  {
    hide Sanitize, TrimSpace, DeltaSuffix;
  }

  lemma RefreshKeepsCounts(r: Run, i: nat)
    requires i < |r.s.steps| && r.err.None?
    ensures SameCounts(r, Refresh(r, i))
  {
    hide EmitFullText, EmitFullReasoning, ComposeReasoning, Compose, Row;
    var content := Compose(Row(r.s.table, i));
    var thought := SetReasoning(r, i, content.reasoning);
    EmitKeepsCounts(thought, ComposeReasoning(thought.s));
    var shown := if content.hasReasoning then ShowReasoning(r, i, content.reasoning) else r;
    if content.hasReasoning { ShowReasoningEvolves(r, i, content.reasoning); }
    EmitKeepsCounts(SetText(shown, i, content.text), content.text);
  }

  lemma PatchKeepsCounts(r: Run, op: PatchOp)
    ensures SameCounts(r, ApplyPatch(r, op))
  {
    hide AddNewStep, Refresh, Append, SetKind, PatchContent, Remove;
    if r.err.None? {
      if op.AddStep? {
        StepAdded(r, op.id, op.isAgent, op.value);
      } else if 0 <= op.step < |r.s.steps| && r.s.steps[op.step].isAgent {
        var i := op.step;
        var table := match op
          case AppendValue(_, part) => Append(r.s.table, i, part)
          case PatchType(_, index, kind) => SetKind(r.s.table, Key(i, index), kind)
          case PatchText(_, index, how, content) => PatchContent(r.s.table, Key(i, index), how, content)
          case RemoveValue(_, index) => Remove(r.s.table, i, index)
          case _ => r.s.table;
        RefreshKeepsCounts(WithTable(WithActive(r, i), table), i);
        assert WithTable(WithActive(r, i), table) == WithActive(WithTable(r, table), i);
      }
    }
  }

  lemma {:induction false} PatchesKeepCounts(r: Run, ops: seq<PatchOp>)
    ensures SameCounts(r, ApplyPatches(r, ops))
  {
    hide ApplyPatch;
    if ops != [] {
      PatchesKeepCounts(r, ops[..|ops| - 1]);
      PatchKeepsCounts(ApplyPatches(r, ops[..|ops| - 1]), ops[|ops| - 1]);
    }
  }

  lemma {:induction false} ValuesKeepCounts(r: Run, i: nat, values: seq<Part>)
    requires i < |r.s.steps|
    ensures SameCounts(r, MergeValues(r, i, values))
  {
    hide EmitFullText, EmitFullReasoning, ComposeReasoning, MergeCumulative, MergeEvent;
    if values != [] {
      var n := |values| - 1;
      ValuesKeepCounts(r, i, values[..n]);
      var front := MergeValues(r, i, values[..n]);
      var merged := WithTable(front, MergeEvent(front.s.table, i, n, values[n]));
      var thought := SetReasoning(merged, i, MergeCumulative(front.s.steps[i].reasoning, values[n].content));
      EmitKeepsCounts(thought, ComposeReasoning(thought.s));
      var text := MergeCumulative(front.s.steps[i].text, values[n].content);
      EmitKeepsCounts(SetText(merged, i, text), text);
    }
  }

  lemma LineCounts(r: Run, line: Line)
    requires r.err.None?
    ensures var next := HandleLine(r, line).s;
      && next.lineCount == r.s.lineCount + (if Counted(line) then 1 else 0)
      && next.messageIDs == if line.RecordMap? && |line.messageIDs| > 0 then line.messageIDs else r.s.messageIDs
  {
    hide ApplyPatches, MergeInference, MergeFinal;
    var counted := r.(s := r.s.(lineCount := r.s.lineCount + 1));
    match line
    case Patch(ops) => PatchesKeepCounts(counted, ops);
    case Inference(id, values, finishedAt) => InferenceKeepsCounts(counted, id, values, finishedAt);
    case RecordMap(messageIDs, outcome) =>
      var known := if messageIDs == [] then counted else counted.(s := counted.s.(messageIDs := messageIDs));
      if outcome.FinalAgent? { RecordKeepsCounts(known, outcome.agent); }
    case _ =>
  }

  lemma InferenceKeepsCounts(r: Run, id: string, values: seq<Part>, finishedAt: Option<string>)
    requires r.err.None?
    ensures SameCounts(r, MergeInference(r, id, values, finishedAt))
  {
    hide MergeValues, TrimSpace;
    var i := FindStep(r.s.steps, TrimSpace(id));
    var steps := if i < |r.s.steps| then r.s.steps else r.s.steps + [Step(TrimSpace(id), true, "", "", false)];
    var found := r.(s := r.s.(steps := steps, active := i));
    var named := if steps[i].id != "" then found.(s := found.s.(final := r.s.final.(messageID := steps[i].id)))
      else found;
    ValuesKeepCounts(named, i, values);
  }

  lemma RecordKeepsCounts(r: Run, agent: Agent)
    requires r.err.None?
    ensures SameCounts(r, MergeFinal(r, agent))
  {
    hide EmitFullText, EmitFullReasoning, FinalReasoning, TrimSpace;
    var named := Named(r, agent);
    var reasoning := FinalReasoning(named.s, agent);
    var settled := named.(s := named.s.(final := named.s.final.(reasoning := reasoning)));
    EmitKeepsCounts(settled, reasoning);
    EmitKeepsCounts(if TrimSpace(reasoning) == "" then named else EmitFullReasoning(settled, reasoning), agent.text);
  }

  /** Without an error the result counts the lines that hold something, and its message ids are those of the last
      record map that named any, or else the id of the answer, if it has one. */
  lemma {:induction false} ResultCounts(room: nat, lines: seq<Line>)
    ensures var s := HandleLines(Initial(room), lines).s;
      HandleLines(Initial(room), lines).err.None? ==>
        && Result(s).lineCount == s.lineCount == CountIn(lines) && s.messageIDs == IdsIn(lines)
        && Result(s).messageIDs ==
             (if |IdsIn(lines)| > 0 then IdsIn(lines)
              else if Result(s).final.messageID == "" then [] else [Result(s).final.messageID])
  {
    hide HandleLine, Counted, ComposeReasoning, TrimSpace;
    if lines != [] {
      ResultCounts(room, lines[..|lines| - 1]);
      var before := HandleLines(Initial(room), lines[..|lines| - 1]);
      if before.err.None? {
        LineCounts(before, lines[|lines| - 1]);
      } else {
        hide Result;
        ErrorIsKept(before, lines[|lines| - 1]);
      }
    }
  }

  /** The answer of the result has the id it was given, or else that of the active step; whether and when it was
      completed is as noted, and the reasoning beside it is what the transcript composes. */
  lemma ResultNames(s: State)
    ensures var answer := Result(s).final;
      && answer.messageID == (if |s.final.messageID| > 0 then s.final.messageID
                              else if s.active >= 0 && s.active < |s.steps| then s.steps[s.active].id else "")
      && answer.completed == s.final.completed && answer.completedTime == s.final.completedTime
      && Result(s).reasoning == ComposeReasoning(s)
  {
    hide TrimSpace, ComposeReasoning;
  }

  lemma ErrorIsKept(r: Run, line: Line)
    requires r.err.Some?
    ensures HandleLine(r, line) == r
  {}

  /** Showing a text costs a write exactly if something is sent, and fails exactly if that write is refused; then the
      transcript stays as it was. */
  lemma ShowingWrites(r: Run, raw: string)
    requires r.err.None?
    ensures var next := EmitFullText(r, raw);
      && (next.err.Some? ==> next == r.(err := Some(SinkFailed)) && r.client.room == 0)
      && (next.err.None? ==> next.client.room == r.client.room - if next.client.text == r.client.text then 0 else 1)
    ensures var next := EmitFullReasoning(r, raw);
      && (next.err.Some? ==> next == r.(err := Some(SinkFailed)) && r.client.room == 0)
      && (next.err.None? ==>
            next.client.room == r.client.room - if next.client.reasoning == r.client.reasoning then 0 else 1)
  {
    hide Sanitize, TrimSpace, DeltaSuffix;
    SameIfNothing(r.client.text, DeltaSuffix(r.s.emittedText, Sanitize(raw)));
    SameIfNothing(r.client.reasoning, DeltaSuffix(r.s.emittedReasoning, TrimSpace(raw)));
  }

  lemma SameIfNothing(a: string, b: string)
    ensures a + b == a <==> b == ""
  {
    assert |a + b| == |a| + |b|;
  }

  // ---------- A new step ----------

  /** The parts of a kind, trimmed, one after the other. */
  function TrimmedParts(parts: seq<Part>, kind: Kind): string {
    if parts == [] then ""
    else (if parts[0].kind == kind then TrimSpace(parts[0].content) else "") + TrimmedParts(parts[1..], kind)
  }

  lemma {:induction false} TrimmedMore(parts: seq<Part>, last: Part, kind: Kind)
    ensures TrimmedParts(parts + [last], kind)
      == TrimmedParts(parts, kind) + (if last.kind == kind then TrimSpace(last.content) else "")
  {
    hide TrimSpace;
    if parts == [] {
      assert [] + [last] == [last] && [last][1..] == [];
    } else {
      assert (parts + [last])[1..] == parts[1..] + [last];
      TrimmedMore(parts[1..], last, kind);
      var head := if parts[0].kind == kind then TrimSpace(parts[0].content) else "";
      var tail := if last.kind == kind then TrimSpace(last.content) else "";
      assert head + (TrimmedParts(parts[1..], kind) + tail) == head + TrimmedParts(parts[1..], kind) + tail;
    }
  }

  lemma {:induction false} JoinedIsTrimmed(parts: seq<Part>, kind: Kind)
    ensures JoinTrimmed(parts, kind) == TrimmedParts(parts, kind)
  {
    hide TrimSpace;
    if parts != [] {
      JoinedIsTrimmed(parts[..|parts| - 1], kind);
      assert parts == parts[..|parts| - 1] + [parts[|parts| - 1]];
      TrimmedMore(parts[..|parts| - 1], parts[|parts| - 1], kind);
    }
  }

  /** A value's text or reasoning: that of its parts, or what was dug out of another shape. */
  function ValueOf(value: StepValue, kind: Kind): string {
    match value
    case Parts(parts) => TrimmedParts(parts, kind)
    case Shapeless(text, reasoning) => if kind == Text then TrimSpace(text) else TrimSpace(reasoning)
  }

  lemma ValueIs(value: StepValue)
    ensures StepText(value) == ValueOf(value, Text) && StepReasoning(value) == ValueOf(value, Reasoning)
  {
    hide TrimSpace, JoinTrimmed, TrimmedParts;
    if value.Parts? {
      JoinedIsTrimmed(value.parts, Text);
      JoinedIsTrimmed(value.parts, Reasoning);
    }
  }

  /** A new step comes last, with its trimmed id and parts. An agent step becomes the active one and is shown,
      reasoning first; any other is only listed. */
  lemma StepAdded(r: Run, id: string, isAgent: bool, value: StepValue)
    requires r.err.None?
    ensures var next, n := AddNewStep(r, id, isAgent, value), |r.s.steps|;
      && SameCounts(r, next) && next.s.final.completed == r.s.final.completed
      && next.s.steps == r.s.steps + [Step(TrimSpace(id), isAgent, if isAgent then ValueOf(value, Text) else "",
                                           if isAgent then ValueOf(value, Reasoning) else "", false)]
      && Row(next.s.table, n) == Row(Register(r.s.table, n, ValueParts(value)), n)
      && (!isAgent ==> next.client == r.client && next.s.final == r.s.final && next.s.active == r.s.active
                       && next.shownText == r.shownText && next.shownReasoning == r.shownReasoning)
      && (isAgent && next.err.None? ==>
            && next.s.active == n && next.s.final.text == Sanitize(ValueOf(value, Text))
            && next.shownText == r.shownText + [Sanitize(ValueOf(value, Text))]
            && next.shownReasoning == r.shownReasoning + [next.s.final.reasoning])
  {
    hide Sanitize, TrimSpace, DeltaSuffix, StepText, StepReasoning, ValueOf, ComposeReasoning, Register, Row;
    ValueIs(value);
  }

  // ---------- A final record ----------

  /** The transcript once a final record has named and marked the answer. */
  function Named(r: Run, agent: Agent): Run {
    var id := if agent.messageID != "" then agent.messageID else r.s.final.messageID;
    r.(s := r.s.(final := r.s.final.(messageID := id, completed := agent.completed,
                                     completedTime := agent.completedTime)))
  }

  /** A final record with a text shows that text; a blank one leaves the text as it was. */
  lemma RecordShowsText(r: Run, agent: Agent)
    requires r.err.None?
    ensures var next := MergeFinal(r, agent);
      next.err.None? ==>
        if TrimSpace(agent.text) == "" then next.shownText == r.shownText && next.s.final.text == r.s.final.text
        else next.shownText == r.shownText + [Sanitize(agent.text)] && next.s.final.text == Sanitize(agent.text)
  {
    hide Sanitize, TrimSpace, DeltaSuffix, ComposeReasoning, FinalReasoning;
  }

  /** Its own reasoning is shown if it is visible and longer than what the steps compose; otherwise what they compose,
      and if nothing is visible on either side, its own as it came. All blank shows nothing. */
  lemma RecordShowsReasoning(r: Run, agent: Agent)
    requires r.err.None?
    ensures var next, own := MergeFinal(r, agent), Sanitize(agent.reasoning);
      var composed := ComposeReasoning(Named(r, agent).s);
      next.err.None? ==>
        && (TrimSpace(composed) != "" && |own| <= |composed| ==>
              next.shownReasoning == r.shownReasoning + [TrimSpace(composed)])
        && (own != "" && (TrimSpace(composed) == "" || |own| > |composed|) ==>
              next.shownReasoning == r.shownReasoning + [own])
        && (own == "" && TrimSpace(composed) == "" && TrimSpace(agent.reasoning) != "" ==>
              next.shownReasoning == r.shownReasoning + [TrimSpace(agent.reasoning)])
        && (own == "" && TrimSpace(composed) == "" && TrimSpace(agent.reasoning) == "" ==>
              next.shownReasoning == r.shownReasoning)
  {
    hide Sanitize, TrimSpace, DeltaSuffix, ComposeReasoning;
    TrimSpaceOfTrimmed(Sanitize(agent.reasoning));
    TrimSpaceOfTrimmed("");
  }

  /** The answer is named by the active step when text is shown, or else by the record, if it names one. */
  lemma RecordNames(r: Run, agent: Agent)
    requires r.err.None?
    ensures var next, active := MergeFinal(r, agent), r.s.active;
      var named := if agent.messageID != "" then agent.messageID else r.s.final.messageID;
      next.err.None? ==>
        next.s.final.messageID ==
          if TrimSpace(agent.text) != "" && 0 <= active < |r.s.steps| && r.s.steps[active].id != ""
          then r.s.steps[active].id else named
  {
    hide Sanitize, TrimSpace, DeltaSuffix, ComposeReasoning, FinalReasoning;
  }

  // ---------- Composing ----------

  /** The visible reasoning of the steps that have any, in order. */
  function VisibleReasoning(steps: seq<Step>): seq<string> {
    if steps == [] then []
    else (if TrimSpace(steps[0].reasoning) == "" then [] else [Sanitize(steps[0].reasoning)])
         + VisibleReasoning(steps[1..])
  }

  /** The pieces with a blank line between any two. */
  function Paragraphs(pieces: seq<string>): string {
    if |pieces| == 0 then "" else if |pieces| == 1 then pieces[0] else pieces[0] + "\n\n" + Paragraphs(pieces[1..])
  }

  lemma {:induction false} VisibleMore(steps: seq<Step>, last: Step)
    ensures VisibleReasoning(steps + [last])
      == VisibleReasoning(steps) + (if TrimSpace(last.reasoning) == "" then [] else [Sanitize(last.reasoning)])
  {
    hide TrimSpace, Sanitize;
    if steps == [] {
      assert [] + [last] == [last] && [last][1..] == [];
    } else {
      assert (steps + [last])[1..] == steps[1..] + [last];
      VisibleMore(steps[1..], last);
    }
  }

  lemma {:induction false} PartsAreVisible(steps: seq<Step>)
    ensures ReasoningParts(steps) == VisibleReasoning(steps)
  {
    hide TrimSpace, Sanitize;
    if steps != [] {
      PartsAreVisible(steps[..|steps| - 1]);
      assert steps == steps[..|steps| - 1] + [steps[|steps| - 1]];
      VisibleMore(steps[..|steps| - 1], steps[|steps| - 1]);
    }
  }

  lemma {:induction false} ParagraphsMore(pieces: seq<string>, last: string)
    requires pieces != []
    ensures Paragraphs(pieces + [last]) == Paragraphs(pieces) + "\n\n" + last
  {
    var more := pieces + [last];
    assert more[1..] == pieces[1..] + [last];
    if |pieces| == 1 {
      assert more[1..] == [last];
    } else {
      ParagraphsMore(pieces[1..], last);
      var head, tail := pieces[0] + "\n\n", "\n\n" + last;
      assert head + (Paragraphs(pieces[1..]) + "\n\n" + last) == head + Paragraphs(pieces[1..]) + "\n\n" + last;
    }
  }

  lemma {:induction false} JoinIsParagraphs(pieces: seq<string>)
    ensures Join(pieces, "\n\n") == Paragraphs(pieces)
  {
    if |pieces| > 1 {
      JoinIsParagraphs(pieces[..|pieces| - 1]);
      assert pieces == pieces[..|pieces| - 1] + [pieces[|pieces| - 1]];
      ParagraphsMore(pieces[..|pieces| - 1], pieces[|pieces| - 1]);
    }
  }

  /** The reasoning of a transcript is that of its steps, one paragraph each, or that of the final answer if no step has
      any. */
  lemma ReasoningIsParagraphs(s: State)
    ensures ComposeReasoning(s) ==
      if |VisibleReasoning(s.steps)| > 0 then Paragraphs(VisibleReasoning(s.steps)) else Sanitize(s.final.reasoning)
  {
    hide Sanitize, TrimSpace;
    PartsAreVisible(s.steps);
    JoinIsParagraphs(ReasoningParts(s.steps));
  }

  // ---------- Editing a step ----------

  /** The operation edits the parts of a step. */
  predicate Edits(op: PatchOp) {
    op.AppendValue? || op.PatchType? || op.PatchText? || op.RemoveValue?
  }

  /** After an edit an agent step holds what its parts of each kind combine to, and shows it; a kind of which no part
      holds anything stays as it was. Steps that are not the agent's are not shown. */
  lemma EditShows(r: Run, op: PatchOp)
    requires r.err.None? && Edits(op) && 0 <= op.step < |r.s.steps|
    ensures var next, i := ApplyPatch(r, op), op.step;
      var text, thought := Texts(Row(next.s.table, i), Text), Texts(Row(next.s.table, i), Reasoning);
      if !r.s.steps[i].isAgent then
        next.s.(table := r.s.table) == r.s && next.client == r.client && next.shownText == r.shownText
        && next.shownReasoning == r.shownReasoning
      else next.err.None? ==>
        && next.s.active == i
        && next.s.steps == r.s.steps[i := r.s.steps[i].(
             text := if text == [] then r.s.steps[i].text else CombineAll(text),
             reasoning := if thought == [] then r.s.steps[i].reasoning else CombineAll(thought))]
        && next.shownText == r.shownText + (if text == [] then [] else [Sanitize(CombineAll(text))])
        && (thought == [] ==> next.shownReasoning == r.shownReasoning)
        && (thought != [] ==> next.shownReasoning == r.shownReasoning + [next.s.final.reasoning])
  {
    hide Sanitize, Row, Texts, CombineAll, Append, SetKind, PatchContent, Remove, Refresh;
    if r.s.steps[op.step].isAgent {
      var i := op.step;
      var table := match op
        case AppendValue(_, part) => Append(r.s.table, i, part)
        case PatchType(_, index, kind) => SetKind(r.s.table, Key(i, index), kind)
        case PatchText(_, index, how, content) => PatchContent(r.s.table, Key(i, index), how, content)
        case RemoveValue(_, index) => Remove(r.s.table, i, index)
        case _ => r.s.table;
      var current := WithTable(WithActive(r, i), table);
      assert current == WithActive(WithTable(r, table), i);
      RefreshShows(current, i);
      assert ApplyPatch(r, op) == Refresh(current, i);
    }
  }

  lemma RefreshShows(r: Run, i: nat)
    requires r.err.None? && i < |r.s.steps|
    ensures var next := Refresh(r, i);
      var text, thought := Texts(Row(r.s.table, i), Text), Texts(Row(r.s.table, i), Reasoning);
      next.err.None? ==>
        && next.s.table == r.s.table && next.s.active == r.s.active
        && next.s.steps == r.s.steps[i := r.s.steps[i].(
             text := if text == [] then r.s.steps[i].text else CombineAll(text),
             reasoning := if thought == [] then r.s.steps[i].reasoning else CombineAll(thought))]
        && next.shownText == r.shownText + (if text == [] then [] else [Sanitize(CombineAll(text))])
        && (thought == [] ==> next.shownReasoning == r.shownReasoning)
        && (thought != [] ==> next.shownReasoning == r.shownReasoning + [next.s.final.reasoning])
  {
    hide Row, Texts, CombineAll, EmitFullText, EmitFullReasoning, ComposeReasoning;
    var content := Compose(Row(r.s.table, i));
    var thought := SetReasoning(r, i, content.reasoning);
    EmitsReasoning(thought, ComposeReasoning(thought.s));
    var shown := if content.hasReasoning then ShowReasoning(r, i, content.reasoning) else r;
    if shown.err.None? {
      EmitsText(SetText(shown, i, content.text), content.text);
      assert shown.shownText + [] == shown.shownText;
    }
  }

  lemma EmitsText(r: Run, raw: string)
    requires r.err.None?
    ensures var next := EmitFullText(r, raw);
      next.err.None? ==>
        && next.shownText == r.shownText + [Sanitize(raw)] && next.shownReasoning == r.shownReasoning
        && next.s.steps == r.s.steps && next.s.table == r.s.table && next.s.active == r.s.active
        && next.s.final.text == Sanitize(raw) && next.s.final.reasoning == r.s.final.reasoning
  {
    hide Sanitize, DeltaSuffix;
  }

  lemma EmitsReasoning(r: Run, raw: string)
    requires r.err.None?
    ensures var next := EmitFullReasoning(r, raw);
      |next.s.steps| == |r.s.steps| && (next.err.None? ==>
        && next.shownReasoning == r.shownReasoning + [next.s.final.reasoning] && next.shownText == r.shownText
        && next.s.steps == r.s.steps && next.s.table == r.s.table && next.s.active == r.s.active
        && next.s.final.reasoning == TrimSpace(raw) && next.s.final.text == r.s.final.text)
  {
    hide TrimSpace, DeltaSuffix;
  }

  /** Finishing marks the step and the answer, and nothing is shown. */
  lemma FinishMarks(r: Run, op: PatchOp)
    requires r.err.None? && op.FinishStep? && 0 <= op.step < |r.s.steps| && r.s.steps[op.step].isAgent
    ensures ApplyPatch(r, op) == r.(s := r.s.(active := op.step,
      steps := r.s.steps[op.step := r.s.steps[op.step].(completed := true)],
      final := r.s.final.(completed := true, completedTime := op.at)))
  {}
}
