/** The streaming transcript as functions on values: how one upstream line changes the transcript and
    what the client receives. The class `Transcript.TranscriptState` is proved against this. */
module TranscriptSpec {
  import opened Wrappers
  import opened Strings
  import opened Sanitizer
  import opened Deltas
  import opened PatchTable

  datatype Error = SinkFailed | BadLine | UpstreamError(message: string) | ReadFailed(message: string)

  datatype Agent = Agent(messageID: string, text: string, reasoning: string, completed: bool, completedTime: string)

  datatype Step = Step(id: string, isAgent: bool, text: string, reasoning: string, completed: bool)

  datatype State = State(
    lineCount: nat,
    steps: seq<Step>,
    active: int,
    emittedText: string,
    emittedReasoning: string,
    messageIDs: seq<string>,
    final: Agent,
    table: Table)

  /** The client's end: what it received on both channels, and how many more writes it will accept.
      The handler stops at the first refused write, so a count covers every way a sink can fail. */
  datatype Client = Client(text: string, reasoning: string, room: nat)

  /** A transcript being filled, with the full texts shown so far on each channel. */
  datatype Run = Run(s: State, client: Client, err: Option<Error>, shownText: seq<string>, shownReasoning: seq<string>)

  const NoAgent := Agent("", "", "", false, "")
  const InitialState := State(0, [], -1, "", "", [], NoAgent, Table(map[], map[], map[]))

  function Initial(room: nat): Run {
    Run(InitialState, Client("", "", room), None, [], [])
  }

  // ---------- Emitting ----------

  function ActiveID(s: State): string {
    if 0 <= s.active < |s.steps| && s.steps[s.active].id != "" then s.steps[s.active].id else s.final.messageID
  }

  function Remembered(emitted: string, full: string): string {
    if full != "" || emitted == "" then full else emitted
  }

  /** `emitFullText`. */
  function EmitFullText(r: Run, raw: string): Run {
    if r.err.Some? then r else
    var full := Sanitize(raw);
    var delta := DeltaSuffix(r.s.emittedText, full);
    if delta != "" && r.client.room == 0 then r.(err := Some(SinkFailed)) else
    r.(s := r.s.(emittedText := Remembered(r.s.emittedText, full),
                 final := r.s.final.(messageID := ActiveID(r.s), text := full)),
       client := r.client.(text := r.client.text + delta,
           room := if delta == "" then r.client.room else r.client.room - 1),
       shownText := r.shownText + [full])
  }

  /** `emitFullReasoning`. */
  function EmitFullReasoning(r: Run, raw: string): Run {
    if r.err.Some? then r else
    var full := TrimSpace(raw);
    var delta := DeltaSuffix(r.s.emittedReasoning, full);
    if delta != "" && r.client.room == 0 then r.(err := Some(SinkFailed)) else
    r.(s := r.s.(emittedReasoning := Remembered(r.s.emittedReasoning, full), final := r.s.final.(reasoning := full)),
       client := r.client.(reasoning := r.client.reasoning + delta,
           room := if delta == "" then r.client.room else r.client.room - 1),
       shownReasoning := r.shownReasoning + [full])
  }

  function ReasoningParts(steps: seq<Step>): seq<string> {
    if steps == [] then []
    else
      var last := steps[|steps| - 1];
      ReasoningParts(steps[..|steps| - 1])
      + (if TrimSpace(last.reasoning) == "" then [] else [Sanitize(last.reasoning)])
  }

  function Join(parts: seq<string>, separator: string): string {
    if parts == [] then ""
    else if |parts| == 1 then parts[0]
    else Join(parts[..|parts| - 1], separator) + separator + parts[|parts| - 1]
  }

  function ComposeReasoning(s: State): string {
    var parts := ReasoningParts(s.steps);
    if parts != [] then Join(parts, "\n\n") else Sanitize(s.final.reasoning)
  }

  function SetReasoning(r: Run, i: nat, reasoning: string): Run
    requires i < |r.s.steps|
  {
    r.(s := r.s.(steps := r.s.steps[i := r.s.steps[i].(reasoning := reasoning)]))
  }

  function SetText(r: Run, i: nat, text: string): Run
    requires i < |r.s.steps|
  {
    r.(s := r.s.(steps := r.s.steps[i := r.s.steps[i].(text := text)]))
  }

  /** `step.Reasoning = ...; emitFullReasoning(composeReasoningText())`. */
  function ShowReasoning(r: Run, i: nat, reasoning: string): Run
    requires i < |r.s.steps|
  {
    var next := SetReasoning(r, i, reasoning);
    EmitFullReasoning(next, ComposeReasoning(next.s))
  }

  function ShowText(r: Run, i: nat, text: string): Run
    requires i < |r.s.steps|
  {
    EmitFullText(SetText(r, i, text), text)
  }

  /** `refreshAgentStepFromPatchState`. */
  function Refresh(r: Run, i: nat): Run
    requires i < |r.s.steps| && r.err.None?
  {
    var content := Compose(Row(r.s.table, i));
    var shown := if content.hasReasoning then ShowReasoning(r, i, content.reasoning) else r;
    if content.hasText && shown.err.None? then ShowText(shown, i, content.text) else shown
  }

  // ---------- Patch operations ----------

  /** The value of a new step: a list of parts, or text and reasoning dug out of another shape. */
  datatype StepValue = Parts(parts: seq<Part>) | Shapeless(text: string, reasoning: string)

  function JoinTrimmed(parts: seq<Part>, kind: Kind): string {
    if parts == [] then ""
    else
      var last := parts[|parts| - 1];
      JoinTrimmed(parts[..|parts| - 1], kind) + (if last.kind == kind then TrimSpace(last.content) else "")
  }

  function StepText(value: StepValue): string {
    match value
    case Parts(parts) => JoinTrimmed(parts, Text)
    case Shapeless(text, _) => TrimSpace(text)
  }

  function StepReasoning(value: StepValue): string {
    match value
    case Parts(parts) => JoinTrimmed(parts, Reasoning)
    case Shapeless(_, reasoning) => TrimSpace(reasoning)
  }

  function ValueParts(value: StepValue): seq<Part> {
    match value
    case Parts(parts) => parts
    case Shapeless(_, _) => []
  }

  datatype PatchOp =
    | AddStep(id: string, isAgent: bool, value: StepValue)
    | AppendValue(step: int, part: Part)
    | FinishStep(step: int, at: string)
    | PatchType(step: int, index: nat, kind: Kind)
    | PatchText(step: int, index: nat, how: PatchKind, content: string)
    | RemoveValue(step: int, index: nat)
    | TouchStep(step: int)

  function WithTable(r: Run, table: Table): Run {
    r.(s := r.s.(table := table))
  }

  function WithActive(r: Run, i: int): Run {
    r.(s := r.s.(active := i))
  }

  function AddNewStep(r: Run, id: string, isAgent: bool, value: StepValue): Run
    requires r.err.None?
  {
    var step := Step(TrimSpace(id), isAgent,
                     if isAgent then StepText(value) else "", if isAgent then StepReasoning(value) else "", false);
    var n := |r.s.steps|;
    var added := r.(s := r.s.(steps := r.s.steps + [step], table := Register(r.s.table, n, ValueParts(value))));
    if !isAgent then added else
    var current := WithActive(added, n);
    EmitFullText(EmitFullReasoning(current, ComposeReasoning(current.s)), step.text)
  }

  /** `applyPatchOperation`. */
  function ApplyPatch(r: Run, op: PatchOp): Run {
    if r.err.Some? then r
    else if op.AddStep? then AddNewStep(r, op.id, op.isAgent, op.value)
    else if !(0 <= op.step < |r.s.steps|) then r
    else
      var i := op.step;
      if op.AppendValue? then
        var appended := WithTable(r, Append(r.s.table, i, op.part));
        if r.s.steps[i].isAgent then Refresh(WithActive(appended, i), i) else appended
      else if !r.s.steps[i].isAgent then r
      else
        var current := WithActive(r, i);
        match op
        case FinishStep(_, at) =>
          current.(s := current.s.(steps := r.s.steps[i := r.s.steps[i].(completed := true)],
                                   final := r.s.final.(completed := true, completedTime := at)))
        case PatchType(_, index, kind) => Refresh(WithTable(current, SetKind(r.s.table, Key(i, index), kind)), i)
        case PatchText(_, index, how, content) =>
          Refresh(WithTable(current, PatchContent(r.s.table, Key(i, index), how, content)), i)
        case RemoveValue(_, index) => Refresh(WithTable(current, Remove(r.s.table, i, index)), i)
        case _ => current
  }

  function ApplyPatches(r: Run, ops: seq<PatchOp>): Run {
    if ops == [] then r else ApplyPatch(ApplyPatches(r, ops[..|ops| - 1]), ops[|ops| - 1])
  }

  // ---------- Whole lines ----------

  /** Index of the first step with this id, or the number of steps. */
  function FindStep(steps: seq<Step>, id: string): (i: nat)
    ensures i <= |steps|
    ensures i < |steps| ==> steps[i].id == id
    ensures forall j | 0 <= j < i :: steps[j].id != id
  {
    if steps == [] || steps[0].id == id then 0 else FindStep(steps[1..], id) + 1
  }

  /** One entry of an `agent-inference` line. */
  function MergeValue(r: Run, i: nat, index: nat, part: Part): Run
    requires i < |r.s.steps|
  {
    if r.err.Some? then r else
    var merged := WithTable(r, MergeEvent(r.s.table, i, index, part));
    match part.kind
    case Reasoning => ShowReasoning(merged, i, MergeCumulative(r.s.steps[i].reasoning, part.content))
    case Text => ShowText(merged, i, MergeCumulative(r.s.steps[i].text, part.content))
    case Unknown => merged
  }

  function MergeValues(r: Run, i: nat, values: seq<Part>): (out: Run)
    requires i < |r.s.steps|
    ensures |out.s.steps| == |r.s.steps|
  {
    if values == [] then r
    else
      var n := |values| - 1;
      MergeValue(MergeValues(r, i, values[..n]), i, n, values[n])
  }

  /** `mergeAgentInferenceEvent`. */
  function MergeInference(r: Run, id: string, values: seq<Part>, finishedAt: Option<string>): Run
    requires r.err.None?
  {
    var i := FindStep(r.s.steps, TrimSpace(id));
    var steps := if i < |r.s.steps| then r.s.steps else r.s.steps + [Step(TrimSpace(id), true, "", "", false)];
    var found := r.(s := r.s.(steps := steps, active := i));
    var named := if steps[i].id != "" then found.(s := found.s.(final := r.s.final.(messageID := steps[i].id)))
      else found;
    var merged := MergeValues(named, i, values);
    if merged.err.Some? || finishedAt.None? then merged
    else merged.(s := merged.s.(steps := merged.s.steps[i := merged.s.steps[i].(completed := true)],
                                final := merged.s.final.(completed := true, completedTime := finishedAt.value)))
  }

  /** Which reasoning `mergeFinalAgent` settles on. */
  function FinalReasoning(s: State, agent: Agent): string {
    var composed, own := ComposeReasoning(s), Sanitize(agent.reasoning);
    var picked := if TrimSpace(composed) == "" || |own| > |composed| then own else composed;
    if TrimSpace(picked) == "" then agent.reasoning else picked
  }

  /** `mergeFinalAgent`. */
  function MergeFinal(r: Run, agent: Agent): Run
    requires r.err.None?
  {
    var id := if agent.messageID != "" then agent.messageID else r.s.final.messageID;
    var named := r.(s := r.s.(final := r.s.final.(messageID := id, completed := agent.completed,
                                                  completedTime := agent.completedTime)));
    var reasoning := FinalReasoning(named.s, agent);
    var reasoned := if TrimSpace(reasoning) == "" then named
      else EmitFullReasoning(named.(s := named.s.(final := named.s.final.(reasoning := reasoning))), reasoning);
    if TrimSpace(agent.text) == "" then reasoned
    else EmitFullText(reasoned, agent.text)
  }

  datatype Outcome = NoOutcome | StepError(message: string) | FinalAgent(agent: Agent)

  datatype Line =
    | Blank(empty: bool)
    | Malformed
    | Patch(ops: seq<PatchOp>)
    | Inference(id: string, values: seq<Part>, finishedAt: Option<string>)
    | RecordMap(messageIDs: seq<string>, outcome: Outcome)
    | Ignored

  /** `handleLine`. */
  function HandleLine(r: Run, line: Line): Run {
    if r.err.Some? || line.Blank? then r
    else if line.Malformed? then r.(err := Some(BadLine))
    else
      var counted := r.(s := r.s.(lineCount := r.s.lineCount + 1));
      match line
      case Patch(ops) => ApplyPatches(counted, ops)
      case Inference(id, values, finishedAt) => MergeInference(counted, id, values, finishedAt)
      case RecordMap(messageIDs, outcome) =>
        var known := if messageIDs == [] then counted else counted.(s := counted.s.(messageIDs := messageIDs));
        (match outcome
         case StepError(message) => known.(err := Some(UpstreamError(message)))
         case FinalAgent(agent) => MergeFinal(known, agent)
         case NoOutcome => known)
      case _ => counted
  }

  function HandleLines(r: Run, lines: seq<Line>): Run {
    if lines == [] then r else HandleLine(HandleLines(r, lines[..|lines| - 1]), lines[|lines| - 1])
  }

  /** `firstNonEmpty` with two arguments. */
  function FirstNonEmpty(a: string, b: string): string {
    if TrimSpace(a) != "" then TrimSpace(a) else TrimSpace(b)
  }

  predicate HasTerminalAnswer(s: State) {
    s.final.completed && TrimSpace(s.final.text) != ""
  }

  predicate HasVisibleAnswer(s: State) {
    TrimSpace(FirstNonEmpty(s.final.text, s.emittedText)) != ""
  }

  datatype ParseResult = ParseResult(lineCount: nat, messageIDs: seq<string>, final: Agent, reasoning: string)

  /** `result`. */
  function Result(s: State): ParseResult {
    var reasoning := ComposeReasoning(s);
    var text := if TrimSpace(s.final.text) == "" then s.emittedText else s.final.text;
    var finalReasoning := if TrimSpace(reasoning) != "" || TrimSpace(s.final.reasoning) == ""
      then reasoning else s.final.reasoning;
    var id := if s.final.messageID == "" && 0 <= s.active < |s.steps| then s.steps[s.active].id else s.final.messageID;
    var ids := if s.messageIDs == [] && id != "" then [id] else s.messageIDs;
    ParseResult(s.lineCount, ids, s.final.(text := text, reasoning := finalReasoning, messageID := id), reasoning)
  }

  // ---------- What every line keeps ----------

  /** The text the transcript reports is empty or the text it showed; both channels are what emitting
      the shown texts one after the other gives. */
  predicate Sound(r: Run) {
    && (r.s.final.text == "" || r.s.final.text == r.s.emittedText)
    && Trimmed(r.s.emittedText)
    && Channel(r.client.text, r.s.emittedText) == EmitAll(Idle, r.shownText)
    && Channel(r.client.reasoning, r.s.emittedReasoning) == EmitAll(Idle, r.shownReasoning)
  }

  /** Unless a write failed, the reasoning that the transcript reports is empty or the one shown last. */
  predicate ReasoningSettled(r: Run) {
    r.err.None? ==> r.s.final.reasoning == "" || r.s.final.reasoning == r.s.emittedReasoning
  }

  /** Soundness is kept, text once shown is never forgotten, nothing sent is taken back. */
  predicate Evolves(a: Run, b: Run) {
    && (Sound(a) ==> Sound(b))
    && (ReasoningSettled(a) ==> ReasoningSettled(b))
    && (a.s.emittedText != "" ==> b.s.emittedText != "")
    && a.client.text <= b.client.text && a.client.reasoning <= b.client.reasoning
    && a.shownText <= b.shownText && a.shownReasoning <= b.shownReasoning
    && |a.s.steps| <= |b.s.steps|
    && (a.err.Some? ==> a == b)
  }

  lemma EmitTextEvolves(r: Run, raw: string)
    ensures Evolves(r, EmitFullText(r, raw))
  {
    hide Sanitize;
    var next := EmitFullText(r, raw);
    if next.err.None? {
      assert next.shownText[..|next.shownText| - 1] == r.shownText;
    }
  }

  lemma EmitReasoningEvolves(r: Run, raw: string)
    ensures Evolves(r, EmitFullReasoning(r, raw))
    ensures r.err.None? ==> ReasoningSettled(EmitFullReasoning(r, raw))
  {
    hide TrimSpace;
    var next := EmitFullReasoning(r, raw);
    if next.err.None? {
      assert next.shownReasoning[..|next.shownReasoning| - 1] == r.shownReasoning;
    }
  }

  lemma ShowReasoningEvolves(r: Run, i: nat, reasoning: string)
    requires i < |r.s.steps| && r.err.None?
    ensures Evolves(r, ShowReasoning(r, i, reasoning))
  {
    hide EmitFullReasoning, ComposeReasoning;
    var next := SetReasoning(r, i, reasoning);
    EmitReasoningEvolves(next, ComposeReasoning(next.s));
  }

  lemma ShowTextEvolves(r: Run, i: nat, text: string)
    requires i < |r.s.steps| && r.err.None?
    ensures Evolves(r, ShowText(r, i, text))
  {
    hide EmitFullText;
    EmitTextEvolves(SetText(r, i, text), text);
  }

  lemma RefreshEvolves(r: Run, i: nat)
    requires i < |r.s.steps| && r.err.None?
    ensures Evolves(r, Refresh(r, i))
  {
    hide ShowText, ShowReasoning, Compose, Row;
    var content := Compose(Row(r.s.table, i));
    var shown := if content.hasReasoning then ShowReasoning(r, i, content.reasoning) else r;
    if content.hasReasoning { ShowReasoningEvolves(r, i, content.reasoning); }
    if content.hasText && shown.err.None? { ShowTextEvolves(shown, i, content.text); }
  }

  lemma AddStepEvolves(r: Run, id: string, isAgent: bool, value: StepValue)
    requires r.err.None?
    ensures Evolves(r, AddNewStep(r, id, isAgent, value))
  {
    hide EmitFullText, EmitFullReasoning, ComposeReasoning, StepText, StepReasoning, Register, TrimSpace;
    if isAgent {
      var n := |r.s.steps|;
      var step := Step(TrimSpace(id), true, StepText(value), StepReasoning(value), false);
      var current := WithActive(r.(s := r.s.(steps := r.s.steps + [step],
      table := Register(r.s.table, n, ValueParts(value)))), n);
      EmitReasoningEvolves(current, ComposeReasoning(current.s));
      EmitTextEvolves(EmitFullReasoning(current, ComposeReasoning(current.s)), step.text);
    }
  }

  lemma ApplyPatchEvolves(r: Run, op: PatchOp)
    ensures Evolves(r, ApplyPatch(r, op))
  {
    hide AddNewStep, Refresh, Append, SetKind, PatchContent, Remove;
    if r.err.None? {
      if op.AddStep? {
        AddStepEvolves(r, op.id, op.isAgent, op.value);
      } else if 0 <= op.step < |r.s.steps| && r.s.steps[op.step].isAgent {
        var i := op.step;
        var table := match op
          case AppendValue(_, part) => Append(r.s.table, i, part)
          case PatchType(_, index, kind) => SetKind(r.s.table, Key(i, index), kind)
          case PatchText(_, index, how, content) => PatchContent(r.s.table, Key(i, index), how, content)
          case RemoveValue(_, index) => Remove(r.s.table, i, index)
          case _ => r.s.table;
        RefreshEvolves(WithTable(WithActive(r, i), table), i);
        assert WithTable(WithActive(r, i), table) == WithActive(WithTable(r, table), i);
      }
    }
  }

  lemma {:induction false} ApplyPatchesEvolves(r: Run, ops: seq<PatchOp>)
    ensures Evolves(r, ApplyPatches(r, ops))
  {
    hide ApplyPatch;
    if ops != [] {
      ApplyPatchesEvolves(r, ops[..|ops| - 1]);
      ApplyPatchEvolves(ApplyPatches(r, ops[..|ops| - 1]), ops[|ops| - 1]);
    }
  }

  lemma EvolvesOn(a: Run, b: Run, c: Run)
    requires Evolves(a, b) && Evolves(b, c)
    ensures Evolves(a, c)
  {
    hide Sound, ReasoningSettled;
  }

  lemma MergeValueEvolves(r: Run, i: nat, n: nat, part: Part)
    requires i < |r.s.steps|
    ensures Evolves(r, MergeValue(r, i, n, part))
  {
    hide ShowReasoning, ShowText, MergeCumulative, MergeEvent;
    if r.err.None? {
      var merged := WithTable(r, MergeEvent(r.s.table, i, n, part));
      ShowReasoningEvolves(merged, i, MergeCumulative(r.s.steps[i].reasoning, part.content));
      ShowTextEvolves(merged, i, MergeCumulative(r.s.steps[i].text, part.content));
    }
  }

  lemma {:induction false} MergeValuesEvolves(r: Run, i: nat, values: seq<Part>)
    requires i < |r.s.steps|
    ensures Evolves(r, MergeValues(r, i, values))
  {
    if values == [] {
    } else {
      hide MergeValue, Evolves;
      var n := |values| - 1;
      var front := MergeValues(r, i, values[..n]);
      MergeValuesEvolves(r, i, values[..n]);
      MergeValueEvolves(front, i, n, values[n]);
      EvolvesOn(r, front, MergeValues(r, i, values));
    }
  }

  lemma MergeInferenceEvolves(r: Run, id: string, values: seq<Part>, finishedAt: Option<string>)
    requires r.err.None?
    ensures Evolves(r, MergeInference(r, id, values, finishedAt))
  {
    hide MergeValues, TrimSpace;
    var i := FindStep(r.s.steps, TrimSpace(id));
    var steps := if i < |r.s.steps| then r.s.steps else r.s.steps + [Step(TrimSpace(id), true, "", "", false)];
    var found := r.(s := r.s.(steps := steps, active := i));
    var named := if steps[i].id != "" then found.(s := found.s.(final := r.s.final.(messageID := steps[i].id)))
      else found;
    MergeValuesEvolves(named, i, values);
  }

  lemma MergeFinalEvolves(r: Run, agent: Agent)
    requires r.err.None?
    ensures Evolves(r, MergeFinal(r, agent))
  {
    hide EmitFullText, EmitFullReasoning, FinalReasoning, TrimSpace;
    var id := if agent.messageID != "" then agent.messageID else r.s.final.messageID;
    var named := r.(s := r.s.(final := r.s.final.(messageID := id, completed := agent.completed,
                                                  completedTime := agent.completedTime)));
    var reasoning := FinalReasoning(named.s, agent);
    var settled := named.(s := named.s.(final := named.s.final.(reasoning := reasoning)));
    EmitReasoningEvolves(settled, reasoning);
    EmitTextEvolves(if TrimSpace(reasoning) == "" then named else EmitFullReasoning(settled, reasoning), agent.text);
  }

  /** Every upstream line, whatever it holds and wherever it fails, keeps the transcript sound. */
  lemma HandleLineEvolves(r: Run, line: Line)
    ensures Evolves(r, HandleLine(r, line))
  {
    hide ApplyPatches, MergeInference, MergeFinal;
    if r.err.None? {
      var counted := r.(s := r.s.(lineCount := r.s.lineCount + 1));
      match line
      case Patch(ops) => ApplyPatchesEvolves(counted, ops);
      case Inference(id, values, finishedAt) => MergeInferenceEvolves(counted, id, values, finishedAt);
      case RecordMap(messageIDs, outcome) =>
        var known := if messageIDs == [] then counted else counted.(s := counted.s.(messageIDs := messageIDs));
        if outcome.FinalAgent? { MergeFinalEvolves(known, outcome.agent); }
      case _ =>
    }
  }

  lemma {:induction false} HandleLinesEvolve(r: Run, lines: seq<Line>)
    ensures Evolves(r, HandleLines(r, lines))
  {
    hide HandleLine;
    if lines != [] {
      HandleLinesEvolve(r, lines[..|lines| - 1]);
      HandleLineEvolves(HandleLines(r, lines[..|lines| - 1]), lines[|lines| - 1]);
    }
  }

  // ---------- Main results ----------

  lemma InitialSound(room: nat)
    ensures Sound(Initial(room)) && ReasoningSettled(Initial(room))
  {
  }

  lemma ResultOfSound(r: Run)
    requires Sound(r)
    ensures Result(r.s).final.text == r.s.emittedText
  {
    hide Sanitize, ComposeReasoning, EmitAll;
    TrimSpaceOfTrimmed(r.s.emittedText);
    TrimSpaceOfTrimmed("");
  }

  lemma ShownIsRemembered(r: Run)
    requires Sound(r) && exists full | full in r.shownText :: full != ""
    ensures r.s.emittedText != ""
  {
    var k := EmittedIsLastShown(r.shownText);
  }

  /** The result carries exactly the text last shown, so a run that showed text never ends with none. */
  lemma ResultCarriesEmittedText(room: nat, lines: seq<Line>)
    ensures var r := HandleLines(Initial(room), lines);
            Result(r.s).final.text == r.s.emittedText
            && ((exists full | full in r.shownText :: full != "") ==> Result(r.s).final.text != "")
  {
    hide HandleLines, Initial, Result, Sound;
    InitialSound(room);
    HandleLinesEvolve(Initial(room), lines);
    var r := HandleLines(Initial(room), lines);
    ResultOfSound(r);
    if exists full | full in r.shownText :: full != "" { ShownIsRemembered(r); }
  }

  /** The text the client pieced together is the text of the result if and only if the texts shown form
      a chain of prefixes; one step that shortens or rewrites the visible text can never be made up for. */
  lemma ClientSeesResult(room: nat, lines: seq<Line>)
    ensures var r := HandleLines(Initial(room), lines);
            r.client.text == Result(r.s).final.text <==> PrefixChain(r.shownText)
    ensures var r := HandleLines(Initial(room), lines);
            r.client.reasoning == r.s.emittedReasoning <==> PrefixChain(r.shownReasoning)
  {
    hide HandleLines, Initial, Result, EmitAll;
    InitialSound(room);
    HandleLinesEvolve(Initial(room), lines);
    ResultCarriesEmittedText(room, lines);
    var r := HandleLines(Initial(room), lines);
    StreamEqualsFinal(r.shownText);
    StreamEqualsFinal(r.shownReasoning);
  }

  /** When the reasoning shown forms a chain, the client received the reasoning of the result exactly if the
      reasoning composed from the steps is what was shown last, or is blank while a final record set one. */
  lemma ClientSeesReasoning(room: nat, lines: seq<Line>)
    ensures var r := HandleLines(Initial(room), lines); var composed := ComposeReasoning(r.s);
      PrefixChain(r.shownReasoning) && r.err.None? ==>
        (r.client.reasoning == Result(r.s).final.reasoning <==>
          composed == r.s.emittedReasoning || (TrimSpace(composed) == "" && TrimSpace(r.s.final.reasoning) != ""))
  {
    hide HandleLines, Initial, EmitAll, ComposeReasoning, TrimSpace, Sound;
    InitialSound(room);
    HandleLinesEvolve(Initial(room), lines);
    ClientSeesResult(room, lines);
    TrimSpaceOfTrimmed("");
  }

  lemma PlainReasoning(text: string)
    requires text == "a" || text == "abc" || text == ""
    ensures Sanitize(text) == text && TrimSpace(text) == text
  {
    hide TagFree, Sanitize, TrimSpace, CitationCut;
    TrimSpaceOfTrimmed(text);
    NoAngleIsTagFree(text);
    SanitizeTagFree(text);
    NoBracketNoCut(text);
  }

  /** One agent step with reasoning "a". */
  predicate ThinksA(r: Run) {
    && r.err.None? && |r.s.steps| == 1 && r.s.steps[0].reasoning == "a"
    && r.s.emittedReasoning == r.client.reasoning == "a" && r.shownReasoning == ["a"] && r.client.room > 0
  }

  lemma ComposedA(s: State)
    requires |s.steps| == 1 && s.steps[0].reasoning == "a"
    ensures ComposeReasoning(s) == "a"
  {
    hide Sanitize, TrimSpace;
    PlainReasoning("a");
    assert s.steps[..0] == [];
    assert ReasoningParts(s.steps) == ["a"];
  }

  lemma FirstThought(r: Run)
    requires r == Initial(9).(s := InitialState.(lineCount := 1))
    ensures ThinksA(AddNewStep(r, "s", true, Shapeless("", "a")))
  {
    hide Sanitize, TrimSpace, ComposeReasoning, Register;
    PlainReasoning("a");
    PlainReasoning("");
    var step := Step(TrimSpace("s"), true, "", "a", false);
    var current := WithActive(r.(s := r.s.(steps := [step], table := Register(r.s.table, 0, []))), 0);
    assert r.s.steps + [step] == [step];
    ComposedA(current.s);
    CommonPrefixUnique("", "a", 0);
    CommonPrefixUnique("", "", 0);
    assert [] + ["a"] == ["a"] && "" + "a" == "a";
  }

  lemma LaterThought(r: Run)
    requires ThinksA(r)
    ensures var after := MergeFinal(r, Agent("", "", "abc", false, ""));
      && after.err.None? && after.shownReasoning == ["a", "abc"] && after.client.reasoning == "abc"
      && after.s.steps == r.s.steps
  {
    hide Sanitize, TrimSpace, ComposeReasoning;
    PlainReasoning("a");
    PlainReasoning("abc");
    PlainReasoning("");
    ComposedA(r.s);
    CommonPrefixUnique("a", "abc", 1);
    assert "a" + "abc"[1..] == "abc" && ["a"] + ["abc"] == ["a", "abc"];
    ComposedA(r.s.(final := r.s.final.(completed := false, completedTime := "")));
  }

  const STEP_LINE := Patch([AddStep("s", true, Shapeless("", "a"))])
  const RECORD_LINE := RecordMap([], FinalAgent(Agent("", "", "abc", false, "")))

  /** They can differ although everything shown was a chain: the steps give "a", the final record "abc". The
      client has "abc", and the result says "a". */
  lemma ReasoningCanDiffer()
    ensures var r := HandleLines(Initial(9), [STEP_LINE, RECORD_LINE]);
      r.err.None? && PrefixChain(r.shownReasoning) && r.client.reasoning == "abc" && Result(r.s).final.reasoning == "a"
  {
    hide AddNewStep, MergeFinal, ComposeReasoning, Sanitize, TrimSpace;
    var start := Initial(9).(s := InitialState.(lineCount := 1));
    FirstThought(start);
    var patch := AddStep("s", true, Shapeless("", "a"));
    assert [patch][..0] == [] && ApplyPatches(start, []) == start;
    assert ApplyPatches(start, [patch]) == AddNewStep(start, "s", true, Shapeless("", "a"));
    var first := HandleLine(Initial(9), STEP_LINE);
    assert ThinksA(first);
    LaterThought(first.(s := first.s.(lineCount := first.s.lineCount + 1)));
    assert [STEP_LINE, RECORD_LINE][..1] == [STEP_LINE] && [STEP_LINE][..0] == [];
    assert HandleLines(Initial(9), [STEP_LINE]) == first;
    var last := HandleLine(first, RECORD_LINE);
    assert HandleLines(Initial(9), [STEP_LINE, RECORD_LINE]) == last;
    ComposedA(last.s);
    PlainReasoning("a");
  }
}
