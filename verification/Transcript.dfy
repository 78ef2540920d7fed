/** The transcript as the program keeps it: an object whose methods update fields, maps and slices. */
module Transcript {
  import opened Wrappers
  import opened Strings
  import opened Sanitizer
  import opened Deltas
  import opened PatchTable
  import Spec = TranscriptSpec

  type Error = Spec.Error
  type Step = Spec.Step

  /** `InferenceStreamSink` with both text callbacks set; `room` counts the writes still accepted. */
  class Sink {
    var text: string
    var reasoning: string
    var room: nat

    constructor (room: nat)
      ensures View() == Spec.Client("", "", room)
    {
      text, reasoning, this.room := "", "", room;
    }

    ghost function View(): Spec.Client reads this {
      Spec.Client(text, reasoning, room)
    }

    method EmitText(delta: string) returns (err: Option<Error>)
      requires delta != ""
      modifies this
      ensures err == if old(room) == 0 then Some(Spec.SinkFailed) else None
      ensures View() == if old(room) == 0 then old(View())
                        else Spec.Client(old(text) + delta, old(reasoning), old(room) - 1)
    {
      if room == 0 { return Some(Spec.SinkFailed); }
      text, room := text + delta, room - 1;
      return None;
    }

    method EmitReasoning(delta: string) returns (err: Option<Error>)
      requires delta != ""
      modifies this
      ensures err == if old(room) == 0 then Some(Spec.SinkFailed) else None
      ensures View() == if old(room) == 0 then old(View())
                        else Spec.Client(old(text), old(reasoning) + delta, old(room) - 1)
    {
      if room == 0 { return Some(Spec.SinkFailed); }
      reasoning, room := reasoning + delta, room - 1;
      return None;
    }
  }

  class TranscriptState {
    var lineCount: nat
    var steps: seq<Step>
    var activeAgentIndex: int
    var emittedText: string
    var emittedReasoning: string
    var messageIDs: seq<string>
    var finalAgent: Spec.Agent
    var patchValueCounts: map<nat, nat>
    var patchValueKinds: map<Key, Kind>
    var patchValueText: map<Key, string>
    ghost var shownText: seq<string>
    ghost var shownReasoning: seq<string>

    constructor ()
      ensures forall sink: Sink :: sink.View() == Spec.Client("", "", sink.room) ==>
                Now(sink, None) == Spec.Initial(sink.room)
    {
      lineCount, steps, activeAgentIndex := 0, [], -1;
      emittedText, emittedReasoning, messageIDs, finalAgent := "", "", [], Spec.NoAgent;
      patchValueCounts, patchValueKinds, patchValueText := map[], map[], map[];
      shownText, shownReasoning := [], [];
    }

    function View(): Spec.State reads this {
      Spec.State(lineCount, steps, activeAgentIndex, emittedText, emittedReasoning, messageIDs, finalAgent,
                 Table(patchValueCounts, patchValueKinds, patchValueText))
    }

    /** Transcript and client together, as the specification sees them. */
    ghost function Now(sink: Sink, err: Option<Error>): Spec.Run reads this, sink {
      Spec.Run(View(), sink.View(), err, shownText, shownReasoning)
    }

    // ---------- The value table ----------

    /** Shifts the later entries down by one, position by position. */
    method RemovePatchValueEntry(step: nat, index: nat)
      modifies this`patchValueCounts, this`patchValueKinds, this`patchValueText
      ensures View() == old(View()).(table := Remove(old(View()).table, step, index))
    {
      hide ShiftOut;
      var count := if step in patchValueCounts then patchValueCounts[step] else 0;
      if index >= count { return; }
      ShiftDown(step, index, count);
      patchValueCounts := patchValueCounts[step := count - 1];
    }

    /** The loop: every entry takes the place of the one before it, and the last key goes. */
    method ShiftDown(step: nat, index: nat, count: nat)
      requires index < count
      modifies this`patchValueKinds, this`patchValueText
      ensures patchValueKinds == ShiftOut(old(patchValueKinds), step, index, count)
      ensures patchValueText == ShiftOut(old(patchValueText), step, index, count)
    {
      hide Shifted, MoveEntry, ShiftOut;
      ShiftedNothing(patchValueKinds, step, index);
      ShiftedNothing(patchValueText, step, index);
      var idx := index;
      while idx < count - 1
        invariant index <= idx <= count - 1
        invariant Shifted(old(patchValueKinds), patchValueKinds, step, index, idx)
        invariant Shifted(old(patchValueText), patchValueText, step, index, idx)
      {
        var currentKey, nextKey := Key(step, idx), Key(step, idx + 1);
        ShiftedStep(old(patchValueKinds), patchValueKinds, step, index, idx);
        ShiftedStep(old(patchValueText), patchValueText, step, index, idx);
        patchValueKinds := MoveEntry(patchValueKinds, nextKey, currentKey);
        patchValueText := MoveEntry(patchValueText, nextKey, currentKey);
        idx := idx + 1;
      }
      var lastKey := Key(step, count - 1);
      ShiftedIsShiftOut(old(patchValueKinds), patchValueKinds, step, index, count);
      ShiftedIsShiftOut(old(patchValueText), patchValueText, step, index, count);
      patchValueKinds := patchValueKinds - {lastKey};
      patchValueText := patchValueText - {lastKey};
    }

    /** Collects the parts of both kinds and combines each list from left to right. */
    method ComposeStepAgentContent(step: nat) returns (content: Content)
      ensures content == Compose(Row(View().table, step))
    {
      var count := if step in patchValueCounts then patchValueCounts[step] else 0;
      ghost var row := Row(View().table, step);
      var textParts, reasoningParts := [], [];
      for valueIndex := 0 to count
        invariant textParts == Texts(row[..valueIndex], Text)
        invariant reasoningParts == Texts(row[..valueIndex], Reasoning)
      {
        assert row[..valueIndex + 1][..valueIndex] == row[..valueIndex];
        var entryKey := Key(step, valueIndex);
        var entryKind := Lookup(patchValueKinds, entryKey, Unknown);
        var entryText := Lookup(patchValueText, entryKey, "");
        assert row[valueIndex] == Part(entryKind, entryText);
        if entryKind != Unknown && entryText != "" {
          if entryKind == Text {
            textParts := textParts + [entryText];
          } else {
            reasoningParts := reasoningParts + [entryText];
          }
        }
      }
      assert row[..count] == row;
      var text := CombineInOrder(textParts);
      var reasoning := CombineInOrder(reasoningParts);
      content := Content(text, |textParts| > 0, reasoning, |reasoningParts| > 0);
    }

    method RegisterStepValueTypes(step: nat, parts: seq<Part>)
      modifies this`patchValueCounts, this`patchValueKinds, this`patchValueText
      ensures View() == old(View()).(table := Register(old(View()).table, step, parts))
    {
      hide MergeCumulative, TrimSpace;
      patchValueCounts := patchValueCounts[step := |parts|];
      ghost var start := View().table;
      for valueIndex := 0 to |parts|
        invariant View() == old(View()).(table := FillParts(start, step, parts[..valueIndex]))
      {
        assert parts[..valueIndex + 1][..valueIndex] == parts[..valueIndex];
        var part, entryKey := parts[valueIndex], Key(step, valueIndex);
        if part.kind != Unknown {
          patchValueKinds := patchValueKinds[entryKey := part.kind];
          patchValueText := MergeText(patchValueText, entryKey, part.content);
        }
      }
      assert parts[..|parts|] == parts;
    }

    // ---------- Emitting ----------

    method EmitFullText(raw: string, sink: Sink) returns (err: Option<Error>)
      modifies this`emittedText, this`finalAgent, this`shownText, sink
      ensures Now(sink, err) == Spec.EmitFullText(old(Now(sink, None)), raw)
    {
      hide Sanitize, DeltaSuffix;
      var fullText := SanitizeAssistantVisibleText(raw);
      var delta := TextDeltaSuffix(emittedText, fullText);
      if delta != "" {
        err := sink.EmitText(delta);
        if err.Some? { return; }
      }
      RememberText(fullText);
      return None;
    }

    method RememberText(fullText: string)
      modifies this`emittedText, this`finalAgent, this`shownText
      ensures shownText == old(shownText) + [fullText]
      ensures View() == old(View()).(emittedText := Spec.Remembered(old(emittedText), fullText),
                                     final := old(finalAgent).(messageID := Spec.ActiveID(old(View())),
                                                   text := fullText))
    {
      if fullText != "" || emittedText == "" { emittedText := fullText; }
      if 0 <= activeAgentIndex < |steps| && steps[activeAgentIndex].id != "" {
        finalAgent := finalAgent.(messageID := steps[activeAgentIndex].id);
      }
      finalAgent := finalAgent.(text := fullText);
      shownText := shownText + [fullText];
    }

    method EmitFullReasoning(raw: string, sink: Sink) returns (err: Option<Error>)
      modifies this`emittedReasoning, this`finalAgent, this`shownReasoning, sink
      ensures Now(sink, err) == Spec.EmitFullReasoning(old(Now(sink, None)), raw)
    {
      hide TrimSpace, DeltaSuffix;
      var fullReasoning := TrimSpace(raw);
      var delta := TextDeltaSuffix(emittedReasoning, fullReasoning);
      if delta != "" {
        err := sink.EmitReasoning(delta);
        if err.Some? { return; }
      }
      if fullReasoning != "" || emittedReasoning == "" { emittedReasoning := fullReasoning; }
      finalAgent := finalAgent.(reasoning := fullReasoning);
      shownReasoning := shownReasoning + [fullReasoning];
      return None;
    }

    method ComposeReasoningText() returns (reasoning: string)
      ensures reasoning == Spec.ComposeReasoning(View())
    {
      hide Sanitize, TrimSpace;
      var parts := [];
      for i := 0 to |steps|
        invariant parts == Spec.ReasoningParts(steps[..i])
      {
        assert steps[..i + 1][..i] == steps[..i];
        if TrimSpace(steps[i].reasoning) != "" {
          var clean := SanitizeAssistantVisibleText(steps[i].reasoning);
          parts := parts + [clean];
        }
      }
      assert steps[..|steps|] == steps;
      if |parts| > 0 { return Spec.Join(parts, "\n\n"); }
      reasoning := SanitizeAssistantVisibleText(finalAgent.reasoning);
    }

    /** Stores the reasoning of a step and shows the reasoning of all steps. */
    method ShowReasoning(i: nat, reasoning: string, sink: Sink) returns (err: Option<Error>)
      requires i < |steps|
      modifies this`steps, this`emittedReasoning, this`finalAgent, this`shownReasoning, sink
      ensures Now(sink, err) == Spec.ShowReasoning(old(Now(sink, None)), i, reasoning)
    {
      hide Spec.ComposeReasoning, Spec.EmitFullReasoning;
      steps := steps[i := steps[i].(reasoning := reasoning)];
      var all := ComposeReasoningText();
      err := EmitFullReasoning(all, sink);
    }

    method ShowText(i: nat, text: string, sink: Sink) returns (err: Option<Error>)
      requires i < |steps|
      modifies this`steps, this`emittedText, this`finalAgent, this`shownText, sink
      ensures Now(sink, err) == Spec.ShowText(old(Now(sink, None)), i, text)
    {
      hide Spec.EmitFullText;
      steps := steps[i := steps[i].(text := text)];
      err := EmitFullText(text, sink);
    }

    method RefreshAgentStepFromPatchState(i: nat, sink: Sink) returns (err: Option<Error>)
      requires i < |steps|
      modifies this, sink
      ensures Now(sink, err) == Spec.Refresh(old(Now(sink, None)), i)
    {
      hide Spec.ShowText, Spec.ShowReasoning, Compose, Row;
      var content := ComposeStepAgentContent(i);
      if !content.hasText && !content.hasReasoning { return None; }
      if content.hasReasoning {
        ghost var before := Now(sink, None);
        err := ShowReasoning(i, content.reasoning, sink);
        ShowKeepsSteps(before, i, content.reasoning);
        if err.Some? { return; }
      }
      if content.hasText {
        err := ShowText(i, content.text, sink);
        return;
      }
      return None;
    }

    // ---------- Patch operations ----------

    method AddNewStep(id: string, isAgent: bool, value: Spec.StepValue, sink: Sink) returns (err: Option<Error>)
      modifies this, sink
      ensures Now(sink, err) == Spec.AddNewStep(old(Now(sink, None)), id, isAgent, value)
    {
      hide Spec.EmitFullText, Spec.EmitFullReasoning, Spec.ComposeReasoning, Register;
      hide Spec.StepText, Spec.StepReasoning, TrimSpace;
      var step := Spec.Step(TrimSpace(id), isAgent, "", "", false);
      if isAgent {
        step := step.(text := Spec.StepText(value), reasoning := Spec.StepReasoning(value));
      }
      steps := steps + [step];
      RegisterStepValueTypes(|steps| - 1, Spec.ValueParts(value));
      if isAgent {
        activeAgentIndex := |steps| - 1;
        var reasoning := ComposeReasoningText();
        ghost var before := Now(sink, None);
        err := EmitFullReasoning(reasoning, sink);
        if err.Some? {
          ErrorSticks(Now(sink, err), step.text);
          return;
        }
        err := EmitFullText(step.text, sink);
        return;
      }
      return None;
    }

    method ApplyPatchOperation(op: Spec.PatchOp, sink: Sink) returns (err: Option<Error>)
      modifies this, sink
      ensures Now(sink, err) == Spec.ApplyPatch(old(Now(sink, None)), op)
    {
      hide Spec.Refresh, Spec.AddNewStep, Append, PatchContent, Remove, MergeText;
      if op.AddStep? {
        err := AddNewStep(op.id, op.isAgent, op.value, sink);
        return;
      }
      if !(0 <= op.step < |steps|) { return None; }
      var i := op.step;
      if op.AppendValue? {
        RegisterPatchValueAppend(i, op.part);
        if steps[i].isAgent {
          activeAgentIndex := i;
          err := RefreshAgentStepFromPatchState(i, sink);
          return;
        }
        return None;
      }
      if !steps[i].isAgent { return None; }
      activeAgentIndex := i;
      match op {
        case FinishStep(_, at) =>
          steps := steps[i := steps[i].(completed := true)];
          finalAgent := finalAgent.(completed := true, completedTime := at);
        case PatchType(_, index, kind) =>
          patchValueKinds := patchValueKinds[Key(i, index) := kind];
          err := RefreshAgentStepFromPatchState(i, sink);
          return;
        case PatchText(_, index, how, content) =>
          ApplyContentPatch(Key(i, index), how, content);
          err := RefreshAgentStepFromPatchState(i, sink);
          return;
        case RemoveValue(_, index) =>
          RemovePatchValueEntry(i, index);
          err := RefreshAgentStepFromPatchState(i, sink);
          return;
        case TouchStep(_) =>
      }
      return None;
    }

    method RegisterPatchValueAppend(step: nat, part: Part)
      modifies this`patchValueCounts, this`patchValueKinds, this`patchValueText
      ensures View() == old(View()).(table := Append(old(View()).table, step, part))
    {
      hide MergeText;
      if part.kind == Unknown { return; }
      var valueIndex := if step in patchValueCounts then patchValueCounts[step] else 0;
      patchValueCounts := patchValueCounts[step := valueIndex + 1];
      var entryKey := Key(step, valueIndex);
      patchValueKinds := patchValueKinds[entryKey := part.kind];
      patchValueText := MergeText(patchValueText, entryKey, part.content);
    }

    method ApplyContentPatch(entryKey: Key, how: PatchKind, content: string)
      modifies this`patchValueText
      ensures View() == old(View()).(table := PatchContent(old(View()).table, entryKey, how, content))
    {
      hide ApplyContent;
      if content != "" {
        patchValueText := patchValueText[entryKey := ApplyContent(Lookup(patchValueText, entryKey, ""), how, content)];
      }
    }

    // ---------- Whole lines ----------

    method EnsureAgentStep(id: string) returns (index: nat)
      modifies this`steps
      ensures index == Spec.FindStep(old(steps), id) < |steps|
      ensures steps == if index < |old(steps)| then old(steps) else old(steps) + [Spec.Step(id, true, "", "", false)]
    {
      for i := 0 to |steps|
        invariant forall j | 0 <= j < i :: steps[j].id != id
      {
        if steps[i].id == id { return i; }
      }
      index := |steps|;
      steps := steps + [Spec.Step(id, true, "", "", false)];
    }

    method MergeEventValueIntoPatchState(step: nat, index: nat, part: Part)
      modifies this`patchValueCounts, this`patchValueKinds, this`patchValueText
      ensures View() == old(View()).(table := MergeEvent(old(View()).table, step, index, part))
    {
      hide MergeText;
      if part.kind == Unknown { return; }
      if (if step in patchValueCounts then patchValueCounts[step] else 0) <= index {
        patchValueCounts := patchValueCounts[step := index + 1];
      }
      patchValueKinds := patchValueKinds[Key(step, index) := part.kind];
      patchValueText := MergeText(patchValueText, Key(step, index), part.content);
    }

    /** One entry of an inference line. */
    method MergeOneValue(i: nat, index: nat, value: Part, sink: Sink) returns (err: Option<Error>)
      requires i < |steps|
      modifies this, sink
      ensures Now(sink, err) == Spec.MergeValue(old(Now(sink, None)), i, index, value)
    {
      hide Spec.ShowText, Spec.ShowReasoning, MergeCumulative, MergeEvent;
      MergeEventValueIntoPatchState(i, index, value);
      match value.kind {
        case Reasoning =>
          err := ShowReasoning(i, MergeCumulative(steps[i].reasoning, value.content), sink);
        case Text =>
          err := ShowText(i, MergeCumulative(steps[i].text, value.content), sink);
        case Unknown =>
          return None;
      }
    }

    method MergeAllValues(index: nat, values: seq<Part>, sink: Sink) returns (err: Option<Error>)
      requires index < |steps|
      modifies this, sink
      ensures Now(sink, err) == Spec.MergeValues(old(Now(sink, None)), index, values)
    {
      hide Spec.MergeValue;
      ghost var start := Now(sink, None);
      err := None;
      for valueIndex := 0 to |values|
        invariant |steps| == |start.s.steps| && err.None?
        invariant Now(sink, err) == Spec.MergeValues(start, index, values[..valueIndex])
      {
        assert values[..valueIndex + 1][..valueIndex] == values[..valueIndex];
        err := MergeOneValue(index, valueIndex, values[valueIndex], sink);
        assert Now(sink, err) == Spec.MergeValues(start, index, values[..valueIndex + 1]);
        if err.Some? {
          ErrorEndsMerge(start, index, values, valueIndex + 1);
          return;
        }
      }
      assert values[..|values|] == values;
    }

    method MergeAgentInferenceEvent(id: string, values: seq<Part>, finishedAt: Option<string>, sink: Sink)
      returns (err: Option<Error>)
      modifies this, sink
      ensures Now(sink, err) == Spec.MergeInference(old(Now(sink, None)), id, values, finishedAt)
    {
      hide Spec.MergeValues, TrimSpace, Spec.MergeInference;
      ghost var before := Now(sink, None);
      var index := EnsureAgentStep(TrimSpace(id));
      activeAgentIndex := index;
      if steps[index].id != "" { finalAgent := finalAgent.(messageID := steps[index].id); }
      ghost var named := Now(sink, None);
      InferenceUnfold(before, named, id, index, values, finishedAt);
      err := MergeAllValues(index, values, sink);
      if err.Some? { return; }
      if finishedAt.Some? {
        steps := steps[index := steps[index].(completed := true)];
        finalAgent := finalAgent.(completed := true, completedTime := finishedAt.value);
      }
    }

    /** Which reasoning the final record leaves: that of the steps, unless the record has more. */
    method SettleReasoning(agent: Spec.Agent) returns (reasoningText: string)
      ensures reasoningText == Spec.FinalReasoning(View(), agent)
    {
      hide Spec.ComposeReasoning, Sanitize, TrimSpace;
      reasoningText := ComposeReasoningText();
      var agentReasoning := SanitizeAssistantVisibleText(agent.reasoning);
      if TrimSpace(reasoningText) == "" || |agentReasoning| > |reasoningText| { reasoningText := agentReasoning; }
      if TrimSpace(reasoningText) == "" { reasoningText := agent.reasoning; }
    }

    method MergeFinalAgent(agent: Spec.Agent, sink: Sink) returns (err: Option<Error>)
      modifies this, sink
      ensures Now(sink, err) == Spec.MergeFinal(old(Now(sink, None)), agent)
    {
      hide Spec.EmitFullText, Spec.EmitFullReasoning, Spec.FinalReasoning, TrimSpace;
      if agent.messageID != "" { finalAgent := finalAgent.(messageID := agent.messageID); }
      finalAgent := finalAgent.(completed := agent.completed, completedTime := agent.completedTime);
      var reasoningText := SettleReasoning(agent);
      if TrimSpace(reasoningText) != "" {
        finalAgent := finalAgent.(reasoning := reasoningText);
        EmitKeepsCompletion(Now(sink, None), reasoningText);
        err := EmitFullReasoning(reasoningText, sink);
        if err.Some? {
          ErrorSticks(Now(sink, err), agent.text);
          return;
        }
      }
      if TrimSpace(agent.text) == "" { return None; }
      ghost var reasoned := Now(sink, None);
      err := EmitFullText(agent.text, sink);
      EmitKeepsCompletion(reasoned, agent.text);
      if err.Some? { return; }
      finalAgent := finalAgent.(completed := agent.completed, completedTime := agent.completedTime);
    }

    method HandleLine(line: Spec.Line, sink: Sink) returns (err: Option<Error>)
      modifies this, sink
      ensures Now(sink, err) == Spec.HandleLine(old(Now(sink, None)), line)
    {
      hide Spec.ApplyPatch, Spec.MergeInference, Spec.MergeFinal;
      if line.Blank? { return None; }
      if line.Malformed? { return Some(Spec.BadLine); }
      lineCount := lineCount + 1;
      match line {
        case Patch(ops) =>
          ghost var counted := Now(sink, None);
          for i := 0 to |ops|
            invariant Now(sink, None) == Spec.ApplyPatches(counted, ops[..i])
          {
            assert ops[..i + 1][..i] == ops[..i];
            err := ApplyPatchOperation(ops[i], sink);
            assert Now(sink, err) == Spec.ApplyPatches(counted, ops[..i + 1]);
            if err.Some? {
              ErrorEndsPatches(counted, ops, i + 1);
              return;
            }
          }
          assert ops[..|ops|] == ops;
        case Inference(id, values, finishedAt) =>
          err := MergeAgentInferenceEvent(id, values, finishedAt, sink);
          return;
        case RecordMap(ids, outcome) =>
          if |ids| > 0 { messageIDs := ids; }
          match outcome {
            case StepError(message) => return Some(Spec.UpstreamError(message));
            case FinalAgent(agent) =>
              err := MergeFinalAgent(agent, sink);
              return;
            case NoOutcome =>
          }
        case _ =>
      }
      return None;
    }

    method ResultOf() returns (out: Spec.ParseResult)
      ensures out == Spec.Result(View())
    {
      hide Spec.ComposeReasoning, TrimSpace;
      var reasoning := ComposeReasoningText();
      out := Spec.ParseResult(lineCount, messageIDs, finalAgent, reasoning);
      if TrimSpace(out.final.text) == "" { out := out.(final := out.final.(text := emittedText)); }
      if TrimSpace(out.reasoning) != "" {
        out := out.(final := out.final.(reasoning := out.reasoning));
      } else if TrimSpace(out.final.reasoning) == "" {
        out := out.(final := out.final.(reasoning := out.reasoning));
      }
      if out.final.messageID == "" && 0 <= activeAgentIndex < |steps| {
        out := out.(final := out.final.(messageID := steps[activeAgentIndex].id));
      }
      if |out.messageIDs| == 0 && out.final.messageID != "" {
        out := out.(messageIDs := [out.final.messageID]);
      }
    }
  }

  method CombineInOrder(parts: seq<string>) returns (text: string)
    ensures text == CombineAll(parts)
  {
    text := "";
    for i := 0 to |parts|
      invariant text == CombineAll(parts[..i])
    {
      assert parts[..i + 1][..i] == parts[..i];
      text := CombineParts(text, parts[i]);
    }
    assert parts[..|parts|] == parts;
  }

  // ---------- Lemmas about the specification ----------

  /** Positions `index` up to `idx` hold what stood one higher; everything else is as it was. */
  ghost predicate Shifted<V>(m: map<Key, V>, u: map<Key, V>, step: nat, index: nat, idx: nat) {
    forall k: Key :: ShiftedAt(m, u, step, index, idx, k)
  }

  ghost predicate ShiftedAt<V>(m: map<Key, V>, u: map<Key, V>, step: nat, index: nat, idx: nat, k: Key) {
    var src := if k.step == step && index <= k.index < idx then Key(step, k.index + 1) else k;
    (k in u <==> src in m) && (k in u ==> u[k] == m[src])
  }

  /** Overwrites one entry with another, present or not. */
  function MoveEntry<V>(m: map<Key, V>, from: Key, to: Key): map<Key, V> {
    if from in m then m[to := m[from]] else m - {to}
  }

  lemma ShiftedNothing<V>(m: map<Key, V>, step: nat, index: nat)
    ensures Shifted(m, m, step, index, index)
  {
  }

  lemma ShiftedStep<V>(m: map<Key, V>, u: map<Key, V>, step: nat, index: nat, idx: nat)
    requires index <= idx && Shifted(m, u, step, index, idx)
    ensures Shifted(m, MoveEntry(u, Key(step, idx + 1), Key(step, idx)), step, index, idx + 1)
  {
    var next, current := Key(step, idx + 1), Key(step, idx);
    var w := MoveEntry(u, next, current);
    assert ShiftedAt(m, u, step, index, idx, next);
    var done := idx + 1;
    forall k: Key ensures ShiftedAt(m, w, step, index, done, k) {
      assert ShiftedAt(m, u, step, index, idx, k);
    }
  }

  lemma ShiftedIsShiftOut<V>(m: map<Key, V>, u: map<Key, V>, step: nat, index: nat, count: nat)
    requires index < count && Shifted(m, u, step, index, count - 1)
    ensures u - {Key(step, count - 1)} == ShiftOut(m, step, index, count)
  {
    var r, w := ShiftOut(m, step, index, count), u - {Key(step, count - 1)};
    forall k: Key ensures (k in w <==> k in r) && (k in w ==> w[k] == r[k]) {
      ShiftOutAt(m, step, index, count, k);
      assert ShiftedAt(m, u, step, index, count - 1, k);
    }
  }

  lemma ErrorSticks(r: Spec.Run, raw: string)
    requires r.err.Some?
    ensures Spec.EmitFullText(r, raw) == r
  {
  }

  lemma ShowKeepsSteps(r: Spec.Run, i: nat, reasoning: string)
    requires i < |r.s.steps|
    ensures |Spec.ShowReasoning(r, i, reasoning).s.steps| == |r.s.steps|
  {
    hide TrimSpace, Spec.ComposeReasoning;
  }

  lemma EmitKeepsCompletion(r: Spec.Run, raw: string)
    ensures var next := Spec.EmitFullText(r, raw);
            next.s.final.completed == r.s.final.completed && next.s.final.completedTime == r.s.final.completedTime
    ensures var next := Spec.EmitFullReasoning(r, raw);
            next.s.final.completed == r.s.final.completed && next.s.final.completedTime == r.s.final.completedTime
  {
    hide Sanitize, TrimSpace;
  }

  lemma {:induction false} ErrorEndsMerge(r: Spec.Run, i: nat, values: seq<Part>, k: nat)
    requires i < |r.s.steps| && k <= |values| && Spec.MergeValues(r, i, values[..k]).err.Some?
    ensures Spec.MergeValues(r, i, values) == Spec.MergeValues(r, i, values[..k])
    decreases |values|
  {
    if k == |values| {
      assert values[..k] == values;
    } else {
      var n := |values| - 1;
      assert values[..n][..k] == values[..k];
      ErrorEndsMerge(r, i, values[..n], k);
    }
  }

  lemma {:induction false} ErrorEndsPatches(r: Spec.Run, ops: seq<Spec.PatchOp>, k: nat)
    requires k <= |ops| && Spec.ApplyPatches(r, ops[..k]).err.Some?
    ensures Spec.ApplyPatches(r, ops) == Spec.ApplyPatches(r, ops[..k])
    decreases |ops|
  {
    hide Spec.ApplyPatch;
    if k == |ops| {
      assert ops[..k] == ops;
    } else {
      var n := |ops| - 1;
      ErrorEndsPatch(Spec.ApplyPatches(r, ops[..k]), ops[n]);
      assert ops[..n][..k] == ops[..k];
      ErrorEndsPatches(r, ops[..n], k);
    }
  }

  lemma ErrorEndsPatch(r: Spec.Run, op: Spec.PatchOp)
    requires r.err.Some?
    ensures Spec.ApplyPatch(r, op) == r
  {}

  lemma InferenceUnfold(before: Spec.Run, named: Spec.Run, id: string, i: nat,
      values: seq<Part>, finishedAt: Option<string>)
    requires before.err.None? && i == Spec.FindStep(before.s.steps, TrimSpace(id))
    requires i < |named.s.steps|
    requires var steps := if i < |before.s.steps| then before.s.steps
                          else before.s.steps + [Spec.Step(TrimSpace(id), true, "", "", false)];
             var found := before.(s := before.s.(steps := steps, active := i));
             named == if steps[i].id == "" then found
                      else found.(s := found.s.(final := before.s.final.(messageID := steps[i].id)))
    ensures var merged := Spec.MergeValues(named, i, values);
            Spec.MergeInference(before, id, values, finishedAt) ==
              if merged.err.Some? || finishedAt.None? then merged
              else merged.(s := merged.s.(steps := merged.s.steps[i := merged.s.steps[i].(completed := true)],
                                          final := merged.s.final.(completed := true,
                                                   completedTime := finishedAt.value)))
  {
    hide TrimSpace, Spec.MergeValues;
  }
}
