/** Cumulative events: upstream repeats the text from its beginning, and what has been shown only grows. */
module Cumulative {
  import opened Wrappers
  import opened Strings
  import opened Sanitizer
  import opened Deltas
  import opened PatchTable
  import opened TranscriptSpec
  import opened Streaming
  import opened ReasoningStream

  /** One `agent-inference` line with a single value. */
  datatype Event = Event(part: Part, finishedAt: Option<string>)

  function Lines(id: string, events: seq<Event>): seq<Line> {
    if events == [] then []
    else
      var last := events[|events| - 1];
      Lines(id, events[..|events| - 1]) + [Inference(id, [last.part], last.finishedAt)]
  }

  /** The longest visible form among the values of a kind. */
  function LongestVisible(events: seq<Event>, kind: Kind): string {
    if events == [] then ""
    else
      var before, last := LongestVisible(events[..|events| - 1], kind), events[|events| - 1].part;
      if last.kind == kind && |Sanitize(last.content)| > |before| then Sanitize(last.content) else before
  }

  /** Which of two texts stays: the one that shows more, the earlier one if they show the same, and if neither shows
      anything the new one unless the earlier begins with it. */
  function Stays(earlier: string, later: string): string {
    if |Sanitize(later)| > |Sanitize(earlier)| then later
    else if |Sanitize(earlier)| > 0 || later <= earlier then earlier
    else later
  }

  /** What the step holds of a kind. */
  function Held(events: seq<Event>, kind: Kind): string {
    if events == [] then ""
    else
      var before, last := Held(events[..|events| - 1], kind), events[|events| - 1].part;
      if last.kind == kind then Stays(before, last.content) else before
  }

  /** All values of a kind show a beginning of the same text. */
  predicate ShowBeginnings(events: seq<Event>, kind: Kind, whole: string) {
    forall e | e in events && e.part.kind == kind :: Sanitize(e.part.content) <= whole
  }

  lemma MergedStays(earlier: string, later: string, whole: string)
    requires Sanitize(earlier) <= whole && Sanitize(later) <= whole
    ensures MergeCumulative(earlier, later) == Stays(earlier, later)
  {
    hide Sanitize;
    SanitizeEmpty();
  }

  lemma {:induction false} HeldShowsLongest(events: seq<Event>, kind: Kind, whole: string)
    requires ShowBeginnings(events, kind, whole)
    ensures Sanitize(Held(events, kind)) == LongestVisible(events, kind) <= whole
  {
    hide Sanitize;
    SanitizeEmpty();
    if events != [] {
      HeldShowsLongest(events[..|events| - 1], kind, whole);
    }
  }

  /** The one step holds these texts, and the client has received what they show. */
  predicate Holds(r: Run, id: string, text: string, reasoning: string) {
    && r.err.None?
    && (if |r.s.steps| == 0 then text == reasoning == ""
        else |r.s.steps| == 1 && r.s.steps[0].id == TrimSpace(id)
             && r.s.steps[0].text == text && r.s.steps[0].reasoning == reasoning)
    && r.client.text == r.s.emittedText == r.s.final.text == Sanitize(text)
    && r.client.reasoning == r.s.emittedReasoning == r.s.final.reasoning == Sanitize(reasoning)
  }

  lemma TextShown(r: Run, id: string, text: string, reasoning: string, later: string)
    requires Holds(r, id, text, reasoning) && |r.s.steps| == 1 && Sanitize(text) <= Sanitize(later)
    ensures var next := ShowText(r, 0, later); next.err.None? ==> Holds(next, id, later, reasoning)
  {
    hide Sanitize, DeltaSuffix, TrimSpace;
    DeltaOfExtension(Sanitize(text), Sanitize(later));
  }

  lemma ReasoningShown(r: Run, id: string, text: string, reasoning: string, later: string)
    requires Holds(r, id, text, reasoning) && |r.s.steps| == 1 && Sanitize(reasoning) <= Sanitize(later)
    ensures var next := ShowReasoning(r, 0, later); next.err.None? ==> Holds(next, id, text, later)
  {
    hide Sanitize, DeltaSuffix, TrimSpace, ComposeReasoning;
    OneStepComposed(SetReasoning(r, 0, later).s, later);
    TrimSpaceOfTrimmed(Sanitize(later));
    DeltaOfExtension(Sanitize(reasoning), Sanitize(later));
  }

  lemma MoreShows(earlier: string, later: string, whole: string)
    requires Sanitize(earlier) <= whole && Sanitize(later) <= whole
    ensures Sanitize(earlier) <= Sanitize(Stays(earlier, later)) <= whole
  {
    hide Sanitize;
  }

  function TextAfter(text: string, part: Part, kind: Kind): string {
    if part.kind == kind then Stays(text, part.content) else text
  }

  lemma ValueMerged(r: Run, id: string, text: string, reasoning: string, part: Part, whole: string, thought: string)
    requires Holds(r, id, text, reasoning) && |r.s.steps| == 1
    requires Sanitize(text) <= whole && Sanitize(reasoning) <= thought
    requires part.kind == Text ==> Sanitize(part.content) <= whole
    requires part.kind == Reasoning ==> Sanitize(part.content) <= thought
    ensures var next := MergeValue(r, 0, 0, part);
      next.err.None? ==> Holds(next, id, TextAfter(text, part, Text), TextAfter(reasoning, part, Reasoning))
  {
    hide Sanitize, ShowText, ShowReasoning, MergeCumulative, MergeEvent, Stays;
    var merged := WithTable(r, MergeEvent(r.s.table, 0, 0, part));
    match part.kind
    case Text =>
      MergedStays(text, part.content, whole);
      MoreShows(text, part.content, whole);
      TextShown(merged, id, text, reasoning, Stays(text, part.content));
    case Reasoning =>
      MergedStays(reasoning, part.content, thought);
      MoreShows(reasoning, part.content, thought);
      ReasoningShown(merged, id, text, reasoning, Stays(reasoning, part.content));
    case Unknown =>
  }

  /** The transcript once the step is found or made, before the value is merged. */
  function Found(r: Run, id: string): Run {
    var counted := r.(s := r.s.(lineCount := r.s.lineCount + 1));
    var steps := if |r.s.steps| == 0 then [Step(TrimSpace(id), true, "", "", false)] else r.s.steps;
    var found := counted.(s := counted.s.(steps := steps, active := 0));
    if steps[0].id != "" then found.(s := found.s.(final := r.s.final.(messageID := steps[0].id))) else found
  }

  function Finished(r: Run, finishedAt: Option<string>): Run
    requires |r.s.steps| > 0
  {
    if r.err.Some? || finishedAt.None? then r
    else r.(s := r.s.(steps := r.s.steps[0 := r.s.steps[0].(completed := true)],
                      final := r.s.final.(completed := true, completedTime := finishedAt.value)))
  }

  lemma LineIsOneMerge(r: Run, id: string, text: string, reasoning: string, e: Event)
    requires Holds(r, id, text, reasoning)
    ensures |Found(r, id).s.steps| == 1 && Holds(Found(r, id), id, text, reasoning)
    ensures var merged := MergeValue(Found(r, id), 0, 0, e.part);
      |merged.s.steps| == 1
      && HandleLine(r, Inference(id, [e.part], e.finishedAt)) == Finished(merged, e.finishedAt)
  {
    hide Sanitize, MergeValue, TrimSpace;
    var counted := r.(s := r.s.(lineCount := r.s.lineCount + 1));
    var found := Found(r, id);
    assert FindStep(r.s.steps, TrimSpace(id)) == 0;
    assert [] + [Step(TrimSpace(id), true, "", "", false)] == [Step(TrimSpace(id), true, "", "", false)];
    assert [e.part][..0] == [] && MergeValues(found, 0, []) == found;
    assert MergeValues(found, 0, [e.part]) == MergeValue(found, 0, 0, e.part);
    assert HandleLine(r, Inference(id, [e.part], e.finishedAt)) == MergeInference(counted, id, [e.part], e.finishedAt);
  }

  lemma LineMerged(r: Run, id: string, text: string, reasoning: string, e: Event, whole: string, thought: string)
    requires Holds(r, id, text, reasoning)
    requires Sanitize(text) <= whole && Sanitize(reasoning) <= thought
    requires ShowBeginnings([e], Text, whole) && ShowBeginnings([e], Reasoning, thought)
    ensures var next := HandleLine(r, Inference(id, [e.part], e.finishedAt));
      next.err.None? ==>
        && Holds(next, id, TextAfter(text, e.part, Text), TextAfter(reasoning, e.part, Reasoning))
        && |next.s.steps| == 1
  {
    hide Sanitize, MergeValue, TrimSpace, Stays, HandleLine, Found;
    assert e in [e];
    LineIsOneMerge(r, id, text, reasoning, e);
    ValueMerged(Found(r, id), id, text, reasoning, e.part, whole, thought);
  }

  lemma {:induction false} LinesMerged(room: nat, id: string, events: seq<Event>, whole: string, thought: string)
    requires ShowBeginnings(events, Text, whole) && ShowBeginnings(events, Reasoning, thought)
    ensures var r := HandleLines(Initial(room), Lines(id, events));
      r.err.None? ==> Holds(r, id, Held(events, Text), Held(events, Reasoning)) && (events != [] ==> |r.s.steps| == 1)
  {
    hide Sanitize, HandleLine, Stays;
    if events == [] {
      SanitizeEmpty();
    } else {
      hide Holds;
      var front, last := events[..|events| - 1], events[|events| - 1];
      var lines := Lines(id, events);
      LinesMerged(room, id, front, whole, thought);
      HeldShowsLongest(front, Text, whole);
      HeldShowsLongest(front, Reasoning, thought);
      assert lines[..|lines| - 1] == Lines(id, front);
      var before := HandleLines(Initial(room), Lines(id, front));
      assert last in events;
      if before.err.None? {
        LineMerged(before, id, Held(front, Text), Held(front, Reasoning), last, whole, thought);
      } else {
        FailedStays(before, Inference(id, [last.part], last.finishedAt));
      }
    }
  }

  lemma FailedStays(r: Run, line: Line)
    requires r.err.Some?
    ensures HandleLine(r, line) == r
  {}

  /** Upstream sends one step, line by line, by single values that all show a beginning of the same text and of the
      same reasoning: longer, repeated or late ones, finished or not. If no write failed, client and result have the
      longest visible form sent, and the step holds the first value that shows it. */
  lemma CumulativeLinesDeliver(room: nat, id: string, events: seq<Event>, whole: string, thought: string)
    requires ShowBeginnings(events, Text, whole) && ShowBeginnings(events, Reasoning, thought)
    ensures var r := HandleLines(Initial(room), Lines(id, events));
      r.err.None? ==>
        && r.client.text == Result(r.s).final.text == LongestVisible(events, Text)
        && r.client.reasoning == Result(r.s).final.reasoning == LongestVisible(events, Reasoning)
        && (events != [] ==> |r.s.steps| == 1 && r.s.steps[0].text == Held(events, Text)
                             && r.s.steps[0].reasoning == Held(events, Reasoning))
  {
    hide Sanitize, HandleLines, Initial, Held, LongestVisible, ShowBeginnings, ComposeReasoning, TrimSpace;
    LinesMerged(room, id, events, whole, thought);
    HeldShowsLongest(events, Text, whole);
    HeldShowsLongest(events, Reasoning, thought);
    var r := HandleLines(Initial(room), Lines(id, events));
    TrimSpaceOfTrimmed("");
    if r.err.None? { HoldsResult(r, id, Held(events, Text), Held(events, Reasoning)); }
  }

  lemma HoldsResult(r: Run, id: string, text: string, reasoning: string)
    requires Holds(r, id, text, reasoning)
    ensures Result(r.s).final.text == Sanitize(text) && Result(r.s).final.reasoning == Sanitize(reasoning)
  {
    hide Sanitize, TrimSpace, ComposeReasoning;
    TrimSpaceOfTrimmed("");
    TrimSpaceOfTrimmed(Sanitize(text));
    TrimSpaceOfTrimmed(Sanitize(reasoning));
    if |r.s.steps| == 1 { OneStepComposed(r.s, reasoning); } else { NoStepComposed(r.s); }
  }

  lemma NoStepComposed(s: State)
    requires s.steps == [] && s.final.reasoning == Sanitize("")
    ensures ComposeReasoning(s) == ""
  {
    hide Sanitize;
    SanitizeEmpty();
  }

  /** A text that neither continues nor begins what is there, visibly or as sent, takes its place. */
  lemma OtherTextReplaces(earlier: string, later: string)
    requires !(Sanitize(earlier) <= Sanitize(later)) && !(Sanitize(later) <= Sanitize(earlier)) && !(later <= earlier)
    ensures MergeCumulative(earlier, later) == later
  {
    hide Sanitize;
  }
}
