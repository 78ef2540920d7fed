/** Streaming refines one-shot sanitising: a client that receives deltas ends up with exactly the
    sanitised final entry text. */
module Streaming {
  import opened Strings
  import opened Sanitizer
  import opened Deltas
  import opened PatchTable
  import opened TranscriptSpec
  import LangTags

  /** Step `i` is an agent step whose only text entry is entry `j`; the client has seen that text. */
  predicate InStep(r: Run, i: nat, j: nat, entry: string) {
    && r.err.None? && i < |r.s.steps| && r.s.steps[i].isAgent
    && OnlyText(Row(r.s.table, i), j, entry)
    && r.client.text == r.s.emittedText == Sanitize(entry)
  }

  predicate OnlyText(row: seq<Part>, j: nat, entry: string) {
    && j < |row| && row[j] == Part(Text, entry)
    && forall k | 0 <= k < |row| :: k != j ==> row[k].kind != Text
  }

  function TextPatches(i: nat, j: nat, deltas: seq<string>): seq<PatchOp> {
    if deltas == [] then []
    else TextPatches(i, j, deltas[..|deltas| - 1]) + [PatchText(i, j, Extend, deltas[|deltas| - 1])]
  }

  /** The entry text after a run of "x" patches. */
  function EntryAfter(entry: string, deltas: seq<string>): string {
    if deltas == [] then entry else AppendDelta(EntryAfter(entry, deltas[..|deltas| - 1]), deltas[|deltas| - 1])
  }

  lemma PatchedRow(t: Table, i: nat, j: nat, entry: string, delta: string)
    requires OnlyText(Row(t, i), j, entry)
    ensures OnlyText(Row(PatchContent(t, Key(i, j), Extend, delta), i), j, AppendDelta(entry, delta))
  {
    hide AppendDelta, PatchContent;
    PatchChangesOne(t, i, j, Extend, delta);
    assert AppendDelta(entry, "") == entry by { AppendNothing(entry); }
  }

  lemma AppendNothing(entry: string)
    ensures AppendDelta(entry, "") == entry
  {
  }

  /** Refreshing shows the entry: the channel moves by one emission of its sanitised text, if it has any. */
  lemma RefreshShowsEntry(r: Run, i: nat, j: nat, entry: string)
    requires r.err.None? && i < |r.s.steps| && OnlyText(Row(r.s.table, i), j, entry)
    ensures var next := Refresh(r, i);
            next.err.None? ==>
              next.s.table == r.s.table && |next.s.steps| == |r.s.steps|
              && next.s.steps[i].isAgent == r.s.steps[i].isAgent
              && Channel(next.client.text, next.s.emittedText)
                 == (if entry == "" then Channel(r.client.text, r.s.emittedText)
                     else Emit(Channel(r.client.text, r.s.emittedText), Sanitize(entry)))
  {
    hide Sanitize, ComposeReasoning, Compose, Row, DeltaSuffix, TrimSpace;
    ComposeSingleText(Row(r.s.table, i), j);
  }

  /** One "x" patch keeps client, transcript and entry in step. */
  lemma StreamStep(r: Run, i: nat, j: nat, entry: string, delta: string)
    requires InStep(r, i, j, entry) && TagFree(AppendDelta(entry, delta))
    ensures var next := ApplyPatch(r, PatchText(i, j, Extend, delta));
            next.err.None? ==> InStep(next, i, j, AppendDelta(entry, delta)) && r.client.text <= next.client.text
  {
    hide Sanitize, Refresh, PatchContent, AppendDelta, Row, TagFree, DeltaSuffix;
    var next := ApplyPatch(r, PatchText(i, j, Extend, delta));
    var patched := WithTable(WithActive(r, i), PatchContent(r.s.table, Key(i, j), Extend, delta));
    var after := AppendDelta(entry, delta);
    assert next == Refresh(patched, i);
    PatchedRow(r.s.table, i, j, entry, delta);
    RefreshShowsEntry(patched, i, j, after);
    AppendDeltaGrows(entry, delta);
    DeltaOfExtension(Sanitize(entry), Sanitize(after));
    SanitizeEmpty();
  }

  lemma SanitizeEmpty()
    ensures Sanitize("") == ""
  {
    hide TagFree, Sanitize, TrimSpace, CitationCut;
    NoAngleIsTagFree("");
    SanitizeTagFree("");
    TrimSpaceOfTrimmed("");
  }

  /** For every run of "x" patches to the one text entry that never assembles a language tag, and whose
      writes succeed: the visible text only grows, and the client holds the sanitised entry text. */
  lemma {:induction false} StreamRefinesOneShot(r: Run, i: nat, j: nat, entry: string, deltas: seq<string>)
    requires InStep(r, i, j, entry)
    requires forall k | 0 <= k <= |deltas| :: TagFree(EntryAfter(entry, deltas[..k]))
    ensures var next := ApplyPatches(r, TextPatches(i, j, deltas));
            next.err.None? ==>
              InStep(next, i, j, EntryAfter(entry, deltas)) && r.client.text <= next.client.text
    decreases |deltas|
  {
    hide TagFree, ApplyPatch, InStep, AppendDelta;
    if deltas == [] {
      assert TextPatches(i, j, deltas) == [];
    } else {
      var n := |deltas| - 1;
      var front := deltas[..n];
      forall k | 0 <= k <= n ensures TagFree(EntryAfter(entry, front[..k])) {
        assert front[..k] == deltas[..k];
      }
      StreamRefinesOneShot(r, i, j, entry, front);
      var ops := TextPatches(i, j, deltas);
      assert ops[..|ops| - 1] == TextPatches(i, j, front);
      var mid := ApplyPatches(r, TextPatches(i, j, front));
      assert TagFree(EntryAfter(entry, deltas[..|deltas|])) && deltas[..|deltas|] == deltas;
      if mid.err.None? {
        StreamStep(mid, i, j, EntryAfter(entry, front), deltas[n]);
      } else {
        ErrorStays(mid, ops[|ops| - 1]);
      }
    }
  }

  lemma ErrorStays(r: Run, op: PatchOp)
    requires r.err.Some?
    ensures ApplyPatch(r, op) == r
  {
  }

  /** Deltas without `<` never assemble a tag, whatever the suffix dropping does. */
  lemma {:induction false} NoAngleEntries(entry: string, deltas: seq<string>)
    requires '<' !in entry && forall d | d in deltas :: '<' !in d
    ensures '<' !in EntryAfter(entry, deltas)
  {
    hide AppendDelta;
    if deltas != [] {
      NoAngleEntries(entry, deltas[..|deltas| - 1]);
      AppendDeltaKeepsOutAngles(EntryAfter(entry, deltas[..|deltas| - 1]), deltas[|deltas| - 1]);
    }
  }

  /** From an empty transcript: an agent step with an empty text part, then any "x" patches without `<`.
      If no write failed, the client received exactly the sanitised text, and the result carries it. */
  lemma FreshStreamDeliversResult(room: nat, id: string, deltas: seq<string>)
    requires forall d | d in deltas :: '<' !in d
    ensures var start := ApplyPatch(Initial(room), AddStep(id, true, Parts([Part(Text, "")])));
            var r := ApplyPatches(start, TextPatches(0, 0, deltas));
            r.err.None? ==> r.client.text == Result(r.s).final.text == Sanitize(EntryAfter("", deltas))
  {
    hide Sanitize, ApplyPatches, Result, Sound, InStep, TagFree, EntryAfter;
    var start := ApplyPatch(Initial(room), AddStep(id, true, Parts([Part(Text, "")])));
    var r := ApplyPatches(start, TextPatches(0, 0, deltas));
    FreshStep(room, id);
    forall k | 0 <= k <= |deltas| ensures TagFree(EntryAfter("", deltas[..k])) {
      NoAngleEntries("", deltas[..k]);
      NoAngleIsTagFree(EntryAfter("", deltas[..k]));
    }
    StreamRefinesOneShot(start, 0, 0, "", deltas);
    InitialSound(room);
    ApplyPatchEvolves(Initial(room), AddStep(id, true, Parts([Part(Text, "")])));
    ApplyPatchesEvolves(start, TextPatches(0, 0, deltas));
    ResultOfSound(r);
    if r.err.None? { InStepText(r, 0, 0, EntryAfter("", deltas)); }
  }

  lemma InStepText(r: Run, i: nat, j: nat, entry: string)
    requires InStep(r, i, j, entry)
    ensures r.client.text == r.s.emittedText == Sanitize(entry)
  {
    hide Sanitize, Row;
  }

  lemma FreshStep(room: nat, id: string)
    ensures InStep(ApplyPatch(Initial(room), AddStep(id, true, Parts([Part(Text, "")]))), 0, 0, "")
  {
    hide AddNewStep, Sanitize, Register, Row;
    SanitizeEmpty();
    FreshAdd(room, id);
    FreshRow();
  }

  lemma FreshRow()
    ensures OnlyText(Row(Register(InitialState.table, 0, [Part(Text, "")]), 0), 0, "")
  {
    hide Register, Row;
    RegisterStartsRow(InitialState.table, 0, [Part(Text, "")]);
  }

  lemma FreshAdd(room: nat, id: string)
    ensures var parts := [Part(Text, "")]; var r := AddNewStep(Initial(room), id, true, Parts(parts));
      && r.err.None? && |r.s.steps| == 1 && r.s.steps[0].isAgent
      && r.s.table == Register(InitialState.table, 0, parts) && r.client.text == r.s.emittedText == ""
      && r.client.room == room
  {
    hide Sanitize, TrimSpace, Register, ReasoningParts, StepText, StepReasoning;
    SanitizeEmpty();
    TrimSpaceOfTrimmed("");
    EmptyParts();
    NoReasoningYet(Step(TrimSpace(id), true, "", "", false));
    assert InitialState.steps + [Step(TrimSpace(id), true, "", "", false)]
      == [Step(TrimSpace(id), true, "", "", false)];
  }

  lemma EmptyParts()
    ensures StepText(Parts([Part(Text, "")])) == "" && StepReasoning(Parts([Part(Text, "")])) == ""
  {
    hide TrimSpace;
    TrimSpaceOfTrimmed("");
    assert [Part(Text, "")][..0] == [];
  }

  lemma NoReasoningYet(step: Step)
    requires step.reasoning == ""
    ensures ReasoningParts([step]) == []
  {
    hide TrimSpace;
    TrimSpaceOfTrimmed("");
    assert [step][..0] == [];
  }

  // ---------- When the client holds the result, in general ----------

  /** Step `i` is an agent step whose only text entry is entry `j`. */
  predicate Open(r: Run, i: nat, j: nat, entry: string) {
    r.err.None? && i < |r.s.steps| && r.s.steps[i].isAgent && OnlyText(Row(r.s.table, i), j, entry)
  }

  function ChannelOf(r: Run): Channel {
    Channel(r.client.text, r.s.emittedText)
  }

  /** The sanitised entry after each delta. */
  function Visible(entry: string, deltas: seq<string>): seq<string> {
    if deltas == [] then [] else Visible(entry, deltas[..|deltas| - 1]) + [Sanitize(EntryAfter(entry, deltas))]
  }

  lemma EmitNothing(ch: Channel)
    ensures Emit(ch, "") == ch
  {
    assert ch.sent + "" == ch.sent;
    CommonPrefixUnique(ch.emitted, "", 0);
  }

  /** One "x" patch, whatever it assembles, moves the channel by one emission of the sanitised entry. */
  lemma PatchEmits(r: Run, i: nat, j: nat, entry: string, delta: string)
    requires Open(r, i, j, entry)
    ensures var next := ApplyPatch(r, PatchText(i, j, Extend, delta)); var after := AppendDelta(entry, delta);
            next.err.None? ==> Open(next, i, j, after) && ChannelOf(next) == Emit(ChannelOf(r), Sanitize(after))
  {
    hide Sanitize, Refresh, PatchContent, AppendDelta, Row, DeltaSuffix, Emit;
    var next := ApplyPatch(r, PatchText(i, j, Extend, delta));
    var patched := WithTable(WithActive(r, i), PatchContent(r.s.table, Key(i, j), Extend, delta));
    assert next == Refresh(patched, i);
    PatchedRow(r.s.table, i, j, entry, delta);
    RefreshShowsEntry(patched, i, j, AppendDelta(entry, delta));
    SanitizeEmpty();
    EmitNothing(ChannelOf(r));
  }

  lemma {:induction false} PatchesEmit(r: Run, i: nat, j: nat, entry: string, deltas: seq<string>)
    requires Open(r, i, j, entry)
    ensures var next := ApplyPatches(r, TextPatches(i, j, deltas));
            next.err.None? ==>
              Open(next, i, j, EntryAfter(entry, deltas))
              && ChannelOf(next) == EmitAll(ChannelOf(r), Visible(entry, deltas))
    decreases |deltas|
  {
    hide ApplyPatch, Open, ChannelOf, AppendDelta, Emit, Sanitize;
    if deltas == [] {
      assert TextPatches(i, j, deltas) == [];
    } else {
      var n := |deltas| - 1;
      PatchesEmit(r, i, j, entry, deltas[..n]);
      var ops, shown := TextPatches(i, j, deltas), Visible(entry, deltas);
      assert ops[..|ops| - 1] == TextPatches(i, j, deltas[..n]) && shown[..|shown| - 1] == Visible(entry, deltas[..n]);
      var mid := ApplyPatches(r, TextPatches(i, j, deltas[..n]));
      if mid.err.None? {
        PatchEmits(mid, i, j, EntryAfter(entry, deltas[..n]), deltas[n]);
      } else {
        ErrorStays(mid, ops[|ops| - 1]);
      }
    }
  }

  function FreshStart(room: nat, id: string): Run {
    ApplyPatch(Initial(room), AddStep(id, true, Parts([Part(Text, "")])))
  }

  lemma FreshOpen(room: nat, id: string)
    ensures Open(FreshStart(room, id), 0, 0, "") && ChannelOf(FreshStart(room, id)) == Idle
  {
    FreshStep(room, id);
    SanitizeEmpty();
    hide Sanitize, Row, ApplyPatch, Initial;
  }

  /** From an empty transcript: an agent step with an empty text part, then any "x" patches at all. If no write
      failed, the client holds the text of the result exactly if the sanitised entries after each delta form
      a chain of prefixes. */
  lemma ClientHoldsResultExactly(room: nat, id: string, deltas: seq<string>)
    ensures var r := ApplyPatches(FreshStart(room, id), TextPatches(0, 0, deltas));
            r.err.None? ==> (r.client.text == Result(r.s).final.text <==> PrefixChain(Visible("", deltas)))
  {
    hide ApplyPatch, ApplyPatches, Result, Sound, Open, EmitAll, Visible, Initial;
    var start := FreshStart(room, id);
    FreshOpen(room, id);
    PatchesEmit(start, 0, 0, "", deltas);
    StreamEqualsFinal(Visible("", deltas));
    InitialSound(room);
    ApplyPatchEvolves(Initial(room), AddStep(id, true, Parts([Part(Text, "")])));
    ApplyPatchesEvolves(start, TextPatches(0, 0, deltas));
    ResultOfSound(ApplyPatches(start, TextPatches(0, 0, deltas)));
  }

  /** A patch writes at most twice. */
  lemma PatchFits(r: Run, i: nat, j: nat, delta: string)
    requires r.err.None? && i < |r.s.steps| && r.s.steps[i].isAgent && r.client.room >= 2
    ensures var next := ApplyPatch(r, PatchText(i, j, Extend, delta));
            next.err.None? && next.client.room >= r.client.room - 2
  {
    hide Sanitize, TrimSpace, Compose, Row, PatchContent, ComposeReasoning, DeltaSuffix;
  }

  /** With a tag split over two deltas the law fails: "a<" is already at the client when "lang>" turns
      it into a tag, and the result is then "a". */
  lemma SplitTagBreaksStream(room: nat, id: string)
    requires room >= 4
    ensures var r := ApplyPatches(FreshStart(room, id), TextPatches(0, 0, ["a<", "lang>"]));
            r.err.None? && r.client.text == "a<" && Result(r.s).final.text == "a"
  {
    hide Sanitize, ApplyPatch, Result, Sound, Open, Initial, EntryAfter;
    var start := FreshStart(room, id);
    var deltas := ["a<", "lang>"];
    FreshOpen(room, id);
    PatchesEmit(start, 0, 0, "", deltas);
    SplitTagFits(room, id);
    SplitTagEntries();
    SplitTagSanitized();
    assert deltas[..1] == ["a<"] && ["a<"][..0] == [] && [] + ["a<"] == ["a<"] && ["a<"] + ["a"] == ["a<", "a"];
    assert Visible("", deltas) == ["a<", "a"];
    TwoEmissions("a<", "a");
    CommonPrefixUnique("", "a<", 0);
    CommonPrefixUnique("a<", "a", 1);
    InitialSound(room);
    ApplyPatchEvolves(Initial(room), AddStep(id, true, Parts([Part(Text, "")])));
    ApplyPatchesEvolves(start, TextPatches(0, 0, deltas));
    ResultOfSound(ApplyPatches(start, TextPatches(0, 0, deltas)));
  }

  lemma SplitTagFits(room: nat, id: string)
    requires room >= 4
    ensures ApplyPatches(FreshStart(room, id), TextPatches(0, 0, ["a<", "lang>"])).err.None?
  {
    hide ApplyPatch, Open, Initial;
    var start := FreshStart(room, id);
    var first, second := PatchText(0, 0, Extend, "a<"), PatchText(0, 0, Extend, "lang>");
    FreshRoom(room, id);
    PatchFits(start, 0, 0, "a<");
    PatchKeepsStep(start, 0, 0, "a<");
    PatchFits(ApplyPatch(start, first), 0, 0, "lang>");
    assert ["a<", "lang>"][..1] == ["a<"] && ["a<"][..0] == [];
    assert TextPatches(0, 0, []) == [] && TextPatches(0, 0, ["a<"]) == [first];
    assert TextPatches(0, 0, ["a<", "lang>"]) == [first, second];
    assert [first, second][..1] == [first] && [first][..0] == [];
    assert ApplyPatches(start, [first]) == ApplyPatch(start, first);
  }

  lemma PatchKeepsStep(r: Run, i: nat, j: nat, delta: string)
    requires r.err.None? && i < |r.s.steps| && r.s.steps[i].isAgent
    ensures var next := ApplyPatch(r, PatchText(i, j, Extend, delta));
            i < |next.s.steps| && next.s.steps[i].isAgent
  {
    hide Sanitize, TrimSpace, Compose, Row, PatchContent, ComposeReasoning, DeltaSuffix;
  }

  lemma FreshRoom(room: nat, id: string)
    ensures var start := FreshStart(room, id);
            start.err.None? && start.client.room == room && |start.s.steps| == 1 && start.s.steps[0].isAgent
  {
    hide AddNewStep;
    FreshAdd(room, id);
  }

  lemma TwoEmissions(a: string, b: string)
    ensures EmitAll(Idle, [a, b]) == Emit(Emit(Idle, a), b)
  {
    assert [a, b][..1] == [a] && [a][..0] == [];
    assert EmitAll(Idle, []) == Idle;
    assert EmitAll(Idle, [a]) == Emit(Idle, a);
  }

  lemma SplitTagEntries()
    ensures EntryAfter("", ["a<"]) == "a<" && EntryAfter("", ["a<", "lang>"]) == "a<lang>"
  {
    hide Sanitize;
    assert ["a<", "lang>"][..1] == ["a<"] && ["a<"][..0] == [];
    SplitTagSanitized();
    assert EntryAfter("", []) == "";
    assert EntryAfter("", ["a<"]) == "a<";
    assert !TakenAsRepeat("a<", "lang>") && !TakenAsWhole("a<", "lang>");
  }

  lemma SplitTagSanitized()
    ensures Sanitize("a<") == "a<" && Sanitize("a<lang>") == "a" && Sanitize("lang>") == "lang>"
  {
    hide Sanitize, CleanLangTags;
    PlainIsKept("a<");
    PlainIsKept("lang>");
    var doc := [LangTags.Plain('a'), LangTags.Open("")];
    assert LangTags.Render(doc) == "a<lang>" by {
      assert doc[1..] == [LangTags.Open("")] && doc[1..][1..] == [];
    }
    assert LangTags.PlainText(doc) == "a" by {
      assert doc[1..] == [LangTags.Open("")] && doc[1..][1..] == [];
    }
    LangTags.CleaningKeepsPlainText(doc);
    NoAngleIsTagFree("a");
    SanitizeToPlain("a<lang>", "a");
  }

  lemma PlainIsKept(s: string)
    requires 1 < |s| <= 5 && Trimmed(s) && s[0] != BOM && '[' !in s && s[0] != '<'
    requires forall i | 0 <= i < |s| - 1 :: s[i] != '<'
    ensures Sanitize(s) == s
  {
    hide CleanLangTags;
    forall i: nat ensures !TagAt(s, i) {
      assert i < |s| - 1 ==> s[i..][0] == s[i] && Lower(s[i]) != '<';
    }
    CleanTagFree(s);
    SanitizeToPlain(s, s);
  }
}
