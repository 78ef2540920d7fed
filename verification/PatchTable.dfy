/** The value table of the transcript: three maps keyed by step and position that stand for one
    sequence of typed text entries per step. */
module PatchTable {
  import opened Strings
  import opened Sanitizer
  import opened Deltas

  /** `normalizePatchEntryType`; unknown types normalise to the empty string in the source. */
  datatype Kind = Text | Reasoning | Unknown

  datatype Part = Part(kind: Kind, content: string)

  datatype Key = Key(step: nat, index: nat)

  datatype Table = Table(counts: map<nat, nat>, kinds: map<Key, Kind>, texts: map<Key, string>)

  function Lookup<V>(m: map<Key, V>, k: Key, missing: V): V {
    if k in m then m[k] else missing
  }

  function Count(t: Table, step: nat): nat {
    if step in t.counts then t.counts[step] else 0
  }

  /** One position as the composing loop reads it. */
  function CellAt(t: Table, k: Key): Part {
    Part(Lookup(t.kinds, k, Unknown), Lookup(t.texts, k, ""))
  }

  /** The sequence a step's slice of the maps stands for. */
  function Row(t: Table, step: nat): (r: seq<Part>)
    ensures |r| == Count(t, step)
  {
    seq(Count(t, step), i requires i >= 0 => CellAt(t, Key(step, i)))
  }

  /** No key lies at or above the count. */
  predicate Clean(t: Table, step: nat) {
    forall k | k in t.kinds.Keys + t.texts.Keys :: k.step == step ==> k.index < Count(t, step)
  }

  predicate SameOutside(t: Table, u: Table, step: nat) {
    && (forall s | s in t.counts.Keys + u.counts.Keys :: s != step ==> Count(t, s) == Count(u, s))
    && (forall k | k in t.kinds.Keys + u.kinds.Keys + t.texts.Keys + u.texts.Keys ::
          k.step != step ==> CellAt(t, k) == CellAt(u, k))
  }

  lemma SameRow(t: Table, u: Table, step: nat, other: nat)
    requires SameOutside(t, u, step) && other != step
    ensures Row(t, other) == Row(u, other)
  {
    assert Count(t, other) == Count(u, other);
    forall i: nat ensures CellAt(t, Key(other, i)) == CellAt(u, Key(other, i)) {
    }
  }

  // ---------- Operations ----------

  /** `text[key] = merge(text[key], content)` unless the content is blank. */
  function MergeText(texts: map<Key, string>, k: Key, content: string): map<Key, string> {
    if TrimSpace(content) != "" then texts[k := MergeCumulative(Lookup(texts, k, ""), content)] else texts
  }

  /** `registerPatchValueAppend`: parts of unknown type are not even counted. */
  function Append(t: Table, step: nat, part: Part): Table {
    if part.kind == Unknown then t
    else
      var k := Key(step, Count(t, step));
      Table(t.counts[step := k.index + 1], t.kinds[k := part.kind], MergeText(t.texts, k, part.content))
  }

  /** `registerStepValueTypes`: here parts of unknown type do take up a position. */
  function Register(t: Table, step: nat, parts: seq<Part>): Table {
    FillParts(t.(counts := t.counts[step := |parts|]), step, parts)
  }

  function FillParts(t: Table, step: nat, parts: seq<Part>): Table {
    if parts == [] then t
    else
      var n := |parts| - 1;
      var front, k := FillParts(t, step, parts[..n]), Key(step, n);
      if parts[n].kind == Unknown then front
      else Table(front.counts, front.kinds[k := parts[n].kind], MergeText(front.texts, k, parts[n].content))
  }

  /** `mergeEventValueIntoPatchState`. */
  function MergeEvent(t: Table, step: nat, index: nat, part: Part): Table {
    if part.kind == Unknown then t
    else
      var k := Key(step, index);
      Table(if Count(t, step) <= index then t.counts[step := index + 1] else t.counts,
            t.kinds[k := part.kind], MergeText(t.texts, k, part.content))
  }

  function SetKind(t: Table, k: Key, kind: Kind): Table {
    t.(kinds := t.kinds[k := kind])
  }

  /** A `/content` patch. It may address any position, also one beyond the count. */
  function PatchContent(t: Table, k: Key, kind: PatchKind, content: string): Table {
    if content == "" then t
    else t.(texts := t.texts[k := ApplyContent(Lookup(t.texts, k, ""), kind, content)])
  }

  /** The map after position `index` of `count` positions has been shifted out. */
  function ShiftOut<V>(m: map<Key, V>, step: nat, index: nat, count: nat): (r: map<Key, V>) {
    map k | k in m.Keys + (set j | j in m.Keys && j.index > 0 :: Key(j.step, j.index - 1))
            && !(k.step == step && k.index == count - 1)
            && Source(k, step, index, count) in m
      :: m[Source(k, step, index, count)]
  }

  function Source(k: Key, step: nat, index: nat, count: nat): Key {
    if k.step == step && index <= k.index < count - 1 then Key(step, k.index + 1) else k
  }

  /** `removePatchValueEntry`, without the loop. */
  function Remove(t: Table, step: nat, index: nat): Table {
    var count := Count(t, step);
    if index >= count then t
    else Table(t.counts[step := count - 1],
               ShiftOut(t.kinds, step, index, count), ShiftOut(t.texts, step, index, count))
  }

  lemma ShiftOutAt<V>(m: map<Key, V>, step: nat, index: nat, count: nat, k: Key)
    requires index < count
    ensures var r := ShiftOut(m, step, index, count); var src := Source(k, step, index, count);
            if k == Key(step, count - 1) then k !in r
            else (k in r <==> src in m) && (k in r ==> r[k] == m[src])
  {
    var src := Source(k, step, index, count);
    if src != k && src in m {
      assert Key(src.step, src.index - 1) == k;
      assert k in (set j | j in m.Keys && j.index > 0 :: Key(j.step, j.index - 1));
    }
  }

  // ---------- The table is a sequence ----------

  /** Removing deletes exactly one position of one step, and leaves no key at or above the new count. */
  lemma RemoveDeletesOne(t: Table, step: nat, index: nat)
    requires index < Count(t, step)
    ensures Row(Remove(t, step, index), step) == Row(t, step)[..index] + Row(t, step)[index + 1..]
    ensures SameOutside(t, Remove(t, step, index), step)
    ensures Clean(t, step) ==> Clean(Remove(t, step, index), step)
  {
    RemovedRow(t, step, index);
    var u := Remove(t, step, index);
    forall k: Key
      ensures k.step != step ==> CellAt(u, k) == CellAt(t, k)
      ensures Clean(t, step) && k.step == step && k in u.kinds.Keys + u.texts.Keys ==> k.index < Count(u, step)
    {
      RemovedAt(t, step, index, k);
    }
  }

  /** What lies at a key after a removal. */
  lemma RemovedAt(t: Table, step: nat, index: nat, k: Key)
    requires index < Count(t, step)
    ensures var u, count := Remove(t, step, index), Count(t, step);
      if k == Key(step, count - 1) then k !in u.kinds && k !in u.texts
      else var src := Source(k, step, index, count);
        (k in u.kinds <==> src in t.kinds) && (k in u.texts <==> src in t.texts) && CellAt(u, k) == CellAt(t, src)
  {
    hide ShiftOut;
    ShiftOutAt(t.kinds, step, index, Count(t, step), k);
    ShiftOutAt(t.texts, step, index, Count(t, step), k);
  }

  lemma RemovedRow(t: Table, step: nat, index: nat)
    requires index < Count(t, step)
    ensures Row(Remove(t, step, index), step) == Row(t, step)[..index] + Row(t, step)[index + 1..]
  {
    hide ShiftOut;
    var u, row := Remove(t, step, index), Row(t, step);
    forall i | 0 <= i < Count(t, step) - 1 ensures Row(u, step)[i] == (row[..index] + row[index + 1..])[i] {
      RemovedAt(t, step, index, Key(step, i));
    }
  }

  /** The text a new position starts with. */
  function Seed(content: string): string {
    if TrimSpace(content) != "" then content else ""
  }

  lemma MergeFromNothing(texts: map<Key, string>, k: Key, content: string)
    requires Lookup(texts, k, "") == ""
    ensures var merged := MergeText(texts, k, content);
            Lookup(merged, k, "") == Seed(content) && merged.Keys <= texts.Keys + {k}
            && forall j: Key | j != k :: (j in merged <==> j in texts) && Lookup(merged, j, "") == Lookup(texts, j, "")
  {
    hide TrimSpace, Sanitize;
  }

  lemma AppendAddsLast(t: Table, step: nat, part: Part)
    requires part.kind != Unknown && Clean(t, step)
    ensures Row(Append(t, step, part), step) == Row(t, step) + [Part(part.kind, Seed(part.content))]
    ensures Clean(Append(t, step, part), step) && SameOutside(t, Append(t, step, part), step)
  {
    hide MergeText, Seed;
    var k, u := Key(step, Count(t, step)), Append(t, step, part);
    MergeFromNothing(t.texts, k, part.content);
    forall i | 0 <= i < k.index ensures CellAt(u, Key(step, i)) == CellAt(t, Key(step, i)) {
    }
  }

  lemma PatchChangesOne(t: Table, step: nat, index: nat, kind: PatchKind, content: string)
    requires index < Count(t, step)
    ensures var u := PatchContent(t, Key(step, index), kind, content);
            var cell := Row(t, step)[index];
            Row(u, step) == Row(t, step)[index :=
              cell.(content := if content == "" then cell.content else ApplyContent(cell.content, kind, content))]
            && SameOutside(t, u, step) && (Clean(t, step) ==> Clean(u, step))
  {
    hide ApplyContent;
    var u := PatchContent(t, Key(step, index), kind, content);
    forall i | 0 <= i < Count(t, step) && i != index
      ensures CellAt(u, Key(step, i)) == CellAt(t, Key(step, i)) {
    }
  }

  /** A value of an event at a position that exists, or at the next one, sets the kind there and merges the text
      unless it is blank. */
  lemma EventChangesOne(t: Table, step: nat, index: nat, part: Part)
    requires part.kind != Unknown && Clean(t, step) && index <= Count(t, step)
    ensures var u, row := MergeEvent(t, step, index, part), Row(t, step);
      var before := if index < |row| then row[index].content else "";
      var merged := Part(part.kind, if TrimSpace(part.content) == "" then before
                                    else MergeCumulative(before, part.content));
      && Row(u, step) == (if index < |row| then row[index := merged] else row + [merged])
      && SameOutside(t, u, step) && Clean(u, step)
  {
    hide MergeCumulative, TrimSpace, MergeText;
    var u := MergeEvent(t, step, index, part);
    MergedAt(t.texts, Key(step, index), part.content);
    forall i | 0 <= i < Count(t, step) && i != index ensures CellAt(u, Key(step, i)) == CellAt(t, Key(step, i)) {
    }
  }

  lemma MergedAt(texts: map<Key, string>, k: Key, content: string)
    ensures var merged, before := MergeText(texts, k, content), Lookup(texts, k, "");
      && Lookup(merged, k, "") == (if TrimSpace(content) == "" then before else MergeCumulative(before, content))
      && merged.Keys <= texts.Keys + {k}
      && forall j: Key | j != k :: (j in merged <==> j in texts) && Lookup(merged, j, "") == Lookup(texts, j, "")
  {
    hide MergeCumulative, TrimSpace;
  }

  lemma SetKindChangesOne(t: Table, step: nat, index: nat, kind: Kind)
    requires index < Count(t, step)
    ensures var u := SetKind(t, Key(step, index), kind);
            Row(u, step) == Row(t, step)[index := Row(t, step)[index].(kind := kind)]
            && SameOutside(t, u, step) && (Clean(t, step) ==> Clean(u, step))
  {
    var u := SetKind(t, Key(step, index), kind);
    forall i | 0 <= i < Count(t, step) && i != index
      ensures CellAt(u, Key(step, i)) == CellAt(t, Key(step, i)) {
    }
  }

  // ---------- Following the upstream document ----------

  /** What upstream does to the list of parts of one step. */
  datatype EntryOp =
    | AppendPart(part: Part)
    | EditContent(index: nat, how: PatchKind, content: string)
    | EditKind(index: nat, kind: Kind)
    | RemovePart(index: nat)

  function Apply(t: Table, step: nat, op: EntryOp): Table {
    match op
    case AppendPart(part) => Append(t, step, part)
    case EditContent(index, how, content) => PatchContent(t, Key(step, index), how, content)
    case EditKind(index, kind) => SetKind(t, Key(step, index), kind)
    case RemovePart(index) => Remove(t, step, index)
  }

  /** The same operation on the list upstream holds; every part has a position there. */
  function ApplyUpstream(doc: seq<Part>, op: EntryOp): seq<Part> {
    match op
    case AppendPart(part) => doc + [Part(part.kind, Seed(part.content))]
    case EditContent(index, how, content) =>
      if index < |doc| && content != "" then
        doc[index := doc[index].(content := ApplyContent(doc[index].content, how, content))]
      else doc
    case EditKind(index, kind) => if index < |doc| then doc[index := doc[index].(kind := kind)] else doc
    case RemovePart(index) => if index < |doc| then doc[..index] + doc[index + 1..] else doc
  }

  /** The operation writes at a position that does not exist. */
  predicate Strays(op: EntryOp, n: nat) {
    match op
    case EditContent(index, _, content) => index >= n && content != ""
    case EditKind(index, _) => index >= n
    case _ => false
  }

  predicate KnownPart(op: EntryOp) {
    op.AppendPart? ==> op.part.kind != Unknown
  }

  /** One operation keeps the table equal to the upstream list exactly when it does not append a part of
      unknown type, which shifts every later position, and clean exactly when it does not write at a position
      that does not exist. */
  lemma StepFollowsUpstream(t: Table, step: nat, op: EntryOp)
    requires Clean(t, step)
    ensures Row(Apply(t, step, op), step) == ApplyUpstream(Row(t, step), op) <==> KnownPart(op)
    ensures Clean(Apply(t, step, op), step) <==> !Strays(op, Count(t, step))
    ensures SameOutside(t, Apply(t, step, op), step)
  {
    hide Append, PatchContent, SetKind, Remove, Row, Clean, SameOutside, Count, Seed, ApplyContent;
    var count := Count(t, step);
    NothingHappens(t, step);
    match op
    case AppendPart(part) =>
      if part.kind == Unknown { UnknownIgnored(t, step, part); } else { AppendAddsLast(t, step, part); }
    case EditContent(index, how, content) =>
      if index < count {
        PatchChangesOne(t, step, index, how, content);
      } else {
        StrayContent(t, Key(step, index), how, content);
      }
    case EditKind(index, kind) =>
      if index < count { SetKindChangesOne(t, step, index, kind); } else { StrayKind(t, Key(step, index), kind); }
    case RemovePart(index) =>
      if index < count { RemoveDeletesOne(t, step, index); } else { NoneRemoved(t, step, index); }
  }

  lemma NothingHappens(t: Table, step: nat)
    ensures SameOutside(t, t, step)
  {}

  lemma UnknownIgnored(t: Table, step: nat, part: Part)
    requires part.kind == Unknown
    ensures Append(t, step, part) == t
    ensures Row(t, step) != Row(t, step) + [Part(part.kind, Seed(part.content))]
  {
    hide Seed, Row;
    assert |Row(t, step) + [Part(part.kind, Seed(part.content))]| == |Row(t, step)| + 1;
  }

  lemma NoneRemoved(t: Table, step: nat, index: nat)
    requires index >= Count(t, step)
    ensures Remove(t, step, index) == t
  {}

  lemma StrayContent(t: Table, k: Key, how: PatchKind, content: string)
    requires Clean(t, k.step) && k.index >= Count(t, k.step)
    ensures var u := PatchContent(t, k, how, content);
      Row(u, k.step) == Row(t, k.step) && SameOutside(t, u, k.step) && (Clean(u, k.step) <==> content == "")
  {
    hide ApplyContent;
    var u := PatchContent(t, k, how, content);
    assert forall i | 0 <= i < Count(t, k.step) :: CellAt(u, Key(k.step, i)) == CellAt(t, Key(k.step, i));
    if content != "" { assert k in u.texts; }
  }

  lemma StrayKind(t: Table, k: Key, kind: Kind)
    requires Clean(t, k.step) && k.index >= Count(t, k.step)
    ensures var u := SetKind(t, k, kind);
      Row(u, k.step) == Row(t, k.step) && SameOutside(t, u, k.step) && !Clean(u, k.step)
  {
    var u := SetKind(t, k, kind);
    assert forall i | 0 <= i < Count(t, k.step) :: CellAt(u, Key(k.step, i)) == CellAt(t, Key(k.step, i));
    assert k in u.kinds;
  }

  function ApplyAll(t: Table, step: nat, ops: seq<EntryOp>): Table {
    if ops == [] then t else Apply(ApplyAll(t, step, ops[..|ops| - 1]), step, ops[|ops| - 1])
  }

  function ApplyAllUpstream(doc: seq<Part>, ops: seq<EntryOp>): seq<Part> {
    if ops == [] then doc else ApplyUpstream(ApplyAllUpstream(doc, ops[..|ops| - 1]), ops[|ops| - 1])
  }

  /** No operation writes past the end of the upstream list at its time. */
  predicate NoneStrays(doc: seq<Part>, ops: seq<EntryOp>) {
    forall i | 0 <= i < |ops| :: !Strays(ops[i], |ApplyAllUpstream(doc, ops[..i])|)
  }

  /** Over any run without parts of unknown type the maps stay the upstream list, position by position. */
  lemma {:induction false} TableFollowsUpstream(t: Table, step: nat, ops: seq<EntryOp>)
    requires Clean(t, step) && NoneStrays(Row(t, step), ops)
    requires forall op | op in ops :: KnownPart(op)
    ensures Row(ApplyAll(t, step, ops), step) == ApplyAllUpstream(Row(t, step), ops)
    ensures Clean(ApplyAll(t, step, ops), step)
    ensures forall other: nat | other != step :: Row(ApplyAll(t, step, ops), other) == Row(t, other)
  {
    hide Apply, ApplyUpstream, Strays, KnownPart, Row, Clean, SameOutside;
    if ops != [] {
      var front, last := ops[..|ops| - 1], ops[|ops| - 1];
      forall i | 0 <= i < |front| ensures !Strays(front[i], |ApplyAllUpstream(Row(t, step), front[..i])|) {
        assert front[..i] == ops[..i];
      }
      TableFollowsUpstream(t, step, front);
      assert !Strays(ops[|ops| - 1], |ApplyAllUpstream(Row(t, step), ops[..|ops| - 1])|);
      var u := ApplyAll(t, step, front);
      StepFollowsUpstream(u, step, last);
      forall other: nat | other != step ensures Row(Apply(u, step, last), other) == Row(t, other) {
        SameRow(u, Apply(u, step, last), step, other);
      }
    }
  }

  /** A content patch leaves the table clean exactly when it addresses an existing position. */
  lemma StrayPatchSpoils(t: Table, k: Key, how: PatchKind, content: string)
    requires Clean(t, k.step) && content != ""
    ensures Clean(PatchContent(t, k, how, content), k.step) <==> k.index < Count(t, k.step)
  {
    var u := PatchContent(t, k, how, content);
    assert k in u.texts;
  }

  /** What then goes wrong: the next appended part inherits the stray text. */
  lemma StrayTextIsInherited(step: nat)
    ensures var t := PatchContent(Table(map[step := 0], map[], map[]), Key(step, 0), Extend, "x");
            Row(Append(t, step, Part(Text, "")), step) == [Part(Text, "x")]
  {
    var t := PatchContent(Table(map[step := 0], map[], map[]), Key(step, 0), Extend, "x");
    assert TrimSpace("") == "";
    assert CellAt(Append(t, step, Part(Text, "")), Key(step, 0)) == Part(Text, "x");
  }

  /** A new step starts as the list of its parts. */
  lemma {:induction false} FillPartsRow(t: Table, step: nat, parts: seq<Part>)
    requires forall k | k in t.kinds.Keys + t.texts.Keys :: k.step != step
    ensures var u := FillParts(t, step, parts);
            u.counts == t.counts
            && (forall k | k in u.kinds.Keys + u.texts.Keys :: k.step == step ==> k.index < |parts|)
            && (forall i | 0 <= i < |parts| :: CellAt(u, Key(step, i)) == Start(parts[i]))
            && (forall k: Key | k.step != step :: CellAt(u, k) == CellAt(t, k))
  {
    hide MergeText, Seed;
    if parts != [] {
      var n := |parts| - 1;
      FillPartsRow(t, step, parts[..n]);
      MergeFromNothing(FillParts(t, step, parts[..n]).texts, Key(step, n), parts[n].content);
    }
  }

  /** A part whose type is unknown keeps its position but no content. */
  function Start(part: Part): Part {
    if part.kind == Unknown then Part(Unknown, "") else Part(part.kind, Seed(part.content))
  }

  lemma RegisterStartsRow(t: Table, step: nat, parts: seq<Part>)
    requires forall k | k in t.kinds.Keys + t.texts.Keys :: k.step != step
    ensures var u := Register(t, step, parts);
            Clean(u, step) && SameOutside(t, u, step)
            && Row(u, step) == seq(|parts|, i requires 0 <= i < |parts| => Start(parts[i]))
  {
    FillPartsRow(t.(counts := t.counts[step := |parts|]), step, parts);
  }

  // ---------- Composing the visible content ----------

  /** The non-empty texts of one kind, in order. */
  function Texts(row: seq<Part>, kind: Kind): seq<string> {
    if row == [] then []
    else
      var last := row[|row| - 1];
      Texts(row[..|row| - 1], kind) + (if last.kind == kind && last.content != "" then [last.content] else [])
  }

  function CombineAll(parts: seq<string>): string {
    if parts == [] then "" else CombineParts(CombineAll(parts[..|parts| - 1]), parts[|parts| - 1])
  }

  /** Parts are put together in order; one that begins with all before it takes their place, and one that they begin
      with adds nothing. */
  lemma RowCombines(parts: seq<string>, last: string)
    ensures CombineAll([]) == ""
    ensures var before := CombineAll(parts);
      CombineAll(parts + [last]) == if before <= last then last else if last <= before then before else before + last
  {
    assert (parts + [last])[..|parts|] == parts;
    PartsCombine(CombineAll(parts), last);
  }

  /** A step of which nothing is registered has no parts. */
  lemma UnknownStepIsEmpty(t: Table, step: nat)
    requires step !in t.counts
    ensures |Row(t, step)| == 0
  {}

  datatype Content = Content(text: string, hasText: bool, reasoning: string, hasReasoning: bool)

  /** `composeStepAgentContent` on the sequence. */
  function Compose(row: seq<Part>): Content {
    var text, reasoning := Texts(row, Text), Texts(row, Reasoning);
    Content(CombineAll(text), text != [], CombineAll(reasoning), reasoning != [])
  }

  /** A single text entry is shown as it is. */
  lemma ComposeSingleText(row: seq<Part>, j: nat)
    requires j < |row| && row[j].kind == Text
    requires forall i | 0 <= i < |row| :: i != j ==> row[i].kind != Text
    ensures Compose(row).text == row[j].content && Compose(row).hasText == (row[j].content != "")
  {
    SingleText(row, j);
    assert CombineAll([]) == "" && forall s: string :: [s][..0] == [];
  }

  lemma {:induction false} SingleText(row: seq<Part>, j: int)
    requires forall i | 0 <= i < |row| :: i != j ==> row[i].kind != Text
    requires 0 <= j < |row| ==> row[j].kind == Text
    ensures Texts(row, Text) == if 0 <= j < |row| && row[j].content != "" then [row[j].content] else []
  {
    if row != [] {
      SingleText(row[..|row| - 1], j);
    }
  }
}
