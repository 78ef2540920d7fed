/** How patch text is folded into an entry, and how the suffixes sent to the client are computed. */
module Deltas {
  import opened Strings
  import opened Sanitizer

  // ---------- Folding upstream text ----------

  /** `mergeCumulativeAgentContent`: upstream repeats the text from the start. */
  function MergeCumulative(existing: string, next: string): string {
    if next == "" then existing
    else if existing == "" || next == existing then next
    else
      var existingClean, nextClean := Sanitize(existing), Sanitize(next);
      if nextClean != "" && nextClean == existingClean then existing
      else if nextClean != "" && (existingClean == "" || existingClean <= nextClean) then next
      else if existingClean != "" && nextClean <= existingClean then existing
      else if existing <= next then next
      else if next <= existing then existing
      else next
  }

  /** `combineAgentContentParts`. */
  function CombineParts(existing: string, next: string): string {
    if next == "" then existing
    else if existing == "" then next
    else if existing <= next then next
    else if next <= existing then existing
    else existing + next
  }

  /** The guards of `appendAgentPatchDelta` under which a non-empty delta is taken for a repetition. */
  predicate TakenAsRepeat(existing: string, delta: string) {
    HasSuffix(existing, delta)
    || (Sanitize(delta) != "" && HasSuffix(Sanitize(existing), Sanitize(delta)))
  }

  predicate TakenAsWhole(existing: string, delta: string) {
    existing <= delta
    || (Sanitize(delta) != "" && Sanitize(existing) != "" && Sanitize(existing) <= Sanitize(delta))
  }

  /** `appendAgentPatchDelta`. */
  function AppendDelta(existing: string, delta: string): string {
    if delta == "" then existing
    else if existing == "" then delta
    else if TakenAsRepeat(existing, delta) then existing
    else if TakenAsWhole(existing, delta) then delta
    else existing + delta
  }

  /** `handleAgentPatchReplace`. */
  function ReplaceContent(current: string, replacement: string): string {
    if replacement == "" then current
    else if current == "" || replacement == current then replacement
    else
      var idx := LastIndex(current, OPENING_TAG);
      if idx >= 0 then current[..idx] + replacement
      else if current <= replacement then replacement
      else if Sanitize(replacement) != "" && Sanitize(current) != ""
           && Sanitize(current) <= Sanitize(replacement) then replacement
      else current + replacement
  }

  datatype PatchKind = Add | Extend | Replace

  /** `applyAgentPatchContent`: operations "a", "x" and "p". */
  function ApplyContent(existing: string, kind: PatchKind, patch: string): string {
    match kind
    case Extend => AppendDelta(existing, patch)
    case Replace => ReplaceContent(existing, patch)
    case Add => MergeCumulative(existing, patch)
  }

  predicate EndsIn(s: string, tail: string) {
    |tail| <= |s| && forall k | 0 <= k < |tail| :: s[|s| - |tail| + k] == tail[k]
  }

  /** The text ends in the delta already, as sent or visibly. */
  predicate Repeats(existing: string, delta: string) {
    EndsIn(existing, delta) || (|Sanitize(delta)| > 0 && EndsIn(Sanitize(existing), Sanitize(delta)))
  }

  /** The delta begins with the whole text, as sent or visibly. */
  predicate StartsOver(existing: string, delta: string) {
    existing <= delta || (|Sanitize(existing)| > 0 && Sanitize(existing) <= Sanitize(delta))
  }

  lemma GuardsMean(existing: string, delta: string)
    ensures TakenAsRepeat(existing, delta) <==> Repeats(existing, delta)
    ensures TakenAsWhole(existing, delta) <==> StartsOver(existing, delta)
  {
    hide Sanitize;
    SuffixMeans(existing, delta);
    SuffixMeans(Sanitize(existing), Sanitize(delta));
  }

  lemma SuffixMeans(s: string, tail: string)
    ensures HasSuffix(s, tail) <==> EndsIn(s, tail)
  {
    if |tail| <= |s| {
      var end := s[|s| - |tail|..];
      assert forall k | 0 <= k < |tail| :: end[k] == s[|s| - |tail| + k];
      assert end == tail <==> forall k | 0 <= k < |tail| :: end[k] == tail[k];
    }
  }

  /** An "x" patch is plain concatenation exactly when it neither repeats what is there nor starts over; a repetition
      is dropped, and a text that starts over takes the place of what was there. */
  lemma AppendIsConcatenation(existing: string, delta: string)
    ensures AppendDelta(existing, delta) == existing + delta <==>
            delta == "" || existing == "" || (!Repeats(existing, delta) && !StartsOver(existing, delta))
    ensures delta != "" && existing != "" ==>
      (Repeats(existing, delta) ==> AppendDelta(existing, delta) == existing)
      && (StartsOver(existing, delta) && !Repeats(existing, delta) ==> AppendDelta(existing, delta) == delta)
  {
    hide Repeats, StartsOver, TakenAsRepeat, TakenAsWhole;
    GuardsMean(existing, delta);
    assert |existing + delta| == |existing| + |delta|;
  }

  /** Text is lost: a model that streams "ha", "ha" shows "ha". */
  lemma RepeatedDeltaIsLost()
    ensures AppendDelta(AppendDelta("", "ha"), "ha") == "ha"
  {
  }

  /** Whatever the guards do, an "x" patch only extends the visible text while no tag is in sight. */
  lemma AppendDeltaGrows(existing: string, delta: string)
    requires TagFree(AppendDelta(existing, delta))
    ensures Sanitize(existing) <= Sanitize(AppendDelta(existing, delta))
  {
    hide Sanitize, TagFree;
    var next := AppendDelta(existing, delta);
    if existing <= next {
      SanitizeMonotone(existing, next);
    }
  }

  /** Patches without `<` keep an entry without `<`. */
  lemma AppendDeltaKeepsOutAngles(existing: string, delta: string)
    requires '<' !in existing && '<' !in delta
    ensures '<' !in AppendDelta(existing, delta)
  {
  }

  /** Of two parts of which one begins with the other the longer stays; others are put together. */
  lemma PartsCombine(existing: string, next: string)
    ensures CombineParts(existing, next) == if existing <= next then next else if next <= existing then existing
                                            else existing + next
  {}

  /** A "p" patch rewrites the text from its last language tag on. Without one it takes the place of a text that it
      continues, as sent or visibly, and is put behind any other; an empty one changes nothing. */
  lemma ReplacementTakesPlace(current: string, replacement: string)
    ensures var tag := LastIndex(current, OPENING_TAG); var shown, next := Sanitize(current), Sanitize(replacement);
      ApplyContent(current, Replace, replacement) ==
        if |replacement| == 0 then current
        else if replacement == current then current
        else if tag >= 0 then current[..tag] + replacement
        else if current <= replacement || (|shown| > 0 && shown <= next) then replacement
        else current + replacement
  {
    hide Sanitize;
    if LastIndex(current, OPENING_TAG) < 0 && Sanitize(current) <= Sanitize(replacement) && |Sanitize(current)| > 0 {
      assert |Sanitize(replacement)| > 0;
    }
  }

  /** An "a" patch merges as a cumulative text does, and an "x" patch appends. */
  lemma PatchKinds(existing: string, patch: string)
    ensures ApplyContent(existing, Add, patch) == MergeCumulative(existing, patch)
    ensures ApplyContent(existing, Extend, patch) == AppendDelta(existing, patch)
  {}

  // ---------- Suffixes for the client ----------

  /** `textDeltaSuffix`: what follows the common beginning of both texts. */
  method TextDeltaSuffix(previous: string, current: string) returns (delta: string)
    ensures delta == DeltaSuffix(previous, current)
  {
    if current == "" || current == previous {
      CommonPrefixUnique(previous, current, |current|);
      return "";
    }
    if previous == "" { return current; }
    if previous <= current {
      CommonPrefixUnique(previous, current, |previous|);
      return current[|previous|..];
    }
    var index := 0;
    while index < |previous| && index < |current| && previous[index] == current[index]
      invariant index <= |previous| && index <= |current| && previous[..index] == current[..index]
    {
      index := index + 1;
    }
    CommonPrefixUnique(previous, current, index);
    if index >= |current| { return ""; }
    return current[index..];
  }

  function DeltaSuffix(previous: string, current: string): string {
    current[CommonPrefix(previous, current)..]
  }

  lemma DeltaOfExtension(previous: string, current: string)
    requires previous <= current
    ensures DeltaSuffix(previous, current) == current[|previous|..]
    ensures previous + DeltaSuffix(previous, current) == current
  {
    CommonPrefixUnique(previous, current, |previous|);
  }

  /** One channel to the client: what was sent, and which full text the program believes was shown. */
  datatype Channel = Channel(sent: string, emitted: string)

  /** The update shared by `emitFullText` and `emitFullReasoning` when the sink accepts the write. */
  function Emit(ch: Channel, full: string): Channel {
    Channel(ch.sent + DeltaSuffix(ch.emitted, full),
            if full != "" || ch.emitted == "" then full else ch.emitted)
  }

  function EmitAll(ch: Channel, fulls: seq<string>): Channel {
    if fulls == [] then ch
    else Emit(EmitAll(ch, fulls[..|fulls| - 1]), fulls[|fulls| - 1])
  }

  /** Every non-empty text extends every earlier one. */
  predicate PrefixChain(fulls: seq<string>) {
    forall i, j | 0 <= i < j < |fulls| && fulls[i] != "" && fulls[j] != "" :: fulls[i] <= fulls[j]
  }

  /** How much more the client received than the text it should now be showing. */
  function Excess(ch: Channel): int {
    |ch.sent| - |ch.emitted|
  }

  /** The excess never shrinks, and stays the same only when the new text is empty or an extension. */
  lemma EmitExcess(ch: Channel, full: string)
    ensures Excess(ch) <= Excess(Emit(ch, full))
    ensures Excess(ch) == Excess(Emit(ch, full)) <==> full == "" || ch.emitted <= full
  {
    var n := CommonPrefix(ch.emitted, full);
    assert n == |ch.emitted| ==> ch.emitted == full[..n];
    if ch.emitted <= full {
      DeltaOfExtension(ch.emitted, full);
    }
  }

  lemma {:induction false} EmitAllExcess(ch: Channel, fulls: seq<string>, k: nat)
    requires k <= |fulls|
    ensures Excess(EmitAll(ch, fulls[..k])) <= Excess(EmitAll(ch, fulls))
  {
    if k < |fulls| {
      assert fulls[..|fulls| - 1][..k] == fulls[..k];
      EmitAllExcess(ch, fulls[..|fulls| - 1], k);
      EmitExcess(EmitAll(ch, fulls[..|fulls| - 1]), fulls[|fulls| - 1]);
    } else {
      assert fulls[..k] == fulls;
    }
  }

  const Idle := Channel("", "")

  /** The remembered text is the last non-empty one. */
  lemma {:induction false} EmittedIsLastShown(fulls: seq<string>) returns (k: int)
    ensures -1 <= k < |fulls|
    ensures k == -1 ==> EmitAll(Idle, fulls).emitted == ""
    ensures k >= 0 ==> fulls[k] != "" && EmitAll(Idle, fulls).emitted == fulls[k]
    ensures forall i | k < i < |fulls| :: fulls[i] == ""
  {
    if fulls == [] {
      k := -1;
    } else if fulls[|fulls| - 1] != "" {
      k := |fulls| - 1;
    } else {
      k := EmittedIsLastShown(fulls[..|fulls| - 1]);
    }
  }

  /** The client's concatenated deltas are the final text if and only if the shown texts form a chain. */
  lemma {:induction false} StreamEqualsFinal(fulls: seq<string>)
    ensures EmitAll(Idle, fulls).sent == EmitAll(Idle, fulls).emitted <==> PrefixChain(fulls)
    decreases |fulls|
  {
    if fulls != [] {
      var front, last := fulls[..|fulls| - 1], fulls[|fulls| - 1];
      var ch := EmitAll(Idle, front);
      StreamEqualsFinal(front);
      EmitExcess(ch, last);
      EmitAllExcess(Idle, front, 0);
      var k := EmittedIsLastShown(front);
      ChainSplit(fulls, k);
      if ch.emitted <= last {
        DeltaOfExtension(ch.emitted, last);
      }
    }
  }

  lemma ChainSplit(fulls: seq<string>, k: int)
    requires fulls != [] && -1 <= k < |fulls| - 1
    requires forall i | k < i < |fulls| - 1 :: fulls[i] == ""
    requires k >= 0 ==> fulls[k] != ""
    ensures var front, last := fulls[..|fulls| - 1], fulls[|fulls| - 1];
            PrefixChain(fulls) <==>
            PrefixChain(front) && (last == "" || k == -1 || fulls[k] <= last)
  {
    var front, last := fulls[..|fulls| - 1], fulls[|fulls| - 1];
    if PrefixChain(fulls) {
      forall i, j | 0 <= i < j < |front| && front[i] != "" && front[j] != "" ensures front[i] <= front[j] {
        assert fulls[i] <= fulls[j];
      }
    }
    if PrefixChain(front) && (last == "" || k == -1 || fulls[k] <= last) {
      forall i, j | 0 <= i < j < |fulls| && fulls[i] != "" && fulls[j] != "" ensures fulls[i] <= fulls[j] {
        if j < |front| {
          assert front[i] <= front[j];
        } else {
          assert i < k ==> front[i] <= front[k];
        }
      }
    }
  }
}
