/** The string operations of Go's `strings` package that the program relies on.
    A string is a sequence of Unicode code points. */
module Strings {

  /** White space as `unicode.IsSpace` defines it. */
  predicate IsSpace(c: char) {
    '\t' <= c <= '\r' || c == ' ' || c == '\U{85}' || c == '\U{A0}' || c == '\U{1680}'
    || '\U{2000}' <= c <= '\U{200A}' || c == '\U{2028}' || c == '\U{2029}'
    || c == '\U{202F}' || c == '\U{205F}' || c == '\U{3000}'
  }

  function TrimLeft(s: string): (r: string)
    ensures |r| <= |s|
    ensures r == "" || !IsSpace(r[0])
  {
    if s != "" && IsSpace(s[0]) then TrimLeft(s[1..]) else s
  }

  function TrimRight(s: string): (r: string)
    ensures r <= s
    ensures r == "" || !IsSpace(r[|r| - 1])
  {
    if s != "" && IsSpace(s[|s| - 1]) then TrimRight(s[..|s| - 1]) else s
  }

  /** `strings.TrimSpace`. */
  function TrimSpace(s: string): (r: string)
    ensures Trimmed(r)
    ensures |r| <= |s|
  {
    TrimRight(TrimLeft(s))
  }

  predicate Trimmed(s: string) {
    s == "" || (!IsSpace(s[0]) && !IsSpace(s[|s| - 1]))
  }

  lemma TrimSpaceOfTrimmed(s: string)
    requires Trimmed(s)
    ensures TrimSpace(s) == s
  {
  }

  lemma {:induction false} TrimLeftExtend(s: string, t: string)
    ensures TrimLeft(s) <= TrimLeft(s + t)
  {
    if s == "" {
    } else if IsSpace(s[0]) {
      assert (s + t)[1..] == s[1..] + t;
      TrimLeftExtend(s[1..], t);
    }
  }

  lemma {:induction false} TrimRightMonotone(s: string, t: string)
    requires s <= t
    ensures TrimRight(s) <= TrimRight(t)
  {
    if s == t {
    } else if IsSpace(t[|t| - 1]) {
      TrimRightMonotone(s, t[..|t| - 1]);
    }
  }

  /** Trimming keeps prefix order: more text behind never changes what is already visible. */
  lemma TrimSpaceMonotone(s: string, t: string)
    requires s <= t
    ensures TrimSpace(s) <= TrimSpace(t)
  {
    assert t == s + t[|s|..];
    TrimLeftExtend(s, t[|s|..]);
    TrimRightMonotone(TrimLeft(s), TrimLeft(t));
  }

  lemma {:induction false} TrimLeftSuffix(s: string)
    ensures TrimLeft(s) == s[|s| - |TrimLeft(s)|..]
  {
    if s != "" && IsSpace(s[0]) {
      TrimLeftSuffix(s[1..]);
      assert s[1..][|s| - 1 - |TrimLeft(s)|..] == s[|s| - |TrimLeft(s)|..];
    }
  }

  /** Trimming cuts a contiguous piece out of the text. */
  lemma TrimSpaceSlice(s: string) returns (lo: nat, hi: nat)
    ensures lo <= hi <= |s| && TrimSpace(s) == s[lo..hi]
  {
    TrimLeftSuffix(s);
    var left := TrimLeft(s);
    lo := |s| - |left|;
    hi := lo + |TrimRight(left)|;
    assert s[lo..] == left;
    assert s[lo..hi] == left[..hi - lo];
  }

  lemma {:induction false} TrimLeftDropsSpaces(s: string)
    ensures forall k | 0 <= k < |s| - |TrimLeft(s)| :: IsSpace(s[k])
  {
    if s != "" && IsSpace(s[0]) {
      TrimLeftDropsSpaces(s[1..]);
      assert forall k | 1 <= k < |s| :: s[k] == s[1..][k - 1];
    }
  }

  lemma {:induction false} TrimRightDropsSpaces(s: string)
    ensures forall k | |TrimRight(s)| <= k < |s| :: IsSpace(s[k])
  {
    if s != "" && IsSpace(s[|s| - 1]) { TrimRightDropsSpaces(s[..|s| - 1]); }
  }

  /** Trimming drops white space at both ends and nothing else, and leaves none there. */
  lemma TrimSpaceExactly(s: string) returns (lo: nat, hi: nat)
    ensures lo <= hi <= |s| && TrimSpace(s) == s[lo..hi] && Trimmed(s[lo..hi])
    ensures forall k | 0 <= k < lo || hi <= k < |s| :: IsSpace(s[k])
  {
    lo, hi := TrimSpaceSlice(s);
    TrimLeftSuffix(s);
    TrimLeftDropsSpaces(s);
    TrimRightDropsSpaces(TrimLeft(s));
    var left := TrimLeft(s);
    lo := |s| - |left|;
    hi := lo + |TrimRight(left)|;
    assert s[lo..] == left;
    assert s[lo..hi] == left[..hi - lo];
    assert forall k | lo <= k < |s| :: s[k] == left[k - lo];
  }

  /** The white space by code points: the five controls from the tab on, the space, next line, the no-break space, and
      the spaces and separators of Unicode. */
  lemma SpacesByCode(c: char)
    ensures var code := c as int;
      IsSpace(c) <==>
        || 9 <= code <= 13 || code == 32 || code == 133 || code == 160 || code == 5760
        || 8192 <= code <= 8202 || code == 8232 || code == 8233 || code == 8239 || code == 8287 || code == 12288
  {}

  /** `strings.HasSuffix`; `strings.HasPrefix(s, p)` is `p <= s`. */
  predicate HasSuffix(s: string, suffix: string) {
    |suffix| <= |s| && s[|s| - |suffix|..] == suffix
  }

  predicate OccursAt(s: string, i: nat, pat: string) {
    i + |pat| <= |s| && pat <= s[i..]
  }

  lemma OccursInTail(s: string, pat: string)
    requires s != ""
    ensures forall i: nat | 1 <= i && OccursAt(s, i, pat) :: OccursAt(s[1..], i - 1, pat)
  {
    assert forall i: nat | 1 <= i <= |s| :: s[i..] == s[1..][i - 1..];
  }

  /** `strings.Index`: the first place where `pat` occurs, or -1. */
  function Index(s: string, pat: string): (r: int)
    requires pat != ""
    ensures -1 <= r
    ensures r >= 0 ==> OccursAt(s, r, pat)
    ensures forall i: nat | r < 0 || i < r :: !OccursAt(s, i, pat)
  {
    if |s| < |pat| then -1
    else if pat <= s then 0
    else
      var r := Index(s[1..], pat);
      OccursInTail(s, pat);
      if r < 0 then -1 else
        assert s[1..][r..] == s[r + 1..];
        r + 1
  }

  /** The last place where `pat` occurs, or -1 (`strings.LastIndex`). */
  function LastIndex(s: string, pat: string): (r: int)
    requires pat != ""
    ensures -1 <= r
    ensures r >= 0 ==> OccursAt(s, r, pat)
    ensures forall i: nat | r < i :: !OccursAt(s, i, pat)
  {
    if |s| < |pat| then -1
    else
      var r := LastIndex(s[1..], pat);
      OccursInTail(s, pat);
      if r >= 0 then
        assert s[1..][r..] == s[r + 1..];
        r + 1
      else if pat <= s then 0
      else -1
  }

  lemma IndexIs(s: string, n: nat, pat: string)
    requires pat != "" && OccursAt(s, n, pat) && forall i: nat | i < n :: !OccursAt(s, i, pat)
    ensures Index(s, pat) == n
  {
  }

  /** `strings.ReplaceAll(s, pat, "")`: drops the occurrences found from left to right. */
  function RemoveAll(s: string, pat: string): (r: string)
    requires pat != ""
    decreases |s|
    ensures |r| <= |s|
    ensures Index(s, pat) < 0 ==> r == s
  {
    var i := Index(s, pat);
    if i < 0 then s else s[..i] + RemoveAll(s[i + |pat|..], pat)
  }

  /** Lower case of an ASCII letter; no other code point folds to a letter of `lang`. */
  function Lower(c: char): char {
    if 'A' <= c <= 'Z' then (c as int + 32) as char else c
  }

  /** The twenty-six capitals have their small letters thirty-two places on; nothing else changes. */
  lemma LowerByCode(c: char)
    ensures Lower(c) as int == c as int + (if 65 <= c as int <= 90 then 32 else 0)
  {}

  /** `strings.HasPrefix(strings.ToLower(s), pat)` for `pat` over `<`, `/`, `>` and the letters of `lang`. */
  predicate HasPrefixFold(s: string, pat: string) {
    |pat| <= |s| && forall i | 0 <= i < |pat| :: Lower(s[i]) == pat[i]
  }

  function Concat(parts: seq<string>): string {
    if parts == [] then "" else Concat(parts[..|parts| - 1]) + parts[|parts| - 1]
  }

  /** The number of leading code points two strings share. */
  function CommonPrefix(a: string, b: string): (n: nat)
    ensures n <= |a| && n <= |b| && a[..n] == b[..n]
    ensures n < |a| && n < |b| ==> a[n] != b[n]
  {
    if a != "" && b != "" && a[0] == b[0] then
      var n := CommonPrefix(a[1..], b[1..]);
      assert a[..n + 1] == [a[0]] + a[1..][..n];
      assert b[..n + 1] == [b[0]] + b[1..][..n];
      n + 1
    else 0
  }

  lemma CommonPrefixUnique(a: string, b: string, n: nat)
    requires n <= |a| && n <= |b| && a[..n] == b[..n]
    requires n < |a| && n < |b| ==> a[n] != b[n]
    ensures n == CommonPrefix(a, b)
  {
    var m := CommonPrefix(a, b);
    forall i | 0 <= i < n || 0 <= i < m ensures a[i] == b[i] {
      assert i < n ==> a[i] == a[..n][i] && b[i] == b[..n][i];
      assert i < m ==> a[i] == a[..m][i] && b[i] == b[..m][i];
    }
  }

  /** Go's `<` on strings: lexicographic on code points (UTF-8 keeps their order). */
  predicate Less(a: string, b: string) {
    b != "" && (a == "" || a[0] < b[0] || (a[0] == b[0] && Less(a[1..], b[1..])))
  }

  /** At `k` the strings part: `a` ends there or has the smaller character. */
  predicate PartsBefore(a: string, b: string, k: nat) {
    k <= |a| && k < |b| && a[..k] == b[..k] && (k == |a| || a[k] < b[k])
  }

  /** Dictionary order: the first difference decides, and a beginning comes before what it begins. */
  lemma {:induction false} LessIsDictionary(a: string, b: string)
    ensures Less(a, b) <==> exists k: nat :: PartsBefore(a, b, k)
  {
    if Less(a, b) {
      if a == "" || a[0] < b[0] {
        assert PartsBefore(a, b, 0);
      } else {
        LessIsDictionary(a[1..], b[1..]);
        var k: nat :| PartsBefore(a[1..], b[1..], k);
        assert a == [a[0]] + a[1..] && b == [b[0]] + b[1..];
        assert a[..k + 1] == [a[0]] + a[1..][..k] && b[..k + 1] == [b[0]] + b[1..][..k];
        assert PartsBefore(a, b, k + 1);
      }
    }
    if k: nat :| PartsBefore(a, b, k) {
      if k > 0 {
        assert a[0] == a[..k][0] == b[..k][0] == b[0];
        LessIsDictionary(a[1..], b[1..]);
        assert a[1..][..k - 1] == a[..k][1..] && b[1..][..k - 1] == b[..k][1..];
        assert PartsBefore(a[1..], b[1..], k - 1);
      }
    }
  }

  lemma {:induction false} LessIrreflexive(a: string)
    ensures !Less(a, a)
  {
    if a != "" { LessIrreflexive(a[1..]); }
  }

  lemma {:induction false} LessTransitive(a: string, b: string, c: string)
    requires Less(a, b) && Less(b, c)
    ensures Less(a, c)
  {
    if a != "" && a[0] == b[0] == c[0] {
      LessTransitive(a[1..], b[1..], c[1..]);
    }
  }

  lemma {:induction false} LessTotal(a: string, b: string)
    ensures a == b || Less(a, b) || Less(b, a)
  {
    if a != "" && b != "" && a[0] == b[0] {
      LessTotal(a[1..], b[1..]);
      assert a == [a[0]] + a[1..] && b == [b[0]] + b[1..];
    }
  }
}
