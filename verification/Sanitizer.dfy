/** Cleaning of assistant text for display: language tags and unfinished citations are hidden. */
module Sanitizer {
  import opened Strings

  // ---------- Unfinished citations ----------

  /** The scanner is outside a citation, just behind `[`, or inside `[^ ...`.
      `start` is the position of the opening bracket, -1 outside. */
  datatype Scan = Scan(state: nat, start: int)

  function ScanStep(scan: Scan, c: char, i: nat): Scan {
    if scan.state == 0 then
      if c == '[' then Scan(1, i) else scan
    else if scan.state == 1 then
      if c == '^' then Scan(2, scan.start)
      else if c == '[' then Scan(1, i)
      else Scan(0, -1)
    else
      if c == ']' then Scan(0, -1) else scan
  }

  function ScanCitations(s: string): (r: Scan)
    ensures r.state <= 2
    ensures r.state == 0 ==> r.start == -1
    ensures r.state == 1 ==> r.start == |s| - 1
    ensures r.state == 2 ==> 0 <= r.start < |s| - 1
  {
    if s == "" then Scan(0, -1)
    else ScanStep(ScanCitations(s[..|s| - 1]), s[|s| - 1], |s| - 1)
  }

  function CitationCut(s: string): (n: nat)
    ensures n <= |s|
  {
    var scan := ScanCitations(s);
    if scan.state != 0 then scan.start else |s|
  }

  function CutCitation(s: string): string {
    s[..CitationCut(s)]
  }

  method TrimTrailingIncompleteCitation(text: string) returns (r: string)
    ensures r == text[..CitationOpening(text, 0)]
    ensures r == CutCitation(text)
  {
    var state, start := 0, -1;
    for i := 0 to |text|
      invariant Scan(state, start) == ScanCitations(text[..i])
    {
      assert text[..i + 1][..i] == text[..i];
      var ch := text[i];
      if state == 0 {
        if ch == '[' { state, start := 1, i; }
      } else if state == 1 {
        if ch == '^' { state := 2; }
        else if ch == '[' { start := i; }
        else { state, start := 0, -1; }
      } else {
        if ch == ']' { state, start := 0, -1; }
      }
    }
    assert text[..|text|] == text;
    ScannerFindsOpening(text);
    if state != 0 && start >= 0 { return text[..start]; }
    return text;
  }

  /** What the scanner looks for, said with look-ahead: the first bracket from `i` on that either
      ends the text or opens a `[^` citation without a closing bracket. */
  function CitationOpening(s: string, i: nat): (n: nat)
    requires i <= |s|
    decreases |s| - i
    ensures i <= n <= |s|
  {
    if i == |s| then i
    else if s[i] != '[' then CitationOpening(s, i + 1)
    else if i + 1 == |s| then i
    else if s[i + 1] != '^' then CitationOpening(s, i + 1)
    else
      var close := ClosingBracket(s, i + 2);
      if close == |s| then i else CitationOpening(s, close + 1)
  }

  function ClosingBracket(s: string, i: nat): (n: nat)
    requires i <= |s|
    decreases |s| - i
    ensures i <= n <= |s|
    ensures forall k | i <= k < n :: s[k] != ']'
    ensures n < |s| ==> s[n] == ']'
  {
    if i < |s| && s[i] != ']' then ClosingBracket(s, i + 1) else i
  }

  lemma ScannerFindsOpening(s: string)
    ensures CitationCut(s) == CitationOpening(s, 0)
  {
    OpeningFromOutside(s, 0);
  }

  lemma ScanNext(s: string, i: nat)
    requires i < |s|
    ensures ScanCitations(s[..i + 1]) == ScanStep(ScanCitations(s[..i]), s[i], i)
  {
    assert s[..i + 1][..i] == s[..i];
  }

  lemma {:induction false} OpeningFromOutside(s: string, i: nat)
    requires i <= |s| && ScanCitations(s[..i]).state == 0
    ensures CitationCut(s) == CitationOpening(s, i)
    decreases |s| - i, 1
  {
    if i == |s| {
      assert s[..i] == s;
    } else {
      ScanNext(s, i);
      if s[i] != '[' {
        OpeningFromOutside(s, i + 1);
      } else {
        OpeningFromBracket(s, i);
      }
    }
  }

  lemma {:induction false} OpeningFromBracket(s: string, i: nat)
    requires i < |s| && s[i] == '[' && ScanCitations(s[..i + 1]) == Scan(1, i)
    ensures CitationCut(s) == CitationOpening(s, i)
    decreases |s| - i, 0
  {
    if i + 1 == |s| {
      assert s[..i + 1] == s;
    } else {
      ScanNext(s, i + 1);
      if s[i + 1] == '^' {
        OpeningFromCitation(s, i);
      } else if s[i + 1] == '[' {
        OpeningFromBracket(s, i + 1);
      } else {
        OpeningFromOutside(s, i + 2);
      }
    }
  }

  lemma {:induction false} OpeningFromCitation(s: string, i: nat)
    requires i + 1 < |s| && s[i] == '[' && s[i + 1] == '^' && ScanCitations(s[..i + 2]) == Scan(2, i)
    ensures CitationCut(s) == CitationOpening(s, i)
    decreases |s| - i - 1, 2
  {
    var close := ClosingBracket(s, i + 2);
    StayInside(s, i, close);
    if close == |s| {
      assert s[..close] == s;
    } else {
      ScanNext(s, close);
      OpeningFromOutside(s, close + 1);
    }
  }

  lemma {:induction false} StayInside(s: string, start: nat, k: nat)
    requires start + 2 <= k <= |s| && ScanCitations(s[..start + 2]) == Scan(2, start)
    requires forall m | start + 2 <= m < k :: s[m] != ']'
    ensures ScanCitations(s[..k]) == Scan(2, start)
  {
    if start + 2 < k {
      StayInside(s, start, k - 1);
      ScanNext(s, k - 1);
    }
  }

  /** The cut never moves back when text arrives behind it. */
  lemma {:induction false} CutCitationMonotone(s: string, t: string)
    requires s <= t
    ensures CutCitation(s) <= CutCitation(t)
  {
    if s != t {
      CutCitationMonotone(s, t[..|t| - 1]);
    }
  }

  // ---------- Language tags ----------

  const OPENING_TAG := "<lang"
  const CLOSING_TAG := "</lang>"

  /** The first `<lang` tag of a text, if any: where it begins, and where it ends when it is closed. */
  datatype Tag = NoTag | Closed(start: nat, end: nat) | Unclosed(start: nat)

  function FirstTag(text: string): (tag: Tag)
    ensures tag.NoTag? <==> Index(text, OPENING_TAG) < 0
    ensures tag.Closed? ==> tag.start < tag.end <= |text|
    ensures tag.Unclosed? ==> tag.start < |text|
  {
    var start := Index(text, OPENING_TAG);
    if start < 0 then NoTag
    else
      var rest := text[start..];
      var selfClosingEnd := Index(rest, "/>");
      var openTagEnd := Index(rest, ">");
      if selfClosingEnd >= 0 && (openTagEnd < 0 || selfClosingEnd <= openTagEnd) then
        Closed(start, start + selfClosingEnd + 2)
      else if openTagEnd >= 0 then
        Closed(start, start + openTagEnd + 1)
      else
        Unclosed(start)
  }

  /** `cleanAllLangTags`: removes the tags from the first one on, starting over after every removal. */
  function CleanLangTags(text: string): string
    decreases |text|
  {
    match FirstTag(text)
    case NoTag => RemoveAll(text, CLOSING_TAG)
    case Closed(start, end) => CleanLangTags(text[..start] + text[end..])
    case Unclosed(start) => RemoveAll(text[..start], CLOSING_TAG)
  }

  method CleanAllLangTags(input: string) returns (r: string)
    ensures r == CleanLangTags(input)
  {
    var text := input;
    while true
      invariant CleanLangTags(text) == CleanLangTags(input)
      decreases |text|
    {
      match FirstTag(text) {
        case NoTag => break;
        case Closed(start, end) => text := text[..start] + text[end..];
        case Unclosed(start) => return RemoveAll(text[..start], CLOSING_TAG);
      }
    }
    return RemoveAll(text, CLOSING_TAG);
  }

  /** Characters the class `\s` of the pattern matches. */
  predicate IsPatternSpace(c: char) {
    c == '\t' || c == '\n' || c == '\U{0C}' || c == '\r' || c == ' '
  }

  predicate IsWordChar(c: char) {
    '0' <= c <= '9' || 'A' <= c <= 'Z' || 'a' <= c <= 'z' || c == '_'
  }

  function SkipSpaces(s: string, i: nat): (n: nat)
    requires i <= |s|
    decreases |s| - i
    ensures i <= n <= |s|
    ensures n < |s| ==> !IsPatternSpace(s[n])
  {
    if i < |s| && IsPatternSpace(s[i]) then SkipSpaces(s, i + 1) else i
  }

  /** How much of `s` the anchored pattern for one leading tag matches; 0 when it does not match. */
  function LeadingTag(s: string): (n: nat)
    ensures n <= |s|
  {
    var i := SkipSpaces(s, 0);
    var tag := s[i..];
    var close := Index(tag, ">");
    if HasPrefixFold(tag, OPENING_TAG) && close >= 0 && !IsWordChar(tag[5]) then
      SkipSpaces(s, i + close + 1)
    else if HasPrefixFold(tag, CLOSING_TAG) then
      SkipSpaces(s, i + 7)
    else 0
  }

  function StripLeadingTags(clean: string): (r: string)
    requires Trimmed(clean)
    decreases |clean|
    ensures Trimmed(r)
  {
    var next := TrimSpace(clean[LeadingTag(clean)..]);
    if clean == "" || next == clean then clean
    else
      StripShrinks(clean);
      StripLeadingTags(next)
  }

  lemma StripShrinks(clean: string)
    requires Trimmed(clean)
    ensures var next := TrimSpace(clean[LeadingTag(clean)..]); next == clean || |next| < |clean|
  {
    if LeadingTag(clean) == 0 {
      assert clean[0..] == clean;
      TrimSpaceOfTrimmed(clean);
    }
  }

  // ---------- The whole sanitizer ----------

  const BOM: char := '\U{FEFF}'

  function DropBom(s: string): string {
    if s != "" && s[0] == BOM then s[1..] else s
  }

  /** `sanitizeAssistantVisibleText`. */
  function Sanitize(text: string): (r: string)
    ensures Trimmed(r)
  {
    var clean := TrimSpace(CutCitation(CleanLangTags(TrimSpace(DropBom(text)))));
    if HasPrefixFold(clean, OPENING_TAG) && Index(clean, ">") < 0 then ""
    else StripLeadingTags(clean)
  }

  method SanitizeAssistantVisibleText(text: string) returns (clean: string)
    ensures clean == Sanitize(text)
  {
    clean := CleanAllLangTags(TrimSpace(DropBom(text)));
    clean := TrimTrailingIncompleteCitation(clean);
    clean := TrimSpace(clean);
    if HasPrefixFold(clean, OPENING_TAG) && Index(clean, ">") < 0 { return ""; }
    while clean != ""
      invariant Trimmed(clean) && StripLeadingTags(clean) == Sanitize(text)
      decreases |clean|
    {
      var next := TrimSpace(clean[LeadingTag(clean)..]);
      StripShrinks(clean);
      if next == clean { break; }
      clean := next;
    }
  }

  predicate TagAt(s: string, i: nat) {
    i <= |s| && (HasPrefixFold(s[i..], OPENING_TAG) || HasPrefixFold(s[i..], CLOSING_TAG))
  }

  /** No language tag, in any letter case, begins anywhere in the text. */
  predicate TagFree(s: string) {
    forall i: nat | i <= |s| :: !TagAt(s, i)
  }

  lemma TagFreeSlice(s: string, lo: nat, hi: nat)
    requires TagFree(s) && lo <= hi <= |s|
    ensures TagFree(s[lo..hi])
  {
    forall i: nat ensures !TagAt(s[lo..hi], i) {
      if i <= hi - lo {
        assert s[lo..hi][i..] <= s[lo + i..];
        assert !TagAt(s, lo + i);
      }
    }
  }

  /** Text without `<` has no tag. */
  lemma NoAngleIsTagFree(s: string)
    requires '<' !in s
    ensures TagFree(s)
  {
    forall i: nat ensures !TagAt(s, i) {
      assert i < |s| ==> s[i] in s && Lower(s[i]) != '<';
    }
  }

  /** Without tags only trimming and the citation cut are left. */
  lemma SanitizeTagFree(text: string)
    requires TagFree(text)
    ensures Sanitize(text) == TrimSpace(CutCitation(TrimSpace(DropBom(text))))
  {
    var body := DropBom(text);
    TagFreeSlice(text, |text| - |body|, |text|);
    assert text[|text| - |body|..|text|] == body;
    var lo, hi := TrimSpaceSlice(body);
    TagFreeSlice(body, lo, hi);
    var inner := TrimSpace(body);
    CleanTagFree(inner);
    var cut := CutCitation(inner);
    assert cut == inner[0..|cut|];
    TagFreeSlice(inner, 0, |cut|);
    lo, hi := TrimSpaceSlice(cut);
    TagFreeSlice(cut, lo, hi);
    StripTagFree(TrimSpace(cut));
  }

  lemma StripTagFree(clean: string)
    requires Trimmed(clean) && TagFree(clean)
    ensures !HasPrefixFold(clean, OPENING_TAG) && StripLeadingTags(clean) == clean
  {
    assert clean[0..] == clean;
    assert !TagAt(clean, 0) && !TagAt(clean, SkipSpaces(clean, 0));
    assert LeadingTag(clean) == 0;
    TrimSpaceOfTrimmed(clean);
  }

  lemma CleanTagFree(s: string)
    requires TagFree(s)
    ensures CleanLangTags(s) == s
  {
    var open := Index(s, OPENING_TAG);
    assert open >= 0 ==> TagAt(s, open) by { ExactPrefixFolds(s, OPENING_TAG); }
    var close := Index(s, CLOSING_TAG);
    assert close >= 0 ==> TagAt(s, close) by { ExactPrefixFolds(s, CLOSING_TAG); }
  }

  lemma ExactPrefixFolds(s: string, pat: string)
    requires pat != "" && forall c | c in pat :: Lower(c) == c
    ensures var i := Index(s, pat); i >= 0 ==> HasPrefixFold(s[i..], pat)
  {
  }

  /** The heart of streaming: while no tag has appeared, longer raw text only extends the visible text. */
  lemma SanitizeMonotone(s: string, t: string)
    requires s <= t && TagFree(t)
    ensures Sanitize(s) <= Sanitize(t)
  {
    assert s == t[0..|s|];
    TagFreeSlice(t, 0, |s|);
    SanitizeTagFree(s);
    SanitizeTagFree(t);
    PlainMonotone(s, t);
  }

  lemma PlainMonotone(s: string, t: string)
    requires s <= t
    ensures TrimSpace(CutCitation(TrimSpace(DropBom(s)))) <= TrimSpace(CutCitation(TrimSpace(DropBom(t))))
  {
    TrimSpaceMonotone(DropBom(s), DropBom(t));
    CutCitationMonotone(TrimSpace(DropBom(s)), TrimSpace(DropBom(t)));
    TrimSpaceMonotone(CutCitation(TrimSpace(DropBom(s))), CutCitation(TrimSpace(DropBom(t))));
  }

  lemma {:induction false} NoBracketNoCut(s: string)
    requires '[' !in s
    ensures ScanCitations(s) == Scan(0, -1) && CutCitation(s) == s
  {
    if s != "" { NoBracketNoCut(s[..|s| - 1]); }
  }

  /** Whatever the text, if cleaning leaves no tag, only trimming and the citation cut follow. */
  lemma SanitizeOfClean(text: string)
    requires TagFree(CleanLangTags(TrimSpace(DropBom(text))))
    ensures Sanitize(text) == TrimSpace(CutCitation(CleanLangTags(TrimSpace(DropBom(text)))))
  {
    hide CleanLangTags, TagFree, StripLeadingTags, HasPrefixFold, TrimSpace, CitationCut;
    var clean := CleanLangTags(TrimSpace(DropBom(text)));
    var cut := CutCitation(clean);
    assert cut == clean[0..|cut|];
    TagFreeSlice(clean, 0, |cut|);
    var lo, hi := TrimSpaceSlice(cut);
    TagFreeSlice(cut, lo, hi);
    StripTagFree(TrimSpace(cut));
  }

  /** When cleaning leaves plain trimmed text, that text is the result. */
  lemma SanitizeToPlain(text: string, clean: string)
    requires Trimmed(text) && (text == "" || text[0] != BOM) && CleanLangTags(text) == clean
    requires Trimmed(clean) && TagFree(clean) && '[' !in clean
    ensures Sanitize(text) == clean
  {
    hide CleanLangTags, TagFree, Sanitize, TrimSpace, CutCitation;
    TrimSpaceOfTrimmed(text);
    SanitizeOfClean(text);
    NoBracketNoCut(clean);
    TrimSpaceOfTrimmed(clean);
  }

  // ---------- Texts left alone ----------

  /** Nothing in the text is taken for a tag: none of either kind in lower case, and none, whatever its case,
      where the text begins. */
  predicate NoTagTaken(text: string) {
    && Index(text, OPENING_TAG) < 0 && Index(text, CLOSING_TAG) < 0 && LeadingTag(text) == 0
    && !(HasPrefixFold(text, OPENING_TAG) && Index(text, ">") < 0)
  }

  /** Trimmed, without a byte order mark in front, an open citation or anything taken for a tag. */
  predicate Presentable(text: string) {
    Trimmed(text) && (text == "" || text[0] != BOM) && CutCitation(text) == text && NoTagTaken(text)
  }

  /** Sanitising leaves exactly the presentable texts alone. */
  lemma ShownAsIs(text: string)
    ensures Sanitize(text) == text <==> Presentable(text)
  {
    hide CleanLangTags, CitationCut, TrimSpace, StripLeadingTags, LeadingTag;
    var body := DropBom(text);
    var inner := TrimSpace(body);
    var clean := CleanLangTags(inner);
    var visible := TrimSpace(CutCitation(clean));
    TrimmedIsKept(body);
    CleaningShortens(inner);
    TrimmedIsKept(CutCitation(clean));
    StrippingShortens(visible);
    CutIsShorter(clean);
    assert |visible| <= |CutCitation(clean)| <= |clean| <= |inner| <= |body| <= |text|;
    if Sanitize(text) == text {
      assert |text| <= |visible|;
      assert body == text && inner == text && clean == text && CutCitation(clean) == text && visible == text;
    } else if Trimmed(text) {
      TrimSpaceOfTrimmed(text);
    }
  }

  lemma CutIsShorter(text: string)
    ensures |CutCitation(text)| <= |text| && (|CutCitation(text)| == |text| ==> CutCitation(text) == text)
  {
    hide CitationCut;
  }

  lemma {:induction false} RemovingShortens(text: string, pat: string)
    requires pat != ""
    ensures |RemoveAll(text, pat)| <= |text|
    ensures if Index(text, pat) < 0 then RemoveAll(text, pat) == text else |RemoveAll(text, pat)| < |text|
    decreases |text|
  {
    var i := Index(text, pat);
    if i >= 0 { RemovingShortens(text[i + |pat|..], pat); }
  }

  lemma {:induction false} CleaningShortens(text: string)
    ensures if Index(text, OPENING_TAG) < 0 && Index(text, CLOSING_TAG) < 0 then CleanLangTags(text) == text
            else |CleanLangTags(text)| < |text|
    decreases |text|
  {
    hide Index, RemoveAll;
    match FirstTag(text)
    case NoTag => RemovingShortens(text, CLOSING_TAG);
    case Closed(start, end) => CleaningShortens(text[..start] + text[end..]);
    case Unclosed(start) => RemovingShortens(text[..start], CLOSING_TAG);
  }

  lemma {:induction false} StrippingShortens(clean: string)
    requires Trimmed(clean)
    ensures if LeadingTag(clean) == 0 then StripLeadingTags(clean) == clean
            else |StripLeadingTags(clean)| < |clean|
    decreases |clean|
  {
    hide LeadingTag, TrimSpace;
    var rest := clean[LeadingTag(clean)..];
    TrimmedIsKept(rest);
    if LeadingTag(clean) == 0 {
      TrimSpaceOfTrimmed(clean);
    } else {
      StrippingShortens(TrimSpace(rest));
    }
  }

  lemma TrimmedIsKept(text: string)
    ensures |TrimSpace(text)| <= |text| && (|TrimSpace(text)| == |text| ==> TrimSpace(text) == text)
  {
    var lo, hi := TrimSpaceSlice(text);
  }
}
