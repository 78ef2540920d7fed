/** The tags that sanitising still strips from the front, whatever the case of their letters. */
module LeadingTags {
  import opened Strings
  import opened Sanitizer
  import LangTags

  /** White space of the pattern by code points: tab, line feed, form feed, carriage return and space. */
  lemma PatternSpacesByCode(c: char)
    ensures IsPatternSpace(c) <==> c as int in {9, 10, 12, 13, 32}
  {}

  /** The characters of a word: digits, letters of either case, and the underscore. */
  lemma WordCharsByCode(c: char)
    ensures var code := c as int;
      IsWordChar(c) <==> 48 <= code <= 57 || 65 <= code <= 90 || code == 95 || 97 <= code <= 122
  {}

  predicate AllSpaces(s: string) {
    forall k | 0 <= k < |s| :: IsPatternSpace(s[k])
  }

  lemma {:induction false} SkipsExactly(front: string, spaces: string, rest: string)
    requires AllSpaces(spaces) && (rest != "" ==> !IsPatternSpace(rest[0]))
    ensures SkipSpaces(front + spaces + rest, |front|) == |front| + |spaces|
    decreases |spaces|
  {
    var s := front + spaces + rest;
    if spaces != "" {
      assert s[|front|] == spaces[0];
      assert s == (front + [spaces[0]]) + spaces[1..] + rest;
      SkipsExactly(front + [spaces[0]], spaces[1..], rest);
    } else if rest != "" {
      assert s[|front|] == rest[0];
    }
  }

  /** The text spells the pattern but for the case of its letters. */
  predicate Spells(s: string, pat: string) {
    |s| == |pat| && forall k | 0 <= k < |s| :: Lower(s[k]) == pat[k]
  }

  /** An opening tag in any case, closed at the first `>`, its name ending there. */
  predicate IsOpening(name: string, attributes: string) {
    Spells(name, OPENING_TAG) && '>' !in attributes && (attributes != "" ==> !IsWordChar(attributes[0]))
  }

  lemma AngleIsNoSpace(c: char)
    requires Lower(c) == '<'
    ensures !IsPatternSpace(c)
  {}

  lemma SpelledPrefix(name: string, more: string, pat: string)
    requires Spells(name, pat)
    ensures HasPrefixFold(name + more, pat)
  {
    assert forall k | 0 <= k < |name| :: (name + more)[k] == name[k];
  }

  lemma OpeningEnds(name: string, attributes: string, more: string)
    requires IsOpening(name, attributes)
    ensures var tag := name + attributes + ">" + more;
      HasPrefixFold(tag, OPENING_TAG) && Index(tag, ">") == 5 + |attributes| && !IsWordChar(tag[5])
  {
    var tag := name + attributes + ">" + more;
    assert tag == name + (attributes + ">" + more);
    SpelledPrefix(name, attributes + ">" + more, OPENING_TAG);
    forall i | 0 <= i < 5 + |attributes| ensures tag[i] != '>' {
      if i < 5 {
        assert tag[i] == name[i] && Lower(name[i]) == OPENING_TAG[i];
      } else {
        assert tag[i] == attributes[i - 5];
      }
    }
    assert tag[5 + |attributes|] == '>';
    LangTags.AngleIndex(tag, 5 + |attributes|);
    assert tag[5] == if attributes == "" then '>' else attributes[0];
  }

  lemma LeadingTagAt(s: string, i: nat, tag: string)
    requires i <= |s| && SkipSpaces(s, 0) == i && s[i..] == tag
    ensures HasPrefixFold(tag, OPENING_TAG) && Index(tag, ">") >= 0 && !IsWordChar(tag[5]) ==>
      i + Index(tag, ">") + 1 <= |s| && LeadingTag(s) == SkipSpaces(s, i + Index(tag, ">") + 1)
    ensures !HasPrefixFold(tag, OPENING_TAG) && HasPrefixFold(tag, CLOSING_TAG) ==>
      i + 7 <= |s| && LeadingTag(s) == SkipSpaces(s, i + 7)
    ensures !HasPrefixFold(tag, CLOSING_TAG)
            && !(HasPrefixFold(tag, OPENING_TAG) && Index(tag, ">") >= 0 && !IsWordChar(tag[5]))
            ==> LeadingTag(s) == 0
  {
    hide Index, IsWordChar, SkipSpaces;
  }

  /** The pattern matches spaces, the tag and the spaces behind it. */
  lemma OpeningMatched(before: string, name: string, attributes: string, behind: string, rest: string)
    requires AllSpaces(before) && AllSpaces(behind) && (rest != "" ==> !IsPatternSpace(rest[0]))
    requires IsOpening(name, attributes)
    ensures var tag := name + attributes + ">";
      LeadingTag(before + tag + behind + rest) == |before| + |tag| + |behind|
  {
    hide LeadingTag, SkipSpaces, Index, HasPrefixFold, IsWordChar, IsPatternSpace, RemoveAll, CleanLangTags;
    var tag := name + attributes + ">";
    var more := behind + rest;
    var s := before + tag + behind + rest;
    assert s == "" + before + (tag + more) && (tag + more)[0] == name[0];
    AngleIsNoSpace(name[0]);
    SkipsExactly("", before, tag + more);
    assert s[|before|..] == name + attributes + ">" + more;
    OpeningEnds(name, attributes, more);
    LeadingTagAt(s, |before|, name + attributes + ">" + more);
    SkipsExactly(before + tag, behind, rest);
  }

  lemma ClosingMatched(before: string, name: string, behind: string, rest: string)
    requires AllSpaces(before) && AllSpaces(behind) && (rest != "" ==> !IsPatternSpace(rest[0]))
    requires Spells(name, CLOSING_TAG)
    ensures LeadingTag(before + name + behind + rest) == |before| + |name| + |behind|
  {
    hide LeadingTag, SkipSpaces, Index, HasPrefixFold, IsWordChar, IsPatternSpace, RemoveAll, CleanLangTags;
    var more := behind + rest;
    var s := before + name + behind + rest;
    assert s == "" + before + (name + more) && (name + more)[0] == name[0];
    AngleIsNoSpace(name[0]);
    SkipsExactly("", before, name + more);
    assert s[|before|..] == name + more;
    SpelledPrefix(name, more, CLOSING_TAG);
    ClosingIsNoOpening(name, more);
    LeadingTagAt(s, |before|, name + more);
    SkipsExactly(before + name, behind, rest);
  }

  /** Nothing is matched where neither kind of tag begins, or an opening one has no end or goes on as a longer word. */
  lemma NothingMatched(before: string, rest: string)
    requires AllSpaces(before) && (rest != "" ==> !IsPatternSpace(rest[0]))
    requires !HasPrefixFold(rest, CLOSING_TAG)
    requires HasPrefixFold(rest, OPENING_TAG) ==> Index(rest, ">") < 0 || (|rest| > 5 && IsWordChar(rest[5]))
    ensures LeadingTag(before + rest) == 0
  {
    hide LeadingTag, SkipSpaces, Index, HasPrefixFold, IsWordChar, IsPatternSpace, RemoveAll, CleanLangTags;
    assert before + rest == "" + before + rest && (before + rest)[|before|..] == rest;
    SkipsExactly("", before, rest);
    LeadingTagAt(before + rest, |before|, rest);
  }

  lemma ClosingIsNoOpening(name: string, more: string)
    requires Spells(name, CLOSING_TAG)
    ensures !HasPrefixFold(name + more, OPENING_TAG)
  {
    assert (name + more)[1] == name[1] && Lower(name[1]) == '/';
  }

  /** What the pattern matches is stripped, and what follows is trimmed and stripped in turn. */
  lemma LeadingTagStripped(clean: string, rest: string)
    requires Trimmed(clean) && clean[LeadingTag(clean)..] == rest && |rest| < |clean|
    ensures StripLeadingTags(clean) == StripLeadingTags(TrimSpace(rest))
  {
    hide LeadingTag, TrimSpace;
  }

  /** An opening tag in capitals that is still open hides all that there is; with tags closed and before plain text only
      the text is shown. */
  lemma UnfinishedTagHidesAll(text: string)
    requires Trimmed(text) && text != "" && text[0] == '<'
    requires Index(text, OPENING_TAG) < 0 && Index(text, CLOSING_TAG) < 0
    requires CutCitation(text) == text && HasPrefixFold(text, OPENING_TAG) && Index(text, ">") < 0
    ensures Sanitize(text) == ""
  {
    hide CitationCut, TrimSpace, Index;
    TrimSpaceOfTrimmed(text);
    UntouchedByCleaning(text);
  }

  lemma UntouchedByCleaning(text: string)
    requires Index(text, OPENING_TAG) < 0 && Index(text, CLOSING_TAG) < 0
    ensures CleanLangTags(text) == text
  {
    hide Index;
  }

  lemma LeadingTagIsHidden(name: string, attributes: string, rest: string)
    requires IsOpening(name, attributes) && Trimmed(rest) && rest != "" && TagFree(rest) && !IsPatternSpace(rest[0])
    requires var text := name + attributes + ">" + rest;
      Index(text, OPENING_TAG) < 0 && Index(text, CLOSING_TAG) < 0 && CutCitation(text) == text
    ensures Sanitize(name + attributes + ">" + rest) == rest
  {
    hide CitationCut, TrimSpace, CleanLangTags, StripLeadingTags, LeadingTag, TagFree;
    var tag := name + attributes + ">";
    var text := tag + rest;
    FirstOfTag(name, attributes, rest);
    TrimSpaceOfTrimmed(text);
    TrimSpaceOfTrimmed(rest);
    UntouchedByCleaning(text);
    OpeningEnds(name, attributes, rest);
    OpeningMatched("", name, attributes, "", rest);
    assert "" + tag + "" + rest == text;
    assert text[|tag|..] == rest;
    LeadingTagStripped(text, rest);
    StripTagFree(rest);
  }

  lemma FirstOfTag(name: string, attributes: string, rest: string)
    requires Spells(name, OPENING_TAG) && Trimmed(rest) && rest != ""
    ensures var text := name + attributes + ">" + rest; Trimmed(text) && text[0] != BOM
  {
    var text := name + attributes + ">" + rest;
    assert text[0] == name[0] && Lower(name[0]) == '<' && text[|text| - 1] == rest[|rest| - 1];
  }
}
