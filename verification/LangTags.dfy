/** What tag cleaning means for a document of characters and tags: exactly the characters outside tags survive,
    unless they spell a tag themselves once the opening tags are gone. */
module LangTags {
  import opened Strings
  import opened Sanitizer

  /** A document is a run of plain characters, opening tags with their attributes, and closing tags. */
  datatype Token = Plain(c: char) | Open(attributes: string) | Close

  function WithoutOpens(doc: seq<Token>): seq<Token> {
    if doc == [] then [] else (if doc[0].Open? then [] else [doc[0]]) + WithoutOpens(doc[1..])
  }

  /** Plain characters from `i` on spell the pattern. */
  predicate SpellsAt(doc: seq<Token>, i: nat, pat: string) {
    i + |pat| <= |doc| && forall k | 0 <= k < |pat| :: doc[i + k] == Plain(pat[k])
  }

  /** Plain characters nowhere spell a tag. */
  predicate SpellsNoTag(doc: seq<Token>) {
    forall i: nat | i < |doc| :: !SpellsAt(doc, i, OPENING_TAG) && !SpellsAt(doc, i, CLOSING_TAG)
  }

  /** No attribute ends its tag early, and dropping the opening tags assembles no tag from plain characters. */
  predicate WellFormed(doc: seq<Token>) {
    (forall t | t in doc :: t.Open? ==> '>' !in t.attributes) && SpellsNoTag(WithoutOpens(doc))
  }

  lemma {:induction false} WithoutOpensAppend(a: seq<Token>, b: seq<Token>)
    ensures WithoutOpens(a + b) == WithoutOpens(a) + WithoutOpens(b)
  {
    if a == [] {
      assert a + b == b;
    } else {
      assert (a + b)[1..] == a[1..] + b;
      WithoutOpensAppend(a[1..], b);
    }
  }

  lemma {:induction false} WithoutOpensSame(doc: seq<Token>)
    requires forall t | t in doc :: !t.Open?
    ensures WithoutOpens(doc) == doc
  {
    if doc != [] { WithoutOpensSame(doc[1..]); }
  }

  lemma PartSpellsNoTag(a: seq<Token>, b: seq<Token>)
    requires SpellsNoTag(a + b)
    ensures SpellsNoTag(a) && SpellsNoTag(b)
  {
    forall i: nat, pat: string | i < |a| && SpellsAt(a, i, pat) ensures SpellsAt(a + b, i, pat) {
      assert forall k | 0 <= k < |a| :: (a + b)[k] == a[k];
    }
    forall i: nat, pat: string | i < |b| && SpellsAt(b, i, pat) ensures SpellsAt(a + b, |a| + i, pat) {
      assert forall k | 0 <= k < |b| :: (a + b)[|a| + k] == b[k];
    }
  }

  function Show(t: Token): (r: string)
    ensures r != ""
  {
    match t
    case Plain(c) => [c]
    case Open(attributes) => OPENING_TAG + attributes + ">"
    case Close => CLOSING_TAG
  }

  function Render(doc: seq<Token>): string {
    if doc == [] then "" else Show(doc[0]) + Render(doc[1..])
  }

  function Letter(t: Token): string {
    if t.Plain? then [t.c] else ""
  }

  function PlainText(doc: seq<Token>): string {
    if doc == [] then "" else Letter(doc[0]) + PlainText(doc[1..])
  }

  lemma {:induction false} RenderAppend(a: seq<Token>, b: seq<Token>)
    ensures Render(a + b) == Render(a) + Render(b)
  {
    if a == [] {
      assert a + b == b;
    } else {
      assert (a + b)[1..] == a[1..] + b;
      RenderAppend(a[1..], b);
    }
  }

  lemma {:induction false} PlainTextAppend(a: seq<Token>, b: seq<Token>)
    ensures PlainText(a + b) == PlainText(a) + PlainText(b)
  {
    if a == [] {
      assert a + b == b;
    } else {
      assert (a + b)[1..] == a[1..] + b;
      PlainTextAppend(a[1..], b);
    }
  }

  predicate NoTagBefore(s: string, n: nat, pat: string) {
    forall i: nat | i < n :: !OccursAt(s, i, pat)
  }

  lemma NoIndex(s: string, pat: string)
    requires pat != "" && NoTagBefore(s, |s|, pat)
    ensures Index(s, pat) == -1
  {
  }

  /** A first character that is no bracket is a plain token. */
  lemma FirstIsPlain(doc: seq<Token>, rest: string)
    requires (rest == "" || rest[0] == '<') && Render(doc) + rest != "" && (Render(doc) + rest)[0] != '<'
    ensures doc != [] && doc[0] == Plain((Render(doc) + rest)[0])
    ensures (Render(doc) + rest)[1..] == Render(doc[1..]) + rest
  {
    if doc != [] {
      RenderFirst(doc, rest);
      hide Render;
      assert (Render(doc) + rest)[0] == Show(doc[0])[0];
    }
  }

  /** Text without brackets, found in front of nothing or of a bracket, is spelled by characters. */
  lemma {:induction false} SpelledInFront(doc: seq<Token>, rest: string, pat: string)
    requires '<' !in pat && pat <= Render(doc) + rest && (rest == "" || rest[0] == '<')
    ensures SpellsAt(doc, 0, pat)
    decreases |pat|
  {
    hide Render;
    if pat != "" {
      var text := Render(doc) + rest;
      assert pat[0] == text[0] && pat[0] in pat;
      FirstIsPlain(doc, rest);
      assert pat[1..] <= text[1..];
      SpelledInFront(doc[1..], rest, pat[1..]);
      assert forall k | 1 <= k < |pat| :: doc[1..][k - 1] == doc[k] && pat[1..][k - 1] == pat[k];
    }
  }

  lemma SpelledWithBracket(doc: seq<Token>, rest: string, pat: string)
    requires pat != "" && pat[0] == '<' && '<' !in pat[1..] && (rest == "" || rest[0] == '<')
    requires doc != [] && doc[0] == Plain('<') && pat <= Render(doc) + rest
    ensures SpellsAt(doc, 0, pat)
  {
    hide Render;
    RenderFirst(doc, rest);
    var text := Render(doc) + rest;
    assert text[1..] == Render(doc[1..]) + rest && pat[1..] <= text[1..];
    SpelledInFront(doc[1..], rest, pat[1..]);
    assert forall k | 1 <= k < |pat| :: doc[1..][k - 1] == doc[k] && pat[1..][k - 1] == pat[k];
  }

  lemma CloseIsNoOpening(tail: string)
    ensures !(OPENING_TAG <= CLOSING_TAG + tail)
  {
    assert (CLOSING_TAG + tail)[1] == '/' && OPENING_TAG[1] == 'l';
  }

  lemma NoTagInFront(doc: seq<Token>, rest: string, opening: bool)
    requires SpellsNoTag(doc) && doc != [] && (rest == "" || rest[0] == '<')
    requires if opening then !doc[0].Open? else doc[0].Plain?
    ensures !OccursAt(Render(doc) + rest, 0, if opening then OPENING_TAG else CLOSING_TAG)
  {
    hide Render, SpellsAt;
    var pat := if opening then OPENING_TAG else CLOSING_TAG;
    var text := Render(doc) + rest;
    assert text[0..] == text;
    RenderFirst(doc, rest);
    if doc[0].Close? {
      CloseIsNoOpening(Render(doc[1..]) + rest);
    } else if pat <= text {
      assert doc[0].c == text[0] == pat[0] == '<';
      SpelledWithBracket(doc, rest, pat);
    }
  }

  lemma RenderFirst(doc: seq<Token>, rest: string)
    requires doc != []
    ensures Render(doc) + rest == Show(doc[0]) + (Render(doc[1..]) + rest)
  {}

  /** Tokens of the other kinds in front do not hide or fake the pattern. */
  lemma {:induction false} PrefixHasNoTag(doc: seq<Token>, rest: string, opening: bool)
    requires SpellsNoTag(doc) && (rest == "" || rest[0] == '<')
    requires forall t | t in doc :: if opening then !t.Open? else t.Plain?
    ensures NoTagBefore(Render(doc) + rest, |Render(doc)|, if opening then OPENING_TAG else CLOSING_TAG)
  {
    if doc != [] {
      var pat := if opening then OPENING_TAG else CLOSING_TAG;
      var head, tail := Show(doc[0]), Render(doc[1..]) + rest;
      assert doc == [doc[0]] + doc[1..];
      PartSpellsNoTag([doc[0]], doc[1..]);
      PrefixHasNoTag(doc[1..], rest, opening);
      NoTagInFront(doc, rest, opening);
      RenderFirst(doc, rest);
      assert |Render(doc)| == |head| + |Render(doc[1..])|;
      hide SpellsNoTag, Render, NoTagBefore;
      assert forall i | 0 < i < |head| :: head[i] != '<';
      NoTagBehind(head, tail, |Render(doc[1..])|, pat);
    }
  }

  /** A head with a bracket at most in front adds no occurrence but one at its beginning. */
  lemma NoTagBehind(head: string, tail: string, n: nat, pat: string)
    requires pat != "" && pat[0] == '<' && forall i | 0 < i < |head| :: head[i] != '<'
    requires !OccursAt(head + tail, 0, pat) && n <= |tail| && NoTagBefore(tail, n, pat)
    ensures NoTagBefore(head + tail, |head| + n, pat)
  {
    forall i: nat | i < |head| + n ensures !OccursAt(head + tail, i, pat) {
      if 0 < i < |head| {
        assert (head + tail)[i..][0] == head[i];
      } else if i > 0 {
        assert !OccursAt(tail, i - |head|, pat);
        assert (head + tail)[i..] == tail[i - |head|..];
      }
    }
  }

  function ShowOpen(attributes: string): string {
    OPENING_TAG + attributes + ">"
  }

  /** The first tag found is the whole opening tag, and cleaning goes on as if it had not been there. */
  lemma CleanFirstOpen(before: string, attributes: string, after: string)
    requires '>' !in attributes
    requires NoTagBefore(before + (ShowOpen(attributes) + after), |before|, OPENING_TAG)
    ensures CleanLangTags(before + (ShowOpen(attributes) + after)) == CleanLangTags(before + after)
  {
    var tag := ShowOpen(attributes);
    FirstIndexAt(before, tag + after);
    OpenTagEnd(attributes, after);
    CleanClosedTag(before, tag, after);
  }

  lemma CleanClosedTag(before: string, tag: string, after: string)
    requires tag != "" && Index(before + (tag + after), OPENING_TAG) == |before|
    requires Index(tag + after, ">") == |tag| - 1
    requires var k := Index(tag + after, "/>"); k < 0 || k == |tag| - 2 || k > |tag| - 1
    ensures CleanLangTags(before + (tag + after)) == CleanLangTags(before + after)
  {
    hide FirstTag, Index, RemoveAll, TrimSpace;
    var text := before + (tag + after);
    assert text[|before|..] == tag + after;
    FirstTagClosed(text, |before|, tag + after, |tag| - 1);
    assert |before| + |tag| - 1 + 1 == |before| + |tag|;
    assert text[..|before|] == before && text[|before| + |tag|..] == after;
  }

  lemma FirstTagClosed(text: string, start: nat, rest: string, n: nat)
    requires start <= |text| && text[start..] == rest && Index(text, OPENING_TAG) == start
    requires Index(rest, ">") == n
    requires var k := Index(rest, "/>"); k < 0 || k == n - 1 || k > n
    ensures FirstTag(text) == Closed(start, start + n + 1)
  {
  }

  lemma FirstIndexAt(before: string, rest: string)
    requires OPENING_TAG <= rest && NoTagBefore(before + rest, |before|, OPENING_TAG)
    ensures Index(before + rest, OPENING_TAG) == |before|
  {
    assert (before + rest)[|before|..] == rest;
    assert OccursAt(before + rest, |before|, OPENING_TAG);
    IndexIs(before + rest, |before|, OPENING_TAG);
  }

  lemma OpenTagEnd(attributes: string, after: string)
    requires '>' !in attributes
    ensures var rest := ShowOpen(attributes) + after;
            var n := |ShowOpen(attributes)| - 1;
            var k := Index(rest, "/>");
            Index(rest, ">") == n && (k < 0 || k == n - 1 || k > n)
  {
    var rest := ShowOpen(attributes) + after;
    var n := |ShowOpen(attributes)| - 1;
    forall i | 0 <= i < n ensures rest[i] != '>' {
      assert i >= 5 ==> rest[i] == attributes[i - 5];
    }
    AngleIndex(rest, n);
    SelfClosingIndex(rest, n);
  }

  lemma AngleIndex(rest: string, n: nat)
    requires n < |rest| && rest[n] == '>' && forall i | 0 <= i < n :: rest[i] != '>'
    ensures Index(rest, ">") == n
  {
    assert OccursAt(rest, n, ">");
    IndexIs(rest, n, ">");
  }

  /** When a self-closing end comes first, it ends at the same `>`. */
  lemma SelfClosingIndex(rest: string, n: nat)
    requires n < |rest| && rest[n] == '>' && forall i | 0 <= i < n :: rest[i] != '>'
    ensures var k := Index(rest, "/>"); k < 0 || k == n - 1 || k > n
  {
    var k := Index(rest, "/>");
    assert k >= 0 ==> OccursAt(rest, k, "/>") && rest[k..][1] == rest[k + 1];
  }

  lemma RemoveFirstClose(before: string, after: string)
    requires NoTagBefore(before + (CLOSING_TAG + after), |before|, CLOSING_TAG)
    ensures RemoveAll(before + (CLOSING_TAG + after), CLOSING_TAG) == before + RemoveAll(after, CLOSING_TAG)
  {
    var text := before + (CLOSING_TAG + after);
    assert text[|before|..] == CLOSING_TAG + after;
    assert OccursAt(text, |before|, CLOSING_TAG);
    IndexIs(text, |before|, CLOSING_TAG);
    assert text[|before| + |CLOSING_TAG|..] == after;
    assert text[..|before|] == before;
  }

  lemma RemoveFromPlain(doc: seq<Token>)
    requires SpellsNoTag(doc) && forall t | t in doc :: t.Plain?
    ensures RemoveAll(Render(doc), CLOSING_TAG) == PlainText(doc)
  {
    PlainRender(doc);
    PrefixHasNoTag(doc, "", false);
    assert Render(doc) + "" == Render(doc);
    NoIndex(Render(doc), CLOSING_TAG);
  }

  lemma SplitAtClose(before: seq<Token>, after: seq<Token>)
    requires SpellsNoTag(before) && forall t | t in before :: t.Plain?
    ensures var doc := before + ([Close] + after);
            RemoveAll(Render(doc), CLOSING_TAG) == Render(before) + RemoveAll(Render(after), CLOSING_TAG)
            && PlainText(doc) == Render(before) + PlainText(after)
  {
    var rest := [Close] + after;
    RenderAppend(before, rest);
    PlainTextAppend(before, rest);
    PlainRender(before);
    CloseInFront(after);
    PrefixHasNoTag(before, Render(rest), false);
    RemoveFirstClose(Render(before), Render(after));
  }

  lemma CloseInFront(after: seq<Token>)
    ensures Render([Close] + after) == CLOSING_TAG + Render(after)
    ensures PlainText([Close] + after) == PlainText(after)
  {
    assert ([Close] + after)[1..] == after;
  }

  lemma {:induction false} RemoveClosers(doc: seq<Token>)
    requires SpellsNoTag(doc) && forall t | t in doc :: !t.Open?
    ensures RemoveAll(Render(doc), CLOSING_TAG) == PlainText(doc)
    decreases |doc|
  {
    var k := FirstOf(doc, false);
    if k == |doc| {
      RemoveFromPlain(doc);
    } else {
      assert doc == doc[..k] + ([Close] + doc[k + 1..]);
      PartSpellsNoTag(doc[..k], [Close] + doc[k + 1..]);
      PartSpellsNoTag([Close], doc[k + 1..]);
      SplitAtClose(doc[..k], doc[k + 1..]);
      RemoveClosers(doc[k + 1..]);
    }
  }

  lemma {:induction false} PlainRender(doc: seq<Token>)
    requires forall t | t in doc :: t.Plain?
    ensures Render(doc) == PlainText(doc)
  {
    if doc != [] { PlainRender(doc[1..]); }
  }

  /** Position of the first opening (or closing) tag of a document. */
  function FirstOf(doc: seq<Token>, opening: bool): (k: nat)
    ensures k <= |doc|
    ensures forall i | 0 <= i < k :: if opening then !doc[i].Open? else !doc[i].Close?
    ensures k < |doc| ==> if opening then doc[k].Open? else doc[k].Close?
  {
    if doc == [] || (if opening then doc[0].Open? else doc[0].Close?) then 0
    else FirstOf(doc[1..], opening) + 1
  }

  lemma OpenInFront(tag: Token, after: seq<Token>)
    requires tag.Open?
    ensures Render([tag] + after) == ShowOpen(tag.attributes) + Render(after)
    ensures WithoutOpens([tag] + after) == WithoutOpens(after) && PlainText([tag] + after) == PlainText(after)
  {
    assert ([tag] + after)[1..] == after;
  }

  lemma CleanWithoutOpening(text: string)
    requires NoTagBefore(text, |text|, OPENING_TAG)
    ensures CleanLangTags(text) == RemoveAll(text, CLOSING_TAG)
  {
    NoIndex(text, OPENING_TAG);
    hide Index, RemoveAll;
  }

  /** Cleaning a rendered document gives back its plain characters, all of them and in order. */
  lemma {:induction false} CleaningKeepsPlainText(doc: seq<Token>)
    requires WellFormed(doc)
    ensures CleanLangTags(Render(doc)) == PlainText(doc)
    decreases |doc|
  {
    hide SpellsNoTag, SpellsAt, CleanLangTags, Index, RemoveAll, NoTagBefore, OccursAt, Render, PlainText;
    var k := FirstOf(doc, true);
    var before := doc[..k];
    assert doc == before + doc[k..];
    WithoutOpensAppend(before, doc[k..]);
    WithoutOpensSame(before);
    PartSpellsNoTag(before, WithoutOpens(doc[k..]));
    if k == |doc| {
      CleanWithoutOpens(doc);
    } else {
      var after := doc[k + 1..];
      assert doc[k..] == [doc[k]] + after;
      CleanPastOpen(before, doc[k], after);
      WithoutOpensAppend(before, after);
      assert forall t | t in before + after :: t in doc;
      CleaningKeepsPlainText(before + after);
    }
  }

  lemma CleanWithoutOpens(doc: seq<Token>)
    requires SpellsNoTag(doc) && forall t | t in doc :: !t.Open?
    ensures CleanLangTags(Render(doc)) == PlainText(doc)
  {
    hide SpellsNoTag, CleanLangTags, RemoveAll, Render, PlainText;
    PrefixHasNoTag(doc, "", true);
    assert Render(doc) + "" == Render(doc);
    CleanWithoutOpening(Render(doc));
    RemoveClosers(doc);
  }

  /** Cleaning forgets the first opening tag, and so does the plain text. */
  lemma CleanPastOpen(before: seq<Token>, tag: Token, after: seq<Token>)
    requires SpellsNoTag(before) && (forall t | t in before :: !t.Open?)
    requires tag.Open? && '>' !in tag.attributes
    ensures var doc := before + ([tag] + after);
            CleanLangTags(Render(doc)) == CleanLangTags(Render(before + after))
            && PlainText(doc) == PlainText(before + after) && WithoutOpens([tag] + after) == WithoutOpens(after)
  {
    hide SpellsNoTag, CleanLangTags, NoTagBefore, Render, PlainText;
    RenderAppend(before, [tag] + after);
    RenderAppend(before, after);
    PlainTextAppend(before, [tag] + after);
    PlainTextAppend(before, after);
    OpenInFront(tag, after);
    PrefixHasNoTag(before, Render([tag] + after), true);
    CleanFirstOpen(Render(before), tag.attributes, Render(after));
  }
}
