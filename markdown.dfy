/** `htmlToMarkdown` of route.ts: a fixed chain of global replace passes, a strip of
    every remaining tag, a collapse of blank-line runs and a final trim. */
module Markdown {
  import opened TextOps
  import opened Patterns

  /** The conversion passes, in the order route.ts applies them. */
  function ConversionPasses(): seq<Pattern> {
    [ Element("h1", "# ", "\n\n"), Element("h2", "## ", "\n\n"),
      Element("h3", "### ", "\n\n"), Element("h4", "#### ", "\n\n"),
      Element("strong", "**", "**"), Element("b", "**", "**"),
      Element("em", "*", "*"), Element("i", "*", "*"),
      Anchor, Image,
      OpenTag("ul", "\n"), CloseTag("ul", "\n"), OpenTag("ol", "\n"), CloseTag("ol", "\n"),
      Element("li", "- ", "\n"),
      Element("p", "", "\n\n") ]
  }

  /** `s` put through the passes `ps`, first to last. */
  function ApplyPasses(s: string, ps: seq<Pattern>): string
    decreases |ps|
  {
    if ps == [] then s else ApplyPasses(Replace(s, ps[0]), ps[1..])
  }

  /** `replace(/<[^>]*>/g, '')` */
  function StripTags(s: string): string {
    Replace(s, AnyTag(""))
  }

  /** `replace(/\n{3,}/g, '\n\n')` */
  function CollapseNewlines(s: string): string {
    Replace(s, NewlineRun("\n\n"))
  }

  /** No `<` is followed, anywhere later, by a `>`: no complete tag span is left. */
  predicate NoTagSpan(s: string) {
    forall i, j :: 0 <= i < j < |s| && s[i] == '<' ==> s[j] != '>'
  }

  /** No three newlines in a row. */
  predicate NoTripleNewline(s: string) {
    forall i :: 0 <= i < |s| - 2 ==> !(s[i] == '\n' && s[i + 1] == '\n' && s[i + 2] == '\n')
  }

  /** The Markdown rendering of an article. */
  function HtmlToMarkdown(html: string): (r: string)
    ensures NoTagSpan(r)
    ensures NoTripleNewline(r)
    ensures r == [] || (!IsSpace(r[0]) && !IsSpace(r[|r| - 1]))
  {
    CleanUp(ApplyPasses(html, ConversionPasses()))
  }

  /** The last three steps: strip the remaining tags, collapse runs of blank lines, trim. */
  function CleanUp(converted: string): (r: string)
    ensures NoTagSpan(r)
    ensures NoTripleNewline(r)
    ensures r == [] || (!IsSpace(r[0]) && !IsSpace(r[|r| - 1]))
  {
    var stripped := StripTags(converted);
    StripLeavesNoTagSpan(converted);
    var collapsed := CollapseNewlines(stripped);
    CollapseKeepsNoTagSpan(stripped);
    CollapseNoTriple(stripped);
    var r := Trim(collapsed);
    SliceKeepsNoTagSpan(collapsed, LeadingSpaces(collapsed), LeadingSpaces(collapsed) + |r|);
    SliceKeepsNoTripleNewline(collapsed, LeadingSpaces(collapsed), LeadingSpaces(collapsed) + |r|);
    r
  }

  lemma {:induction false} NoTagSpanCons(c: char, t: string)
    requires NoTagSpan(t) && (c == '<' ==> '>' !in t)
    ensures NoTagSpan([c] + t)
  {
    var s := [c] + t;
    forall i, j | 0 <= i < j < |s| && s[i] == '<'
      ensures s[j] != '>'
    {
      assert s[j] == t[j - 1];
      if i > 0 { assert s[i] == t[i - 1]; }
    }
  }

  lemma {:induction false} NoTagSpanAfterNewlines(a: string, t: string)
    requires forall k :: 0 <= k < |a| ==> a[k] == '\n'
    requires NoTagSpan(t)
    ensures NoTagSpan(a + t)
  {
    var s := a + t;
    forall i, j | 0 <= i < j < |s| && s[i] == '<'
      ensures s[j] != '>'
    {
      if i >= |a| { assert s[i] == t[i - |a|] && s[j] == t[j - |a|]; }
    }
  }

  lemma {:induction false} SliceKeepsNoTagSpan(s: string, i: nat, j: nat)
    requires i <= j <= |s| && NoTagSpan(s)
    ensures NoTagSpan(s[i..j])
  {
    var t := s[i..j];
    forall a, b | 0 <= a < b < |t| && t[a] == '<'
      ensures t[b] != '>'
    {
      assert t[a] == s[i + a] && t[b] == s[i + b];
    }
  }

  /** After the strip, no `<` is followed by a `>`. */
  lemma {:induction false} StripLeavesNoTagSpan(s: string)
    ensures NoTagSpan(StripTags(s))
    decreases |s|
  {
    if s != [] {
      match MatchAt(AnyTag(""), s)
      case Some(m) =>
        StripLeavesNoTagSpan(s[m.len..]);
        assert StripTags(s) == StripTags(s[m.len..]);
      case None =>
        StripLeavesNoTagSpan(s[1..]);
        if s[0] == '<' {
          assert FindChar(s, '>', 1).None?;
          assert forall k :: 0 <= k < |s| - 1 ==> s[1..][k] == s[k + 1];
          ReplaceAddsOnly(s[1..], AnyTag(""), '>');
        }
        NoTagSpanCons(s[0], StripTags(s[1..]));
    }
  }

  /** The blank-line collapse keeps a string free of tag spans. */
  lemma {:induction false} CollapseKeepsNoTagSpan(s: string)
    requires NoTagSpan(s)
    ensures NoTagSpan(CollapseNewlines(s))
    decreases |s|
  {
    if s != [] {
      match MatchAt(NewlineRun("\n\n"), s)
      case Some(m) =>
        SliceKeepsNoTagSpan(s, m.len, |s|);
        CollapseKeepsNoTagSpan(s[m.len..]);
        NoTagSpanAfterNewlines("\n\n", CollapseNewlines(s[m.len..]));
      case None =>
        SliceKeepsNoTagSpan(s, 1, |s|);
        CollapseKeepsNoTagSpan(s[1..]);
        if s[0] == '<' {
          assert forall k :: 0 <= k < |s| - 1 ==> s[1..][k] == s[k + 1];
          ReplaceAddsOnly(s[1..], NewlineRun("\n\n"), '>');
        }
        NoTagSpanCons(s[0], CollapseNewlines(s[1..]));
    }
  }

  lemma {:induction false} LeadingNewlinesCons(t: string)
    ensures LeadingNewlines("\n" + t) == 1 + LeadingNewlines(t)
  {
    assert ("\n" + t)[1..] == t;
  }

  /** The collapse shortens a leading run of three or more newlines to two. */
  lemma {:induction false} CollapseLead(s: string)
    ensures LeadingNewlines(CollapseNewlines(s))
         == if LeadingNewlines(s) >= 3 then 2 else LeadingNewlines(s)
    decreases |s|
  {
    var l := LeadingNewlines(s);
    if s != [] {
      if l >= 3 {
        var t := s[l..];
        assert t == [] || t[0] != '\n';
        CollapseLead(t);
        var x := CollapseNewlines(t);
        assert CollapseNewlines(s) == "\n" + ("\n" + x);
        LeadingNewlinesCons("\n" + x);
        LeadingNewlinesCons(x);
      } else {
        var x := CollapseNewlines(s[1..]);
        assert CollapseNewlines(s) == [s[0]] + x;
        if s[0] == '\n' {
          CollapseLead(s[1..]);
          LeadingNewlinesCons(x);
        }
      }
    }
  }

  lemma {:induction false} NoTripleAfterPair(x: string)
    requires NoTripleNewline(x) && (x == [] || x[0] != '\n')
    ensures NoTripleNewline("\n\n" + x)
  {
    var r := "\n\n" + x;
    forall i | 0 <= i < |r| - 2
      ensures !(r[i] == '\n' && r[i + 1] == '\n' && r[i + 2] == '\n')
    {
      if i >= 2 { assert r[i] == x[i - 2] && r[i + 1] == x[i - 1] && r[i + 2] == x[i]; }
      else { assert r[2] == x[0]; }
    }
  }

  lemma {:induction false} NoTripleCons(c: char, x: string)
    requires NoTripleNewline(x) && LeadingNewlines([c] + x) <= 2
    ensures NoTripleNewline([c] + x)
  {
    var r := [c] + x;
    forall i | 0 <= i < |r| - 2
      ensures !(r[i] == '\n' && r[i + 1] == '\n' && r[i + 2] == '\n')
    {
      if i >= 1 {
        assert r[i] == x[i - 1] && r[i + 1] == x[i] && r[i + 2] == x[i + 1];
      }
    }
  }

  /** After the collapse, no three newlines stand in a row. */
  lemma {:induction false} CollapseNoTriple(s: string)
    ensures NoTripleNewline(CollapseNewlines(s))
    decreases |s|
  {
    var l := LeadingNewlines(s);
    if s != [] {
      if l >= 3 {
        var t := s[l..];
        CollapseLead(t);
        CollapseNoTriple(t);
        var x := CollapseNewlines(t);
        assert CollapseNewlines(s) == "\n\n" + x;
        NoTripleAfterPair(x);
      } else {
        var x := CollapseNewlines(s[1..]);
        assert CollapseNewlines(s) == [s[0]] + x;
        CollapseNoTriple(s[1..]);
        CollapseLead(s);
        NoTripleCons(s[0], x);
      }
    }
  }

  lemma {:induction false} SliceKeepsNoTripleNewline(s: string, i: nat, j: nat)
    requires i <= j <= |s| && NoTripleNewline(s)
    ensures NoTripleNewline(s[i..j])
  {
    var t := s[i..j];
    forall a | 0 <= a < |t| - 2
      ensures !(t[a] == '\n' && t[a + 1] == '\n' && t[a + 2] == '\n')
    {
      assert t[a] == s[i + a] && t[a + 1] == s[i + a + 1] && t[a + 2] == s[i + a + 2];
    }
  }

  /** Passes applied in two groups, one after the other. */
  lemma {:induction false} ApplyPassesAppend(s: string, ps: seq<Pattern>, qs: seq<Pattern>)
    ensures ApplyPasses(s, ps + qs) == ApplyPasses(ApplyPasses(s, ps), qs)
    decreases |ps|
  {
    if ps == [] {
      assert ps + qs == qs;
    } else {
      assert (ps + qs)[0] == ps[0] && (ps + qs)[1..] == ps[1..] + qs;
      ApplyPassesAppend(Replace(s, ps[0]), ps[1..], qs);
    }
  }

  /** Passes that each leave `s` alone leave it alone together. */
  lemma {:induction false} ApplyPassesKeep(s: string, ps: seq<Pattern>)
    requires forall p :: p in ps ==> Replace(s, p) == s
    ensures ApplyPasses(s, ps) == s
    decreases |ps|
  {
    if ps != [] {
      assert ps[0] in ps;
      assert forall p :: p in ps[1..] ==> p in ps;
      ApplyPassesKeep(s, ps[1..]);
    }
  }

  /** There are sixteen conversion passes, and each matches only at a `<`. */
  lemma {:induction false} PassesNeedTag()
    ensures |ConversionPasses()| == 16 && forall p :: p in ConversionPasses() ==> TagPattern(p)
  {
    var ps := ConversionPasses();
    assert forall i :: 0 <= i < |ps| ==> TagPattern(ps[i]);
  }

  /** Text without `<` comes through the conversion passes unchanged, so its Markdown is
      only the clean-up of the text itself. */
  lemma {:induction false} PlainTextPassesThrough(s: string)
    requires '<' !in s
    ensures ApplyPasses(s, ConversionPasses()) == s
    ensures HtmlToMarkdown(s) == CleanUp(s)
  {
    PassesNeedTag();
    forall p | p in ConversionPasses()
      ensures Replace(s, p) == s
    {
      ReplaceKeepsText(s, [], p);
      assert s + [] == s;
    }
    ApplyPassesKeep(s, ConversionPasses());
  }

  lemma {:induction false} ApplyPassesOne(s: string, p: Pattern)
    ensures ApplyPasses(s, [p]) == Replace(s, p)
  {
    assert [p][1..] == [];
  }

  /** Where no three newlines stand in a row, the collapse changes nothing. */
  lemma {:induction false} CollapseKeeps(s: string)
    requires NoTripleNewline(s)
    ensures CollapseNewlines(s) == s
    decreases |s|
  {
    if s != [] {
      if |s| >= 3 { assert !(s[0] == '\n' && s[1] == '\n' && s[2] == '\n'); }
      assert LeadingNewlines(s) < 3;
      SliceKeepsNoTripleNewline(s, 1, |s|);
      CollapseKeeps(s[1..]);
      assert s == [s[0]] + s[1..];
    }
  }

  /** Collapsing twice is collapsing once. */
  lemma {:induction false} CollapseIdempotent(s: string)
    ensures CollapseNewlines(CollapseNewlines(s)) == CollapseNewlines(s)
  {
    CollapseNoTriple(s);
    CollapseKeeps(CollapseNewlines(s));
  }

  /** A run of two newlines before text that does not start with one is kept. */
  lemma {:induction false} CollapseShortRun(x: string)
    requires x == [] || x[0] != '\n'
    ensures CollapseNewlines("\n\n" + x) == "\n\n" + CollapseNewlines(x)
  {
    var y := "\n" + x;
    LeadingNewlinesCons(x);
    LeadingNewlinesCons(y);
    assert "\n\n" + x == "\n" + y;
    ReplaceMiss("\n" + y, NewlineRun("\n\n"));
    assert ("\n" + y)[1..] == y;
    ReplaceMiss(y, NewlineRun("\n\n"));
    assert y[1..] == x;
  }
}
