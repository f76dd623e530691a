/** Worked conversions through `htmlToMarkdown`, pass by pass: a title and a paragraph
    holding bold text, and a paragraph that spans two lines. */
module MarkdownExamples {
  import opened TextOps
  import opened Patterns
  import opened Markdown

  /** Text on one line with no tag in it. */
  predicate Plain(x: string) {
    '<' !in x && NoLineBreak(x)
  }

  /** `<h1>t</h1>` */
  function Title(t: string): string {
    "<h1>" + t + "</h1>"
  }

  /** `<strong>w</strong>` */
  function Strong(w: string): string {
    "<strong>" + w + "</strong>"
  }

  /** `<p>b <strong>w</strong></p>` */
  function Para(b: string, w: string): string {
    "<p>" + (b + " " + Strong(w)) + "</p>"
  }

  /** `**w**` */
  function Bold(w: string): string {
    "**" + w + "**"
  }

  /** `b **w**` */
  function BoldText(b: string, w: string): string {
    b + " " + Bold(w)
  }

  /** `<p>b **w**</p>` */
  function BoldPara(b: string, w: string): string {
    "<p>" + BoldText(b, w) + "</p>"
  }

  /** `# t` and a blank line */
  function HeadingText(t: string): string {
    "# " + t + "\n\n"
  }

  lemma {:induction false} TagPatternOfLead(p: Pattern)
    requires Lead(p).Some?
    ensures TagPattern(p)
  {
  }

  lemma {:induction false} StrongLeadFree(w: string, c: char)
    requires Plain(w) && c != 's' && c != '/'
    ensures LeadFree(Strong(w), c)
  {
    assert LeadFree("<strong>", c) && LeadFree("</strong>", c);
    LeadFreeText(w, c);
    LeadFreeAppend("<strong>", w, c);
    LeadFreeAppend("<strong>" + w, "</strong>", c);
  }

  lemma {:induction false} BoldTextLeadFree(b: string, w: string, c: char)
    ensures Plain(b) && Plain(w) ==> LeadFree(BoldText(b, w), c)
  {
    if Plain(b) && Plain(w) {
      assert '<' !in BoldText(b, w);
      LeadFreeText(BoldText(b, w), c);
    }
  }

  lemma {:induction false} ParaLeadFree(b: string, w: string, c: char)
    requires Plain(b) && Plain(w) && c != 'p' && c != 's' && c != '/'
    ensures LeadFree(Para(b, w), c)
  {
    assert LeadFree("<p>", c) && LeadFree("</p>", c);
    LeadFreeText(b + " ", c);
    StrongLeadFree(w, c);
    LeadFreeAppend(b + " ", Strong(w), c);
    LeadFreeAppend("<p>", b + " " + Strong(w), c);
    LeadFreeAppend("<p>" + (b + " " + Strong(w)), "</p>", c);
  }

  lemma {:induction false} BoldParaLeadFree(b: string, w: string, c: char)
    requires Plain(b) && Plain(w) && c != 'p' && c != '/'
    ensures LeadFree(BoldPara(b, w), c)
  {
    assert LeadFree("<p>", c) && LeadFree("</p>", c);
    BoldTextLeadFree(b, w, c);
    LeadFreeAppend("<p>", BoldText(b, w), c);
    LeadFreeAppend("<p>" + BoldText(b, w), "</p>", c);
  }

  /** A pass that the text in front of `rest` cannot start, and that `rest` does not
      start either, leaves the whole alone. */
  lemma {:induction false} PassKeeps(head: string, rest: string, p: Pattern)
    requires Lead(p).Some? && '<' !in head && LeadFree(rest, Lead(p).value)
    ensures Replace(head + rest, p) == head + rest
  {
    TagPatternOfLead(p);
    ReplaceKeepsText(head, rest, p);
    ReplacePassesOver(rest, "", p);
    assert rest + "" == rest;
  }

  /** The h1 pass turns the title into a Markdown heading. */
  lemma {:induction false} TitlePass(t: string, b: string, w: string)
    requires Plain(t) && Plain(b) && Plain(w)
    ensures Replace(Title(t) + Para(b, w), Element("h1", "# ", "\n\n")) == HeadingText(t) + Para(b, w)
  {
    var p := Element("h1", "# ", "\n\n");
    assert "<h1>" == "<" + "h1" + ">" && "</h1>" == "</" + "h1" + ">";
    ElementPassRewrites(Title(t), Para(b, w), "h1", "", "<h1>", "</h1>", t, "# ", "\n\n");
    ParaLeadFree(b, w, 'h');
    PassKeeps("", Para(b, w), p);
    assert "" + Para(b, w) == Para(b, w);
  }

  /** The h2, h3 and h4 passes change nothing. */
  lemma {:induction false} HeadingPassKeeps(t: string, b: string, w: string, p: Pattern)
    requires Plain(t) && Plain(b) && Plain(w) && Lead(p) == Some('h')
    ensures Replace(HeadingText(t) + Para(b, w), p) == HeadingText(t) + Para(b, w)
  {
    ParaLeadFree(b, w, 'h');
    PassKeeps(HeadingText(t), Para(b, w), p);
  }

  /** The strong tags spelled out character by character;
      a step the solver does not take on its own. */
  lemma {:induction false} StrongTagsSpelled()
    ensures "<strong>" == "<" + "strong" + ">" && "</strong>" == "</" + "strong" + ">"
  {
  }

  /** A regrouping of the paragraph string; a step the solver does not take on its own. */
  lemma {:induction false} ParaSplit(h: string, b: string, w: string)
    ensures h + Para(b, w) == h + (("<p>" + b + " ") + (Strong(w) + "</p>"))
            && "<p>" + b + " " == "<p>" + (b + " ")
  {
  }

  /** A regrouping of the bold paragraph string;
      a step the solver does not take on its own. */
  lemma {:induction false} BoldParaJoin(h: string, b: string, w: string)
    ensures h + (("<p>" + b + " ") + (Bold(w) + ("</p>" + ""))) == h + BoldPara(b, w)
  {
    assert "</p>" + "" == "</p>";
  }

  lemma {:induction false} StrongRewrites(w: string)
    requires Plain(w)
    ensures Replace(Strong(w) + "</p>", Element("strong", "**", "**")) == Bold(w) + "</p>"
  {
    var p := Element("strong", "**", "**");
    StrongTagsSpelled();
    ElementPassRewrites(Strong(w), "</p>", "strong", "", "<strong>", "</strong>", w, "**", "**");
    assert LeadFree("</p>", 's');
    ReplacePassesOver("</p>", "", p);
    assert "</p>" + "" == "</p>";
  }

  lemma {:induction false} FrontLeadFree(b: string)
    requires Plain(b)
    ensures LeadFree("<p>" + b + " ", 's')
  {
    assert LeadFree("<p>", 's');
    LeadFreeText(b + " ", 's');
    LeadFreeAppend("<p>", b + " ", 's');
    assert "<p>" + b + " " == "<p>" + (b + " ");
  }

  /** The strong pass turns `<strong>w</strong>` into `**w**`. */
  lemma {:induction false} StrongPass(t: string, b: string, w: string)
    requires Plain(t) && Plain(b) && Plain(w)
    ensures Replace(HeadingText(t) + Para(b, w), Element("strong", "**", "**"))
         == HeadingText(t) + BoldPara(b, w)
  {
    var p := Element("strong", "**", "**");
    var front := "<p>" + b + " ";
    var h := HeadingText(t);
    ParaSplit(h, b, w);
    ReplaceKeepsText(h, front + (Strong(w) + "</p>"), p);
    FrontLeadFree(b);
    ReplacePassesOver(front, Strong(w) + "</p>", p);
    StrongRewrites(w);
    BoldParaJoin(h, b, w);
  }

  /** `</p>` is too short for `</ul>` or `</ol>`. */
  lemma {:induction false} CloseParagraphKept(p: Pattern)
    requires p.CloseTag? && |p.tag| >= 2
    ensures Replace("</p>", p) == "</p>"
  {
    assert MatchAt(p, "</p>").None?;
    ReplaceMiss("</p>", p);
    assert "</p>"[1..] == "/p>" + "";
    ReplaceKeepsText("/p>", "", p);
  }

  /** The passes between the strong pass and the paragraph pass change nothing. */
  lemma {:induction false} MiddlePassKeeps(t: string, b: string, w: string, p: Pattern)
    requires Plain(t) && Plain(b) && Plain(w)
    requires Lead(p).Some? && Lead(p) != Some('p')
    requires Lead(p) != Some('/') || (p.CloseTag? && |p.tag| >= 2)
    ensures Replace(HeadingText(t) + BoldPara(b, w), p) == HeadingText(t) + BoldPara(b, w)
  {
    var h := HeadingText(t);
    if Lead(p) == Some('/') {
      var front := "<p>" + BoldText(b, w);
      assert LeadFree("<p>", '/');
      BoldTextLeadFree(b, w, '/');
      LeadFreeAppend("<p>", BoldText(b, w), '/');
      TagPatternOfLead(p);
      assert h + BoldPara(b, w) == h + (front + "</p>");
      ReplaceKeepsText(h, front + "</p>", p);
      ReplacePassesOver(front, "</p>", p);
      CloseParagraphKept(p);
    } else {
      BoldParaLeadFree(b, w, Lead(p).value);
      PassKeeps(h, BoldPara(b, w), p);
    }
  }

  lemma {:induction false} BoldTextPlain(b: string, w: string)
    requires Plain(b) && Plain(w)
    ensures Plain(BoldText(b, w))
  {
    var x := BoldText(b, w);
    forall i | 0 <= i < |x|
      ensures x[i] != '<' && !IsLineBreak(x[i])
    {
      if i < |b| { assert x[i] == b[i]; }
      else if |b| + 3 <= i < |b| + 3 + |w| { assert x[i] == w[i - |b| - 3]; }
    }
  }

  /** The paragraph tags spelled out character by character;
      a step the solver does not take on its own. */
  lemma {:induction false} ParaTagsSpelled()
    ensures "<p>" == "<" + "p" + ">" && "</p>" == "</" + "p" + ">"
  {
  }

  lemma {:induction false} BoldParaRewrites(b: string, w: string)
    requires Plain(b) && Plain(w)
    ensures Replace(BoldPara(b, w), Element("p", "", "\n\n")) == BoldText(b, w) + "\n\n"
  {
    var q := BoldPara(b, w);
    BoldTextPlain(b, w);
    ParaTagsSpelled();
    ElementPassRewrites(q, "", "p", "", "<p>", "</p>", BoldText(b, w), "", "\n\n");
    EmptyEnds(q, BoldText(b, w) + "\n\n");
  }

  /** Concatenating the empty string at either end changes nothing;
      a step the solver does not take on its own. */
  lemma {:induction false} EmptyEnds(q: string, x: string)
    ensures q + "" == q && "" + x + "" == x
  {
  }

  /** The paragraph pass unwraps the paragraph and ends it with a blank line. */
  lemma {:induction false} ParagraphPass(t: string, b: string, w: string)
    requires Plain(t) && Plain(b) && Plain(w)
    ensures Replace(HeadingText(t) + BoldPara(b, w), Element("p", "", "\n\n"))
         == HeadingText(t) + BoldText(b, w) + "\n\n"
  {
    ReplaceKeepsText(HeadingText(t), BoldPara(b, w), Element("p", "", "\n\n"));
    BoldParaRewrites(b, w);
  }

  function TitleGroup(): seq<Pattern> {
    [Element("h1", "# ", "\n\n")]
  }

  function HeadingGroup(): seq<Pattern> {
    [Element("h2", "## ", "\n\n"), Element("h3", "### ", "\n\n"), Element("h4", "#### ", "\n\n")]
  }

  function StrongGroup(): seq<Pattern> {
    [Element("strong", "**", "**")]
  }

  function EmphasisGroup(): seq<Pattern> {
    [Element("b", "**", "**"), Element("em", "*", "*"), Element("i", "*", "*")]
  }

  function LinkGroup(): seq<Pattern> {
    [Anchor, Image]
  }

  function ListGroup(): seq<Pattern> {
    [ OpenTag("ul", "\n"), CloseTag("ul", "\n"), OpenTag("ol", "\n"), CloseTag("ol", "\n"),
      Element("li", "- ", "\n") ]
  }

  function ParagraphGroup(): seq<Pattern> {
    [Element("p", "", "\n\n")]
  }

  /** The conversion passes in five groups. */
  lemma {:induction false} ConversionGroups()
    ensures ConversionPasses()
         == TitleGroup() + HeadingGroup() + StrongGroup()
          + EmphasisGroup() + LinkGroup() + ListGroup() + ParagraphGroup()
  {
  }

  lemma {:induction false} HeadingGroupKeeps(t: string, b: string, w: string)
    requires Plain(t) && Plain(b) && Plain(w)
    ensures ApplyPasses(HeadingText(t) + Para(b, w), HeadingGroup()) == HeadingText(t) + Para(b, w)
  {
    forall p | p in HeadingGroup()
      ensures Replace(HeadingText(t) + Para(b, w), p) == HeadingText(t) + Para(b, w)
    {
      HeadingPassKeeps(t, b, w, p);
    }
    ApplyPassesKeep(HeadingText(t) + Para(b, w), HeadingGroup());
  }

  /** Each pass of `ps` is one of those between the strong pass and the paragraph pass. */
  lemma {:induction false} MiddleGroupKeeps(t: string, b: string, w: string, ps: seq<Pattern>)
    requires Plain(t) && Plain(b) && Plain(w)
    requires ps == EmphasisGroup() || ps == LinkGroup() || ps == ListGroup()
    ensures ApplyPasses(HeadingText(t) + BoldPara(b, w), ps) == HeadingText(t) + BoldPara(b, w)
  {
    forall p | p in ps
      ensures Replace(HeadingText(t) + BoldPara(b, w), p) == HeadingText(t) + BoldPara(b, w)
    {
      MiddlePassKeeps(t, b, w, p);
    }
    ApplyPassesKeep(HeadingText(t) + BoldPara(b, w), ps);
  }

  lemma {:induction false} SinglePasses(t: string, b: string, w: string)
    requires Plain(t) && Plain(b) && Plain(w)
    ensures ApplyPasses(Title(t) + Para(b, w), TitleGroup()) == HeadingText(t) + Para(b, w)
    ensures ApplyPasses(HeadingText(t) + Para(b, w), StrongGroup()) == HeadingText(t) + BoldPara(b, w)
    ensures ApplyPasses(HeadingText(t) + BoldPara(b, w), ParagraphGroup())
         == HeadingText(t) + BoldText(b, w) + "\n\n"
  {
    TitlePass(t, b, w);
    ApplyPassesOne(Title(t) + Para(b, w), TitleGroup()[0]);
    StrongPass(t, b, w);
    ApplyPassesOne(HeadingText(t) + Para(b, w), StrongGroup()[0]);
    ParagraphPass(t, b, w);
    ApplyPassesOne(HeadingText(t) + BoldPara(b, w), ParagraphGroup()[0]);
  }

  /** The sixteen conversion passes take the article to its Markdown text followed by a
      blank line. */
  lemma {:induction false} ConversionOfTitleAndPara(t: string, b: string, w: string)
    requires Plain(t) && Plain(b) && Plain(w)
    ensures ApplyPasses(Title(t) + Para(b, w), ConversionPasses())
         == HeadingText(t) + BoldText(b, w) + "\n\n"
  {
    var s0 := Title(t) + Para(b, w);
    var g0, g1, g2 := TitleGroup(), HeadingGroup(), StrongGroup();
    var g3, g4, g5, g6 := EmphasisGroup(), LinkGroup(), ListGroup(), ParagraphGroup();
    ConversionGroups();
    ApplyPassesAppend(s0, g0 + g1 + g2 + g3 + g4 + g5, g6);
    ApplyPassesAppend(s0, g0 + g1 + g2 + g3 + g4, g5);
    ApplyPassesAppend(s0, g0 + g1 + g2 + g3, g4);
    ApplyPassesAppend(s0, g0 + g1 + g2, g3);
    ApplyPassesAppend(s0, g0 + g1, g2);
    ApplyPassesAppend(s0, g0, g1);
    SinglePasses(t, b, w);
    HeadingGroupKeeps(t, b, w);
    MiddleGroupKeeps(t, b, w, g3);
    MiddleGroupKeeps(t, b, w, g4);
    MiddleGroupKeeps(t, b, w, g5);
  }

  /** The clean-up keeps the Markdown text and trims the trailing blank line. */
  lemma {:induction false} CleanUpOfTitleAndPara(t: string, b: string, w: string)
    requires Plain(t) && Plain(b) && Plain(w)
    ensures CleanUp(HeadingText(t) + BoldText(b, w) + "\n\n") == HeadingText(t) + BoldText(b, w)
  {
    var x := BoldText(b, w);
    var m := HeadingText(t) + x;
    BoldTextPlain(b, w);
    var s := m + "\n\n";
    assert '<' !in s;
    ReplaceKeepsText(s, "", AnyTag(""));
    assert s + "" == s;
    assert s == ("# " + t) + ("\n\n" + (x + "\n\n"));
    assert '\n' !in "# " + t;
    ReplaceKeepsText("# " + t, "\n\n" + (x + "\n\n"), NewlineRun("\n\n"));
    assert x[|b|] == ' ';
    CollapseShortRun(x + "\n\n");
    ReplaceKeepsText(x, "\n\n", NewlineRun("\n\n"));
    CollapseShortRun("");
    assert "\n\n" + "" == "\n\n";
    assert CollapseNewlines(s) == s;
    assert m[0] == '#' && m[|m| - 1] == '*';
    TrimDropsTrailing(m, "\n\n");
  }

  /** A regrouping of the whole example article;
      a step the solver does not take on its own. */
  lemma {:induction false} ArticleShape(t: string, b: string, w: string)
    ensures "<h1>" + t + "</h1>" + "<p>" + b + " <strong>" + w + "</strong></p>" == Title(t) + Para(b, w)
    ensures HeadingText(t) + BoldText(b, w) == "# " + t + "\n\n" + b + " **" + w + "**"
  {
  }

  /** `<h1>t</h1><p>b <strong>w</strong></p>` becomes `# t`, a blank line and
      `b **w**`, for any one-line texts `t`, `b` and `w` without tags. */
  lemma {:induction false} TitleAndBoldParagraph(t: string, b: string, w: string)
    requires Plain(t) && Plain(b) && Plain(w)
    ensures HtmlToMarkdown("<h1>" + t + "</h1>" + "<p>" + b + " <strong>" + w + "</strong></p>")
         == "# " + t + "\n\n" + b + " **" + w + "**"
  {
    ArticleShape(t, b, w);
    ConversionOfTitleAndPara(t, b, w);
    CleanUpOfTitleAndPara(t, b, w);
  }

  /** `<p>a` and `b</p>` on two lines */
  function TwoLinePara(a: string, b: string): string {
    "<p>" + (a + "\n" + b) + "</p>"
  }

  /** A regrouping of the two-line paragraph; a step the solver does not take on its own. */
  lemma {:induction false} TwoLineParaSpelled(a: string, b: string)
    ensures var s := TwoLinePara(a, b);
            && |s| == |a| + |b| + 8
            && s[0] == '<' && s[1] == 'p' && s[2] == '>' && s[3 + |a|] == '\n'
            && (forall i :: 0 <= i < |a| ==> s[3 + i] == a[i])
            && s[1..] == "p>" + (a + "\n" + b) + "</p>"
            && s[3..] == (a + "\n" + b) + "</p>"
  {
  }

  /** The paragraph pass does not match a paragraph whose closing tag is on a later
      line. */
  lemma {:induction false} TwoLineParaUnmatched(a: string, b: string)
    requires Plain(a) && Plain(b)
    ensures MatchAt(Element("p", "", "\n\n"), TwoLinePara(a, b)).None?
  {
    var s := TwoLinePara(a, b);
    TwoLineParaSpelled(a, b);
    assert StartsOpen(s, "p");
    assert FindChar(s, '>', 2) == Some(2);
    forall k | 2 < k <= 3 + |a|
      ensures !CloseAt(s, "p", k)
    {
      if k < 3 + |a| { assert s[k] == a[k - 3]; }
    }
    ElementStopsAtLineBreak(s, "p", "", "\n\n", 3 + |a|);
  }

  lemma {:induction false} ClosingParaKeptBy(p: Pattern)
    requires Lead(p).Some? && Lead(p) != Some('/')
    ensures Replace("</p>", p) == "</p>"
  {
    assert LeadFree("</p>", Lead(p).value);
    PassKeeps("", "</p>", p);
    assert "" + "</p>" == "</p>";
  }

  /** After its `<`, nothing of the two-line paragraph is matched by the paragraph
      pass. */
  lemma {:induction false} TwoLineParaTailKept(a: string, b: string)
    requires Plain(a) && Plain(b)
    ensures var tail := "p>" + (a + "\n" + b) + "</p>";
            Replace(tail, Element("p", "", "\n\n")) == tail
  {
    var p := Element("p", "", "\n\n");
    var head := "p>" + (a + "\n" + b);
    assert '<' !in head;
    ReplaceKeepsText(head, "</p>", p);
    ClosingParaKeptBy(p);
  }

  /** The paragraph pass leaves a paragraph that spans two lines as it is. */
  lemma {:induction false} TwoLineParaKept(a: string, b: string)
    requires Plain(a) && Plain(b)
    ensures Replace(TwoLinePara(a, b), Element("p", "", "\n\n")) == TwoLinePara(a, b)
  {
    var p := Element("p", "", "\n\n");
    var s := TwoLinePara(a, b);
    TwoLineParaSpelled(a, b);
    TwoLineParaUnmatched(a, b);
    ReplaceMiss(s, p);
    TwoLineParaTailKept(a, b);
    assert s == [s[0]] + s[1..];
  }

  lemma {:induction false} ClosingParaStripped()
    ensures StripTags("</p>") == ""
  {
    assert FindChar("</p>", '>', 1) == Some(3);
    assert MatchAt(AnyTag(""), "</p>") == Some(Match(4, ""));
    assert "</p>"[4..] == "";
  }

  /** The final strip removes both paragraph tags and keeps the line break between them. */
  lemma {:induction false} TwoLineParaStripped(a: string, b: string)
    requires Plain(a) && Plain(b)
    ensures StripTags(TwoLinePara(a, b)) == a + "\n" + b
  {
    var s := TwoLinePara(a, b);
    var text := a + "\n" + b;
    TwoLineParaSpelled(a, b);
    assert FindChar(s, '>', 1) == Some(2);
    assert s == "<p>" + (text + "</p>");
    ReplaceHit("<p>", text + "</p>", AnyTag(""), "");
    assert '<' !in text;
    ReplaceKeepsText(text, "</p>", AnyTag(""));
    ClosingParaStripped();
    assert text + "" == text;
  }

  /** A paragraph that spans two lines is not turned into its text and a blank line by
      the paragraph pass; only the final strip removes its tags. */
  lemma {:induction false} TwoLineParagraph(a: string, b: string)
    requires Plain(a) && Plain(b)
    ensures Replace(TwoLinePara(a, b), Element("p", "", "\n\n")) == TwoLinePara(a, b)
    ensures StripTags(TwoLinePara(a, b)) == a + "\n" + b
  {
    TwoLineParaKept(a, b);
    TwoLineParaStripped(a, b);
  }
}
