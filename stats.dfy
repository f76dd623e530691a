/** `calculateArticleStats` of route.ts: the word count of the article's text, the
    reading time at 200 words a minute, and the numbers of heading and image tags. */
module Stats {
  import opened TextOps
  import opened Patterns

  datatype ArticleStats = ArticleStats(wordCount: nat, readingTime: string, headingCount: nat, imageCount: nat)

  /** `html.replace(/<[^>]*>/g, ' ')` */
  function Spaced(html: string): string {
    Replace(html, AnyTag(" "))
  }

  /** `s.replace(/\s+/g, ' ')` */
  function SingleSpaced(s: string): string {
    Replace(s, SpaceRun(" "))
  }

  /** The text the words are counted in: tags turned into spaces, whitespace runs
      collapsed, both ends trimmed. */
  function TextContent(html: string): (r: string)
    ensures r == [] || (!IsSpace(r[0]) && !IsSpace(r[|r| - 1]))
  {
    Trim(SingleSpaced(Spaced(html)))
  }

  /** A word of `s` ends at index `i`. */
  predicate WordEndAt(s: string, i: nat) {
    i < |s| && !IsSpace(s[i]) && (i + 1 == |s| || IsSpace(s[i + 1]))
  }

  /** The number of whitespace-separated words of `s`. */
  function Words(s: string): nat
    decreases |s|
  {
    if s == [] then 0 else (if WordEndAt(s, 0) then 1 else 0) + Words(s[1..])
  }

  /** `textContent.split(/\s+/).length`: the number of words of the text once every tag
      is a space, and 1 when there is none. */
  function WordCount(html: string): (n: nat)
    ensures n == if Words(Spaced(html)) == 0 then 1 else Words(Spaced(html))
  {
    var t := TextContent(html);
    SplitLength(t, SpaceRun(""));
    WordsOfTrimmed(t);
    WordsOfTrim(SingleSpaced(Spaced(html)));
    WordsOfCollapse(Spaced(html));
    |Split(t, SpaceRun(""))|
  }

  /** `Math.ceil(words / 200)`: the least number of minutes of 200 words that covers the
      words. */
  function ReadingMinutes(words: nat): (m: nat)
    ensures 200 * m >= words
    ensures m == 0 || 200 * (m - 1) < words
  {
    (words + 199) / 200
  }

  /** `` `${readingTime} min` `` */
  function ReadingTime(words: nat): (r: string)
    ensures |r| > 4 && r[|r| - 4..] == " min"
    ensures IsDigits(r[..|r| - 4]) && ParseDecimal(r[..|r| - 4]) == ReadingMinutes(words)
  {
    var t := NatToString(ReadingMinutes(words)) + " min";
    assert t[..|t| - 4] == NatToString(ReadingMinutes(words));
    ParseNatToString(ReadingMinutes(words));
    t
  }

  /** `(html.match(/<h[1-6][^>]*>/gi) || []).length`: an opening heading tag is at least
      `<h1>` long, and the tags counted do not overlap. */
  function HeadingCount(html: string): (n: nat)
    ensures 4 * n <= |html|
  {
    assert forall t :: MatchAt(HeadingOpen, t).Some? ==> MatchAt(HeadingOpen, t).value.len >= 4;
    CountBound(html, HeadingOpen, 4);
    CountMatches(html, HeadingOpen)
  }

  /** `(html.match(/<img[^>]*>/gi) || []).length`: an image tag is at least `<img>` long,
      and the tags counted do not overlap. */
  function ImageCount(html: string): (n: nat)
    ensures 5 * n <= |html|
  {
    assert forall t :: MatchAt(OpenTag("img", ""), t).Some? ==> MatchAt(OpenTag("img", ""), t).value.len >= 5;
    CountBound(html, OpenTag("img", ""), 5);
    CountMatches(html, OpenTag("img", ""))
  }

  /** The statistics of an article. */
  function CalculateArticleStats(html: string): (r: ArticleStats)
    ensures r.wordCount >= 1
    ensures r.wordCount == if Words(Spaced(html)) == 0 then 1 else Words(Spaced(html))
    ensures |r.readingTime| > 4 && r.readingTime[|r.readingTime| - 4..] == " min"
    ensures IsDigits(r.readingTime[..|r.readingTime| - 4])
    ensures var m := ParseDecimal(r.readingTime[..|r.readingTime| - 4]);
            m >= 1 && 200 * (m - 1) < r.wordCount <= 200 * m
    ensures r.headingCount == HeadingCount(html) && r.imageCount == ImageCount(html)
  {
    var w := WordCount(html);
    var t := ReadingTime(w);
    ArticleStats(w, t, HeadingCount(html), ImageCount(html))
  }

  lemma {:induction false} WordsSpaceFront(c: char, t: string)
    requires IsSpace(c)
    ensures Words([c] + t) == Words(t)
  {
    assert ([c] + t)[1..] == t;
  }

  lemma {:induction false} WordsWordFront(c: char, t: string)
    requires !IsSpace(c)
    ensures Words([c] + t) == (if t == [] || IsSpace(t[0]) then 1 else 0) + Words(t)
  {
    assert ([c] + t)[1..] == t;
  }

  /** Leading whitespace holds no word. */
  lemma {:induction false} WordsSkipSpaces(s: string, n: nat)
    requires n <= |s| && AllSpace(s[..n])
    ensures Words(s) == Words(s[n..])
    decreases n
  {
    if n > 0 {
      assert s[0] == s[..n][0];
      assert s == [s[0]] + s[1..];
      WordsSpaceFront(s[0], s[1..]);
      assert s[1..][..n - 1] == s[..n][1..];
      WordsSkipSpaces(s[1..], n - 1);
      assert s[1..][n - 1..] == s[n..];
    }
  }

  /** Trailing whitespace holds no word either. */
  lemma {:induction false} WordsAppendSpaces(m: string, b: string)
    requires AllSpace(b)
    ensures Words(m + b) == Words(m)
    decreases |m|
  {
    if m == [] {
      assert m + b == b;
      WordsSkipSpaces(b, |b|);
      assert b[..|b|] == b;
    } else {
      var t := m[1..];
      assert m + b == [m[0]] + (t + b);
      assert m == [m[0]] + t;
      WordsAppendSpaces(t, b);
      if IsSpace(m[0]) {
        WordsSpaceFront(m[0], t + b);
        WordsSpaceFront(m[0], t);
      } else {
        WordsWordFront(m[0], t + b);
        WordsWordFront(m[0], t);
        if t != [] { assert (t + b)[0] == t[0]; }
        else { assert t + b == b; }
      }
    }
  }

  /** Trimming keeps every word. */
  lemma {:induction false} WordsOfTrim(y: string)
    ensures Words(Trim(y)) == Words(y)
  {
    var r := Trim(y);
    var l := LeadingSpaces(y);
    WordsSkipSpaces(y, l);
    assert y[l..] == r + y[l + |r|..];
    WordsAppendSpaces(r, y[l + |r|..]);
  }

  /** The collapse keeps whether the text starts with whitespace. */
  lemma {:induction false} CollapseFront(t: string)
    requires t != []
    ensures SingleSpaced(t) != [] && (IsSpace(SingleSpaced(t)[0]) <==> IsSpace(t[0]))
  {
  }

  /** Collapsing runs of whitespace to a single space keeps every word. */
  lemma {:induction false} WordsOfCollapse(x: string)
    ensures Words(SingleSpaced(x)) == Words(x)
    decreases |x|
  {
    if x != [] {
      if IsSpace(x[0]) {
        var l := LeadingSpaces(x);
        assert SingleSpaced(x) == [' '] + SingleSpaced(x[l..]);
        WordsSpaceFront(' ', SingleSpaced(x[l..]));
        WordsSkipSpaces(x, l);
        WordsOfCollapse(x[l..]);
      } else {
        var t := x[1..];
        assert SingleSpaced(x) == [x[0]] + SingleSpaced(t);
        assert x == [x[0]] + t;
        WordsWordFront(x[0], SingleSpaced(t));
        WordsWordFront(x[0], t);
        if t != [] { CollapseFront(t); }
        WordsOfCollapse(t);
      }
    }
  }

  /** In text without trailing whitespace, every whitespace run is followed by a word:
      the words are the runs, plus one when the text starts with a word. */
  lemma {:induction false} WordsAndRuns(s: string, o: string)
    requires s == [] || !IsSpace(s[|s| - 1])
    ensures Words(s) == CountMatches(s, SpaceRun(o)) + (if s != [] && !IsSpace(s[0]) then 1 else 0)
    decreases |s|
  {
    if s != [] {
      if IsSpace(s[0]) {
        var l := LeadingSpaces(s);
        assert l < |s|;
        WordsSkipSpaces(s, l);
        assert s[l..][|s[l..]| - 1] == s[|s| - 1];
        WordsAndRuns(s[l..], o);
      } else {
        var t := s[1..];
        assert s == [s[0]] + t;
        WordsWordFront(s[0], t);
        if t != [] { assert t[|t| - 1] == s[|s| - 1]; }
        WordsAndRuns(t, o);
      }
    }
  }

  /** Trimmed text has one word more than whitespace runs, unless it is empty. */
  lemma {:induction false} WordsOfTrimmed(t: string)
    requires t == [] || (!IsSpace(t[0]) && !IsSpace(t[|t| - 1]))
    ensures CountMatches(t, SpaceRun("")) + 1 == if Words(t) == 0 then 1 else Words(t)
  {
    WordsAndRuns(t, "");
  }

  /** Every `<h1>`…`<h6>` opening tag counts once, whatever its attributes and letter case. */
  lemma {:induction false} HeadingTagCounted(h: char, d: char, attrs: string, rest: string)
    requires Lower(h) == 'h' && '1' <= d <= '6' && '>' !in attrs
    ensures HeadingCount(['<', h, d] + attrs + ">" + rest) == 1 + HeadingCount(rest)
  {
    var tag := ['<', h, d] + attrs + ">";
    var s := tag + rest;
    assert s[0] == '<' && s[1] == h && s[2] == d;
    assert forall k :: 3 <= k < |tag| - 1 ==> s[k] == attrs[k - 3];
    assert s[|tag| - 1] == '>';
    assert FindChar(s, '>', 3) == Some(|tag| - 1);
    CountHit(tag, rest, HeadingOpen, "");
  }

  /** A closing heading tag is not counted. */
  lemma {:induction false} ClosingHeadingNotCounted(h: char, d: char, rest: string)
    requires '<' !in [h, d]
    ensures HeadingCount(['<', '/', h, d, '>'] + rest) == HeadingCount(rest)
  {
    var s := ['<', '/', h, d, '>'] + rest;
    assert MatchAt(HeadingOpen, s).None?;
    assert s[1..] == ['/', h, d, '>'] + rest;
    CountKeepsText(['/', h, d, '>'], rest, HeadingOpen);
  }

  /** Text without a `<` holds no heading and no image tag. */
  lemma {:induction false} PlainTextNotCounted(a: string, rest: string)
    requires '<' !in a
    ensures HeadingCount(a + rest) == HeadingCount(rest)
    ensures ImageCount(a + rest) == ImageCount(rest)
  {
    CountKeepsText(a, rest, HeadingOpen);
    CountKeepsText(a, rest, OpenTag("img", ""));
  }

  /** Every `<img …>` tag counts once, whatever its attributes and letter case. */
  lemma {:induction false} ImageTagCounted(name: string, attrs: string, rest: string)
    requires |name| == 3 && Lower(name[0]) == 'i' && Lower(name[1]) == 'm' && Lower(name[2]) == 'g'
    requires '>' !in attrs
    ensures ImageCount("<" + name + attrs + ">" + rest) == 1 + ImageCount(rest)
  {
    var tag := "<" + name + attrs + ">";
    var s := tag + rest;
    assert s == "<" + name + (attrs + ">" + rest);
    assert StartsOpen(s, "img") by {
      assert forall i :: 0 <= i < 3 ==> s[1 + i] == name[i];
    }
    assert forall k :: 4 <= k < |tag| - 1 ==> s[k] == attrs[k - 4];
    assert s[|tag| - 1] == '>';
    assert FindChar(s, '>', 4) == Some(|tag| - 1);
    CountHit(tag, rest, OpenTag("img", ""), "");
  }

  /** Tags that are not headings, such as `<p>`, `</p>`, `<strong>` or `<figure>`, add
      nothing to the heading count: no `<` in them is followed by an `h`. */
  lemma {:induction false} OtherTagsNotHeadings(a: string, rest: string)
    requires LeadFree(a, 'h')
    ensures HeadingCount(a + rest) == HeadingCount(rest)
  {
    CountPassesOver(a, rest, HeadingOpen);
  }

  /** Tags that are not images add nothing to the image count: no `<` in them is
      followed by an `i`. */
  lemma {:induction false} OtherTagsNotImages(a: string, rest: string)
    requires LeadFree(a, 'i')
    ensures ImageCount(a + rest) == ImageCount(rest)
  {
    assert Lead(OpenTag("img", "")) == Some('i');
    CountPassesOver(a, rest, OpenTag("img", ""));
  }

  /** No `<` of these tags is followed by an `h` or an `i`. */
  lemma {:induction false} ParagraphTagsLeadFree()
    ensures LeadFree("</h1><p>", 'h') && LeadFree("</p>", 'h')
    ensures LeadFree("<h1>", 'i') && LeadFree("</h1><p>", 'i') && LeadFree("</p>", 'i')
  {
  }

  /** Plain text between tags in which no `<` is followed by `c` keeps that so. */
  lemma {:induction false} PlainBetween(x: string, b: string, y: string, c: char)
    requires LeadFree(x, c) && LeadFree(y, c) && '<' !in b
    ensures LeadFree(x + b + y, c)
  {
    LeadFreeText(b, c);
    LeadFreeAppend(x, b, c);
    LeadFreeAppend(x + b, y, c);
  }

  /** A title and a paragraph of plain text hold one heading. */
  lemma {:induction false} TitleAndParaHeadings(t: string, b: string)
    requires '<' !in t && '<' !in b
    ensures HeadingCount("<h1>" + t + "</h1><p>" + b + "</p>") == 1
  {
    var tail := "</h1><p>" + b + "</p>";
    assert "<h1>" + t + "</h1><p>" + b + "</p>" == ['<', 'h', '1'] + "" + ">" + (t + tail);
    HeadingTagCounted('h', '1', "", t + tail);
    PlainTextNotCounted(t, tail);
    ParagraphTagsLeadFree();
    PlainBetween("</h1><p>", b, "</p>", 'h');
    assert tail + "" == tail;
    OtherTagsNotHeadings(tail, "");
  }

  /** A title and a paragraph of plain text hold no image. */
  lemma {:induction false} TitleAndParaImages(t: string, b: string)
    requires '<' !in t && '<' !in b
    ensures ImageCount("<h1>" + t + "</h1><p>" + b + "</p>") == 0
  {
    var s := "<h1>" + t + "</h1><p>" + b + "</p>";
    ParagraphTagsLeadFree();
    PlainBetween("<h1>", t, "</h1><p>", 'i');
    PlainBetween("<h1>" + t + "</h1><p>", b, "</p>", 'i');
    assert s + "" == s;
    OtherTagsNotImages(s, "");
  }
}
