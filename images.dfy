/** The image step of route.ts: `generateImagePrompts`, which lists one prompt per
    requested image, and `insertImagesIntoArticle`, which splices a `<figure>` block per
    generated image into the article. */
module Images {
  import opened TextOps
  import opened Patterns

  const HeroLead := "Professional hero image for blog article about "
  const SectionLead := "Illustration or infographic related to "
  const SectionNumber := ", image "

  /** The prompt for the first, hero image: it ends with the topic. */
  function HeroPrompt(topic: string): (r: string)
    ensures |r| == |HeroLead| + |topic| && r[..|HeroLead|] == HeroLead && r[|HeroLead|..] == topic
  {
    HeroLead + topic
  }

  /** The prompt for image number `n` (counted from 1): it names the topic and ends with
      the number in decimal. */
  function SectionPrompt(topic: string, n: nat): (r: string)
    ensures var at := |SectionLead| + |topic| + |SectionNumber|;
      && at < |r| && r[|SectionLead|..|SectionLead| + |topic|] == topic
      && IsDigits(r[at..]) && ParseDecimal(r[at..]) == n
    ensures r[..|SectionLead|] == SectionLead
    ensures r[|SectionLead| + |topic|..|SectionLead| + |topic| + |SectionNumber|] == SectionNumber
  {
    var head := SectionLead + topic + SectionNumber;
    var r := head + NatToString(n);
    assert r[..|head|] == head;
    assert r[|head|..] == NatToString(n);
    assert head[|SectionLead|..|SectionLead| + |topic|] == topic;
    assert head[..|SectionLead|] == SectionLead;
    assert head[|SectionLead| + |topic|..] == SectionNumber;
    ParseNatToString(n);
    r
  }

  /** `generateImagePrompts`: the hero prompt, then one prompt for each further image. */
  method GenerateImagePrompts(topic: string, count: int) returns (prompts: seq<string>)
    ensures |prompts| == if count < 1 then 1 else count
    ensures prompts[0] == HeroPrompt(topic)
    ensures forall i :: 1 <= i < |prompts| ==> prompts[i] == SectionPrompt(topic, i + 1)
  {
    prompts := [HeroPrompt(topic)];
    var i := 1;
    while i < count
      invariant 1 <= i && (i <= count || i == 1)
      invariant |prompts| == i
      invariant prompts[0] == HeroPrompt(topic)
      invariant forall k :: 1 <= k < i ==> prompts[k] == SectionPrompt(topic, k + 1)
    {
      prompts := prompts + [SectionPrompt(topic, i + 1)];
      i := i + 1;
    }
  }

  /** Different image numbers give different prompts. */
  lemma {:induction false} PromptsDistinct(topic: string, m: nat, n: nat)
    requires SectionPrompt(topic, m) == SectionPrompt(topic, n)
    ensures m == n
  {
    var at := |SectionLead| + |topic| + |SectionNumber|;
    assert SectionPrompt(topic, m)[at..] == SectionPrompt(topic, n)[at..];
  }

  const FigureOpen := "\n<figure class=\"article-image\">\n  <img src=\""
  const FigureAlt := "\" alt=\"Image "
  const FigureCaption := "\" loading=\"lazy\" />\n  <figcaption>Figure "
  const FigureClose := "</figcaption>\n</figure>\n"

  /** The `<figure>` block for the image at `index` (counted from 0) with source `url`:
      its `alt` text is `Image n` and its caption `Figure n`, for `n` = `index + 1`. */
  function Figure(url: string, index: nat): (r: string)
    ensures |FigureOpen| + |url| < |r| && r[|FigureOpen|..|FigureOpen| + |url|] == url
  {
    var head := FigureOpen + url;
    var r := head + (FigureAlt + NatToString(index + 1) + FigureCaption + NatToString(index + 1) + FigureClose);
    assert r[..|head|] == head;
    r
  }

  /** `s.slice(0, k) + f + s.slice(k)` */
  function InsertAt(s: string, k: nat, f: string): (r: string)
    requires k <= |s|
    ensures |r| == |s| + |f| && r[k..k + |f|] == f
    ensures r[..k] == s[..k] && r[k + |f|..] == s[k..]
  {
    s[..k] + f + s[k..]
  }

  /** `s.slice(0, k) + s.slice(k + n)`: the inverse of an insertion. */
  function Remove(s: string, k: nat, n: nat): string
    requires k + n <= |s|
  {
    s[..k] + s[k + n..]
  }

  /** Removing an inserted block gives back the string it was inserted into. */
  lemma {:induction false} RemoveInserted(s: string, k: nat, f: string)
    requires k <= |s|
    ensures Remove(InsertAt(s, k, f), k, |f|) == s
  {
    var r := InsertAt(s, k, f);
    assert r[..k] + r[k + |f|..] == s[..k] + s[k..];
    assert s == s[..k] + s[k..];
  }

  /** Where the hero image goes: `result.indexOf('</p>') + 4`, clamped to the length as
      `slice` clamps it; with no `</p>` the offset is 3. */
  function HeroOffset(s: string): (r: nat)
    ensures r <= |s|
    ensures IndexOf(s, "</p>", 0) >= 0 ==>
              r >= 4 && OccursAt(s, "</p>", r - 4)
              && forall k: nat :: k < r - 4 ==> !OccursAt(s, "</p>", k)
    ensures IndexOf(s, "</p>", 0) == -1 ==> r == if |s| < 3 then |s| else 3
  {
    var e := IndexOf(s, "</p>", 0) + 4;
    if e < |s| then e else |s|
  }

  /** `result.indexOf('<h2', result.indexOf('<h2') + 1)`: the second `<h2` (letter case
      as written), or -1. */
  function SecondH2(s: string): (r: int)
    ensures r == -1 || (0 <= r < |s| && OccursAt(s, "<h2", r))
  {
    IndexOf(s, "<h2", IndexOf(s, "<h2", 0) + 1)
  }

  /** `html.split(/<h2[^>]*>/i)` */
  function Sections(html: string): (r: seq<string>)
    ensures |r| == CountMatches(html, OpenTag("h2", "")) + 1
  {
    SplitLength(html, OpenTag("h2", ""));
    Split(html, OpenTag("h2", ""))
  }

  /** `sections[index]` is truthy. */
  predicate SectionPresent(sections: seq<string>, index: nat) {
    index < |sections| && sections[index] != ""
  }

  /** One turn of the `forEach`: the hero image after the first paragraph, a later image
      before the second `<h2` when its section is present, otherwise nothing. */
  function InsertStep(result: string, sections: seq<string>, url: string, index: nat): (r: string)
    ensures index == 0 ==> |r| == |result| + |Figure(url, 0)|
    ensures index > 0 ==> (r == result <==> !(SectionPresent(sections, index) && SecondH2(result) >= 0))
    ensures r != result ==> |r| == |result| + |Figure(url, index)|
  {
    if index == 0 then InsertAt(result, HeroOffset(result), Figure(url, 0))
    else if SectionPresent(sections, index) && SecondH2(result) > -1 then
      InsertAt(result, SecondH2(result), Figure(url, index))
    else result
  }

  /** The article after the first `n` images. */
  function InsertUpTo(html: string, sections: seq<string>, urls: seq<string>, n: nat): (r: string)
    requires n <= |urls|
    decreases n
    ensures |r| >= |html| && (n >= 1 ==> |r| >= |html| + |Figure(urls[0], 0)|)
  {
    if n == 0 then html else InsertStep(InsertUpTo(html, sections, urls, n - 1), sections, urls[n - 1], n - 1)
  }

  /** `insertImagesIntoArticle` */
  method InsertImagesIntoArticle(html: string, urls: seq<string>) returns (result: string)
    ensures result == InsertUpTo(html, Sections(html), urls, |urls|)
    ensures urls == [] ==> result == html
  {
    result := html;
    var sections := Split(html, OpenTag("h2", ""));
    var index := 0;
    while index < |urls|
      invariant index <= |urls|
      invariant result == InsertUpTo(html, sections, urls, index)
    {
      ghost var before := result;
      result := InsertImage(result, sections, urls[index], index);
      InsertUpToNext(html, sections, urls, index, before, result);
      index := index + 1;
    }
  }

  /** The body of the `forEach` callback: it reassigns `result`. */
  method InsertImage(result: string, sections: seq<string>, url: string, index: nat) returns (next: string)
    ensures next == InsertStep(result, sections, url, index)
  {
    next := result;
    var imgTag := Figure(url, index);
    if index == 0 {
      var firstParagraphEnd := IndexOf(result, "</p>", 0) + 4;
      var cut := if firstParagraphEnd < |result| then firstParagraphEnd else |result|;
      next := result[..cut] + imgTag + result[cut..];
    } else if index < |sections| && sections[index] != "" {
      var sectionIndex := IndexOf(result, "<h2", IndexOf(result, "<h2", 0) + 1);
      if sectionIndex > -1 {
        next := result[..sectionIndex] + imgTag + result[sectionIndex..];
      }
    }
  }

  lemma {:induction false} InsertUpToNext(html: string, sections: seq<string>, urls: seq<string>, n: nat,
                                          before: string, after: string)
    requires n < |urls| && before == InsertUpTo(html, sections, urls, n)
    requires after == InsertStep(before, sections, urls[n], n)
    ensures after == InsertUpTo(html, sections, urls, n + 1)
  {
  }

  /** `<h2` (letter case as written) begins at index `k` of `s`. */
  predicate H2At(s: string, k: nat) {
    k + 3 <= |s| && s[k] == '<' && s[k + 1] == 'h' && s[k + 2] == '2'
  }

  /** `s` holds no `<h2`. */
  predicate NoH2(s: string) {
    forall k: nat :: k < |s| ==> !H2At(s, k)
  }

  /** A character that cannot be part of `<h2`. */
  predicate Breaker(c: char) {
    c != '<' && c != 'h' && c != '2'
  }

  /** No `<h2` of `s` spans the boundary before index `at`. */
  predicate Clean(s: string, at: nat) {
    forall k: nat :: k < at < k + 3 ==> !H2At(s, k)
  }

  /** A block that can be spliced in without creating or breaking a `<h2`: empty, or free
      of `<h2` with ends that cannot be part of one. */
  predicate Block(g: string) {
    g == [] || (Breaker(g[0]) && Breaker(g[|g| - 1]) && NoH2(g))
  }

  /** Where an index of the string before a splice at `at` of `n` characters lands. */
  function Shifted(r: int, at: nat, n: nat): int {
    if r < at then r else r + n
  }

  lemma {:induction false} OccursH2(s: string, k: nat)
    ensures OccursAt(s, "<h2", k) <==> H2At(s, k)
  {
    if k + 3 <= |s| {
      var w := s[k..k + 3];
      assert w[0] == s[k] && w[1] == s[k + 1] && w[2] == s[k + 2];
      if H2At(s, k) { assert w == "<h2"; }
    }
  }

  /** `indexOf('<h2', from)` in terms of `H2At`. */
  lemma {:induction false} IndexOfH2(s: string, from: nat)
    ensures var r := IndexOf(s, "<h2", from);
      && (r == -1 ==> forall k: nat :: from <= k ==> !H2At(s, k))
      && (r >= 0 ==> from <= r && H2At(s, r) && forall k: nat :: from <= k < r ==> !H2At(s, k))
  {
    var r := IndexOf(s, "<h2", from);
    forall k: nat | from <= k && (r == -1 || k < r)
      ensures !H2At(s, k)
    {
      OccursH2(s, k);
    }
    if r >= 0 { OccursH2(s, r); }
  }

  /** `SecondH2` is the second `<h2` of `s`: exactly one `<h2` comes before it, and it
      is `-1` exactly when `s` holds fewer than two. */
  lemma {:induction false} SecondH2Is(s: string)
    ensures var r := SecondH2(s);
      r >= 0 ==> H2At(s, r) && exists p: nat :: p < r && H2At(s, p) && forall k: nat :: k < r && k != p ==> !H2At(s, k)
    ensures SecondH2(s) == -1 ==> forall j: nat, k: nat :: j < k && H2At(s, j) ==> !H2At(s, k)
  {
    var p := IndexOf(s, "<h2", 0);
    IndexOfH2(s, 0);
    IndexOfH2(s, p + 1);
    var r := SecondH2(s);
    if r >= 0 {
      assert p >= 0;
      var q: nat := p;
      assert q < r && H2At(s, q);
    }
  }

  /** The first `<h2` at or after `from` is `r`. */
  lemma {:induction false} IndexOfH2Is(s: string, from: nat, r: int)
    requires r == -1 ==> forall k: nat :: from <= k ==> !H2At(s, k)
    requires r != -1 ==> from <= r && H2At(s, r) && forall k: nat :: from <= k < r ==> !H2At(s, k)
    ensures IndexOf(s, "<h2", from) == r
  {
    IndexOfH2(s, from);
  }

  /** A `<h2` of `x + g + y` is one of `x + y`, moved by `|g|` when it lies in `y`. */
  lemma {:induction false} H2Inserted(x: string, g: string, y: string, k: nat)
    requires Block(g) && Clean(x + y, |x|)
    ensures H2At(x + g + y, k) <==>
      (k + 3 <= |x| && H2At(x + y, k)) || (k >= |x| + |g| && H2At(x + y, k - |g|))
  {
    var s := x + g + y;
    var t := x + y;
    if k + 3 <= |x| {
      assert s[k] == t[k] && s[k + 1] == t[k + 1] && s[k + 2] == t[k + 2];
    } else if k < |x| {
      if g == [] {
        assert s == t;
      } else {
        if k + 3 <= |s| { assert s[|x|] == g[0]; }
      }
    } else if k + 3 <= |x| + |g| {
      if H2At(s, k) {
        assert g[k - |x|] == s[k] && g[k - |x| + 1] == s[k + 1] && g[k - |x| + 2] == s[k + 2];
        assert H2At(g, k - |x|);
      }
    } else if k < |x| + |g| {
      if k + 3 <= |s| { assert s[|x| + |g| - 1] == g[|g| - 1]; }
    } else {
      if k + 3 <= |s| {
        assert s[k] == t[k - |g|] && s[k + 1] == t[k - |g| + 1] && s[k + 2] == t[k - |g| + 2];
      }
    }
  }

  /** A splice moves every `indexOf('<h2', …)` answer by the spliced length, or not at all. */
  lemma {:induction false} IndexOfInserted(x: string, g: string, y: string, from: nat)
    requires Block(g) && Clean(x + y, |x|)
    ensures IndexOf(x + g + y, "<h2", if from <= |x| then from else from + |g|)
         == Shifted(IndexOf(x + y, "<h2", from), |x|, |g|)
  {
    var s := x + g + y;
    var t := x + y;
    var r := IndexOf(t, "<h2", from);
    var from' := if from <= |x| then from else from + |g|;
    var r' := Shifted(r, |x|, |g|);
    IndexOfH2(t, from);
    forall k: nat | from' <= k && (r == -1 || k < r')
      ensures !H2At(s, k)
    {
      H2Inserted(x, g, y, k);
    }
    if r >= 0 {
      H2Inserted(x, g, y, r');
      if r < |x| { assert r + 3 <= |x|; }
    }
    IndexOfH2Is(s, from', r');
  }

  /** A splice moves the second `<h2` by the spliced length, or not at all. */
  lemma {:induction false} SecondH2Inserted(x: string, g: string, y: string)
    requires Block(g) && Clean(x + y, |x|)
    ensures SecondH2(x + g + y) == Shifted(SecondH2(x + y), |x|, |g|)
  {
    var t := x + y;
    var p := IndexOf(t, "<h2", 0);
    IndexOfInserted(x, g, y, 0);
    IndexOfH2(t, 0);
    if p >= 0 {
      if p < |x| { assert p + 3 <= |x|; }
      IndexOfInserted(x, g, y, p + 1);
    }
  }

  lemma {:induction false} NoH2WithoutH(s: string)
    requires 'h' !in s
    ensures NoH2(s)
  {
    forall k: nat | k < |s|
      ensures !H2At(s, k)
    {
      if k + 1 < |s| { assert s[k + 1] in s; }
    }
  }

  lemma {:induction false} DigitsHaveNoH(s: string)
    requires IsDigits(s)
    ensures 'h' !in s
  {
    assert forall k :: 0 <= k < |s| ==> s[k] != 'h';
  }

  /** Two pieces joined where one side cannot be part of `<h2`. */
  lemma {:induction false} NoH2Join(a: string, b: string)
    requires NoH2(a) && NoH2(b)
    requires (a != [] && Breaker(a[|a| - 1])) || (b != [] && Breaker(b[0]))
    ensures NoH2(a + b)
  {
    var s := a + b;
    forall k: nat | k < |s|
      ensures !H2At(s, k)
    {
      if k + 3 <= |a| {
        assert s[k] == a[k] && s[k + 1] == a[k + 1] && s[k + 2] == a[k + 2];
        assert !H2At(a, k);
      } else if k >= |a| {
        if k + 3 <= |s| {
          assert s[k] == b[k - |a|] && s[k + 1] == b[k - |a| + 1] && s[k + 2] == b[k - |a| + 2];
          assert !H2At(b, k - |a|);
        }
      } else if k + 3 <= |s| {
        assert s[|a| - 1] == a[|a| - 1] && s[|a|] == b[0];
      }
    }
  }

  lemma {:induction false} FigureOpenPiece()
    ensures 'h' !in FigureOpen && FigureOpen[0] == '\n' && FigureOpen[|FigureOpen| - 1] == '"'
  {
  }

  lemma {:induction false} FigureAltPiece()
    ensures 'h' !in FigureAlt && FigureAlt[0] == '"'
  {
  }

  lemma {:induction false} FigureCaptionPiece()
    ensures 'h' !in FigureCaption
  {
  }

  lemma {:induction false} FigureClosePiece()
    ensures 'h' !in FigureClose && FigureClose[|FigureClose| - 1] == '\n'
  {
  }

  /** `o + url + t` is a block when `o` and `t` hold no `h` and the outer characters
      cannot be part of `<h2`. */
  lemma {:induction false} BlockOfParts(o: string, url: string, t: string)
    requires 'h' !in o && 'h' !in t && NoH2(url)
    requires o != [] && t != [] && Breaker(o[0]) && Breaker(o[|o| - 1]) && Breaker(t[0])
    requires Breaker(t[|t| - 1])
    ensures Block(o + url + t) && o + url + t != []
  {
    NoH2WithoutH(o);
    NoH2WithoutH(t);
    NoH2Join(o, url);
    if url == [] {
      assert o + url == o;
    } else {
      assert (o + url)[|o + url| - 1] == url[|url| - 1];
    }
    NoH2Join(o + url, t);
    assert (o + url + t)[0] == o[0];
    assert (o + url + t)[|o + url + t| - 1] == t[|t| - 1];
  }

  /** The text after the URL: the `alt` text, the caption and the closing tags. */
  lemma {:induction false} FigureTail(n: string)
    requires IsDigits(n)
    ensures var t := FigureAlt + n + FigureCaption + n + FigureClose;
            'h' !in t && t != [] && t[0] == '"' && t[|t| - 1] == '\n'
  {
    FigureAltPiece();
    FigureCaptionPiece();
    FigureClosePiece();
    DigitsHaveNoH(n);
    var t := FigureAlt + n + FigureCaption + n + FigureClose;
    assert t[0] == FigureAlt[0];
    assert t[|t| - 1] == FigureClose[|FigureClose| - 1];
  }

  /** The figure block for a URL without `<h2` holds no `<h2` and starts and ends with a
      line break. */
  lemma {:induction false} FigureIsBlock(url: string, index: nat)
    requires NoH2(url)
    ensures Block(Figure(url, index)) && Figure(url, index) != []
    ensures Figure(url, index)[0] == '\n' && Figure(url, index)[|Figure(url, index)| - 1] == '\n'
  {
    var n := NatToString(index + 1);
    var t := FigureAlt + n + FigureCaption + n + FigureClose;
    assert Figure(url, index) == FigureOpen + url + t;
    FigureOpenPiece();
    FigureTail(n);
    BlockOfParts(FigureOpen, url, t);
    assert (FigureOpen + url + t)[0] == FigureOpen[0];
    assert (FigureOpen + url + t)[|FigureOpen + url + t| - 1] == t[|t| - 1];
  }

  /** The figures of the later images whose sections are present, in index order. */
  function SectionFigures(sections: seq<string>, urls: seq<string>, n: nat): string
    requires n <= |urls|
    decreases n
  {
    if n <= 1 then ""
    else SectionFigures(sections, urls, n - 1)
         + (if SectionPresent(sections, n - 1) then Figure(urls[n - 1], n - 1) else "")
  }

  lemma {:induction false} BlockJoin(g: string, f: string)
    requires Block(g) && Block(f) && f != []
    ensures Block(g + f)
  {
    if g == [] {
      assert g + f == f;
    } else {
      assert (g + f)[0] == g[0] && (g + f)[|g + f| - 1] == f[|f| - 1];
      NoH2Join(g, f);
    }
  }

  lemma {:induction false} SectionFiguresBlock(sections: seq<string>, urls: seq<string>, n: nat)
    requires n <= |urls| && forall i :: 0 <= i < |urls| ==> NoH2(urls[i])
    ensures Block(SectionFigures(sections, urls, n))
    decreases n
  {
    if n > 1 {
      SectionFiguresBlock(sections, urls, n - 1);
      if SectionPresent(sections, n - 1) {
        FigureIsBlock(urls[n - 1], n - 1);
        BlockJoin(SectionFigures(sections, urls, n - 1), Figure(urls[n - 1], n - 1));
      } else {
        assert SectionFigures(sections, urls, n) == SectionFigures(sections, urls, n - 1) + "";
        assert SectionFigures(sections, urls, n - 1) + "" == SectionFigures(sections, urls, n - 1);
      }
    }
  }

  /** No `<h2` overlaps the left edge of one that starts at `q`. */
  lemma {:induction false} CleanBeforeH2(s: string, q: nat)
    requires H2At(s, q)
    ensures Clean(s, q)
  {
  }

  lemma {:induction false} InsertBehind(x: string, g: string, y: string, f: string)
    ensures InsertAt(x + g + y, |x| + |g|, f) == x + (g + f) + y
  {
    var s := x + g + y;
    assert s[..|x| + |g|] == x + g && s[|x| + |g|..] == y;
  }

  /** A block spliced in right before the second `<h2` pushes that heading back by its
      length. */
  lemma {:induction false} SecondH2BehindBlock(r1: string, g: string)
    requires SecondH2(r1) >= 0 && Block(g)
    ensures var q := SecondH2(r1);
            SecondH2(r1[..q] + g + r1[q..]) == q + |g|
  {
    var q := SecondH2(r1);
    var x, y := r1[..q], r1[q..];
    assert x + y == r1;
    OccursH2(r1, q);
    CleanBeforeH2(r1, q);
    SecondH2Inserted(x, g, y);
  }

  /** One later image, with the ones before it already stacked as `g` before the second
      `<h2` at `q`: it joins the stack at its end, or is dropped when its section is absent. */
  lemma {:induction false} StackStep(r1: string, g: string, sections: seq<string>, url: string, index: nat)
    requires SecondH2(r1) >= 0 && Block(g) && index >= 1
    ensures var q := SecondH2(r1);
            InsertStep(r1[..q] + g + r1[q..], sections, url, index)
              == r1[..q] + (g + (if SectionPresent(sections, index) then Figure(url, index) else "")) + r1[q..]
  {
    var q := SecondH2(r1);
    SecondH2BehindBlock(r1, g);
    if SectionPresent(sections, index) {
      InsertBehind(r1[..q], g, r1[q..], Figure(url, index));
    } else {
      assert g + "" == g;
    }
  }

  /** Cutting a string and joining the halves around a block; a step the solver does not
      take on its own. */
  lemma {:induction false} SplitJoin(s: string, q: nat)
    requires q <= |s|
    ensures s[..q] + "" + s[q..] == s
  {
    assert s[..q] + "" == s[..q];
  }

  /** The shape `SectionImagesStack` states for the article after `n` images: the
      article after the hero image, with the later figures stacked before its second
      `<h2`, or that article unchanged when it has none. */
  predicate Stacked(html: string, sections: seq<string>, urls: seq<string>, n: nat)
    requires 1 <= n <= |urls|
  {
    var r1 := InsertUpTo(html, sections, urls, 1);
    var q := SecondH2(r1);
    InsertUpTo(html, sections, urls, n) == if q < 0 then r1 else r1[..q] + SectionFigures(sections, urls, n) + r1[q..]
  }

  lemma {:induction false} StackBase(html: string, sections: seq<string>, urls: seq<string>)
    requires 1 <= |urls|
    ensures Stacked(html, sections, urls, 1)
  {
    var r1 := InsertUpTo(html, sections, urls, 1);
    var q := SecondH2(r1);
    if q >= 0 { SplitJoin(r1, q); }
  }

  /** The step of `SectionImagesStack` when the article has a second `<h2`. */
  lemma {:induction false} StackNext(html: string, sections: seq<string>, urls: seq<string>, n: nat, q: nat)
    requires 2 <= n <= |urls| && forall i :: 0 <= i < |urls| ==> NoH2(urls[i])
    requires q == SecondH2(InsertUpTo(html, sections, urls, 1))
    requires var r1 := InsertUpTo(html, sections, urls, 1);
             InsertUpTo(html, sections, urls, n - 1) == r1[..q] + SectionFigures(sections, urls, n - 1) + r1[q..]
    ensures var r1 := InsertUpTo(html, sections, urls, 1);
            InsertUpTo(html, sections, urls, n) == r1[..q] + SectionFigures(sections, urls, n) + r1[q..]
  {
    var r1 := InsertUpTo(html, sections, urls, 1);
    var g := SectionFigures(sections, urls, n - 1);
    SectionFiguresBlock(sections, urls, n - 1);
    StackStep(r1, g, sections, urls[n - 1], n - 1);
  }

  /** The step of `SectionImagesStack` when the article has no second `<h2`. */
  lemma {:induction false} StackNextMissing(html: string, sections: seq<string>, urls: seq<string>, n: nat)
    requires 2 <= n <= |urls|
    requires SecondH2(InsertUpTo(html, sections, urls, 1)) < 0
    requires InsertUpTo(html, sections, urls, n - 1) == InsertUpTo(html, sections, urls, 1)
    ensures InsertUpTo(html, sections, urls, n) == InsertUpTo(html, sections, urls, 1)
  {
  }

  lemma {:induction false} StackAt(html: string, sections: seq<string>, urls: seq<string>, n: nat)
    requires 1 <= n <= |urls| && forall i :: 0 <= i < |urls| ==> NoH2(urls[i])
    requires n > 1 ==> Stacked(html, sections, urls, n - 1)
    ensures Stacked(html, sections, urls, n)
  {
    if n == 1 {
      StackBase(html, sections, urls);
    } else {
      StackGrows(html, sections, urls, n);
    }
  }

  lemma {:induction false} StackGrows(html: string, sections: seq<string>, urls: seq<string>, n: nat)
    requires 2 <= n <= |urls| && forall i :: 0 <= i < |urls| ==> NoH2(urls[i])
    requires Stacked(html, sections, urls, n - 1)
    ensures Stacked(html, sections, urls, n)
  {
    var q := SecondH2(InsertUpTo(html, sections, urls, 1));
    if q >= 0 {
      StackNext(html, sections, urls, n, q);
    } else {
      StackNextMissing(html, sections, urls, n);
    }
  }

  /** After the hero image, every later image whose section is present goes right before
      the second `<h2`, behind the ones placed there before it, so they stack in index
      order before the same heading; with no second `<h2` they are all dropped. */
  lemma {:induction false} SectionImagesStack(html: string, sections: seq<string>, urls: seq<string>, n: nat)
    requires 1 <= n <= |urls| && forall i :: 0 <= i < |urls| ==> NoH2(urls[i])
    ensures Stacked(html, sections, urls, n)
    decreases n
  {
    if n > 1 {
      SectionImagesStack(html, sections, urls, n - 1);
    }
    StackAt(html, sections, urls, n);
  }

  /** With a `</p>` in the article, the hero figure goes right after the first one and
      moves the second `<h2` only when it lies after that point. */
  lemma {:induction false} HeroPlacement(html: string, sections: seq<string>, urls: seq<string>)
    requires |urls| >= 1 && NoH2(urls[0]) && IndexOf(html, "</p>", 0) >= 0
    ensures var h := HeroOffset(html);
            var f := Figure(urls[0], 0);
            && InsertUpTo(html, sections, urls, 1) == html[..h] + f + html[h..]
            && SecondH2(InsertUpTo(html, sections, urls, 1)) == Shifted(SecondH2(html), h, |f|)
  {
    var h := HeroOffset(html);
    var f := Figure(urls[0], 0);
    var x, y := html[..h], html[h..];
    assert x + y == html;
    assert html[h - 4..h] == "</p>";
    assert html[h - 2] == html[h - 4..h][2] && html[h - 1] == html[h - 4..h][3];
    assert Clean(x + y, |x|);
    FigureIsBlock(urls[0], 0);
    SecondH2Inserted(x, f, y);
  }

  lemma {:induction false} HeroInserted(html: string, sections: seq<string>, urls: seq<string>)
    requires |urls| >= 1
    ensures InsertUpTo(html, sections, urls, 1) == InsertAt(html, HeroOffset(html), Figure(urls[0], 0))
  {
  }

  /** `insertImagesIntoArticle` only inserts: the result is the article grown by the hero
      figure and the stacked section figures, and cutting those out again gives back the
      article exactly. */
  lemma {:induction false} FiguresRemoved(html: string, sections: seq<string>, urls: seq<string>)
    requires |urls| >= 1 && forall i :: 0 <= i < |urls| ==> NoH2(urls[i])
    ensures var h, f := HeroOffset(html), Figure(urls[0], 0);
            var q := SecondH2(InsertUpTo(html, sections, urls, 1));
            var g := SectionFigures(sections, urls, |urls|);
            var result := InsertUpTo(html, sections, urls, |urls|);
            var unstacked := if q >= 0 && q + |g| <= |result| then Remove(result, q, |g|) else result;
            && (q >= 0 ==> q + |g| <= |result|)
            && h + |f| <= |unstacked| && Remove(unstacked, h, |f|) == html
  {
    var r1 := InsertUpTo(html, sections, urls, 1);
    var q := SecondH2(r1);
    var g := SectionFigures(sections, urls, |urls|);
    HeroInserted(html, sections, urls);
    RemoveInserted(html, HeroOffset(html), Figure(urls[0], 0));
    SectionImagesStack(html, sections, urls, |urls|);
    if q >= 0 {
      assert InsertUpTo(html, sections, urls, |urls|) == InsertAt(r1, q, g);
      RemoveInserted(r1, q, g);
    }
  }

  /** The label of figure `index` reads back as `index + 1`: the text right after
      `alt="Image ` is the number's decimal rendering. */
  lemma {:induction false} FigureLabel(url: string, index: nat)
    ensures var at := |FigureOpen| + |url| + |FigureAlt|;
            var n := NatToString(index + 1);
            && at + |n| <= |Figure(url, index)|
            && Figure(url, index)[at - |FigureAlt|..at] == FigureAlt
            && Figure(url, index)[at..at + |n|] == n
            && ParseDecimal(n) == index + 1
  {
    var n := NatToString(index + 1);
    var head := FigureOpen + url + FigureAlt;
    FigureSplit(url, index);
    AltBeforeLabel(FigureOpen + url, FigureAlt, n + FigureCaption + n + FigureClose);
    LabelsAt(head, n, FigureCaption, FigureClose);
    ParseNatToString(index + 1);
  }

  /** `alt` keeps its place between `front` and `rest`. */
  lemma {:induction false} AltBeforeLabel(front: string, alt: string, rest: string)
    ensures (front + alt + rest)[|front|..|front| + |alt|] == alt
  {
    assert (front + alt + rest)[|front|..] == alt + rest;
  }

  /** The caption carries the same number: right after `<figcaption>Figure ` comes the
      decimal rendering of `index + 1` again. */
  lemma {:induction false} FigureCaptionLabel(url: string, index: nat)
    ensures var n := NatToString(index + 1);
            var at := |FigureOpen| + |url| + |FigureAlt| + |n| + |FigureCaption|;
            && at + |n| <= |Figure(url, index)|
            && Figure(url, index)[at - |FigureCaption|..at] == FigureCaption
            && Figure(url, index)[at..at + |n|] == n
  {
    var n := NatToString(index + 1);
    var head := FigureOpen + url + FigureAlt;
    FigureSplit(url, index);
    LabelsAt(head, n, FigureCaption, FigureClose);
  }

  lemma {:induction false} FigureSplit(url: string, index: nat)
    ensures var n := NatToString(index + 1);
      Figure(url, index) == (FigureOpen + url + FigureAlt) + n + FigureCaption + n + FigureClose
  {
  }

  /** Where the pieces of `head + n + c + n + z` stand. */
  lemma {:induction false} LabelsAt(head: string, n: string, c: string, z: string)
    ensures var fig := head + n + c + n + z;
      && fig[..|head|] == head && fig[|head|..|head| + |n|] == n
      && fig[|head| + |n|..|head| + |n| + |c|] == c
      && fig[|head| + |n| + |c|..|head| + |n| + |c| + |n|] == n
  {
    var fig := head + n + c + n + z;
    var mid := head + n + c;
    assert fig == mid + (n + z);
    assert fig[..|mid|] == mid;
    assert mid[..|head|] == head && mid[|head|..|head| + |n|] == n && mid[|head| + |n|..] == c;
  }
}
