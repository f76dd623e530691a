/** What the link and image passes of `htmlToMarkdown` make of a well-formed tag:
    `<a href="U">T</a>` becomes `[T](U)` and `<img src="U" alt="A">` becomes `![A](U)`.
    Both patterns open with a greedy `[^>]*`, so the proofs walk the backtracking down to
    the attribute and show that no later position could have started it. */
module TagRewrites {
  import opened TextOps
  import opened Patterns

  /** `v` ends with `name`, letters compared case-insensitively. */
  predicate EndsWithCI(v: string, name: string) {
    |name| <= |v| && StartsCIAt(v, |v| - |name|, name)
  }

  /** Only `"` lowers to `"`. */
  lemma {:induction false} LowerQuote(c: char)
    ensures Lower(c) == '"' <==> c == '"'
  {
  }

  /** An attribute `name="` that starts at `p` has its quote at `p + |name|`. */
  lemma {:induction false} QuoteAfterName(s: string, p: nat, name: string)
    requires StartsCIAt(s, p, name + "\"")
    ensures p + |name| < |s| && s[p + |name|] == '"'
  {
    assert (name + "\"")[|name|] == '"';
    LowerQuote(s[p + |name|]);
  }

  /** An attribute `name="` cannot start where the quote after it would fall inside a
      quoted value `v` that holds no `"`, nor where it would close a value that does not
      end with `name`. */
  lemma {:induction false} NoNameBeforeQuote(s: string, j: nat, v: string, name: string, p: nat)
    requires j + |v| <= |s| && s[j..j + |v|] == v && '"' !in v && !EndsWithCI(v, name)
    requires j <= p && p + |name| <= j + |v|
    ensures !StartsCIAt(s, p, name + "\"")
  {
    var lit := name + "\"";
    assert lit[|name|] == '"';
    if p + |name| < j + |v| {
      assert s[p + |name|] == v[p + |name| - j];
      LowerQuote(s[p + |name|]);
      MismatchAt(s, p, lit, |name|);
    } else {
      var i :| 0 <= i < |name| && Lower(v[|v| - |name| + i]) != Lower(name[i]);
      assert v[|v| - |name| + i] == s[p + i];
      assert lit[i] == name[i];
      MismatchAt(s, p, lit, i);
    }
  }

  /** A position whose `i`-th character lowers differently from `lit[i]` does not start
      `lit`. */
  lemma {:induction false} MismatchAt(s: string, p: nat, lit: string, i: nat)
    requires i < |lit| && p + i < |s| && Lower(s[p + i]) != Lower(lit[i])
    ensures !StartsCIAt(s, p, lit)
  {
  }

  /** Where `href="` does not start, the anchor pattern gives back one more character. */
  lemma {:induction false} AnchorTryMiss(s: string, p: nat)
    requires 2 < p <= |s| && !StartsCIAt(s, p, "href=\"")
    ensures AnchorFrom(s, p) == AnchorFrom(s, p - 1)
  {
    assert AnchorTry(s, p).None?;
  }

  /** The anchor pattern passes over positions where `href="` does not start. */
  lemma {:induction false} AnchorFromSkips(s: string, lo: nat, hi: nat)
    requires 2 <= lo <= hi <= |s|
    requires forall p :: lo < p <= hi ==> !StartsCIAt(s, p, "href=\"")
    ensures AnchorFrom(s, hi) == AnchorFrom(s, lo)
    decreases hi - lo
  {
    if lo < hi {
      AnchorTryMiss(s, hi);
      AnchorFromSkips(s, lo, hi - 1);
    }
  }

  /** `s` is `<a href="url">text</a>` followed by `rest`. */
  predicate IsAnchor(s: string, url: string, text: string, rest: string) {
    s == "<a href=\"" + url + "\">" + text + "</a>" + rest
  }

  /** The characters of `<a href="url">text</a>`, by position. */
  lemma {:induction false} AnchorLayout(s: string, url: string, text: string, rest: string)
    requires IsAnchor(s, url, text, rest)
    ensures |s| == 15 + |url| + |text| + |rest|
    ensures s[0] == '<' && s[1] == 'a' && s[2] == ' ' && s[3..9] == "href=\""
    ensures s[9..9 + |url|] == url && s[9 + |url|] == '"' && s[10 + |url|] == '>'
    ensures s[11 + |url|..11 + |url| + |text|] == text
    ensures s[11 + |url| + |text|..15 + |url| + |text|] == "</a>"
    ensures s[15 + |url| + |text|..] == rest
  {
    var n := |url|;
    var m := |text|;
    assert s == "<a " + "href=\"" + url + "\">" + text + "</a>" + rest;
    assert s[..3] == "<a ";
    assert s[3..9] == "href=\"";
    assert s[9..9 + n] == url;
    assert s[9 + n..11 + n] == "\">";
    assert s[11 + n..11 + n + m] == text;
    assert s[11 + n + m..15 + n + m] == "</a>";
    assert s[15 + n + m..] == rest;
  }

  /** Past `<a`, the first `>` is the one that closes `<a href="url">`. */
  lemma {:induction false} AnchorOpenEnds(s: string, url: string, text: string, rest: string)
    requires IsAnchor(s, url, text, rest) && '>' !in url
    ensures StartsOpen(s, "a") && FindChar(s, '>', 2) == Some(10 + |url|)
  {
    AnchorLayout(s, url, text, rest);
    var n := |url|;
    assert s[3] == 'h' && s[4] == 'r' && s[5] == 'e' && s[6] == 'f' && s[7] == '=' && s[8] == '"';
    forall k | 9 <= k < 9 + n
      ensures s[k] == url[k - 9]
    {
      assert s[k] == s[9..9 + n][k - 9];
    }
  }

  /** No `href="` starts between `<a ` and the first `>`, except the one at index 3. */
  lemma {:induction false} AnchorNoLaterHref(s: string, url: string, text: string, rest: string)
    requires IsAnchor(s, url, text, rest)
    requires '"' !in url && !EndsWithCI(url, "href=")
    ensures forall p :: 3 < p <= 10 + |url| ==> !StartsCIAt(s, p, "href=\"")
  {
    AnchorLayout(s, url, text, rest);
    var n := |url|;
    var lit := "href=\"";
    assert "href=" + "\"" == lit;
    assert s[4] == 'r' && s[5] == 'e' && s[6] == 'f' && s[7] == '=' && s[8] == '"';
    forall p | 3 < p <= 10 + n
      ensures !StartsCIAt(s, p, lit)
    {
      if p <= 8 {
        MismatchAt(s, p, lit, 0);
      } else if p + 5 <= 9 + n {
        NoNameBeforeQuote(s, 9, url, "href=", p);
      } else if p <= 9 + n {
        LowerQuote(lit[9 + n - p]);
        MismatchAt(s, p, lit, 9 + n - p);
      } else {
        MismatchAt(s, p, lit, 0);
      }
    }
  }

  /** The first `"` after `href="` closes the URL, and the `>` right after it the tag. */
  lemma {:induction false} AnchorQuotes(s: string, url: string, text: string, rest: string)
    requires IsAnchor(s, url, text, rest) && '"' !in url
    ensures FindChar(s, '"', 9) == Some(9 + |url|)
    ensures FindChar(s, '>', 10 + |url|) == Some(10 + |url|)
  {
    var n := |url|;
    AnchorLayout(s, url, text, rest);
    forall k | 9 <= k < 9 + n
      ensures s[k] != '"'
    {
      assert s[k] == s[9..9 + n][k - 9];
    }
  }

  /** Tried at the `href="` of `<a href="url">text</a>`, the anchor pattern matches. */
  lemma {:induction false} AnchorHrefTry(s: string, url: string, text: string, rest: string)
    requires IsAnchor(s, url, text, rest)
    requires '"' !in url && '<' !in text && NoLineBreak(text)
    ensures AnchorTry(s, 3) == Some(Match(|s| - |rest|, "[" + text + "](" + url + ")"))
  {
    var n := |url|;
    AnchorLayout(s, url, text, rest);
    StartsCIAtSelf(s, 3, "href=\"");
    AnchorQuotes(s, url, text, rest);
    var head := s[..11 + n];
    assert "</" + "a" + ">" == "</a>";
    assert s == head + text + "</" + "a" + ">" + rest;
    CloseTagAfter(s, head + text, "a", rest);
    ContentScanned(s, head, text, "</a>" + rest, "a");
  }

  /** The link pass turns `<a href="url">text</a>` into `[text](url)`, when the URL holds
      no `"` or `>` and does not itself end in `href=`, and the text is one line with no
      tag in it. */
  lemma {:induction false} AnchorRewrites(s: string, url: string, text: string, rest: string)
    requires IsAnchor(s, url, text, rest)
    requires '"' !in url && '>' !in url && !EndsWithCI(url, "href=")
    requires '<' !in text && NoLineBreak(text)
    ensures MatchAt(Anchor, s) == Some(Match(|s| - |rest|, "[" + text + "](" + url + ")"))
  {
    var n := |url|;
    AnchorLayout(s, url, text, rest);
    AnchorOpenEnds(s, url, text, rest);
    AnchorNoLaterHref(s, url, text, rest);
    AnchorFromSkips(s, 3, 10 + n);
    AnchorHrefTry(s, url, text, rest);
  }

  /** Where `src="` does not start, the image pattern gives back one more character. */
  lemma {:induction false} ImageTryMiss(s: string, p: nat)
    requires 4 < p <= |s| && !StartsCIAt(s, p, "src=\"")
    ensures ImageFrom(s, p) == ImageFrom(s, p - 1)
  {
    assert ImageTry(s, p).None?;
  }

  /** Where `alt="` does not start, the image pattern gives back one more character. */
  lemma {:induction false} ImageAltTryMiss(s: string, p: nat, q: nat, p2: nat)
    requires p + 5 <= q < p2 - 1 && p2 <= |s| && !StartsCIAt(s, p2, "alt=\"")
    ensures ImageAltFrom(s, p, q, p2) == ImageAltFrom(s, p, q, p2 - 1)
  {
    assert ImageAltTry(s, p, q, p2).None?;
  }

  /** The image pattern passes over positions where `src="` does not start. */
  lemma {:induction false} ImageFromSkips(s: string, lo: nat, hi: nat)
    requires 4 <= lo <= hi <= |s|
    requires forall p :: lo < p <= hi ==> !StartsCIAt(s, p, "src=\"")
    ensures ImageFrom(s, hi) == ImageFrom(s, lo)
    decreases hi - lo
  {
    if lo < hi {
      ImageTryMiss(s, hi);
      ImageFromSkips(s, lo, hi - 1);
    }
  }

  /** The image pattern passes over positions where `alt="` does not start. */
  lemma {:induction false} ImageAltFromSkips(s: string, p: nat, q: nat, lo: nat, hi: nat)
    requires p + 5 <= q < lo <= hi <= |s|
    requires forall p2 :: lo < p2 <= hi ==> !StartsCIAt(s, p2, "alt=\"")
    ensures ImageAltFrom(s, p, q, hi) == ImageAltFrom(s, p, q, lo)
    decreases hi - lo
  {
    if lo < hi {
      ImageAltTryMiss(s, p, q, hi);
      ImageAltFromSkips(s, p, q, lo, hi - 1);
    }
  }

  /** `s` is `<img src="url" alt="alt">` followed by `rest`. */
  predicate IsImage(s: string, url: string, alt: string, rest: string) {
    s == "<img src=\"" + url + "\" alt=\"" + alt + "\">" + rest
  }

  /** The characters of `<img src="url" alt="alt">`, by position. */
  lemma {:induction false} ImageLayout(s: string, url: string, alt: string, rest: string)
    requires IsImage(s, url, alt, rest)
    ensures |s| == 19 + |url| + |alt| + |rest|
    ensures s[..5] == "<img " && s[5..10] == "src=\""
    ensures s[10..10 + |url|] == url && s[10 + |url|..17 + |url|] == "\" alt=\""
    ensures s[12 + |url|..17 + |url|] == "alt=\""
    ensures s[17 + |url|..17 + |url| + |alt|] == alt
    ensures s[17 + |url| + |alt|] == '"' && s[18 + |url| + |alt|] == '>'
    ensures s[19 + |url| + |alt|..] == rest
  {
    var n := |url|;
    var m := |alt|;
    assert s == "<img " + "src=\"" + url + "\" alt=\"" + alt + "\">" + rest;
    assert s[..5] == "<img ";
    assert s[5..10] == "src=\"";
    assert s[10..10 + n] == url;
    assert s[10 + n..17 + n] == "\" alt=\"";
    assert s[10 + n..17 + n][2..] == "alt=\"";
    assert s[17 + n..17 + n + m] == alt;
    assert s[17 + n + m..19 + n + m] == "\">";
    assert s[19 + n + m..] == rest;
  }

  /** The first `>` after `<img` is the one that closes the tag. */
  lemma {:induction false} ImageOpenEnds(s: string, url: string, alt: string, rest: string)
    requires IsImage(s, url, alt, rest)
    requires '>' !in url && '>' !in alt
    ensures StartsOpen(s, "img") && FindChar(s, '>', 4) == Some(18 + |url| + |alt|)
    ensures FindChar(s, '>', 11 + |url|) == Some(18 + |url| + |alt|)
  {
    var n := |url|;
    ImageLayout(s, url, alt, rest);
    forall k | 10 <= k < 10 + n
      ensures s[k] != '>'
    {
      assert s[k] == url[k - 10];
    }
    forall k | 17 + n <= k < 17 + n + |alt|
      ensures s[k] != '>'
    {
      assert s[k] == alt[k - 17 - n];
    }
    var mid := "\" alt=\"";
    assert s[10 + n..17 + n] == mid;
    assert s[10 + n] == '"' && s[11 + n] == ' ' && s[12 + n] == 'a' && s[13 + n] == 'l';
    assert s[14 + n] == 't' && s[15 + n] == '=' && s[16 + n] == '"';
    assert s[4] == ' ' && s[5] == 's' && s[6] == 'r' && s[7] == 'c' && s[8] == '=' && s[9] == '"';
    assert s[1..4] == s[..5][1..4] == "img";
    StartsCIAtSelf(s, 1, "img");
  }

  /** The first `"` after `src="` closes the URL and the first after `alt="` closes the
      text, which the tag's `>` follows. */
  lemma {:induction false} ImageQuotes(s: string, url: string, alt: string, rest: string)
    requires IsImage(s, url, alt, rest)
    requires '"' !in url && '"' !in alt
    ensures FindChar(s, '"', 10) == Some(10 + |url|)
    ensures FindChar(s, '"', 17 + |url|) == Some(17 + |url| + |alt|)
    ensures FindChar(s, '>', 18 + |url| + |alt|) == Some(18 + |url| + |alt|)
  {
    var n := |url|;
    ImageLayout(s, url, alt, rest);
    forall k | 10 <= k < 10 + n
      ensures s[k] != '"'
    {
      assert s[k] == url[k - 10];
    }
    forall k | 17 + n <= k < 17 + n + |alt|
      ensures s[k] != '"'
    {
      assert s[k] == alt[k - 17 - n];
    }
    assert s[10 + n] == s[10 + n..17 + n][0] == '"';
  }

  /** No `src="` starts in the URL, its closing quote or ` alt="`. */
  lemma {:induction false} ImageNoSrcInUrl(s: string, url: string, alt: string, rest: string)
    requires IsImage(s, url, alt, rest)
    requires '"' !in url && !EndsWithCI(url, "src=")
    ensures forall p :: 5 < p <= 16 + |url| ==> !StartsCIAt(s, p, "src=\"")
  {
    var n := |url|;
    ImageLayout(s, url, alt, rest);
    var lit := "src=\"";
    assert "src=" + "\"" == lit;
    assert s[6] == 'r' && s[7] == 'c' && s[8] == '=' && s[9] == '"';
    var mid := "\" alt=\"";
    assert s[10 + n..17 + n] == mid;
    assert s[10 + n] == '"' && s[11 + n] == ' ' && s[12 + n] == 'a' && s[13 + n] == 'l';
    assert s[14 + n] == 't' && s[15 + n] == '=' && s[16 + n] == '"';
    forall p | 5 < p <= 16 + n
      ensures !StartsCIAt(s, p, lit)
    {
      if p <= 9 {
        MismatchAt(s, p, lit, 0);
      } else if p + 4 <= 10 + n {
        NoNameBeforeQuote(s, 10, url, "src=", p);
      } else if p <= 10 + n {
        LowerQuote(lit[10 + n - p]);
        MismatchAt(s, p, lit, 10 + n - p);
      } else {
        MismatchAt(s, p, lit, 0);
      }
    }
  }

  /** No `src="` starts in the text, its closing quote or the tag's `>`. */
  lemma {:induction false} ImageNoSrcInAlt(s: string, url: string, alt: string, rest: string)
    requires IsImage(s, url, alt, rest)
    requires '"' !in alt && !EndsWithCI(alt, "src=")
    ensures forall p :: 16 + |url| < p <= 18 + |url| + |alt| ==> !StartsCIAt(s, p, "src=\"")
  {
    var n := |url|;
    var m := |alt|;
    ImageLayout(s, url, alt, rest);
    var lit := "src=\"";
    assert "src=" + "\"" == lit;
    forall p | 16 + n < p <= 18 + n + m
      ensures !StartsCIAt(s, p, lit)
    {
      if p + 4 <= 17 + n + m {
        NoNameBeforeQuote(s, 17 + n, alt, "src=", p);
      } else if p <= 17 + n + m {
        LowerQuote(lit[17 + n + m - p]);
        MismatchAt(s, p, lit, 17 + n + m - p);
      } else {
        MismatchAt(s, p, lit, 0);
      }
    }
  }

  /** No `alt="` starts between the URL's closing quote and the tag's `>`, except the one
      at `12 + |url|`. */
  lemma {:induction false} ImageNoLaterAlt(s: string, url: string, alt: string, rest: string)
    requires IsImage(s, url, alt, rest)
    requires '"' !in alt && !EndsWithCI(alt, "alt=")
    ensures forall p :: 12 + |url| < p <= 18 + |url| + |alt| ==> !StartsCIAt(s, p, "alt=\"")
  {
    var n := |url|;
    var m := |alt|;
    ImageLayout(s, url, alt, rest);
    var lit := "alt=\"";
    assert "alt=" + "\"" == lit;
    var mid := "\" alt=\"";
    assert s[10 + n..17 + n] == mid;
    assert s[13 + n] == 'l' && s[14 + n] == 't' && s[15 + n] == '=' && s[16 + n] == '"';
    forall p | 12 + n < p <= 18 + n + m
      ensures !StartsCIAt(s, p, lit)
    {
      if p <= 16 + n {
        MismatchAt(s, p, lit, 0);
      } else if p + 4 <= 17 + n + m {
        NoNameBeforeQuote(s, 17 + n, alt, "alt=", p);
      } else if p <= 17 + n + m {
        LowerQuote(lit[17 + n + m - p]);
        MismatchAt(s, p, lit, 17 + n + m - p);
      } else {
        MismatchAt(s, p, lit, 0);
      }
    }
  }

  /** Tried at the `alt="` of `<img src="url" alt="alt">`, the image pattern matches. */
  lemma {:induction false} ImageAltHit(s: string, url: string, alt: string, rest: string)
    requires IsImage(s, url, alt, rest)
    requires '"' !in url && '>' !in url && '"' !in alt && '>' !in alt
    ensures ImageAltTry(s, 5, 10 + |url|, 12 + |url|) == Some(Match(|s| - |rest|, "![" + alt + "](" + url + ")"))
  {
    var n := |url|;
    ImageLayout(s, url, alt, rest);
    ImageOpenEnds(s, url, alt, rest);
    ImageQuotes(s, url, alt, rest);
    StartsCIAtSelf(s, 12 + n, "alt=\"");
  }

  /** The image pass turns `<img src="url" alt="alt">` into `![alt](url)`, when neither
      value holds `"` or `>`, the URL does not end in `src=` and the text ends in neither
      `src=` nor `alt=`. */
  lemma {:induction false} ImageRewrites(s: string, url: string, alt: string, rest: string)
    requires IsImage(s, url, alt, rest)
    requires '"' !in url && '>' !in url && !EndsWithCI(url, "src=")
    requires '"' !in alt && '>' !in alt && !EndsWithCI(alt, "src=") && !EndsWithCI(alt, "alt=")
    ensures MatchAt(Image, s) == Some(Match(|s| - |rest|, "![" + alt + "](" + url + ")"))
  {
    var n := |url|;
    var g := 18 + n + |alt|;
    ImageLayout(s, url, alt, rest);
    ImageOpenEnds(s, url, alt, rest);
    ImageQuotes(s, url, alt, rest);
    ImageNoSrcInUrl(s, url, alt, rest);
    ImageNoSrcInAlt(s, url, alt, rest);
    ImageFromSkips(s, 5, g);
    ImageNoLaterAlt(s, url, alt, rest);
    ImageAltFromSkips(s, 5, 10 + n, 12 + n, g);
    ImageAltHit(s, url, alt, rest);
    StartsCIAtSelf(s, 5, "src=\"");
    assert ImageTry(s, 5) == ImageAltFrom(s, 5, 10 + n, g);
  }
}
