/** The list operations of the `POST` handler in route.ts that shape its JSON response:
    the active affiliate links, the number of times each link's URL occurs in the article,
    and the cap on reported spelling errors; and the response fields they feed. */
module Route {
  import opened TextOps
  import opened Patterns
  import opened Stats
  import opened Markdown

  /** One `[platform, url]` pair of `Object.entries(affiliateLinks)`, in insertion order;
      a missing or `undefined` URL is `None`. */
  datatype AffiliateEntry = AffiliateEntry(platform: string, url: Option<string>)

  /** `{ platform, url }` of an active link. */
  datatype AffiliateLink = AffiliateLink(platform: string, url: string)

  /** `url` is truthy: present and not the empty string. */
  predicate IsActive(e: AffiliateEntry) {
    e.url.Some? && e.url.value != ""
  }

  /** `.filter(([_, url]) => url).map(([platform, url]) => ({ platform, url }))` */
  function ActiveAffiliateLinks(entries: seq<AffiliateEntry>): (r: seq<AffiliateLink>)
    ensures |r| <= |entries|
    ensures forall i :: 0 <= i < |r| ==> r[i].url != ""
    ensures forall e :: e in entries && IsActive(e) ==> AffiliateLink(e.platform, e.url.value) in r
    ensures forall l :: l in r ==> AffiliateEntry(l.platform, Some(l.url)) in entries
  {
    if entries == [] then []
    else
      var rest := ActiveAffiliateLinks(entries[1..]);
      assert forall e :: e in entries[1..] ==> e in entries;
      if IsActive(entries[0]) then [AffiliateLink(entries[0].platform, entries[0].url.value)] + rest
      else rest
  }

  /** The filter keeps the entries' order: filtering a concatenation filters each part. */
  lemma {:induction false} ActiveAppend(a: seq<AffiliateEntry>, b: seq<AffiliateEntry>)
    ensures ActiveAffiliateLinks(a + b) == ActiveAffiliateLinks(a) + ActiveAffiliateLinks(b)
    decreases |a|
  {
    if a == [] {
      assert a + b == b;
    } else {
      assert (a + b)[1..] == a[1..] + b;
      ActiveAppend(a[1..], b);
    }
  }

  /** Every entry is kept when all of them are active, none when none is. */
  lemma {:induction false} ActiveAllOrNone(entries: seq<AffiliateEntry>)
    ensures (forall i :: 0 <= i < |entries| ==> IsActive(entries[i])) ==> |ActiveAffiliateLinks(entries)| == |entries|
    ensures (forall i :: 0 <= i < |entries| ==> !IsActive(entries[i])) ==> ActiveAffiliateLinks(entries) == []
    decreases |entries|
  {
    if entries != [] {
      ActiveAllOrNone(entries[1..]);
      assert forall i :: 1 <= i < |entries| ==> entries[1..][i - 1] == entries[i];
    }
  }

  /** `(articleHtml.match(new RegExp(url, 'g')) || []).length` for a URL read as plain
      text: the number of non-overlapping occurrences found left to right. They do not
      overlap, so together they fit in the article. */
  function AffiliateCount(html: string, url: string): (r: nat)
    ensures r * |url| <= |html|
  {
    LiteralMatchLength(url);
    CountBound(html, Literal(url), |url|);
    var c := CountMatches(html, Literal(url));
    assert c * |url| == |url| * c;
    c
  }

  lemma {:induction false} OccursShift(s: string, lit: string, k: nat)
    requires s != []
    ensures OccursAt(s, lit, k + 1) <==> OccursAt(s[1..], lit, k)
  {
    if k + 1 + |lit| <= |s| {
      assert s[k + 1..k + 1 + |lit|] == s[1..][k..k + |lit|];
    }
  }

  /** The URL is counted zero times exactly when it does not occur in the article. */
  lemma {:induction false} CountZeroIffAbsent(s: string, url: string)
    requires url != []
    ensures AffiliateCount(s, url) == 0 <==> forall k: nat :: !OccursAt(s, url, k)
    decreases |s|
  {
    if s != [] {
      if |url| <= |s| && s[..|url|] == url {
        assert OccursAt(s, url, 0);
      } else {
        CountZeroIffAbsent(s[1..], url);
        assert !OccursAt(s, url, 0);
        forall k: nat
          ensures OccursAt(s, url, k + 1) <==> OccursAt(s[1..], url, k)
        {
          OccursShift(s, url, k);
        }
        if AffiliateCount(s, url) != 0 {
          var k: nat :| OccursAt(s[1..], url, k);
          assert OccursAt(s, url, k + 1);
        } else {
          forall k: nat
            ensures !OccursAt(s, url, k)
          {
            if k > 0 { assert OccursAt(s, url, (k - 1) + 1) <==> OccursAt(s[1..], url, k - 1); }
          }
        }
      }
    }
  }

  /** A zero count is the same as `indexOf` finding nothing. */
  lemma {:induction false} CountZeroIffNotFound(s: string, url: string)
    requires url != []
    ensures AffiliateCount(s, url) == 0 <==> IndexOf(s, url, 0) == -1
  {
    CountZeroIffAbsent(s, url);
  }

  /** An occurrence of the URL at the front is counted once, and counting goes on after
      it. */
  lemma {:induction false} AffiliateCountHit(url: string, rest: string)
    requires url != []
    ensures AffiliateCount(url + rest, url) == 1 + AffiliateCount(rest, url)
  {
    assert (url + rest)[..|url|] == url;
    CountHit(url, rest, Literal(url), "");
  }

  /** A stretch of text at which no occurrence of the URL starts adds nothing to the
      count; with `AffiliateCountHit` the count of `k` non-overlapping occurrences is
      `k`. */
  lemma {:induction false} AffiliateCountSkip(a: string, b: string, url: string)
    requires forall k: nat :: k < |a| ==> !OccursAt(a + b, url, k)
    ensures AffiliateCount(a + b, url) == AffiliateCount(b, url)
    decreases |a|
  {
    if a != [] {
      var s := a + b;
      assert !OccursAt(s, url, 0);
      assert MatchAt(Literal(url), s).None?;
      assert s[1..] == a[1..] + b;
      forall k: nat | k < |a[1..]|
        ensures !OccursAt(a[1..] + b, url, k)
      {
        OccursShift(s, url, k);
      }
      AffiliateCountSkip(a[1..], b, url);
    } else {
      assert a + b == b;
    }
  }

  /** The `affiliateLinks` field of the response. */
  datatype AffiliateReport = AffiliateReport(platform: string, count: nat)

  function AffiliateReports(html: string, links: seq<AffiliateLink>): (r: seq<AffiliateReport>)
    ensures |r| == |links|
    ensures forall i :: 0 <= i < |r| ==> r[i].platform == links[i].platform
    ensures forall i :: 0 <= i < |r| ==> r[i].count == AffiliateCount(html, links[i].url)
  {
    if links == [] then []
    else [AffiliateReport(links[0].platform, AffiliateCount(html, links[0].url))]
         + AffiliateReports(html, links[1..])
  }

  /** Each reported count, times its URL's length, fits in the article. */
  lemma {:induction false} ReportsFit(html: string, links: seq<AffiliateLink>)
    ensures forall i :: 0 <= i < |links| ==> AffiliateReports(html, links)[i].count * |links[i].url| <= |html|
  {
    var r := AffiliateReports(html, links);
    forall i | 0 <= i < |links|
      ensures r[i].count * |links[i].url| <= |html|
    {
      assert r[i].count == AffiliateCount(html, links[i].url);
    }
  }

  /** The most spelling errors the response reports. */
  const MaxSpellingErrors := 20

  /** `spellingErrors.slice(0, 20)`: the first twenty errors, in order. */
  function CapSpellingErrors<E>(errors: seq<E>): (r: seq<E>)
    ensures |r| == if |errors| < MaxSpellingErrors then |errors| else MaxSpellingErrors
    ensures r == errors[..|r|]
    ensures |errors| <= MaxSpellingErrors ==> r == errors
  {
    if |errors| <= MaxSpellingErrors then errors else errors[..MaxSpellingErrors]
  }

  /** The fields of the JSON response that route.ts computes itself, from the article as
      it stands after images and affiliate links were added and from the collaborators'
      spelling errors. */
  datatype Response<E> = Response(
    html: string,
    markdown: string,
    stats: ArticleStats,
    spellingErrors: seq<E>,
    affiliateLinks: seq<AffiliateReport>)

  function BuildResponse<E>(articleHtml: string, spellingErrors: seq<E>, entries: seq<AffiliateEntry>)
    : (r: Response<E>)
    ensures r.html == articleHtml
    ensures r.stats == CalculateArticleStats(articleHtml) && r.stats.wordCount >= 1
    ensures r.markdown == HtmlToMarkdown(articleHtml)
    ensures r.spellingErrors == CapSpellingErrors(spellingErrors)
    ensures r.affiliateLinks == AffiliateReports(articleHtml, ActiveAffiliateLinks(entries))
  {
    Response(articleHtml, HtmlToMarkdown(articleHtml), CalculateArticleStats(articleHtml),
             CapSpellingErrors(spellingErrors), AffiliateReports(articleHtml, ActiveAffiliateLinks(entries)))
  }

  /** The response reports at most twenty spelling errors, the first ones in order, and
      one count per active link, each of which fits in the article. */
  lemma {:induction false} ResponseBounds<E>(articleHtml: string, spellingErrors: seq<E>, entries: seq<AffiliateEntry>)
    ensures var r := BuildResponse(articleHtml, spellingErrors, entries);
      && |r.spellingErrors| <= MaxSpellingErrors && |r.spellingErrors| <= |spellingErrors|
      && r.spellingErrors == spellingErrors[..|r.spellingErrors|]
    ensures var r := BuildResponse(articleHtml, spellingErrors, entries);
      var links := ActiveAffiliateLinks(entries);
      && |r.affiliateLinks| == |links| <= |entries|
      && forall i :: 0 <= i < |r.affiliateLinks| ==>
           r.affiliateLinks[i].platform == links[i].platform
           && r.affiliateLinks[i].count * |links[i].url| <= |articleHtml|
  {
    var r := BuildResponse(articleHtml, spellingErrors, entries);
    var links := ActiveAffiliateLinks(entries);
    ReportsFit(articleHtml, links);
    assert r.affiliateLinks == AffiliateReports(articleHtml, links);
  }
}
