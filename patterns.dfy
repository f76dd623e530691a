/** The regular expressions of route.ts, each compiled by hand into a matcher that
    gives exactly the match a backtracking ECMAScript engine finds at the start of a
    string, and the three ways route.ts uses a global regular expression: `replace`,
    `match(...).length` and `split`. All three scan left to right: where the pattern
    matches, the match is consumed whole; elsewhere the scan moves on one character. */
module Patterns {
  import opened TextOps

  /** `s` begins with `<` followed by `tag` (letters compared case-insensitively). */
  predicate StartsOpen(s: string, tag: string) {
    s != [] && s[0] == '<' && StartsCIAt(s, 1, tag)
  }

  /** `</tag>` begins at index `k` of `s` (letters compared case-insensitively). */
  predicate CloseAt(s: string, tag: string, k: nat) {
    k + |tag| + 3 <= |s| && s[k] == '<' && s[k + 1] == '/' && StartsCIAt(s, k + 2, tag)
    && s[k + |tag| + 2] == '>'
  }

  /** A match at the start of a string: how many characters it consumes and the
      replacement text it stands for. */
  datatype Match = Match(len: nat, out: string)

  datatype Pattern =
      /** `/<tag[^>]*>(.*?)<\/tag>/gi`, replaced by `pre + $1 + post` */
    | Element(tag: string, pre: string, post: string)
      /** `/<a[^>]*href="([^"]*)"[^>]*>(.*?)<\/a>/gi`, replaced by `[$2]($1)` */
    | Anchor
      /** `/<img[^>]*src="([^"]*)"[^>]*alt="([^"]*)"[^>]*>/gi`, replaced by `![$2]($1)` */
    | Image
      /** `/<tag[^>]*>/gi` */
    | OpenTag(tag: string, out: string)
      /** `/<\/tag>/gi` */
    | CloseTag(tag: string, out: string)
      /** `/<h[1-6][^>]*>/gi` */
    | HeadingOpen
      /** `/<[^>]*>/g` */
    | AnyTag(out: string)
      /** `/\s+/g` */
    | SpaceRun(out: string)
      /** `/\n{3,}/g` */
    | NewlineRun(out: string)
      /** a regular expression that is a plain, non-empty piece of text */
    | Literal(lit: string)

  /** `(.*?)` followed by `</tag>`, starting at `from`: the first position where the
      closing tag begins, provided no line break comes before it. */
  function LazyUntil(s: string, from: nat, tag: string): (r: Option<nat>)
    requires from <= |s|
    decreases |s| - from
    ensures r.Some? ==> from <= r.value && r.value + |tag| + 3 <= |s|
    ensures r.Some? ==> CloseAt(s, tag, r.value) && NoLineBreakIn(s, from, r.value)
    ensures r.Some? ==> forall k :: from <= k < r.value ==> !CloseAt(s, tag, k)
    ensures r.None? ==>
      forall k :: from <= k <= |s| && NoLineBreakIn(s, from, k) ==> !CloseAt(s, tag, k)
  {
    if CloseAt(s, tag, from) then Some(from)
    else if from == |s| || IsLineBreak(s[from]) then None
    else LazyUntil(s, from + 1, tag)
  }

  /** The element pass: `<tag`, the attributes up to the first `>`, then the shortest
      content on the same line that is followed by `</tag>`. */
  function ElementAt(s: string, tag: string, pre: string, post: string): (r: Option<Match>)
    ensures r.Some? ==> 0 < r.value.len <= |s|
    ensures r.Some? ==> StartsOpen(s, tag) && FindChar(s, '>', |tag| + 1).Some?
    ensures r.Some? ==>
      var g := FindChar(s, '>', |tag| + 1).value;
      var c := r.value.len - (|tag| + 3);
      && g < c
      && NoLineBreakIn(s, g + 1, c)
      && CloseAt(s, tag, c)
      && (forall k :: g + 1 <= k < c ==> !CloseAt(s, tag, k))
      && r.value.out == pre + s[g + 1..c] + post
    ensures r.None? && StartsOpen(s, tag) && FindChar(s, '>', |tag| + 1).Some? ==>
      var g := FindChar(s, '>', |tag| + 1).value;
      forall k :: g < k <= |s| && NoLineBreakIn(s, g + 1, k) ==> !CloseAt(s, tag, k)
  {
    if !StartsOpen(s, tag) then None
    else match FindChar(s, '>', |tag| + 1)
      case None => None
      case Some(g) =>
        match LazyUntil(s, g + 1, tag)
        case None => None
        case Some(k) => Some(Match(k + |tag| + 3, pre + s[g + 1..k] + post))
  }

  /** The anchor pattern once its first `[^>]*` has stopped at `p`. */
  function AnchorTry(s: string, p: nat): (r: Option<Match>)
    requires p <= |s|
    ensures r.Some? ==> 0 < r.value.len <= |s|
  {
    if !StartsCIAt(s, p, "href=\"") then None
    else
      match FindChar(s, '"', p + 6)
      case None => None
      case Some(q) =>
        match FindChar(s, '>', q + 1)
        case None => None
        case Some(e) =>
          match LazyUntil(s, e + 1, "a")
          case None => None
          case Some(k) => Some(Match(k + 4, "[" + s[e + 1..k] + "](" + s[p + 6..q] + ")"))
  }

  /** Backtracking over the first `[^>]*` of the anchor pattern, longest first. */
  function AnchorFrom(s: string, p: nat): (r: Option<Match>)
    requires 2 <= p <= |s|
    decreases p
    ensures r.Some? ==> 0 < r.value.len <= |s|
  {
    match AnchorTry(s, p)
    case Some(m) => Some(m)
    case None => if p == 2 then None else AnchorFrom(s, p - 1)
  }

  function AnchorAt(s: string): (r: Option<Match>)
    ensures r.Some? ==> 0 < r.value.len <= |s|
  {
    if !StartsOpen(s, "a") then None
    else
      AnchorFrom(s, match FindChar(s, '>', 2) case Some(g) => g case None => |s|)
  }

  /** The image pattern once `src="…"` spans `p..q` and the second `[^>]*` has
      stopped at `p2`. */
  function ImageAltTry(s: string, p: nat, q: nat, p2: nat): (r: Option<Match>)
    requires p + 5 <= q < p2 <= |s|
    ensures r.Some? ==> 0 < r.value.len <= |s|
  {
    if !StartsCIAt(s, p2, "alt=\"") then None
    else
      match FindChar(s, '"', p2 + 5)
      case None => None
      case Some(q2) =>
        match FindChar(s, '>', q2 + 1)
        case None => None
        case Some(e) => Some(Match(e + 1, "![" + s[p2 + 5..q2] + "](" + s[p + 5..q] + ")"))
  }

  /** Backtracking over the second `[^>]*` of the image pattern, longest first. */
  function ImageAltFrom(s: string, p: nat, q: nat, p2: nat): (r: Option<Match>)
    requires p + 5 <= q < p2 <= |s|
    decreases p2
    ensures r.Some? ==> 0 < r.value.len <= |s|
  {
    match ImageAltTry(s, p, q, p2)
    case Some(m) => Some(m)
    case None => if p2 == q + 1 then None else ImageAltFrom(s, p, q, p2 - 1)
  }

  /** The image pattern once its first `[^>]*` has stopped at `p`. */
  function ImageTry(s: string, p: nat): (r: Option<Match>)
    requires p <= |s|
    ensures r.Some? ==> 0 < r.value.len <= |s|
  {
    if !StartsCIAt(s, p, "src=\"") then None
    else
      match FindChar(s, '"', p + 5)
      case None => None
      case Some(q) =>
        ImageAltFrom(s, p, q, match FindChar(s, '>', q + 1) case Some(g) => g case None => |s|)
  }

  /** Backtracking over the first `[^>]*` of the image pattern, longest first. */
  function ImageFrom(s: string, p: nat): (r: Option<Match>)
    requires 4 <= p <= |s|
    decreases p
    ensures r.Some? ==> 0 < r.value.len <= |s|
  {
    match ImageTry(s, p)
    case Some(m) => Some(m)
    case None => if p == 4 then None else ImageFrom(s, p - 1)
  }

  function ImageAt(s: string): (r: Option<Match>)
    ensures r.Some? ==> 0 < r.value.len <= |s|
  {
    if !StartsOpen(s, "img") then None
    else ImageFrom(s, match FindChar(s, '>', 4) case Some(g) => g case None => |s|)
  }

  /** Length of the leading run of `\n`. */
  function LeadingNewlines(s: string): (n: nat)
    ensures n <= |s| && forall i :: 0 <= i < n ==> s[i] == '\n'
    ensures n < |s| ==> s[n] != '\n'
  {
    if s != [] && s[0] == '\n' then 1 + LeadingNewlines(s[1..]) else 0
  }

  /** The match of `p` at the start of `s`, if any. */
  function MatchAt(p: Pattern, s: string): (r: Option<Match>)
    ensures r.Some? ==> 0 < r.value.len <= |s|
  {
    match p
    case Element(tag, pre, post) => ElementAt(s, tag, pre, post)
    case Anchor => AnchorAt(s)
    case Image => ImageAt(s)
    case OpenTag(tag, out) =>
      if !StartsOpen(s, tag) then None
      else (match FindChar(s, '>', |tag| + 1) case Some(g) => Some(Match(g + 1, out)) case None => None)
    case CloseTag(tag, out) =>
      if CloseAt(s, tag, 0) then
        Some(Match(|tag| + 3, out))
      else None
    case HeadingOpen =>
      if |s| >= 3 && s[0] == '<' && Lower(s[1]) == 'h' && '1' <= s[2] <= '6' then
        (match FindChar(s, '>', 3) case Some(g) => Some(Match(g + 1, "")) case None => None)
      else None
    case AnyTag(out) =>
      if s != [] && s[0] == '<' then
        (match FindChar(s, '>', 1) case Some(g) => Some(Match(g + 1, out)) case None => None)
      else None
    case SpaceRun(out) =>
      if s != [] && IsSpace(s[0]) then Some(Match(LeadingSpaces(s), out)) else None
    case NewlineRun(out) =>
      if LeadingNewlines(s) >= 3 then Some(Match(LeadingNewlines(s), out)) else None
    case Literal(lit) =>
      if lit != [] && |lit| <= |s| && s[..|lit|] == lit then Some(Match(|lit|, "")) else None
  }

  /** `s.replace(p, …)` with the global flag. */
  function Replace(s: string, p: Pattern): string
    decreases |s|
  {
    if s == [] then []
    else match MatchAt(p, s)
      case Some(m) => m.out + Replace(s[m.len..], p)
      case None => [s[0]] + Replace(s[1..], p)
  }

  /** Where `p` matches nowhere, `replace` gives the text back unchanged. */
  lemma {:induction false} ReplaceNoMatch(s: string, p: Pattern)
    requires forall k :: 0 <= k < |s| ==> MatchAt(p, s[k..]).None?
    ensures Replace(s, p) == s
    decreases |s|
  {
    if s != [] {
      assert s[0..] == s;
      forall k | 0 <= k < |s| - 1
        ensures MatchAt(p, s[1..][k..]).None?
      {
        assert s[1..][k..] == s[k + 1..];
      }
      ReplaceNoMatch(s[1..], p);
    }
  }

  /** `(s.match(p) || []).length` with the global flag. */
  function CountMatches(s: string, p: Pattern): (r: nat)
    decreases |s|
    ensures r <= |s|
  {
    if s == [] then 0
    else match MatchAt(p, s)
      case Some(m) => 1 + CountMatches(s[m.len..], p)
      case None => CountMatches(s[1..], p)
  }

  /** `s.split(p)`: the pieces between successive matches. */
  function Split(s: string, p: Pattern): (r: seq<string>)
    decreases |s|
    ensures |r| >= 1
  {
    if s == [] then [""]
    else match MatchAt(p, s)
      case Some(m) => [""] + Split(s[m.len..], p)
      case None =>
        var rest := Split(s[1..], p);
        [[s[0]] + rest[0]] + rest[1..]
  }

  lemma {:induction false} MulSucc(k: nat, c: nat)
    ensures k * (c + 1) == k * c + k
  {
  }

  /** Where every match of `p` is at least `k` long, the matches counted do not overlap,
      so `k` times their number fits in the text. */
  lemma {:induction false} CountBound(s: string, p: Pattern, k: nat)
    requires forall t :: MatchAt(p, t).Some? ==> MatchAt(p, t).value.len >= k
    ensures k * CountMatches(s, p) <= |s|
    decreases |s|
  {
    if s != [] {
      var r := MatchAt(p, s);
      if r.Some? {
        var rest := s[r.value.len..];
        var c := CountMatches(rest, p);
        assert CountMatches(s, p) == c + 1;
        CountBound(rest, p, k);
        MulSucc(k, c);
        assert k * CountMatches(s, p) == k * c + k;
        assert |rest| == |s| - r.value.len;
      } else {
        assert CountMatches(s, p) == CountMatches(s[1..], p);
        CountBound(s[1..], p, k);
      }
    }
  }

  /** A literal matches exactly its own length. */
  lemma {:induction false} LiteralMatchLength(lit: string)
    ensures forall t :: MatchAt(Literal(lit), t).Some? ==> MatchAt(Literal(lit), t).value.len == |lit|
  {
  }

  /** `split` yields one piece more than there are matches. */
  lemma {:induction false} SplitLength(s: string, p: Pattern)
    ensures |Split(s, p)| == CountMatches(s, p) + 1
    decreases |s|
  {
    if s != [] {
      match MatchAt(p, s)
      case Some(m) => SplitLength(s[m.len..], p);
      case None => SplitLength(s[1..], p);
    }
  }

  /** Patterns that can only match where a `<` stands. */
  predicate TagPattern(p: Pattern) {
    !p.SpaceRun? && !p.NewlineRun? && !p.Literal?
  }

  /** The character that must follow the `<` for `p` to match, when there is one. */
  function Lead(p: Pattern): Option<char> {
    match p
    case Element(tag, _, _) => if tag == [] then None else Some(Lower(tag[0]))
    case OpenTag(tag, _) => if tag == [] then None else Some(Lower(tag[0]))
    case CloseTag(_, _) => Some('/')
    case Anchor => Some('a')
    case Image => Some('i')
    case HeadingOpen => Some('h')
    case _ => None
  }

  lemma {:induction false} TagPatternNeedsLt(p: Pattern, s: string)
    requires TagPattern(p) && MatchAt(p, s).Some?
    ensures s[0] == '<'
  {
  }

  lemma {:induction false} LeadNeeded(p: Pattern, s: string)
    requires Lead(p).Some? && MatchAt(p, s).Some?
    ensures |s| >= 2 && s[0] == '<' && Lower(s[1]) == Lead(p).value
  {
    match p
    case Element(tag, _, _) =>
    case OpenTag(tag, _) =>
    case CloseTag(_, _) =>
    case Anchor => assert Lower(s[1]) == Lower("a"[0]);
    case Image => assert Lower(s[1]) == Lower("img"[0]);
    case HeadingOpen =>
  }

  /** Where nothing matches, `replace` keeps the character and moves on. */
  lemma {:induction false} ReplaceMiss(s: string, p: Pattern)
    requires s != [] && MatchAt(p, s).None?
    ensures Replace(s, p) == [s[0]] + Replace(s[1..], p)
  {
  }

  /** A tag pattern passes over text that holds no `<`, and the newline-run pattern over
      text that holds no `\n`. */
  lemma {:induction false} ReplaceKeepsText(a: string, b: string, p: Pattern)
    requires (TagPattern(p) && '<' !in a) || (p.NewlineRun? && '\n' !in a)
    ensures Replace(a + b, p) == a + Replace(b, p)
    decreases |a|
  {
    if a != [] {
      assert (a + b)[0] == a[0];
      if MatchAt(p, a + b).Some? && TagPattern(p) { TagPatternNeedsLt(p, a + b); }
      ReplaceMissFront(a, b, p);
      ReplaceKeepsText(a[1..], b, p);
      ConsFront(a, Replace(b, p));
    } else {
      assert a + b == b;
    }
  }

  /** A tag pattern finds no match in text that holds no `<`. */
  lemma {:induction false} CountKeepsText(a: string, b: string, p: Pattern)
    requires TagPattern(p) && '<' !in a
    ensures CountMatches(a + b, p) == CountMatches(b, p)
    decreases |a|
  {
    if a != [] {
      assert (a + b)[0] == a[0];
      if MatchAt(p, a + b).Some? { TagPatternNeedsLt(p, a + b); }
      assert (a + b)[1..] == a[1..] + b;
      CountKeepsText(a[1..], b, p);
    } else {
      assert a + b == b;
    }
  }

  /** A match that spans exactly `a` is counted once and the count goes on over `b`. */
  lemma {:induction false} CountHit(a: string, b: string, p: Pattern, out: string)
    requires MatchAt(p, a + b) == Some(Match(|a|, out))
    ensures CountMatches(a + b, p) == 1 + CountMatches(b, p)
  {
    assert (a + b)[|a|..] == b;
  }

  /** Text without a `<` is free of every lead character. */
  lemma {:induction false} LeadFreeText(a: string, c: char)
    requires '<' !in a
    ensures LeadFree(a, c)
  {
    assert forall i :: 0 <= i < |a| ==> a[i] != '<';
  }

  /** Freedom from a lead character is kept by concatenation. */
  lemma {:induction false} LeadFreeAppend(a: string, b: string, c: char)
    requires LeadFree(a, c) && LeadFree(b, c)
    ensures LeadFree(a + b, c)
  {
    var s := a + b;
    forall i | 0 <= i < |s| && s[i] == '<'
      ensures i + 1 < |s| && Lower(s[i + 1]) != c
    {
      if i < |a| { assert s[i] == a[i] && s[i + 1] == a[i + 1]; }
      else { assert s[i] == b[i - |a|] && i + 1 - |a| < |b| && s[i + 1] == b[i + 1 - |a|]; }
    }
  }

  /** A pattern with a lead character does not match where that character does not
      follow a `<`. */
  lemma {:induction false} NoMatchWithoutLead(p: Pattern, s: string)
    requires Lead(p).Some? && s != []
    requires s[0] == '<' ==> |s| >= 2 && Lower(s[1]) != Lead(p).value
    ensures MatchAt(p, s).None?
  {
    if MatchAt(p, s).Some? { LeadNeeded(p, s); }
  }

  /** Every `<` in `s` is followed, within `s`, by a character other than `c`. */
  predicate LeadFree(s: string, c: char) {
    forall i :: 0 <= i < |s| && s[i] == '<' ==> i + 1 < |s| && Lower(s[i + 1]) != c
  }

  lemma {:induction false} LeadFreeTail(a: string, c: char)
    requires a != [] && LeadFree(a, c)
    ensures LeadFree(a[1..], c)
  {
    forall i | 0 <= i < |a| - 1 && a[1..][i] == '<'
      ensures i + 1 < |a| - 1 && Lower(a[1..][i + 1]) != c
    {
      assert a[1..][i] == a[i + 1];
    }
  }

  /** Where nothing matches at the front of `a + b`, `replace` keeps `a[0]`. */
  lemma {:induction false} ReplaceMissFront(a: string, b: string, p: Pattern)
    requires a != [] && MatchAt(p, a + b).None?
    ensures Replace(a + b, p) == [a[0]] + Replace(a[1..] + b, p)
  {
    ReplaceMiss(a + b, p);
    assert (a + b)[0] == a[0];
    assert (a + b)[1..] == a[1..] + b;
  }

  lemma {:induction false} ConsFront(a: string, x: string)
    requires a != []
    ensures [a[0]] + (a[1..] + x) == a + x
  {
    assert a == [a[0]] + a[1..];
  }

  /** A pattern with a lead character passes over text in which no `<` is followed by
      that character. */
  lemma {:induction false} ReplacePassesOver(a: string, b: string, p: Pattern)
    requires Lead(p).Some? && LeadFree(a, Lead(p).value)
    ensures Replace(a + b, p) == a + Replace(b, p)
    decreases |a|
  {
    if a != [] {
      assert (a + b)[0] == a[0];
      if a[0] == '<' { assert (a + b)[1] == a[1]; }
      NoMatchWithoutLead(p, a + b);
      ReplaceMissFront(a, b, p);
      LeadFreeTail(a, Lead(p).value);
      ReplacePassesOver(a[1..], b, p);
      ConsFront(a, Replace(b, p));
    } else {
      assert a + b == b;
    }
  }

  /** A pattern with a lead character finds no match in text in which no `<` is followed
      by that character: such text adds nothing to the count. */
  lemma {:induction false} CountPassesOver(a: string, b: string, p: Pattern)
    requires Lead(p).Some? && LeadFree(a, Lead(p).value)
    ensures CountMatches(a + b, p) == CountMatches(b, p)
    decreases |a|
  {
    if a != [] {
      assert (a + b)[0] == a[0];
      if a[0] == '<' { assert (a + b)[1] == a[1]; }
      NoMatchWithoutLead(p, a + b);
      assert (a + b)[1..] == a[1..] + b;
      LeadFreeTail(a, Lead(p).value);
      CountPassesOver(a[1..], b, p);
    } else {
      assert a + b == b;
    }
  }

  /** The first `>` at or after `from` is found in `a` when `a` holds one there. */
  lemma {:induction false} FindCharPrefix(a: string, b: string, c: char, from: nat)
    requires FindChar(a, c, from).Some?
    ensures FindChar(a + b, c, from) == FindChar(a, c, from)
    decreases |a| - from
  {
    if a[from] != c { FindCharPrefix(a, b, c, from + 1); }
  }

  /** A piece of text matches itself at the place it occurs. */
  lemma {:induction false} StartsCIAtSelf(s: string, k: nat, t: string)
    requires k + |t| <= |s| && s[k..k + |t|] == t
    ensures StartsCIAt(s, k, t)
  {
    assert forall i :: 0 <= i < |t| ==> s[k + i] == t[i];
  }

  /** The element pass, once its open tag, its first `>` and its closing tag are found. */
  lemma {:induction false} ElementAtHit(s: string, tag: string, pre: string, post: string, g: nat, c: nat)
    requires StartsOpen(s, tag) && FindChar(s, '>', |tag| + 1) == Some(g)
    requires g + 1 <= |s| && LazyUntil(s, g + 1, tag) == Some(c)
    ensures ElementAt(s, tag, pre, post) == Some(Match(c + |tag| + 3, pre + s[g + 1..c] + post))
  {
    var r := ElementAt(s, tag, pre, post);
    assert r.value.len == c + |tag| + 3;
    assert r.value.out == pre + s[g + 1..c] + post;
  }

  /** `<tag…` opens at the start of a string that begins with `<` and `tag`. */
  lemma {:induction false} OpenTagStarts(s: string, tag: string, tail: string)
    requires s == "<" + tag + tail
    ensures StartsOpen(s, tag)
  {
    assert s[1..1 + |tag|] == tag;
    StartsCIAtSelf(s, 1, tag);
  }

  /** With no `>` among the attributes, the first `>` after `<tag` closes `<tag attrs>`. */
  lemma {:induction false} OpenTagEnds(s: string, tag: string, attrs: string, tail: string)
    requires s == "<" + tag + attrs + ">" + tail && '>' !in attrs
    ensures FindChar(s, '>', |tag| + 1) == Some(|tag| + 1 + |attrs|)
  {
    var g := |tag| + 1 + |attrs|;
    assert s[g] == '>';
    assert forall k :: |tag| + 1 <= k < g ==> s[k] == attrs[k - |tag| - 1];
  }

  /** `(.*?)</tag>` stops at the first `</tag>` when the text before it holds no `<` and
      no line break. */
  lemma {:induction false} LazyFindsClose(s: string, from: nat, tag: string, c: nat)
    requires from <= c && CloseAt(s, tag, c)
    requires forall k :: from <= k < c ==> s[k] != '<' && !IsLineBreak(s[k])
    ensures LazyUntil(s, from, tag) == Some(c)
    decreases c - from
  {
    if from < c { LazyFindsClose(s, from + 1, tag, c); }
  }

  /** `</tag>` stands right after `a`. */
  lemma {:induction false} CloseTagAfter(s: string, a: string, tag: string, rest: string)
    requires s == a + "</" + tag + ">" + rest
    ensures CloseAt(s, tag, |a|)
  {
    var c := |a|;
    assert s[c + 2..c + 2 + |tag|] == tag;
    StartsCIAtSelf(s, c + 2, tag);
    assert s[c] == '<' && s[c + 1] == '/' && s[c + |tag| + 2] == '>';
  }

  /** `(.*?)</tag>` passes over content on one line that holds no `<`. */
  lemma {:induction false} ContentScanned(s: string, head: string, content: string, tail: string, tag: string)
    requires s == head + content + tail && '<' !in content && NoLineBreak(content)
    requires CloseAt(s, tag, |head| + |content|)
    ensures LazyUntil(s, |head|, tag) == Some(|head| + |content|)
  {
    assert forall k :: |head| <= k < |head| + |content| ==> s[k] == content[k - |head|];
    LazyFindsClose(s, |head|, tag, |head| + |content|);
  }

  /** `s` is `<tag attrs>content</tag>` followed by `rest`. */
  predicate IsElement(s: string, tag: string, attrs: string, content: string, rest: string) {
    s == "<" + tag + attrs + ">" + content + "</" + tag + ">" + rest
  }

  lemma {:induction false} ElementOpens(s: string, tag: string, attrs: string, content: string, rest: string)
    requires IsElement(s, tag, attrs, content, rest) && '>' !in attrs
    ensures StartsOpen(s, tag) && FindChar(s, '>', |tag| + 1) == Some(|tag| + 1 + |attrs|)
  {
    var tail := content + "</" + tag + ">" + rest;
    assert s == "<" + tag + attrs + ">" + tail;
    OpenTagEnds(s, tag, attrs, tail);
    assert s == "<" + tag + (attrs + ">" + tail);
    OpenTagStarts(s, tag, attrs + ">" + tail);
  }

  lemma {:induction false} ElementContent(s: string, tag: string, attrs: string, content: string, rest: string)
    requires IsElement(s, tag, attrs, content, rest) && '<' !in content && NoLineBreak(content)
    ensures |tag| + 2 + |attrs| + |content| + |tag| + 3 + |rest| == |s|
    ensures LazyUntil(s, |tag| + 2 + |attrs|, tag) == Some(|tag| + 2 + |attrs| + |content|)
    ensures s[|tag| + 2 + |attrs|..|tag| + 2 + |attrs| + |content|] == content
  {
    var open := "<" + tag + attrs + ">";
    var tail := "</" + tag + ">" + rest;
    assert s == (open + content) + "</" + tag + ">" + rest;
    CloseTagAfter(s, open + content, tag, rest);
    assert s == open + content + tail;
    ContentScanned(s, open, content, tail, tag);
  }

  /** The element pass rewrites an element written on one line whose content holds no
      tag: `<tag attrs>content</tag>` becomes `pre + content + post`. */
  lemma {:induction false} ElementRewritesOneLine(s: string, tag: string, attrs: string, content: string,
                               rest: string, pre: string, post: string)
    requires IsElement(s, tag, attrs, content, rest)
    requires '>' !in attrs && '<' !in content && NoLineBreak(content)
    ensures ElementAt(s, tag, pre, post) == Some(Match(|s| - |rest|, pre + content + post))
  {
    var g := |tag| + 1 + |attrs|;
    var c := g + 1 + |content|;
    ElementOpens(s, tag, attrs, content, rest);
    ElementContent(s, tag, attrs, content, rest);
    ElementAtHit(s, tag, pre, post, g, c);
    assert s[g + 1..c] == content;
  }

  /** Where `<tag…>` opens, but a line break comes before every `</tag>`, the element
      pass does not match: its content does not cross a line. */
  lemma {:induction false} ElementStopsAtLineBreak(s: string, tag: string, pre: string, post: string, nl: nat)
    requires StartsOpen(s, tag) && FindChar(s, '>', |tag| + 1).Some?
    requires FindChar(s, '>', |tag| + 1).value < nl < |s| && IsLineBreak(s[nl])
    requires forall k :: FindChar(s, '>', |tag| + 1).value < k <= nl ==> !CloseAt(s, tag, k)
    ensures ElementAt(s, tag, pre, post).None?
  {
  }

  /** `replace` consumes a match and continues after it. */
  lemma {:induction false} ReplaceHit(a: string, b: string, p: Pattern, out: string)
    requires MatchAt(p, a + b) == Some(Match(|a|, out))
    ensures Replace(a + b, p) == out + Replace(b, p)
  {
    assert (a + b)[|a|..] == b;
  }

  /** An element pass over `<tag attrs>content</tag>` followed by `b`: the element becomes
      `pre + content + post` and the pass goes on over `b`. */
  lemma {:induction false} ElementPassRewrites(a: string, b: string, tag: string, attrs: string, open: string,
                                               close: string, content: string, pre: string, post: string)
    requires open == "<" + tag + attrs + ">" && close == "</" + tag + ">" && a == open + content + close
    requires '>' !in attrs && '<' !in content && NoLineBreak(content)
    ensures Replace(a + b, Element(tag, pre, post)) == pre + content + post + Replace(b, Element(tag, pre, post))
  {
    assert IsElement(a + b, tag, attrs, content, b);
    ElementRewritesOneLine(a + b, tag, attrs, content, b, pre, post);
    ReplaceHit(a, b, Element(tag, pre, post), pre + content + post);
  }

  /** `replace` with a replacement free of `c` never produces a `c` the input did not
      hold. */
  lemma {:induction false} ReplaceAddsOnly(s: string, p: Pattern, c: char)
    requires p.AnyTag? || p.SpaceRun? || p.NewlineRun? || p.OpenTag? || p.CloseTag?
    requires c !in s && c !in p.out
    ensures c !in Replace(s, p)
    decreases |s|
  {
    if s != [] {
      match MatchAt(p, s)
      case Some(m) =>
        ReplaceAddsOnly(s[m.len..], p, c);
      case None =>
        ReplaceAddsOnly(s[1..], p, c);
    }
  }
}
