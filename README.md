# Article post-processing of the article generator

The article generator's `POST` handler (`app/api/generate-article/route.ts`) asks a
language model for an article in HTML. It then post-processes the text with a few string
helpers of its own:

- generateImagePrompts lists one image prompt per requested image.
- insertImagesIntoArticle splices a `<figure>` block per generated image into the article.
- calculateArticleStats counts words, headings and images and derives a reading time.
- htmlToMarkdown rewrites the article as Markdown through a fixed chain of global
  regular-expression replacements.
- The handler's response keeps the active affiliate links and counts each link's URL in
  the article. It also reports at most twenty spelling errors.

This project models those helpers in Dafny and proves what they promise.

Modules:

- TextOps (`text_ops.dfy`): the JavaScript string primitives the helpers rely on.
  These are `\s`, line terminators, ASCII case folding, `indexOf`, `trim` and the
  decimal rendering of `${n}`.
- Patterns (`patterns.dfy`): every regular expression of the helpers as a `Pattern`,
  each compiled by hand into a matcher.
  - A matcher gives the match a backtracking ECMAScript engine finds at the start of a
    string.
  - `(.*?)` is lazy and stops at a line break. `[^>]*` crosses line breaks. Tag names
    match by prefix and case-insensitively.
  - `replace`, `match(...).length` and `split` with the global flag are the scans
    `Replace`, `CountMatches` and `Split`. Each goes left to right and consumes a match
    whole; elsewhere it moves on one character.
- TagRewrites (`tag_rewrites.dfy`): the link and image passes, whose `[^>]*` parts
  backtrack, worked through on a plain `<a href="…">` and a plain `<img src="…" alt="…">`.
- Markdown (`markdown.dfy`): `htmlToMarkdown` as the sixteen conversion passes in
  source order, then the tag strip, the blank-line collapse and `trim`.
- MarkdownExamples (`markdown_examples.dfy`): two conversions worked pass by pass.
  One is a title and a paragraph with bold text, for any plain one-line text. The other
  is a paragraph that spans two lines.
- Stats (`stats.dfy`): `calculateArticleStats`, with the word count tied to an
  independent count of whitespace-separated words.
- Images (`images.dfy`): both image helpers as imperative methods with loops. Each is
  proved against a specification function, and the placement of the figures is proved
  about that function.
- Route (`route.dfy`): the affiliate filter, the per-link occurrence count, the
  spelling-error cap and the response fields the handler computes itself.

## Model

| member | source | states |
|---|---|---|
| TextOps.IndexOf | app/api/generate-article/route.ts:172 | `indexOf(pat, from)` returns the first occurrence at or after `from`, or -1 exactly when there is no occurrence there |
| TextOps.Trim | app/api/generate-article/route.ts:187 | `trim` returns the middle of the string between an all-whitespace prefix and an all-whitespace suffix; the result neither starts nor ends with whitespace |
| TextOps.NatToString | app/api/generate-article/route.ts:195 | `${n}` is a non-empty string of decimal digits with no leading zero |
| TextOps.ParseNatToString | app/api/generate-article/route.ts:195 | reading the decimal rendering back gives the number |
| TextOps.NatToStringInjective | app/api/generate-article/route.ts:154 | different numbers render differently |
| TextOps.TrimDropsTrailing | app/api/generate-article/route.ts:236 | `trim` of text that begins and ends with a non-space character, followed by whitespace, gives back the text |
| Patterns.LazyUntil | app/api/generate-article/route.ts:205 | `(.*?)</tag>` stops at the first closing tag, and only when no line break comes before it; with no such tag there is no match |
| Patterns.ElementStopsAtLineBreak | app/api/generate-article/route.ts:205-230 | where a line break comes before every `</tag>` after the opening tag, the element pass does not match: the lazy content never crosses a line |
| Patterns.ElementAt | app/api/generate-article/route.ts:205-230 | an element pass matches only at `<tag`; its match runs to the first `>`, then the shortest same-line content, then `</tag>`; it is replaced by `pre + content + post` |
| Patterns.AnchorTry | app/api/generate-article/route.ts:217 | the link pattern tried with its first `[^>]*` stopped at a given point: a match is non-empty and lies within the text |
| Patterns.AnchorFrom | app/api/generate-article/route.ts:217 | backtracking over the first `[^>]*` of the link pattern, longest first: a match is non-empty and lies within the text |
| Patterns.AnchorAt | app/api/generate-article/route.ts:217 | the link pattern at the start of the text: a match is non-empty and lies within the text |
| Patterns.ImageAltFrom | app/api/generate-article/route.ts:220 | backtracking over the second `[^>]*` of the image pattern, longest first: a match is non-empty and lies within the text |
| Patterns.ImageFrom | app/api/generate-article/route.ts:220 | backtracking over the first `[^>]*` of the image pattern, longest first: a match is non-empty and lies within the text |
| Patterns.ImageAt | app/api/generate-article/route.ts:220 | the image pattern at the start of the text: a match is non-empty and lies within the text |
| TagRewrites.AnchorRewrites | app/api/generate-article/route.ts:217 | `<a href="u">t</a>` followed by any text is matched up to `</a>` and becomes `[t](u)`, for a URL without `"` or `>` and one-line text without `<` |
| TagRewrites.ImageRewrites | app/api/generate-article/route.ts:220 | `<img src="u" alt="a">` followed by any text is matched up to its `>` and becomes `![a](u)`, for values without `"` or `>` |
| Patterns.MatchAt | app/api/generate-article/route.ts:205-236 | each pattern's match at the start of the text is non-empty and lies within the text, so every scan moves on |
| Patterns.ReplaceNoMatch | app/api/generate-article/route.ts:205-236 | where the pattern matches at no position, `replace` gives the text back unchanged |
| Patterns.CountMatches | app/api/generate-article/route.ts:134 | `match(...).length` with the global flag counts at most one match per character |
| Patterns.CountBound | app/api/generate-article/route.ts:134 | where every match is at least `k` long, the counted matches do not overlap: `k` times their number fits in the text |
| Patterns.Split | app/api/generate-article/route.ts:188 | `split` always gives at least one piece |
| Patterns.SplitLength | app/api/generate-article/route.ts:188 | `split` gives one piece more than there are matches |
| Patterns.ReplaceKeepsText | app/api/generate-article/route.ts:233 | a tag pattern passes over text without `<`, and the newline-run pattern over text without a line break |
| Patterns.ReplacePassesOver | app/api/generate-article/route.ts:205-230 | a pattern passes over text in which no `<` is followed by the pattern's lead letter |
| Patterns.ReplaceAddsOnly | app/api/generate-article/route.ts:233 | a replace whose replacement lacks a character never introduces that character |
| Patterns.ElementRewritesOneLine | app/api/generate-article/route.ts:205-230 | `<tag attrs>content</tag>` on one line, with no tag in the content, is rewritten to `pre + content + post` |
| Patterns.ElementPassRewrites | app/api/generate-article/route.ts:205-230 | the whole pass over a one-line `<tag attrs>content</tag>` (attributes without `>`, content without `<`) followed by more text rewrites the element to `pre + content + post` and goes on after it |
| Patterns.CountHit | app/api/generate-article/route.ts:190 | a match spanning a prefix is counted once, and counting goes on after it |
| Patterns.CountKeepsText | app/api/generate-article/route.ts:190-191 | text without `<` contributes no heading or image tag |
| Patterns.CountPassesOver | app/api/generate-article/route.ts:190-191 | a pattern with a lead letter counts nothing in text in which no `<` is followed by that letter |
| Markdown.HtmlToMarkdown | app/api/generate-article/route.ts:201-239 | no `<` of the Markdown is followed anywhere later by `>`; there are never three newlines in a row; there is no leading or trailing whitespace |
| Markdown.PassesNeedTag | app/api/generate-article/route.ts:205-230 | there are sixteen conversion passes, and each one matches only at a `<` |
| Markdown.PlainTextPassesThrough | app/api/generate-article/route.ts:205-233 | text without `<` comes through all sixteen passes unchanged, so its Markdown is only the strip, collapse and trim of the text |
| Markdown.CollapseKeeps | app/api/generate-article/route.ts:236 | where no three newlines stand in a row, the collapse changes nothing |
| Markdown.CollapseIdempotent | app/api/generate-article/route.ts:236 | collapsing newline runs twice is the same as collapsing once |
| Markdown.CleanUp | app/api/generate-article/route.ts:232-236 | the strip, collapse and trim alone already give those three guarantees, whatever the passes before left |
| Markdown.StripLeavesNoTagSpan | app/api/generate-article/route.ts:233 | after `replace(/<[^>]*>/g, '')` no `<` is followed by a `>` |
| Markdown.CollapseNoTriple | app/api/generate-article/route.ts:236 | after `replace(/\n{3,}/g, '\n\n')` no three newlines are in a row |
| Markdown.CollapseKeepsNoTagSpan | app/api/generate-article/route.ts:236 | the collapse does not bring back a tag span |
| Markdown.ApplyPassesAppend | app/api/generate-article/route.ts:205-230 | running a chain of passes is running its first part, then the rest |
| MarkdownExamples.TitleAndBoldParagraph | app/api/generate-article/route.ts:205-236 | `<h1>t</h1><p>b <strong>w</strong></p>` becomes `# t`, a blank line and `b **w**` for every one-line `t`, `b`, `w` without `<`: the h1, strong and paragraph passes apply in order and the trim drops the final blank line |
| MarkdownExamples.TitlePass | app/api/generate-article/route.ts:205 | the h1 pass turns the title into `# t` and a blank line and leaves the paragraph alone |
| MarkdownExamples.StrongPass | app/api/generate-article/route.ts:211 | the strong pass turns `<strong>w</strong>` into `**w**` inside the paragraph |
| MarkdownExamples.ParagraphPass | app/api/generate-article/route.ts:230 | the paragraph pass turns `<p>…</p>` into its text and a blank line |
| MarkdownExamples.TwoLineParagraph | app/api/generate-article/route.ts:230-233 | a paragraph whose closing tag is on the next line is left alone by the paragraph pass, and only the final strip removes its tags, keeping the line break |
| Stats.TextContent | app/api/generate-article/route.ts:187 | the text the words are counted in neither starts nor ends with whitespace |
| Stats.WordCount | app/api/generate-article/route.ts:187-188 | the word count is the number of whitespace-separated words once every tag is a space, or 1 when there is none |
| Stats.WordsAndRuns | app/api/generate-article/route.ts:188 | the words of a string without trailing space are its whitespace runs, plus one when it starts with a word |
| Stats.ReadingMinutes | app/api/generate-article/route.ts:189 | `Math.ceil(w / 200)` is the least number of 200-word minutes that covers `w` words |
| Stats.ReadingTime | app/api/generate-article/route.ts:195 | `${m} min` is decimal digits followed by ` min`, and the digits read back as the minutes |
| Stats.HeadingCount | app/api/generate-article/route.ts:190 | the counted heading tags are each at least `<h1>` long and do not overlap, so four times their number fits in the HTML |
| Stats.ImageCount | app/api/generate-article/route.ts:191 | the counted image tags are each at least `<img>` long and do not overlap, so five times their number fits in the HTML |
| Stats.CalculateArticleStats | app/api/generate-article/route.ts:186-199 | the word count is at least 1 and equals that count of words; the reading time is digits followed by ` min`; the digits read back as `m >= 1` with `200(m-1) < words <= 200m`; the heading and image counts equal the tag counts |
| Stats.HeadingTagCounted | app/api/generate-article/route.ts:190 | each `<h1…>`–`<h6…>` opening tag counts once, whatever its attributes or letter case |
| Stats.ClosingHeadingNotCounted | app/api/generate-article/route.ts:190 | closing heading tags are not counted |
| Stats.PlainTextNotCounted | app/api/generate-article/route.ts:190-191 | text without `<` adds no heading and no image |
| Stats.ImageTagCounted | app/api/generate-article/route.ts:191 | each `<img…>` tag counts once, whatever its attributes or letter case |
| Stats.OtherTagsNotHeadings | app/api/generate-article/route.ts:190 | tags whose `<` is never followed by `h`, such as `<p>`, `</p>`, `<strong>` or any closing tag, add nothing to the heading count |
| Stats.OtherTagsNotImages | app/api/generate-article/route.ts:191 | tags whose `<` is never followed by `i` add nothing to the image count |
| Stats.TitleAndParaHeadings | app/api/generate-article/route.ts:190 | `<h1>t</h1><p>b</p>` with plain `t` and `b` holds exactly one heading |
| Stats.TitleAndParaImages | app/api/generate-article/route.ts:191 | `<h1>t</h1><p>b</p>` with plain `t` and `b` holds no image |
| Images.GenerateImagePrompts | app/api/generate-article/route.ts:149-158 | there are `max(count, 1)` prompts; prompt 0 is the hero prompt about the topic and prompt `i >= 1` is the section prompt numbered `i + 1` |
| Images.HeroPrompt | app/api/generate-article/route.ts:151 | the hero prompt is the fixed lead followed by exactly the topic |
| Images.SectionPrompt | app/api/generate-article/route.ts:154 | a section prompt is the fixed lead, the topic, `, image ` and then digits that read back as the image number |
| Images.PromptsDistinct | app/api/generate-article/route.ts:154 | section prompts with different numbers differ |
| Images.InsertImagesIntoArticle | app/api/generate-article/route.ts:160-184 | the loop computes the fold of one insertion step per URL over the article, with the sections split from the original HTML; with no URL the article comes back unchanged |
| Images.InsertImage | app/api/generate-article/route.ts:164-180 | one turn of the callback is the insertion step: the hero after the first `</p>`; a later image before the second `<h2` when its section piece is non-empty and such an `<h2` exists; otherwise nothing |
| Images.Sections | app/api/generate-article/route.ts:162 | `split(/<h2[^>]*>/i)` gives one section more than the article has `<h2…>` tags |
| Images.InsertStep | app/api/generate-article/route.ts:164-180 | the hero always adds its figure; a later image leaves the article unchanged exactly when its section is missing or empty or there is no second `<h2`; any change adds exactly the figure's length |
| Images.InsertUpTo | app/api/generate-article/route.ts:160-184 | inserting the first `n` images never shortens the article, and from the first image on it is longer by at least the hero figure |
| Images.HeroOffset | app/api/generate-article/route.ts:172-173 | the hero goes right after the first `</p>`; with no `</p>` it goes at offset `min(3, length)` |
| Images.SecondH2 | app/api/generate-article/route.ts:176 | the result is -1 or an index where `<h2` occurs |
| Images.SecondH2Is | app/api/generate-article/route.ts:176 | a non-negative result is an `<h2` with exactly one `<h2` before it; -1 means the text has fewer than two |
| Images.InsertAt | app/api/generate-article/route.ts:173 | a splice keeps the text before and after the cut and holds the block at the cut |
| Images.Figure | app/api/generate-article/route.ts:165-168 | the figure block holds the image URL right after its fixed opening |
| Images.RemoveInserted | app/api/generate-article/route.ts:173 | cutting a spliced block out again gives back the string |
| Images.SecondH2Inserted | app/api/generate-article/route.ts:176-178 | splicing a block without `<h2` where no `<h2` is cut moves the second `<h2` by the block's length, or not at all |
| Images.FigureIsBlock | app/api/generate-article/route.ts:165-168 | a figure for a URL without `<h2` holds no `<h2` and starts and ends with a line break |
| Images.FigureLabel | app/api/generate-article/route.ts:166 | the text right after `alt="Image ` in figure `i` is the decimal rendering of `i + 1` and reads back as `i + 1` |
| Images.FigureCaptionLabel | app/api/generate-article/route.ts:167 | right after `<figcaption>Figure ` comes the same decimal rendering of `i + 1` |
| Images.HeroPlacement | app/api/generate-article/route.ts:170-173 | with a `</p>` in the article, the hero figure sits right after the first one, and the second `<h2` moves only if it lies after that point |
| Images.SectionImagesStack | app/api/generate-article/route.ts:174-179 | every later figure whose section is present goes right before the second `<h2` of the article after the hero image, behind the earlier ones; they stack in index order before that one heading; with no second `<h2` all are dropped |
| Images.FiguresRemoved | app/api/generate-article/route.ts:160-184 | the function only inserts: cutting out the stacked section figures and then the hero figure gives back the original article exactly |
| Route.ActiveAffiliateLinks | app/api/generate-article/route.ts:104-106 | the active links are exactly the entries with a present, non-empty URL, as `{platform, url}`; no more links than entries |
| Route.ActiveAppend | app/api/generate-article/route.ts:104-106 | the filter keeps the entries' order: filtering a concatenation filters each part |
| Route.ActiveAllOrNone | app/api/generate-article/route.ts:105 | all entries survive when all are active; none survives when none is |
| Route.CountZeroIffAbsent | app/api/generate-article/route.ts:134 | a link's count is 0 exactly when its URL occurs nowhere in the article |
| Route.CountZeroIffNotFound | app/api/generate-article/route.ts:134 | a link's count is 0 exactly when `indexOf` of its URL is -1 |
| Route.AffiliateCountHit | app/api/generate-article/route.ts:134 | an occurrence of the URL at the front of the article counts once, and counting goes on after it |
| Route.AffiliateCountSkip | app/api/generate-article/route.ts:134 | a stretch at which no occurrence of the URL starts adds nothing to the count; with `AffiliateCountHit` the count is read off the article occurrence by occurrence |
| Route.AffiliateCount | app/api/generate-article/route.ts:134 | counted occurrences do not overlap: the count times the URL's length is at most the article's length |
| Route.AffiliateReports | app/api/generate-article/route.ts:132-135 | one report per active link, in order, with its platform and its URL's count |
| Route.ReportsFit | app/api/generate-article/route.ts:132-135 | every report's count fits in the article as above |
| Route.CapSpellingErrors | app/api/generate-article/route.ts:131 | `slice(0, 20)` gives the first `min(20, n)` errors in order, and all of them when there are at most 20 |
| Route.BuildResponse | app/api/generate-article/route.ts:119-135 | the response carries the article, its stats (word count at least 1), its Markdown, exactly the capped spelling errors and exactly the report of each active link's count |
| Route.ResponseBounds | app/api/generate-article/route.ts:131-135 | the response reports at most twenty spelling errors, the first ones in order, and one count per active link, in order, each of which fits in the article |

## Left out

- The React components, the page layout and the Next.js configuration are UI and framework glue.
- The language-model call and prompt template (route.ts:10-87) are network I/O and text templating. `max_tokens` depends on JavaScript coercion of a possibly string-typed word count.
- The collaborators `scrapeProduct`, `generateImages`, `injectAffiliateLinks`, `optimizeSEO`, `spellCheck` and `generateDiscoveryMetadata` live in files that are not part of this model. Their results enter as parameters.
- Route.BuildResponse covers only the response fields route.ts computes itself. The SEO data, discovery metadata, product data, the `new Date().toISOString()` timestamp, the JSON encoding and the HTTP 500 path are left out.
- Route.AffiliateCount: route.ts:134 compiles the URL with `new RegExp`, so `.`, `?` and other metacharacters act as operators and a malformed URL throws. The model counts literal, non-overlapping occurrences of the URL only.
- Affiliate entries are a sequence in `Object.entries` order. A URL is "truthy" when it is present and non-empty, so values of other JavaScript types are not modelled.
- Unicode is not modelled. `\s`, `trim` and the `i` flag are restricted to ASCII. The only line terminators are `\n` and `\r`.
- Images.GenerateImagePrompts takes `count` as an integer. A fractional or `NaN` count is not modelled.
- Stats.ReadingMinutes computes `Math.ceil` on integers rather than floating point. The two agree for every word count.
- Images.SectionImagesStack and Images.FiguresRemoved assume that no image URL contains `<h2`. A URL that does can capture later figures, and the lemmas do not cover that case.
- Images.HeroPlacement covers only an article with a `</p>`. Without one the hero goes at offset `min(3, length)` (`Images.HeroOffset`), which can split a `<h2` in two.
- MarkdownExamples.TitleAndBoldParagraph is proved for every plain one-line title, body and bold word rather than for one literal string. A literal instance is the same statement with the words filled in.
- MarkdownExamples.TwoLineParagraph shows only the paragraph pass and the final strip on the two-line paragraph, not the whole chain of passes.
- The hero prompt is not proved to differ from every section prompt. The prompts are only proved distinct among themselves (`Images.PromptsDistinct`).
- TagRewrites.AnchorRewrites leaves out a URL that itself ends in `href=`. The greedy `[^>]*` of route.ts:217 backtracks from the right, so it would take the text after such a URL as the link. The lemma also covers only a plain `<a href="…">` tag with no further attributes.
- TagRewrites.ImageRewrites leaves out a URL ending in `src=` and alt text ending in `src=` or `alt=`, for the same reason at route.ts:220. It covers only a plain `<img src="…" alt="…">` tag.
- Patterns.AnchorAt, Patterns.ImageAt and their backtracking helpers state only that a match lies within the text. What they match is stated by TagRewrites.AnchorRewrites and TagRewrites.ImageRewrites.
