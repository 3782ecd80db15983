# BlogClip script-page resolver, modelled in Dafny

BlogClip turns a PDF into a short video script and one image per page. A
language model writes the script as loosely marked-up text: `#` headings for
page titles and `##` sub-headings for the script of each page. The
resolver `parse_script_pages` (blogclip_app.py:87-195) turns that text and
an expected page count `N` into exactly `N` `{title, content}` pages. It
never fails, whatever the model wrote. It works in four stages:

1. **Title selection.** Three title patterns are tried in order. The first
   one that finds anything supplies every title.
2. **Block segmentation.** The text is split on `"\n# "` and
   `"\n#페이지 <digits>: "` (or `.`). The first block loses its heading
   line. It is then dropped if it is blank or does not start with `#`.
3. **Content extraction.** Each block that still has a title is searched
   by three content patterns, with `"# Dummy\n"` prepended. If none of them
   matches, the content falls back to the text after the first `##`, or to
   the whole block.
4. **Repair pass.** If no page was found, the lines of the text are cut
   into `N` chunks titled `페이지 1` .. `페이지 N`. If too few were found,
   the list is padded with `추가 페이지 k` pages that carry a fixed
   disclosure text naming `N`. If too many were found, the list is cut to
   the first `N`.

The model also covers the pure string logic of `generate_image_for_page`
(blogclip_app.py:246-296): the style suffix, the full prompt, the
500-character retry prompt, and the value returned for each reply of the
image service.

Modules:

- `Wrappers`: the `Option` type.
- `Text`: the Python string built-ins the resolver uses.
- `Matchers`: each regular expression written as a scanner with Python's
  backtracking worked out, plus `findall`, `search` and `split` on top.
- `ScriptPages`: the four stages. Each stage is a specification function
  with a method that mirrors the source's loops and is proved equal to it.
- `ImagePrompt`: the image-prompt logic.
- `ScriptLayout`: the page layout the script prompt asks the language
  model for (blogclip_app.py:54-57), and the proof that a script written
  in that layout resolves to exactly its own pages. The layout is taken
  as the model is asked to write it, without the indentation the prompt
  text carries in the source file.

The model follows the code, including behaviour that looks accidental:

- The generic title pattern `# (.+)` has no line anchor, so it also
  matches inside `## ` sub-headings. For a script laid out as
  `# Title A / ## 페이지 스크립트: / Body A / # Title B / ## 페이지 스크립트: / Body B`,
  every `## 페이지 스크립트:` line that starts a line puts
  `페이지 스크립트:` among the titles (`Matchers.SubheadingTitleIsFound`).
  Read left to right, the titles are `Title A`, `페이지 스크립트:`,
  `Title B`, … so the second page is titled `페이지 스크립트:`. One might
  expect `Title B`; the model keeps the code's result. The lemma proves
  that the sub-heading text is found, not the order of the whole list.
- The `\s*` in `# 페이지 제목:\s*(.+)` also consumes a newline, so a label
  with nothing after it on its line, whose next line starts with a
  non-whitespace character, takes that whole next line as its title
  (`Matchers.LabelTitleMayStartOnNextLine`).
- When the first block has no newline, `find("\n")` returns -1 and the cut
  is at 0, so the block is kept whole (`ScriptPages.DropHeadingLine`).
- The expected page count is an unbounded integer. A negative count slices
  from the end, as Python's `pages[:n]` does.

## Model

| member | source | states |
|---|---|---|
| Matchers.FindAllFrom | blogclip_app.py:90-94 | `re.findall` of a title pattern: every title found is non-empty and lies on one line; the result is empty exactly when the pattern matches nowhere; otherwise its first title is the group of the leftmost match |
| Matchers.FindAllFromNext | blogclip_app.py:107-108 | after the leftmost match, `re.findall` goes on from where that match ends: the titles are that match's group followed by the titles found from its end |
| Matchers.LeftmostTitle | blogclip_app.py:107-108 | the position of the leftmost match of a title pattern: the pattern matches there and at no earlier position, and there is none exactly when it matches nowhere |
| Matchers.FindAllFromReaches | blogclip_app.py:107-108 | `re.findall` reaches every match that no earlier match overlaps: its group is among the titles found |
| Matchers.SubheadingTitleIsFound | blogclip_app.py:93 | a `## X` sub-heading at the start of a line puts `X` among the titles `# (.+)` finds |
| Matchers.SubheadingIsAlsoAHeading | blogclip_app.py:93 | `# (.+)` matches one character into any `## ` sub-heading with text after it, so the generic pattern finds titles in sub-headings too |
| Matchers.LabelTitleMayStartOnNextLine | blogclip_app.py:91 | after `# 페이지 제목:` at the end of a line, when the next line starts with a non-whitespace character, the title captured is that whole next line |
| Matchers.TitleAt | blogclip_app.py:90-94 | a title pattern's group starts after the position where the match starts, is non-empty and lies on one line |
| Matchers.ContentAt | blogclip_app.py:97-101 | a content pattern matches only at a `##`, and its content group lies strictly after the `##` |
| Matchers.SearchFrom | blogclip_app.py:128-129 | `re.search` of a content pattern: there is no result exactly when the pattern matches at no position; otherwise the result is the non-empty content group of the leftmost match |
| Matchers.SplitPagesRejoins | blogclip_app.py:115 | `re.split` on the page delimiters loses nothing: the pieces, with the cut-out delimiters put back between them, give the text back, and there is one more piece than delimiters |
| Matchers.SplitPagesNoDelimiter | blogclip_app.py:115 | the split cuts at every page delimiter: no block holds `"\n# "` or any other delimiter match (`"\n#페이지 <digits>: "` included), and every piece cut out between blocks is a match of the delimiter pattern |
| Matchers.SplitFromNoDelimiter | blogclip_app.py:115 | the same, by induction over the scan: with no delimiter match before the scan position, no piece holds one |
| Matchers.NumberedDelimiterIsCut | blogclip_app.py:115 | `"\n#페이지 "`, one or more digits, `:` or `.` and a space is a delimiter match that ends after the space |
| Matchers.DelimiterInSlice | blogclip_app.py:115 | a delimiter match inside a slice of the text is a delimiter match of the whole text at the matching position, with the matching end |
| Matchers.DelimitersAreMatches | blogclip_app.py:115 | each delimiter the split cuts out is the text of a delimiter match at or after the scan position |
| Matchers.DelimiterAt | blogclip_app.py:115 | `"\n# "` is always a delimiter of three characters; any other delimiter is `"\n#페이지 "`, then digits, then `:` or `.`, then a space |
| Matchers.SplitFromRejoins | blogclip_app.py:115 | the same for a split started mid-text, by induction over the scan |
| ScriptPages.FirstNonEmptyEmpty | blogclip_app.py:107-110 | first-success selection gives nothing exactly when every matcher found nothing |
| ScriptPages.FirstNonEmptyIsFirstSuccess | blogclip_app.py:107-110 | a non-empty selection is the whole result of one matcher, and every earlier matcher found nothing |
| ScriptPages.SelectTitles | blogclip_app.py:106-110 | the loop yields the titles of the first title pattern that finds any; it yields none exactly when no pattern finds one; later patterns count only when all earlier ones failed |
| ScriptPages.DropHeadingLine | blogclip_app.py:116-117 | a block that does not begin with `# ` or `#페이지`, or holds no newline, is kept whole; otherwise exactly its first line and that line's newline are cut off |
| ScriptPages.PageBlocks | blogclip_app.py:115-121 | every split piece after the first is kept unchanged and in order; the first piece, with its heading line cut, is kept (as the first block) exactly when it is not blank and starts with `#`, and dropped otherwise |
| ScriptPages.SegmentBlocks | blogclip_app.py:115-121 | the in-place cut and re-slice give `PageBlocks` |
| ScriptPages.FirstContentNone | blogclip_app.py:128-135 | no content is found exactly when no content pattern matches |
| ScriptPages.BlockContent | blogclip_app.py:127-142 | the content of a block is always stripped, and a blank block gives empty content |
| ScriptPages.BlankBlockHasNoSection | blogclip_app.py:129 | a blank block gives no content-pattern match, because neither the dummy heading nor whitespace holds a `##` |
| ScriptPages.NoSectionInDummyHeading | blogclip_app.py:129 | no `##` starts inside the prepended `# Dummy\n` |
| ScriptPages.ContentWithoutMatch | blogclip_app.py:137-142 | with no content match: a blank block gives `""`, a block holding `##` gives the stripped text after its first `##`, any other block gives the whole stripped block |
| ScriptPages.ContentFromFirstMatch | blogclip_app.py:127-142 | the first content pattern that matches supplies the stripped content; when stripping leaves nothing, the content is the fallback (the stripped text after the first `##`, or the whole stripped block); later patterns are never consulted |
| ScriptPages.ExtractContent | blogclip_app.py:127-142 | the pattern loop with `break` and the fallback compute `BlockContent` |
| ScriptPages.ExtractCandidates | blogclip_app.py:124-144 | the block loop gives `Candidates`: at most one page per title and per block, and page `i` is `titles[i]` stripped with the content of block `i` |
| ScriptPages.TitledPagesExtend | blogclip_app.py:124-144 | one more block adds one page at the end while titles last, and nothing after |
| ScriptPages.Repair | blogclip_app.py:147-193 | for `N >= 0` the result has exactly `N` pages. A list of `N` pages comes back unchanged. A longer one is cut to its first `N`, in order, and a negative `N` slices from the end. No pages gives the line chunks. Fewer pages are kept at the front, followed by `추가 페이지 1..N-M`, each with the disclosure text |
| ScriptPages.DisclosureNamesCount | blogclip_app.py:187 | the filler text names the expected count: different counts give different texts |
| ScriptPages.ChunkSizeIsQuotient | blogclip_app.py:163 | the chunk size counted by subtraction is `len(script_lines) // N` |
| ScriptPages.ChunksFit | blogclip_app.py:163-171 | `N` chunks of `len // N` lines fit in the lines, so every slice bound is in range |
| ScriptPages.ChunkBoundMonotone | blogclip_app.py:165-171 | the chunk bounds never decrease and never pass the end of the lines |
| ScriptPages.ChunkSizes | blogclip_app.py:163-171 | every chunk but the last holds `len // N` lines; the last holds the remaining `len - (N-1) * (len // N)` |
| ScriptPages.ChunksCoverLines | blogclip_app.py:161-172 | the chunks put back together in order are exactly the lines, so each line lands in exactly one chunk |
| ScriptPages.ConcatSlices | blogclip_app.py:165-172 | consecutive slices from bound 0 laid end to end are the prefix up to the last bound |
| ScriptPages.ChunkPageAt | blogclip_app.py:174-176 | chunk page `i` is titled `페이지 i+1` and holds its chunk's joined text, stripped |
| ScriptPages.GeneratedTitlesDistinct | blogclip_app.py:176 | no two chunk pages, and no two filler pages, share a title |
| ScriptPages.EmptyScriptGivesBlankPages | blogclip_app.py:159-176 | an empty text gives `N` pages titled `페이지 1..N`, each with empty content |
| ScriptPages.SplitIntoParts | blogclip_app.py:161-172 | the chunking loop computes `ChunkTexts` |
| ScriptPages.NumberPages | blogclip_app.py:174-176 | the numbering loop computes `NumberedPages` |
| ScriptPages.ChunkIntoPages | blogclip_app.py:159-176 | the two loops compute `ChunkPages` |
| ScriptPages.PadPages | blogclip_app.py:179-189 | the padding loop keeps the pages found and appends the filler pages |
| ScriptPages.RepairPages | blogclip_app.py:147-193 | the repair pass computes `Repair` and reports whether it ran (the warning) exactly when the list was empty or of the wrong length |
| ScriptPages.Resolve | blogclip_app.py:87-195 | the resolver returns exactly `N` pages for every `N >= 0` |
| ScriptPages.ParseScriptPages | blogclip_app.py:87-195 | the whole procedure computes `Resolve`, returns `N` pages, and reports a repair exactly when the candidate list needed one |
| Text.Strip | blogclip_app.py:120 | `str.strip()`: the result has no whitespace at either end; it is empty exactly when the text is all whitespace; it is the text itself when that is already stripped; it is the slice between the leading and the trailing whitespace, with only whitespace after it |
| Text.IndexOfChar | blogclip_app.py:117 | `find` of one character gives the position of its first occurrence, and -1 exactly when it does not occur |
| Text.IndexOf | blogclip_app.py:117 | `str.find`: the first occurrence, or -1 when there is none |
| Text.SplitLines | blogclip_app.py:162 | `str.split("\n")`: at least one piece, no piece holds a newline, and joining with newlines gives the text back |
| Text.ParseNatToString | blogclip_app.py:176 | reading back the decimal rendering of a count gives the count |
| Text.NatToStringInjective | blogclip_app.py:186 | different numbers are rendered differently |
| ImagePrompt.StyleSuffix | blogclip_app.py:252-261 | a known style gets its own suffix from the table; any other style gets the `실사 스타일` suffix |
| ImagePrompt.FullPrompt | blogclip_app.py:269 | the request is the prompt followed by the style suffix |
| ImagePrompt.FullPromptInjective | blogclip_app.py:269 | for a fixed style, the page's prompt can be read back from the request |
| ImagePrompt.RetryPrompt | blogclip_app.py:285 | the retry prompt is a prefix of the prompt, at most 500 characters long, exactly 500 when the prompt is that long, and the whole prompt exactly when it fits |
| ImagePrompt.GenerateImage | blogclip_app.py:246-296 | a missing or empty prompt gives `{prompt: "프롬프트 생성 실패", url: None}`; a first success returns the prompt and its URL; a length error followed by a successful retry returns the cut prompt and its URL; any other failure returns the prompt without a URL |
| ImagePrompt.RequestsSent | blogclip_app.py:269-290 | one request with the full prompt, and a second with the cut prompt exactly when the first failed with a length error |
| ImagePrompt.ReportedPromptIsPrefix | blogclip_app.py:266-296 | the reported prompt is always a prefix of the page's prompt; a URL is reported only for the last request sent; a changed prompt is exactly 500 characters long and came with a URL |
| ScriptLayout.LayoutResolves | blogclip_app.py:87-195 | a script of `N >= 1` pages in the requested layout, each title on one line and no title or script blank or holding a `#`, resolves with expected count `N` to exactly those pages, in order: page `k` has the stripped title `k` and the stripped script `k` |
| ScriptLayout.MatchedPagesResolve | blogclip_app.py:124-193 | when the label pattern finds one title per page and the blocks' contents are the stripped scripts, the resolver returns the pages built from them, with no repair |
| ScriptLayout.LabelPagesResolve | blogclip_app.py:106-193 | when the label pattern finds titles and there are as many block contents as titles, the result pairs each title with the content of its block, in order |
| ScriptLayout.ExactCountResolves | blogclip_app.py:147-193 | a candidate list of exactly the expected length comes back unchanged |
| ScriptLayout.LabelTitlesChosen | blogclip_app.py:106-110 | when the `# 페이지 제목:` pattern finds anything, its titles are the titles; the later patterns are not consulted |
| ScriptLayout.LabelCandidates | blogclip_app.py:113-144 | with label titles found, the candidate pages pair those titles, stripped, with the block contents, in order |
| ScriptLayout.LayoutTitles | blogclip_app.py:90-108 | in a script in the requested layout, `re.findall` of the label pattern finds each page's title line, one per page, in page order |
| ScriptLayout.FindAllShift | blogclip_app.py:108 | text put before the scan position does not change what `re.findall` of the label pattern finds after it |
| ScriptLayout.LayoutSplit | blogclip_app.py:115 | the split cuts a script in the requested layout into one piece per page, exactly at the `"\n# "` that opens each next page |
| ScriptLayout.SplitShift | blogclip_app.py:115 | text put before the scan position does not change how `re.split` cuts the text after it |
| ScriptLayout.LayoutBlocksKept | blogclip_app.py:115-121 | there is one block per page: the first page's block has the page's stripped script as its content, and every later block is its split piece unchanged |
| ScriptLayout.PieceBlockContents | blogclip_app.py:115-144 | there is one block content per page, and page `k`'s block has page `k`'s stripped script as its content |
| ScriptLayout.FirstPageBlock | blogclip_app.py:116-142 | the first page's piece is kept after its title line is cut, and its content is the page's stripped script |
| ScriptLayout.LaterPageBlock | blogclip_app.py:127-142 | a later page's piece, without the `"# "` the delimiter took, has the page's stripped script as its content |
| ScriptLayout.SectionContent | blogclip_app.py:127-142 | a block holding `## 페이지 스크립트:` on a line of its own, with no `#` before or after it and a non-blank text after it, has that text, stripped, as its content |
| ScriptLayout.BodyToEnd | blogclip_app.py:98 | after the label line, the lazy group of the first content pattern runs to the end of the text when no `#` follows the line break, so its stripped text is the stripped rest of the text |
| ScriptLayout.StripTitleGroups | blogclip_app.py:144 | stripping a title the label pattern captured gives the page's stripped title |
| ScriptLayout.StripPadded | blogclip_app.py:132 | whitespace added at either end does not change `str.strip()` |
| ScriptLayout.StripUnique | blogclip_app.py:132 | a stripped non-empty text with whitespace added at either end strips back to itself |

`ImagePrompt.IsLengthError` (blogclip_app.py:281-284) has no row of its
own: it is covered by the `GenerateImage` and `RequestsSent` rows, which
state what happens when it holds.

## Left out

- The Streamlit interface: `main()`, session state, tabs, download buttons
  and `download_file` (blogclip_app.py:299-615). This is presentation.
- The OpenAI calls in `generate_video_script`,
  `generate_image_prompt_for_page` and `generate_image_for_page`. Their
  replies are parameters of `ImagePrompt.GenerateImage`. The API key
  lookup and the spinner are not modelled.
- PDF text extraction through a temporary file and `PyPDFLoader`
  (blogclip_app.py:15-32): file I/O and an outside library.
- The progress bars, `time.sleep` pacing and the `json.dumps` export.
- The default arguments `expected_page_count=3` (blogclip_app.py:87) and
  `image_style="실사 스타일"` (blogclip_app.py:246). The model's operations
  take both explicitly; `ImagePrompt.DefaultStyle` names the same style,
  used as the fallback for unknown styles.
- The text of `st.warning` (blogclip_app.py:148-150). Only whether it is
  shown is modelled, as the `repaired` result of `RepairPages`.
- The `st.error` messages of `generate_image_for_page` (blogclip_app.py:278,
  294). They only report a failed request; the value returned after them
  is modelled by `ImagePrompt.GenerateImage`.
- `\d` is modelled as the ASCII digits. Python also accepts other Unicode
  decimal digits there.
- `str.lower()` in the length-error test is modelled as ASCII lower-casing.
  The two phrases it looks for are ASCII.
- The `len(match.groups())` dispatch (blogclip_app.py:131-134) is resolved
  per pattern. Patterns 1 and 2 return their only group, and pattern 3
  returns its second group.
- Python's regular-expression engine in general: only the seven patterns
  the resolver uses (the split pattern has two alternatives) are
  modelled, each as a scanner.
- file_download_test.py and file_download_request.py are not part of this
  model. They only stream HTTP downloads to temporary files.
