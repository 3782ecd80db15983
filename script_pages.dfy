/**
 * The script-page resolver `parse_script_pages` (blogclip_app.py:87-195):
 * from the raw text a language model returned and the expected page count,
 * it recovers an ordered list of `{title, content}` pages and then repairs
 * that list so that it holds exactly the expected number of pages.
 *
 * Each stage has a specification function (`Titles`, `PageBlocks`,
 * `BlockContent`, `Candidates`, `Repair`) and the imperative code of the
 * source is a method proved against it (`SelectTitles`, `SegmentBlocks`,
 * `ExtractContent`, `ExtractCandidates`, `SplitIntoParts`, `NumberPages`,
 * `ChunkIntoPages`, `PadPages`, `RepairPages`, `ParseScriptPages`).
 */
module ScriptPages {
  import opened Wrappers
  import opened Text
  import opened Matchers

  /** One page of the result: the `{"title": ..., "content": ...}` record. */
  datatype Page = Page(title: string, content: string)

  function Min(a: int, b: int): int { if a <= b then a else b }
  function Max(a: int, b: int): int { if a <= b then b else a }

  // =====================================================================
  // Stage 1: title selection (blogclip_app.py:90-110)

  /** The first non-empty list of `results`, or the empty list: trying an
      ordered list of matchers and keeping only the first success. */
  function FirstNonEmpty(results: seq<seq<string>>): seq<string> {
    if results == [] then []
    else if results[0] != [] then results[0]
    else FirstNonEmpty(results[1..])
  }

  /** The result is empty exactly when every list is. */
  lemma {:induction false} FirstNonEmptyEmpty(results: seq<seq<string>>)
    ensures FirstNonEmpty(results) == [] <==> forall k :: 0 <= k < |results| ==> results[k] == []
  {
    if results != [] {
      FirstNonEmptyEmpty(results[1..]);
      if results[0] == [] && FirstNonEmpty(results) == [] {
        forall k | 0 <= k < |results| ensures results[k] == [] {
          if k > 0 {
            assert results[k] == results[1..][k - 1];
          }
        }
      }
    }
  }

  /** A non-empty result is list `k` of `results`, and every list before
      `k` is empty: later matchers count only when all earlier ones failed. */
  lemma {:induction false} FirstNonEmptyIsFirstSuccess(results: seq<seq<string>>)
    requires FirstNonEmpty(results) != []
    ensures exists k :: 0 <= k < |results| && FirstNonEmpty(results) == results[k]
                        && forall j :: 0 <= j < k ==> results[j] == []
  {
    if results[0] == [] {
      var rest := results[1..];
      FirstNonEmptyIsFirstSuccess(rest);
      var k :| 0 <= k < |rest| && FirstNonEmpty(rest) == rest[k]
               && forall j :: 0 <= j < k ==> rest[j] == [];
      assert FirstNonEmpty(results) == results[k + 1];
      forall j | 0 <= j < k + 1 ensures results[j] == [] {
        if j > 0 {
          assert results[j] == rest[j - 1];
        }
      }
    }
  }

  /** The `re.findall` result of every title pattern, in order. */
  function TitleMatches(script: string): (r: seq<seq<string>>)
    ensures |r| == |TitlePatterns|
    ensures forall k :: 0 <= k < |r| ==> r[k] == FindAll(TitlePatterns[k], script)
  {
    seq(|TitlePatterns|, k requires 0 <= k < |TitlePatterns| => FindAll(TitlePatterns[k], script))
  }

  function Titles(script: string): seq<string> {
    FirstNonEmpty(TitleMatches(script))
  }

  /** Lines 106-110: try the patterns in order and stop at the first one
      whose `re.findall` is non-empty. */
  method SelectTitles(script: string) returns (titles: seq<string>)
    ensures titles == Titles(script)
    ensures titles == [] <==> forall k :: 0 <= k < |TitlePatterns| ==> FindAll(TitlePatterns[k], script) == []
    ensures titles != [] ==>
              exists k :: 0 <= k < |TitlePatterns| && titles == FindAll(TitlePatterns[k], script)
                          && forall j :: 0 <= j < k ==> FindAll(TitlePatterns[j], script) == []
  {
    ghost var results := TitleMatches(script);
    titles := [];
    var k := 0;
    while k < |TitlePatterns|
      invariant 0 <= k <= |TitlePatterns|
      invariant titles == []
      invariant forall j :: 0 <= j < k ==> results[j] == []
      invariant FirstNonEmpty(results[k..]) == Titles(script)
    {
      titles := FindAll(TitlePatterns[k], script);
      if titles != [] {
        break;
      }
      assert results[k..][1..] == results[k + 1..];
      k := k + 1;
    }
  }

  // =====================================================================
  // Stage 2: block segmentation (blogclip_app.py:115-121)

  /** Lines 116-117: a first block that begins with `"# "` or `"#페이지"`
      loses its first line; `find` returning -1 makes the cut at 0, so a
      block without a newline is kept whole. */
  function DropHeadingLine(block: string): (r: string)
    ensures |r| <= |block| && r == block[|block| - |r|..]
    ensures !IsHeadingBlock(block) ==> r == block
    ensures '\n' !in block ==> r == block
    ensures IsHeadingBlock(block) && '\n' in block ==>
              |r| < |block| && block[|block| - |r| - 1] == '\n' && '\n' !in block[..|block| - |r| - 1]
  {
    IndexOfChar(block, '\n');
    if IsHeadingBlock(block) then block[IndexOf(block, "\n") + 1..]
    else block
  }

  /** Line 116: the piece begins with a heading the split did not consume. */
  predicate IsHeadingBlock(block: string) {
    StartsWith(block, "# ") || StartsWith(block, "#페이지")
  }

  /** Line 120: a block that is blank or does not begin with `#` once
      stripped is the text before the first real heading. */
  predicate IsLeadingFragment(block: string) {
    var t := Strip(block);
    t == [] || t[0] != '#'
  }

  /** The blocks the contents are read from: the split pieces, with the
      first one trimmed of its heading line and dropped when it is a
      leading fragment.  Every later piece is kept as it is. */
  function PageBlocks(script: string): (r: seq<string>)
    ensures |SplitPages(script)| - 1 <= |r| <= |SplitPages(script)|
    ensures r[|r| - (|SplitPages(script)| - 1)..] == SplitPages(script)[1..]
    ensures |r| == |SplitPages(script)| <==> !IsLeadingFragment(DropHeadingLine(SplitPages(script)[0]))
    ensures |r| == |SplitPages(script)| ==> r[0] == DropHeadingLine(SplitPages(script)[0])
  {
    var pieces := SplitPages(script);
    var first := DropHeadingLine(pieces[0]);
    if IsLeadingFragment(first) then pieces[1..] else [first] + pieces[1..]
  }

  // =====================================================================
  // Stage 3: per-block content extraction (blogclip_app.py:124-144)

  /** Every block is searched with this line prepended (line 129). */
  const DummyHeading: string := "# Dummy\n"

  /** The stripped content group of the first content pattern that matches. */
  function FirstContent(patterns: seq<ContentPattern>, subject: string): (r: Option<string>)
    ensures r.Some? ==> IsStripped(r.value)
  {
    if patterns == [] then None
    else
      match Search(patterns[0], subject)
      case Some(c) => Some(Strip(c))
      case None => FirstContent(patterns[1..], subject)
  }

  /** No content is found exactly when no pattern matches. */
  lemma {:induction false} FirstContentNone(patterns: seq<ContentPattern>, subject: string)
    ensures FirstContent(patterns, subject).None? <==>
              forall k :: 0 <= k < |patterns| ==> Search(patterns[k], subject).None?
  {
    if patterns != [] {
      FirstContentNone(patterns[1..], subject);
      assert forall k :: 1 <= k < |patterns| ==> patterns[k] == patterns[1..][k - 1];
    }
  }

  /** Lines 139-142: the text after the first `"##"`, or the whole block,
      stripped. */
  function FallbackContent(block: string): string {
    if Contains(block, "##") then Strip(block[IndexOf(block, "##") + 2..]) else Strip(block)
  }

  /** The content of a page read from `block`. */
  function BlockContent(block: string): (r: string)
    ensures IsStripped(r)
    ensures Strip(block) == [] ==> r == []
  {
    var found := match FirstContent(ContentPatterns, DummyHeading + block)
                 case Some(c) => c
                 case None => "";
    if found == [] && Strip(block) != [] then FallbackContent(block)
    else
      assert Strip(block) == [] ==> found == [] by {
        if Strip(block) == [] {
          BlankBlockHasNoSection(block);
        }
      }
      found
  }

  /** `BlockContent` in terms of what the content patterns found. */
  lemma BlockContentFrom(block: string, found: string)
    requires found == match FirstContent(ContentPatterns, DummyHeading + block) case Some(c) => c case None => ""
    ensures found == [] && Strip(block) != [] ==> BlockContent(block) == FallbackContent(block)
    ensures !(found == [] && Strip(block) != []) ==> BlockContent(block) == found
  {
  }

  /** A blank block gives no content-pattern match: all three need a `"##"`,
      and neither the dummy heading nor whitespace holds one. */
  lemma BlankBlockHasNoSection(block: string)
    requires AllSpace(block)
    ensures FirstContent(ContentPatterns, DummyHeading + block) == None
  {
    var t := DummyHeading + block;
    NoSectionInBlankSubject(block);
    forall p: ContentPattern | true ensures Search(p, t).None? {
      assert forall i :: 0 <= i <= |t| ==> ContentAt(p, t, i).None?;
    }
    FirstContentNone(ContentPatterns, t);
  }

  lemma NoSectionInBlankSubject(block: string)
    requires AllSpace(block)
    ensures forall i :: 0 <= i <= |DummyHeading + block| ==> !OccursAt(DummyHeading + block, "##", i)
  {
    var t := DummyHeading + block;
    forall i | 0 <= i <= |t| ensures !OccursAt(t, "##", i) {
      if i < |DummyHeading| {
        NoSectionInDummyHeading(block, i);
      } else if i < |t| {
        assert t[i] == block[i - |DummyHeading|];
        assert i + 2 > |t| || t[i..i + 2][0] != '#';
      }
    }
  }

  /** No `"##"` starts inside the dummy heading, so every content match
      lies in the block itself. */
  lemma NoSectionInDummyHeading(block: string, i: nat)
    requires i < |DummyHeading|
    ensures !OccursAt(DummyHeading + block, "##", i)
  {
    var t := DummyHeading + block;
    if i == 0 {
      assert t[1] == ' ';
      assert i + 2 > |t| || t[i..i + 2][1] != '#';
    } else {
      assert t[i] == DummyHeading[i] != '#';
      assert i + 2 > |t| || t[i..i + 2][0] != '#';
    }
  }

  /** Lines 137-142: when no content pattern matches, a blank block gives
      no content, a block holding `"##"` gives the stripped text after its
      first `"##"`, and any other block gives its whole stripped text. */
  lemma ContentWithoutMatch(block: string)
    requires forall k :: 0 <= k < |ContentPatterns| ==> Search(ContentPatterns[k], DummyHeading + block).None?
    ensures AllSpace(block) ==> BlockContent(block) == ""
    ensures !AllSpace(block) && Contains(block, "##") ==>
              BlockContent(block) == Strip(block[IndexOf(block, "##") + 2..])
    ensures !AllSpace(block) && !Contains(block, "##") ==> BlockContent(block) == Strip(block)
  {
    FirstContentNone(ContentPatterns, DummyHeading + block);
  }

  /** Lines 127-142: the first content pattern that matches supplies the
      content, stripped; later patterns are not consulted.  When stripping
      leaves nothing, the fallback of lines 139-142 gives the content
      instead, again without trying the later patterns. */
  lemma ContentFromFirstMatch(block: string, k: nat, c: string)
    requires k < |ContentPatterns|
    requires forall j :: 0 <= j < k ==> Search(ContentPatterns[j], DummyHeading + block).None?
    requires Search(ContentPatterns[k], DummyHeading + block) == Some(c)
    ensures Strip(c) != [] ==> BlockContent(block) == Strip(c)
    ensures Strip(c) == [] ==> BlockContent(block) == FallbackContent(block)
  {
    assert !AllSpace(block) by {
      if AllSpace(block) {
        BlankBlockHasNoSection(block);
        FirstContentNone(ContentPatterns, DummyHeading + block);
      }
    }
    var t := DummyHeading + block;
    if k == 0 {
    } else if k == 1 {
      assert FirstContent(ContentPatterns, t) == FirstContent(ContentPatterns[1..], t);
    } else {
      assert FirstContent(ContentPatterns, t) == FirstContent(ContentPatterns[1..], t);
      assert FirstContent(ContentPatterns[1..], t) == FirstContent(ContentPatterns[2..], t);
    }
    BlockContentFrom(block, Strip(c));
  }

  /** Lines 127-142: try the content patterns in order against the block
      with the dummy heading prepended, stop at the first match, and fall
      back to the block text when that gives nothing. */
  method ExtractContent(block: string) returns (content: string)
    ensures content == BlockContent(block)
  {
    content := "";
    var subject := DummyHeading + block;
    var k := 0;
    while k < |ContentPatterns|
      invariant 0 <= k <= |ContentPatterns|
      invariant content == []
      invariant FirstContent(ContentPatterns[k..], subject) == FirstContent(ContentPatterns, subject)
    {
      var found := Search(ContentPatterns[k], subject);
      if found.Some? {
        content := Strip(found.value);
        break;
      }
      assert ContentPatterns[k..][1..] == ContentPatterns[k + 1..];
      k := k + 1;
    }
    ghost var found := content;
    assert found == match FirstContent(ContentPatterns, subject) case Some(c) => c case None => "";
    if content == [] && Strip(block) != [] {
      if Contains(block, "##") {
        content := Strip(block[IndexOf(block, "##") + 2..]);
      } else {
        content := Strip(block);
      }
      assert content == FallbackContent(block);
    }
    BlockContentFrom(block, found);
  }

  /** The content of every block, in order. */
  function BlockContents(blocks: seq<string>): (r: seq<string>)
    ensures |r| == |blocks|
  {
    seq(|blocks|, i requires 0 <= i < |blocks| => BlockContent(blocks[i]))
  }

  /** Pages pairing `titles[i]`, stripped, with `contents[i]`, for as long
      as both lists last. */
  function TitledPages(titles: seq<string>, contents: seq<string>): (r: seq<Page>)
    ensures |r| == Min(|titles|, |contents|)
  {
    seq(Min(|titles|, |contents|), i requires 0 <= i < Min(|titles|, |contents|) =>
      Page(Strip(titles[i]), contents[i]))
  }

  /** The candidate pages: block `i` read with title `titles[i]`. */
  function Candidates(titles: seq<string>, blocks: seq<string>): (r: seq<Page>)
    ensures |r| == Min(|titles|, |blocks|)
  {
    TitledPages(titles, BlockContents(blocks))
  }

  /** One more content gives one more page while titles last. */
  lemma TitledPagesExtend(titles: seq<string>, contents: seq<string>, i: nat)
    requires i < |contents|
    ensures i < |titles| ==>
              TitledPages(titles, contents[..i + 1])
              == TitledPages(titles, contents[..i]) + [Page(Strip(titles[i]), contents[i])]
    ensures i >= |titles| ==> TitledPages(titles, contents[..i + 1]) == TitledPages(titles, contents[..i])
  {
  }

  /** Lines 124-144: walk the blocks in order and build a page for each one
      that still has a title. */
  method ExtractCandidates(titles: seq<string>, blocks: seq<string>) returns (pages: seq<Page>)
    ensures pages == Candidates(titles, blocks)
    ensures |pages| <= |titles| && |pages| <= |blocks|
    ensures forall i :: 0 <= i < |pages| ==>
              pages[i].title == Strip(titles[i]) && pages[i].content == BlockContent(blocks[i])
  {
    ghost var contents := BlockContents(blocks);
    pages := [];
    for i := 0 to |blocks|
      invariant pages == TitledPages(titles, contents[..i])
    {
      TitledPagesExtend(titles, contents, i);
      if i < |titles| {
        var content := ExtractContent(blocks[i]);
        pages := pages + [Page(Strip(titles[i]), content)];
      }
    }
    assert contents[..|blocks|] == contents;
  }

  /** All pages found before the repair pass. */
  function CandidatePages(script: string): seq<Page> {
    var titles := Titles(script);
    if titles == [] then [] else Candidates(titles, PageBlocks(script))
  }

  // =====================================================================
  // Stage 4: the repair pass (blogclip_app.py:147-193)

  /** Title prefix of the pages cut from the raw text (line 176). */
  const PageLabel: string := "페이지 "
  /** Title prefix of the filler pages (line 186). */
  const ExtraPageLabel: string := "추가 페이지 "

  /** The fixed content of every filler page (line 187); it names the
      expected page count. */
  function Disclosure(n: nat): string {
    DisclosureHead + NatToString(n) + DisclosureTail
  }

  const DisclosureHead: string := "이 콘텐츠는 "
  const DisclosureTail: string := "개 페이지 요구사항을 충족하기 위해 자동 생성되었습니다."

  /** The filler text names the expected page count: different counts give
      different texts. */
  lemma DisclosureNamesCount(a: nat, b: nat)
    requires Disclosure(a) == Disclosure(b)
    ensures a == b
  {
    var x, y := NatToString(a), NatToString(b);
    assert |x| == |y|;
    assert x == Disclosure(a)[|DisclosureHead|..|DisclosureHead| + |x|];
    assert y == Disclosure(b)[|DisclosureHead|..|DisclosureHead| + |y|];
    NatToStringInjective(a, b);
  }

  /** Line 163: `len(script_lines) // expected_page_count`, counted by
      repeated subtraction so that the solver reasons about it linearly. */
  function ChunkSize(count: nat, n: nat): nat
    requires n > 0
    decreases count
  {
    if count < n then 0 else ChunkSize(count - n, n) + 1
  }

  lemma {:induction false} ChunkSizeIsQuotient(count: nat, n: nat)
    requires n > 0
    ensures ChunkSize(count, n) == count / n
    decreases count
  {
    if count >= n {
      ChunkSizeIsQuotient(count - n, n);
      DivStep(count, n);
    }
  }

  lemma DivStep(count: nat, n: nat)
    requires 0 < n <= count
    ensures count / n == (count - n) / n + 1
  {
    var q, r := (count - n) / n, (count - n) % n;
    assert count == (q + 1) * n + r;
    DivUnique(count, n, q + 1, r);
  }

  /** Euclidean division has one quotient. */
  lemma DivUnique(x: int, n: int, q: int, r: int)
    requires n > 0 && 0 <= r < n && x == q * n + r
    ensures x / n == q
  {
    var q2, r2 := x / n, x % n;
    assert x == q2 * n + r2;
    Distribute(q, q2, n);
    if q > q2 {
      MulAtLeast(q - q2, n);
    } else if q < q2 {
      Distribute(q2, q, n);
      MulAtLeast(q2 - q, n);
    }
  }

  lemma Distribute(a: int, b: int, n: int)
    ensures (a - b) * n == a * n - b * n
  {
  }

  lemma MulAtLeast(a: int, n: int)
    requires a >= 1 && n > 0
    ensures a * n >= n
  {
  }

  /** Line 166: `i * chunk_size`, as repeated addition. */
  function Offset(i: nat, size: nat): nat {
    if i == 0 then 0 else Offset(i - 1, size) + size
  }

  lemma {:induction false} OffsetIsProduct(i: nat, size: nat)
    ensures Offset(i, size) == i * size
  {
    if i > 0 {
      OffsetIsProduct(i - 1, size);
      assert i * size == (i - 1) * size + size;
    }
  }

  lemma {:induction false} OffsetMonotone(i: nat, j: nat, size: nat)
    requires i <= j
    ensures Offset(i, size) <= Offset(j, size)
    decreases j
  {
    if i < j {
      OffsetMonotone(i, j - 1, size);
    }
  }

  /** `n` chunks of `count / n` lines fit in `count` lines. */
  lemma {:induction false} ChunksFit(count: nat, n: nat)
    requires n > 0
    ensures Offset(n, ChunkSize(count, n)) <= count
    decreases count
  {
    if count < n {
      OffsetOfNothing(n);
    } else {
      ChunksFit(count - n, n);
      OffsetShift(n, ChunkSize(count - n, n));
    }
  }

  lemma {:induction false} OffsetOfNothing(i: nat)
    ensures Offset(i, 0) == 0
  {
    if i > 0 {
      OffsetOfNothing(i - 1);
    }
  }

  lemma {:induction false} OffsetShift(i: nat, size: nat)
    ensures Offset(i, size + 1) == Offset(i, size) + i
  {
    if i > 0 {
      OffsetShift(i - 1, size);
    }
  }

  /** Where chunk `i` starts (lines 166-170); the bound past the last chunk
      is the end of the lines, so the last chunk takes the rest. */
  function ChunkBound(count: nat, n: nat, i: nat): nat
    requires 0 < n && i <= n
  {
    if i < n then Offset(i, ChunkSize(count, n)) else count
  }

  /** The bounds never decrease and never pass the end of the lines. */
  lemma ChunkBoundMonotone(count: nat, n: nat, i: nat, j: nat)
    requires 0 < n && i <= j <= n
    ensures ChunkBound(count, n, i) <= ChunkBound(count, n, j) <= count
  {
    var size := ChunkSize(count, n);
    ChunksFit(count, n);
    OffsetMonotone(i, j, size);
    OffsetMonotone(j, n, size);
  }

  /** Lines 166-171: the `i`-th of `n` chunks of `lines`, from bound `i` to
      bound `i + 1`. */
  function Chunk(lines: seq<string>, n: nat, i: nat): seq<string>
    requires i < n
  {
    ChunkBoundMonotone(|lines|, n, i, i + 1);
    lines[ChunkBound(|lines|, n, i)..ChunkBound(|lines|, n, i + 1)]
  }

  /** Lines 159-176: with no candidate at all, the raw text is cut into `n`
      runs of lines and each becomes a page titled `페이지 k`. */
  function ChunkPages(script: string, n: nat): (r: seq<Page>)
    requires n > 0
    ensures |r| == n
  {
    NumberedPages(ChunkTexts(SplitLines(script), n))
  }

  /** Lines 174-176: page `i` is titled `페이지 i+1` and holds text `i`,
      stripped. */
  function NumberedPages(texts: seq<string>): (r: seq<Page>)
    ensures |r| == |texts|
  {
    seq(|texts|, i requires 0 <= i < |texts| => Page(PageLabel + NatToString(i + 1), Strip(texts[i])))
  }

  /** Lines 164-171: the text of each chunk, its lines joined again. */
  function ChunkTexts(lines: seq<string>, n: nat): (r: seq<string>)
    requires n > 0
    ensures |r| == n
  {
    seq(n, i requires 0 <= i < n => JoinLines(Chunk(lines, n, i)))
  }

  /** Lines 182-189: filler pages `추가 페이지 1` .. `추가 페이지 n-m`. */
  function Padding(m: nat, n: nat): (r: seq<Page>)
    requires m <= n
    ensures |r| == n - m
  {
    seq(n - m, i requires 0 <= i < n - m => Page(ExtraPageLabel + NatToString(i + 1), Disclosure(n)))
  }

  /** Python's `s[:n]`, including a negative `n`. */
  function PrefixSlice<T>(s: seq<T>, n: int): (r: seq<T>)
    ensures n >= 0 ==> r == s[..Min(n, |s|)]
    ensures n < 0 ==> r == s[..Max(0, |s| + n)]
  {
    if n >= 0 then s[..Min(n, |s|)] else s[..Max(0, |s| + n)]
  }

  /** Line 147: the repair pass runs (and the warning is shown) when no
      page was found or the count is off. */
  predicate NeedsRepair(pages: seq<Page>, n: int) {
    pages == [] || |pages| != n
  }

  /** Lines 147-193: force the page list to the expected count. */
  function Repair(script: string, pages: seq<Page>, n: int): (r: seq<Page>)
    ensures n >= 0 ==> |r| == n
    ensures |pages| == n ==> r == pages
    ensures 0 <= n < |pages| ==> r == pages[..n]
    ensures n < 0 ==> r == pages[..Max(0, |pages| + n)]
    ensures pages == [] && n > 0 ==> r == ChunkPages(script, n)
    ensures 0 < |pages| < n ==>
              r[..|pages|] == pages
              && forall i :: |pages| <= i < n ==>
                   r[i] == Page(ExtraPageLabel + NatToString(i - |pages| + 1), Disclosure(n))
  {
    if NeedsRepair(pages, n) then
      if |pages| < n then
        if pages == [] then ChunkPages(script, n) else pages + Padding(|pages|, n)
      else if |pages| > n then PrefixSlice(pages, n)
      else pages
    else pages
  }

  // ---------------------------------------------------------------------
  // What the repair pass guarantees

  /** The chunks of `lines`, in order. */
  function Chunks(lines: seq<string>, n: nat): (r: seq<seq<string>>)
    requires n > 0
    ensures |r| == n
  {
    seq(n, i requires 0 <= i < n => Chunk(lines, n, i))
  }

  /** The chunks one after the other. */
  function Concat(chunks: seq<seq<string>>): seq<string> {
    if chunks == [] then [] else Concat(chunks[..|chunks| - 1]) + chunks[|chunks| - 1]
  }

  /** Every chunk but the last holds `|lines| / n` lines; the last holds the
      rest. */
  lemma ChunkSizes(lines: seq<string>, n: nat, i: nat)
    requires i < n
    ensures i < n - 1 ==> |Chunk(lines, n, i)| == |lines| / n
    ensures i == n - 1 ==> |Chunk(lines, n, i)| == |lines| - (n - 1) * (|lines| / n)
  {
    ChunkBoundMonotone(|lines|, n, i, i + 1);
    ChunkSizeIsQuotient(|lines|, n);
    if i == n - 1 {
      OffsetIsProduct(i, ChunkSize(|lines|, n));
    }
  }

  /** Slices of `lines` between consecutive bounds, laid end to end from
      bound 0, give the lines up to the last bound reached. */
  lemma {:induction false} ConcatSlices(lines: seq<string>, chunks: seq<seq<string>>, b: seq<nat>, k: nat)
    requires |b| == |chunks| + 1 && k <= |chunks| && b[0] == 0
    requires forall i, j :: 0 <= i <= j < |b| ==> b[i] <= b[j] <= |lines|
    requires forall i :: 0 <= i < |chunks| ==> chunks[i] == lines[b[i]..b[i + 1]]
    ensures b[k] <= |lines|
    ensures Concat(chunks[..k]) == lines[..b[k]]
  {
    if k > 0 {
      ConcatSlices(lines, chunks, b, k - 1);
      var c := chunks[..k];
      assert c[..k - 1] == chunks[..k - 1];
      assert c[k - 1] == lines[b[k - 1]..b[k]];
      assert lines[..b[k - 1]] + lines[b[k - 1]..b[k]] == lines[..b[k]];
    }
  }

  /** Lines 161-172: the chunks, put back together in order, are exactly the
      lines of the raw text; every line lands in exactly one chunk. */
  lemma ChunksCoverLines(lines: seq<string>, n: nat)
    requires n > 0
    ensures Concat(Chunks(lines, n)) == lines
  {
    var c := Chunks(lines, n);
    var b := seq(n + 1, i requires 0 <= i <= n => ChunkBound(|lines|, n, i));
    forall i, j | 0 <= i <= j < |b|
      ensures b[i] <= b[j] <= |lines|
    {
      ChunkBoundMonotone(|lines|, n, i, j);
    }
    ConcatSlices(lines, c, b, n);
    assert c[..n] == c;
  }

  /** The pages cut from the raw text are `페이지 1` .. `페이지 n`, each
      holding the stripped text of its chunk. */
  lemma ChunkPageAt(script: string, n: nat, i: nat)
    requires i < n
    ensures ChunkPages(script, n)[i].title == PageLabel + NatToString(i + 1)
    ensures ChunkPages(script, n)[i].content == Strip(JoinLines(Chunks(SplitLines(script), n)[i]))
  {
  }

  /** No two filler pages, and no two pages cut from the raw text, share a
      title. */
  lemma GeneratedTitlesDistinct(prefix: string, i: nat, j: nat)
    requires i != j
    ensures prefix + NatToString(i + 1) != prefix + NatToString(j + 1)
  {
    var a, b := NatToString(i + 1), NatToString(j + 1);
    if prefix + a == prefix + b {
      assert a == (prefix + a)[|prefix|..];
      assert b == (prefix + b)[|prefix|..];
      NatToStringInjective(i + 1, j + 1);
    }
  }

  /** An empty raw text with no title gives `n` pages with empty content. */
  lemma EmptyScriptGivesBlankPages(n: nat, i: nat)
    requires i < n
    ensures |Resolve("", n)| == n
    ensures Resolve("", n)[i] == Page(PageLabel + NatToString(i + 1), "")
  {
    var matches := TitleMatches("");
    assert matches[0] == [] && matches[1] == [] && matches[2] == [];
    FirstNonEmptyEmpty(matches);
    assert CandidatePages("") == [];
    assert SplitLines("") == [""];
    ChunkBoundMonotone(1, n, i, i + 1);
    var c := Chunk([""], n, i);
    assert c == [] || c == [""];
    assert JoinLines(c) == "";
  }

  /** Lines 161-176. */
  method ChunkIntoPages(script: string, n: nat) returns (pages: seq<Page>)
    requires n > 0
    ensures pages == ChunkPages(script, n)
  {
    var parts := SplitIntoParts(SplitLines(script), n);
    pages := NumberPages(parts);
  }

  /** Lines 174-176. */
  method NumberPages(parts: seq<string>) returns (pages: seq<Page>)
    ensures pages == NumberedPages(parts)
  {
    pages := [];
    for i := 0 to |parts|
      invariant pages == NumberedPages(parts)[..i]
    {
      pages := pages + [Page(PageLabel + NatToString(i + 1), Strip(parts[i]))];
    }
  }

  /** Lines 161-171: cut the lines into `n` runs and join each run. */
  method SplitIntoParts(lines: seq<string>, n: nat) returns (parts: seq<string>)
    requires n > 0
    ensures parts == ChunkTexts(lines, n)
  {
    parts := [];
    var size := |lines| / n;
    ChunkSizeIsQuotient(|lines|, n);
    ghost var texts := ChunkTexts(lines, n);
    for i := 0 to n
      invariant parts == texts[..i]
    {
      var start := i * size;
      OffsetIsProduct(i, size);
      ChunkBoundMonotone(|lines|, n, i, i + 1);
      var end := if i < n - 1 then start + size else |lines|;
      assert lines[start..end] == Chunk(lines, n, i);
      parts := parts + [JoinLines(lines[start..end])];
    }
  }

  /** Lines 179-189. */
  method PadPages(existing: seq<Page>, n: nat) returns (pages: seq<Page>)
    requires |existing| <= n
    ensures pages == existing + Padding(|existing|, n)
  {
    ghost var padding := Padding(|existing|, n);
    pages := existing;
    var remaining := n - |pages|;
    for i := 0 to remaining
      invariant pages == existing + padding[..i]
    {
      pages := pages + [Page(ExtraPageLabel + NatToString(i + 1), Disclosure(n))];
      assert padding[..i + 1] == padding[..i] + [padding[i]];
    }
  }

  /** Lines 147-193, returning also whether the repair (and its warning,
      line 148) happened. */
  method RepairPages(script: string, found: seq<Page>, n: int) returns (pages: seq<Page>, repaired: bool)
    ensures pages == Repair(script, found, n)
    ensures repaired == NeedsRepair(found, n)
    ensures n >= 0 ==> |pages| == n
  {
    pages := found;
    repaired := pages == [] || |pages| != n;
    if repaired {
      if |pages| < n {
        var existing := pages;
        pages := [];
        if |existing| == 0 {
          pages := ChunkIntoPages(script, n);
        } else {
          pages := PadPages(existing, n);
        }
      } else if |pages| > n {
        pages := PrefixSlice(pages, n);
      }
    }
  }

  // =====================================================================
  // The whole resolver

  /** What `parse_script_pages(script, n)` returns. */
  function Resolve(script: string, n: int): (r: seq<Page>)
    ensures n >= 0 ==> |r| == n
  {
    Repair(script, CandidatePages(script), n)
  }

  /** Lines 115-121: split, cut the heading line off the first block in
      place, and drop that block when it is a leading fragment. */
  method SegmentBlocks(script: string) returns (blocks: seq<string>)
    ensures blocks == PageBlocks(script)
  {
    blocks := SplitPages(script);
    blocks := blocks[0 := DropHeadingLine(blocks[0])];
    if IsLeadingFragment(blocks[0]) {
      blocks := blocks[1..];
    } else {
      assert blocks == [blocks[0]] + blocks[1..];
    }
  }

  /** Lines 87-195. */
  method ParseScriptPages(script: string, n: int) returns (pages: seq<Page>, repaired: bool)
    ensures pages == Resolve(script, n)
    ensures repaired == NeedsRepair(CandidatePages(script), n)
    ensures n >= 0 ==> |pages| == n
  {
    var titles := SelectTitles(script);
    var found: seq<Page> := [];
    if titles != [] {
      var blocks := SegmentBlocks(script);
      found := ExtractCandidates(titles, blocks);
    }
    pages, repaired := RepairPages(script, found, n);
  }
}
