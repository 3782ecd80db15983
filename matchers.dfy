/**
 * The resolver's regular expressions, each written out as a scanner that
 * behaves as Python's `re` engine does on that one pattern: greedy `\s*`,
 * `\s+`, `\d+` and `.+`, the lazy `[\s\S]+?` with its `(?=\n# |$)`
 * look-ahead, and the backtracking that happens between them.  On top of the
 * scanners sit `re.findall` (title patterns), `re.search` (content patterns)
 * and `re.split` (the page delimiter).
 */
module Matchers {
  import opened Wrappers
  import opened Text

  /** A captured group: the half-open range `[start, end)` of the subject. */
  datatype Span = Span(start: nat, end: nat)

  predicate NoNewlineIn(s: string, start: nat, end: nat)
    requires start <= end <= |s|
  {
    forall k :: start <= k < end ==> s[k] != '\n'
  }

  lemma NoNewlineInSlice(s: string, start: nat, end: nat)
    requires start <= end <= |s| && NoNewlineIn(s, start, end)
    ensures '\n' !in s[start..end]
  {
  }

  /** The first newline at or after `j`, or the end: where a greedy `.+` or
      `.*` that starts at `j` stops. */
  function LineEnd(s: string, j: nat): (e: nat)
    requires j <= |s|
    ensures j <= e <= |s|
    ensures NoNewlineIn(s, j, e)
    ensures e == |s| || s[e] == '\n'
    decreases |s| - j
  {
    if j < |s| && s[j] != '\n' then LineEnd(s, j + 1) else j
  }

  /** The end of the run of ASCII digits that starts at `i` (a greedy `\d+`). */
  function SkipDigits(s: string, i: nat): (e: nat)
    requires i <= |s|
    ensures i <= e <= |s|
    ensures forall k :: i <= k < e ==> IsDigit(s[k])
    ensures e == |s| || !IsDigit(s[e])
    decreases |s| - i
  {
    if i < |s| && IsDigit(s[i]) then SkipDigits(s, i + 1) else i
  }

  // ---------------------------------------------------------------------
  // `\s*(.+)`: the tail shared by title patterns 1 and 2

  /** Backtracking of `\s*(.+)`: `\s*` gives characters back one at a time,
      from `j` down to `k`, until `.+` can match; the result is the first
      (largest) position where a non-newline character can start the group. */
  function LineStartAtOrBefore(s: string, k: nat, j: nat): (r: Option<nat>)
    requires k <= j <= |s|
    ensures r.Some? ==> k <= r.value <= j && r.value < |s| && s[r.value] != '\n'
    ensures r.Some? ==> forall m :: r.value < m <= j ==> m == |s| || s[m] == '\n'
    ensures r.None? <==> forall m :: k <= m <= j ==> m == |s| || s[m] == '\n'
    decreases j
  {
    if j < |s| && s[j] != '\n' then Some(j)
    else if j == k then None
    else LineStartAtOrBefore(s, k, j - 1)
  }

  /** `\s*(.+)` matched at `k`: the span of the group.  Because `\s` also
      matches a newline, the group may lie on a later line than `k`. */
  function SpacedRestOfLine(s: string, k: nat): (r: Option<Span>)
    requires k <= |s|
    ensures r.Some? ==> k <= r.value.start < r.value.end <= |s|
    ensures r.Some? ==> NoNewlineIn(s, r.value.start, r.value.end)
    ensures r.Some? ==> r.value.end == |s| || s[r.value.end] == '\n'
  {
    match LineStartAtOrBefore(s, k, SkipSpaces(s, k))
    case None => None
    case Some(j) => Some(Span(j, LineEnd(s, j)))
  }

  /** `\s+페이지\s+\d+[:.]` matched at `k`: the position just after the `:` or
      `.`.  Every quantifier here is followed by a character it cannot
      consume, so none of them backtracks. */
  function NumberedLabelEnd(s: string, k: nat): (r: Option<nat>)
    requires k <= |s|
    ensures r.Some? ==> k < r.value <= |s|
  {
    var e1 := SkipSpaces(s, k);
    if e1 == k || !OccursAt(s, PageWord, e1) then None
    else
      var e2 := SkipSpaces(s, e1 + |PageWord|);
      if e2 == e1 + |PageWord| then None
      else
        var e3 := SkipDigits(s, e2);
        if e3 == e2 || e3 == |s| || (s[e3] != ':' && s[e3] != '.') then None
        else Some(e3 + 1)
  }

  const PageWord: string := "페이지"

  // ---------------------------------------------------------------------
  // Title patterns (blogclip_app.py:90-94)

  /** The three title patterns, most specific first:
      `# 페이지 제목:\s*(.+)`, `#\s+페이지\s+\d+[:.]\s*(.+)` and `# (.+)`. */
  datatype TitlePattern = PageTitleLabel | NumberedHeading | AnyHeading

  const TitlePatterns: seq<TitlePattern> := [PageTitleLabel, NumberedHeading, AnyHeading]

  const PageTitleLabelText: string := "# 페이지 제목:"

  /** The group of `p` when the pattern matches at position `i`.  The match
      always ends where the group ends. */
  function TitleAt(p: TitlePattern, s: string, i: nat): (r: Option<Span>)
    requires i <= |s|
    ensures r.Some? ==> i < r.value.start < r.value.end <= |s|
    ensures r.Some? ==> NoNewlineIn(s, r.value.start, r.value.end)
  {
    match p
    case PageTitleLabel =>
      if OccursAt(s, PageTitleLabelText, i) then SpacedRestOfLine(s, i + |PageTitleLabelText|) else None
    case NumberedHeading =>
      if i < |s| && s[i] == '#' then
        match NumberedLabelEnd(s, i + 1)
        case None => None
        case Some(k) => SpacedRestOfLine(s, k)
      else None
    case AnyHeading =>
      if OccursAt(s, "# ", i) && i + 2 < |s| && s[i + 2] != '\n' then Some(Span(i + 2, LineEnd(s, i + 2)))
      else None
  }

  // ---------------------------------------------------------------------
  // A table of matches, and the scans `re.findall` and `re.search` make

  /** Entry `j` of a match table is the group of the match that starts at
      `j`, if the pattern matches there; a group always lies after `j`. */
  predicate IsMatchTable(s: string, table: seq<Option<Span>>) {
    |table| == |s| + 1
    && forall j :: 0 <= j < |table| && table[j].Some? ==>
         j < table[j].value.start < table[j].value.end <= |s|
  }

  /** Every group of the table lies on one line. */
  predicate GroupsOnOneLine(s: string, table: seq<Option<Span>>)
    requires IsMatchTable(s, table)
  {
    forall j :: 0 <= j < |table| && table[j].Some? ==>
      NoNewlineIn(s, table[j].value.start, table[j].value.end)
  }

  /** The text of the group of the match at `j`. */
  function GroupText(s: string, table: seq<Option<Span>>, j: nat): (r: string)
    requires IsMatchTable(s, table) && j < |table| && table[j].Some?
    ensures r != []
  {
    s[table[j].value.start..table[j].value.end]
  }

  /** The leftmost position from `i` on where the pattern matches. */
  function Leftmost(table: seq<Option<Span>>, i: nat): (r: Option<nat>)
    requires i <= |table|
    ensures r.Some? ==> i <= r.value < |table| && table[r.value].Some?
    ensures r.Some? ==> forall j :: i <= j < r.value ==> table[j].None?
    ensures r.None? ==> forall j :: i <= j < |table| ==> table[j].None?
    decreases |table| - i
  {
    if i == |table| then None
    else if table[i].Some? then Some(i)
    else Leftmost(table, i + 1)
  }

  /** The scan of `re.findall` from `i`: at each match take its group and
      go on where the match ends, otherwise move one position on. */
  function ScanAll(s: string, table: seq<Option<Span>>, i: nat): (r: seq<string>)
    requires IsMatchTable(s, table) && i <= |s|
    ensures forall k :: 0 <= k < |r| ==> r[k] != []
    ensures GroupsOnOneLine(s, table) ==> forall k :: 0 <= k < |r| ==> '\n' !in r[k]
    ensures r == [] <==> Leftmost(table, i).None?
    ensures r != [] ==> r[0] == GroupText(s, table, Leftmost(table, i).value)
    decreases |s| - i
  {
    if i == |s| then []
    else
      match table[i]
      case Some(g) =>
        assert GroupsOnOneLine(s, table) ==> '\n' !in s[g.start..g.end] by {
          if GroupsOnOneLine(s, table) {
            NoNewlineInSlice(s, g.start, g.end);
          }
        }
        [s[g.start..g.end]] + ScanAll(s, table, g.end)
      case None => ScanAll(s, table, i + 1)
  }

  /** After the leftmost match the scan goes on from where that match
      ends: the result is the groups of the successive non-overlapping
      matches, left to right. */
  lemma {:induction false} ScanAllNext(s: string, table: seq<Option<Span>>, i: nat)
    requires IsMatchTable(s, table) && i <= |s| && Leftmost(table, i).Some?
    ensures var j := Leftmost(table, i).value;
            ScanAll(s, table, i) == [GroupText(s, table, j)] + ScanAll(s, table, table[j].value.end)
    decreases |s| - i
  {
    if table[i].None? {
      ScanAllNext(s, table, i + 1);
    }
  }

  /** The scan reaches every match that no earlier match overlaps: if each
      match between `m` and `q` ends by `q`, the group of the match at `q`
      is among the groups found from `m`. */
  lemma {:induction false} ScanAllReaches(s: string, table: seq<Option<Span>>, m: nat, q: nat)
    requires IsMatchTable(s, table) && m <= q < |table| && table[q].Some?
    requires forall j :: m <= j < q && table[j].Some? ==> table[j].value.end <= q
    ensures GroupText(s, table, q) in ScanAll(s, table, m)
    decreases q - m, 1
  {
    if m < q {
      if table[m].Some? {
        ScanAllReachesPast(s, table, m, q);
      } else {
        ScanAllReachesNext(s, table, m, q);
      }
    }
  }

  /** A match at `m` before `q`: the scan goes on from its end. */
  lemma {:induction false} ScanAllReachesPast(s: string, table: seq<Option<Span>>, m: nat, q: nat)
    requires IsMatchTable(s, table) && m < q < |table| && table[q].Some? && table[m].Some?
    requires forall j :: m <= j < q && table[j].Some? ==> table[j].value.end <= q
    ensures GroupText(s, table, q) in ScanAll(s, table, m)
    decreases q - m, 0
  {
    var e := table[m].value.end;
    ScanAllReaches(s, table, e, q);
    ScanAllNext(s, table, m);
  }

  /** No match at `m`: the scan moves one position on. */
  lemma {:induction false} ScanAllReachesNext(s: string, table: seq<Option<Span>>, m: nat, q: nat)
    requires IsMatchTable(s, table) && m < q < |table| && table[q].Some? && table[m].None?
    requires forall j :: m <= j < q && table[j].Some? ==> table[j].value.end <= q
    ensures GroupText(s, table, q) in ScanAll(s, table, m)
    decreases q - m, 0
  {
    ScanAllReaches(s, table, m + 1, q);
    ScanAllNext(s, table, m);
  }

  // ---------------------------------------------------------------------
  // `re.findall` of a title pattern

  /** The matches of title pattern `p`, position by position. */
  function TitleTable(p: TitlePattern, s: string): (r: seq<Option<Span>>)
    ensures IsMatchTable(s, r) && GroupsOnOneLine(s, r)
    ensures forall j :: 0 <= j <= |s| ==> r[j] == TitleAt(p, s, j)
  {
    seq(|s| + 1, j requires 0 <= j <= |s| => TitleAt(p, s, j))
  }

  /** `re.findall(p, s[i:])` for a one-group pattern: the groups of the
      successive non-overlapping matches (`ScanAllNext`), left to right;
      the first is the group of the leftmost match. */
  function FindAllFrom(p: TitlePattern, s: string, i: nat): (r: seq<string>)
    requires i <= |s|
    ensures forall k :: 0 <= k < |r| ==> r[k] != [] && '\n' !in r[k]
    ensures r == [] <==> forall j :: i <= j <= |s| ==> TitleAt(p, s, j).None?
    ensures r != [] ==>
              exists j :: i <= j <= |s| && TitleAt(p, s, j).Some?
                          && (forall j' :: i <= j' < j ==> TitleAt(p, s, j').None?)
                          && r[0] == s[TitleAt(p, s, j).value.start..TitleAt(p, s, j).value.end]
  {
    var table := TitleTable(p, s);
    var r := ScanAll(s, table, i);
    assert r != [] ==> var j := Leftmost(table, i).value; table[j] == TitleAt(p, s, j);
    r
  }

  /** The position of the leftmost match of title pattern `p` from `i` on. */
  function LeftmostTitle(p: TitlePattern, s: string, i: nat): (r: Option<nat>)
    requires i <= |s|
    ensures r.Some? ==> i <= r.value <= |s| && TitleAt(p, s, r.value).Some?
    ensures r.Some? ==> forall j :: i <= j < r.value ==> TitleAt(p, s, j).None?
    ensures r.None? <==> forall j :: i <= j <= |s| ==> TitleAt(p, s, j).None?
  {
    var table := TitleTable(p, s);
    Leftmost(table, i)
  }

  /** `re.findall` takes the group of the leftmost match and then goes on
      from where that match ends. */
  lemma FindAllFromNext(p: TitlePattern, s: string, i: nat)
    requires i <= |s| && LeftmostTitle(p, s, i).Some?
    ensures var j := LeftmostTitle(p, s, i).value;
            var g := TitleAt(p, s, j).value;
            FindAllFrom(p, s, i) == [s[g.start..g.end]] + FindAllFrom(p, s, g.end)
  {
    ScanAllNext(s, TitleTable(p, s), i);
  }

  /** `re.findall` reaches every match that no earlier match overlaps: if
      each match from `i` up to `q` ends by `q`, the group of the match at
      `q` is among the titles found from `i`. */
  lemma FindAllFromReaches(p: TitlePattern, s: string, i: nat, q: nat)
    requires i <= q <= |s| && TitleAt(p, s, q).Some?
    requires forall j :: i <= j < q && TitleAt(p, s, j).Some? ==> TitleAt(p, s, j).value.end <= q
    ensures s[TitleAt(p, s, q).value.start..TitleAt(p, s, q).value.end] in FindAllFrom(p, s, i)
  {
    var table := TitleTable(p, s);
    ScanAllReaches(s, table, i, q);
  }

  /** `re.findall(p, s)`. */
  function FindAll(p: TitlePattern, s: string): seq<string> {
    FindAllFrom(p, s, 0)
  }

  /** `# (.+)` has no line anchor: a `"## "` sub-heading with text after it
      is also a match, one character in, so the generic title pattern finds
      titles in sub-headings too. */
  lemma SubheadingIsAlsoAHeading(s: string, i: nat)
    requires OccursAt(s, "## ", i) && i + 3 < |s| && s[i + 3] != '\n'
    ensures TitleAt(AnyHeading, s, i + 1) == Some(Span(i + 3, LineEnd(s, i + 3)))
    ensures FindAll(AnyHeading, s) != []
  {
  }

  /** A `"## X"` sub-heading at the start of a line puts `X` among the
      titles `# (.+)` finds: no earlier match runs past the line break
      before it. */
  lemma SubheadingTitleIsFound(s: string, i: nat)
    requires OccursAt(s, "## ", i) && i + 3 < |s| && s[i + 3] != '\n'
    requires i == 0 || s[i - 1] == '\n'
    ensures s[i + 3..LineEnd(s, i + 3)] in FindAll(AnyHeading, s)
  {
    var table := TitleTable(AnyHeading, s);
    SubheadingIsAlsoAHeading(s, i);
    assert table[i + 1] == Some(Span(i + 3, LineEnd(s, i + 3)));
    forall j | 0 <= j < i + 1 && table[j].Some?
      ensures table[j].value.end <= i + 1
    {
      HeadingBeforeSubheadingEnds(s, i, j);
    }
    ScanAllReaches(s, table, 0, i + 1);
  }

  lemma HeadingBeforeSubheadingEnds(s: string, i: nat, j: nat)
    requires OccursAt(s, "## ", i) && (i == 0 || s[i - 1] == '\n')
    requires j <= i && TitleAt(AnyHeading, s, j).Some?
    ensures TitleAt(AnyHeading, s, j).value.end <= i + 1
  {
    var e := TitleAt(AnyHeading, s, j).value.end;
    assert s[j] == '#' && s[j + 1] == ' ' by { assert s[j..j + 2] == "# "; }
    assert s[i + 1] == '#' by { assert s[i..i + 3] == "## "; }
    if j + 2 <= i - 1 {
      assert NoNewlineIn(s, j + 2, e);
      assert e <= i - 1;
    }
  }

  /** In `# 페이지 제목:\s*(.+)` the `\s*` also consumes a newline: a label
      with nothing after it on its line takes its title from the next line. */
  lemma LabelTitleMayStartOnNextLine(s: string, i: nat)
    requires OccursAt(s, PageTitleLabelText, i)
    requires var k := i + |PageTitleLabelText|; k + 1 < |s| && s[k] == '\n' && !IsSpace(s[k + 1])
    ensures var k := i + |PageTitleLabelText|;
            TitleAt(PageTitleLabel, s, i) == Some(Span(k + 1, LineEnd(s, k + 1)))
  {
  }

  // ---------------------------------------------------------------------
  // Content patterns (blogclip_app.py:97-101)

  /** The three content patterns, most specific first:
      `## 페이지 스크립트:\s*\n([\s\S]+?)(?=\n# |$)`,
      `##\s+페이지\s+\d+[:.]\s*\n([\s\S]+?)(?=\n# |$)` and
      `## (.+)\n([\s\S]+?)(?=\n# |$)` (whose content is its second group). */
  datatype ContentPattern = ScriptLabel | NumberedSection | AnySection

  const ContentPatterns: seq<ContentPattern> := [ScriptLabel, NumberedSection, AnySection]

  const ScriptLabelText: string := "## 페이지 스크립트:"

  /** Where the look-ahead `(?=\n# |$)` succeeds: at the end, just before a
      final newline (Python's `$` without MULTILINE), or before `"\n# "`. */
  predicate BodyStopsAt(t: string, u: nat)
    requires u <= |t|
  {
    u == |t| || (u == |t| - 1 && t[u] == '\n') || OccursAt(t, "\n# ", u)
  }

  /** The lazy `[\s\S]+?` stops at the first position from `u` on where the
      look-ahead succeeds. */
  function BodyEnd(t: string, u: nat): (e: nat)
    requires u <= |t|
    ensures u <= e <= |t| && BodyStopsAt(t, e)
    ensures forall m :: u <= m < e ==> !BodyStopsAt(t, m)
    decreases |t| - u
  {
    if BodyStopsAt(t, u) then u else BodyEnd(t, u + 1)
  }

  /** Backtracking of `\s*\n([\s\S]+?)`: the largest position in `[k, j]`
      holding a newline that is followed by at least one more character. */
  function BodyNewlineAtOrBefore(t: string, k: nat, j: nat): (r: Option<nat>)
    requires k <= j <= |t|
    ensures r.Some? ==> k <= r.value <= j && r.value + 1 < |t| && t[r.value] == '\n'
    ensures r.None? ==> forall m :: k <= m <= j && m + 1 < |t| ==> t[m] != '\n'
    decreases j
  {
    if j + 1 < |t| && t[j] == '\n' then Some(j)
    else if j == k then None
    else BodyNewlineAtOrBefore(t, k, j - 1)
  }

  /** `\s*\n([\s\S]+?)(?=\n# |$)` matched at `k`: the span of the body. */
  function BodyAfter(t: string, k: nat): (r: Option<Span>)
    requires k <= |t|
    ensures r.Some? ==> k < r.value.start < r.value.end <= |t|
    ensures r.Some? ==> t[r.value.start - 1] == '\n' && BodyStopsAt(t, r.value.end)
  {
    match BodyNewlineAtOrBefore(t, k, SkipSpaces(t, k))
    case None => None
    case Some(m) => Some(Span(m + 1, BodyEnd(t, m + 2)))
  }

  /** The content group of `p` when the pattern matches at position `i`. */
  function ContentAt(p: ContentPattern, t: string, i: nat): (r: Option<Span>)
    requires i <= |t|
    ensures r.Some? ==> OccursAt(t, "##", i)
    ensures r.Some? ==> i + 2 < r.value.start < r.value.end <= |t|
  {
    match p
    case ScriptLabel =>
      if OccursAt(t, ScriptLabelText, i) then
        assert t[i..i + 2] == t[i..i + |ScriptLabelText|][..2];
        BodyAfter(t, i + |ScriptLabelText|)
      else None
    case NumberedSection =>
      if OccursAt(t, "##", i) then
        match NumberedLabelEnd(t, i + 2)
        case None => None
        case Some(k) => BodyAfter(t, k)
      else None
    case AnySection =>
      if OccursAt(t, "## ", i) && i + 3 < |t| && t[i + 3] != '\n' then
        assert t[i..i + 2] == t[i..i + 3][..2];
        var le := LineEnd(t, i + 3);
        if le + 1 < |t| then Some(Span(le + 1, BodyEnd(t, le + 2))) else None
      else None
  }

  /** The matches of content pattern `p`, position by position. */
  function ContentTable(p: ContentPattern, t: string): (r: seq<Option<Span>>)
    ensures IsMatchTable(t, r)
    ensures forall j :: 0 <= j <= |t| ==> r[j] == ContentAt(p, t, j)
  {
    seq(|t| + 1, j requires 0 <= j <= |t| => ContentAt(p, t, j))
  }

  /** `re.search(p, t[i:])`: the content group of the leftmost match. */
  function SearchFrom(p: ContentPattern, t: string, i: nat): (r: Option<string>)
    requires i <= |t|
    ensures r.None? <==> forall j :: i <= j <= |t| ==> ContentAt(p, t, j).None?
    ensures r.Some? ==> r.value != []
    ensures r.Some? ==>
              exists j :: i <= j <= |t| && ContentAt(p, t, j).Some?
                          && (forall j' :: i <= j' < j ==> ContentAt(p, t, j').None?)
                          && r.value == t[ContentAt(p, t, j).value.start..ContentAt(p, t, j).value.end]
  {
    var table := ContentTable(p, t);
    match Leftmost(table, i)
    case None => None
    case Some(j) =>
      assert table[j] == ContentAt(p, t, j);
      Some(GroupText(t, table, j))
  }

  /** `re.search(p, t)`. */
  function Search(p: ContentPattern, t: string): Option<string> {
    SearchFrom(p, t, 0)
  }

  // ---------------------------------------------------------------------
  // Page delimiter `\n# |\n#페이지 \d+[:.] ` (blogclip_app.py:115)

  const NumberedDelimiterText: string := "\n#페이지 "

  /** The end of the delimiter match at `i`, if the delimiter matches there. */
  function DelimiterAt(s: string, i: nat): (r: Option<nat>)
    requires i <= |s|
    ensures r.Some? ==> i < r.value <= |s|
    ensures OccursAt(s, "\n# ", i) ==> r == Some(i + 3)
    ensures r.Some? && !OccursAt(s, "\n# ", i) ==>
              OccursAt(s, NumberedDelimiterText, i) && i + |NumberedDelimiterText| + 3 <= r.value
              && (forall k :: i + |NumberedDelimiterText| <= k < r.value - 2 ==> IsDigit(s[k]))
              && (s[r.value - 2] == ':' || s[r.value - 2] == '.') && s[r.value - 1] == ' '
  {
    if OccursAt(s, "\n# ", i) then Some(i + 3)
    else if OccursAt(s, NumberedDelimiterText, i) then
      var d := SkipDigits(s, i + |NumberedDelimiterText|);
      if d > i + |NumberedDelimiterText| && d + 1 < |s| && (s[d] == ':' || s[d] == '.') && s[d + 1] == ' '
      then Some(d + 2)
      else None
    else None
  }

  /** `re.split` of `s[start:]`, with the scan at `i`: the text between
      successive delimiter matches. */
  function SplitFrom(s: string, start: nat, i: nat): (r: seq<string>)
    requires start <= i <= |s|
    ensures |r| >= 1
    decreases |s| - i
  {
    if i == |s| then [s[start..]]
    else
      match DelimiterAt(s, i)
      case Some(e) => [s[start..i]] + SplitFrom(s, e, e)
      case None => SplitFrom(s, start, i + 1)
  }

  /** The delimiter matches that `SplitFrom` cuts out, in order. */
  function DelimitersFrom(s: string, i: nat): seq<string>
    requires i <= |s|
    decreases |s| - i
  {
    if i == |s| then []
    else
      match DelimiterAt(s, i)
      case Some(e) => [s[i..e]] + DelimitersFrom(s, e)
      case None => DelimitersFrom(s, i + 1)
  }

  /** `re.split(r"\n# |\n#페이지 \d+[:.] ", s)`: never empty. */
  function SplitPages(s: string): (r: seq<string>)
    ensures |r| >= 1
  {
    SplitFrom(s, 0, 0)
  }

  /** Puts the pieces of a split back together with the delimiters between them. */
  function Interleave(pieces: seq<string>, delims: seq<string>): string
    requires |pieces| == |delims| + 1
  {
    if delims == [] then pieces[0] else pieces[0] + delims[0] + Interleave(pieces[1..], delims[1..])
  }

  /** Splitting loses nothing: the pieces of `s[start..]`, put back together
      with the delimiters that were cut out between them, give the text back. */
  lemma {:induction false} SplitFromRejoins(s: string, start: nat, i: nat)
    requires start <= i <= |s|
    ensures |SplitFrom(s, start, i)| == |DelimitersFrom(s, i)| + 1
    ensures Interleave(SplitFrom(s, start, i), DelimitersFrom(s, i)) == s[start..]
    decreases |s| - i
  {
    if i < |s| {
      match DelimiterAt(s, i)
      case Some(e) =>
        SplitFromRejoins(s, e, e);
        var pieces := SplitFrom(s, start, i);
        var delims := DelimitersFrom(s, i);
        assert pieces[0] == s[start..i] && pieces[1..] == SplitFrom(s, e, e);
        assert delims[0] == s[i..e] && delims[1..] == DelimitersFrom(s, e);
        assert Interleave(pieces, delims) == s[start..i] + s[i..e] + s[e..];
        SliceJoin(s, start, i, e);
      case None =>
        SplitFromRejoins(s, start, i + 1);
    }
  }

  lemma SliceJoin(s: string, a: nat, b: nat, c: nat)
    requires a <= b <= c <= |s|
    ensures s[a..b] + s[b..c] + s[c..] == s[a..]
  {
  }

  /** `re.split` followed by re-inserting the delimiters is the identity. */
  lemma SplitPagesRejoins(s: string)
    ensures |SplitPages(s)| == |DelimitersFrom(s, 0)| + 1
    ensures Interleave(SplitPages(s), DelimitersFrom(s, 0)) == s
  {
    SplitFromRejoins(s, 0, 0);
  }

  /** The text holds no match of the page delimiter anywhere. */
  predicate NoDelimiter(t: string) {
    forall j: nat :: j <= |t| ==> DelimiterAt(t, j).None?
  }

  /** `"\n#페이지 "`, a run of digits, `:` or `.` and a space is a page
      delimiter: the numbered alternative of the split pattern cuts there. */
  lemma NumberedDelimiterIsCut(s: string, i: nat, d: nat)
    requires OccursAt(s, NumberedDelimiterText, i)
    requires i + |NumberedDelimiterText| < d && d + 1 < |s|
    requires forall k :: i + |NumberedDelimiterText| <= k < d ==> IsDigit(s[k])
    requires (s[d] == ':' || s[d] == '.') && s[d + 1] == ' '
    ensures DelimiterAt(s, i) == Some(d + 2)
  {
    assert s[i + 2] == s[i..i + |NumberedDelimiterText|][2] == NumberedDelimiterText[2];
    assert s[i + 2] != ' ';
    assert i + 3 <= |s| ==> s[i..i + 3][2] == s[i + 2];
    SkipDigitsStops(s, i + |NumberedDelimiterText|, d);
  }

  /** A greedy `\d+` stops at the first position that holds no digit. */
  lemma {:induction false} SkipDigitsStops(s: string, a: nat, d: nat)
    requires a <= d < |s| && !IsDigit(s[d])
    requires forall k :: a <= k < d ==> IsDigit(s[k])
    ensures SkipDigits(s, a) == d
    decreases d - a
  {
    if a < d {
      SkipDigitsStops(s, a + 1, d);
    }
  }

  /** A pattern occurs at `j` of a slice exactly when it occurs at the
      matching position of the whole text, if it fits in the slice. */
  lemma OccursInSlice(s: string, start: nat, i: nat, pat: string, j: nat)
    requires start <= i <= |s| && j + |pat| <= i - start
    ensures OccursAt(s[start..i], pat, j) <==> OccursAt(s, pat, start + j)
  {
    var t := s[start..i];
    var u, v := t[j..j + |pat|], s[start + j..start + j + |pat|];
    assert u == v by {
      forall m | 0 <= m < |pat| ensures u[m] == v[m] {
        assert u[m] == t[j + m] == s[start + j + m];
      }
    }
  }

  /** A greedy `\d+` that stops inside a slice stops at the same place in
      the whole text. */
  lemma {:induction false} SkipDigitsInSlice(s: string, start: nat, i: nat, j: nat)
    requires start <= i <= |s| && j <= i - start
    ensures SkipDigits(s[start..i], j) < i - start ==> SkipDigits(s[start..i], j) + start == SkipDigits(s, start + j)
    decreases i - start - j
  {
    var t := s[start..i];
    if j < |t| {
      assert t[j] == s[start + j];
      if IsDigit(t[j]) {
        SkipDigitsInSlice(s, start, i, j + 1);
      }
    }
  }

  /** A delimiter match inside a slice is a delimiter match of the whole
      text, at the matching position. */
  lemma DelimiterInSlice(s: string, start: nat, i: nat, j: nat)
    requires start <= i <= |s| && j <= i - start
    requires DelimiterAt(s[start..i], j).Some?
    ensures DelimiterAt(s, start + j) == Some(DelimiterAt(s[start..i], j).value + start)
  {
    var t := s[start..i];
    if OccursAt(t, "\n# ", j) {
      OccursInSlice(s, start, i, "\n# ", j);
    } else {
      var n := |NumberedDelimiterText|;
      OccursInSlice(s, start, i, NumberedDelimiterText, j);
      OccursInSlice(s, start, i, "\n# ", j);
      var d := SkipDigits(t, j + n);
      SkipDigitsInSlice(s, start, i, j + n);
      assert t[d] == s[start + d] && t[d + 1] == s[start + d + 1];
    }
  }

  /** The split cuts at every delimiter match: if none starts between
      `start` and `i`, no piece of `SplitFrom(s, start, i)` holds one. */
  lemma {:induction false} SplitFromNoDelimiter(s: string, start: nat, i: nat)
    requires start <= i <= |s|
    requires forall j: nat :: start <= j < i ==> DelimiterAt(s, j).None?
    ensures forall k :: 0 <= k < |SplitFrom(s, start, i)| ==> NoDelimiter(SplitFrom(s, start, i)[k])
    decreases |s| - i
  {
    var r := SplitFrom(s, start, i);
    if i == |s| {
      SliceHasNoDelimiter(s, start, i);
      assert r == [s[start..]];
      assert s[start..] == s[start..i];
    } else {
      match DelimiterAt(s, i)
      case Some(e) =>
        SliceHasNoDelimiter(s, start, i);
        SplitFromNoDelimiter(s, e, e);
        assert r[1..] == SplitFrom(s, e, e);
        forall k | 1 <= k < |r| ensures NoDelimiter(r[k]) {
          assert r[k] == r[1..][k - 1];
        }
      case None =>
        SplitFromNoDelimiter(s, start, i + 1);
    }
  }

  /** A slice in which no delimiter match of the whole text starts holds
      no delimiter match of its own. */
  lemma SliceHasNoDelimiter(s: string, start: nat, i: nat)
    requires start <= i <= |s|
    requires forall j: nat :: start <= j < i ==> DelimiterAt(s, j).None?
    ensures NoDelimiter(s[start..i])
  {
    var t := s[start..i];
    forall j: nat | j <= |t| ensures DelimiterAt(t, j).None? {
      if DelimiterAt(t, j).Some? {
        DelimiterInSlice(s, start, i, j);
      }
    }
  }

  /** The text is cut at every page delimiter: no block of the split holds
      a `"\n# "` heading break or any other delimiter match, and every
      piece cut out between blocks is a match of the delimiter pattern. */
  lemma SplitPagesNoDelimiter(s: string)
    ensures forall k :: 0 <= k < |SplitPages(s)| ==> NoDelimiter(SplitPages(s)[k])
    ensures forall k :: 0 <= k < |SplitPages(s)| ==> !Contains(SplitPages(s)[k], "\n# ")
    ensures forall k :: 0 <= k < |DelimitersFrom(s, 0)| ==> IsDelimiterFrom(s, 0, DelimitersFrom(s, 0)[k])
  {
    SplitFromNoDelimiter(s, 0, 0);
    DelimitersAreMatches(s, 0);
    forall k | 0 <= k < |SplitPages(s)| ensures !Contains(SplitPages(s)[k], "\n# ") {
      var t := SplitPages(s)[k];
      var r := IndexOf(t, "\n# ");
      assert r >= 0 ==> DelimiterAt(t, r) == Some(r + 3);
    }
  }

  /** `t` is the text of a delimiter match that starts at or after `i`. */
  predicate IsDelimiterFrom(s: string, i: nat, t: string) {
    exists j: nat, e: nat :: i <= j < e <= |s| && DelimiterAt(s, j) == Some(e) && t == s[j..e]
  }

  /** Every delimiter the split cuts out is a match of the delimiter pattern. */
  lemma {:induction false} DelimitersAreMatches(s: string, i: nat)
    requires i <= |s|
    ensures forall k :: 0 <= k < |DelimitersFrom(s, i)| ==> IsDelimiterFrom(s, i, DelimitersFrom(s, i)[k])
    decreases |s| - i, 1
  {
    if i < |s| {
      match DelimiterAt(s, i)
      case Some(e) => DelimitersAfterCut(s, i, e);
      case None => DelimitersAfterMiss(s, i);
    }
  }

  lemma {:induction false} DelimitersAfterCut(s: string, i: nat, e: nat)
    requires i < |s| && DelimiterAt(s, i) == Some(e)
    ensures forall k :: 0 <= k < |DelimitersFrom(s, i)| ==> IsDelimiterFrom(s, i, DelimitersFrom(s, i)[k])
    decreases |s| - i, 0
  {
    var d := DelimitersFrom(s, i);
    DelimitersAreMatches(s, e);
    assert d[0] == s[i..e];
    forall k | 0 <= k < |d| ensures IsDelimiterFrom(s, i, d[k]) {
      if k == 0 {
        assert DelimiterAt(s, i) == Some(e) && d[0] == s[i..e];
      } else {
        assert d[k] == DelimitersFrom(s, e)[k - 1];
        var j: nat, e': nat :| e <= j < e' <= |s| && DelimiterAt(s, j) == Some(e') && d[k] == s[j..e'];
      }
    }
  }

  lemma {:induction false} DelimitersAfterMiss(s: string, i: nat)
    requires i < |s| && DelimiterAt(s, i).None?
    ensures forall k :: 0 <= k < |DelimitersFrom(s, i)| ==> IsDelimiterFrom(s, i, DelimitersFrom(s, i)[k])
    decreases |s| - i, 0
  {
    var d := DelimitersFrom(s, i);
    DelimitersAreMatches(s, i + 1);
    forall k | 0 <= k < |d| ensures IsDelimiterFrom(s, i, d[k]) {
      assert d[k] == DelimitersFrom(s, i + 1)[k];
      var j: nat, e: nat :| i + 1 <= j < e <= |s| && DelimiterAt(s, j) == Some(e) && d[k] == s[j..e];
    }
  }
}
