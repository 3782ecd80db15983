/**
 * The page layout the script generator asks the language model for
 * (blogclip_app.py:52-57): for every page a `# 페이지 제목: <title>` line, a
 * blank line, a `## 페이지 스크립트:` sub-heading and the page's script, the
 * pages separated by a blank line.  A script written in this layout, with
 * no `#` in its titles and scripts, resolves to exactly its own pages.
 */
module ScriptLayout {
  import opened Wrappers
  import opened Text
  import opened Matchers
  import opened ScriptPages

  /** The first line of a page, before its title. */
  const TitleLine: string := PageTitleLabelText + " "

  /** What lies between a page's title and its script: a blank line and
      the script sub-heading on a line of its own. */
  const ScriptHeading: string := "\n\n" + ScriptLabelText + "\n"

  /** One page in the requested layout. */
  function Piece(title: string, body: string): string {
    TitleLine + title + ScriptHeading + body
  }

  /** The pages in the requested layout, separated by blank lines. */
  function Layout(titles: seq<string>, bodies: seq<string>): (r: string)
    requires |titles| == |bodies| >= 1
    decreases |titles|
  {
    if |titles| == 1 then Piece(titles[0], bodies[0])
    else Piece(titles[0], bodies[0]) + "\n\n" + Layout(titles[1..], bodies[1..])
  }

  /** A title on one line and a script, neither blank and neither holding
      a `#`. */
  predicate WellFormedPage(title: string, body: string) {
    '\n' !in title && '#' !in title && !AllSpace(title) && '#' !in body && !AllSpace(body)
  }

  // ---------------------------------------------------------------------
  // Scanners that look only forward see the same in `x + r` from `|x| + j`
  // as in `r` from `j`.

  function ShiftNat(o: Option<nat>, d: nat): Option<nat> {
    match o
    case None => None
    case Some(v) => Some(d + v)
  }

  function ShiftSpan(o: Option<Span>, d: nat): Option<Span> {
    match o
    case None => None
    case Some(g) => Some(Span(d + g.start, d + g.end))
  }

  lemma SliceShift(x: string, r: string, a: nat, b: nat)
    requires a <= b <= |r|
    ensures (x + r)[|x| + a..|x| + b] == r[a..b]
    ensures (x + r)[|x| + a..] == r[a..]
  {
    var s := x + r;
    assert s[|x| + a..|x| + b] == r[a..b] by {
      forall m | 0 <= m < b - a ensures s[|x| + a..|x| + b][m] == r[a..b][m] {
        assert s[|x| + a + m] == r[a + m];
      }
    }
    assert s[|x| + a..] == r[a..] by {
      forall m | 0 <= m < |r| - a ensures s[|x| + a..][m] == r[a..][m] {
        assert s[|x| + a + m] == r[a + m];
      }
    }
  }

  lemma OccursShift(x: string, r: string, pat: string, j: nat)
    requires j <= |r|
    ensures OccursAt(x + r, pat, |x| + j) <==> OccursAt(r, pat, j)
  {
    if j + |pat| <= |r| {
      SliceShift(x, r, j, j + |pat|);
    }
  }

  lemma OccursShiftOn(x: string, r: string, pat: string, j: nat, j': nat)
    requires j <= |r| && OccursAt(r, pat, j) && j' == |x| + j
    ensures j + |pat| <= |r| && OccursAt(x + r, pat, j')
  {
    OccursShift(x, r, pat, j);
  }

  lemma {:induction false} SkipSpacesShift(x: string, r: string, j: nat)
    requires j <= |r|
    ensures SkipSpaces(x + r, |x| + j) == |x| + SkipSpaces(r, j)
    decreases |r| - j
  {
    if j < |r| {
      assert (x + r)[|x| + j] == r[j];
      if IsSpace(r[j]) {
        SkipSpacesShift(x, r, j + 1);
      }
    }
  }

  lemma {:induction false} SkipDigitsShift(x: string, r: string, j: nat)
    requires j <= |r|
    ensures SkipDigits(x + r, |x| + j) == |x| + SkipDigits(r, j)
    decreases |r| - j
  {
    if j < |r| {
      assert (x + r)[|x| + j] == r[j];
      if IsDigit(r[j]) {
        SkipDigitsShift(x, r, j + 1);
      }
    }
  }

  lemma {:induction false} LineEndShift(x: string, r: string, j: nat)
    requires j <= |r|
    ensures LineEnd(x + r, |x| + j) == |x| + LineEnd(r, j)
    decreases |r| - j
  {
    if j < |r| {
      assert (x + r)[|x| + j] == r[j];
      if r[j] != '\n' {
        LineEndShift(x, r, j + 1);
      }
    }
  }

  lemma {:induction false} LineStartShift(x: string, r: string, k: nat, j: nat)
    requires k <= j <= |r|
    ensures LineStartAtOrBefore(x + r, |x| + k, |x| + j) == ShiftNat(LineStartAtOrBefore(r, k, j), |x|)
    decreases j
  {
    if j < |r| {
      assert (x + r)[|x| + j] == r[j];
    }
    if !(j < |r| && r[j] != '\n') && j > k {
      LineStartShift(x, r, k, j - 1);
    }
  }

  /** The shift lemmas with the shifted positions named apart. */
  lemma SkipSpacesShiftTo(x: string, r: string, k: nat, j: nat, k': nat, j': nat)
    requires k <= |r| && SkipSpaces(r, k) == j && k' == |x| + k && j' == |x| + j
    ensures SkipSpaces(x + r, k') == j'
  {
    SkipSpacesShift(x, r, k);
  }

  lemma LineEndShiftTo(x: string, r: string, m: nat, e: nat, m': nat, e': nat)
    requires m <= |r| && LineEnd(r, m) == e && m' == |x| + m && e' == |x| + e
    ensures LineEnd(x + r, m') == e'
  {
    LineEndShift(x, r, m);
  }

  lemma LineStartShiftNone(x: string, r: string, k: nat, j: nat, k': nat, j': nat)
    requires k <= j <= |r| && LineStartAtOrBefore(r, k, j).None? && k' == |x| + k && j' == |x| + j
    ensures LineStartAtOrBefore(x + r, k', j').None?
  {
    LineStartShift(x, r, k, j);
  }

  lemma LineStartShiftSome(x: string, r: string, k: nat, j: nat, m: nat, k': nat, j': nat, m': nat)
    requires k <= j <= |r| && LineStartAtOrBefore(r, k, j) == Some(m)
    requires k' == |x| + k && j' == |x| + j && m' == |x| + m
    ensures LineStartAtOrBefore(x + r, k', j') == Some(m')
  {
    LineStartShift(x, r, k, j);
  }

  lemma SpacedRestShift(x: string, r: string, k: nat, k': nat)
    requires k <= |r| && k' == |x| + k
    ensures SpacedRestOfLine(x + r, k') == ShiftSpan(SpacedRestOfLine(r, k), |x|)
  {
    var j := SkipSpaces(r, k);
    match LineStartAtOrBefore(r, k, j)
    case None => SpacedRestShiftNoLine(x, r, k, j, k', |x| + j);
    case Some(m) =>
      SpacedRestShiftLine(x, r, k, j, m, LineEnd(r, m), k', |x| + j, |x| + m, |x| + LineEnd(r, m));
  }

  lemma SpacedRestShiftNoLine(x: string, r: string, k: nat, j: nat, k': nat, j': nat)
    requires k <= |r| && SkipSpaces(r, k) == j && LineStartAtOrBefore(r, k, j).None?
    requires k' == |x| + k && j' == |x| + j
    ensures SpacedRestOfLine(x + r, k') == ShiftSpan(SpacedRestOfLine(r, k), |x|)
  {
    SkipSpacesShiftTo(x, r, k, j, k', j');
    LineStartShiftNone(x, r, k, j, k', j');
    SpacedRestShiftNone(x + r, r, |x|, k, j, k', j');
  }

  lemma SpacedRestShiftLine(x: string, r: string, k: nat, j: nat, m: nat, e: nat,
                            k': nat, j': nat, m': nat, e': nat)
    requires k <= |r| && SkipSpaces(r, k) == j && LineStartAtOrBefore(r, k, j) == Some(m) && LineEnd(r, m) == e
    requires k' == |x| + k && j' == |x| + j && m' == |x| + m && e' == |x| + e
    ensures SpacedRestOfLine(x + r, k') == ShiftSpan(SpacedRestOfLine(r, k), |x|)
  {
    SkipSpacesShiftTo(x, r, k, j, k', j');
    LineStartShiftSome(x, r, k, j, m, k', j', m');
    LineEndShiftTo(x, r, m, e, m', e');
    SpacedRestShiftAt(x + r, r, |x|, k, j, m, e, k', j', m', e');
  }

  /** The shifted match when the spaces end on a line that starts at `m`,
      with the shifted positions `k'`, `j'`, `m'` and `e'` of `s` named
      apart from the shift `d`. */
  lemma SpacedRestShiftAt(s: string, r: string, d: nat, k: nat, j: nat, m: nat, e: nat,
                          k': nat, j': nat, m': nat, e': nat)
    requires m' == d + m && e' == d + e
    requires k <= |r| && SkipSpaces(r, k) == j && k' <= |s| && SkipSpaces(s, k') == j'
    requires LineStartAtOrBefore(r, k, j) == Some(m) && LineStartAtOrBefore(s, k', j') == Some(m')
    requires LineEnd(r, m) == e && LineEnd(s, m') == e'
    ensures SpacedRestOfLine(s, k') == ShiftSpan(SpacedRestOfLine(r, k), d)
  {
    SpacedRestAt(s, k', j', m', e');
    SpacedRestAt(r, k, j, m, e);
    ShiftedSome(SpacedRestOfLine(s, k'), SpacedRestOfLine(r, k), d, m, e, m', e');
  }

  /** No line starts where the spaces end, in `r` nor in `s`. */
  lemma SpacedRestShiftNone(s: string, r: string, d: nat, k: nat, j: nat, k': nat, j': nat)
    requires k <= |r| && SkipSpaces(r, k) == j && k' <= |s| && SkipSpaces(s, k') == j'
    requires LineStartAtOrBefore(r, k, j).None? && LineStartAtOrBefore(s, k', j').None?
    ensures SpacedRestOfLine(s, k') == ShiftSpan(SpacedRestOfLine(r, k), d)
  {
  }

  lemma ShiftedSome(u: Option<Span>, v: Option<Span>, d: nat, m: nat, e: nat, m': nat, e': nat)
    requires u == Some(Span(m', e')) && v == Some(Span(m, e)) && m' == d + m && e' == d + e
    ensures u == ShiftSpan(v, d)
  {
  }

  lemma SpacedRestAt(s: string, k: nat, j: nat, m: nat, e: nat)
    requires k <= j <= |s| && SkipSpaces(s, k) == j && LineStartAtOrBefore(s, k, j) == Some(m)
    requires m <= |s| && LineEnd(s, m) == e
    ensures SpacedRestOfLine(s, k) == Some(Span(m, e))
  {
  }

  lemma TitleLabelShift(x: string, r: string, j: nat)
    requires j <= |r|
    ensures TitleAt(PageTitleLabel, x + r, |x| + j) == ShiftSpan(TitleAt(PageTitleLabel, r, j), |x|)
  {
    if OccursAt(r, PageTitleLabelText, j) {
      TitleLabelShiftOn(x, r, j, j + |PageTitleLabelText|, |x| + j, |x| + j + |PageTitleLabelText|);
    } else {
      TitleLabelShiftOff(x, r, j);
    }
  }

  lemma TitleLabelShiftOn(x: string, r: string, j: nat, q: nat, j': nat, q': nat)
    requires j <= |r| && OccursAt(r, PageTitleLabelText, j) && q == j + |PageTitleLabelText|
    requires j' == |x| + j && q' == |x| + q
    ensures TitleAt(PageTitleLabel, x + r, j') == ShiftSpan(TitleAt(PageTitleLabel, r, j), |x|)
  {
    OccursShiftOn(x, r, PageTitleLabelText, j, j');
    SpacedRestShift(x, r, q, q');
    TitleLabelShiftAt(x + r, r, |x|, j, q, j', q');
  }

  /** The label's group in `s` at `j'` is the one in `r` at `j`, shifted
      by `d`, once the rest of the line after each label is. */
  lemma TitleLabelShiftAt(s: string, r: string, d: nat, j: nat, q: nat, j': nat, q': nat)
    requires OccursAt(r, PageTitleLabelText, j) && q == j + |PageTitleLabelText|
    requires OccursAt(s, PageTitleLabelText, j') && q' == j' + |PageTitleLabelText|
    requires q <= |r| && q' <= |s| && SpacedRestOfLine(s, q') == ShiftSpan(SpacedRestOfLine(r, q), d)
    ensures TitleAt(PageTitleLabel, s, j') == ShiftSpan(TitleAt(PageTitleLabel, r, j), d)
  {
    TitleLabelGroup(s, j', q');
    TitleLabelGroup(r, j, q);
  }

  lemma TitleLabelShiftOff(x: string, r: string, j: nat)
    requires j <= |r| && !OccursAt(r, PageTitleLabelText, j)
    ensures TitleAt(PageTitleLabel, x + r, |x| + j) == ShiftSpan(TitleAt(PageTitleLabel, r, j), |x|)
  {
    OccursShift(x, r, PageTitleLabelText, j);
    TitleLabelNone(x + r, |x| + j);
    TitleLabelNone(r, j);
  }

  /** Where the title label occurs, the match's group is what `\s*(.+)`
      finds after it, from `q`. */
  lemma TitleLabelGroup(s: string, i: nat, q: nat)
    requires OccursAt(s, PageTitleLabelText, i) && q == i + |PageTitleLabelText|
    ensures q <= |s| && TitleAt(PageTitleLabel, s, i) == SpacedRestOfLine(s, q)
  {
  }

  lemma TitleLabelNone(s: string, i: nat)
    requires i <= |s| && !OccursAt(s, PageTitleLabelText, i)
    ensures TitleAt(PageTitleLabel, s, i).None?
  {
  }

  // ---------------------------------------------------------------------
  // Steps of the `re.findall` scan

  lemma {:induction false} ScanSkip(s: string, table: seq<Option<Span>>, i: nat, k: nat)
    requires IsMatchTable(s, table) && i <= k <= |s|
    requires forall m :: i <= m < k ==> table[m].None?
    ensures ScanAll(s, table, i) == ScanAll(s, table, k)
    decreases k
  {
    if i < k {
      ScanSkip(s, table, i, k - 1);
      ScanSkipSnoc(s, table, i, k);
    }
  }

  lemma ScanSkipSnoc(s: string, table: seq<Option<Span>>, i: nat, k: nat)
    requires IsMatchTable(s, table) && i < k <= |s| && table[k - 1].None?
    requires ScanAll(s, table, i) == ScanAll(s, table, k - 1)
    ensures ScanAll(s, table, i) == ScanAll(s, table, k)
  {
    ScanSkipStep(s, table, k - 1);
  }

  lemma ScanSkipStep(s: string, table: seq<Option<Span>>, i: nat)
    requires IsMatchTable(s, table) && i < |s| && table[i].None?
    ensures ScanAll(s, table, i) == ScanAll(s, table, i + 1)
  {
  }

  lemma FindAllStepNone(p: TitlePattern, s: string, i: nat)
    requires i < |s| && TitleAt(p, s, i).None?
    ensures FindAllFrom(p, s, i) == FindAllFrom(p, s, i + 1)
  {
    var table := TitleTable(p, s);
    assert table[i].None?;
    ScanSkipStep(s, table, i);
  }

  lemma FindAllStepSome(p: TitlePattern, s: string, i: nat)
    requires i <= |s| && TitleAt(p, s, i).Some?
    ensures var g := TitleAt(p, s, i).value;
            FindAllFrom(p, s, i) == [s[g.start..g.end]] + FindAllFrom(p, s, g.end)
  {
    var table := TitleTable(p, s);
    assert table[i].Some?;
  }

  lemma FindAllStepAt(p: TitlePattern, s: string, i: nat, a: nat, e: nat)
    requires i <= |s| && TitleAt(p, s, i) == Some(Span(a, e))
    ensures e <= |s| && FindAllFrom(p, s, i) == [s[a..e]] + FindAllFrom(p, s, e)
  {
    FindAllStepSome(p, s, i);
  }

  lemma ConsEqual<T>(a: T, b: T, x: seq<T>, y: seq<T>)
    requires a == b && x == y
    ensures [a] + x == [b] + y
  {
  }

  lemma SameThree<T>(x: seq<T>, y: seq<T>, z: seq<T>)
    requires x == y && y == z
    ensures x == z
  {
  }

  lemma FindAllSkip(p: TitlePattern, s: string, i: nat, k: nat)
    requires i <= k <= |s|
    requires forall m :: i <= m < k ==> TitleAt(p, s, m).None?
    ensures FindAllFrom(p, s, i) == FindAllFrom(p, s, k)
  {
    ScanSkip(s, TitleTable(p, s), i, k);
  }

  /** One step of two scans over tables that agree at `i` and `j`. */
  lemma ScanStepsAgree(s: string, ts: seq<Option<Span>>, i: nat, r: string, tr: seq<Option<Span>>, j: nat, d: nat)
    requires IsMatchTable(s, ts) && IsMatchTable(r, tr) && i == d + j && |s| == d + |r| && j < |r|
    requires ts[i] == ShiftSpan(tr[j], d)
    requires tr[j].None? ==> ScanAll(s, ts, i + 1) == ScanAll(r, tr, j + 1)
    requires tr[j].Some? ==>
               s[ts[i].value.start..ts[i].value.end] == r[tr[j].value.start..tr[j].value.end]
               && ScanAll(s, ts, ts[i].value.end) == ScanAll(r, tr, tr[j].value.end)
    ensures ScanAll(s, ts, i) == ScanAll(r, tr, j)
  {
  }

  /** Entry `k` of table `tr` over `r`, shifted by `d`, is entry `d + k`
      of table `ts` over `s`, with the same group text. */
  predicate EntryAgrees(s: string, ts: seq<Option<Span>>, r: string, tr: seq<Option<Span>>, d: nat, k: nat)
    requires IsMatchTable(s, ts) && IsMatchTable(r, tr) && |s| == d + |r| && k <= |r|
  {
    ts[d + k] == ShiftSpan(tr[k], d)
    && (tr[k].Some? ==> s[d + tr[k].value.start..d + tr[k].value.end] == r[tr[k].value.start..tr[k].value.end])
  }

  /** Two match tables that agree up to a shift by `d` give the same scan. */
  lemma {:induction false} ScanShift(s: string, ts: seq<Option<Span>>, i: nat, r: string, tr: seq<Option<Span>>, j: nat, d: nat)
    requires IsMatchTable(s, ts) && IsMatchTable(r, tr) && |s| == d + |r| && j <= |r| && i == d + j
    requires forall k :: 0 <= k <= |r| ==> EntryAgrees(s, ts, r, tr, d, k)
    ensures ScanAll(s, ts, i) == ScanAll(r, tr, j)
    decreases |r| - j, 1
  {
    if j < |r| {
      assert EntryAgrees(s, ts, r, tr, d, j);
      if tr[j].None? {
        ScanShiftMiss(s, ts, i, r, tr, j, d, i + 1, j + 1);
      } else {
        ScanShiftHit(s, ts, i, r, tr, j, d);
      }
    }
  }

  lemma {:induction false} ScanShiftMiss(s: string, ts: seq<Option<Span>>, i: nat, r: string, tr: seq<Option<Span>>, j: nat, d: nat, i': nat, j': nat)
    requires IsMatchTable(s, ts) && IsMatchTable(r, tr) && |s| == d + |r| && j < |r| && i == d + j
    requires forall k :: 0 <= k <= |r| ==> EntryAgrees(s, ts, r, tr, d, k)
    requires ts[i].None? && tr[j].None? && i' == i + 1 && j' == j + 1 && i' == d + j'
    ensures ScanAll(s, ts, i) == ScanAll(r, tr, j)
    decreases |r| - j, 0
  {
    ScanShift(s, ts, i', r, tr, j', d);
    ScanSkipStep(s, ts, i);
    ScanSkipStep(r, tr, j);
  }

  lemma {:induction false} ScanShiftHit(s: string, ts: seq<Option<Span>>, i: nat, r: string, tr: seq<Option<Span>>, j: nat, d: nat)
    requires IsMatchTable(s, ts) && IsMatchTable(r, tr) && |s| == d + |r| && j < |r| && i == d + j
    requires forall k :: 0 <= k <= |r| ==> EntryAgrees(s, ts, r, tr, d, k)
    requires EntryAgrees(s, ts, r, tr, d, j) && tr[j].Some?
    ensures ScanAll(s, ts, i) == ScanAll(r, tr, j)
    decreases |r| - j, 0
  {
    ScanShift(s, ts, ts[i].value.end, r, tr, tr[j].value.end, d);
    ScanStepsAgree(s, ts, i, r, tr, j, d);
  }

  lemma FindAllShift(x: string, r: string)
    ensures FindAllFrom(PageTitleLabel, x + r, |x|) == FindAllFrom(PageTitleLabel, r, 0)
  {
    var s := x + r;
    var ts, tr := TitleTable(PageTitleLabel, s), TitleTable(PageTitleLabel, r);
    forall k | 0 <= k <= |r| ensures EntryAgrees(s, ts, r, tr, |x|, k) {
      TitleLabelShift(x, r, k);
      if tr[k].Some? {
        SliceShift(x, r, tr[k].value.start, tr[k].value.end);
      }
    }
    ScanShift(s, ts, |x|, r, tr, 0, |x|);
  }

  lemma FindAllAtEnd(p: TitlePattern, s: string)
    ensures FindAllFrom(p, s, |s|) == []
  {
  }

  // ---------------------------------------------------------------------
  // Steps of the `re.split` scan

  lemma DelimiterShift(x: string, r: string, j: nat)
    requires j <= |r|
    ensures DelimiterAt(x + r, |x| + j) == ShiftNat(DelimiterAt(r, j), |x|)
  {
    var s := x + r;
    OccursShift(x, r, "\n# ", j);
    OccursShift(x, r, NumberedDelimiterText, j);
    if !OccursAt(r, "\n# ", j) && OccursAt(r, NumberedDelimiterText, j) {
      var d := SkipDigits(r, j + |NumberedDelimiterText|);
      SkipDigitsShift(x, r, j + |NumberedDelimiterText|);
      if d + 1 < |r| {
        assert s[|x| + d] == r[d] && s[|x| + d + 1] == r[d + 1];
      }
    }
  }

  lemma DelimiterShiftAt(x: string, r: string, i: nat, e: nat)
    requires i <= |r| && DelimiterAt(r, i) == Some(e)
    ensures DelimiterAt(x + r, |x| + i) == Some(|x| + e)
  {
    DelimiterShift(x, r, i);
  }

  /** The end of the scan: the last piece, shifted. */
  lemma SplitShiftEnd(x: string, r: string, a: nat)
    requires a <= |r|
    ensures SplitFrom(x + r, |x| + a, |x| + |r|) == SplitFrom(r, a, |r|)
  {
    SliceShift(x, r, a, |r|);
  }

  /** A delimiter at `i` cuts both scans at the same place. */
  lemma {:induction false} SplitShiftCut(x: string, r: string, a: nat, i: nat, e: nat)
    requires a <= i < |r| && DelimiterAt(r, i) == Some(e)
    ensures SplitFrom(x + r, |x| + a, |x| + i) == SplitFrom(r, a, i)
    decreases |r| - i, 0
  {
    SplitShift(x, r, e, e);
    SplitShiftCutStep(x, r, a, i, e);
  }

  lemma SplitShiftCutStep(x: string, r: string, a: nat, i: nat, e: nat)
    requires a <= i < |r| && DelimiterAt(r, i) == Some(e)
    requires SplitFrom(x + r, |x| + e, |x| + e) == SplitFrom(r, e, e)
    ensures SplitFrom(x + r, |x| + a, |x| + i) == SplitFrom(r, a, i)
  {
    DelimiterShiftAt(x, r, i, e);
    SliceShift(x, r, a, i);
    SplitAtDelimiter(x + r, |x| + a, |x| + i, |x| + e);
    SplitAtDelimiter(r, a, i, e);
    ConsEqual((x + r)[|x| + a..|x| + i], r[a..i], SplitFrom(x + r, |x| + e, |x| + e), SplitFrom(r, e, e));
  }

  /** No delimiter at `i`: both scans move on one character. */
  lemma {:induction false} SplitShiftNext(x: string, r: string, a: nat, i: nat)
    requires a <= i < |r| && DelimiterAt(r, i).None?
    ensures SplitFrom(x + r, |x| + a, |x| + i) == SplitFrom(r, a, i)
    decreases |r| - i, 0
  {
    SplitShift(x, r, a, i + 1);
    DelimiterShift(x, r, i);
  }

  lemma {:induction false} SplitShift(x: string, r: string, a: nat, i: nat)
    requires a <= i <= |r|
    ensures SplitFrom(x + r, |x| + a, |x| + i) == SplitFrom(r, a, i)
    decreases |r| - i, 1
  {
    if i == |r| {
      SplitShiftEnd(x, r, a);
    } else if DelimiterAt(r, i).Some? {
      SplitShiftCut(x, r, a, i, DelimiterAt(r, i).value);
    } else {
      SplitShiftNext(x, r, a, i);
    }
  }

  lemma {:induction false} SplitSkip(s: string, start: nat, i: nat, k: nat)
    requires start <= i <= k <= |s|
    requires forall m :: i <= m < k ==> DelimiterAt(s, m).None?
    ensures SplitFrom(s, start, i) == SplitFrom(s, start, k)
    decreases k - i
  {
    if i < k {
      SplitSkip(s, start, i + 1, k);
    }
  }

  /** A delimiter match starts with a newline and a `#`, followed by a space
      or by `페`. */
  lemma DelimiterShape(s: string, i: nat)
    requires i <= |s| && DelimiterAt(s, i).Some?
    ensures i + 2 < |s| && s[i] == '\n' && s[i + 1] == '#' && (s[i + 2] == ' ' || s[i + 2] == '페')
  {
    if OccursAt(s, "\n# ", i) {
      assert s[i..i + 3][0] == s[i] && s[i..i + 3][1] == s[i + 1] && s[i..i + 3][2] == s[i + 2];
    } else {
      var n := |NumberedDelimiterText|;
      assert s[i..i + n][0] == s[i] && s[i..i + n][1] == s[i + 1] && s[i..i + n][2] == s[i + 2];
    }
  }

  // ---------------------------------------------------------------------
  // `str.strip()` ignores whitespace added at either end

  lemma {:induction false} SkipSpacesStops(s: string, a: nat, d: nat)
    requires a <= d <= |s|
    requires forall k :: a <= k < d ==> IsSpace(s[k])
    requires d == |s| || !IsSpace(s[d])
    ensures SkipSpaces(s, a) == d
    decreases d - a
  {
    if a < d {
      SkipSpacesStops(s, a + 1, d);
    }
  }

  /** The stripped text of `p + r + q` is `r` when `p` and `q` are blank
      and `r` is a non-empty stripped text. */
  lemma StripUnique(p: string, r: string, q: string)
    requires AllSpace(p) && AllSpace(q) && r != [] && IsStripped(r)
    ensures Strip(p + r + q) == r
  {
    var s, n := p + r + q, |p| + |r|;
    PaddedChars(p, r, q);
    SkipSpacesStops(s, 0, |p|);
    StripBetween(s, |p|, n);
    assert s[|p|..n] == r;
  }

  /** The characters of a stripped text padded with blanks on both sides. */
  lemma PaddedChars(p: string, r: string, q: string)
    requires AllSpace(p) && AllSpace(q) && r != [] && IsStripped(r)
    ensures var s, n := p + r + q, |p| + |r|;
            (forall k :: 0 <= k < |p| ==> IsSpace(s[k])) && !IsSpace(s[|p|])
            && !IsSpace(s[n - 1]) && (forall k :: n <= k < |s| ==> IsSpace(s[k]))
  {
    var s, n := p + r + q, |p| + |r|;
    assert s[|p|] == r[0] && s[n - 1] == r[|r| - 1];
    forall k | n <= k < |s| ensures IsSpace(s[k]) {
      assert s[k] == q[k - n];
    }
  }

  /** A text whose leading blanks end at `a` and whose trailing blanks
      start at `n`, with `a < n`, strips to the text between them. */
  lemma StripBetween(s: string, a: nat, n: nat)
    requires a < n <= |s| && LeadingSpaces(s) == a
    requires !IsSpace(s[n - 1]) && forall k :: n <= k < |s| ==> IsSpace(s[k])
    ensures Strip(s) == s[a..n]
  {
    var big := Strip(s);
    assert !AllSpace(s);
    var e := a + |big|;
    assert big[|big| - 1] == s[e - 1];
    assert forall k :: e <= k < |s| ==> IsSpace(s[k]) by {
      forall k | e <= k < |s| ensures IsSpace(s[k]) {
        assert s[k] == s[e..][k - e];
      }
    }
  }

  /** Blank text joined to blank text is blank. */
  lemma BlankJoin(x: string, y: string)
    requires AllSpace(x) && AllSpace(y)
    ensures AllSpace(x + y)
  {
    forall k | 0 <= k < |x + y| ensures IsSpace((x + y)[k]) {
      if k >= |x| {
        assert (x + y)[k] == y[k - |x|];
      }
    }
  }

  /** Text that is not blank is its leading blank, its stripped text and
      its trailing blank. */
  lemma StripParts(y: string)
    requires !AllSpace(y)
    ensures var a, r := LeadingSpaces(y), Strip(y);
            y == y[..a] + r + y[a + |r|..] && AllSpace(y[..a]) && AllSpace(y[a + |r|..])
  {
    var a, r := LeadingSpaces(y), Strip(y);
    assert y == y[..a] + y[a..a + |r|] + y[a + |r|..];
  }

  lemma Regroup(u: string, x: string, r: string, z: string, v: string)
    ensures u + (x + r + z) + v == (u + x) + r + (z + v)
  {
  }

  /** Blank text added at either end does not change the stripped text. */
  lemma StripPadded(u: string, y: string, v: string)
    requires AllSpace(u) && AllSpace(v)
    ensures Strip(u + y + v) == Strip(y)
  {
    if AllSpace(y) {
      BlankJoin(u, y);
      BlankJoin(u + y, v);
    } else {
      var a, r := LeadingSpaces(y), Strip(y);
      var x, z := y[..a], y[a + |r|..];
      StripParts(y);
      BlankJoin(u, x);
      BlankJoin(z, v);
      Regroup(u, x, r, z, v);
      StripUnique(u + x, r, z + v);
    }
  }

  // ---------------------------------------------------------------------
  // The characters of one page

  lemma {:induction false} LineEndStops(s: string, j: nat, e: nat)
    requires j <= e <= |s|
    requires forall k :: j <= k < e ==> s[k] != '\n'
    requires e == |s| || s[e] == '\n'
    ensures LineEnd(s, j) == e
    decreases e - j
  {
    if j < e {
      LineEndStops(s, j + 1, e);
    }
  }

  /** A page followed by `w` begins with the title label; its title
      follows a space and ends where the script heading's line break is. */
  lemma PieceStart(t: string, b: string, w: string)
    ensures var s, h := Piece(t, b) + w, |TitleLine| + |t|;
            |Piece(t, b)| == h + |ScriptHeading| + |b| && |s| == |Piece(t, b)| + |w|
            && OccursAt(s, PageTitleLabelText, 0) && s[|PageTitleLabelText|] == ' '
            && (forall k :: |TitleLine| <= k < h ==> s[k] == t[k - |TitleLine|])
  {
    var s := Piece(t, b) + w;
    assert s == PageTitleLabelText + (" " + t + ScriptHeading + b + w);
    assert s[..|PageTitleLabelText|] == PageTitleLabelText;
  }

  lemma ScriptHeadingChars()
    ensures |ScriptHeading| == 15
    ensures ScriptHeading[0] == '\n' && ScriptHeading[1] == '\n' && ScriptHeading[2] == '#'
            && ScriptHeading[3] == '#' && ScriptHeading[9] == '스'
    ensures forall k :: 0 <= k < 15 && k != 2 && k != 3 ==> ScriptHeading[k] != '#'
  {
    assert ScriptHeading == "\n\n## 페이지 스크립트:\n";
  }

  /** The script heading of a page followed by `w`, from where its title ends. */
  lemma PieceHeading(t: string, b: string, w: string)
    ensures var s, h := Piece(t, b) + w, |TitleLine| + |t|;
            h + |ScriptHeading| <= |s|
            && s[h] == '\n' && s[h + 1] == '\n' && s[h + 2] == '#' && s[h + 3] == '#' && s[h + 9] == '스'
  {
    var s, h := Piece(t, b) + w, |TitleLine| + |t|;
    ScriptHeadingChars();
    assert s[h] == ScriptHeading[0] && s[h + 1] == ScriptHeading[1] && s[h + 2] == ScriptHeading[2];
    assert s[h + 3] == ScriptHeading[3] && s[h + 9] == ScriptHeading[9];
  }

  /** A page followed by nothing or by a blank line holds a `#` only at its
      start and in its script heading, and the blank line holds none. */
  lemma PieceHashes(t: string, b: string, w: string)
    requires '#' !in t && '#' !in b
    requires w == [] || (|w| >= 2 && w[0] == '\n' && w[1] == '\n')
    ensures var s, h, n := Piece(t, b) + w, |TitleLine| + |t|, |Piece(t, b)|;
            var m := if w == [] then n else n + 2;
            m <= |s|
            && (forall k :: 0 < k < m && s[k] == '#' ==> k == h + 2 || k == h + 3)
            && (forall k :: n <= k < m ==> s[k] == '\n')
  {
    var s, h, n := Piece(t, b) + w, |TitleLine| + |t|, |Piece(t, b)|;
    var m := if w == [] then n else n + 2;
    ScriptHeadingChars();
    forall k | 0 < k < m ensures s[k] != '#' || k == h + 2 || k == h + 3 {
      if k < |TitleLine| {
        assert s[k] == TitleLine[k];
      } else if k < h {
        assert s[k] == t[k - |TitleLine|];
      } else if k < h + |ScriptHeading| {
        assert s[k] == ScriptHeading[k - h];
      } else if k < n {
        assert s[k] == b[k - h - |ScriptHeading|];
      } else {
        assert s[k] == w[k - n];
      }
    }
  }

  // ---------------------------------------------------------------------
  // The title of one page

  lemma LabelChars(s: string, k: nat)
    ensures OccursAt(s, PageTitleLabelText, k) ==>
              k + |PageTitleLabelText| <= |s| && s[k] == '#' && s[k + 1] == ' ' && s[k + 6] == '제'
  {
    var n := |PageTitleLabelText|;
    assert OccursAt(s, PageTitleLabelText, k) ==>
             s[k..k + n][0] == s[k] && s[k..k + n][1] == s[k + 1] && s[k..k + n][6] == s[k + 6];
  }

  /** A title that is not blank has a first non-blank character. */
  lemma LeadingSpacesOfTitle(t: string)
    requires !AllSpace(t)
    ensures LeadingSpaces(t) < |t| && !IsSpace(t[LeadingSpaces(t)])
    ensures AllSpace(t[..LeadingSpaces(t)]) && Strip(t[LeadingSpaces(t)..]) == Strip(t)
  {
    var a := LeadingSpaces(t);
    assert a == |t| ==> AllSpace(t);
    assert t == t[..a] + t[a..] + [];
    StripPadded(t[..a], t[a..], []);
  }

  /** The title label matches at the start of a page; its group is the
      title from its first non-blank character. */
  lemma PieceTitleAt(t: string, b: string, w: string)
    requires WellFormedPage(t, b)
    ensures var s, h := Piece(t, b) + w, |TitleLine| + |t|;
            TitleAt(PageTitleLabel, s, 0) == Some(Span(|TitleLine| + LeadingSpaces(t), h))
            && s[|TitleLine| + LeadingSpaces(t)..h] == t[LeadingSpaces(t)..]
  {
    var s, h, a := Piece(t, b) + w, |TitleLine| + |t|, LeadingSpaces(t);
    var g := |TitleLine| + a;
    PieceTitleChars(t, b, w);
    LabelLine(s, g, h);
  }

  /** The characters of a page's title line. */
  lemma PieceTitleChars(t: string, b: string, w: string)
    requires WellFormedPage(t, b)
    ensures var s, h, a := Piece(t, b) + w, |TitleLine| + |t|, LeadingSpaces(t);
            var g := |TitleLine| + a;
            OccursAt(s, PageTitleLabelText, 0) && g < h < |s| && s[h] == '\n'
            && (forall k :: |PageTitleLabelText| <= k < g ==> IsSpace(s[k])) && !IsSpace(s[g])
            && (forall k :: g <= k < h ==> s[k] != '\n')
            && s[g..h] == t[a..]
  {
    var s, h, a := Piece(t, b) + w, |TitleLine| + |t|, LeadingSpaces(t);
    var g := |TitleLine| + a;
    PieceStart(t, b, w);
    PieceHeading(t, b, w);
    LeadingSpacesOfTitle(t);
    assert s[g] == t[a];
    forall k | |PageTitleLabelText| <= k < g ensures IsSpace(s[k]) {
      if k > |PageTitleLabelText| {
        assert t[..a][k - |TitleLine|] == t[k - |TitleLine|];
      }
    }
    forall k | g <= k < h ensures s[k] != '\n' {
      assert t[k - |TitleLine|] in t;
    }
    assert s[g..h] == t[a..] by {
      forall k | 0 <= k < h - g ensures s[g..h][k] == t[a..][k] {
        assert s[g + k] == t[a + k];
      }
    }
  }

  /** The title label at the start of `s`, blanks up to `g` and a line
      from `g` to `h`: the match's group is that line. */
  lemma LabelLine(s: string, g: nat, h: nat)
    requires OccursAt(s, PageTitleLabelText, 0) && |PageTitleLabelText| <= g < h < |s| && s[h] == '\n'
    requires forall k :: |PageTitleLabelText| <= k < g ==> IsSpace(s[k])
    requires !IsSpace(s[g]) && forall k :: g <= k < h ==> s[k] != '\n'
    ensures TitleAt(PageTitleLabel, s, 0) == Some(Span(g, h))
  {
    SkipSpacesStops(s, |PageTitleLabelText|, g);
    LineEndStops(s, g, h);
    SpacedRestAt(s, |PageTitleLabelText|, g, g, h);
  }

  /** No title label starts between a page's title and the next page: the
      only `#` characters there open the `"## "` script heading. */
  lemma NoLabelBefore(s: string, h: nat, m: nat)
    requires h + 9 < |s| && m <= |s| && s[h + 3] == '#' && s[h + 9] == '스'
    requires forall k :: h <= k < m && s[k] == '#' ==> k == h + 2 || k == h + 3
    ensures h <= m ==> FindAllFrom(PageTitleLabel, s, h) == FindAllFrom(PageTitleLabel, s, m)
  {
    forall k | h <= k < m ensures TitleAt(PageTitleLabel, s, k).None? {
      LabelChars(s, k);
    }
    if h <= m {
      FindAllSkip(PageTitleLabel, s, h, m);
    }
  }

  /** The title label matches at position 0 with group `title` ending at
      `h`, and the only `#` characters from `h` up to `m` open a `"## "`
      heading. */
  predicate TitleThenGap(s: string, g: nat, h: nat, m: nat, title: string) {
    TitleAt(PageTitleLabel, s, 0) == Some(Span(g, h)) && g <= h <= |s| && s[g..h] == title
    && h <= m && h + 9 < |s| && m <= |s| && s[h + 3] == '#' && s[h + 9] == '스'
    && forall k :: h <= k < m && s[k] == '#' ==> k == h + 2 || k == h + 3
  }

  /** The scan from the start of a text whose first match is the title
      label at position 0 with group `title`, followed by no label up to `m`. */
  lemma TitleThenNoLabel(s: string, g: nat, h: nat, m: nat, title: string)
    requires TitleThenGap(s, g, h, m, title)
    ensures FindAllFrom(PageTitleLabel, s, 0) == [title] + FindAllFrom(PageTitleLabel, s, m)
  {
    FindAllStepAt(PageTitleLabel, s, 0, g, h);
    NoLabelBefore(s, h, m);
    ConsEqual(s[g..h], title, FindAllFrom(PageTitleLabel, s, h), FindAllFrom(PageTitleLabel, s, m));
  }

  lemma PieceLength(t: string, b: string)
    ensures |Piece(t, b)| == |TitleLine| + |t| + |ScriptHeading| + |b|
  {
  }

  /** What `TitleThenNoLabel` needs to know about a page followed by nothing
      or by a blank line. */
  lemma PieceTitleFacts(t: string, b: string, w: string)
    requires WellFormedPage(t, b)
    requires w == [] || (|w| >= 2 && w[0] == '\n' && w[1] == '\n')
    ensures var n := |Piece(t, b)|;
            TitleThenGap(Piece(t, b) + w, |TitleLine| + LeadingSpaces(t), |TitleLine| + |t|,
                         if w == [] then n else n + 2, t[LeadingSpaces(t)..])
  {
    PieceLength(t, b);
    PieceTitleAt(t, b, w);
    PieceHeading(t, b, w);
    PieceHashes(t, b, w);
  }

  /** The titles found in a page followed by nothing or by a blank line:
      the page's own title, then whatever is found after the blank line. */
  lemma PieceTitles(t: string, b: string, w: string, m: nat)
    requires WellFormedPage(t, b)
    requires w == [] || (|w| >= 2 && w[0] == '\n' && w[1] == '\n')
    requires m == if w == [] then |Piece(t, b)| else |Piece(t, b)| + 2
    ensures m <= |Piece(t, b) + w|
    ensures FindAllFrom(PageTitleLabel, Piece(t, b) + w, 0)
            == [t[LeadingSpaces(t)..]] + FindAllFrom(PageTitleLabel, Piece(t, b) + w, m)
  {
    assert TitleThenGap(Piece(t, b) + w, |TitleLine| + LeadingSpaces(t), |TitleLine| + |t|, m, t[LeadingSpaces(t)..]) by {
      PieceTitleFacts(t, b, w);
    }
    TitleThenNoLabel(Piece(t, b) + w, |TitleLine| + LeadingSpaces(t), |TitleLine| + |t|, m, t[LeadingSpaces(t)..]);
  }

  /** The title group of each page: its title from the first non-blank
      character on. */
  function TitleGroups(titles: seq<string>): (r: seq<string>)
    ensures |r| == |titles|
  {
    seq(|titles|, k requires 0 <= k < |titles| => titles[k][LeadingSpaces(titles[k])..])
  }

  lemma TitleGroupsCons(titles: seq<string>)
    requires |titles| >= 1
    ensures TitleGroups(titles) == [titles[0][LeadingSpaces(titles[0])..]] + TitleGroups(titles[1..])
  {
    var r, q := TitleGroups(titles), TitleGroups(titles[1..]);
    forall k | 1 <= k < |titles| ensures r[k] == q[k - 1] {
      assert titles[1..][k - 1] == titles[k];
    }
  }

  /** The layout of several pages is the first page, a blank line and the
      layout of the rest. */
  lemma LayoutCons(titles: seq<string>, bodies: seq<string>)
    requires |titles| == |bodies| >= 2
    ensures Layout(titles, bodies) == Piece(titles[0], bodies[0]) + ("\n\n" + Layout(titles[1..], bodies[1..]))
  {
  }

  /** `re.findall` of the title label over the layout gives every page's
      title group, in order. */
  lemma {:induction false} LayoutTitles(titles: seq<string>, bodies: seq<string>)
    requires |titles| == |bodies| >= 1
    requires forall k :: 0 <= k < |titles| ==> WellFormedPage(titles[k], bodies[k])
    ensures FindAllFrom(PageTitleLabel, Layout(titles, bodies), 0) == TitleGroups(titles)
    decreases |titles|
  {
    var t, b := titles[0], bodies[0];
    assert WellFormedPage(t, b);
    TitleGroupsCons(titles);
    var g := t[LeadingSpaces(t)..];
    if |titles| == 1 {
      var s := Piece(t, b);
      assert Piece(t, b) + [] == s;
      PieceTitles(t, b, [], |Piece(t, b)|);
      FindAllAtEnd(PageTitleLabel, s);
      ConsEqual(g, g, FindAllFrom(PageTitleLabel, s, |s|), TitleGroups(titles[1..]));
    } else {
      var rest := Layout(titles[1..], bodies[1..]);
      LayoutCons(titles, bodies);
      PieceTitles(t, b, "\n\n" + rest, |Piece(t, b)| + 2);
      var x := Piece(t, b) + "\n\n";
      assert x + rest == Piece(t, b) + ("\n\n" + rest);
      FindAllShift(x, rest);
      forall k | 0 <= k < |titles[1..]| ensures WellFormedPage(titles[1..][k], bodies[1..][k]) {
        assert titles[1..][k] == titles[k + 1] && bodies[1..][k] == bodies[k + 1];
      }
      LayoutTitles(titles[1..], bodies[1..]);
      ConsEqual(g, g, FindAllFrom(PageTitleLabel, Layout(titles, bodies), |x|), TitleGroups(titles[1..]));
    }
  }

  // ---------------------------------------------------------------------
  // The split into pages

  /** No delimiter starts in `[a, e)` when every `#` before `m` is in the
      `"##"` at `h + 2`: a delimiter needs a line break just before a
      single `#`. */
  lemma NoDelimiterInPage(s: string, a: nat, e: nat, h: nat, m: nat)
    requires a <= e <= |s| && m <= |s| && (e < m || m == |s|) && h + 3 < |s|
    requires s[h + 2] == '#' && s[h + 3] == '#'
    requires forall k :: 0 < k < m && s[k] == '#' ==> k == h + 2 || k == h + 3
    ensures SplitFrom(s, a, a) == SplitFrom(s, a, e)
  {
    forall i | a <= i < e ensures DelimiterAt(s, i).None? {
      if DelimiterAt(s, i).Some? {
        DelimiterShape(s, i);
      }
    }
    SplitSkip(s, a, a, e);
  }

  /** The split of the last page from `a` is the page from `a`. */
  lemma LastPieceSplit(t: string, b: string, a: nat)
    requires WellFormedPage(t, b) && a <= 2
    ensures SplitFrom(Piece(t, b), a, a) == [Piece(t, b)[a..]]
  {
    var s, h := Piece(t, b), |TitleLine| + |t|;
    assert s + [] == s;
    PieceLength(t, b);
    PieceHeading(t, b, []);
    PieceHashes(t, b, []);
    NoDelimiterInPage(s, a, |s|, h, |s|);
  }

  /** From `a`, the text holds no `#` except the `"##"` at `h + 2` up to
      the `"\n# "` that starts at `n + 1`. */
  predicate CutPoint(s: string, a: nat, n: nat, h: nat) {
    a <= n && n + 4 <= |s| && h + 3 < |s| && s[h + 2] == '#' && s[h + 3] == '#'
    && (forall k :: 0 < k < n + 2 && s[k] == '#' ==> k == h + 2 || k == h + 3)
    && s[n + 1] == '\n' && s[n + 2] == '#' && s[n + 3] == ' '
  }

  /** The split from `a` cuts at `n + 1` when a `"\n# "` starts there and
      every `#` before it is in the `"##"` at `h + 2`. */
  lemma CutAfterPage(s: string, a: nat, n: nat, h: nat)
    requires CutPoint(s, a, n, h)
    ensures SplitFrom(s, a, a) == [s[a..n + 1]] + SplitFrom(s, n + 4, n + 4)
  {
    NoDelimiterInPage(s, a, n + 1, h, n + 2);
    HeadingDelimiter(s, n + 1);
    SplitAtDelimiter(s, a, n + 1, n + 4);
  }

  /** A `"\n# "` is a delimiter that ends three characters on. */
  lemma HeadingDelimiter(s: string, i: nat)
    requires i + 3 <= |s| && s[i] == '\n' && s[i + 1] == '#' && s[i + 2] == ' '
    ensures DelimiterAt(s, i) == Some(i + 3)
  {
    assert s[i..i + 3] == "\n# ";
  }

  /** At a delimiter the split closes the current piece and starts anew
      after the delimiter. */
  lemma SplitAtDelimiter(s: string, a: nat, i: nat, e: nat)
    requires a <= i < |s| && DelimiterAt(s, i) == Some(e)
    ensures SplitFrom(s, a, i) == [s[a..i]] + SplitFrom(s, e, e)
  {
  }

  /** The characters of a page followed by a blank line and another page. */
  lemma PieceThenPage(t: string, b: string, rest: string, a: nat)
    requires WellFormedPage(t, b) && a <= 2
    requires |rest| >= 2 && rest[0] == '#' && rest[1] == ' '
    ensures |Piece(t, b)| >= 2
    ensures CutPoint(Piece(t, b) + "\n\n" + rest, a, |Piece(t, b)|, |TitleLine| + |t|)
    ensures (Piece(t, b) + "\n\n" + rest)[a..|Piece(t, b)| + 1] == Piece(t, b)[a..] + "\n"
  {
    var s, n := Piece(t, b) + "\n\n" + rest, |Piece(t, b)|;
    var w := "\n\n" + rest;
    assert s == Piece(t, b) + w;
    PieceLength(t, b);
    PieceHeading(t, b, w);
    PieceHashes(t, b, w);
    assert s[n + 2] == rest[0] && s[n + 3] == rest[1];
    assert s[a..n + 1] == Piece(t, b)[a..] + "\n";
  }

  /** When the cut point lies in `x` and the next piece starts two
      characters into `rest`, the split goes on as the split of `rest`. */
  lemma CutThenRest(x: string, rest: string, a: nat, n: nat, h: nat)
    requires CutPoint(x + rest, a, n, h) && n + 4 == |x| + 2
    ensures SplitFrom(x + rest, a, a) == [(x + rest)[a..n + 1]] + SplitFrom(rest, 2, 2)
  {
    CutAfterPage(x + rest, a, n, h);
    SplitShiftTo(x, rest, 2, n + 4);
  }

  lemma SplitShiftTo(x: string, r: string, a: nat, a': nat)
    requires a <= |r| && a' == |x| + a
    ensures SplitFrom(x + r, a', a') == SplitFrom(r, a, a)
  {
    SplitShift(x, r, a, a);
  }

  /** A layout begins with the `"# "` of its first title label. */
  lemma LayoutStart(titles: seq<string>, bodies: seq<string>)
    requires |titles| == |bodies| >= 1
    ensures var s := Layout(titles, bodies); |s| >= 2 && s[0] == '#' && s[1] == ' '
  {
    var s := Layout(titles, bodies);
    var w := if |titles| == 1 then [] else "\n\n" + Layout(titles[1..], bodies[1..]);
    if |titles| > 1 {
      LayoutCons(titles, bodies);
    }
    assert s == Piece(titles[0], bodies[0]) + w;
    PieceStart(titles[0], bodies[0], w);
    LabelChars(s, 0);
  }

  /** The pieces `re.split` cuts a layout into, scanning from `a`: each page
      with a line break after it, except the last, and every page but the
      first without the `"# "` the delimiter took. */
  function SplitPieces(titles: seq<string>, bodies: seq<string>, a: nat): (r: seq<string>)
    requires |titles| == |bodies| >= 1 && a <= 2
    ensures |r| == |titles|
    decreases |titles|
  {
    PieceLength(titles[0], bodies[0]);
    if |titles| == 1 then [Piece(titles[0], bodies[0])[a..]]
    else [Piece(titles[0], bodies[0])[a..] + "\n"] + SplitPieces(titles[1..], bodies[1..], 2)
  }

  /** A page followed by a blank line and further pages splits into the page
      and a line break, then the split of the further pages from just after
      their first `"# "`. */
  lemma PieceSplitRest(t: string, b: string, rest: string, a: nat)
    requires WellFormedPage(t, b) && a <= 2
    requires |rest| >= 2 && rest[0] == '#' && rest[1] == ' '
    ensures a <= |Piece(t, b)|
    ensures SplitFrom(Piece(t, b) + "\n\n" + rest, a, a) == [Piece(t, b)[a..] + "\n"] + SplitFrom(rest, 2, 2)
  {
    var x, h, n := Piece(t, b) + "\n\n", |TitleLine| + |t|, |Piece(t, b)|;
    assert CutPoint(x + rest, a, n, h) && (x + rest)[a..n + 1] == Piece(t, b)[a..] + "\n" by {
      PieceThenPage(t, b, rest, a);
    }
    CutThenRest(x, rest, a, n, h);
  }

  /** The split of a layout of several pages, scanning from `a`: the first
      page and a line break, then the split of the other pages' layout from
      just after the first `"# "`. */
  lemma LayoutSplitStep(titles: seq<string>, bodies: seq<string>, a: nat)
    requires |titles| == |bodies| >= 2 && a <= 2 && WellFormedPage(titles[0], bodies[0])
    requires a <= |Piece(titles[0], bodies[0])|
    ensures SplitFrom(Layout(titles, bodies), a, a)
            == [Piece(titles[0], bodies[0])[a..] + "\n"] + SplitFrom(Layout(titles[1..], bodies[1..]), 2, 2)
  {
    LayoutStart(titles[1..], bodies[1..]);
    PieceSplitRest(titles[0], bodies[0], Layout(titles[1..], bodies[1..]), a);
  }

  /** The split of a layout, scanning from `a`, is its pages. */
  lemma {:induction false} LayoutSplit(titles: seq<string>, bodies: seq<string>, a: nat)
    requires |titles| == |bodies| >= 1 && a <= 2
    requires forall k :: 0 <= k < |titles| ==> WellFormedPage(titles[k], bodies[k])
    ensures SplitFrom(Layout(titles, bodies), a, a) == SplitPieces(titles, bodies, a)
    decreases |titles|
  {
    var t, b := titles[0], bodies[0];
    assert WellFormedPage(t, b);
    if |titles| == 1 {
      LastPieceSplit(t, b, a);
    } else {
      PieceLength(t, b);
      LayoutSplitStep(titles, bodies, a);
      forall k | 0 <= k < |titles[1..]| ensures WellFormedPage(titles[1..][k], bodies[1..][k]) {
        assert titles[1..][k] == titles[k + 1] && bodies[1..][k] == bodies[k + 1];
      }
      LayoutSplit(titles[1..], bodies[1..], 2);
      PieceLength(t, b);
      ConsEqual(Piece(t, b)[a..] + "\n", Piece(t, b)[a..] + "\n",
                SplitFrom(Layout(titles[1..], bodies[1..]), 2, 2), SplitPieces(titles[1..], bodies[1..], 2));
    }
  }

  // ---------------------------------------------------------------------
  // The content of one page

  /** The newline the body of a content pattern starts after: the last one
      in the run of whitespace from `k`, so only whitespace lies between. */
  lemma BodyNewline(t: string, k: nat)
    requires k + 1 < |t| && t[k] == '\n'
    ensures var w := BodyNewlineAtOrBefore(t, k, SkipSpaces(t, k));
            w.Some? && AllSpace(t[k + 1..w.value + 1])
  {
    var j := SkipSpaces(t, k);
    var m := BodyNewlineAtOrBefore(t, k, j).value;
    forall i | k < i <= m ensures IsSpace(t[i]) {
      assert i < j || i == m;
    }
  }

  /** The lazy body, started after `k` in text free of `#` from there on,
      leaves only whitespace after it. */
  lemma BodyEndBlank(t: string, k: nat, u: nat)
    requires k < u <= |t| && forall i :: k < i < |t| ==> t[i] != '#'
    ensures AllSpace(t[BodyEnd(t, u)..])
  {
    NoHeadingAfter(t, k, BodyEnd(t, u));
  }

  /** Whitespace on either side of `t[m..e]` within `t[c..]` does not
      change the stripped text. */
  lemma StripMiddle(t: string, c: nat, m: nat, e: nat)
    requires c <= m <= e <= |t| && AllSpace(t[c..m]) && AllSpace(t[e..])
    ensures Strip(t[m..e]) == Strip(t[c..])
  {
    assert t[c..] == t[c..m] + t[m..e] + t[e..];
    StripPadded(t[c..m], t[m..e], t[e..]);
  }

  /** After a newline at `k` followed by more text free of `#`, the lazy
      body of the content patterns runs to the end (or to a final newline),
      and stripped it is that whole text stripped. */
  lemma BodyToEnd(t: string, k: nat)
    requires k + 1 < |t| && t[k] == '\n'
    requires forall i :: k < i < |t| ==> t[i] != '#'
    ensures BodyAfter(t, k).Some?
    ensures Strip(t[BodyAfter(t, k).value.start..BodyAfter(t, k).value.end]) == Strip(t[k + 1..])
  {
    BodyNewline(t, k);
    var m := BodyNewlineAtOrBefore(t, k, SkipSpaces(t, k)).value;
    BodyEndBlank(t, k, m + 2);
    BodyStrip(t, k, m, BodyEnd(t, m + 2));
  }

  lemma BodyStrip(t: string, k: nat, m: nat, e: nat)
    requires k <= m && m + 1 <= e <= |t| && AllSpace(t[k + 1..m + 1]) && AllSpace(t[e..])
    requires BodyAfter(t, k) == Some(Span(m + 1, e))
    ensures Strip(t[BodyAfter(t, k).value.start..BodyAfter(t, k).value.end]) == Strip(t[k + 1..])
  {
    StripMiddle(t, k + 1, m + 1, e);
  }

  /** No heading delimiter `"\n# "` starts after `k` in text whose
      characters after `k` are not `#`. */
  lemma NoHeadingAfter(t: string, k: nat, e: nat)
    requires k < e && forall i :: k < i < |t| ==> t[i] != '#'
    ensures !OccursAt(t, "\n# ", e)
  {
    if e + 3 <= |t| {
      assert t[e..e + 3][1] == t[e + 1];
    }
  }

  /** When the script label at `h` is the first `"##"` of `t` and a body
      follows it, `re.search` of the label pattern returns that body. */
  lemma LabelSearch(t: string, h: nat)
    requires h <= |t| && ContentAt(ScriptLabel, t, h).Some?
    requires forall i :: 0 <= i < h ==> !OccursAt(t, "##", i)
    ensures Search(ScriptLabel, t) == Some(t[ContentAt(ScriptLabel, t, h).value.start..ContentAt(ScriptLabel, t, h).value.end])
  {
    var r := SearchFrom(ScriptLabel, t, 0);
    assert r.Some?;
    var j :| 0 <= j <= |t| && ContentAt(ScriptLabel, t, j).Some?
             && (forall j' :: 0 <= j' < j ==> ContentAt(ScriptLabel, t, j').None?)
             && r.value == t[ContentAt(ScriptLabel, t, j).value.start..ContentAt(ScriptLabel, t, j).value.end];
    assert j == h;
  }

  /** The script label at `h`, on a line of its own, is the first `"##"`
      and no `#` follows its line: the label pattern's search finds the
      text after that line. */
  lemma LabelContent(t: string, h: nat)
    requires OccursAt(t, ScriptLabelText, h) && h + 13 < |t| && t[h + 12] == '\n'
    requires forall i :: h + 12 < i < |t| ==> t[i] != '#'
    requires forall i :: 0 <= i < h ==> !OccursAt(t, "##", i)
    ensures Search(ScriptLabel, t).Some? && Strip(Search(ScriptLabel, t).value) == Strip(t[h + 13..])
  {
    BodyToEnd(t, h + 12);
    assert ContentAt(ScriptLabel, t, h) == BodyAfter(t, h + 12);
    LabelSearch(t, h);
  }

  /** The characters of a block holding the script label after `y`, with
      the dummy heading in front. */
  lemma SectionChars(y: string, z: string)
    ensures var t, h := DummyHeading + (y + ScriptLabelText + "\n" + z), |DummyHeading| + |y|;
            OccursAt(t, ScriptLabelText, h) && h + 13 <= |t| && t[h + 12] == '\n' && t[h + 13..] == z
            && forall i :: |DummyHeading| <= i < h ==> t[i] == y[i - |DummyHeading|]
  {
    var t, h := DummyHeading + (y + ScriptLabelText + "\n" + z), |DummyHeading| + |y|;
    assert t == (DummyHeading + y) + ScriptLabelText + "\n" + z;
    assert t[h..h + 12] == ScriptLabelText;
  }

  /** No `"##"` starts before the label in such a block. */
  lemma NoSectionBeforeLabel(y: string, z: string)
    requires '#' !in y
    ensures var t := DummyHeading + (y + ScriptLabelText + "\n" + z);
            forall i :: 0 <= i < |DummyHeading| + |y| ==> !OccursAt(t, "##", i)
  {
    var block := y + ScriptLabelText + "\n" + z;
    var t, h := DummyHeading + block, |DummyHeading| + |y|;
    SectionChars(y, z);
    forall i | 0 <= i < h ensures !OccursAt(t, "##", i) {
      if i < |DummyHeading| {
        NoSectionInDummyHeading(block, i);
      } else {
        assert t[i] == y[i - |DummyHeading|];
        NoSectionAtChar(t, i);
      }
    }
  }

  /** No `"##"` starts at a character other than `#`. */
  lemma NoSectionAtChar(t: string, i: nat)
    requires i < |t| && t[i] != '#'
    ensures !OccursAt(t, "##", i)
  {
    assert i + 2 > |t| || t[i..i + 2][0] == t[i];
  }

  /** The label line of such a block is followed by `z` and nothing else. */
  lemma TextAfterLabel(y: string, z: string)
    requires '#' !in z && z != []
    ensures var t, h := DummyHeading + (y + ScriptLabelText + "\n" + z), |DummyHeading| + |y|;
            OccursAt(t, ScriptLabelText, h) && h + 13 < |t| && t[h + 12] == '\n' && t[h + 13..] == z
            && forall i :: h + 12 < i < |t| ==> t[i] != '#'
  {
    var t, h := DummyHeading + (y + ScriptLabelText + "\n" + z), |DummyHeading| + |y|;
    SectionChars(y, z);
    forall i | h + 12 < i < |t| ensures t[i] != '#' {
      assert t[i] == t[h + 13..][i - h - 13];
    }
  }

  /** The first content pattern finding text that is not blank once
      stripped decides the content. */
  lemma LabelDecides(block: string, c: string, z: string)
    requires Search(ScriptLabel, DummyHeading + block) == Some(c)
    requires Strip(c) == Strip(z) && !AllSpace(z)
    ensures BlockContent(block) == Strip(z)
  {
    ContentFromFirstMatch(block, 0, c);
  }

  /** A block made of text `y` without `#`, the script label on a line of
      its own and then text `z` without `#` that is not blank has the
      stripped `z` as its content. */
  lemma SectionContent(y: string, z: string)
    requires '#' !in y && '#' !in z && !AllSpace(z)
    ensures BlockContent(y + ScriptLabelText + "\n" + z) == Strip(z)
  {
    var block := y + ScriptLabelText + "\n" + z;
    var t, h := DummyHeading + block, |DummyHeading| + |y|;
    TextAfterLabel(y, z);
    NoSectionBeforeLabel(y, z);
    LabelContent(t, h);
    LabelDecides(block, Search(ScriptLabel, t).value, z);
  }

  // ---------------------------------------------------------------------
  // The blocks of the layout

  /** The line break the split leaves after page `k` of `n`: the newline
      before the next page's `"# "`, and none after the last page. */
  function PageEnd(n: nat, k: nat): (r: string)
    ensures r == "" || r == "\n"
    ensures r == "\n" <==> k + 1 < n
  {
    if k + 1 < n then "\n" else ""
  }

  /** Piece `k` of the split: page `k`, without its leading `"# "` after the
      first page, followed by its line break. */
  lemma {:induction false} SplitPiecesAt(titles: seq<string>, bodies: seq<string>, a: nat, k: nat)
    requires |titles| == |bodies| >= 1 && a <= 2 && k < |titles|
    ensures var c := if k == 0 then a else 2;
            c <= |Piece(titles[k], bodies[k])|
            && SplitPieces(titles, bodies, a)[k] == Piece(titles[k], bodies[k])[c..] + PageEnd(|titles|, k)
    decreases k
  {
    PieceLength(titles[k], bodies[k]);
    if k > 0 {
      SplitPiecesAt(titles[1..], bodies[1..], 2, k - 1);
      assert titles[1..][k - 1] == titles[k] && bodies[1..][k - 1] == bodies[k];
    } else if |titles| > 1 {
      assert SplitPieces(titles, bodies, a)[0] == Piece(titles[0], bodies[0])[a..] + "\n";
    }
  }

  /** Line 117 on a heading block whose first newline is at `h`: the block
      from the next line on. */
  lemma DropHeadingAt(s: string, h: nat)
    requires IsHeadingBlock(s) && h < |s| && s[h] == '\n'
    requires forall k :: 0 <= k < h ==> s[k] != '\n'
    ensures DropHeadingLine(s) == s[h + 1..]
  {
    var r := DropHeadingLine(s);
    var c := |s| - |r| - 1;
    assert s[h] in s;
    assert forall k :: 0 <= k < c ==> s[..c][k] == s[k];
    assert c == h;
  }

  /** The characters of the first page of the layout. */
  lemma FirstPageChars(t: string, b: string, sep: string)
    requires '\n' !in t
    ensures var s, h := Piece(t, b) + sep, |TitleLine| + |t|;
            IsHeadingBlock(s) && h < |s| && s[h] == '\n'
            && (forall k :: 0 <= k < h ==> s[k] != '\n')
            && s[h + 1..] == "\n" + ScriptLabelText + "\n" + (b + sep)
  {
    var s, h := Piece(t, b) + sep, |TitleLine| + |t|;
    PieceStart(t, b, sep);
    PieceHeading(t, b, sep);
    LabelChars(s, 0);
    assert s[..2] == "# ";
    assert '\n' !in TitleLine;
    forall k | 0 <= k < h ensures s[k] != '\n' {
      if k < |TitleLine| {
        assert s[k] == TitleLine[k];
      } else {
        assert t[k - |TitleLine|] in t;
      }
    }
    assert s == (TitleLine + t + "\n") + ("\n" + ScriptLabelText + "\n" + (b + sep));
  }

  /** A script followed by its line break reads as the script: `#`-free,
      not blank, and the same once stripped. */
  lemma ScriptWithEnd(b: string, sep: string)
    requires '#' !in b && !AllSpace(b) && (sep == "" || sep == "\n")
    ensures '#' !in b + sep && !AllSpace(b + sep) && Strip(b + sep) == Strip(b)
  {
    assert [] + b + sep == b + sep;
    StripPadded([], b, sep);
    var i :| 0 <= i < |b| && !IsSpace(b[i]);
    assert (b + sep)[i] == b[i];
  }

  /** Line 117 on the first page of the layout cuts its title line. */
  lemma FirstPageTrimmed(t: string, b: string, sep: string)
    requires '\n' !in t
    ensures DropHeadingLine(Piece(t, b) + sep) == "\n" + ScriptLabelText + "\n" + (b + sep)
  {
    var s, h := Piece(t, b) + sep, |TitleLine| + |t|;
    FirstPageChars(t, b, sep);
    DropHeadingAt(s, h);
  }

  /** A block that opens with a newline and the script label is not a
      leading fragment: stripped, it begins with `#`. */
  lemma SectionBlockKept(z: string)
    ensures !IsLeadingFragment("\n" + ScriptLabelText + "\n" + z)
  {
    var r := "\n" + ScriptLabelText + "\n" + z;
    assert r[0] == '\n' && r[1] == '#';
    assert SkipSpaces(r, 1) == 1;
    assert LeadingSpaces(r) == 1;
  }

  /** The first block of the layout: the split keeps the first page whole,
      line 117 cuts its title line, and what remains begins with the
      script heading, so it is kept and its content is the page's script. */
  lemma FirstPageBlock(t: string, b: string, sep: string)
    requires WellFormedPage(t, b) && (sep == "" || sep == "\n")
    ensures !IsLeadingFragment(DropHeadingLine(Piece(t, b) + sep))
    ensures BlockContent(DropHeadingLine(Piece(t, b) + sep)) == Strip(b)
  {
    FirstPageTrimmed(t, b, sep);
    SectionBlockKept(b + sep);
    ScriptWithEnd(b, sep);
    SectionContent("\n", b + sep);
  }

  /** Every later block of the layout is its page without the leading
      `"# "`, and its content is the page's script. */
  lemma LaterPageBlock(t: string, b: string, sep: string)
    requires WellFormedPage(t, b) && (sep == "" || sep == "\n")
    ensures |Piece(t, b)| >= 2 && BlockContent(Piece(t, b)[2..] + sep) == Strip(b)
  {
    LaterPieceChars(t, b, sep);
    ScriptWithEnd(b, sep);
    SectionContent(TitleLine[2..] + t + "\n\n", b + sep);
  }

  /** A later page without its leading `"# "`: the rest of the title line,
      free of `#`, then the script section. */
  lemma LaterPieceChars(t: string, b: string, sep: string)
    requires '#' !in t
    ensures |Piece(t, b)| >= 2 && '#' !in TitleLine[2..] + t + "\n\n"
    ensures Piece(t, b)[2..] + sep == TitleLine[2..] + t + "\n\n" + ScriptLabelText + "\n" + (b + sep)
  {
    assert '#' !in TitleLine[2..];
  }

  /** The first piece of a layout is kept as a block, trimmed of its title
      line, and every later piece is kept as it is. */
  lemma LayoutBlocksKept(s: string, titles: seq<string>, bodies: seq<string>)
    requires |titles| == |bodies| >= 1 && WellFormedPage(titles[0], bodies[0])
    requires SplitPages(s) == SplitPieces(titles, bodies, 0)
    ensures |PageBlocks(s)| == |titles| && BlockContent(PageBlocks(s)[0]) == Strip(bodies[0])
    ensures forall k :: 1 <= k < |titles| ==> PageBlocks(s)[k] == SplitPages(s)[k]
  {
    var n, pieces := |titles|, SplitPages(s);
    SplitPiecesAt(titles, bodies, 0, 0);
    assert pieces[0] == Piece(titles[0], bodies[0]) + PageEnd(n, 0);
    FirstPageBlock(titles[0], bodies[0], PageEnd(n, 0));
    var blocks := PageBlocks(s);
    assert blocks[1..] == pieces[1..];
    forall k | 1 <= k < n ensures blocks[k] == pieces[k] {
      assert blocks[k] == blocks[1..][k - 1];
    }
  }

  /** Every later piece of a layout gives its page's stripped script. */
  lemma LaterPieceContent(titles: seq<string>, bodies: seq<string>, k: nat)
    requires |titles| == |bodies| && 1 <= k < |titles| && WellFormedPage(titles[k], bodies[k])
    ensures BlockContent(SplitPieces(titles, bodies, 0)[k]) == Strip(bodies[k])
  {
    SplitPiecesAt(titles, bodies, 0, k);
    LaterPageBlock(titles[k], bodies[k], PageEnd(|titles|, k));
  }

  /** A script that splits into the pieces of well-formed pages has those
      pages as its blocks, every one kept, and each gives its page's
      stripped script as content. */
  lemma PieceBlockContents(s: string, titles: seq<string>, bodies: seq<string>)
    requires |titles| == |bodies| >= 1
    requires forall k :: 0 <= k < |titles| ==> WellFormedPage(titles[k], bodies[k])
    requires SplitPages(s) == SplitPieces(titles, bodies, 0)
    ensures |BlockContents(PageBlocks(s))| == |titles|
    ensures forall k :: 0 <= k < |titles| ==> BlockContents(PageBlocks(s))[k] == Strip(bodies[k])
  {
    var blocks := PageBlocks(s);
    LayoutBlocksKept(s, titles, bodies);
    var contents := BlockContents(blocks);
    forall k | 0 <= k < |titles| ensures contents[k] == Strip(bodies[k]) {
      if k >= 1 {
        LaterPieceContent(titles, bodies, k);
      }
    }
  }

  /** When the title label matches at all, its matches are the titles:
      the fallback patterns are not tried. */
  lemma LabelTitlesChosen(s: string)
    requires FindAll(PageTitleLabel, s) != []
    ensures Titles(s) == FindAll(PageTitleLabel, s)
  {
    var results := TitleMatches(s);
    assert results[0] == FindAll(PageTitleLabel, s);
  }

  /** The title groups of non-blank titles strip to the stripped titles. */
  lemma StripTitleGroups(titles: seq<string>)
    requires forall k :: 0 <= k < |titles| ==> !AllSpace(titles[k])
    ensures forall k :: 0 <= k < |titles| ==> Strip(TitleGroups(titles)[k]) == Strip(titles[k])
  {
    forall k | 0 <= k < |titles| ensures Strip(TitleGroups(titles)[k]) == Strip(titles[k]) {
      LeadingSpacesOfTitle(titles[k]);
    }
  }

  /** As many candidate pages as requested come back unrepaired. */
  lemma ExactCountResolves(s: string, n: nat)
    requires |CandidatePages(s)| == n
    ensures Resolve(s, n) == CandidatePages(s)
  {
  }

  /** The candidate pages of a script whose title-label matches are
      non-empty pair those matches with the contents of its blocks. */
  lemma LabelCandidates(s: string, groups: seq<string>, contents: seq<string>)
    requires FindAllFrom(PageTitleLabel, s, 0) == groups != []
    requires BlockContents(PageBlocks(s)) == contents
    ensures CandidatePages(s) == TitledPages(groups, contents)
  {
    LabelTitlesChosen(s);
  }

  /** Pairing the title groups with the stripped scripts gives the pages. */
  lemma GroupPages(titles: seq<string>, bodies: seq<string>, contents: seq<string>)
    requires |titles| == |bodies| == |contents|
    requires forall k :: 0 <= k < |titles| ==> !AllSpace(titles[k])
    requires forall k :: 0 <= k < |titles| ==> contents[k] == Strip(bodies[k])
    ensures TitledPages(TitleGroups(titles), contents)
            == seq(|titles|, k requires 0 <= k < |titles| => Page(Strip(titles[k]), Strip(bodies[k])))
  {
    StripTitleGroups(titles);
  }

  /** A script whose title-label matches are `groups` and whose blocks
      give as many contents resolves, at that page count, to the groups
      paired with the contents. */
  lemma LabelPagesResolve(s: string, groups: seq<string>, contents: seq<string>)
    requires FindAllFrom(PageTitleLabel, s, 0) == groups != []
    requires BlockContents(PageBlocks(s)) == contents && |contents| == |groups|
    ensures Resolve(s, |groups|) == TitledPages(groups, contents)
  {
    LabelCandidates(s, groups, contents);
    ExactCountResolves(s, |groups|);
  }

  /** A script whose title-label matches are the given titles' groups and
      whose blocks give the given scripts, stripped, resolves at that page
      count to those pages. */
  lemma MatchedPagesResolve(s: string, titles: seq<string>, bodies: seq<string>, contents: seq<string>)
    requires |titles| == |bodies| == |contents| >= 1
    requires forall k :: 0 <= k < |titles| ==> !AllSpace(titles[k])
    requires forall k :: 0 <= k < |titles| ==> contents[k] == Strip(bodies[k])
    requires FindAllFrom(PageTitleLabel, s, 0) == TitleGroups(titles)
    requires BlockContents(PageBlocks(s)) == contents
    ensures Resolve(s, |titles|)
            == seq(|titles|, k requires 0 <= k < |titles| => Page(Strip(titles[k]), Strip(bodies[k])))
  {
    LabelPagesResolve(s, TitleGroups(titles), contents);
    GroupPages(titles, bodies, contents);
  }

  /** A script written in the requested layout, with as many pages as
      requested, resolves to exactly its pages: each title and script
      stripped, in order, with no repair. */
  lemma LayoutResolves(titles: seq<string>, bodies: seq<string>)
    requires |titles| == |bodies| >= 1
    requires forall k :: 0 <= k < |titles| ==> WellFormedPage(titles[k], bodies[k])
    ensures Resolve(Layout(titles, bodies), |titles|)
            == seq(|titles|, k requires 0 <= k < |titles| => Page(Strip(titles[k]), Strip(bodies[k])))
  {
    var s := Layout(titles, bodies);
    LayoutTitles(titles, bodies);
    LayoutSplit(titles, bodies, 0);
    PieceBlockContents(s, titles, bodies);
    MatchedPagesResolve(s, titles, bodies, BlockContents(PageBlocks(s)));
  }
}
