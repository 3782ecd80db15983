/**
 * The handful of Python string built-ins the script-page resolver relies on:
 * `str.strip()`, `str.find`, `in`, `str.startswith`, `str.split("\n")`,
 * `"\n".join` and `str(int)`, over strings as sequences of code points.
 */
module Text {

  /** The characters Python's `str.isspace()` accepts; `str.strip()` and the
      regex class `\s` both use exactly this set. */
  predicate IsSpace(c: char) {
    ('\t' <= c <= '\r') || ('\U{1C}' <= c <= ' ')
    || c == '\U{85}' || c == '\U{A0}' || c == '\U{1680}'
    || ('\U{2000}' <= c <= '\U{200A}')
    || c == '\U{2028}' || c == '\U{2029}' || c == '\U{202F}' || c == '\U{205F}'
    || c == '\U{3000}'
  }

  /** The ASCII decimal digits (the regex class `\d`, restricted to ASCII). */
  predicate IsDigit(c: char) {
    '0' <= c <= '9'
  }

  predicate AllSpace(s: string) {
    forall i :: 0 <= i < |s| ==> IsSpace(s[i])
  }

  /** Neither end of `s` is whitespace: what `str.strip()` leaves. */
  predicate IsStripped(s: string) {
    s == [] || (!IsSpace(s[0]) && !IsSpace(s[|s| - 1]))
  }

  predicate StartsWith(s: string, prefix: string) {
    |prefix| <= |s| && s[..|prefix|] == prefix
  }

  predicate OccursAt(s: string, pat: string, i: nat) {
    i + |pat| <= |s| && s[i..i + |pat|] == pat
  }

  /** The end of the longest run of whitespace that starts at `i` (what a
      greedy `\s*` consumes). */
  function SkipSpaces(s: string, i: nat): (e: nat)
    requires i <= |s|
    ensures i <= e <= |s|
    ensures forall j :: i <= j < e ==> IsSpace(s[j])
    ensures e == |s| || !IsSpace(s[e])
    decreases |s| - i
  {
    if i < |s| && IsSpace(s[i]) then SkipSpaces(s, i + 1) else i
  }

  /** The start of the longest run of whitespace that ends at `j`, going no
      further back than `lo`. */
  function SkipSpacesBack(s: string, lo: nat, j: nat): (b: nat)
    requires lo <= j <= |s|
    ensures lo <= b <= j
    ensures forall k :: b <= k < j ==> IsSpace(s[k])
    ensures b == lo || !IsSpace(s[b - 1])
    decreases j
  {
    if lo < j && IsSpace(s[j - 1]) then SkipSpacesBack(s, lo, j - 1) else j
  }

  /** How many whitespace characters `str.strip()` removes from the front. */
  function LeadingSpaces(s: string): (r: nat)
    ensures r <= |s|
  {
    SkipSpaces(s, 0)
  }

  /** `str.strip()`: the text between the leading and the trailing whitespace. */
  function Strip(s: string): (r: string)
    ensures IsStripped(r)
    ensures r == [] <==> AllSpace(s)
    ensures IsStripped(s) ==> r == s
    ensures LeadingSpaces(s) + |r| <= |s| && r == s[LeadingSpaces(s)..LeadingSpaces(s) + |r|]
    ensures AllSpace(s[LeadingSpaces(s) + |r|..])
  {
    var a := SkipSpaces(s, 0);
    var b := SkipSpacesBack(s, a, |s|);
    assert a < b ==> s[a..b][0] == s[a] && s[a..b][b - a - 1] == s[b - 1];
    assert a == b ==> AllSpace(s);
    s[a..b]
  }

  /** `s.find(pat)`: the first index at which `pat` occurs, or -1. */
  function IndexOf(s: string, pat: string): (r: int)
    ensures -1 <= r <= |s|
    ensures r >= 0 ==> OccursAt(s, pat, r)
    ensures forall j :: 0 <= j < |s| + 1 && (r < 0 || j < r) ==> !OccursAt(s, pat, j)
  {
    IndexFrom(s, pat, 0)
  }

  function IndexFrom(s: string, pat: string, i: nat): (r: int)
    requires i <= |s| + 1
    ensures r == -1 || i <= r <= |s|
    ensures r >= 0 ==> OccursAt(s, pat, r)
    ensures forall j :: i <= j < |s| + 1 && (r < 0 || j < r) ==> !OccursAt(s, pat, j)
    decreases |s| + 1 - i
  {
    if i + |pat| > |s| then -1
    else if s[i..i + |pat|] == pat then i
    else IndexFrom(s, pat, i + 1)
  }

  /** For a one-character pattern, `find` gives the first position holding
      that character, and -1 exactly when the character does not occur. */
  lemma IndexOfChar(s: string, c: char)
    ensures IndexOf(s, [c]) >= 0 <==> c in s
    ensures IndexOf(s, [c]) >= 0 ==> s[IndexOf(s, [c])] == c && c !in s[..IndexOf(s, [c])]
  {
    var r := IndexOf(s, [c]);
    forall j | 0 <= j < |s| && (r < 0 || j < r) ensures s[j] != c {
      assert !OccursAt(s, [c], j);
      assert s[j..j + 1] == [s[j]];
    }
    if r >= 0 {
      assert s[r..r + 1] == [c];
      assert s[r] == c;
      assert forall j :: 0 <= j < r ==> s[..r][j] == s[j];
    }
  }

  /** Python's `pat in s`. */
  predicate Contains(s: string, pat: string) {
    IndexOf(s, pat) >= 0
  }

  /** `"\n".join(lines)`. */
  function JoinLines(lines: seq<string>): string {
    if |lines| == 0 then ""
    else if |lines| == 1 then lines[0]
    else lines[0] + "\n" + JoinLines(lines[1..])
  }

  /** `s.split("\n")`: never empty, no piece holds a newline, and joining the
      pieces with newlines gives `s` back. */
  function SplitLines(s: string): (r: seq<string>)
    ensures |r| >= 1
    ensures forall k :: 0 <= k < |r| ==> '\n' !in r[k]
    ensures JoinLines(r) == s
    decreases |s|
  {
    var k := IndexOf(s, "\n");
    if k < 0 then
      assert forall j :: 0 <= j < |s| ==> s[j] != '\n' by {
        forall j | 0 <= j < |s| ensures s[j] != '\n' {
          assert !OccursAt(s, "\n", j);
          assert s[j..j + 1] == [s[j]];
        }
      }
      [s]
    else
      assert forall j :: 0 <= j < k ==> s[j] != '\n' by {
        forall j | 0 <= j < k ensures s[j] != '\n' {
          assert !OccursAt(s, "\n", j);
          assert s[j..j + 1] == [s[j]];
        }
      }
      var rest := SplitLines(s[k + 1..]);
      assert s == s[..k] + "\n" + s[k + 1..] by {
        assert s[k..k + 1] == "\n";
      }
      [s[..k]] + rest
  }

  function DigitChar(d: nat): (c: char)
    requires d < 10
    ensures IsDigit(c)
  {
    "0123456789"[d]
  }

  function DigitValue(c: char): nat
    requires IsDigit(c)
  {
    (c as int - '0' as int) as nat
  }

  /** `str(n)` for a non-negative integer: its decimal digits, most significant first. */
  function NatToString(n: nat): (r: string)
    ensures |r| >= 1
    ensures forall i :: 0 <= i < |r| ==> IsDigit(r[i])
    ensures n > 0 ==> r[0] != '0'
    ensures n < 10 <==> |r| == 1
  {
    if n < 10 then [DigitChar(n)]
    else NatToString(n / 10) + [DigitChar(n % 10)]
  }

  /** Reads a run of decimal digits back as a number (`int(s)`). */
  function ParseDigits(s: string): nat
    requires forall i :: 0 <= i < |s| ==> IsDigit(s[i])
  {
    if s == [] then 0 else ParseDigits(s[..|s| - 1]) * 10 + DigitValue(s[|s| - 1])
  }

  /** `int(str(n)) == n`: the decimal rendering loses nothing. */
  lemma {:induction false} ParseNatToString(n: nat)
    ensures ParseDigits(NatToString(n)) == n
  {
    var r := NatToString(n);
    if n < 10 {
      assert "0123456789"[n] as int - '0' as int == n;
    } else {
      ParseNatToString(n / 10);
      assert r[..|r| - 1] == NatToString(n / 10);
      assert "0123456789"[n % 10] as int - '0' as int == n % 10;
    }
  }

  /** Different numbers are rendered differently. */
  lemma NatToStringInjective(a: nat, b: nat)
    requires NatToString(a) == NatToString(b)
    ensures a == b
  {
    ParseNatToString(a);
    ParseNatToString(b);
  }
}
