/**
 * Character and string helpers that stand in for the Python string methods and
 * regular expressions used by the heading heuristics. Only ASCII is modelled:
 * whitespace is what `str.isspace` accepts below 0x80, digits are '0'..'9',
 * cased letters are 'A'..'Z' and 'a'..'z'.
 */
module Text {

  predicate IsSpace(c: char) {
    c == ' ' || ('\t' <= c <= '\r') || ('\U{1C}' <= c <= '\U{1F}')
  }

  predicate IsDigit(c: char) { '0' <= c <= '9' }

  predicate IsUpper(c: char) { 'A' <= c <= 'Z' }

  predicate IsLower(c: char) { 'a' <= c <= 'z' }

  predicate AllSpace(s: string) {
    forall k :: 0 <= k < |s| ==> IsSpace(s[k])
  }

  function LowerChar(c: char): (d: char)
    ensures IsUpper(c) ==> IsLower(d)
    ensures !IsUpper(c) ==> d == c
  {
    if IsUpper(c) then (c as int + 32) as char else c
  }

  /** `str.lower()` on ASCII letters. */
  function ToLower(s: string): (r: string)
    ensures |r| == |s|
    ensures forall k :: 0 <= k < |s| ==> r[k] == LowerChar(s[k])
  {
    seq(|s|, k requires 0 <= k < |s| => LowerChar(s[k]))
  }

  /** Drops leading whitespace. */
  function TrimLeft(s: string): string {
    if s != [] && IsSpace(s[0]) then TrimLeft(s[1..]) else s
  }

  /** What TrimLeft leaves is a suffix of `s` that starts with a non-space; what it drops is whitespace. */
  lemma {:induction false} TrimLeftFacts(s: string)
    ensures var r := TrimLeft(s);
      && |r| <= |s| && r == s[|s| - |r|..]
      && (forall k :: 0 <= k < |s| - |r| ==> IsSpace(s[k]))
      && (r != [] ==> !IsSpace(r[0]))
  {
    if s != [] && IsSpace(s[0]) {
      var t := s[1..];
      var r := TrimLeft(t);
      TrimLeftFacts(t);
      assert t[|t| - |r|..] == s[|s| - |r|..];
      forall k | 0 <= k < |s| - |r| ensures IsSpace(s[k]) {
        if k > 0 {
          assert s[k] == t[k - 1];
        }
      }
    }
  }

  /** Drops trailing whitespace. */
  function TrimRight(s: string): string {
    if s != [] && IsSpace(s[|s| - 1]) then TrimRight(s[..|s| - 1]) else s
  }

  /** What TrimRight leaves is a prefix of `s` that ends with a non-space; what it drops is whitespace. */
  lemma {:induction false} TrimRightFacts(s: string)
    ensures var r := TrimRight(s);
      && |r| <= |s| && r == s[..|r|]
      && (forall k :: |r| <= k < |s| ==> IsSpace(s[k]))
      && (r != [] ==> !IsSpace(r[|r| - 1]))
  {
    if s != [] && IsSpace(s[|s| - 1]) {
      var t := s[..|s| - 1];
      var r := TrimRight(t);
      TrimRightFacts(t);
      assert t[..|r|] == s[..|r|];
      forall k | |r| <= k < |s| ensures IsSpace(s[k]) {
        if k < |t| {
          assert s[k] == t[k];
        }
      }
    }
  }

  /** Non-empty, with no whitespace at either end. */
  predicate Trimmed(t: string) {
    t != [] && !IsSpace(t[0]) && !IsSpace(t[|t| - 1])
  }

  /**
   * `str.strip()`: the slice of `s` left once the whitespace at both ends is
   * cut off; empty exactly when `s` is all whitespace, otherwise Trimmed.
   */
  function Strip(s: string): (r: string)
    ensures exists a, b :: 0 <= a <= b <= |s| && r == s[a..b] && AllSpace(s[..a]) && AllSpace(s[b..])
    ensures r == [] <==> AllSpace(s)
    ensures r != [] ==> Trimmed(r)
  {
    var l := TrimLeft(s);
    TrimLeftFacts(s);
    var r := TrimRight(l);
    TrimRightFacts(l);
    assert r != [] ==> r[0] == l[0];
    assert l != [] ==> r != [];
    var a := |s| - |l|;
    assert r == s[a..a + |r|];
    var tail := s[a + |r|..];
    assert AllSpace(tail) by {
      forall k | 0 <= k < |tail| ensures IsSpace(tail[k]) {
        assert tail[k] == l[|r| + k];
      }
    }
    r
  }

  /** `sep.join(parts)` with a single space as separator. */
  function JoinSpace(parts: seq<string>): (r: string)
    ensures parts == [] ==> r == []
    ensures |parts| == 1 ==> r == parts[0]
  {
    if |parts| <= 1 then (if parts == [] then [] else parts[0])
    else JoinSpace(parts[..|parts| - 1]) + " " + parts[|parts| - 1]
  }

  /** `"".join(parts)`. */
  function Concat(parts: seq<string>): string {
    if parts == [] then [] else Concat(parts[..|parts| - 1]) + parts[|parts| - 1]
  }

  /** `p in s` for strings. */
  predicate Contains(s: string, p: string) {
    exists i :: 0 <= i <= |s| - |p| && OccursAt(s, p, i)
  }

  predicate OccursAt(s: string, p: string, i: nat)
    requires i <= |s| - |p|
  {
    s[i..i + |p|] == p
  }

  /** `s.startswith(p)`. */
  predicate StartsWith(s: string, p: string) {
    |p| <= |s| && s[..|p|] == p
  }

  /** Whether a word of `s.split()` begins at position `k`. */
  predicate WordStartsAt(s: string, k: int)
    requires 0 <= k < |s|
  {
    !IsSpace(s[k]) && (k == 0 || IsSpace(s[k - 1]))
  }

  /** The positions of `s` where a word of `s.split()` begins. */
  function WordStarts(s: string): set<int> {
    set k | 0 <= k < |s| && WordStartsAt(s, k)
  }

  /** The word starts of `s` are those of `s` without its last character, plus that character if a word starts there. */
  lemma WordStartsSnoc(s: string)
    requires s != []
    ensures |WordStarts(s)| == |WordStarts(s[..|s| - 1])| + (if WordStartsAt(s, |s| - 1) then 1 else 0)
  {
    var init := s[..|s| - 1];
    var last: set<int> := if WordStartsAt(s, |s| - 1) then {|s| - 1} else {};
    assert WordStarts(s) == WordStarts(init) + last;
  }

  /**
   * `len(s.split())`: the number of maximal runs of non-whitespace,
   * counted as the positions where such a run begins.
   */
  function WordCount(s: string): (n: nat)
    ensures n == |WordStarts(s)|
    ensures n <= |s|
    ensures n == 0 <==> AllSpace(s)
  {
    if s == [] then 0
    else
      var init := s[..|s| - 1];
      var prior := WordCount(init);
      assert forall k :: 0 <= k < |init| ==> init[k] == s[k];
      WordStartsSnoc(s);
      prior + (if WordStartsAt(s, |s| - 1) then 1 else 0)
  }

  /** `str.isupper()`: some cased character and no lower-case one. */
  predicate IsAllCaps(s: string) {
    (exists k :: 0 <= k < |s| && IsUpper(s[k])) && !(exists k :: 0 <= k < |s| && IsLower(s[k]))
  }

  /** `re.match(r'^\d', s)`. */
  predicate StartsWithDigit(s: string) {
    s != [] && IsDigit(s[0])
  }

  // ---------------------------------------------------------------------------
  // The citation pattern \[[A-Z]+[0-9]{2,}\] searched anywhere in the text.

  /** Length of the longest run of characters satisfying `p` that starts at `i`. */
  function RunLength(s: string, i: nat, p: char -> bool): (n: nat)
    requires i <= |s|
    ensures i + n <= |s|
    ensures forall k :: i <= k < i + n ==> p(s[k])
    ensures i + n < |s| ==> !p(s[i + n])
    decreases |s| - i
  {
    if i < |s| && p(s[i]) then 1 + RunLength(s, i + 1, p) else 0
  }

  /** The scanner's test: a citation opens at `i`. */
  predicate CitationAt(s: string, i: nat)
    requires i < |s|
  {
    && s[i] == '['
    && var j := i + 1 + RunLength(s, i + 1, IsUpper);
    && j > i + 1
    && var k := j + RunLength(s, j, IsDigit);
    && k >= j + 2 && k < |s| && s[k] == ']'
  }

  /** `re.search(r'\[[A-Z]+[0-9]{2,}\]', s) is not None`, as a scan. */
  predicate HasCitation(s: string) {
    exists i :: 0 <= i < |s| && CitationAt(s, i)
  }

  /** The pattern's meaning: '[' at i, upper-case letters on (i, j), two or more digits on [j, k), ']' at k. */
  predicate CitationSpan(s: string, i: int, j: int, k: int) {
    && 0 <= i && i + 1 < j && j + 2 <= k < |s|
    && s[i] == '[' && s[k] == ']'
    && (forall m :: i < m < j ==> IsUpper(s[m]))
    && (forall m :: j <= m < k ==> IsDigit(s[m]))
  }

  /** A run of `p` that covers [a, b) and stops at b has length b - a. */
  lemma {:induction false} RunLengthExact(s: string, a: nat, b: nat, p: char -> bool)
    requires a <= b <= |s|
    requires forall m :: a <= m < b ==> p(s[m])
    requires b < |s| ==> !p(s[b])
    ensures RunLength(s, a, p) == b - a
    decreases b - a
  {
    if a < b {
      RunLengthExact(s, a + 1, b, p);
    }
  }

  /** Where the scanner accepts, the pattern holds, with the runs the scanner measured. */
  lemma CitationAtSpan(s: string, i: nat)
    requires i < |s| && CitationAt(s, i)
    ensures CitationSpan(s, i, i + 1 + RunLength(s, i + 1, IsUpper),
                         i + 1 + RunLength(s, i + 1, IsUpper) + RunLength(s, i + 1 + RunLength(s, i + 1, IsUpper), IsDigit))
  {
  }

  /** Where the pattern holds, the scanner accepts at the same '['. */
  lemma SpanCitationAt(s: string, i: int, j: int, k: int)
    requires CitationSpan(s, i, j, k)
    ensures CitationAt(s, i)
  {
    RunLengthExact(s, i + 1, j, IsUpper);
    RunLengthExact(s, j, k, IsDigit);
  }

  /** The scanner finds a citation exactly when the text holds a span the pattern describes. */
  lemma HasCitationIff(s: string)
    ensures HasCitation(s) <==> exists i, j, k :: CitationSpan(s, i, j, k)
  {
    if HasCitation(s) {
      var i :| 0 <= i < |s| && CitationAt(s, i);
      CitationAtSpan(s, i);
    }
    if exists i, j, k :: CitationSpan(s, i, j, k) {
      var i, j, k :| CitationSpan(s, i, j, k);
      SpanCitationAt(s, i, j, k);
    }
  }

  // ---------------------------------------------------------------------------
  // The numbering pattern ^\d+(\.\d+)*\s|[A-Z]\s matched at the start of the text.

  /** A non-empty string of the form \d+(\.\d+)*: digits, each '.' followed by a digit. */
  predicate IsDottedNumber(s: string) {
    && |s| > 0 && IsDigit(s[0])
    && forall m {:trigger s[m]} :: 0 <= m < |s| ==> IsDigit(s[m]) || (s[m] == '.' && m + 1 < |s| && IsDigit(s[m + 1]))
  }

  /** `re.match(r'^\d+(\.\d+)*\s|[A-Z]\s', s) is not None`. */
  predicate HasNumbering(s: string) {
    || (exists k :: 1 <= k < |s| && IsDottedNumber(s[..k]) && IsSpace(s[k]))
    || (|s| >= 2 && IsUpper(s[0]) && IsSpace(s[1]))
  }
}
