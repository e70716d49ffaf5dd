/**
 * String operations the bot borrows from Python: substring search (`in`),
 * `str.split(sep)[0]`, `str.split(sep, 1)[1]`, and the digit runs that the
 * regular expression `/\d+/` looks for.
 */
module Strings {
  import opened Wrappers

  /** `pat` occurs in `s` starting at index `i`. */
  predicate OccursAt(s: string, pat: string, i: nat)
  {
    i + |pat| <= |s| && s[i..i + |pat|] == pat
  }

  /** Python's `pat in s`. */
  predicate Contains(s: string, pat: string)
  {
    exists i: nat | i <= |s| :: OccursAt(s, pat, i)
  }

  /** The first index at or after `from` where `pat` occurs. */
  function FindFrom(s: string, pat: string, from: nat): (r: Option<nat>)
    requires from <= |s|
    ensures r.Some? ==> from <= r.value && OccursAt(s, pat, r.value)
    ensures r.Some? ==> forall j: nat :: from <= j < r.value ==> !OccursAt(s, pat, j)
    ensures r.None? ==> forall j: nat :: from <= j ==> !OccursAt(s, pat, j)
    decreases |s| - from
  {
    if OccursAt(s, pat, from) then Some(from)
    else if from + |pat| >= |s| then None
    else FindFrom(s, pat, from + 1)
  }

  /** The first index where `pat` occurs in `s`. */
  function IndexOf(s: string, pat: string): (r: Option<nat>)
    ensures r.Some? <==> Contains(s, pat)
    ensures r.Some? ==> OccursAt(s, pat, r.value) && forall j: nat :: j < r.value ==> !OccursAt(s, pat, j)
  {
    FindFrom(s, pat, 0)
  }

  /** Python's `s.split(sep)[0]`: everything before the first `sep`, or all of `s`. */
  function Before(s: string, sep: string): (r: string)
    requires |sep| > 0
    ensures r <= s
    ensures Contains(s, sep) ==> OccursAt(s, sep, |r|)
    ensures !Contains(s, sep) ==> r == s
    ensures forall j: nat :: j + |sep| <= |r| ==> !OccursAt(r, sep, j)
    ensures forall j: nat :: j < |r| ==> !OccursAt(s, sep, j)
  {
    match IndexOf(s, sep)
    case Some(i) =>
      var r := s[..i];
      assert forall j: nat :: OccursAt(r, sep, j) ==> OccursAt(s, sep, j);
      r
    case None =>
      s
  }

  /** `s.split(sep)[0]` is the prefix of `s` that ends at the first `sep`, or all of `s`. */
  lemma BeforeIs(s: string, sep: string, n: nat)
    requires |sep| > 0 && n <= |s|
    requires OccursAt(s, sep, n) || (n == |s| && !Contains(s, sep))
    requires forall j: nat :: j < n ==> !OccursAt(s, sep, j)
    ensures Before(s, sep) == s[..n]
  {
    if OccursAt(s, sep, n) {
      assert Contains(s, sep);
    }
  }

  /** Python's `s.split(sep, 1)[1]`: everything after the first `sep`; `None` where Python raises IndexError. */
  function After(s: string, sep: string): (r: Option<string>)
    requires |sep| > 0
    ensures r.Some? <==> Contains(s, sep)
    ensures r.Some? ==> s == Before(s, sep) + sep + r.value
  {
    match IndexOf(s, sep)
    case Some(i) => Some(s[i + |sep|..])
    case None => None
  }

  /** A Markdown code fence. */
  const Fence: string := "```"

  /** The index of the first newline of `s`, or `|s|`; `s[..LineEnd(s)]` is `s.split('\n', 1)[0]`. */
  function LineEnd(s: string): (i: nat)
    ensures i <= |s| && (i < |s| ==> s[i] == '\n')
    ensures forall j :: 0 <= j < i ==> s[j] != '\n'
  {
    if s == "" || s[0] == '\n' then 0 else 1 + LineEnd(s[1..])
  }

  /** The character class `\d`, restricted to ASCII digits. */
  predicate IsDigit(c: char)
  {
    '0' <= c <= '9'
  }

  predicate AllDigits(s: string)
  {
    forall k :: 0 <= k < |s| ==> IsDigit(s[k])
  }

  /** The end of the maximal run of digits that starts at `i`. */
  function DigitRunEnd(s: string, i: nat): (r: nat)
    requires i <= |s|
    ensures i <= r <= |s|
    ensures AllDigits(s[i..r])
    ensures r == |s| || !IsDigit(s[r])
    decreases |s| - i
  {
    if i < |s| && IsDigit(s[i]) then
      var r := DigitRunEnd(s, i + 1);
      assert s[i..r] == [s[i]] + s[i + 1..r];
      r
    else i
  }

  /** The digit run from `i` ends at `j` when `[i, j)` are digits and `j` is not. */
  lemma {:induction false} DigitRunEndIs(s: string, i: nat, j: nat)
    requires i <= j <= |s| && AllDigits(s[i..j]) && (j == |s| || !IsDigit(s[j]))
    ensures DigitRunEnd(s, i) == j
    decreases j - i
  {
    if i < j {
      assert s[i] == s[i..j][0];
      assert s[i + 1..j] == s[i..j][1..];
      DigitRunEndIs(s, i + 1, j);
    }
  }

  /**
   * The regular expression `/\d+/` matches at `a`: a slash, one or more digits,
   * a slash. Because a slash is not a digit, the digits are the maximal run.
   */
  predicate SegmentAt(s: string, a: nat)
  {
    a + 1 <= |s| && s[a] == '/' &&
    var b := DigitRunEnd(s, a + 1);
    a + 1 < b < |s| && s[b] == '/'
  }

  /** The leftmost `/\d+/` match at or after `from`, as the indices of its two slashes. */
  function SegmentFrom(s: string, from: nat): (r: Option<(nat, nat)>)
    requires from <= |s|
    ensures r.Some? ==> var (a, b) := r.value;
      from <= a && SegmentAt(s, a) && b == DigitRunEnd(s, a + 1)
    ensures r.Some? ==> forall j: nat :: from <= j < r.value.0 ==> !SegmentAt(s, j)
    ensures r.None? ==> forall j: nat :: from <= j ==> !SegmentAt(s, j)
    decreases |s| - from
  {
    if from == |s| then None
    else if SegmentAt(s, from) then Some((from, DigitRunEnd(s, from + 1)))
    else SegmentFrom(s, from + 1)
  }

  /** Digits of the first `/<digits>/` segment of `s`; `None` where the regex finds nothing. */
  function FirstSegmentDigits(s: string): (r: Option<string>)
    ensures r.Some? <==> exists a: nat :: SegmentAt(s, a)
    ensures r.Some? ==> r.value != [] && AllDigits(r.value)
    ensures r.Some? ==> exists a: nat ::
      SegmentAt(s, a) && r.value == s[a + 1..DigitRunEnd(s, a + 1)] &&
      forall j: nat :: j < a ==> !SegmentAt(s, j)
  {
    match SegmentFrom(s, 0)
    case Some((a, b)) => Some(s[a + 1..b])
    case None => None
  }

  /** The first `/<digits>/` segment determines what `FirstSegmentDigits` returns. */
  lemma FirstSegmentIs(s: string, a: nat)
    requires SegmentAt(s, a) && forall j: nat :: j < a ==> !SegmentAt(s, j)
    ensures FirstSegmentDigits(s) == Some(s[a + 1..DigitRunEnd(s, a + 1)])
  {
    var r := SegmentFrom(s, 0);
    assert r.Some?;
    assert r.value.0 == a;
  }
}
