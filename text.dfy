/**
 * The string operations the engine relies on: Python's `str.lower` and
 * `in` (substring), polars' `str.replace` (first match only), Python's
 * `s.split(sep)[0]`, and the decimal numerals a float parser reads.
 */
module Text {
  import opened Wrappers

  /** `str.lower` on one character: ASCII and Latin-1 capitals; everything else unchanged. */
  function LowerChar(c: char): (r: char)
    ensures 'A' <= c <= 'Z' ==> r as int == c as int + 32
    ensures !('A' <= c <= 'Z') && !('\U{C0}' <= c <= '\U{DE}') ==> r == c
  {
    if 'A' <= c <= 'Z' then (c as int + 32) as char
    else if '\U{C0}' <= c <= '\U{DE}' && c != '\U{D7}' then (c as int + 32) as char
    else c
  }

  function Lower(s: string): (r: string)
    ensures |r| == |s|
    ensures forall i :: 0 <= i < |s| ==> r[i] == LowerChar(s[i])
  {
    seq(|s|, i requires 0 <= i < |s| => LowerChar(s[i]))
  }

  /** `p` occurs in `s` starting at index `k`. */
  predicate OccursAt(s: string, p: string, k: int) {
    0 <= k && k + |p| <= |s| && s[k..k + |p|] == p
  }

  /** Python's `p in s`. */
  predicate IsSubstring(p: string, s: string) {
    exists k :: 0 <= k <= |s| && OccursAt(s, p, k)
  }

  /** The leftmost occurrence of `p` in `s` at an index of at least `k`. */
  function FindFrom(s: string, p: string, k: nat): (r: Option<nat>)
    ensures r.Some? ==> k <= r.value && OccursAt(s, p, r.value)
    ensures r.Some? ==> forall j :: k <= j < r.value ==> !OccursAt(s, p, j)
    ensures r.None? ==> forall j :: k <= j ==> !OccursAt(s, p, j)
    decreases |s| - k
  {
    if k + |p| > |s| then None
    else if s[k..k + |p|] == p then Some(k)
    else FindFrom(s, p, k + 1)
  }

  /** Python's `s.split(sep)[0]`: everything before the first `sep`, or all of `s`. */
  function SplitHead(s: string, sep: string): (r: string)
    ensures |r| <= |s| && r == s[..|r|]
  {
    match FindFrom(s, sep, 0)
    case None => s
    case Some(k) => s[..k]
  }

  /** polars `str.replace(a, b)` with a one-character literal pattern: the first `a` only. */
  function ReplaceFirst(s: string, a: char, b: char): (r: string)
    ensures |r| == |s|
    decreases |s|
  {
    if s == [] then []
    else if s[0] == a then [b] + s[1..]
    else [s[0]] + ReplaceFirst(s[1..], a, b)
  }

  /** Replacing the first `a` touches exactly the first occurrence of `a`. */
  lemma {:induction false} ReplaceFirstAt(x: string, a: char, b: char, y: string)
    requires a !in x
    ensures ReplaceFirst(x + [a] + y, a, b) == x + [b] + y
    decreases |x|
  {
    if x == [] {
      assert x + [a] + y == [a] + y;
    } else {
      assert (x + [a] + y)[1..] == x[1..] + [a] + y;
      ReplaceFirstAt(x[1..], a, b, y);
    }
  }

  /** A string with no `a` is left as it is. */
  lemma {:induction false} ReplaceFirstAbsent(s: string, a: char, b: char)
    requires a !in s
    ensures ReplaceFirst(s, a, b) == s
    decreases |s|
  {
    if s != [] {
      ReplaceFirstAbsent(s[1..], a, b);
    }
  }

  predicate IsDigit(c: char) {
    '0' <= c <= '9'
  }

  /** A non-empty run of decimal digits. */
  predicate IsDigits(s: string) {
    |s| > 0 && forall i :: 0 <= i < |s| ==> IsDigit(s[i])
  }

  function DigitsValue(s: string): nat
    requires forall i :: 0 <= i < |s| ==> IsDigit(s[i])
    decreases |s|
  {
    if s == [] then 0
    else
      assert IsDigit(s[|s| - 1]);
      DigitsValue(s[..|s| - 1]) * 10 + (s[|s| - 1] as int - '0' as int)
  }

  function Pow10(n: nat): (r: nat)
    ensures r >= 1
  {
    if n == 0 then 1 else 10 * Pow10(n - 1)
  }

  /** The numeral `[-]whole.frac`. */
  function DecimalText(negative: bool, whole: string, frac: string): string {
    (if negative then "-" else "") + whole + "." + frac
  }

  /** The value that the numeral `[-]whole.frac` denotes. */
  function DecimalValue(negative: bool, whole: string, frac: string): real
    requires IsDigits(whole) && IsDigits(frac)
  {
    var magnitude := DigitsValue(whole) as real + DigitsValue(frac) as real / Pow10(|frac|) as real;
    if negative then -magnitude else magnitude
  }

  /** A float parser reads every plain decimal numeral as the number it denotes. */
  ghost predicate ReadsDecimals(toFloat: string -> Option<real>) {
    forall negative: bool, whole: string, frac: string
      {:trigger DecimalText(negative, whole, frac)} ::
      IsDigits(whole) && IsDigits(frac) ==>
      toFloat(DecimalText(negative, whole, frac)) == Some(DecimalValue(negative, whole, frac))
  }

  /**
   * Splitting a label `code + sep + rest` at its first `sep` gives back
   * `code` exactly when no occurrence of `sep` starts inside `code`.
   */
  lemma SplitHeadPrefix(code: string, sep: string, rest: string)
    requires |sep| > 0
    ensures SplitHead(code + sep + rest, sep) == code
      <==> forall j :: 0 <= j < |code| ==> !OccursAt(code + sep + rest, sep, j)
  {
    var s := code + sep + rest;
    assert s[|code|..|code| + |sep|] == sep;
    assert OccursAt(s, sep, |code|);
    var k := FindFrom(s, sep, 0).value;
    assert k <= |code|;
    assert SplitHead(s, sep) == s[..k];
    assert s[..|code|] == code;
  }
}
