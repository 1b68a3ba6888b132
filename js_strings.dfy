/**
 * The JavaScript string operations the core relies on: `toLowerCase` (ASCII
 * letters only), `includes`, `startsWith`, `trim`, and the decimal rendering
 * of a non-negative integer in a template literal.
 */
module JsStrings {

  /** `String.prototype.toLowerCase`, restricted to the ASCII letters A-Z. */
  function LowerChar(c: char): (r: char)
    ensures 'A' <= c <= 'Z' ==> r as int == c as int + 32
    ensures !('A' <= c <= 'Z') ==> r == c
  {
    if 'A' <= c <= 'Z' then (c as int + 32) as char else c
  }

  function Lower(s: string): (r: string)
    ensures |r| == |s|
    ensures forall i :: 0 <= i < |s| ==> r[i] == LowerChar(s[i])
  {
    if s == [] then [] else [LowerChar(s[0])] + Lower(s[1..])
  }

  /** Lowercasing twice is lowercasing once. */
  lemma LowerIdempotent(s: string)
    ensures Lower(Lower(s)) == Lower(s)
  {
  }

  /** `s.startsWith(p)`. */
  predicate StartsWith(s: string, p: string) {
    |p| <= |s| && s[..|p|] == p
  }

  /** `s.includes(p)`: `p` occurs in `s` at some position. */
  predicate Includes(s: string, p: string)
    decreases |s|
  {
    |p| <= |s| && (StartsWith(s, p) || (|s| > 0 && Includes(s[1..], p)))
  }

  lemma {:induction false} IncludesWitness(s: string, p: string)
    requires Includes(s, p)
    ensures exists k :: 0 <= k <= |s| - |p| && s[k..][..|p|] == p
    decreases |s|
  {
    if StartsWith(s, p) {
      assert s[0..] == s;
    } else {
      IncludesWitness(s[1..], p);
      var k :| 0 <= k <= |s[1..]| - |p| && s[1..][k..][..|p|] == p;
      assert s[k + 1..] == s[1..][k..];
    }
  }

  lemma {:induction false} WitnessIncludes(s: string, p: string, k: nat)
    requires k <= |s| - |p| && s[k..][..|p|] == p
    ensures Includes(s, p)
    decreases k
  {
    if k == 0 {
      assert s[0..] == s;
    } else {
      assert s[1..][k - 1..] == s[k..];
      WitnessIncludes(s[1..], p, k - 1);
    }
  }

  /** `includes` holds exactly when `p` occurs as a slice of `s` at some index `k`. */
  lemma IncludesAt(s: string, p: string)
    ensures Includes(s, p) <==> exists k :: 0 <= k <= |s| - |p| && s[k..][..|p|] == p
  {
    if Includes(s, p) {
      IncludesWitness(s, p);
    }
    if exists k :: 0 <= k <= |s| - |p| && s[k..][..|p|] == p {
      var k :| 0 <= k <= |s| - |p| && s[k..][..|p|] == p;
      WitnessIncludes(s, p, k);
    }
  }

  /** The empty string occurs in every string. */
  lemma IncludesEmpty(s: string)
    ensures Includes(s, "")
  {
  }

  /**
   * The characters `String.prototype.trim` removes: the ECMAScript WhiteSpace
   * and LineTerminator code points.
   */
  predicate IsJsWhitespace(c: char) {
    var n := c as int;
    n == 0x09 || n == 0x0A || n == 0x0B || n == 0x0C || n == 0x0D || n == 0x20 ||
    n == 0xA0 || n == 0x1680 || (0x2000 <= n <= 0x200A) || n == 0x2028 || n == 0x2029 ||
    n == 0x202F || n == 0x205F || n == 0x3000 || n == 0xFEFF
  }

  predicate AllWhitespace(s: string) {
    forall i :: 0 <= i < |s| ==> IsJsWhitespace(s[i])
  }

  /** The number of whitespace characters `trim` cuts from the front of `s`. */
  function LeadingWhitespace(s: string): (i: nat)
    ensures i <= |s| && AllWhitespace(s[..i])
    ensures i < |s| ==> !IsJsWhitespace(s[i])
  {
    if s != [] && IsJsWhitespace(s[0]) then
      var k := LeadingWhitespace(s[1..]);
      assert s[..k + 1] == [s[0]] + s[1..][..k];
      k + 1
    else 0
  }

  /** The index at which the trailing whitespace of `s` starts. */
  function TrailingStart(s: string): (j: nat)
    ensures j <= |s| && AllWhitespace(s[j..])
    ensures j > 0 ==> !IsJsWhitespace(s[j - 1])
  {
    if s != [] && IsJsWhitespace(s[|s| - 1]) then
      var k := TrailingStart(s[..|s| - 1]);
      assert s[k..] == s[..|s| - 1][k..] + [s[|s| - 1]];
      k
    else |s|
  }

  /** `String.prototype.trim`. */
  function Trim(s: string): string {
    var j := TrailingStart(s);
    var i := LeadingWhitespace(s[..j]);
    s[i..j]
  }

  /**
   * `trim` removes whitespace from both ends and nothing else: the result is a
   * slice of the input with only whitespace cut away on either side, and it
   * neither starts nor ends with whitespace.
   */
  lemma TrimSpec(s: string)
    ensures exists i, j :: 0 <= i <= j <= |s| && Trim(s) == s[i..j]
                           && AllWhitespace(s[..i]) && AllWhitespace(s[j..])
    ensures Trim(s) != [] ==> !IsJsWhitespace(Trim(s)[0])
    ensures Trim(s) != [] ==> !IsJsWhitespace(Trim(s)[|Trim(s)| - 1])
  {
    var j := TrailingStart(s);
    var i := LeadingWhitespace(s[..j]);
    assert s[..j][..i] == s[..i];
    assert Trim(s) == s[i..j];
    if i < j {
      assert Trim(s)[0] == s[..j][i];
      assert Trim(s)[|Trim(s)| - 1] == s[j - 1];
    }
  }

  /** The trimmed string is empty exactly when the input is whitespace only. */
  lemma TrimEmptyIff(s: string)
    ensures Trim(s) == "" <==> AllWhitespace(s)
  {
    TrimSpec(s);
    var i, j :| 0 <= i <= j <= |s| && Trim(s) == s[i..j]
                && AllWhitespace(s[..i]) && AllWhitespace(s[j..]);
    if Trim(s) == "" {
      assert i == j;
      forall k | 0 <= k < |s| ensures IsJsWhitespace(s[k]) {
        if k < i { assert s[k] == s[..i][k]; } else { assert s[k] == s[j..][k - j]; }
      }
    } else {
      assert !IsJsWhitespace(s[i]);
    }
  }

  /** A string that neither starts nor ends with whitespace is its own trim. */
  lemma TrimOfTrimmed(s: string)
    requires s == [] || (!IsJsWhitespace(s[0]) && !IsJsWhitespace(s[|s| - 1]))
    ensures Trim(s) == s
  {
  }

  /** Trimming is idempotent. */
  lemma TrimIdempotent(s: string)
    ensures Trim(Trim(s)) == Trim(s)
  {
    TrimSpec(s);
    TrimOfTrimmed(Trim(s));
  }

  predicate IsDigit(c: char) {
    '0' <= c <= '9'
  }

  predicate AllDigits(s: string) {
    forall i :: 0 <= i < |s| ==> IsDigit(s[i])
  }

  function DigitChar(d: nat): (c: char)
    requires d < 10
    ensures IsDigit(c) && c as int - '0' as int == d
  {
    ('0' as int + d) as char
  }

  /** The decimal text of a non-negative integer, as `${n}` writes it. */
  function NatToString(n: nat): (s: string)
    decreases n
  {
    if n < 10 then [DigitChar(n)] else NatToString(n / 10) + [DigitChar(n % 10)]
  }

  /** The value of a string of decimal digits. */
  function ParseDigits(s: string): nat
    requires AllDigits(s)
  {
    if s == [] then 0
    else ParseDigits(s[..|s| - 1]) * 10 + (s[|s| - 1] as int - '0' as int)
  }

  /**
   * The decimal rendering is non-empty, made of digits, has no leading zero
   * unless it is "0", and reads back as the number it renders.
   */
  lemma {:induction false} NatToStringRoundTrip(n: nat)
    ensures NatToString(n) != [] && AllDigits(NatToString(n))
    ensures (NatToString(n)[0] == '0') <==> n == 0
    ensures ParseDigits(NatToString(n)) == n
  {
    if n >= 10 {
      NatToStringRoundTrip(n / 10);
      var s := NatToString(n);
      assert s[..|s| - 1] == NatToString(n / 10);
      assert s[0] == NatToString(n / 10)[0];
    }
  }

  /** Distinct numbers render as distinct strings. */
  lemma NatToStringInjective(m: nat, n: nat)
    requires NatToString(m) == NatToString(n)
    ensures m == n
  {
    NatToStringRoundTrip(m);
    NatToStringRoundTrip(n);
  }
}
