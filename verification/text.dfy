/**
 * String helpers shared by the model: Python's `str.join`, ASCII case
 * mapping, substring search and the decimal rendering of an `int` that an
 * f-string performs.
 */
module Text {

  /** Sum of the lengths of `parts`. */
  function TotalLength(parts: seq<string>): nat
  {
    if |parts| == 0 then 0 else |parts[0]| + TotalLength(parts[1..])
  }

  /** Python's `sep.join(parts)`. */
  function Join(sep: string, parts: seq<string>): (r: string)
    ensures |parts| == 0 ==> r == ""
    ensures |parts| > 0 ==> |r| == TotalLength(parts) + |sep| * (|parts| - 1)
    ensures |parts| > 0 ==> r[..|parts[0]|] == parts[0]
  {
    if |parts| == 0 then ""
    else if |parts| == 1 then parts[0]
    else parts[0] + sep + Join(sep, parts[1..])
  }

  /** The one-character strings of `s`, which is what `join` iterates over when given a string. */
  function Chars(s: string): (r: seq<string>)
    ensures |r| == |s|
    ensures forall i :: 0 <= i < |s| ==> r[i] == [s[i]]
  {
    seq(|s|, i requires 0 <= i < |s| => [s[i]])
  }

  predicate IsUpperChar(c: char) { 'A' <= c <= 'Z' }

  predicate IsLowerChar(c: char) { 'a' <= c <= 'z' }

  /** `str.lower()` on one character, restricted to ASCII letters. */
  function LowerChar(c: char): (r: char)
    ensures !IsUpperChar(r)
    ensures IsUpperChar(c) ==> IsLowerChar(r)
    ensures !IsUpperChar(c) ==> r == c
  {
    if IsUpperChar(c) then (c as int + 32) as char else c
  }

  /** `str.upper()` on one character, restricted to ASCII letters. */
  function UpperChar(c: char): (r: char)
    ensures !IsLowerChar(r)
    ensures IsLowerChar(c) ==> IsUpperChar(r)
    ensures !IsLowerChar(c) ==> r == c
  {
    if IsLowerChar(c) then (c as int - 32) as char else c
  }

  /** True when `s` holds no upper-case ASCII letter, i.e. `s.lower() == s`. */
  predicate IsLowerCase(s: string)
  {
    forall i :: 0 <= i < |s| ==> !IsUpperChar(s[i])
  }

  /** `s.lower()`: same length, each character lower-cased. */
  function Lower(s: string): (r: string)
    ensures |r| == |s|
    ensures forall i :: 0 <= i < |s| ==> r[i] == LowerChar(s[i])
    ensures IsLowerCase(r)
  {
    if |s| == 0 then "" else [LowerChar(s[0])] + Lower(s[1..])
  }

  /** Lower-casing changes nothing exactly when the string has no upper-case letter. */
  lemma LowerFixedIff(s: string)
    ensures Lower(s) == s <==> IsLowerCase(s)
  {
    if IsLowerCase(s) {
      assert forall i :: 0 <= i < |s| ==> Lower(s)[i] == s[i];
    } else {
      var i :| 0 <= i < |s| && IsUpperChar(s[i]);
      assert Lower(s)[i] != s[i];
    }
  }

  /** `t` occurs in `s` starting at offset `i`. */
  predicate OccursAt(s: string, t: string, i: int)
  {
    0 <= i && i + |t| <= |s| && s[i..i + |t|] == t
  }

  /** Python's `t in s` for strings. */
  predicate Contains(s: string, t: string)
  {
    exists i :: 0 <= i <= |s| && OccursAt(s, t, i)
  }

  lemma ContainsMiddle(a: string, t: string, b: string)
    ensures OccursAt(a + t + b, t, |a|)
    ensures Contains(a + t + b, t)
  {
    assert (a + t + b)[|a|..|a| + |t|] == t;
    assert OccursAt(a + t + b, t, |a|);
  }

  /** An occurrence survives prepending. */
  lemma OccursAfterPrefix(a: string, b: string, t: string, i: int)
    requires OccursAt(b, t, i)
    ensures OccursAt(a + b, t, |a| + i)
  {
    assert (a + b)[|a| + i..|a| + i + |t|] == b[i..i + |t|];
  }

  /** An occurrence inside an occurrence. */
  lemma OccursWithin(s: string, t: string, u: string, k: int, j: int)
    requires OccursAt(s, t, k) && OccursAt(t, u, j)
    ensures OccursAt(s, u, k + j)
  {
    forall m | 0 <= m < |u|
      ensures s[k + j + m] == u[m]
    {
      assert s[k..k + |t|][j + m] == t[j + m];
      assert t[j..j + |u|][m] == u[m];
    }
    assert s[k + j..k + j + |u|] == u;
  }

  /** Every part of a join occurs in it. */
  lemma {:induction false} JoinContainsParts(sep: string, parts: seq<string>, k: int)
    requires 0 <= k < |parts|
    ensures Contains(Join(sep, parts), parts[k])
  {
    var r := Join(sep, parts);
    if k == 0 {
      assert OccursAt(r, parts[0], 0);
    } else {
      JoinContainsParts(sep, parts[1..], k - 1);
      var i :| 0 <= i <= |Join(sep, parts[1..])| && OccursAt(Join(sep, parts[1..]), parts[k], i);
      OccursAfterPrefix(parts[0] + sep, Join(sep, parts[1..]), parts[k], i);
      assert OccursAt(r, parts[k], |parts[0] + sep| + i);
    }
  }

  /** Every substring of a lower-case string is lower-case. */
  lemma SubstringOfLowerIsLower(s: string, t: string)
    requires IsLowerCase(s)
    requires Contains(s, t)
    ensures IsLowerCase(t)
  {
    var i :| 0 <= i <= |s| && OccursAt(s, t, i);
    assert 0 <= i && i + |t| <= |s| && s[i..i + |t|] == t;
    forall k | 0 <= k < |t|
      ensures !IsUpperChar(t[k])
    {
      assert t[k] == s[i + k];
    }
  }

  function DigitChar(d: nat): (c: char)
    requires d < 10
    ensures '0' <= c <= '9'
    ensures c as int - '0' as int == d
  {
    (d + '0' as int) as char
  }

  predicate IsDigits(s: string)
  {
    forall i :: 0 <= i < |s| ==> '0' <= s[i] <= '9'
  }

  /** Decimal rendering of a natural number, as Python's `str(n)`. */
  function NatToDecimal(n: nat): (r: string)
    ensures |r| > 0 && IsDigits(r)
    ensures n > 0 ==> r[0] != '0'
    decreases n
  {
    if n < 10 then [DigitChar(n)] else NatToDecimal(n / 10) + [DigitChar(n % 10)]
  }

  /** Decimal rendering of an integer, as Python's `str(n)` (and an f-string's `{n}`). */
  function IntToDecimal(n: int): (r: string)
    ensures |r| > 0
    ensures n >= 0 <==> IsDigits(r)
  {
    if n < 0 then
      var r := "-" + NatToDecimal(-n);
      assert r[0] == '-';
      r
    else NatToDecimal(n)
  }

  /** Reads a string of decimal digits back as a number. */
  function ParseDigits(s: string): nat
    requires IsDigits(s)
  {
    if |s| == 0 then 0
    else ParseDigits(s[..|s| - 1]) * 10 + (s[|s| - 1] as int - '0' as int)
  }

  /** Reads the output of `IntToDecimal` back. */
  function ParseDecimal(s: string): int
  {
    if |s| > 0 && s[0] == '-' && IsDigits(s[1..]) then -(ParseDigits(s[1..]) as int)
    else if IsDigits(s) then ParseDigits(s)
    else 0
  }

  lemma {:induction false} NatDecimalRoundTrip(n: nat)
    ensures ParseDigits(NatToDecimal(n)) == n
    decreases n
  {
    if n >= 10 {
      var s := NatToDecimal(n);
      NatDecimalRoundTrip(n / 10);
      assert s[..|s| - 1] == NatToDecimal(n / 10);
    }
  }

  /** The decimal rendering of an integer determines it. */
  lemma DecimalRoundTrip(n: int)
    ensures ParseDecimal(IntToDecimal(n)) == n
  {
    if n < 0 {
      var s := IntToDecimal(n);
      assert s[1..] == NatToDecimal(-n);
      NatDecimalRoundTrip(-n);
    } else {
      NatDecimalRoundTrip(n);
    }
  }

  lemma DecimalInjective(m: int, n: int)
    requires IntToDecimal(m) == IntToDecimal(n)
    ensures m == n
  {
    DecimalRoundTrip(m);
    DecimalRoundTrip(n);
  }
}
