/** ASCII decimal digit strings, as character codes: the shared meaning of
    Python's `str(n)`, `isdigit()` and `int(...)` on digit text. */
module Decimal {

  const Zero: int := '0' as int

  predicate IsDigit(c: int) {
    '0' as int <= c <= '9' as int
  }

  /** Every code is an ASCII digit (the empty sequence included). */
  predicate AllDigits(s: seq<int>) {
    forall i :: 0 <= i < |s| ==> IsDigit(s[i])
  }

  /** Python's `isdigit()` on ASCII text: non-empty and all digits. */
  predicate IsDigitString(s: seq<int>) {
    |s| > 0 && AllDigits(s)
  }

  /** The decimal value of a digit string, read most significant digit first. */
  function Value(s: seq<int>): nat
    requires AllDigits(s)
    decreases |s|
  {
    if s == [] then 0 else 10 * Value(s[..|s| - 1]) + (s[|s| - 1] - Zero)
  }

  /** Python's `str(n)` for a natural number: its shortest decimal rendering. */
  function Digits(n: nat): (r: seq<int>)
    ensures IsDigitString(r)
    ensures |r| == 1 || r[0] != Zero
  {
    if n < 10 then [Zero + n] else Digits(n / 10) + [Zero + n % 10]
  }

  /** `k` zero digits. */
  function Zeros(k: nat): (z: seq<int>)
    ensures |z| == k && AllDigits(z)
  {
    seq(k, _ => Zero)
  }

  /** Parsing the rendering of `n` gives back `n`. */
  lemma {:induction false} ValueOfDigits(n: nat)
    ensures Value(Digits(n)) == n
  {
    if n >= 10 {
      ValueOfDigits(n / 10);
      var d := Digits(n / 10) + [Zero + n % 10];
      assert d[..|d| - 1] == Digits(n / 10);
    }
  }

  /** Leading zeros do not change the value of a digit string. */
  lemma {:induction false} ValueIgnoresLeadingZeros(k: nat, s: seq<int>)
    requires AllDigits(s)
    ensures Value(Zeros(k) + s) == Value(s)
    decreases |s|
  {
    var z := Zeros(k);
    if s == [] {
      assert z + s == z;
      ZerosValue(k);
    } else {
      var t := z + s;
      assert t[..|t| - 1] == z + s[..|s| - 1];
      ValueIgnoresLeadingZeros(k, s[..|s| - 1]);
    }
  }

  lemma {:induction false} ZerosValue(k: nat)
    ensures Value(Zeros(k)) == 0
  {
    if k > 0 {
      assert Zeros(k)[..k - 1] == Zeros(k - 1);
      ZerosValue(k - 1);
    }
  }

  /** A digit string whose first digit is not zero has a positive value. */
  lemma {:induction false} LeadingNonZeroPositive(s: seq<int>)
    requires IsDigitString(s) && s[0] != Zero
    ensures Value(s) >= 1
    decreases |s|
  {
    if |s| > 1 {
      LeadingNonZeroPositive(s[..|s| - 1]);
    }
  }

  /** A digit string without a redundant leading zero is the rendering of its own value:
      `str(int(s)) == s`. */
  lemma {:induction false} CanonicalDigits(s: seq<int>)
    requires IsDigitString(s)
    requires |s| == 1 || s[0] != Zero
    ensures Digits(Value(s)) == s
    decreases |s|
  {
    if |s| > 1 {
      var p := s[..|s| - 1];
      CanonicalDigits(p);
      LeadingNonZeroPositive(p);
      var v := Value(s);
      assert v == 10 * Value(p) + (s[|s| - 1] - Zero);
      assert v / 10 == Value(p) && v % 10 == s[|s| - 1] - Zero;
      assert s == p + [s[|s| - 1]];
    }
  }

  /** The number of redundant leading zeros of a non-empty digit string. */
  function RedundantZeros(s: seq<int>): (k: nat)
    requires IsDigitString(s)
    ensures k < |s| && s[..k] == Zeros(k)
    ensures k + 1 == |s| || s[k] != Zero
  {
    if |s| > 1 && s[0] == Zero then
      var k := RedundantZeros(s[1..]);
      assert s[..k + 1] == [Zero] + s[1..][..k];
      k + 1
    else 0
  }

  /** Every non-empty digit string is the rendering of its value behind some zeros. */
  lemma {:induction false} DigitStringShape(s: seq<int>)
    requires IsDigitString(s)
    ensures exists k: nat :: s == Zeros(k) + Digits(Value(s))
  {
    var k := RedundantZeros(s);
    var t := s[k..];
    assert IsDigitString(t);
    assert |t| == 1 || t[0] != Zero;
    CanonicalDigits(t);
    assert s == Zeros(k) + t;
    ValueIgnoresLeadingZeros(k, t);
    assert Value(s) == Value(t);
    assert s == Zeros(k) + Digits(Value(s));
  }
}
