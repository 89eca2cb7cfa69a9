/**
 * Decimal rendering of natural numbers, as Python's `'{}'.format(n)` and
 * `'{:03d}'.format(n)` produce it, with the digit-string reader that
 * serves as its inverse.
 */
module Decimal {

  predicate IsDigit(c: char)
  {
    '0' <= c <= '9'
  }

  predicate AllDigits(s: string)
  {
    forall i :: 0 <= i < |s| ==> IsDigit(s[i])
  }

  function DigitValue(c: char): nat
    requires IsDigit(c)
  {
    (c as int) - ('0' as int)
  }

  function DigitChar(d: nat): (c: char)
    requires d < 10
    ensures IsDigit(c) && DigitValue(c) == d
  {
    (('0' as int) + d) as char
  }

  /** The number a string of decimal digits denotes (most significant digit first). */
  function Value(s: string): nat
    requires AllDigits(s)
  {
    if s == [] then 0 else Value(s[..|s| - 1]) * 10 + DigitValue(s[|s| - 1])
  }

  /** `'{}'.format(n)`: the shortest decimal rendering of `n`, without leading zeros. */
  function FromNat(n: nat): (s: string)
    ensures s != [] && AllDigits(s)
    ensures Value(s) == n
    ensures s[0] == '0' ==> s == "0"
  {
    if n < 10 then [DigitChar(n)]
    else
      var s := FromNat(n / 10) + [DigitChar(n % 10)];
      assert s[..|s| - 1] == FromNat(n / 10);
      s
  }

  /** Decimal rendering is injective: distinct numbers render differently. */
  lemma FromNatInjective(m: nat, n: nat)
    requires FromNat(m) == FromNat(n)
    ensures m == n
  {
  }

  function Zeros(k: nat): (z: string)
    ensures |z| == k && AllDigits(z)
  {
    seq(k, _ => '0')
  }

  lemma {:induction false} ZerosValue(k: nat)
    ensures Value(Zeros(k)) == 0
  {
    if k > 0 {
      assert Zeros(k)[..k - 1] == Zeros(k - 1);
      ZerosValue(k - 1);
    }
  }

  /** Leading zeros do not change the number a digit string denotes. */
  lemma {:induction false} LeadingZerosValue(k: nat, s: string)
    requires AllDigits(s)
    ensures AllDigits(Zeros(k) + s) && Value(Zeros(k) + s) == Value(s)
  {
    var t := Zeros(k) + s;
    if s == [] {
      assert t == Zeros(k);
      ZerosValue(k);
    } else {
      assert t[..|t| - 1] == Zeros(k) + s[..|s| - 1];
      LeadingZerosValue(k, s[..|s| - 1]);
    }
  }

  /** `s` left-filled with `'0'` up to `width` characters, as the `0<width>` format does. */
  function ZeroPad(s: string, width: nat): (r: string)
    requires AllDigits(s)
    ensures AllDigits(r) && Value(r) == Value(s)
    ensures |r| == if |s| < width then width else |s|
    ensures r[|r| - |s|..] == s
    ensures |s| >= width ==> r == s
  {
    if |s| < width then
      LeadingZerosValue(width - |s|, s);
      Zeros(width - |s|) + s
    else s
  }

  /**
   * A digit string followed by a tail that does not begin with a digit is
   * determined by the whole text: two such splittings of one string agree.
   */
  lemma DigitsPrefixUnique(x: string, rx: string, y: string, ry: string)
    requires x != [] && AllDigits(x) && AllDigits(y)
    requires rx == [] || !IsDigit(rx[0])
    requires ry == [] || !IsDigit(ry[0])
    requires x + rx == y + ry
    ensures x == y && rx == ry
  {
    var t := x + rx;
    assert forall i :: 0 <= i < |y| ==> IsDigit(t[i]) by {
      assert t == y + ry;
    }
    assert |x| < |t| ==> !IsDigit(t[|x|]);
    assert |y| < |t| ==> !IsDigit(t[|y|]) by {
      assert t == y + ry;
    }
    assert |x| == |y|;
    assert x == (x + rx)[..|x|];
    assert y == (y + ry)[..|y|];
  }

  /**
   * Three-digit zero-padded renderings followed by tails that open with `(`
   * (or are empty) agree only when the numbers agree.
   */
  lemma PaddedPrefixUnique(m: nat, n: nat, ta: string, tb: string)
    requires ta == [] || ta[0] == '('
    requires tb == [] || tb[0] == '('
    requires ZeroPad(FromNat(m), 3) + ta == ZeroPad(FromNat(n), 3) + tb
    ensures m == n
  {
    var pm, pn := ZeroPad(FromNat(m), 3), ZeroPad(FromNat(n), 3);
    DigitsPrefixUnique(pm, ta, pn, tb);
  }
}
