/** Decimal text of non-negative integers, as Python's f"{n}" writes it, and
    str.zfill padding. The frame file names and the numbered run names are
    built from these. */
module Decimal {

  predicate IsDigit(c: char) {
    '0' <= c <= '9'
  }

  predicate AllDigits(s: string) {
    forall k :: 0 <= k < |s| ==> IsDigit(s[k])
  }

  function DigitChar(d: nat): (c: char)
    requires d < 10
    ensures IsDigit(c)
  {
    ('0' as int + d) as char
  }

  function DigitValue(c: char): nat
    requires IsDigit(c)
  {
    c as int - '0' as int
  }

  /** f"{n}" for n >= 0: the shortest decimal text, most significant digit first. */
  function Dec(n: nat): (s: string)
    ensures |s| >= 1 && AllDigits(s)
    ensures n >= 10 ==> s[0] != '0'
    ensures n < 10 ==> |s| == 1
    ensures s[0] == '0' ==> s == "0"
  {
    if n < 10 then [DigitChar(n)] else Dec(n / 10) + [DigitChar(n % 10)]
  }

  /** The number a digit string denotes (leading zeros allowed). */
  function Value(s: string): nat
    requires AllDigits(s)
  {
    if s == [] then 0 else Value(s[..|s| - 1]) * 10 + DigitValue(s[|s| - 1])
  }

  /** A string of k zeros. */
  function Zeros(k: nat): (z: string)
    ensures |z| == k && AllDigits(z)
  {
    seq(k, _ => '0')
  }

  /** s.zfill(width) for a string without a leading sign: left-pad with '0'
      until the length is at least width. */
  function ZFill(s: string, width: nat): (r: string)
  {
    if |s| >= width then s else Zeros(width - |s|) + s
  }

  /** zfill keeps the text as its tail and pads it on the left with '0' up to
      the width; text already as wide stays as it is. */
  lemma ZFillShape(s: string, width: nat)
    ensures |ZFill(s, width)| == if |s| >= width then |s| else width
    ensures ZFill(s, width)[|ZFill(s, width)| - |s|..] == s
    ensures forall k :: 0 <= k < |ZFill(s, width)| - |s| ==> ZFill(s, width)[k] == '0'
  {
  }

  /** Decimal text is read back as the number it was written from. */
  lemma {:induction false} ValueOfDec(n: nat)
    ensures Value(Dec(n)) == n
  {
    if n >= 10 {
      var s := Dec(n);
      assert s[..|s| - 1] == Dec(n / 10);
      ValueOfDec(n / 10);
    }
  }

  /** One leading zero does not change the value of a digit string. */
  lemma {:induction false} ValueLeadingZero(s: string)
    requires AllDigits(s)
    ensures AllDigits(['0'] + s) && Value(['0'] + s) == Value(s)
  {
    var t := ['0'] + s;
    if s != [] {
      assert t[..|t| - 1] == ['0'] + s[..|s| - 1];
      ValueLeadingZero(s[..|s| - 1]);
    }
  }

  /** Any number of leading zeros does not change the value. */
  lemma {:induction false} ValueLeadingZeros(k: nat, s: string)
    requires AllDigits(s)
    ensures AllDigits(Zeros(k) + s) && Value(Zeros(k) + s) == Value(s)
  {
    if k == 0 {
      assert Zeros(k) + s == s;
    } else {
      assert Zeros(k) + s == ['0'] + (Zeros(k - 1) + s);
      ValueLeadingZeros(k - 1, s);
      ValueLeadingZero(Zeros(k - 1) + s);
    }
  }

  /** Zero-padding keeps the text a digit string of at least `width` digits that
      still denotes n. */
  lemma ZFillDec(n: nat, width: nat)
    ensures AllDigits(ZFill(Dec(n), width))
    ensures |ZFill(Dec(n), width)| >= width
    ensures Value(ZFill(Dec(n), width)) == n
  {
    ValueOfDec(n);
    if |Dec(n)| < width {
      ValueLeadingZeros(width - |Dec(n)|, Dec(n));
    }
  }

  /** Distinct numbers have distinct decimal texts. */
  lemma DecInjective(n: nat, m: nat)
    requires Dec(n) == Dec(m)
    ensures n == m
  {
    ValueOfDec(n);
    ValueOfDec(m);
  }

  /** Distinct numbers have distinct zero-padded decimal texts. */
  lemma ZFillDecInjective(n: nat, m: nat, width: nat)
    requires ZFill(Dec(n), width) == ZFill(Dec(m), width)
    ensures n == m
  {
    ZFillDec(n, width);
    ZFillDec(m, width);
  }

  /** If two strings are each a digit string followed by a tail that starts with a
      non-digit, and they are equal, then the digit parts and the tails are equal. */
  lemma DigitPrefixSplit(d1: string, t1: string, d2: string, t2: string)
    requires AllDigits(d1) && AllDigits(d2)
    requires |t1| > 0 && !IsDigit(t1[0]) && |t2| > 0 && !IsDigit(t2[0])
    requires d1 + t1 == d2 + t2
    ensures d1 == d2 && t1 == t2
  {
    assert d1 == (d1 + t1)[..|d1|];
    assert d2 == (d2 + t2)[..|d2|];
    assert t1 == (d1 + t1)[|d1|..];
    assert t2 == (d2 + t2)[|d2|..];
  }
}
