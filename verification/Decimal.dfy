/** Decimal digits of integers. */
module Decimal {
  predicate IsDigit(c: char) {
    '0' <= c <= '9'
  }

  predicate AllDigits(s: string) {
    forall i :: 0 <= i < |s| ==> IsDigit(s[i])
  }

  function DigitChar(d: nat): (c: char)
    requires d < 10
    ensures IsDigit(c) && DigitValue(c) == d
  {
    '0' + d as char
  }

  function DigitValue(c: char): (d: nat)
    requires IsDigit(c)
    ensures d < 10
  {
    c as int - '0' as int
  }

  /** The shortest decimal form. */
  function Digits(n: nat): (s: string)
    ensures s != [] && AllDigits(s)
  {
    if n < 10 then [DigitChar(n)] else Digits(n / 10) + [DigitChar(n % 10)]
  }

  function NatOf(s: string): nat
    requires AllDigits(s)
  {
    if s == [] then 0 else NatOf(s[..|s| - 1]) * 10 + DigitValue(s[|s| - 1])
  }

  function IntegerText(n: int): string {
    if n < 0 then "-" + Digits(-n) else Digits(n)
  }

  /** Reading the digits of a number gives the number. */
  lemma {:induction false} NatOfDigits(n: nat)
    ensures NatOf(Digits(n)) == n
    ensures n > 0 ==> Digits(n)[0] != '0'
  {
    if n >= 10 {
      NatOfDigits(n / 10);
      assert Digits(n)[..|Digits(n)| - 1] == Digits(n / 10);
    }
  }

  // ----- how many digits -----

  function Pow10(n: nat): (p: nat)
    ensures p > 0
  {
    if n == 0 then 1 else 10 * Pow10(n - 1)
  }

  /** `n` has at most `k` digits exactly when it is below 10^k. */
  lemma {:induction false} DigitCount(n: nat, k: nat)
    requires k > 0
    ensures |Digits(n)| <= k <==> n < Pow10(k)
  {
    if k == 1 {
      assert Pow10(1) == 10 * Pow10(0);
    } else {
      assert Pow10(k) == 10 * Pow10(k - 1);
      assert Pow10(k - 1) == 10 * Pow10(k - 2);
      if n >= 10 {
        DigitCount(n / 10, k - 1);
      }
    }
  }

  lemma {:induction false} Pow10Add(m: nat, n: nat)
    ensures Pow10(m + n) == Pow10(m) * Pow10(n)
  {
    if m != 0 {
      Pow10Add(m - 1, n);
    }
  }

  // ----- leading zeros -----

  function Zeros(k: nat): (s: string)
    ensures |s| == k && AllDigits(s)
  {
    seq(k, _ => '0')
  }

  /** The digits of `n`, with zeros in front up to at least `k` of them. */
  function PaddedDigits(n: nat, k: nat): (s: string)
    ensures |s| >= k && AllDigits(s) && s != []
  {
    if |Digits(n)| >= k then Digits(n) else Zeros(k - |Digits(n)|) + Digits(n)
  }

  lemma {:induction false} NatOfZerosAhead(k: nat, s: string)
    requires AllDigits(s)
    ensures NatOf(Zeros(k) + s) == NatOf(s)
    decreases k + |s|
  {
    if s != [] {
      assert (Zeros(k) + s)[..k + |s| - 1] == Zeros(k) + s[..|s| - 1];
      NatOfZerosAhead(k, s[..|s| - 1]);
    } else if k > 0 {
      assert Zeros(k) + s == Zeros(k) && Zeros(k)[..k - 1] == Zeros(k - 1) + [];
      NatOfZerosAhead(k - 1, []);
      assert Zeros(k - 1) + [] == Zeros(k - 1);
    }
  }

  lemma {:induction false} NatOfPadded(n: nat, k: nat)
    ensures NatOf(PaddedDigits(n, k)) == n
  {
    hide NatOf, Digits, Zeros;
    NatOfDigits(n);
    if |Digits(n)| < k {
      NatOfZerosAhead(k - |Digits(n)|, Digits(n));
    }
  }
}
