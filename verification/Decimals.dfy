/** Decimal text of natural numbers, as the formatter prints it. */
module Decimals {

  function Digit(n: nat): char
    requires n < 10
  {
    '0' + n as char
  }

  function Decimal(n: nat): (s: string)
    ensures s != []
  {
    if n < 10 then [Digit(n)] else Decimal(n / 10) + [Digit(n % 10)]
  }

  lemma DigitsAre()
    ensures [Digit(0), Digit(1), Digit(2), Digit(3), Digit(4), Digit(5), Digit(6), Digit(7), Digit(8), Digit(9)]
         == "0123456789"
    ensures Decimal(0) == "0" && Decimal(10) == "10" && Decimal(1970) == "1970"
  {
    assert Decimal(19) == "19" && Decimal(197) == "197";
  }

  predicate IsDigit(c: char) { '0' <= c <= '9' }

  predicate AllDigits(s: string) { forall i :: 0 <= i < |s| ==> IsDigit(s[i]) }

  function Value(s: string): nat
    requires AllDigits(s)
  {
    if s == [] then 0 else 10 * Value(s[..|s| - 1]) + (s[|s| - 1] as nat - '0' as nat)
  }

  lemma {:induction false} DecimalValue(n: nat)
    ensures AllDigits(Decimal(n)) && Value(Decimal(n)) == n
  {
    if n >= 10 {
      DecimalValue(n / 10);
      assert Decimal(n)[..|Decimal(n)| - 1] == Decimal(n / 10);
    } else {
      assert Value(Decimal(n)[..0]) == 0;
    }
  }

  function Zeros(k: nat): (z: string)
    ensures |z| == k
  {
    seq(k, i => '0')
  }

  lemma {:induction false} LeadingZeros(k: nat, d: string)
    requires AllDigits(d)
    ensures AllDigits(Zeros(k) + d) && Value(Zeros(k) + d) == Value(d)
  {
    var z := Zeros(k);
    if d == [] {
      if k != 0 {
        LeadingZeros(k - 1, d);
        assert (z + d)[..k - 1] == Zeros(k - 1) + d;
      } else {
        assert z + d == [];
      }
    } else {
      LeadingZeros(k, d[..|d| - 1]);
      assert (z + d)[..|z + d| - 1] == z + d[..|d| - 1];
    }
  }

  /** Digits are zeros and the decimal text of their value, unless that is zero. */
  lemma {:induction false} StripZeros(d: string) returns (k: nat)
    requires AllDigits(d) && Value(d) > 0
    ensures d == Zeros(k) + Decimal(Value(d))
  {
    var n := |d| - 1;
    var front, last := d[..n], d[n] as nat - '0' as nat;
    assert d == front + [d[n]] && d[n] == Digit(last);
    if Value(front) == 0 {
      k := n;
      AllZeros(front);
    } else {
      k := StripZeros(front);
      assert Decimal(Value(d)) == Decimal(Value(front)) + [Digit(last)];
      assert Zeros(k) + Decimal(Value(front)) + [d[n]] == Zeros(k) + (Decimal(Value(front)) + [d[n]]);
    }
  }

  lemma {:induction false} AllZeros(d: string)
    requires AllDigits(d) && Value(d) == 0
    ensures d == Zeros(|d|)
  {
    if d != [] {
      AllZeros(d[..|d| - 1]);
    }
  }

  function Power10(k: nat): (p: nat)
    ensures p > 0
  {
    if k == 0 then 1 else 10 * Power10(k - 1)
  }

  lemma {:induction false} DecimalLength(n: nat, k: nat)
    requires k > 0
    ensures |Decimal(n)| <= k <==> n < Power10(k)
  {
    if n >= 10 && k > 1 {
      DecimalLength(n / 10, k - 1);
    }
  }

  lemma DecimalInjective(m: nat, n: nat)
    requires Decimal(m) == Decimal(n)
    ensures m == n
  {
    DecimalValue(m);
    DecimalValue(n);
  }
}
