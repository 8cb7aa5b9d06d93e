/** Numbers and their digits in a base, the most significant digit first. */
module Digits {

  function Power(base: nat, n: nat): (p: nat)
    ensures base > 0 ==> p > 0
  {
    if n == 0 then 1 else base * Power(base, n - 1)
  }

  /** The n low digits of v. */
  function ToDigits(v: nat, base: nat, n: nat): (d: seq<nat>)
    requires base > 0
    ensures |d| == n
  {
    seq(n, i requires 0 <= i < n => v / Power(base, n - 1 - i) % base)
  }

  function FromDigits(d: seq<nat>, base: nat): nat {
    if |d| == 0 then 0 else base * FromDigits(d[..|d| - 1], base) + d[|d| - 1]
  }

  predicate AreDigits(d: seq<nat>, base: nat) { forall i :: 0 <= i < |d| ==> d[i] < base }

  lemma Monotone(base: nat, a: nat, b: nat)
    ensures a < b ==> base * a + base <= base * b
  {
    if a < b {
      assert base * (a + 1) <= base * b;
    }
  }

  lemma QuotientIs(base: nat, h: nat, l: nat)
    requires l < base
    ensures (base * h + l) / base == h && (base * h + l) % base == l
  {
    var v := base * h + l;
    var q := v / base;
    Monotone(base, q, h);
    Monotone(base, h, q);
    assert v == base * q + v % base;
  }

  lemma BoundIs(base: nat, h: nat, l: nat, p: nat)
    requires l < base
    ensures base * h + l < base * p <==> h < p
  {
    if h < p {
      assert base * (h + 1) <= base * p;
    } else {
      assert base * p <= base * h;
    }
  }

  lemma DivideTwice(v: nat, a: nat, b: nat)
    requires a > 0 && b > 0
    ensures a * b > 0 && v / (a * b) == v / a / b
  {
    var q, r := v / a, v % a;
    var h, l := q / b, q % b;
    Monotone(a, l, b);
    assert v == a * q + r && q == b * h + l;
    assert a * q == a * (b * h) + a * l;
    assert a * (b * h) == (a * b) * h;
    QuotientIs(a * b, h, a * l + r);
  }

  /** All digits but the last are those of the quotient. */
  lemma DigitsStep(v: nat, base: nat, n: nat)
    requires base > 0
    ensures ToDigits(v, base, n + 1) == ToDigits(v / base, base, n) + [v % base]
  {
    var d, e := ToDigits(v, base, n + 1), ToDigits(v / base, base, n) + [v % base];
    forall i | 0 <= i < n
      ensures d[i] == e[i]
    {
      DivideTwice(v, base, Power(base, n - 1 - i));
      assert Power(base, n - i) == base * Power(base, n - 1 - i);
    }
    assert v / Power(base, 0) == v;
  }

  lemma LastDigit(d: seq<nat>, l: nat, base: nat)
    ensures FromDigits(d + [l], base) == base * FromDigits(d, base) + l
  {
    assert (d + [l])[..|d|] == d;
  }

  lemma Divided(v: nat, base: nat)
    requires base > 0
    ensures v == base * (v / base) + v % base
  {
  }

  lemma {:induction false} DigitsOfNumber(v: nat, base: nat, n: nat)
    requires base > 0 && v < Power(base, n)
    ensures FromDigits(ToDigits(v, base, n), base) == v
    decreases n
  {
    if n > 0 {
      var h, l := v / base, v % base;
      Divided(v, base);
      BoundIs(base, h, l, Power(base, n - 1));
      DigitsOfNumber(h, base, n - 1);
      DigitsStep(v, base, n - 1);
      LastDigit(ToDigits(h, base, n - 1), l, base);
    }
  }

  lemma AreDigitsOf(v: nat, base: nat, n: nat)
    requires base > 0
    ensures AreDigits(ToDigits(v, base, n), base)
  {
  }

  lemma {:induction false} NumberOfDigits(d: seq<nat>, base: nat)
    requires base > 0 && AreDigits(d, base)
    ensures FromDigits(d, base) < Power(base, |d|) && ToDigits(FromDigits(d, base), base, |d|) == d
  {
    if |d| > 0 {
      var h, l := d[..|d| - 1], d[|d| - 1];
      NumberOfDigits(h, base);
      QuotientIs(base, FromDigits(h, base), l);
      BoundIs(base, FromDigits(h, base), l, Power(base, |h|));
      DigitsStep(FromDigits(d, base), base, |h|);
      assert d == h + [l];
    }
  }
}
