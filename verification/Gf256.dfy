/** Arithmetic in GF(2^8), the field of AES: polynomials modulo
    x^8 + x^4 + x^3 + x + 1 (section 4.2 of FIPS 197), and the walk through the
    powers of 3 that builds the S-box and its inverse. */
module Gf256 {

  type Byte = bv8

  /** Addition of polynomials. */
  function Add(a: Byte, b: Byte): Byte { a ^ b }

  lemma Commutes(a: Byte, b: Byte)
    ensures Add(a, b) == Add(b, a)
  {
  }

  lemma Vanishes(a: Byte)
    ensures Add(a, a) == 0 && Add(a, 0) == a && Add(0, a) == a
  {
  }

  lemma Associates(a: Byte, b: Byte, c: Byte)
    ensures Add(Add(a, b), c) == Add(a, Add(b, c))
  {
  }

  lemma Swaps(a: Byte, b: Byte, c: Byte, d: Byte)
    ensures Add(Add(a, b), Add(c, d)) == Add(Add(a, c), Add(b, d))
  {
    Associates(a, b, Add(c, d));
    Associates(b, c, d);
    Commutes(b, c);
    Associates(c, b, d);
    Associates(a, c, Add(b, d));
  }

  /** Multiplication by x. */
  function XTime(a: Byte): Byte {
    (a << 1) ^ (if a & 0x80 != 0 then 0x1B else 0)
  }

  /** a times the polynomial whose coefficients are the bits of b. */
  function Mul(a: Byte, b: Byte): Byte
    decreases b
  {
    if b == 0 then 0
    else if b & 1 != 0 then Add(a, Mul(XTime(a), b >> 1))
    else Mul(XTime(a), b >> 1)
  }

  method MulLoop(x: Byte, y: Byte) returns (out: Byte)
    ensures out == Mul(x, y)
  {
    var a, b := x, y;
    out := 0;
    Vanishes(Mul(a, b));
    while b != 0
      invariant Mul(x, y) == Add(out, Mul(a, b))
      decreases b
    {
      Associates(out, a, Mul(XTime(a), b >> 1));
      if b & 1 != 0 {
        out := out ^ a;
      }
      a, b := XTime(a), b >> 1;
    }
    Vanishes(out);
  }

  lemma XTimeAdds(a: Byte, b: Byte)
    ensures XTime(Add(a, b)) == Add(XTime(a), XTime(b))
  {
    assert (a ^ b) & 0x80 == (a & 0x80) ^ (b & 0x80);
    assert a & 0x80 == 0 || a & 0x80 == 0x80;
    assert b & 0x80 == 0 || b & 0x80 == 0x80;
    assert (a ^ b) << 1 == (a << 1) ^ (b << 1);
    if a & 0x80 == 0 {
      if b & 0x80 == 0 {
        assert XTime(a ^ b) == XTime(a) ^ XTime(b);
      } else {
        assert XTime(a ^ b) == XTime(a) ^ XTime(b);
      }
    } else {
      if b & 0x80 == 0 {
        assert XTime(a ^ b) == XTime(a) ^ XTime(b);
      } else {
        assert XTime(a ^ b) == XTime(a) ^ XTime(b);
      }
    }
  }

  lemma {:induction false} MulAdds(a: Byte, b: Byte, c: Byte)
    ensures Mul(Add(a, b), c) == Add(Mul(a, c), Mul(b, c))
    decreases c
  {
    if c == 0 {
      Vanishes(0);
    } else {
      XTimeAdds(a, b);
      MulAdds(XTime(a), XTime(b), c >> 1);
      Swaps(a, b, Mul(XTime(a), c >> 1), Mul(XTime(b), c >> 1));
    }
  }

  lemma {:induction false} MulXTime(a: Byte, c: Byte)
    ensures Mul(XTime(a), c) == XTime(Mul(a, c))
    decreases c
  {
    if c == 0 {
      assert XTime(0) == 0;
    } else {
      MulXTime(XTime(a), c >> 1);
      XTimeAdds(a, Mul(XTime(a), c >> 1));
    }
  }

  lemma LowBit(y: Byte)
    ensures y & 1 != 0 ==> y == Add(1, XTime(y >> 1))
    ensures y & 1 == 0 ==> y == XTime(y >> 1)
  {
    assert (y >> 1) & 0x80 == 0;
    assert y == (y & 1) ^ ((y >> 1) << 1);
    assert y & 1 == 0 || y & 1 == 1;
  }

  lemma {:induction false} MulOneLeft(y: Byte)
    ensures Mul(1, y) == y
    decreases y
  {
    if y != 0 {
      MulOneLeft(y >> 1);
      MulXTime(1, y >> 1);
      LowBit(y);
    }
  }

  // ----- the powers of 3

  /** One step of the walk: times 3. */
  function Triple(p: Byte): Byte { Add(p, XTime(p)) }

  /** The step back, as the S-box builder computes it: times 1/3. */
  function Third(q: Byte): Byte { ThirdTop(Third4(Third2(Third1(q)))) }
  function Third1(q: Byte): Byte { q ^ (q << 1) }
  function Third2(q: Byte): Byte { q ^ (q << 2) }
  function Third4(q: Byte): Byte { q ^ (q << 4) }
  function ThirdTop(q: Byte): Byte { if q & 0x80 != 0 then q ^ 0x09 else q }

  lemma {:induction false} TripleThird(a: Byte)
    ensures Triple(Third(a)) == a && Third(Triple(a)) == a
  {
  }

  /** y * 3^k */
  function Times3(k: nat, y: Byte): Byte {
    if k == 0 then y else Triple(Times3(k - 1, y))
  }

  function Power3(k: nat): Byte { Times3(k, 1) }

  /** 3^-k */
  function Inverse3(k: nat): Byte {
    if k == 0 then 1 else Third(Inverse3(k - 1))
  }

  lemma {:induction false} Times3Adds(a: nat, b: nat, y: Byte)
    ensures Times3(a + b, y) == Times3(a, Times3(b, y))
  {
    if a > 0 {
      Times3Adds(a - 1, b, y);
    }
  }

  /** Multiplying by a power of 3 takes that many steps. */
  lemma {:induction false} MulPower3(k: nat, y: Byte)
    ensures Mul(Power3(k), y) == Times3(k, y)
  {
    if k == 0 {
      MulOneLeft(y);
    } else {
      var p := Power3(k - 1);
      MulPower3(k - 1, y);
      MulAdds(p, XTime(p), y);
      MulXTime(p, y);
    }
  }

  lemma {:induction false} Times3Injective(k: nat, x: Byte, y: Byte)
    requires Times3(k, x) == Times3(k, y)
    ensures x == y
  {
    if k > 0 {
      TripleThird(Times3(k - 1, x));
      TripleThird(Times3(k - 1, y));
      Times3Injective(k - 1, x, y);
    }
  }

  lemma {:induction false} Times3Zero(k: nat)
    ensures Times3(k, 0) == 0
  {
    if k > 0 {
      Times3Zero(k - 1);
      assert Triple(0) == 0;
    }
  }

  lemma {:induction false} InverseIs(k: nat)
    ensures Times3(k, Inverse3(k)) == 1
  {
    if k > 0 {
      InverseIs(k - 1);
      TripleThird(Inverse3(k - 1));
      Times3Adds(k - 1, 1, Inverse3(k));
      assert Times3(1, Inverse3(k)) == Triple(Times3(0, Inverse3(k)));
    }
  }

  // ----- the order of 3 is 255

  function Image(p: Byte, mask: Byte, image: Byte): Byte { if p & mask != 0 then image else 0 }

  /** The square of p: squaring is linear, so it is settled by the squares of the eight bits. */
  function Square(p: Byte): Byte {
    Image(p, 0x01, 0x01) ^ Image(p, 0x02, 0x04) ^ Image(p, 0x04, 0x10) ^ Image(p, 0x08, 0x40) ^
    Image(p, 0x10, 0x1B) ^ Image(p, 0x20, 0x6C) ^ Image(p, 0x40, 0xAB) ^ Image(p, 0x80, 0x9A)
  }

  lemma SquareTriple(p: Byte)
    ensures Square(Triple(p)) == Triple(Triple(Square(p)))
  {
    if p & 0x80 != 0 {
      assert Triple(p) == p ^ (p << 1) ^ 0x1B;
    } else {
      assert Triple(p) == p ^ (p << 1);
    }
  }

  lemma {:induction false} SquarePower(k: nat)
    ensures Power3(2 * k) == Square(Power3(k))
  {
    if k > 0 {
      SquarePower(k - 1);
      SquareTriple(Power3(k - 1));
      assert Power3(2 * k - 1) == Triple(Power3(2 * k - 2));
      assert Power3(2 * k) == Triple(Power3(2 * k - 1));
    }
  }

  lemma Squares()
    ensures Square(3) == 5 && Square(5) == 0x11 && Square(0x11) == 0x1A && Square(0x1A) == 0x5F
  {
  }

  lemma MoreSquares()
    ensures Square(0x5F) == 0xE5 && Square(0xE5) == 0x4C && Square(0x4C) == 0xFB && Square(0xFB) == 3
  {
  }

  lemma PowersOfTwo()
    ensures Power3(1) == 3 && Power3(16) == 0x5F && Power3(256) == 3
  {
    assert Power3(1) == Triple(Power3(0));
    Squares();
    MoreSquares();
    SquarePower(1); SquarePower(2); SquarePower(4); SquarePower(8);
    SquarePower(16); SquarePower(32); SquarePower(64); SquarePower(128);
  }

  lemma Returns()
    ensures Power3(255) == 1
  {
    PowersOfTwo();
    assert Power3(256) == Triple(Power3(255));
    TripleThird(Power3(255));
    TripleThird(1);
    assert Triple(1) == 3;
  }

  /** 15, 51 and 85 are the greatest divisors of 255 below it. */
  lemma NotAtDivisors()
    ensures Power3(15) != 1 && Power3(51) != 1 && Power3(85) != 1
  {
    PowersOfTwo();
    assert Power3(16) == Triple(Power3(15)) && Triple(1) == 3;
    Power51();
    Power85();
  }

  lemma Power51()
    ensures Power3(51) == 0x0C
  {
    PowersOfTwo();
    assert Power3(2) == Triple(Power3(1)) && Power3(3) == Triple(Power3(2)) && Power3(3) == 0x0F;
    SquarePower(3); SquarePower(6); SquarePower(12); SquarePower(24);
    assert Square(0x0F) == 0x55 && Square(0x55) == 0xA1 && Square(0xA1) == 0xF7 && Square(0xF7) == 0x53;
    assert Power3(49) == Triple(Power3(48)) && Power3(50) == Triple(Power3(49)) && Power3(51) == Triple(Power3(50));
  }

  lemma Power85()
    ensures Power3(85) == 0xBD
  {
    Squares();
    PowersOfTwo();
    SquarePower(1); SquarePower(2); SquarePower(5); SquarePower(10); SquarePower(21); SquarePower(42);
    assert Power3(5) == Triple(Power3(4)) && Power3(21) == Triple(Power3(20)) && Power3(85) == Triple(Power3(84));
    assert Triple(0x11) == 0x33 && Square(0x33) == 0x72 && Square(0x72) == 0xD8 && Triple(0xD8) == 0x73;
    assert Square(0x73) == 0xD9 && Square(0xD9) == 0x6B && Triple(0x6B) == 0xBD;
  }

  lemma Grows(d: nat, m: nat)
    ensures d >= 16 && m >= 16 ==> d * m >= 256
  {
    if d >= 16 && m >= 16 {
      assert d * m >= 16 * m;
    }
  }

  lemma Divisors(d: nat, m: nat)
    requires d * m == 255 && m > 1
    ensures d == 1 || d == 3 || d == 5 || d == 15 || d == 17 || d == 51 || d == 85
  {
    Grows(d, m);
    if d < 16 {
      assert d == 0 || d == 1 || d == 2 || d == 3 || d == 4 || d == 5 || d == 6 || d == 7 ||
        d == 8 || d == 9 || d == 10 || d == 11 || d == 12 || d == 13 || d == 14 || d == 15;
    } else {
      assert m == 2 || m == 3 || m == 4 || m == 5 || m == 6 || m == 7 ||
        m == 8 || m == 9 || m == 10 || m == 11 || m == 12 || m == 13 || m == 14 || m == 15;
    }
  }

  lemma {:induction false} Periodic(d: nat, q: nat, r: nat)
    requires Power3(d) == 1
    ensures Power3(d * q + r) == Power3(r)
  {
    if q > 0 {
      Periodic(d, q - 1, r);
      assert d * q + r == (d * (q - 1) + r) + d;
      Times3Adds(d * (q - 1) + r, d, 1);
    }
  }

  /** Every divisor of 255 below it divides 15, 51 or 85. */
  lemma NotAtProperDivisor(d: nat)
    requires d == 1 || d == 3 || d == 5 || d == 15 || d == 17 || d == 51 || d == 85
    ensures Power3(d) != 1
  {
    if d == 17 && Power3(17) == 1 {
      Periodic(17, 3, 0);
    }
    NotAtDivisors();
  }

  lemma RemainderReturns(d: nat)
    requires 0 < d && Power3(d) == 1
    ensures Power3(255 % d) == 1 && 255 == d * (255 / d) + 255 % d
  {
    Returns();
    Periodic(d, 255 / d, 255 % d);
  }

  /** The first return to 1 is at a divisor of 255, and so at 255 itself. */
  lemma FirstReturn(d: nat)
    requires 0 < d <= 255 && Power3(d) == 1
    requires forall j :: 0 < j < d ==> Power3(j) != 1
    ensures d == 255
  {
    RemainderReturns(d);
    assert 255 % d == 0;
    if d < 255 {
      Divisors(d, 255 / d);
      NotAtProperDivisor(d);
    }
  }

  lemma LeastReturn(k: nat) returns (d: nat)
    requires 0 < k && Power3(k) == 1
    ensures 0 < d <= k && Power3(d) == 1 && forall j :: 0 < j < d ==> Power3(j) != 1
  {
    d := 1;
    while Power3(d) != 1
      invariant 0 < d <= k
      invariant forall j :: 0 < j < d ==> Power3(j) != 1
      decreases k - d
    {
      d := d + 1;
    }
  }

  /** 3 comes back to 1 after 255 steps and not before. */
  lemma Order255(k: nat)
    requires 0 < k <= 255
    ensures Power3(k) == 1 <==> k == 255
  {
    Returns();
    if Power3(k) == 1 {
      var d := LeastReturn(k);
      FirstReturn(d);
    }
  }

  /** The 255 powers of 3, and the 255 powers of 1/3, are all different. */
  lemma Distinct(j: nat, k: nat)
    requires 0 < j < k <= 255
    ensures Power3(j) != Power3(k) && Inverse3(j) != Inverse3(k)
  {
    Order255(k - j);
    if Power3(j) == Power3(k) {
      Times3Adds(j, k - j, 1);
      Times3Injective(j, 1, Power3(k - j));
    }
    if Inverse3(j) == Inverse3(k) {
      InverseIs(j);
      InverseIs(k);
      Times3Adds(k - j, j, Inverse3(j));
    }
  }

  lemma NeverZero(k: nat)
    ensures Power3(k) != 0 && Inverse3(k) != 0
  {
    InverseIs(k);
    Times3Zero(k);
    if Power3(k) == 0 {
      Times3Injective(k, 1, 0);
    }
  }
}
