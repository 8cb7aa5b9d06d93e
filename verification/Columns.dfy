/** The mixing of one AES column (sections 5.1.3 and 5.3.3 of FIPS 197) and its
    inverse. Mixing twice adds 4(a + c) to the octet a that stands opposite c,
    so mixing four times changes nothing, and the inverse is mixing after that
    addition. */
module Columns {

  import opened Gf256

  /** 2a + 3b + c + d, the first row of the standard's matrix. */
  function MixRow(a: Byte, b: Byte, c: Byte, d: Byte): Byte {
    Add(Add(XTime(a), Add(b, XTime(b))), Add(c, d))
  }

  function Eight(a: Byte): Byte { XTime(XTime(XTime(a))) }
  function Nine(a: Byte): Byte { Add(a, Eight(a)) }
  function Eleven(a: Byte): Byte { Add(a, Add(XTime(a), Eight(a))) }
  function Thirteen(a: Byte): Byte { Add(a, Add(XTime(XTime(a)), Eight(a))) }
  function Fourteen(a: Byte): Byte { Add(XTime(a), Add(XTime(XTime(a)), Eight(a))) }

  /** 14a + 11b + 13c + 9d, the first row of the standard's inverse matrix. */
  function InvMixRow(a: Byte, b: Byte, c: Byte, d: Byte): Byte {
    Add(Add(Fourteen(a), Eleven(b)), Add(Thirteen(c), Nine(d)))
  }

  function Sum(a: Byte, b: Byte, c: Byte, d: Byte): Byte { Add(Add(a, b), Add(c, d)) }

  /** The row as the implementation computes it: a + (a + b + c + d) + 2(a + b). */
  function Mix(a: Byte, b: Byte, c: Byte, d: Byte): Byte { Add(Add(a, Sum(a, b, c, d)), XTime(Add(a, b))) }

  /** a + 4(a + c) */
  function Opposite(a: Byte, c: Byte): Byte { Add(a, XTime(XTime(Add(a, c)))) }

  // ----- sums

  lemma Rotates(a: Byte, b: Byte, c: Byte, d: Byte)
    ensures Sum(b, c, d, a) == Sum(a, b, c, d)
  {
    Commutes(d, a);
    Swaps(b, c, a, d);
    Commutes(b, a);
  }

  lemma Joins(a: Byte, b: Byte, c: Byte)
    ensures Add(Add(a, b), Add(b, c)) == Add(a, c)
  {
    Commutes(b, c);
    Swaps(a, b, c, b);
    Vanishes(b);
    Vanishes(Add(a, c));
  }

  lemma Closes(a: Byte, b: Byte, c: Byte, d: Byte)
    ensures Add(d, a) == Add(Add(Add(a, b), Add(b, c)), Add(c, d))
  {
    Joins(a, b, c);
    Joins(a, c, d);
    Commutes(a, d);
  }

  /** x is in both sums, and so in neither. */
  lemma Drops(a: Byte, b: Byte, x: Byte)
    ensures Add(Add(a, x), Add(b, x)) == Add(a, b)
  {
    Swaps(a, x, b, x);
    Vanishes(x);
    Vanishes(Add(a, b));
  }

  lemma EdgeSum(a: Byte, b: Byte, x: Byte, e: Byte, f: Byte)
    ensures Add(Add(Add(a, x), e), Add(Add(b, x), f)) == Add(Add(a, b), Add(e, f))
  {
    Swaps(Add(a, x), e, Add(b, x), f);
    Drops(a, b, x);
  }

  lemma RowSums(a: Byte, b: Byte, c: Byte, d: Byte, e: Byte, f: Byte, g: Byte, x: Byte)
    ensures Sum(Add(Add(a, x), e), Add(Add(b, x), f), Add(Add(c, x), g), Add(Add(d, x), Add(Add(e, f), g))) ==
      Sum(a, b, c, d)
  {
    var k := Add(e, f);
    EdgeSum(a, b, x, e, f);
    EdgeSum(c, d, x, g, Add(k, g));
    Swaps(Add(a, b), k, Add(c, d), Add(g, Add(k, g)));
    Joins(k, g, 0);
    Vanishes(k);
    Vanishes(g);
    Commutes(k, g);
    Joins(0, g, k);
    Vanishes(Sum(a, b, c, d));
  }

  lemma Rest(a: Byte, x: Byte, e: Byte, m: Byte)
    ensures Add(Add(Add(Add(a, x), e), x), Add(e, m)) == Add(a, m)
  {
    Vanishes(x);
    Swaps(Add(a, x), e, x, 0);
    Vanishes(Add(Add(Add(a, x), e), x));
    Vanishes(e);
    Joins(a, x, 0);
    Vanishes(a);
    Joins(a, e, m);
  }

  // ----- mixing twice

  lemma EdgesVanish(a: Byte, b: Byte, c: Byte, d: Byte)
    ensures XTime(Add(d, a)) == Add(Add(XTime(Add(a, b)), XTime(Add(b, c))), XTime(Add(c, d)))
  {
    Closes(a, b, c, d);
    XTimeAdds(Add(Add(a, b), Add(b, c)), Add(c, d));
    XTimeAdds(Add(a, b), Add(b, c));
  }

  lemma MixTwice(a: Byte, b: Byte, c: Byte, d: Byte)
    ensures Mix(Mix(a, b, c, d), Mix(b, c, d, a), Mix(c, d, a, b), Mix(d, a, b, c)) == Opposite(a, c)
  {
    var x := Sum(a, b, c, d);
    var e, f, g := XTime(Add(a, b)), XTime(Add(b, c)), XTime(Add(c, d));
    Rotates(a, b, c, d);
    Rotates(b, c, d, a);
    Rotates(c, d, a, b);
    EdgesVanish(a, b, c, d);
    RowSums(a, b, c, d, e, f, g, x);
    EdgeSum(a, b, x, e, f);
    XTimeAdds(Add(a, b), Add(e, f));
    Joins(a, b, c);
    XTimeAdds(Add(a, b), Add(b, c));
    Rest(a, x, e, XTime(Add(e, f)));
  }

  // ----- the inverse matrix

  lemma SumAdds(a: Byte, b: Byte, c: Byte, d: Byte, e: Byte, f: Byte, g: Byte, h: Byte)
    ensures Add(Sum(a, b, c, d), Sum(e, f, g, h)) == Sum(Add(a, e), Add(b, f), Add(c, g), Add(d, h))
  {
    Swaps(Add(a, b), Add(c, d), Add(e, f), Add(g, h));
    Swaps(a, b, e, f);
    Swaps(c, d, g, h);
  }

  lemma SumOfTwo(a: Byte, b: Byte)
    ensures Add(a, b) == Sum(a, b, 0, 0) == Sum(a, 0, b, 0)
  {
    Vanishes(a);
    Vanishes(b);
    Vanishes(0);
    Vanishes(Add(a, b));
  }

  lemma RestOfColumn(a: Byte, b: Byte, c: Byte, d: Byte)
    ensures Add(a, Sum(a, b, c, d)) == Sum(0, b, c, d)
  {
    Vanishes(a);
    Vanishes(b);
    Vanishes(Add(c, d));
    Associates(a, Add(a, b), Add(c, d));
    Associates(a, a, b);
  }

  /** The fused row is the row of the standard. */
  lemma MixIsMixRow(a: Byte, b: Byte, c: Byte, d: Byte)
    ensures Mix(a, b, c, d) == MixRow(a, b, c, d)
  {
    RestOfColumn(a, b, c, d);
    XTimeAdds(a, b);
    SumOfTwo(XTime(a), XTime(b));
    SumAdds(0, b, c, d, XTime(a), XTime(b), 0, 0);
    Vanishes(XTime(a));
    Vanishes(c);
    Vanishes(d);
  }

  lemma OppositeSum(a: Byte, b: Byte, c: Byte, d: Byte, u: Byte, v: Byte)
    ensures Sum(Add(a, u), Add(b, v), Add(c, u), Add(d, v)) == Sum(a, b, c, d)
  {
    Swaps(a, u, b, v);
    Swaps(c, u, d, v);
    Drops(Add(a, b), Add(c, d), Add(u, v));
  }

  /** Eight times a sum. */
  lemma EightAdds(a: Byte, c: Byte)
    ensures XTime(XTime(Add(a, c))) == Add(XTime(XTime(a)), XTime(XTime(c)))
    ensures Eight(Add(a, c)) == Add(Eight(a), Eight(c))
  {
    XTimeAdds(a, c);
    XTimeAdds(XTime(a), XTime(c));
    XTimeAdds(XTime(XTime(a)), XTime(XTime(c)));
  }

  /** The doubled edge of a column after the addition of 4(a + c) and 4(b + d). */
  lemma OppositeEdge(a: Byte, b: Byte, c: Byte, d: Byte)
    ensures XTime(Add(Opposite(a, c), Opposite(b, d))) ==
      Sum(Add(XTime(a), Eight(a)), Add(XTime(b), Eight(b)), Eight(c), Eight(d))
  {
    var u, v := XTime(XTime(Add(a, c))), XTime(XTime(Add(b, d)));
    Swaps(a, u, b, v);
    XTimeAdds(Add(a, b), Add(u, v));
    XTimeAdds(a, b);
    XTimeAdds(u, v);
    EightAdds(a, c);
    EightAdds(b, d);
    Swaps(Eight(a), Eight(c), Eight(b), Eight(d));
    SumOfTwo(XTime(a), XTime(b));
    SumAdds(XTime(a), XTime(b), 0, 0, Eight(a), Eight(b), Eight(c), Eight(d));
    Vanishes(Eight(c));
    Vanishes(Eight(d));
  }

  /** Un-mixing is mixing after the addition. */
  lemma InvMixIsMix(a: Byte, b: Byte, c: Byte, d: Byte)
    ensures Mix(Opposite(a, c), Opposite(b, d), Opposite(c, a), Opposite(d, b)) == InvMixRow(a, b, c, d)
  {
    var u, v := XTime(XTime(Add(a, c))), XTime(XTime(Add(b, d)));
    var a2, c2 := XTime(XTime(a)), XTime(XTime(c));
    Commutes(a, c);
    Commutes(b, d);
    OppositeSum(a, b, c, d, u, v);
    OppositeEdge(a, b, c, d);
    EightAdds(a, c);
    Commutes(a, u);
    Associates(u, a, Sum(a, b, c, d));
    RestOfColumn(a, b, c, d);
    SumOfTwo(a2, c2);
    SumAdds(a2, 0, c2, 0, 0, b, c, d);
    Vanishes(a2);
    Vanishes(b);
    Vanishes(d);
    SumAdds(a2, b, Add(c2, c), d, Add(XTime(a), Eight(a)), Add(XTime(b), Eight(b)), Eight(c), Eight(d));
    Associates(a2, XTime(a), Eight(a));
    Commutes(a2, XTime(a));
    Associates(XTime(a), a2, Eight(a));
    Commutes(c2, c);
    Associates(c, c2, Eight(c));
  }

  /** Adding 4(a + c) to both octets twice changes nothing. */
  lemma OppositeTwice(a: Byte, c: Byte)
    ensures Opposite(Opposite(a, c), Opposite(c, a)) == a
  {
    var u := XTime(XTime(Add(a, c)));
    Commutes(a, c);
    Drops(a, c, u);
    Associates(a, u, u);
    Vanishes(u);
    Vanishes(a);
  }

  // ----- the constants of the inverse matrix

  lemma Halves()
    ensures (9 as Byte) >> 1 == 4 && (11 as Byte) >> 1 == 5 && (13 as Byte) >> 1 == 6 && (14 as Byte) >> 1 == 7
    ensures (4 as Byte) >> 1 == 2 && (5 as Byte) >> 1 == 2 && (6 as Byte) >> 1 == 3 && (7 as Byte) >> 1 == 3
    ensures (2 as Byte) >> 1 == 1 && (3 as Byte) >> 1 == 1 && (1 as Byte) >> 1 == 0
  {
  }

  lemma SmallProducts(a: Byte)
    ensures Mul(a, 1) == a && Mul(a, 2) == XTime(a) && Mul(a, 3) == Add(a, XTime(a))
  {
    Halves();
    Vanishes(a);
    Vanishes(XTime(a));
    assert Mul(XTime(a), 0) == 0 && Mul(XTime(XTime(a)), 0) == 0;
    assert Mul(a, 1) == a && Mul(XTime(a), 1) == XTime(a);
  }

  /** The tables of the decryption hold the products the standard names. */
  lemma Products(a: Byte)
    ensures Mul(a, 9) == Nine(a) && Mul(a, 11) == Eleven(a) && Mul(a, 13) == Thirteen(a) && Mul(a, 14) == Fourteen(a)
  {
    Halves();
    SmallProducts(XTime(a));
    SmallProducts(XTime(XTime(a)));
    assert Mul(XTime(a), 4) == Mul(XTime(XTime(a)), 2);
    assert Mul(XTime(a), 5) == Add(XTime(a), Mul(XTime(XTime(a)), 2));
    assert Mul(XTime(a), 6) == Mul(XTime(XTime(a)), 3);
    assert Mul(XTime(a), 7) == Add(XTime(a), Mul(XTime(XTime(a)), 3));
  }
}
