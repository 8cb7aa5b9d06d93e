/** The certificate check, a CRC-4 with the polynomial x^4 + x + 1: the loop over
    the octets, and the remainder of the whole code word that explains it. */
module Crc4 {

  import opened Digits

  type Octet = n: nat | n < 256

  /** A remainder modulo x^4 + x + 1: four coefficients. */
  datatype Reg = Reg(b3: bool, b2: bool, b1: bool, b0: bool)

  const ZERO := Reg(false, false, false, false)

  /** r x + bit, reduced. */
  function Feed(r: Reg, bit: bool): Reg { Reg(r.b2, r.b1, r.b0 != r.b3, bit != r.b3) }

  /** The remainder of r x^|bits| + bits. */
  function Remainder(r: Reg, bits: seq<bool>): Reg {
    if |bits| == 0 then r else Feed(Remainder(r, bits[..|bits| - 1]), bits[|bits| - 1])
  }

  /** r x^4, reduced. */
  function TimesX4(r: Reg): Reg { Feed(Feed(Feed(Feed(r, false), false), false), false) }

  /** One turn of the check's loop: the bit enters at the top of the register. */
  function Turn(r: Reg, bit: bool): Reg {
    var top := r.b3 != bit;
    Reg(r.b2, r.b1, r.b0 != top, top)
  }

  lemma TurnIsFeed(r: Reg, bit: bool)
    ensures Turn(TimesX4(r), bit) == TimesX4(Feed(r, bit))
  {
  }

  // ----- the loop

  /** v >> k */
  function ShiftRight(v: nat, k: nat): nat {
    if k == 0 then v else ShiftRight(v, k - 1) / 2
  }

  /** The n low bits of v, the most significant first. */
  function BitsOf(v: nat, n: nat): (s: seq<bool>)
    ensures |s| == n
  {
    seq(n, i requires 0 <= i < n => ShiftRight(v, n - 1 - i) % 2 == 1)
  }

  lemma {:induction false} ShiftHalf(v: nat, k: nat)
    ensures ShiftRight(v / 2, k) == ShiftRight(v, k + 1)
  {
    if k > 0 {
      ShiftHalf(v, k - 1);
    }
  }

  lemma BitsStep(v: nat, n: nat)
    ensures BitsOf(v, n + 1) == BitsOf(v / 2, n) + [v % 2 == 1]
  {
    var s, t := BitsOf(v, n + 1), BitsOf(v / 2, n);
    forall i | 0 <= i < n
      ensures s[i] == t[i]
    {
      ShiftHalf(v, n - 1 - i);
    }
    assert ShiftRight(v, 0) == v && s[n] == (v % 2 == 1);
    assert s[..n] == t;
  }

  function OctetBits(data: seq<Octet>): (s: seq<bool>)
    ensures |s| == 8 * |data|
  {
    if |data| == 0 then [] else OctetBits(data[..|data| - 1]) + BitsOf(data[|data| - 1], 8)
  }

  /** The register as the number the loop keeps. */
  function Number(r: Reg): (n: nat)
    ensures n < 16
  {
    (if r.b3 then 8 else 0) + (if r.b2 then 4 else 0) + (if r.b1 then 2 else 0) + (if r.b0 then 1 else 0)
  }

  lemma NumberInjective(r: Reg, s: Reg)
    requires Number(r) == Number(s)
    ensures r == s
  {
  }

  /** n xor 3 */
  function Xor3(n: nat): nat {
    if n % 4 == 0 then n + 3 else if n % 4 == 1 then n + 1 else if n % 4 == 2 then n - 1 else n - 3
  }

  lemma NumberTurns(r: Reg, bit: nat)
    requires bit < 2
    ensures
      var top := (Number(r) / 8 % 2 + bit) % 2;
      var shifted := Number(r) * 2 % 16;
      Number(Turn(r, bit == 1)) == if top != 0 then Xor3(shifted) else shifted
  {
  }

  /** The check value of some octets: the remainder of their bits followed by four zero bits. */
  function Check(data: seq<Octet>): Reg { TimesX4(Remainder(ZERO, OctetBits(data))) }

  lemma ShiftedOut(byte: Octet)
    ensures ShiftRight(byte, 8) == 0
  {
    assert ShiftRight(byte, 1) < 128 && ShiftRight(byte, 2) < 64 && ShiftRight(byte, 3) < 32;
    assert ShiftRight(byte, 4) < 16 && ShiftRight(byte, 5) < 8 && ShiftRight(byte, 6) < 4 && ShiftRight(byte, 7) < 2;
  }

  method CheckLoop(data: seq<Octet>) returns (crc: nat)
    ensures crc == Number(Check(data))
  {
    crc := 0;
    ghost var r := ZERO;
    for i := 0 to |data|
      invariant r == Remainder(ZERO, OctetBits(data[..i])) && crc == Number(TimesX4(r))
    {
      assert data[..i + 1][..i] == data[..i];
      crc := OctetTurns(crc, data[i], r);
      Concat(ZERO, OctetBits(data[..i]), BitsOf(data[i], 8));
      r := Remainder(r, BitsOf(data[i], 8));
    }
    assert data[..|data|] == data;
  }

  /** The inner loop: the eight bits of an octet, the top bit first. */
  method OctetTurns(start: nat, byte: Octet, ghost was: Reg) returns (crc: nat)
    requires start == Number(TimesX4(was))
    ensures crc == Number(TimesX4(Remainder(was, BitsOf(byte, 8))))
  {
    crc := start;
    ghost var n := 0;
    ShiftedOut(byte);
    for bit := 8 downto 0
      invariant n + bit == 8 && crc == Number(TimesX4(After(was, byte, bit, n)))
    {
      AfterNext(was, byte, bit, n);
      crc := BitTurn(crc, ShiftRight(byte, bit) % 2, After(was, byte, bit + 1, n));
      n := n + 1;
    }
  }

  /** The remainder after the n top bits of an octet, of which bit remain. */
  ghost function After(was: Reg, byte: nat, bit: nat, n: nat): Reg {
    Remainder(was, BitsOf(ShiftRight(byte, bit), n))
  }

  lemma AfterNext(was: Reg, byte: nat, bit: nat, n: nat)
    ensures After(was, byte, bit, n + 1) == Feed(After(was, byte, bit + 1, n), ShiftRight(byte, bit) % 2 == 1)
  {
    NextRemainder(was, ShiftRight(byte, bit), n);
  }

  /** The body of the inner loop. */
  method BitTurn(crc: nat, b: nat, ghost r: Reg) returns (next: nat)
    requires crc == Number(TimesX4(r)) && b < 2
    ensures next == Number(TimesX4(Feed(r, b == 1)))
  {
    NumberTurns(TimesX4(r), b);
    TurnIsFeed(r, b == 1);
    var top := (crc / 8 % 2 + b) % 2;
    next := crc * 2 % 16;
    if top != 0 {
      next := Xor3(next);
    }
  }

  lemma NextRemainder(was: Reg, v: nat, n: nat)
    ensures Remainder(was, BitsOf(v, n + 1)) == Feed(Remainder(was, BitsOf(v / 2, n)), v % 2 == 1)
  {
    BitsStep(v, n);
    assert BitsOf(v, n + 1)[..n] == BitsOf(v / 2, n);
  }

  lemma {:induction false} Concat(r: Reg, a: seq<bool>, b: seq<bool>)
    ensures Remainder(r, a + b) == Remainder(Remainder(r, a), b)
  {
    if |b| == 0 {
      assert a + b == a;
    } else {
      var c := b[..|b| - 1];
      Concat(r, a, c);
      assert (a + b)[..|a + b| - 1] == a + c;
    }
  }

  // ----- what the check detects

  /** The four check bits make the remainder of the whole code word zero. */
  lemma CodeWord(data: seq<Octet>, check: nat)
    requires check < 16
    ensures Number(Check(data)) == check <==> Remainder(ZERO, OctetBits(data) + BitsOf(check, 4)) == ZERO
  {
    Concat(ZERO, OctetBits(data), BitsOf(check, 4));
    FourBits(Remainder(ZERO, OctetBits(data)), check);
  }

  /** Five bits, the most significant first. */
  datatype Five = Five(p4: bool, p3: bool, p2: bool, p1: bool, p0: bool)

  function FiveOf(v: nat): Five {
    Five(v / 2 / 2 / 2 / 2 % 2 == 1, v / 2 / 2 / 2 % 2 == 1, v / 2 / 2 % 2 == 1, v / 2 % 2 == 1, v % 2 == 1)
  }

  function FeedFive(r: Reg, f: Five): Reg { Feed(Feed(Feed(Feed(Feed(r, f.p4), f.p3), f.p2), f.p1), f.p0) }

  function ValueOf(f: Five): nat {
    (if f.p4 then 16 else 0) + (if f.p3 then 8 else 0) + (if f.p2 then 4 else 0) + (if f.p1 then 2 else 0) +
    (if f.p0 then 1 else 0)
  }

  lemma Halve(v: nat)
    ensures v == 2 * (v / 2) + (if v % 2 == 1 then 1 else 0)
  {
  }

  lemma FiveIs(v: nat)
    requires v < 32
    ensures ValueOf(FiveOf(v)) == v
  {
    Halve(v);
    Halve(v / 2);
    Halve(v / 2 / 2);
    Halve(v / 2 / 2 / 2);
    Halve(v / 2 / 2 / 2 / 2);
  }

  lemma ThreeBits(r: Reg, v: nat)
    ensures Remainder(r, BitsOf(v, 0)) == r
    ensures Remainder(r, BitsOf(v, 1)) == Feed(r, v % 2 == 1)
    ensures Remainder(r, BitsOf(v, 2)) == Feed(Feed(r, v / 2 % 2 == 1), v % 2 == 1)
    ensures Remainder(r, BitsOf(v, 3)) == Feed(Feed(Feed(r, v / 2 / 2 % 2 == 1), v / 2 % 2 == 1), v % 2 == 1)
  {
    NextRemainder(r, v, 0);
    NextRemainder(r, v / 2, 0);
    NextRemainder(r, v, 1);
    NextRemainder(r, v / 2 / 2, 0);
    NextRemainder(r, v / 2, 1);
    NextRemainder(r, v, 2);
  }

  lemma FourBitsAre(r: Reg, v: nat)
    ensures Remainder(r, BitsOf(v, 4)) ==
      Feed(Feed(Feed(Feed(r, v / 2 / 2 / 2 % 2 == 1), v / 2 / 2 % 2 == 1), v / 2 % 2 == 1), v % 2 == 1)
  {
    ThreeBits(r, v / 2);
    NextRemainder(r, v, 3);
  }

  lemma FiveBits(r: Reg, v: nat)
    ensures Remainder(r, BitsOf(v, 5)) == FeedFive(r, FiveOf(v))
  {
    FourBitsAre(r, v / 2);
    NextRemainder(r, v, 4);
  }

  lemma FeedFour(r: Reg, f: Five)
    ensures Feed(Feed(Feed(Feed(r, f.p3), f.p2), f.p1), f.p0) == ZERO <==> TimesX4(r) == Reg(f.p3, f.p2, f.p1, f.p0)
  {
  }

  lemma NumberIs(r: Reg, n: nat)
    requires n < 16
    ensures Number(r) == n <==> r == Reg(FiveOf(n).p3, FiveOf(n).p2, FiveOf(n).p1, FiveOf(n).p0)
  {
    FiveIs(n);
    var f := FiveOf(n);
    assert !f.p4;
    if Number(r) == n {
      NumberInjective(r, Reg(f.p3, f.p2, f.p1, f.p0));
    }
  }

  lemma FourBits(r: Reg, n: nat)
    requires n < 16
    ensures Number(TimesX4(r)) == n <==> Remainder(r, BitsOf(n, 4)) == ZERO
  {
    FourBitsAre(r, n);
    FeedFour(r, FiveOf(n));
    NumberIs(TimesX4(r), n);
  }

  /** Feeding the same bits keeps different remainders different. */
  lemma {:induction false} RemainderInjective(r: Reg, s: Reg, bits: seq<bool>)
    ensures Remainder(r, bits) == Remainder(s, bits) <==> r == s
  {
    if |bits| > 0 {
      RemainderInjective(r, s, bits[..|bits| - 1]);
    }
  }

  /** The sum of two numbers of n bits, bit by bit. */
  function BitXor(a: nat, b: nat, n: nat): nat
    decreases n
  {
    if n == 0 then 0 else 2 * BitXor(a / 2, b / 2, n - 1) + (if (a % 2 == 1) != (b % 2 == 1) then 1 else 0)
  }

  /** 10011 in binary: the polynomial itself. */
  const POLYNOMIAL: nat := 19

  predicate Apart(f: Five, g: Five) {
    f.p4 != g.p4 && f.p3 == g.p3 && f.p2 == g.p2 && f.p1 != g.p1 && f.p0 != g.p0
  }

  function FiveXor(f: Five, g: Five): Five {
    Five(f.p4 != g.p4, f.p3 != g.p3, f.p2 != g.p2, f.p1 != g.p1, f.p0 != g.p0)
  }

  lemma XorIs(a: nat, b: nat)
    ensures BitXor(a, b, 5) == ValueOf(FiveXor(FiveOf(a), FiveOf(b)))
  {
    var x3 := BitXor(a / 2 / 2, b / 2 / 2, 3);
    var x1 := BitXor(a / 2 / 2 / 2 / 2, b / 2 / 2 / 2 / 2, 1);
    assert BitXor(a / 2 / 2 / 2, b / 2 / 2 / 2, 2) == 2 * x1 + (if FiveXor(FiveOf(a), FiveOf(b)).p3 then 1 else 0);
    assert BitXor(a / 2, b / 2, 4) == 2 * x3 + (if FiveXor(FiveOf(a), FiveOf(b)).p1 then 1 else 0);
  }

  lemma ValueInjective(f: Five, g: Five)
    ensures ValueOf(f) == ValueOf(g) ==> f == g
  {
  }

  lemma XorIsPolynomial(a: nat, b: nat)
    ensures BitXor(a, b, 5) == POLYNOMIAL <==> Apart(FiveOf(a), FiveOf(b))
  {
    XorIs(a, b);
    ValueInjective(FiveXor(FiveOf(a), FiveOf(b)), Five(true, false, false, true, true));
  }

  function Plus(r: Reg, s: Reg): Reg { Reg(r.b3 != s.b3, r.b2 != s.b2, r.b1 != s.b1, r.b0 != s.b0) }

  /** r x^5, reduced. */
  function TimesX5(r: Reg): Reg { Feed(TimesX4(r), false) }

  lemma FeedFiveSplits(r: Reg, f: Five)
    ensures FeedFive(r, f) == Plus(TimesX5(r), FeedFive(ZERO, f))
  {
  }

  lemma FeedAdds(r: Reg, s: Reg)
    ensures Feed(Plus(r, s), false) == Plus(Feed(r, false), Feed(s, false))
  {
  }

  lemma TimesX5Adds(r: Reg, s: Reg)
    ensures TimesX5(Plus(r, s)) == Plus(TimesX5(r), TimesX5(s))
  {
    var r1, s1 := Feed(r, false), Feed(s, false);
    var r2, s2 := Feed(r1, false), Feed(s1, false);
    var r3, s3 := Feed(r2, false), Feed(s2, false);
    FeedAdds(r, s);
    FeedAdds(r1, s1);
    FeedAdds(r2, s2);
    FeedAdds(r3, s3);
    FeedAdds(Feed(r3, false), Feed(s3, false));
  }

  lemma PlusCancels(u: Reg, s: Reg, t: Reg)
    ensures Plus(u, s) == Plus(u, t) <==> s == t
  {
  }

  lemma PlusMoves(u: Reg, a: Reg, t: Reg, b: Reg, s: Reg)
    ensures Plus(Plus(u, a), t) == Plus(Plus(u, b), s) <==> Plus(a, t) == Plus(b, s)
  {
  }

  lemma TimesX5Is(r: Reg)
    ensures TimesX5(r) == Reg(r.b1 != r.b2, (r.b0 != r.b1) != r.b3, r.b0 != r.b2, r.b2 != r.b3)
  {
  }

  /** x^5 + 1 has no common factor with the polynomial. */
  lemma NoCommonFactor(s: Reg, t: Reg)
    ensures Plus(TimesX5(s), t) == Plus(TimesX5(t), s) <==> s == t
  {
    TimesX5Is(s);
    TimesX5Is(t);
  }

  lemma SwapCancels(u: Reg, s: Reg, t: Reg)
    ensures Plus(Plus(u, TimesX5(s)), t) == Plus(Plus(u, TimesX5(t)), s) <==> s == t
  {
    PlusMoves(u, TimesX5(s), t, TimesX5(t), s);
    NoCommonFactor(s, t);
  }

  lemma SameRemainder(f: Five, g: Five)
    ensures FeedFive(ZERO, f) == FeedFive(ZERO, g) <==> f == g || Apart(f, g)
  {
  }

  /** Five bits against five others: the remainder tells them apart but for the polynomial. */
  lemma CharacterReplaced(r: Reg, a: nat, b: nat)
    requires a < 32 && b < 32
    ensures Remainder(r, BitsOf(a, 5)) == Remainder(r, BitsOf(b, 5)) <==> a == b || BitXor(a, b, 5) == POLYNOMIAL
  {
    var f, g := FiveOf(a), FiveOf(b);
    FiveBits(r, a);
    FiveBits(r, b);
    FeedFiveSplits(r, f);
    FeedFiveSplits(r, g);
    PlusCancels(TimesX5(r), FeedFive(ZERO, f), FeedFive(ZERO, g));
    SameRemainder(f, g);
    XorIsPolynomial(a, b);
    FiveIs(a);
    FiveIs(b);
  }

  lemma SwappedFeeds(r: Reg, f: Five, g: Five)
    ensures FeedFive(FeedFive(r, f), g) == FeedFive(FeedFive(r, g), f) <==> f == g || Apart(f, g)
  {
    var s, t, u := FeedFive(ZERO, f), FeedFive(ZERO, g), TimesX5(r);
    FeedFiveSplits(r, f);
    FeedFiveSplits(r, g);
    FeedFiveSplits(Plus(u, s), g);
    FeedFiveSplits(Plus(u, t), f);
    TimesX5Adds(u, s);
    TimesX5Adds(u, t);
    SwapCancels(TimesX5(u), s, t);
    SameRemainder(f, g);
  }

  lemma CharactersSwapped(r: Reg, a: nat, b: nat)
    requires a < 32 && b < 32
    ensures Remainder(Remainder(r, BitsOf(a, 5)), BitsOf(b, 5))
            == Remainder(Remainder(r, BitsOf(b, 5)), BitsOf(a, 5)) <==>
      a == b || BitXor(a, b, 5) == POLYNOMIAL
  {
    FiveBits(r, a);
    FiveBits(r, b);
    FiveBits(Remainder(r, BitsOf(a, 5)), b);
    FiveBits(Remainder(r, BitsOf(b, 5)), a);
    SwappedFeeds(r, FiveOf(a), FiveOf(b));
    XorIsPolynomial(a, b);
    FiveIs(a);
    FiveIs(b);
  }
}
