/** The AES substitution box and its inverse (section 5.1.1 of FIPS 197), built
    by one walk through the nonzero bytes. */
module Sbox {

  import opened Gf256
  import Octets

  /** The affine step of the substitution: each bit is summed with four others, then 0x63 is added. */
  function Affine(q: Byte): Byte {
    q ^ Rotl1(q) ^ Rotl2(q) ^ Rotl3(q) ^ Rotl4(q) ^ 0x63
  }
  function Rotl1(x: Byte): Byte { (x << 1) | (x >> 7) }
  function Rotl2(x: Byte): Byte { (x << 2) | (x >> 6) }
  function Rotl3(x: Byte): Byte { (x << 3) | (x >> 5) }
  function Rotl4(x: Byte): Byte { (x << 4) | (x >> 4) }

  /** The affine step of the inverse substitution (section 5.3.2 of FIPS 197). */
  function InvAffine(s: Byte): Byte {
    Rotl1(s) ^ Rotl3(s) ^ ((s << 6) | (s >> 2)) ^ 0x05
  }

  lemma AffineInverts(q: Byte)
    ensures InvAffine(Affine(q)) == q
  {
  }

  lemma AffineInjective(p: Byte, q: Byte)
    requires Affine(p) == Affine(q)
    ensures p == q
  {
    AffineInverts(p);
    AffineInverts(q);
  }

  ghost function Numbers(n: nat): (s: set<int>)
    ensures |s| == n && forall i :: i in s <==> 0 < i <= n
  {
    if n == 0 then {} else Numbers(n - 1) + {n}
  }

  ghost predicate AllDifferent(f: seq<int>) { forall i, j :: 0 <= i < j < |f| ==> f[i] != f[j] }

  lemma {:induction false} CountDifferent(f: seq<int>, s: set<int>)
    requires AllDifferent(f) && s == set x | x in f
    ensures |s| == |f|
  {
    if f == [] {
      assert s == {};
    } else {
      var g := f[..|f| - 1];
      assert f == g + [f[|f| - 1]];
      var t := set x | x in g;
      CountDifferent(g, t);
      assert s == t + {f[|f| - 1]};
    }
  }

  lemma Fits(a: set<int>, b: set<int>)
    requires a <= b
    ensures |a| <= |b|
  {
    assert b == a + (b - a);
  }

  /** n different numbers from 1 to n are all of them. */
  lemma Pigeonhole(f: seq<int>, v: int)
    requires AllDifferent(f) && 0 < v <= |f| && forall i :: 0 <= i < |f| ==> 0 < f[i] <= |f|
    ensures v in f
  {
    var s := set x | x in f;
    CountDifferent(f, s);
    if v !in f {
      Fits(s + {v}, Numbers(|f|));
    }
  }

  /** The number of the byte met at step k of the walk. */
  ghost function Met(k: nat): int { Power3(k) as int }

  lemma MetIs(k: nat, x: Byte)
    ensures Met(k) == x as int <==> Power3(k) == x
  {
  }

  lemma MetNonzero(k: nat)
    ensures 0 < Met(k) <= 255
  {
    NeverZero(k);
  }

  /** Every nonzero byte is a power of 3: there are 255 of both. */
  lemma EveryNonzeroByte(x: Byte)
    requires x != 0
    ensures exists k :: 0 < k <= 255 && Power3(k) == x
  {
    var f := seq(255, i requires i >= 0 => Met(i + 1));
    forall i | 0 <= i < 255
      ensures 0 < f[i] <= 255
    {
      MetNonzero(i + 1);
    }
    forall i, j | 0 <= i < j < 255
      ensures f[i] != f[j]
    {
      Distinct(i + 1, j + 1);
      MetIs(i + 1, Power3(j + 1));
    }
    Reached(f, x as int, x);
  }

  lemma Reached(f: seq<int>, v: int, x: Byte)
    requires AllDifferent(f) && |f| == 255 && v == x as int && 0 < v <= 255
    requires forall i :: 0 <= i < 255 ==> 0 < f[i] <= 255 && f[i] == Met(i + 1)
    ensures exists k :: 0 < k <= 255 && Power3(k) == x
  {
    Pigeonhole(f, v);
    var i :| 0 <= i < 255 && f[i] == v;
    MetIs(i + 1, x);
    assert Power3(i + 1) == x;
  }

  function Entry(table: seq<Byte>, x: Byte): Byte
    requires |table| == 256
  {
    table[x as int]
  }

  /** sbox substitutes Affine(1/x) for x and 0x63 for 0; inv undoes it. */
  ghost predicate Tables(sbox: seq<Byte>, inv: seq<Byte>) {
    && |sbox| == |inv| == 256
    && sbox[0] == 0x63
    && (forall k :: 0 < k <= 255 ==> Entry(sbox, Power3(k)) == Affine(Inverse3(k)))
    && (forall x: Byte :: Entry(inv, Entry(sbox, x)) == x)
  }

  /** The substitution of a nonzero byte is the affine step on its reciprocal. */
  lemma SubstitutesReciprocal(sbox: seq<Byte>, inv: seq<Byte>, x: Byte, y: Byte)
    requires Tables(sbox, inv) && Mul(x, y) == 1
    ensures Entry(sbox, x) == Affine(y)
  {
    if x == 0 {
      MulZero(y);
    } else {
      EveryNonzeroByte(x);
      var k :| 0 < k <= 255 && Power3(k) == x;
      MulPower3(k, y);
      InverseIs(k);
      Times3Injective(k, y, Inverse3(k));
    }
  }

  /** Every nonzero byte has a reciprocal. */
  lemma Reciprocal(x: Byte)
    requires x != 0
    ensures exists y :: Mul(x, y) == 1
  {
    EveryNonzeroByte(x);
    var k :| 0 < k <= 255 && Power3(k) == x;
    MulPower3(k, Inverse3(k));
    InverseIs(k);
  }

  /** The tables are those of the standard: 0 becomes 0x63, every other byte the affine step on its reciprocal. */
  lemma StandardSubstitution(sbox: seq<Byte>, inv: seq<Byte>, x: Byte)
    requires Tables(sbox, inv)
    ensures x == 0 ==> Entry(sbox, x) == 0x63
    ensures x != 0 ==> exists y :: Mul(x, y) == 1 && Entry(sbox, x) == Affine(y)
  {
    if x != 0 {
      Reciprocal(x);
      var y :| Mul(x, y) == 1;
      SubstitutesReciprocal(sbox, inv, x, y);
    }
  }

  lemma MulZero(y: Byte)
    ensures Mul(0, y) == 0
  {
    MulAdds(0, 0, y);
    Vanishes(0);
    Vanishes(Mul(0, y));
  }

  /** Both tables are bijections, each the inverse of the other. */
  lemma MutuallyInverse(sbox: seq<Byte>, inv: seq<Byte>, y: Byte)
    requires Tables(sbox, inv)
    ensures Entry(sbox, Entry(inv, y)) == y
  {
    var q := InvAffine(y);
    InvAffineInverts(y);
    if q == 0 {
      assert Entry(inv, Entry(sbox, 0)) == 0;
    } else {
      InverseCovers(q);
      var k :| 0 < k <= 255 && Inverse3(k) == q;
      assert Entry(sbox, Power3(k)) == y;
    }
  }

  lemma SameEntry(sbox: seq<Byte>, inv: seq<Byte>, sbox': seq<Byte>, inv': seq<Byte>, x: Byte)
    requires Tables(sbox, inv) && Tables(sbox', inv')
    ensures Entry(sbox, x) == Entry(sbox', x) && Entry(inv, x) == Entry(inv', x)
  {
    EqualSubstitution(sbox, inv, sbox', inv', x);
    var p := Entry(inv, x);
    MutuallyInverse(sbox, inv, x);
    EqualSubstitution(sbox, inv, sbox', inv', p);
    assert Entry(inv', Entry(sbox', p)) == p;
  }

  lemma EqualSubstitution(sbox: seq<Byte>, inv: seq<Byte>, sbox': seq<Byte>, inv': seq<Byte>, x: Byte)
    requires Tables(sbox, inv) && Tables(sbox', inv')
    ensures Entry(sbox, x) == Entry(sbox', x)
  {
    if x != 0 {
      Reciprocal(x);
      var y :| Mul(x, y) == 1;
      SubstitutesReciprocal(sbox, inv, x, y);
      SubstitutesReciprocal(sbox', inv', x, y);
    }
  }

  /** There is one pair of tables. */
  lemma TablesUnique(sbox: seq<Byte>, inv: seq<Byte>, sbox': seq<Byte>, inv': seq<Byte>)
    requires Tables(sbox, inv) && Tables(sbox', inv')
    ensures sbox == sbox' && inv == inv'
  {
    forall i | 0 <= i < 256
      ensures sbox[i] == sbox'[i] && inv[i] == inv'[i]
    {
      SameEntry(sbox, inv, sbox', inv', Octets.Octet(i));
    }
  }

  lemma InvAffineInverts(y: Byte)
    ensures Affine(InvAffine(y)) == y
  {
  }

  /** Every nonzero byte is a power of 1/3 as well. */
  lemma InverseCovers(q: Byte)
    requires q != 0
    ensures exists k :: 0 < k <= 255 && Inverse3(k) == q
  {
    EveryNonzeroByte(q);
    var j :| 0 < j <= 255 && Power3(j) == q;
    var k := if j == 255 then 255 else 255 - j;
    Returns();
    InverseIs(k);
    if j == 255 {
      Times3Injective(255, 1, Inverse3(255));
    } else {
      Times3Adds(k, j, 1);
      Times3Injective(k, q, Inverse3(k));
    }
  }

  /** The entries written by step k of the walk. */
  ghost predicate Step(sbox: seq<Byte>, inv: seq<Byte>, k: nat)
    requires |sbox| == |inv| == 256
  {
    Entry(sbox, Power3(k)) == Affine(Inverse3(k)) && Entry(inv, Affine(Inverse3(k))) == Power3(k)
  }

  lemma EntryKept(table: seq<Byte>, x: Byte, v: Byte, y: Byte)
    requires |table| == 256
    ensures Entry(table[x as int := v], y) == if x == y then v else Entry(table, y)
  {
  }

  /** Step k leaves what the earlier steps wrote. */
  lemma StepsKept(sbox: seq<Byte>, inv: seq<Byte>, j: nat, k: nat, p: Byte, x: Byte)
    requires |sbox| == |inv| == 256 && 0 < j < k <= 255 && Step(sbox, inv, j)
    requires p == Power3(k) && x == Affine(Inverse3(k))
    ensures Step(sbox[p as int := x], inv[x as int := p], j)
  {
    Distinct(j, k);
    EntryKept(sbox, p, x, Power3(j));
    EntryKept(inv, x, p, Affine(Inverse3(j)));
    if Affine(Inverse3(j)) == x {
      AffineInjective(Inverse3(j), Inverse3(k));
    }
  }

  ghost predicate Filled(sbox: seq<Byte>, inv: seq<Byte>, n: nat) {
    |sbox| == |inv| == 256 && forall j :: 0 < j <= n ==> Step(sbox, inv, j)
  }

  lemma FilledNext(sbox: seq<Byte>, inv: seq<Byte>, k: nat, p: Byte, x: Byte)
    requires k < 255 && Filled(sbox, inv, k) && p == Power3(k + 1) && x == Affine(Inverse3(k + 1))
    ensures Filled(sbox[p as int := x], inv[x as int := p], k + 1)
  {
    var s, v := sbox[p as int := x], inv[x as int := p];
    forall j | 0 < j <= k + 1
      ensures Step(s, v, j)
    {
      if j <= k {
        StepsKept(sbox, inv, j, k + 1, p, x);
      }
    }
  }

  /** After the last step only the entries of 0 are missing. */
  lemma WalkFillsTables(sbox: seq<Byte>, inv: seq<Byte>)
    requires Filled(sbox, inv, 255)
    ensures Tables(sbox[0 := 0x63], inv[0x63 := 0])
  {
    var s, v := sbox[0 := 0x63], inv[0x63 := 0];
    forall k | 0 < k <= 255
      ensures Entry(s, Power3(k)) == Affine(Inverse3(k)) && Entry(v, Affine(Inverse3(k))) == Power3(k)
    {
      assert Step(sbox, inv, k);
      NeverZero(k);
      assert Affine(0) == 0x63;
      AffineInverts(0);
      AffineInverts(Inverse3(k));
    }
    forall x: Byte
      ensures Entry(v, Entry(s, x)) == x
    {
      if x != 0 {
        EveryNonzeroByte(x);
        var k :| 0 < k <= 255 && Power3(k) == x;
        assert Entry(s, Power3(k)) == Affine(Inverse3(k));
      }
    }
  }

  /** One turn of the walk: p goes on by 3 and q by 1/3. */
  method Turn(p: Byte, q: Byte) returns (p': Byte, q': Byte, x: Byte)
    ensures p' == Triple(p) && q' == Third(q) && x == Affine(q')
  {
    p' := p ^ (p << 1) ^ (if p & 0x80 != 0 then 0x1B else 0);
    q' := q ^ (q << 1);
    q' := q' ^ (q' << 2);
    q' := q' ^ (q' << 4);
    if q' & 0x80 != 0 {
      q' := q' ^ 0x09;
    }
    x := q' ^ Rotl1(q') ^ Rotl2(q') ^ Rotl3(q') ^ Rotl4(q') ^ 0x63;
  }

  /** One entry of each table: sbox substitutes x for p, and inv undoes it. */
  method Write(sbox: array<Byte>, inv: array<Byte>, p: Byte, x: Byte)
    requires sbox.Length == inv.Length == 256 && sbox != inv
    modifies sbox, inv
    ensures sbox[..] == old(sbox[..])[p as int := x] && inv[..] == old(inv[..])[x as int := p]
  {
    sbox[p as int] := x;
    inv[x as int] := p;
  }

  method BuildSbox() returns (sbox: array<Byte>, inv: array<Byte>)
    ensures fresh(sbox) && fresh(inv) && Tables(sbox[..], inv[..])
  {
    sbox, inv := new Byte[256](_ => 0), new Byte[256](_ => 0);
    var p: Byte, q: Byte := 1, 1;
    ghost var k := 0;
    while true
      invariant sbox.Length == inv.Length == 256 && sbox != inv
      invariant fresh(sbox) && fresh(inv)
      invariant 0 <= k < 255 && p == Power3(k) && q == Inverse3(k)
      invariant Filled(sbox[..], inv[..], k)
      decreases 255 - k
    {
      var x: Byte;
      p, q, x := Turn(p, q);
      FilledNext(sbox[..], inv[..], k, p, x);
      Write(sbox, inv, p, x);
      k := k + 1;
      Order255(k);
      if p == 1 {
        break;
      }
    }
    WalkFillsTables(sbox[..], inv[..]);
    Write(sbox, inv, 0, 0x63);
  }
}
