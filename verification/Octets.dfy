/** Octet strings: big-endian numbers and sums. */
module Octets {

  import opened Gf256
  import opened Wrappers

  type Bytes = seq<Byte>

  lemma NextOctet(b: Byte)
    requires b as int < 255
    ensures (b + 1) as int == b as int + 1
  {
  }

  /** The octet of the number v. */
  function Octet(v: nat): (b: Byte)
    requires v < 256
    ensures b as int == v
  {
    if v == 0 then 0 else
      NextOctet(Octet(v - 1));
      Octet(v - 1) + 1
  }

  lemma OctetAgain(b: Byte)
    ensures 0 <= b as int < 256 && Octet(b as int) == b
  {
    SameNumber(Octet(b as int), b);
  }

  lemma SameNumber(a: Byte, b: Byte)
    requires a as int == b as int
    ensures a == b
  {
  }

  function Power256(n: nat): nat {
    if n == 0 then 1 else 256 * Power256(n - 1)
  }

  /** The n low octets of v, the most significant first. */
  function BigEndian(v: nat, n: nat): (s: Bytes)
    ensures |s| == n
  {
    if n == 0 then [] else BigEndian(v / 256, n - 1) + [Octet(v % 256)]
  }

  /** The conversion of the implementation: the number must fit. */
  function ToBytes(v: int, n: nat): (r: Result<Bytes>)
    ensures r.Ok? <==> 0 <= v < Power256(n)
    ensures r.Ok? ==> |r.value| == n && FromBytes(r.value) == v
  {
    if 0 <= v < Power256(n) then
      FromBigEndian(v, n);
      Ok(BigEndian(v, n))
    else
      Raises
  }

  function FromBytes(s: Bytes): nat {
    if |s| == 0 then 0 else 256 * FromBytes(s[..|s| - 1]) + s[|s| - 1] as int
  }

  lemma {:induction false} FromBigEndian(v: nat, n: nat)
    requires v < Power256(n)
    ensures FromBytes(BigEndian(v, n)) == v
  {
    if n > 0 {
      FromBigEndian(v / 256, n - 1);
      assert BigEndian(v, n)[..n - 1] == BigEndian(v / 256, n - 1);
    }
  }

  lemma Quotient(h: nat, l: nat)
    requires l < 256
    ensures (256 * h + l) / 256 == h && (256 * h + l) % 256 == l
  {
  }

  /** One more octet on a number and on its octets. */
  lemma Extend(h: Bytes, l: Byte, v: nat, low: nat)
    requires v == FromBytes(h) && v < Power256(|h|) && BigEndian(v, |h|) == h && low == l as int
    ensures FromBytes(h + [l]) == 256 * v + low
    ensures 256 * v + low < Power256(|h| + 1)
    ensures BigEndian(256 * v + low, |h| + 1) == h + [l]
  {
    OctetAgain(l);
    Quotient(v, low);
    var s := h + [l];
    assert s[..|h|] == h && s[|h|] == l;
  }

  lemma {:induction false} BigEndianFrom(s: Bytes)
    ensures FromBytes(s) < Power256(|s|) && BigEndian(FromBytes(s), |s|) == s
  {
    if |s| > 0 {
      var h := s[..|s| - 1];
      BigEndianFrom(h);
      OctetAgain(s[|s| - 1]);
      Extend(h, s[|s| - 1], FromBytes(h), s[|s| - 1] as int);
      assert s == h + [s[|s| - 1]];
    }
  }

  function Min(a: nat, b: nat): nat { if a < b then a else b }

  /** Octet by octet sum, as long as the shorter string. */
  function Xor(a: Bytes, b: Bytes): (s: Bytes)
    ensures |s| == Min(|a|, |b|)
  {
    seq(Min(|a|, |b|), i requires 0 <= i < Min(|a|, |b|) => Add(a[i], b[i]))
  }

  lemma XorTwice(a: Bytes, k: Bytes)
    requires |a| <= |k|
    ensures Xor(Xor(a, k), k) == a
  {
    forall i | 0 <= i < |a|
      ensures Add(Add(a[i], k[i]), k[i]) == a[i]
    {
      Associates(a[i], k[i], k[i]);
      Vanishes(k[i]);
      Vanishes(a[i]);
    }
  }

  lemma PowerMore(n: nat)
    ensures Power256(n + 1) == 256 * Power256(n)
  {
  }

  /** The first octet counts most. */
  lemma {:induction false} MostSignificantFirst(b: Byte, s: Bytes)
    ensures FromBytes([b] + s) == b as int * Power256(|s|) + FromBytes(s)
  {
    var all := [b] + s;
    if s == [] {
      assert all[..0] == [];
    } else {
      var h, l := s[..|s| - 1], s[|s| - 1];
      assert all[..|all| - 1] == [b] + h && all[|all| - 1] == l;
      MostSignificantFirst(b, h);
      PowerMore(|h|);
      Distributes(b as int, Power256(|h|));
    }
  }

  lemma Distributes(x: nat, y: nat)
    ensures 256 * (x * y) == x * (256 * y)
  {
  }
}
