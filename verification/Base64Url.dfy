/** base64url without padding (section 5 of RFC 4648) and the strict decoder that
    decodes, encodes again and compares. */
module Base64Url {

  import opened Wrappers

  type Octet = n: nat | n < 256

  /** A value of six bits. */
  type Sextet = n: nat | n < 64

  // ----- octets and six-bit values

  function First(a: nat): nat { a / 4 }
  function Second(a: nat, b: nat): nat { a % 4 * 16 + b / 16 }
  function Third(b: nat, c: nat): nat { b % 16 * 4 + c / 64 }
  function Fourth(c: nat): nat { c % 64 }

  function Split(g: seq<Octet>): (v: seq<Sextet>)
    requires |g| == 3
    ensures |v| == 4
  {
    [First(g[0]), Second(g[0], g[1]), Third(g[1], g[2]), Fourth(g[2])]
  }

  /** Three octets make four values; one or two octets left over make two or three, filled with zero bits. */
  function Sextets(b: seq<Octet>): (v: seq<Sextet>)
    ensures |v| % 4 != 1
  {
    if |b| == 0 then []
    else if |b| == 1 then [First(b[0]), Second(b[0], 0)]
    else if |b| == 2 then [First(b[0]), Second(b[0], b[1]), Third(b[1], 0)]
    else Split(b[..3]) + Sextets(b[3..])
  }

  function Octet1(w: nat, x: nat): nat { w * 4 + x / 16 }
  function Octet2(x: nat, y: nat): nat { x % 16 * 16 + y / 4 }
  function Octet3(y: nat, z: nat): nat { y % 4 * 64 + z }

  function Join(g: seq<Sextet>): (b: seq<Octet>)
    requires |g| == 4
    ensures |b| == 3
  {
    [Octet1(g[0], g[1]), Octet2(g[1], g[2]), Octet3(g[2], g[3])]
  }

  /** The platform's decoder: the bits that do not fill an octet are dropped. */
  function Octets(v: seq<Sextet>): seq<Octet>
    requires |v| % 4 != 1
  {
    if |v| == 0 then []
    else if |v| == 2 then [Octet1(v[0], v[1])]
    else if |v| == 3 then [Octet1(v[0], v[1]), Octet2(v[1], v[2])]
    else Join(v[..4]) + Octets(v[4..])
  }

  lemma OctetsBack(a: nat, b: nat, c: nat)
    requires a < 256 && b < 256 && c < 256
    ensures Octet1(First(a), Second(a, b)) == a
    ensures Octet2(Second(a, b), Third(b, c)) == b
    ensures Octet3(Third(b, c), Fourth(c)) == c
  {
  }

  lemma SextetsBack(w: nat, x: nat, y: nat, z: nat)
    requires w < 64 && x < 64 && y < 64 && z < 64
    ensures First(Octet1(w, x)) == w
    ensures Second(Octet1(w, x), Octet2(x, y)) == x
    ensures Third(Octet2(x, y), Octet3(y, z)) == y
    ensures Fourth(Octet3(y, z)) == z
  {
  }

  lemma TailsBack(w: nat, x: nat, y: nat)
    requires w < 64 && x < 64 && y < 64
    ensures First(Octet1(w, x)) == w
    ensures Second(Octet1(w, x), 0) == x / 16 * 16
    ensures Second(Octet1(w, x), Octet2(x, y)) == x
    ensures Third(Octet2(x, y), 0) == y / 4 * 4
  {
  }

  lemma JoinSplit(g: seq<Octet>)
    requires |g| == 3
    ensures Join(Split(g)) == g
  {
    OctetsBack(g[0], g[1], g[2]);
  }

  lemma SplitJoin(g: seq<Sextet>)
    requires |g| == 4
    ensures Split(Join(g)) == g
  {
    SextetsBack(g[0], g[1], g[2], g[3]);
  }

  lemma Cut<T>(h: seq<T>, t: seq<T>)
    ensures (h + t)[..|h|] == h && (h + t)[|h|..] == t
  {
  }

  lemma SextetsGroup(g: seq<Octet>, t: seq<Octet>)
    requires |g| == 3
    ensures Sextets(g + t) == Split(g) + Sextets(t)
  {
    Cut(g, t);
  }

  lemma OctetsGroup(g: seq<Sextet>, t: seq<Sextet>)
    requires |g| == 4 && |t| % 4 != 1
    ensures Octets(g + t) == Join(g) + Octets(t)
  {
    Cut(g, t);
  }

  lemma OneBack(a: Octet, v: seq<Sextet>)
    requires v == [First(a), Second(a, 0)]
    ensures Octets(v) == [a]
  {
    OctetsBack(a, 0, 0);
  }

  lemma TwoBack(a: Octet, b: Octet, v: seq<Sextet>)
    requires v == [First(a), Second(a, b), Third(b, 0)]
    ensures Octets(v) == [a, b]
  {
    OctetsBack(a, b, 0);
  }

  lemma ShortBack(b: seq<Octet>)
    requires |b| < 3
    ensures Octets(Sextets(b)) == b
  {
    if |b| == 1 {
      OneBack(b[0], Sextets(b));
    } else if |b| == 2 {
      TwoBack(b[0], b[1], Sextets(b));
    }
  }

  lemma {:induction false} OctetsOfSextets(b: seq<Octet>)
    ensures Octets(Sextets(b)) == b
  {
    if |b| < 3 {
      ShortBack(b);
    } else {
      var g, t := b[..3], b[3..];
      assert b == g + t;
      OctetsOfSextets(t);
      JoinSplit(g);
      SextetsGroup(g, t);
      OctetsGroup(Split(g), Sextets(t));
    }
  }

  /** The bits that fill no octet are zero. */
  predicate ZeroTail(v: seq<Sextet>) {
    (|v| % 4 == 2 ==> v[|v| - 1] % 16 == 0) && (|v| % 4 == 3 ==> v[|v| - 1] % 4 == 0)
  }

  lemma TwoTail(v: seq<Sextet>, b: seq<Octet>)
    requires |v| == 2 && b == [Octet1(v[0], v[1])]
    ensures Sextets(b) == v <==> v[1] % 16 == 0
  {
    TailsBack(v[0], v[1], 0);
    assert Sextets(b) == [v[0], v[1] / 16 * 16];
  }

  lemma ThreeTail(v: seq<Sextet>, b: seq<Octet>)
    requires |v| == 3 && b == [Octet1(v[0], v[1]), Octet2(v[1], v[2])]
    ensures Sextets(b) == v <==> v[2] % 4 == 0
  {
    TailsBack(v[0], v[1], v[2]);
    assert Sextets(b) == [v[0], v[1], v[2] / 4 * 4];
  }

  lemma ShortOctets(v: seq<Sextet>)
    ensures |v| == 2 ==> Octets(v) == [Octet1(v[0], v[1])]
    ensures |v| == 3 ==> Octets(v) == [Octet1(v[0], v[1]), Octet2(v[1], v[2])]
  {
  }

  lemma ShortTail(v: seq<Sextet>, b: seq<Octet>)
    requires |v| < 4 && |v| % 4 != 1 && b == Octets(v)
    ensures Sextets(b) == v <==> ZeroTail(v)
  {
    ShortOctets(v);
    if |v| == 0 {
      assert Sextets(b) == [];
    } else if |v| == 2 {
      TwoTail(v, b);
    } else {
      assert |v| == 3;
      ThreeTail(v, b);
    }
  }

  lemma SameTail<T>(h: seq<T>, s: seq<T>, t: seq<T>)
    ensures h + s == h + t <==> s == t
  {
    Cut(h, s);
    Cut(h, t);
  }

  lemma TailOfTail(v: seq<Sextet>)
    requires |v| >= 4 && |v| % 4 != 1
    ensures ZeroTail(v[4..]) == ZeroTail(v)
  {
    var t := v[4..];
    assert |t| % 4 == |v| % 4;
    if |t| > 0 {
      assert t[|t| - 1] == v[|v| - 1];
    }
  }

  /** Decoding and encoding again changes nothing exactly when the unused bits are zero. */
  lemma {:induction false} SextetsOfOctets(v: seq<Sextet>)
    requires |v| % 4 != 1
    ensures Sextets(Octets(v)) == v <==> ZeroTail(v)
  {
    if |v| < 4 {
      ShortTail(v, Octets(v));
    } else {
      var g, t := v[..4], v[4..];
      assert v == g + t;
      SextetsOfOctets(t);
      SplitJoin(g);
      OctetsGroup(g, t);
      SextetsGroup(Join(g), Octets(t));
      SameTail(g, Sextets(Octets(t)), t);
      TailOfTail(v);
    }
  }

  // ----- the text

  predicate InAlphabet(c: char) { 'A' <= c <= 'Z' || 'a' <= c <= 'z' || '0' <= c <= '9' || c == '-' || c == '_' }

  /** Upper case letters, lower case letters, digits, then the two marks that replace + and /. */
  function CharacterOf(s: nat): (c: char)
    requires s < 64
    ensures InAlphabet(c) && SextetOf(c) == s
  {
    if s < 26 then 'A' + s as char
    else if s < 52 then 'a' + (s - 26) as char
    else if s < 62 then '0' + (s - 52) as char
    else if s == 62 then '-'
    else '_'
  }

  function SextetOf(c: char): (s: nat)
    requires InAlphabet(c)
    ensures s < 64
  {
    if 'A' <= c <= 'Z' then c as int - 'A' as int
    else if 'a' <= c <= 'z' then c as int - 'a' as int + 26
    else if '0' <= c <= '9' then c as int - '0' as int + 52
    else if c == '-' then 62
    else 63
  }

  lemma AlphabetIs(c: char)
    requires InAlphabet(c)
    ensures CharacterOf(SextetOf(c)) == c
  {
  }

  function Encode(b: seq<Octet>): (t: string)
    ensures |t| == |Sextets(b)|
  {
    var v := Sextets(b);
    seq(|v|, i requires 0 <= i < |v| => CharacterOf(v[i]))
  }

  predicate AllInAlphabet(t: string) { forall i :: 0 <= i < |t| ==> InAlphabet(t[i]) }

  function Values(t: string): (v: seq<Sextet>)
    requires AllInAlphabet(t)
    ensures |v| == |t|
  {
    seq(|t|, i requires 0 <= i < |t| => SextetOf(t[i]))
  }

  function Decode(t: string): Result<seq<Octet>> {
    if !AllInAlphabet(t) || |t| % 4 == 1 then Raises
    else
      var out := Octets(Values(t));
      if Encode(out) != t then Raises else Ok(out)
  }

  lemma ValuesOfEncode(b: seq<Octet>)
    ensures AllInAlphabet(Encode(b)) && Values(Encode(b)) == Sextets(b)
  {
  }

  lemma SameText(b: seq<Octet>, t: string)
    requires AllInAlphabet(t)
    ensures Encode(b) == t <==> Sextets(b) == Values(t)
  {
    ValuesOfEncode(b);
    if Sextets(b) == Values(t) {
      forall i | 0 <= i < |t|
        ensures Encode(b)[i] == t[i]
      {
        AlphabetIs(t[i]);
      }
    }
  }

  /** The decoder accepts exactly the encoder's outputs, and inverts them. */
  lemma DecodeIsInverse(t: string, b: seq<Octet>)
    ensures Decode(t) == Ok(b) <==> t == Encode(b)
  {
    ValuesOfEncode(b);
    OctetsOfSextets(b);
  }

  /** A text is accepted exactly when it has the alphabet, a possible length and no stray bits. */
  lemma DecodeAccepts(t: string)
    ensures Decode(t).Ok? <==> AllInAlphabet(t) && |t| % 4 != 1 && ZeroTail(Values(t))
  {
    if AllInAlphabet(t) && |t| % 4 != 1 {
      SextetsOfOctets(Values(t));
      SameText(Octets(Values(t)), t);
    }
  }

  // ----- the code of RFC 4648

  const UPPER: string := "ABCDEFGHIJKLMNOPQRSTUVWXYZ"
  const LOWER: string := "abcdefghijklmnopqrstuvwxyz"
  const REST: string := "0123456789-_"

  /** Table 2 of section 5. */
  const ALPHABET: string := UPPER + LOWER + REST

  lemma UpperCase(s: nat)
    requires s < 26
    ensures UPPER[s] == 'A' + s as char
  {
  }

  lemma LowerCase(s: nat)
    requires s < 26
    ensures LOWER[s] == 'a' + s as char
  {
  }

  lemma TheRest(s: nat)
    requires s < 12
    ensures REST[s] == if s < 10 then '0' + s as char else if s == 10 then '-' else '_'
  {
  }

  lemma Pieces(a: string, b: string, c: string, s: nat)
    requires s < |a| + |b| + |c|
    ensures (a + b + c)[s] == if s < |a| then a[s] else if s < |a| + |b| then b[s - |a|] else c[s - |a| - |b|]
  {
  }

  lemma AlphabetTable(s: nat)
    requires s < 64
    ensures |ALPHABET| == 64 && CharacterOf(s) == ALPHABET[s]
  {
    Pieces(UPPER, LOWER, REST, s);
    if s < 26 {
      UpperCase(s);
    } else if s < 52 {
      LowerCase(s - 26);
    } else {
      TheRest(s - 52);
    }
  }

  /** The values of a group are the group's number in base 64; one or two octets are filled with four
      or two zero bits. */
  lemma GroupNumber(a: Octet, b: Octet, c: Octet)
    ensures
      var v: seq<nat> := Sextets([a, b, c]);
      |v| == 4 && 262144 * v[0] + 4096 * v[1] + 64 * v[2] + v[3] == 65536 * a + 256 * b + c
    ensures
      var v: seq<nat> := Sextets([a, b]);
      |v| == 3 && 4096 * v[0] + 64 * v[1] + v[2] == 4 * (256 * a + b)
    ensures
      var v: seq<nat> := Sextets([a]);
      |v| == 2 && 64 * v[0] + v[1] == 16 * a
  {
    assert [a, b, c][..3] == [a, b, c] && [a, b, c][3..] == [];
    assert Sextets([a, b, c]) == Split([a, b, c]) + Sextets([]);
  }

  /** Groups of three octets are written one after the other. */
  lemma EncodeGroups(g: seq<Octet>, rest: seq<Octet>)
    requires |g| == 3
    ensures Encode(g + rest) == Encode(g) + Encode(rest)
  {
    SextetsGroup(g, rest);
    SextetsGroup(g, []);
    assert g + [] == g && Split(g) + [] == Split(g);
    assert Sextets(g + rest) == Sextets(g) + Sextets(rest);
  }

  /** The test vectors of section 10 for one to three octets. */
  lemma KnownTexts()
    ensures Encode([0x66]) == "Zg" && Encode([0x66, 0x6F]) == "Zm8" && Encode([0x66, 0x6F, 0x6F]) == "Zm9v"
  {
    var one, two, three: seq<Octet> := [0x66], [0x66, 0x6F], [0x66, 0x6F, 0x6F];
    assert Sextets(one) == [25, 32] && Sextets(two) == [25, 38, 60];
    assert three[..3] == three && three[3..] == [] && Sextets([]) == [];
    assert Sextets(three) == Split(three) + [] == [25, 38, 61, 47];
    assert Encode(one)[0] == 'Z' && Encode(one)[1] == 'g';
    assert Encode(two)[0] == 'Z' && Encode(two)[1] == 'm' && Encode(two)[2] == '8';
    assert Encode(three)[0] == 'Z' && Encode(three)[1] == 'm' && Encode(three)[2] == '9' && Encode(three)[3] == 'v';
  }
}
