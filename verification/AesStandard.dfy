/** The key expansion and the rounds octet by octet, as FIPS 197 writes them: each
    octet from the octets it depends on, without the words, columns and row
    shifts the implementation goes through. */
module AesStandard {

  import opened Gf256
  import opened Sbox
  import opened Columns
  import opened AesState
  import opened AesCipher

  /** The round constants of section 5.2. */
  const RCON: seq<Byte> := [0x01, 0x02, 0x04, 0x08, 0x10, 0x20, 0x40, 0x80, 0x1B, 0x36]

  // ----- the field and the affine step

  /** Multiplication by x on the basis; with linearity, on every byte. */
  lemma XTimeOnBasis()
    ensures XTime(0x01) == 0x02 && XTime(0x02) == 0x04 && XTime(0x04) == 0x08 && XTime(0x08) == 0x10
    ensures XTime(0x10) == 0x20 && XTime(0x20) == 0x40 && XTime(0x40) == 0x80 && XTime(0x80) == 0x1B
  {
  }

  lemma MulSmall(a: Byte)
    ensures Mul(a, 1) == a && Mul(a, 2) == XTime(a) && Mul(a, 3) == a ^ XTime(a)
  {
    assert Mul(a, 0) == 0 && Mul(XTime(a), 0) == 0 && Mul(XTime(XTime(a)), 0) == 0;
    assert Mul(XTime(a), 1) == XTime(a);
  }

  /** The products of section 4.2: {57} times {13} is {fe}, and {57} times {83} is {c1}. */
  lemma StandardProducts()
    ensures Mul(0x57, 0x13) == 0xFE && Mul(0x57, 0x83) == 0xC1
  {
    assert XTime(0x57) == 0xAE && XTime(0xAE) == 0x47 && XTime(0x47) == 0x8E && XTime(0x8E) == 0x07;
    assert XTime(0x07) == 0x0E && XTime(0x0E) == 0x1C && XTime(0x1C) == 0x38;
    assert Mul(0x38, 1) == 0x38;
    assert Mul(0x1C, 2) == 0x38;
    assert Mul(0x0E, 4) == 0x38;
    assert Mul(0x07, 8) == 0x38;
    assert Mul(0x07, 1) == 0x07;
    assert Mul(0x8E, 0x10) == 0x38 && Mul(0x8E, 2) == 0x07;
    assert Mul(0x47, 0x20) == 0x38 && Mul(0x47, 4) == 0x07;
    assert Mul(0xAE, 0x41) == 0x38 ^ 0xAE && Mul(0xAE, 9) == 0x07 ^ 0xAE;
  }

  function Bit(b: Byte, i: nat): Byte
    requires i < 8
  {
    (b >> i) & 1
  }

  /** Equation 5.1: each bit of the affine step is the sum of the bit itself, of the bits four to seven places after it
      (modulo 8), and of its bit of 0x63. */
  lemma AffineLow(b: Byte)
    ensures Bit(Affine(b), 0) == Bit(b, 0) ^ Bit(b, 4) ^ Bit(b, 5) ^ Bit(b, 6) ^ Bit(b, 7) ^ 1
    ensures Bit(Affine(b), 1) == Bit(b, 1) ^ Bit(b, 5) ^ Bit(b, 6) ^ Bit(b, 7) ^ Bit(b, 0) ^ 1
    ensures Bit(Affine(b), 2) == Bit(b, 2) ^ Bit(b, 6) ^ Bit(b, 7) ^ Bit(b, 0) ^ Bit(b, 1) ^ 0
    ensures Bit(Affine(b), 3) == Bit(b, 3) ^ Bit(b, 7) ^ Bit(b, 0) ^ Bit(b, 1) ^ Bit(b, 2) ^ 0
  {
  }

  lemma AffineHigh(b: Byte)
    ensures Bit(Affine(b), 4) == Bit(b, 4) ^ Bit(b, 0) ^ Bit(b, 1) ^ Bit(b, 2) ^ Bit(b, 3) ^ 0
    ensures Bit(Affine(b), 5) == Bit(b, 5) ^ Bit(b, 1) ^ Bit(b, 2) ^ Bit(b, 3) ^ Bit(b, 4) ^ 1
    ensures Bit(Affine(b), 6) == Bit(b, 6) ^ Bit(b, 2) ^ Bit(b, 3) ^ Bit(b, 4) ^ Bit(b, 5) ^ 1
    ensures Bit(Affine(b), 7) == Bit(b, 7) ^ Bit(b, 3) ^ Bit(b, 4) ^ Bit(b, 5) ^ Bit(b, 6) ^ 0
  {
  }

  // ----- the key expansion

  lemma RconIs(j: nat)
    requires 1 <= j <= 10
    ensures Rcon(j) == RCON[j - 1]
  {
    if j > 1 {
      RconIs(j - 1);
      XTimeOnBasis();
      assert XTime(0x1B) == 0x36;
    }
  }

  /** A longer expansion begins with a shorter one. */
  lemma {:induction false} ExpansionKeeps(b: Boxes, key: Block, m: nat, n: nat, i: nat)
    requires 4 <= m <= n && i < m
    ensures Expansion(b, key, n)[i] == Expansion(b, key, m)[i]
  {
    if m < n {
      ExpansionKeeps(b, key, m, n - 1, i);
    }
  }

  lemma WordIs(b: Boxes, key: Block, i: nat)
    requires 4 <= i < 44
    ensures
      var w := Expansion(b, key, 44);
      w[i] == NextWord(b, w[i - 4], w[i - 1], i)
  {
    ExpansionKeeps(b, key, i + 1, 44, i);
    ExpansionKeeps(b, key, i, 44, i - 4);
    ExpansionKeeps(b, key, i, 44, i - 1);
  }

  lemma PlainWord(b: Boxes, first: Word, last: Word, i: nat, j: nat)
    requires j < 4 && i % 4 != 0
    ensures NextWord(b, first, last, i)[j] == Add(first[j], last[j])
  {
  }

  lemma TurnedWord(b: Boxes, first: Word, last: Word, i: nat)
    requires i % 4 == 0
    ensures
      var w := NextWord(b, first, last, i);
      && w[0] == Add(first[0], Add(Entry(b.sbox, last[1]), Rcon(i / 4)))
      && w[1] == Add(first[1], Entry(b.sbox, last[2]))
      && w[2] == Add(first[2], Entry(b.sbox, last[3]))
      && w[3] == Add(first[3], Entry(b.sbox, last[0]))
  {
    Vanishes(Entry(b.sbox, last[2]));
    Vanishes(Entry(b.sbox, last[3]));
    Vanishes(Entry(b.sbox, last[0]));
  }

  /** Octet j of word i of an expansion: the sum of the octets four words and one word before it; in every fourth word
      the latter is turned by one and substituted, and the first octet has the round constant added. */
  predicate WordRule(b: Boxes, w: seq<Word>, i: nat, j: nat)
    requires 4 <= i < 44 <= |w| && j < 4
  {
    if i % 4 != 0 then w[i][j] == Add(w[i - 4][j], w[i - 1][j])
    else if j == 0 then w[i][0] == Add(w[i - 4][0], Add(Entry(b.sbox, w[i - 1][1]), RCON[i / 4 - 1]))
    else w[i][j] == Add(w[i - 4][j], Entry(b.sbox, w[i - 1][(j + 1) % 4]))
  }

  lemma WordOctet(b: Boxes, w: seq<Word>, i: nat, j: nat)
    requires 4 <= i < 44 <= |w| && j < 4 && w[i] == NextWord(b, w[i - 4], w[i - 1], i)
    ensures WordRule(b, w, i, j)
  {
    if i % 4 != 0 {
      PlainWord(b, w[i - 4], w[i - 1], i, j);
    } else {
      RconIs(i / 4);
      TurnedOctet(b, w[i - 4], w[i - 1], i, j);
    }
  }

  lemma TurnedOctet(b: Boxes, first: Word, last: Word, i: nat, j: nat)
    requires i % 4 == 0 && j < 4
    ensures j == 0 ==>
      NextWord(b, first, last, i)[0] == Add(first[0], Add(Entry(b.sbox, last[1]), Rcon(i / 4)))
    ensures j > 0 ==> NextWord(b, first, last, i)[j] == Add(first[j], Entry(b.sbox, last[(j + 1) % 4]))
  {
    TurnedWord(b, first, last, i);
    if j == 1 {
    } else if j == 2 {
    } else if j == 3 {
    }
  }

  /** The 44 words of the expansion, octet by octet: the key, and the rule. */
  lemma WordOctets(b: Boxes, key: Block, i: nat, j: nat)
    requires i < 44 && j < 4
    ensures i < 4 ==> Expansion(b, key, 44)[i][j] == key[4 * i + j]
    ensures i >= 4 ==> WordRule(b, Expansion(b, key, 44), i, j)
  {
    if i < 4 {
      ExpansionKeeps(b, key, 4, 44, i);
      FirstWords(b, key, i, j);
    } else {
      WordIs(b, key, i);
      WordOctet(b, Expansion(b, key, 44), i, j);
    }
  }

  lemma FirstWords(b: Boxes, key: Block, i: nat, j: nat)
    requires i < 4 && j < 4
    ensures Expansion(b, key, 4)[i][j] == key[4 * i + j]
  {
    assert Expansion(b, key, 4)[i] == Column(key, i);
  }

  /** The round keys are the words, four at a time. */
  ghost predicate KeysFrom(k: RoundKeys, w: seq<Word>) {
    |w| == 44 && forall r: nat :: r < 11 ==> k[r] == RoundKey(w, r)
  }

  lemma KeyOctet(k: RoundKeys, w: seq<Word>, r: nat, c: nat, j: nat)
    requires KeysFrom(k, w) && r < 11 && c < 4 && j < 4
    ensures k[r][4 * c + j] == w[4 * r + c][j]
  {
    assert k[r] == RoundKey(w, r);
    JoinOctet(w[4 * r], w[4 * r + 1], w[4 * r + 2], w[4 * r + 3], c, j);
  }

  lemma JoinOctet(u: Word, v: Word, w: Word, x: Word, c: nat, j: nat)
    requires c < 4 && j < 4
    ensures Join(u, v, w, x)[4 * c + j] == [u, v, w, x][c][j]
  {
  }

  /** Octet j of column c of round key r, without words: it comes from the column before it, and the same column of the
      round key before; the column before the first one is the last of the round key before, turned by one and
      substituted. */
  predicate KeyRule(b: Boxes, k: RoundKeys, r: nat, c: nat, j: nat)
    requires 0 < r < 11 && c < 4 && j < 4
  {
    if c > 0 then k[r][4 * c + j] == Add(k[r - 1][4 * c + j], k[r][4 * (c - 1) + j])
    else if j == 0 then k[r][0] == Add(k[r - 1][0], Add(Entry(b.sbox, k[r - 1][13]), RCON[r - 1]))
    else k[r][j] == Add(k[r - 1][j], Entry(b.sbox, k[r - 1][12 + (j + 1) % 4]))
  }

  /** The key schedule, octet by octet: the first round key is the key. */
  lemma ScheduleOctets(b: Boxes, key: Block, r: nat, c: nat, j: nat)
    requires r < 11 && c < 4 && j < 4
    ensures r == 0 ==> Schedule(b, key)[0][4 * c + j] == key[4 * c + j]
    ensures r > 0 ==> KeyRule(b, Schedule(b, key), r, c, j)
  {
    var k, w := Schedule(b, key), Expansion(b, key, 44);
    assert KeysFrom(k, w);
    WordOctets(b, key, 4 * r + c, j);
    if r > 0 {
      KeyFromWord(b, k, w, r, c, j);
    } else {
      KeyOctet(k, w, r, c, j);
    }
  }

  lemma KeyFromWord(b: Boxes, k: RoundKeys, w: seq<Word>, r: nat, c: nat, j: nat)
    requires KeysFrom(k, w) && 0 < r < 11 && c < 4 && j < 4 && WordRule(b, w, 4 * r + c, j)
    ensures KeyRule(b, k, r, c, j)
  {
    FourTimesAnd(r, c);
    KeyOctet(k, w, r, c, j);
    KeyOctet(k, w, r - 1, c, j);
    ColumnBefore(k, w, r, c, j);
    KeyFromWords(b, w, k, r, c, j);
  }

  lemma ColumnBefore(k: RoundKeys, w: seq<Word>, r: nat, c: nat, j: nat)
    requires KeysFrom(k, w) && 0 < r < 11 && c < 4 && j < 4
    ensures c > 0 ==> k[r][4 * (c - 1) + j] == w[4 * r + (c - 1)][j]
    ensures c == 0 ==> k[r - 1][12 + (j + 1) % 4] == w[4 * (r - 1) + 3][(j + 1) % 4]
  {
    if c > 0 {
      KeyOctet(k, w, r, c - 1, j);
    } else {
      KeyOctet(k, w, r - 1, 3, (j + 1) % 4);
    }
  }

  lemma KeyFromWords(b: Boxes, w: seq<Word>, k: RoundKeys, r: nat, c: nat, j: nat)
    requires 0 < r < 11 && c < 4 && j < 4 && |w| == 44 && WordRule(b, w, 4 * r + c, j)
    requires (4 * r + c) % 4 == c && (4 * r + c) / 4 == r
    requires k[r][4 * c + j] == w[4 * r + c][j] && k[r - 1][4 * c + j] == w[4 * (r - 1) + c][j]
    requires c > 0 ==> k[r][4 * (c - 1) + j] == w[4 * r + (c - 1)][j]
    requires c == 0 ==> k[r - 1][12 + (j + 1) % 4] == w[4 * (r - 1) + 3][(j + 1) % 4]
    ensures KeyRule(b, k, r, c, j)
  {
  }

  lemma FourTimesAnd(r: nat, c: nat)
    requires c < 4
    ensures (4 * r + c) % 4 == c && (4 * r + c) / 4 == r
  {
  }

  // ----- the rounds

  /** The substituted octet that the row shift brings to row q (modulo 4) of column c. */
  function Shifted(b: Boxes, s: Block, c: nat, q: nat): Byte {
    Entry(b.sbox, s[4 * ((c + q % 4) % 4) + q % 4])
  }

  lemma Turned(c: nat, j: nat)
    requires c < 4 && j < 4
    ensures LEFT[4 * c + j] == 4 * ((c + j) % 4) + j
  {
    Places(4 * c + j);
  }

  lemma HalfAt(b: Boxes, s: Block, i: nat, p: nat)
    requires i < 16 && p < 16 && LEFT[i] == p
    ensures Half(b, s)[i] == Entry(b.sbox, s[p])
  {
  }

  lemma HalfOctet(b: Boxes, s: Block, c: nat, j: nat, q: nat)
    requires c < 4 && j < 4 && q % 4 == j
    ensures Half(b, s)[4 * c + j] == Shifted(b, s, c, q)
  {
    Turned(c, j);
    HalfAt(b, s, 4 * c + j, 4 * ((c + j) % 4) + j);
  }

  lemma MixedColumn(s: Block, c: nat)
    requires c < 4
    ensures Column(MixColumns(s), c) == MixColumn(Column(s, c))
  {
    Columns4(MixColumn(Column(s, 0)), MixColumn(Column(s, 1)), MixColumn(Column(s, 2)), MixColumn(Column(s, 3)));
    assert c == 0 || c == 1 || c == 2 || c == 3;
  }

  lemma OctetOfColumn(s: Block, c: nat, q: nat)
    requires c < 4 && q < 4
    ensures Column(s, c)[q] == s[4 * c + q]
  {
  }

  lemma MixedOctet(s: Block, c: nat, j: nat)
    requires c < 4 && j < 4
    ensures MixColumns(s)[4 * c + j] ==
      MixRow(s[4 * c + j], s[4 * c + (j + 1) % 4], s[4 * c + (j + 2) % 4], s[4 * c + (j + 3) % 4])
  {
    OctetOfColumn(MixColumns(s), c, j);
    MixedColumn(s, c);
    ColumnOctet(Column(s, c), j);
    OctetOfColumn(s, c, j);
    OctetOfColumn(s, c, (j + 1) % 4);
    OctetOfColumn(s, c, (j + 2) % 4);
    OctetOfColumn(s, c, (j + 3) % 4);
  }

  lemma ColumnOctet(w: Word, j: nat)
    requires j < 4
    ensures MixColumn(w)[j] == MixRow(w[j], w[(j + 1) % 4], w[(j + 2) % 4], w[(j + 3) % 4])
  {
    assert j == 0 || j == 1 || j == 2 || j == 3;
  }

  /** The matrix row 2, 3, 1, 1 on the shifted and substituted octets, and the key octet. */
  function FullOctet(b: Boxes, s: Block, k: Byte, c: nat, j: nat): Byte {
    var x, y, z, w := Shifted(b, s, c, j), Shifted(b, s, c, j + 1), Shifted(b, s, c, j + 2), Shifted(b, s, c, j + 3);
    Add(Add(Add(Mul(x, 2), Mul(y, 3)), Add(z, w)), k)
  }

  /** Octet j of column c after round r, from the state before the round and the round key: nine full rounds, and a last
      one without the matrix. */
  predicate RoundRule(b: Boxes, before: Block, after: Block, key: Block, r: nat, c: nat, j: nat)
    requires c < 4 && j < 4
  {
    after[4 * c + j] ==
      if r < 10 then FullOctet(b, before, key[4 * c + j], c, j) else Add(Shifted(b, before, c, j), key[4 * c + j])
  }

  lemma RoundOctet(b: Boxes, before: Block, after: Block, key: Block, r: nat, c: nat, j: nat)
    requires c < 4 && j < 4
    requires after == if r < 10 then FullRound(b, before, key) else AddRoundKey(Half(b, before), key)
    ensures RoundRule(b, before, after, key, r, c, j)
  {
    if r < 10 {
      FullRoundOctet(b, before, key, c, j);
    } else {
      HalfOctet(b, before, c, j, j);
      LastOctet(Half(b, before), key, c, j);
    }
  }

  /** Every octet of state r comes from state r - 1 by the rule. */
  ghost predicate RoundFollows(b: Boxes, states: seq<Block>, k: RoundKeys, r: nat)
    requires |states| == 11 && 0 < r <= 10
  {
    var before, after, key := states[r - 1], states[r], k[r];
    forall c: nat, j: nat :: c < 4 && j < 4 ==> RoundRule(b, before, after, key, r, c, j)
  }

  lemma RoundFollowed(b: Boxes, states: seq<Block>, k: RoundKeys, r: nat, before: Block, after: Block)
    requires |states| == 11 && 0 < r <= 10 && states[r - 1] == before && states[r] == after
    requires after == if r < 10 then FullRound(b, before, k[r]) else AddRoundKey(Half(b, before), k[r])
    ensures RoundFollows(b, states, k, r)
  {
    forall c: nat, j: nat | c < 4 && j < 4
      ensures RoundRule(b, before, after, k[r], r, c, j)
    {
      RoundOctet(b, before, after, k[r], r, c, j);
    }
  }

  /** One more round. */
  lemma RoundNext(b: Boxes, k: RoundKeys, block: Block, r: nat, before: Block) returns (after: Block)
    requires 0 < r <= 10 && before == Round(b, k, block, r - 1)
    ensures after == Round(b, k, block, r)
    ensures after == if r < 10 then FullRound(b, before, k[r]) else AddRoundKey(Half(b, before), k[r])
  {
    after := if r < 10 then FullRound(b, before, k[r]) else AddRoundKey(Half(b, before), k[r]);
  }

  lemma StatesOf(b: Boxes, k: RoundKeys, block: Block) returns (states: seq<Block>)
    ensures |states| == 11 && forall r: nat :: r <= 10 ==> states[r] == Round(b, k, block, r)
  {
    states := seq(11, r requires 0 <= r < 11 => Round(b, k, block, r));
  }

  lemma FirstState(b: Boxes, k: RoundKeys, block: Block, i: nat)
    requires i < 16
    ensures Round(b, k, block, 0)[i] == Add(block[i], k[0][i])
  {
  }

  lemma StateFollows(b: Boxes, k: RoundKeys, block: Block, states: seq<Block>, r: nat)
    requires |states| == 11 && 0 < r <= 10
    requires states[r - 1] == Round(b, k, block, r - 1) && states[r] == Round(b, k, block, r)
    ensures RoundFollows(b, states, k, r)
  {
    var after := RoundNext(b, k, block, r, states[r - 1]);
    RoundFollowed(b, states, k, r, states[r - 1], after);
  }

  /** The cipher of section 5.1, octet by octet: the states after each round follow the rule from the sum of the block
      and the first round key to the enciphered block. */
  lemma CipherOctets(b: Boxes, k: RoundKeys, block: Block) returns (states: seq<Block>)
    ensures |states| == 11 && Cipher(b, k, block) == states[10]
    ensures forall i: nat :: i < 16 ==> states[0][i] == Add(block[i], k[0][i])
    ensures forall r: nat :: 0 < r <= 10 ==> RoundFollows(b, states, k, r)
  {
    states := StatesOf(b, k, block);
    forall i: nat | i < 16
      ensures states[0][i] == Add(block[i], k[0][i])
    {
      FirstState(b, k, block, i);
    }
    forall r: nat | 0 < r <= 10
      ensures RoundFollows(b, states, k, r)
    {
      StateFollows(b, k, block, states, r);
    }
  }

  lemma LastOctet(h: Block, k: Block, c: nat, j: nat)
    requires c < 4 && j < 4
    ensures AddRoundKey(h, k)[4 * c + j] == Add(h[4 * c + j], k[4 * c + j])
  {
  }

  lemma FullRoundOctet(b: Boxes, s: Block, k: Block, c: nat, j: nat)
    requires c < 4 && j < 4
    ensures FullRound(b, s, k)[4 * c + j] == FullOctet(b, s, k[4 * c + j], c, j)
  {
    HalfOctet(b, s, c, j, j);
    HalfOctet(b, s, c, (j + 1) % 4, j + 1);
    HalfOctet(b, s, c, (j + 2) % 4, j + 2);
    HalfOctet(b, s, c, (j + 3) % 4, j + 3);
    KeyedOctet(Half(b, s), k, c, j);
    RowIs(Shifted(b, s, c, j), Shifted(b, s, c, j + 1), Shifted(b, s, c, j + 2), Shifted(b, s, c, j + 3));
  }

  lemma KeyedOctet(h: Block, k: Block, c: nat, j: nat)
    requires c < 4 && j < 4
    ensures AddRoundKey(MixColumns(h), k)[4 * c + j] ==
      Add(MixRow(h[4 * c + j], h[4 * c + (j + 1) % 4], h[4 * c + (j + 2) % 4], h[4 * c + (j + 3) % 4]), k[4 * c + j])
  {
    MixedOctet(h, c, j);
  }

  lemma RowIs(x: Byte, y: Byte, z: Byte, w: Byte)
    ensures MixRow(x, y, z, w) == Add(Add(Mul(x, 2), Mul(y, 3)), Add(z, w))
  {
    MulSmall(x);
    MulSmall(y);
  }
}
