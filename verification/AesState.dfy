/** The transformations of the AES state (sections 5.1 and 5.3 of FIPS 197) and
    their inverses. The state is a block of 16 octets, column by column. */
module AesState {

  import opened Gf256
  import opened Sbox
  import opened Columns

  type Block = s: seq<Byte> | |s| == 16 witness seq(16, _ => 0 as Byte)

  type Word = s: seq<Byte> | |s| == 4 witness [0, 0, 0, 0]

  type Table = s: seq<Byte> | |s| == 256 witness seq(256, _ => 0 as Byte)

  /** The two substitution tables; they are valid once the module is initialised. */
  datatype Boxes = Boxes(sbox: Table, inv: Table) {
    ghost predicate Valid() { Tables(sbox, inv) }
  }

  // ----- the transformations of the state

  function AddRoundKey(s: Block, k: Block): Block { seq(16, i requires 0 <= i < 16 => Add(s[i], k[i])) }

  function Substitute(table: Table, s: Block): Block {
    seq(16, i requires 0 <= i < 16 => Entry(table, s[i]))
  }

  /** Where the octet at each place comes from when row r, the places 4c + r, turns left by r columns. */
  const LEFT: seq<nat> := [0, 5, 10, 15, 4, 9, 14, 3, 8, 13, 2, 7, 12, 1, 6, 11]

  const RIGHT: seq<nat> := [0, 13, 10, 7, 4, 1, 14, 11, 8, 5, 2, 15, 12, 9, 6, 3]

  function ShiftRows(s: Block): Block { seq(16, i requires 0 <= i < 16 => Pick(s, LEFT, i)) }

  function InvShiftRows(s: Block): Block { seq(16, i requires 0 <= i < 16 => Pick(s, RIGHT, i)) }

  function Pick(s: Block, places: seq<nat>, i: nat): Byte
    requires i < |places|
  {
    if places[i] < 16 then s[places[i]] else 0
  }

  function MixColumn(w: Word): Word {
    [MixRow(w[0], w[1], w[2], w[3]), MixRow(w[1], w[2], w[3], w[0]),
     MixRow(w[2], w[3], w[0], w[1]), MixRow(w[3], w[0], w[1], w[2])]
  }

  function InvMixColumn(w: Word): Word {
    [InvMixRow(w[0], w[1], w[2], w[3]), InvMixRow(w[1], w[2], w[3], w[0]),
     InvMixRow(w[2], w[3], w[0], w[1]), InvMixRow(w[3], w[0], w[1], w[2])]
  }

  function Column(s: Block, c: nat): Word
    requires c < 4
  {
    s[4 * c..4 * c + 4]
  }

  function Join(u: Word, v: Word, w: Word, x: Word): Block { u + v + w + x }

  function MixColumns(s: Block): Block {
    Join(MixColumn(Column(s, 0)), MixColumn(Column(s, 1)), MixColumn(Column(s, 2)), MixColumn(Column(s, 3)))
  }

  function InvMixColumns(s: Block): Block {
    Join(InvMixColumn(Column(s, 0)), InvMixColumn(Column(s, 1)), InvMixColumn(Column(s, 2)), InvMixColumn(Column(s, 3)))
  }

  // ----- each transformation is undone by its inverse

  lemma AddRoundKeyTwice(s: Block, k: Block)
    ensures AddRoundKey(AddRoundKey(s, k), k) == s
  {
    forall i | 0 <= i < 16
      ensures Add(Add(s[i], k[i]), k[i]) == s[i]
    {
      Associates(s[i], k[i], k[i]);
      Vanishes(k[i]);
      Vanishes(s[i]);
    }
  }

  lemma SubstituteInverse(b: Boxes, s: Block)
    requires b.Valid()
    ensures Substitute(b.inv, Substitute(b.sbox, s)) == s
    ensures Substitute(b.sbox, Substitute(b.inv, s)) == s
  {
    forall i | 0 <= i < 16
      ensures Entry(b.inv, Entry(b.sbox, s[i])) == s[i] && Entry(b.sbox, Entry(b.inv, s[i])) == s[i]
    {
      MutuallyInverse(b.sbox, b.inv, s[i]);
    }
  }

  lemma Places(i: nat)
    requires i < 16
    ensures i == 0 || i == 1 || i == 2 || i == 3 || i == 4 || i == 5 || i == 6 || i == 7 ||
      i == 8 || i == 9 || i == 10 || i == 11 || i == 12 || i == 13 || i == 14 || i == 15
  {
  }

  lemma LeftRight(i: nat)
    requires i < 16
    ensures LEFT[i] < 16 && RIGHT[i] < 16 && LEFT[RIGHT[i]] == i && RIGHT[LEFT[i]] == i
    ensures LEFT[i] == (i + 4 * (i % 4)) % 16 && RIGHT[i] == (i - 4 * (i % 4)) % 16
  {
    Places(i);
  }

  lemma ShiftRowsInverse(s: Block)
    ensures InvShiftRows(ShiftRows(s)) == s && ShiftRows(InvShiftRows(s)) == s
  {
    forall i | 0 <= i < 16
      ensures InvShiftRows(ShiftRows(s))[i] == s[i] && ShiftRows(InvShiftRows(s))[i] == s[i]
    {
      LeftRight(i);
    }
  }

  /** A column after the addition that turns mixing into un-mixing. */
  function Opposites(w: Word): Word {
    [Opposite(w[0], w[2]), Opposite(w[1], w[3]), Opposite(w[2], w[0]), Opposite(w[3], w[1])]
  }

  lemma MixColumnTwice(w: Word)
    ensures MixColumn(MixColumn(w)) == Opposites(w)
  {
    var a, b, c, d := w[0], w[1], w[2], w[3];
    RowOfRows(a, b, c, d);
    RowOfRows(b, c, d, a);
    RowOfRows(c, d, a, b);
    RowOfRows(d, a, b, c);
  }

  lemma RowOfRows(a: Byte, b: Byte, c: Byte, d: Byte)
    ensures MixRow(MixRow(a, b, c, d), MixRow(b, c, d, a), MixRow(c, d, a, b), MixRow(d, a, b, c)) == Opposite(a, c)
  {
    MixIsMixRow(a, b, c, d);
    MixIsMixRow(b, c, d, a);
    MixIsMixRow(c, d, a, b);
    MixIsMixRow(d, a, b, c);
    MixTwice(a, b, c, d);
    MixIsMixRow(Mix(a, b, c, d), Mix(b, c, d, a), Mix(c, d, a, b), Mix(d, a, b, c));
  }

  lemma OppositesTwice(w: Word)
    ensures Opposites(Opposites(w)) == w
  {
    OppositeTwice(w[0], w[2]);
    OppositeTwice(w[1], w[3]);
    OppositeTwice(w[2], w[0]);
    OppositeTwice(w[3], w[1]);
  }

  lemma InvRow(a: Byte, b: Byte, c: Byte, d: Byte)
    ensures InvMixRow(a, b, c, d) == MixRow(Opposite(a, c), Opposite(b, d), Opposite(c, a), Opposite(d, b))
  {
    InvMixIsMix(a, b, c, d);
    MixIsMixRow(Opposite(a, c), Opposite(b, d), Opposite(c, a), Opposite(d, b));
  }

  lemma InvMixColumnIs(w: Word)
    ensures InvMixColumn(w) == MixColumn(Opposites(w))
  {
    InvRow(w[0], w[1], w[2], w[3]);
    InvRow(w[1], w[2], w[3], w[0]);
    InvRow(w[2], w[3], w[0], w[1]);
    InvRow(w[3], w[0], w[1], w[2]);
  }

  /** From the fourth mixing of a column back to the column. */
  lemma FourTimes(w: Word, m: Word, mm: Word, mmm: Word)
    requires m == MixColumn(w) && mm == MixColumn(m) && mmm == MixColumn(mm)
    ensures MixColumn(mmm) == w && mmm == Opposites(m)
  {
    MixColumnTwice(w);
    MixColumnTwice(m);
    MixColumnTwice(mm);
    OppositesTwice(w);
  }

  lemma MixColumnInverse(w: Word)
    ensures InvMixColumn(MixColumn(w)) == w && MixColumn(InvMixColumn(w)) == w
  {
    var m := MixColumn(w);
    var mm := MixColumn(m);
    FourTimes(w, m, mm, MixColumn(mm));
    InvMixColumnIs(m);
    InvMixColumnIs(w);
    MixColumnTwice(Opposites(w));
    OppositesTwice(w);
  }

  lemma Columns4(u: Word, v: Word, w: Word, x: Word)
    ensures Column(Join(u, v, w, x), 0) == u && Column(Join(u, v, w, x), 1) == v
    ensures Column(Join(u, v, w, x), 2) == w && Column(Join(u, v, w, x), 3) == x
  {
  }

  lemma Rejoined(s: Block)
    ensures Join(Column(s, 0), Column(s, 1), Column(s, 2), Column(s, 3)) == s
  {
  }

  lemma MixColumnsInverse(s: Block)
    ensures InvMixColumns(MixColumns(s)) == s && MixColumns(InvMixColumns(s)) == s
  {
    var a, b, c, d := Column(s, 0), Column(s, 1), Column(s, 2), Column(s, 3);
    MixColumnInverse(a);
    MixColumnInverse(b);
    MixColumnInverse(c);
    MixColumnInverse(d);
    Columns4(MixColumn(a), MixColumn(b), MixColumn(c), MixColumn(d));
    Columns4(InvMixColumn(a), InvMixColumn(b), InvMixColumn(c), InvMixColumn(d));
    Rejoined(s);
  }
}
