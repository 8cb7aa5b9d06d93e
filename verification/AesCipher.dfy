/** AES-128 on one block: the cipher, the inverse cipher and the key expansion of
    sections 5.1, 5.2 and 5.3 of FIPS 197 as functions, and the class whose loops
    compute them. */
module AesCipher {

  import opened Gf256
  import opened Sbox
  import opened Columns
  import opened AesState

  // ----- the cipher and its inverse

  type RoundKeys = k: seq<Block> | |k| == 11 witness seq(11, _ => seq(16, _ => 0 as Byte))

  /** Substitution and row shift, the part of a round without key or mixing. */
  function Half(b: Boxes, s: Block): Block {
    ShiftRows(Substitute(b.sbox, s))
  }

  function InvHalf(b: Boxes, s: Block): Block {
    Substitute(b.inv, InvShiftRows(s))
  }

  function FullRound(b: Boxes, s: Block, k: Block): Block {
    AddRoundKey(MixColumns(Half(b, s)), k)
  }

  function InvFullRound(b: Boxes, s: Block, k: Block): Block {
    InvMixColumns(AddRoundKey(InvHalf(b, s), k))
  }

  /** The state after round r. */
  function Round(b: Boxes, keys: RoundKeys, block: Block, r: nat): Block
    requires r <= 10
  {
    if r == 0 then AddRoundKey(block, keys[0])
    else if r < 10 then FullRound(b, Round(b, keys, block, r - 1), keys[r])
    else AddRoundKey(Half(b, Round(b, keys, block, 9)), keys[10])
  }

  function Cipher(b: Boxes, keys: RoundKeys, block: Block): Block {
    Round(b, keys, block, 10)
  }

  /** The state after n rounds of the inverse cipher. */
  function InvRound(b: Boxes, keys: RoundKeys, block: Block, n: nat): Block
    requires n <= 10
  {
    if n == 0 then AddRoundKey(block, keys[10])
    else if n < 10 then InvFullRound(b, InvRound(b, keys, block, n - 1), keys[10 - n])
    else AddRoundKey(InvHalf(b, InvRound(b, keys, block, 9)), keys[0])
  }

  function InvCipher(b: Boxes, keys: RoundKeys, block: Block): Block {
    InvRound(b, keys, block, 10)
  }

  lemma InvRoundNext(b: Boxes, keys: RoundKeys, block: Block, n: nat, rnd: nat, s: Block)
    requires n + rnd == 9 && s == InvRound(b, keys, block, n)
    ensures rnd == 0 ==> InvRound(b, keys, block, n + 1) == AddRoundKey(InvHalf(b, s), keys[rnd])
    ensures rnd != 0 ==> InvRound(b, keys, block, n + 1) == InvFullRound(b, s, keys[rnd])
  {
  }

  lemma HalfUndone(b: Boxes, s: Block)
    requires b.Valid()
    ensures InvHalf(b, Half(b, s)) == s && Half(b, InvHalf(b, s)) == s
  {
    ShiftRowsInverse(Substitute(b.sbox, s));
    ShiftRowsInverse(s);
    SubstituteInverse(b, s);
    SubstituteInverse(b, InvShiftRows(s));
  }

  lemma RoundUndone(b: Boxes, s: Block, k: Block)
    requires b.Valid()
    ensures InvFullRound(b, Half(b, FullRound(b, s, k)), k) == Half(b, s)
  {
    HalfUndone(b, FullRound(b, s, k));
    AddRoundKeyTwice(MixColumns(Half(b, s)), k);
    MixColumnsInverse(Half(b, s));
  }

  lemma InvRoundUndone(b: Boxes, s: Block, k: Block)
    requires b.Valid()
    ensures FullRound(b, InvHalf(b, InvFullRound(b, s, k)), k) == InvHalf(b, s)
  {
    HalfUndone(b, InvFullRound(b, s, k));
    MixColumnsInverse(AddRoundKey(InvHalf(b, s), k));
    AddRoundKeyTwice(InvHalf(b, s), k);
  }

  /** After n inverse rounds the state is the one the cipher had inside round 10 - n. */
  lemma {:induction false} InvRoundMeets(b: Boxes, keys: RoundKeys, block: Block, n: nat)
    requires b.Valid() && n <= 9
    ensures InvRound(b, keys, Cipher(b, keys, block), n) == Half(b, Round(b, keys, block, 9 - n))
  {
    if n == 0 {
      AddRoundKeyTwice(Half(b, Round(b, keys, block, 9)), keys[10]);
    } else {
      InvRoundMeets(b, keys, block, n - 1);
      RoundUndone(b, Round(b, keys, block, 9 - n), keys[10 - n]);
    }
  }

  /** Deciphering undoes ciphering. */
  lemma DecipherCipher(b: Boxes, keys: RoundKeys, block: Block)
    requires b.Valid()
    ensures InvCipher(b, keys, Cipher(b, keys, block)) == block
  {
    InvRoundMeets(b, keys, block, 9);
    HalfUndone(b, Round(b, keys, block, 0));
    AddRoundKeyTwice(block, keys[0]);
  }

  /** The cipher started on a deciphered block meets the states of the inverse cipher. */
  lemma {:induction false} RoundMeets(b: Boxes, keys: RoundKeys, block: Block, r: nat)
    requires b.Valid() && r <= 9
    ensures Round(b, keys, InvCipher(b, keys, block), r) == InvHalf(b, InvRound(b, keys, block, 9 - r))
  {
    if r == 0 {
      AddRoundKeyTwice(InvHalf(b, InvRound(b, keys, block, 9)), keys[0]);
    } else {
      RoundMeets(b, keys, block, r - 1);
      InvRoundUndone(b, InvRound(b, keys, block, 9 - r), keys[r]);
    }
  }

  /** Ciphering undoes deciphering: for each key the cipher is a permutation of the blocks. */
  lemma CipherDecipher(b: Boxes, keys: RoundKeys, block: Block)
    requires b.Valid()
    ensures Cipher(b, keys, InvCipher(b, keys, block)) == block
  {
    RoundMeets(b, keys, block, 9);
    HalfUndone(b, InvRound(b, keys, block, 0));
    AddRoundKeyTwice(block, keys[10]);
  }

  // ----- the key expansion

  function AddWord(u: Word, v: Word): Word { [Add(u[0], v[0]), Add(u[1], v[1]), Add(u[2], v[2]), Add(u[3], v[3])] }

  function RotWord(w: Word): Word { [w[1], w[2], w[3], w[0]] }

  function SubWord(b: Boxes, w: Word): Word {
    [Entry(b.sbox, w[0]), Entry(b.sbox, w[1]), Entry(b.sbox, w[2]), Entry(b.sbox, w[3])]
  }

  /** x^(j - 1) */
  function Rcon(j: nat): Byte {
    if j <= 1 then 1 else XTime(Rcon(j - 1))
  }

  /** Word i of the expansion, from the words four and one before it. */
  function NextWord(b: Boxes, first: Word, last: Word, i: nat): Word {
    AddWord(first, if i % 4 == 0 then AddWord(SubWord(b, RotWord(last)), [Rcon(i / 4), 0, 0, 0]) else last)
  }

  /** The first n words of the expansion: the key, and then each word from the words before it. */
  function Expansion(b: Boxes, key: Block, n: nat): (w: seq<Word>)
    requires n >= 4
    ensures |w| == n
  {
    if n == 4 then [Column(key, 0), Column(key, 1), Column(key, 2), Column(key, 3)]
    else
      var w := Expansion(b, key, n - 1);
      w + [NextWord(b, w[n - 5], w[n - 2], n - 1)]
  }

  function RoundKey(w: seq<Word>, r: nat): Block
    requires |w| == 44 && r < 11
  {
    Join(w[4 * r], w[4 * r + 1], w[4 * r + 2], w[4 * r + 3])
  }

  function Schedule(b: Boxes, key: Block): RoundKeys {
    var w := Expansion(b, key, 44);
    seq(11, r requires 0 <= r < 11 => RoundKey(w, r))
  }

  // ----- the implementation

  /** The module's initialisation: the tables every cipher object uses. */
  method Initialise() returns (boxes: Boxes)
    ensures boxes.Valid()
  {
    var sbox, inv := BuildSbox();
    boxes := Boxes(sbox[..], inv[..]);
  }

  /** One octet of a mixed column, from the column's sum. */
  function Fused(a: Byte, b: Byte, x: Byte): Byte { Add(Add(a, x), XTime(Add(a, b))) }

  lemma FusedColumn(a: Byte, b: Byte, c: Byte, d: Byte)
    ensures [Fused(a, b, Sum(a, b, c, d)), Fused(b, c, Sum(a, b, c, d)),
             Fused(c, d, Sum(a, b, c, d)), Fused(d, a, Sum(a, b, c, d))] == MixColumn([a, b, c, d])
  {
    Rotates(a, b, c, d);
    Rotates(b, c, d, a);
    Rotates(c, d, a, b);
    MixIsMixRow(a, b, c, d);
    MixIsMixRow(b, c, d, a);
    MixIsMixRow(c, d, a, b);
    MixIsMixRow(d, a, b, c);
  }

  /** The 44 words of the expansion. */
  method Words(boxes: Boxes, key: Block) returns (words: seq<Word>)
    ensures words == Expansion(boxes, key, 44)
  {
    words := [Column(key, 0), Column(key, 1), Column(key, 2), Column(key, 3)];
    var rcon: Byte := 1;
    ghost var n := 1;
    for i := 4 to 44
      invariant |words| == i && 0 < n && 4 * n - 4 < i <= 4 * n && rcon == Rcon(n)
      invariant words == Expansion(boxes, key, i)
    {
      FourTimesIs(n, i);
      var w := words[i - 1];
      w, rcon := Step(boxes, words[i - 4], w, i, rcon, n);
      if i % 4 == 0 {
        n := n + 1;
      }
      words := words + [w];
    }
  }

  /** The body of the expansion's loop: the next word and the next round constant. */
  method Step(boxes: Boxes, first: Word, last: Word, i: nat, rcon: Byte, ghost n: nat) returns (w: Word, next: Byte)
    requires 0 < n && rcon == Rcon(n) && (i % 4 == 0 ==> i / 4 == n)
    ensures w == NextWord(boxes, first, last, i)
    ensures next == Rcon(if i % 4 == 0 then n + 1 else n)
  {
    var t := last;
    next := rcon;
    if i % 4 == 0 {
      t := RotWord(t);
      t := SubWord(boxes, t);
      t := AddWord(t, [rcon, 0, 0, 0]);
      next := XTime(rcon);
    }
    w := AddWord(first, t);
  }

  lemma FourTimesIs(n: nat, i: nat)
    requires 4 * n - 4 < i <= 4 * n
    ensures i % 4 == 0 <==> i == 4 * n
    ensures i % 4 == 0 ==> i / 4 == n
  {
  }

  method Expand(boxes: Boxes, key: Block) returns (keys: RoundKeys)
    ensures keys == Schedule(boxes, key)
  {
    var words := Words(boxes, key);
    keys := seq(11, r requires 0 <= r < 11 => RoundKey(words, r));
  }

  class Aes128 {
    const boxes: Boxes
    const key: Block
    const roundKeys: RoundKeys

    ghost predicate Valid()
    {
      boxes.Valid() && roundKeys == Schedule(boxes, key)
    }

    constructor (boxes: Boxes, key: Block)
      requires boxes.Valid()
      ensures Valid() && this.boxes == boxes && this.key == key
    {
      this.boxes := boxes;
      this.key := key;
      var keys := Expand(boxes, key);
      this.roundKeys := keys;
    }

    method EncryptBlock(block: Block) returns (s: Block)
      requires Valid()
      ensures s == Cipher(boxes, roundKeys, block)
    {
      s := AddRoundKey(block, roundKeys[0]);
      for rnd := 1 to 11
        invariant s == Round(boxes, roundKeys, block, rnd - 1)
      {
        s := Substitute(boxes.sbox, s);
        s := ShiftRows(s);
        if rnd != 10 {
          s := MixLoop(s);
        }
        s := AddRoundKey(s, roundKeys[rnd]);
      }
    }

    method DecryptBlock(block: Block) returns (s: Block)
      requires Valid()
      ensures s == InvCipher(boxes, roundKeys, block)
    {
      s := AddRoundKey(block, roundKeys[10]);
      ghost var n := 0;
      for rnd := 10 downto 0
        invariant n + rnd == 10 && s == InvRound(boxes, roundKeys, block, n)
      {
        s := InvStep(s, rnd, block, n);
        n := n + 1;
      }
    }

    /** The body of the decryption's loop. */
    method InvStep(s: Block, rnd: nat, ghost block: Block, ghost n: nat) returns (t: Block)
      requires Valid() && n + rnd == 9 && s == InvRound(boxes, roundKeys, block, n)
      ensures t == InvRound(boxes, roundKeys, block, n + 1)
    {
      InvRoundNext(boxes, roundKeys, block, n, rnd, s);
      t := InvShiftRows(s);
      t := Substitute(boxes.inv, t);
      t := AddRoundKey(t, roundKeys[rnd]);
      if rnd != 0 {
        t := UnmixLoop(t);
      }
    }
  }

  method MixLoop(s: Block) returns (mixed: Block)
    ensures mixed == MixColumns(s)
  {
    var t: seq<Byte> := [];
    for c := 0 to 4
      invariant |t| == 4 * c && t == MixColumns(s)[..4 * c]
    {
      var a0, a1, a2, a3 := s[4 * c], s[4 * c + 1], s[4 * c + 2], s[4 * c + 3];
      var x := Sum(a0, a1, a2, a3);
      FusedColumn(a0, a1, a2, a3);
      NextColumn(s, c);
      ColumnIs(s, c);
      t := t + [Fused(a0, a1, x), Fused(a1, a2, x), Fused(a2, a3, x), Fused(a3, a0, x)];
    }
    mixed := t;
  }

  method UnmixLoop(s: Block) returns (mixed: Block)
    ensures mixed == InvMixColumns(s)
  {
    var t: seq<Byte> := [];
    for c := 0 to 4
      invariant |t| == 4 * c && t == InvMixColumns(s)[..4 * c]
    {
      var a0, a1, a2, a3 := s[4 * c], s[4 * c + 1], s[4 * c + 2], s[4 * c + 3];
      ProductRow(a0, a1, a2, a3);
      ProductRow(a1, a2, a3, a0);
      ProductRow(a2, a3, a0, a1);
      ProductRow(a3, a0, a1, a2);
      NextColumn(s, c);
      ColumnIs(s, c);
      t := t + [
        Add(Add(Mul(a0, 14), Mul(a1, 11)), Add(Mul(a2, 13), Mul(a3, 9))),
        Add(Add(Mul(a1, 14), Mul(a2, 11)), Add(Mul(a3, 13), Mul(a0, 9))),
        Add(Add(Mul(a2, 14), Mul(a3, 11)), Add(Mul(a0, 13), Mul(a1, 9))),
        Add(Add(Mul(a3, 14), Mul(a0, 11)), Add(Mul(a1, 13), Mul(a2, 9)))];
    }
    mixed := t;
  }

  lemma ProductRow(a: Byte, b: Byte, c: Byte, d: Byte)
    ensures Add(Add(Mul(a, 14), Mul(b, 11)), Add(Mul(c, 13), Mul(d, 9))) == InvMixRow(a, b, c, d)
  {
    Products(a);
    Products(b);
    Products(c);
    Products(d);
  }

  lemma JoinPrefixes(u: Word, v: Word, w: Word, x: Word)
    ensures Join(u, v, w, x)[..0] == []
    ensures Join(u, v, w, x)[..4] == [] + u
    ensures Join(u, v, w, x)[..8] == Join(u, v, w, x)[..4] + v
    ensures Join(u, v, w, x)[..12] == Join(u, v, w, x)[..8] + w
    ensures Join(u, v, w, x)[..16] == Join(u, v, w, x)[..12] + x
  {
  }

  /** Column c follows the columns before it. */
  lemma NextColumn(s: Block, c: nat)
    requires c < 4
    ensures MixColumns(s)[..4 * (c + 1)] == MixColumns(s)[..4 * c] + MixColumn(Column(s, c))
    ensures InvMixColumns(s)[..4 * (c + 1)] == InvMixColumns(s)[..4 * c] + InvMixColumn(Column(s, c))
  {
    var a, b, d, e := Column(s, 0), Column(s, 1), Column(s, 2), Column(s, 3);
    JoinPrefixes(MixColumn(a), MixColumn(b), MixColumn(d), MixColumn(e));
    JoinPrefixes(InvMixColumn(a), InvMixColumn(b), InvMixColumn(d), InvMixColumn(e));
    if c == 0 {
    } else if c == 1 {
    } else if c == 2 {
    } else {
      assert c == 3;
    }
  }

  lemma ColumnIs(s: Block, c: nat)
    requires c < 4
    ensures Column(s, c) == [s[4 * c], s[4 * c + 1], s[4 * c + 2], s[4 * c + 3]]
  {
  }
}
