/** The loops that run AES-128 over more than one block: CBC decryption, the
    CBC-MAC and the counter keystream. */
module AesModes {

  import opened Gf256
  import opened Octets
  import opened Sbox
  import opened AesState
  import opened AesCipher
  import opened DataSecure
  import opened Wrappers

  /** AES-128 as a keyed block cipher. */
  function AesWith(b: Boxes): BlockCipher {
    (key: Block, x: Block) => Cipher(b, Schedule(b, key), x)
  }

  function InvAesWith(b: Boxes): BlockCipher {
    (key: Block, x: Block) => InvCipher(b, Schedule(b, key), x)
  }

  // ----- cipher block chaining

  /** CBC encryption as SP 800-38A section 6.2 defines it; the repository only decrypts. */
  function CbcEncrypt(e: BlockCipher, key: Block, prev: Block, plain: Bytes): (c: Bytes)
    requires |plain| % 16 == 0
    ensures |c| == |plain|
    decreases |plain|
  {
    if |plain| == 0 then []
    else
      var c := e(key, Xor(plain[..16], prev));
      c + CbcEncrypt(e, key, c, plain[16..])
  }

  function CbcDecrypt(d: BlockCipher, key: Block, prev: Block, cipher: Bytes): (p: Bytes)
    requires |cipher| % 16 == 0
    ensures |p| == |cipher|
    decreases |cipher|
  {
    if |cipher| == 0 then []
    else Xor(d(key, cipher[..16]), prev) + CbcDecrypt(d, key, cipher[..16], cipher[16..])
  }

  ghost predicate Undoes(d: BlockCipher, e: BlockCipher, key: Block) { forall x: Block :: d(key, e(key, x)) == x }

  /** Decryption undoes encryption, for any number of blocks. */
  lemma {:induction false} CbcInverse(e: BlockCipher, d: BlockCipher, key: Block, prev: Block, plain: Bytes)
    requires Undoes(d, e, key) && |plain| % 16 == 0
    ensures CbcDecrypt(d, key, prev, CbcEncrypt(e, key, prev, plain)) == plain
    decreases |plain|
  {
    if |plain| > 0 {
      var x: Block := Xor(plain[..16], prev);
      var c: Block := e(key, x);
      var rest: Bytes := CbcEncrypt(e, key, c, plain[16..]);
      CbcInverse(e, d, key, c, plain[16..]);
      Cut(c, rest);
      XorTwice(plain[..16], prev);
      assert d(key, c) == x;
    }
  }

  lemma Cut(a: Bytes, b: Bytes)
    ensures (a + b)[..|a|] == a && (a + b)[|a|..] == b
  {
  }

  lemma AesUndone(b: Boxes, key: Block)
    requires b.Valid()
    ensures Undoes(InvAesWith(b), AesWith(b), key)
  {
    forall x: Block
      ensures InvAesWith(b)(key, AesWith(b)(key, x)) == x
    {
      DecipherCipher(b, Schedule(b, key), x);
    }
  }

  /** d and e are what the object's two block methods compute. */
  ghost predicate Implements(aes: Aes128, e: BlockCipher, d: BlockCipher) {
    aes.Valid() && forall x: Block :: Computes(aes, e, d, x)
  }

  ghost predicate Computes(aes: Aes128, e: BlockCipher, d: BlockCipher, x: Block) {
    && e(aes.key, x) == Cipher(aes.boxes, aes.roundKeys, x)
    && d(aes.key, x) == InvCipher(aes.boxes, aes.roundKeys, x)
  }

  lemma AesImplements(aes: Aes128)
    requires aes.Valid()
    ensures Implements(aes, AesWith(aes.boxes), InvAesWith(aes.boxes))
  {
  }

  method Encipher(aes: Aes128, x: Block, ghost e: BlockCipher, ghost d: BlockCipher) returns (y: Block)
    requires Implements(aes, e, d)
    ensures y == e(aes.key, x)
  {
    assert Computes(aes, e, d, x);
    y := aes.EncryptBlock(x);
  }

  method Decipher(aes: Aes128, x: Block, ghost e: BlockCipher, ghost d: BlockCipher) returns (y: Block)
    requires Implements(aes, e, d)
    ensures y == d(aes.key, x)
  {
    assert Computes(aes, e, d, x);
    y := aes.DecryptBlock(x);
  }

  /** The decryption of the implementation, with the tables built when the module is loaded: the only valid ones. */
  method AesCbcDecrypt(key: Bytes, iv: Bytes, ciphertext: Bytes) returns (r: Result<Bytes>)
    ensures r.Ok? <==> |iv| == 16 && |ciphertext| > 0 && |ciphertext| % 16 == 0 && |key| == 16
    ensures r.Ok? ==> forall boxes: Boxes :: boxes.Valid() ==> IsDecryption(boxes, key, iv, ciphertext, r.value)
  {
    if |iv| != 16 || |ciphertext| == 0 || |ciphertext| % 16 != 0 || |key| != 16 {
      return Raises;
    }
    var tables := Initialise();
    var aes := new Aes128(tables, key);
    AesImplements(aes);
    var plain := CbcLoop(aes, iv, ciphertext, AesWith(tables), InvAesWith(tables));
    r := Ok(plain);
    forall boxes: Boxes | boxes.Valid()
      ensures IsDecryption(boxes, key, iv, ciphertext, plain)
    {
      TablesUnique(boxes.sbox, boxes.inv, tables.sbox, tables.inv);
    }
  }

  ghost predicate IsDecryption(boxes: Boxes, key: Bytes, iv: Bytes, ciphertext: Bytes, plain: Bytes) {
    |key| == |iv| == 16 && |ciphertext| % 16 == 0 && plain == CbcDecrypt(InvAesWith(boxes), key, iv, ciphertext)
  }

  method CbcLoop(aes: Aes128, iv: Block, ciphertext: Bytes, ghost e: BlockCipher, ghost d: BlockCipher)
    returns (out: Bytes)
    requires Implements(aes, e, d) && |ciphertext| % 16 == 0
    ensures out == CbcDecrypt(d, aes.key, iv, ciphertext)
  {
    out := [];
    var prev: Block := iv;
    var i := 0;
    while i < |ciphertext|
      invariant 0 <= i <= |ciphertext| && i % 16 == 0
      invariant CbcDecrypt(d, aes.key, iv, ciphertext) == out + CbcDecrypt(d, aes.key, prev, ciphertext[i..])
    {
      var blk: Block := ciphertext[i..i + 16];
      assert ciphertext[i..][..16] == blk && ciphertext[i..][16..] == ciphertext[i + 16..];
      var plain := Decipher(aes, blk, e, d);
      out := out + Xor(plain, prev);
      prev := blk;
      i := i + 16;
    }
  }

  /** Decrypting what AES-128 in CBC mode encrypted gives the plaintext back, block for block. */
  lemma AesCbcInverse(b: Boxes, key: Block, iv: Block, plain: Bytes)
    requires b.Valid() && |plain| % 16 == 0
    ensures CbcDecrypt(InvAesWith(b), key, iv, CbcEncrypt(AesWith(b), key, iv, plain)) == plain
  {
    AesUndone(b, key);
    CbcInverse(AesWith(b), InvAesWith(b), key, iv, plain);
  }

  // ----- the MAC and the keystream

  method CbcMacLoop(aes: Aes128, ad: Bytes, payload: Bytes, block0: Block, ghost e: BlockCipher, ghost d: BlockCipher)
    returns (r: Result<Block>)
    requires Implements(aes, e, d)
    ensures r == CbcMac(e, aes.key, ad, payload, block0)
  {
    var length := ToBytes(|ad|, 2);
    if length.Raises? {
      return Raises;
    }
    var buf := block0 + length.value + ad + payload;
    if |buf| % 16 != 0 {
      buf := buf + Zeros(16 - |buf| % 16);
    }
    var state := ChainLoop(aes, buf, e, d);
    r := Ok(state);
  }

  method ChainLoop(aes: Aes128, buf: Bytes, ghost e: BlockCipher, ghost d: BlockCipher) returns (state: Block)
    requires Implements(aes, e, d) && |buf| % 16 == 0
    ensures state == Chain(e, aes.key, Zeros(16), buf)
  {
    state := Zeros(16);
    var i := 0;
    while i < |buf|
      invariant 0 <= i <= |buf| && i % 16 == 0
      invariant Chain(e, aes.key, Zeros(16), buf) == Chain(e, aes.key, state, buf[i..])
    {
      assert buf[i..][..16] == buf[i..i + 16] && buf[i..][16..] == buf[i + 16..];
      state := Encipher(aes, Xor(state, buf[i..i + 16]), e, d);
      i := i + 16;
    }
  }

  lemma PowerSixteen()
    ensures Power256(16) == COUNTERS
  {
    assert Power256(4) == 0x1_0000_0000;
    assert Power256(8) == 0x1_0000_0000_0000_0000;
    assert Power256(12) == 0x1_0000_0000_0000_0000_0000_0000;
  }

  lemma Below(v: nat, m: nat)
    requires v < m
    ensures v % m == v
  {
  }

  lemma CounterStarts(c0: Block)
    ensures FromBytes(c0) == CounterNumber(c0, 0)
  {
    var v := FromBytes(c0);
    assert v < Power256(|c0|) by { BigEndianFrom(c0); }
    PowerSixteen();
    Below(v, COUNTERS);
  }

  lemma NextCounter(c0: Block, k: nat)
    ensures (CounterNumber(c0, k) + 1) % COUNTERS == CounterNumber(c0, k + 1)
  {
  }

  lemma OctetOfBlock(e: BlockCipher, key: Block, c0: Block, k: nat, j: nat)
    requires j < 16
    ensures KeyOctet(e, key, c0, 16 * k + j) == e(key, Counter(c0, k))[j]
  {
    assert (16 * k + j) / 16 == k && (16 * k + j) % 16 == j;
  }

  /** The keystream goes on with the next enciphered counter. */
  lemma NextBlock(e: BlockCipher, key: Block, c0: Block, k: nat, out: Bytes, pad: Block)
    requires |out| == 16 * k && out == Keystream(e, key, c0, |out|) && pad == e(key, Counter(c0, k))
    ensures out + pad == Keystream(e, key, c0, |out| + 16)
  {
    var s := Keystream(e, key, c0, |out| + 16);
    forall j | 0 <= j < 16
      ensures s[16 * k + j] == pad[j]
    {
      OctetOfBlock(e, key, c0, k, j);
    }
    KeystreamPrefix(e, key, c0, |out|, |out| + 16);
    assert forall i :: |out| <= i < |out| + 16 ==> s[i] == s[16 * k + (i - |out|)];
    assert s == s[..|out|] + s[|out|..];
    assert s[|out|..] == pad;
  }

  method CtrKeystream(aes: Aes128, counter0: Block, n: nat, ghost e: BlockCipher, ghost d: BlockCipher)
    returns (out: Bytes)
    requires Implements(aes, e, d)
    ensures out == Keystream(e, aes.key, counter0, n)
  {
    var blocks := CounterLoop(aes, counter0, n, e, d);
    KeystreamPrefix(e, aes.key, counter0, n, |blocks|);
    out := blocks[..n];
  }

  /** Whole blocks of the keystream, until there are n octets. */
  method CounterLoop(aes: Aes128, counter0: Block, n: nat, ghost e: BlockCipher, ghost d: BlockCipher)
    returns (out: Bytes)
    requires Implements(aes, e, d)
    ensures |out| >= n && out == Keystream(e, aes.key, counter0, |out|)
  {
    var ctr := FromBytes(counter0);
    CounterStarts(counter0);
    out := [];
    ghost var k := 0;
    while |out| < n
      invariant |out| == 16 * k && ctr == CounterNumber(counter0, k)
      invariant out == Keystream(e, aes.key, counter0, |out|)
    {
      var pad := CounterBlock(aes, counter0, ctr, k, e, d);
      NextBlock(e, aes.key, counter0, k, out, pad);
      NextCounter(counter0, k);
      out := out + pad;
      ctr := (ctr + 1) % COUNTERS;
      k := k + 1;
    }
  }

  method CounterBlock(aes: Aes128, c0: Block, ctr: nat, ghost k: nat, ghost e: BlockCipher, ghost d: BlockCipher)
    returns (pad: Block)
    requires Implements(aes, e, d) && ctr == CounterNumber(c0, k)
    ensures pad == e(aes.key, Counter(c0, k))
  {
    pad := Encipher(aes, BigEndian(ctr, |c0|), e, d);
  }
}
