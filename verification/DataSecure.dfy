/** KNX Data Secure: the CBC-MAC, the continuous counter keystream, sealing and
    opening, and the S-A_Data and S-A_Sync frames. Everything but the loops is
    stated for any block cipher. */
module DataSecure {

  import opened Gf256
  import opened Octets
  import opened AesState
  import opened AesCipher
  import opened Wrappers

  const MAC_LEN := 4

  /** A block cipher: key and block to block. */
  type BlockCipher = (Block, Block) -> Block

  function Zeros(n: nat): (s: Bytes)
    ensures |s| == n
  {
    seq(n, _ => 0)
  }

  // ----- the CBC-MAC

  /** The chaining value after the whole blocks of buf. */
  function Chain(e: BlockCipher, key: Block, state: Block, buf: Bytes): Block
    requires |buf| % 16 == 0
    decreases |buf|
  {
    if |buf| == 0 then state else Chain(e, key, e(key, Xor(state, buf[..16])), buf[16..])
  }

  function Padded(buf: Bytes): (s: Bytes)
    ensures |s| % 16 == 0 && buf <= s
  {
    if |buf| % 16 == 0 then buf else buf + Zeros(16 - |buf| % 16)
  }

  /** What the MAC is computed over: block 0, the length of the additional data, that data and the payload. */
  function MacInput(ad: Bytes, payload: Bytes, block0: Block): (r: Result<Bytes>)
    ensures r.Ok? ==> |r.value| % 16 == 0
  {
    match ToBytes(|ad|, 2)
    case Raises => Raises
    case Ok(length) => Ok(Padded(block0 + length + ad + payload))
  }

  function CbcMac(e: BlockCipher, key: Block, ad: Bytes, payload: Bytes, block0: Block): Result<Block> {
    match MacInput(ad, payload, block0)
    case Raises => Raises
    case Ok(buf) => Ok(Chain(e, key, Zeros(16), buf))
  }

  // ----- the counter keystream

  /** 2^128 */
  const COUNTERS: nat := 0x1_0000_0000_0000_0000_0000_0000_0000_0000

  /** Member k of the counter sequence that starts at c0, modulo 2^128. */
  function CounterNumber(c0: Block, k: nat): nat { (FromBytes(c0) + k) % COUNTERS }

  function Counter(c0: Block, k: nat): Block { BigEndian(CounterNumber(c0, k), |c0|) }

  function KeyOctet(e: BlockCipher, key: Block, c0: Block, i: nat): Byte {
    e(key, Counter(c0, i / 16))[i % 16]
  }

  /** Octet i comes from octet i % 16 of the enciphered counter i / 16. */
  function Keystream(e: BlockCipher, key: Block, c0: Block, n: nat): (s: Bytes)
    ensures |s| == n
  {
    seq(n, i requires 0 <= i => KeyOctet(e, key, c0, i))
  }

  lemma KeystreamPrefix(e: BlockCipher, key: Block, c0: Block, m: nat, n: nat)
    requires m <= n
    ensures Keystream(e, key, c0, n)[..m] == Keystream(e, key, c0, m)
  {
  }

  // ----- sealing

  /** The fields of the carrying frame that the nonce covers. */
  datatype Addressing = Addressing(src: int, dst: int, group: bool, extFf: int, tpci: int)

  /** seq(6) src(2) dst(2), or an exception when a number does not fit. */
  function Nonce(seqNo: int, addr: Addressing): (r: Result<Bytes>)
    ensures r.Ok? <==> 0 <= seqNo < Power256(6) && 0 <= addr.src < Power256(2) && 0 <= addr.dst < Power256(2)
    ensures r.Ok? ==> |r.value| == 10
  {
    var s, src, dst := ToBytes(seqNo, 6), ToBytes(addr.src, 2), ToBytes(addr.dst, 2);
    if s.Ok? && src.Ok? && dst.Ok? then Ok(s.value + src.value + dst.value) else Raises
  }

  /** The address type in the top bit, the extended frame format in the low four. */
  function Flags(addr: Addressing): (f: nat)
    ensures f < 256
  {
    (if addr.group then 128 else 0) + addr.extFf % 16
  }

  /** The upper six bits of the transport control octet, and the bits of the secure service. */
  function Control(addr: Addressing): (c: nat)
    ensures c < 256
  {
    addr.tpci % 256 / 4 * 4 + 3
  }

  function Block0(nonce: Bytes, addr: Addressing, length: nat): Block
    requires |nonce| == 10
  {
    nonce + [0, Octet(Flags(addr)), Octet(Control(addr)), 0xF1, 0, Octet(length % 256)]
  }

  function Counter0(nonce: Bytes): Block
    requires |nonce| == 10
  {
    nonce + [0, 0, 0, 0, 1, 0]
  }

  /** In authentication-only mode the payload joins the additional data. */
  function Authenticated(ad: Bytes, payload: Bytes, encrypt: bool): Bytes { if encrypt then ad else ad + payload }

  function Enciphered(payload: Bytes, encrypt: bool): Bytes { if encrypt then payload else [] }

  /** The MAC before the counter stage. */
  function Mac4(e: BlockCipher, key: Block, nonce: Bytes, addr: Addressing, ad: Bytes, payload: Bytes,
                encrypt: bool): (r: Result<Bytes>)
    requires |nonce| == 10
    ensures r.Ok? ==> |r.value| == MAC_LEN
  {
    var p := Enciphered(payload, encrypt);
    var mac := CbcMac(e, key, Authenticated(ad, payload, encrypt), p, Block0(nonce, addr, |p|));
    if mac.Ok? then Ok(mac.value[..MAC_LEN]) else Raises
  }

  datatype Sealed = Sealed(body: Bytes, mac: Bytes)

  function Seal(e: BlockCipher, key: Bytes, seqNo: int, addr: Addressing, ad: Bytes, payload: Bytes,
                encrypt: bool): (r: Result<Sealed>)
    ensures r.Ok? ==> |r.value.body| == |payload| && |r.value.mac| == MAC_LEN
  {
    var nonce := Nonce(seqNo, addr);
    if |key| != 16 || nonce.Raises? then Raises
    else
      var mac := Mac4(e, key, nonce.value, addr, ad, payload, encrypt);
      if mac.Raises? then Raises
      else if encrypt then
        var ks := Keystream(e, key, Counter0(nonce.value), MAC_LEN + |payload|);
        Ok(Sealed(Xor(payload, ks[MAC_LEN..]), Xor(mac.value, ks)))
      else
        Ok(Sealed(payload, Xor(mac.value, Keystream(e, key, Counter0(nonce.value), MAC_LEN))))
  }

  datatype Opening = Opening(plain: Bytes, ok: bool)

  /** The payload a body stands for, whoever wrote it. */
  function Uncovered(e: BlockCipher, key: Block, nonce: Bytes, body: Bytes, encrypt: bool): Bytes
    requires |nonce| == 10
  {
    if encrypt then Xor(body, Keystream(e, key, Counter0(nonce), MAC_LEN + |body|)[MAC_LEN..]) else body
  }

  function OpenSealed(e: BlockCipher, key: Bytes, seqNo: int, addr: Addressing, ad: Bytes, body: Bytes, mac: Bytes,
                      encrypt: bool): Result<Opening> {
    var nonce := Nonce(seqNo, addr);
    if |key| != 16 || nonce.Raises? then Raises
    else
      var plain := Uncovered(e, key, nonce.value, body, encrypt);
      match Seal(e, key, seqNo, addr, ad, plain, encrypt)
      case Raises => Raises
      case Ok(expected) => Ok(Opening(plain, expected.mac == mac))
  }

  // ----- what sealing and opening promise

  /** When the inputs can be sealed: lengths and numbers must fit their fields. */
  predicate Fits(key: Bytes, seqNo: int, addr: Addressing, ad: Bytes, payload: Bytes, encrypt: bool) {
    && |key| == 16
    && 0 <= seqNo < 0x1_0000_0000_0000
    && 0 <= addr.src < 0x1_0000
    && 0 <= addr.dst < 0x1_0000
    && |ad| + (if encrypt then 0 else |payload|) < 0x1_0000
  }

  lemma Powers()
    ensures Power256(2) == 0x1_0000 && Power256(6) == 0x1_0000_0000_0000
  {
    assert Power256(1) == 256 && Power256(3) == 0x100_0000 && Power256(4) == 0x1_0000_0000;
  }

  /** Sealing raises exactly when something does not fit. */
  lemma SealRaises(e: BlockCipher, key: Bytes, seqNo: int, addr: Addressing, ad: Bytes, payload: Bytes, encrypt: bool)
    ensures Seal(e, key, seqNo, addr, ad, payload, encrypt).Ok? <==> Fits(key, seqNo, addr, ad, payload, encrypt)
  {
    Powers();
  }

  /** Covering and uncovering are inverse: the keystream depends on the length alone. */
  lemma Covers(e: BlockCipher, key: Bytes, seqNo: int, addr: Addressing, ad: Bytes, payload: Bytes, encrypt: bool)
    requires Fits(key, seqNo, addr, ad, payload, encrypt)
    ensures Nonce(seqNo, addr).Ok? && Seal(e, key, seqNo, addr, ad, payload, encrypt).Ok?
    ensures
      var body := Seal(e, key, seqNo, addr, ad, payload, encrypt).value.body;
      Uncovered(e, key, Nonce(seqNo, addr).value, body, encrypt) == payload
  {
    Powers();
    SealRaises(e, key, seqNo, addr, ad, payload, encrypt);
    var nonce := Nonce(seqNo, addr).value;
    if encrypt {
      var ks := Keystream(e, key, Counter0(nonce), MAC_LEN + |payload|);
      XorTwice(payload, ks[MAC_LEN..]);
    }
  }

  /** Opening what was sealed gives the payload back and accepts the MAC. */
  lemma OpenSeal(e: BlockCipher, key: Bytes, seqNo: int, addr: Addressing, ad: Bytes, payload: Bytes, encrypt: bool)
    requires Fits(key, seqNo, addr, ad, payload, encrypt)
    ensures Seal(e, key, seqNo, addr, ad, payload, encrypt).Ok?
    ensures
      var s := Seal(e, key, seqNo, addr, ad, payload, encrypt).value;
      OpenSealed(e, key, seqNo, addr, ad, s.body, s.mac, encrypt) == Ok(Opening(payload, true))
  {
    Covers(e, key, seqNo, addr, ad, payload, encrypt);
  }

  lemma UncoveredTwice(e: BlockCipher, key: Block, nonce: Bytes, body: Bytes, encrypt: bool)
    requires |nonce| == 10
    ensures Uncovered(e, key, nonce, Uncovered(e, key, nonce, body, encrypt), encrypt) == body
  {
    if encrypt {
      XorTwice(body, Keystream(e, key, Counter0(nonce), MAC_LEN + |body|)[MAC_LEN..]);
    }
  }

  /** Opening accepts a body and a MAC exactly when they are the sealing of the payload it returns. */
  lemma AcceptsOnlySealed(e: BlockCipher, key: Bytes, seqNo: int, addr: Addressing, ad: Bytes, body: Bytes,
                          mac: Bytes, encrypt: bool)
    ensures OpenSealed(e, key, seqNo, addr, ad, body, mac, encrypt).Ok? <==> Fits(key, seqNo, addr, ad, body, encrypt)
    ensures
      var o := OpenSealed(e, key, seqNo, addr, ad, body, mac, encrypt);
      o.Ok? ==> (o.value.ok <==> Seal(e, key, seqNo, addr, ad, o.value.plain, encrypt) == Ok(Sealed(body, mac)))
  {
    Powers();
    var nonce := Nonce(seqNo, addr);
    if |key| == 16 && nonce.Ok? {
      var plain := Uncovered(e, key, nonce.value, body, encrypt);
      SealRaises(e, key, seqNo, addr, ad, plain, encrypt);
      UncoveredTwice(e, key, nonce.value, body, encrypt);
    }
  }

  /** For a body there is one MAC that is accepted, and it has four octets. */
  lemma OneMac(e: BlockCipher, key: Bytes, seqNo: int, addr: Addressing, ad: Bytes, body: Bytes, encrypt: bool)
    returns (mac: Bytes)
    requires Fits(key, seqNo, addr, ad, body, encrypt)
    ensures |mac| == MAC_LEN
    ensures forall m ::
      OpenSealed(e, key, seqNo, addr, ad, body, m, encrypt).Ok? &&
      (OpenSealed(e, key, seqNo, addr, ad, body, m, encrypt).value.ok <==> m == mac)
  {
    Powers();
    var plain := Uncovered(e, key, Nonce(seqNo, addr).value, body, encrypt);
    SealRaises(e, key, seqNo, addr, ad, plain, encrypt);
    mac := Seal(e, key, seqNo, addr, ad, plain, encrypt).value.mac;
  }

  // ----- what the MAC is about

  /** The nonce holds the sequence number and both addresses, each in its own octets. */
  lemma NonceReads(seqNo: int, addr: Addressing)
    requires Nonce(seqNo, addr).Ok?
    ensures
      var n := Nonce(seqNo, addr).value;
      FromBytes(n[..6]) == seqNo && FromBytes(n[6..8]) == addr.src && FromBytes(n[8..]) == addr.dst
  {
    var n, a := Nonce(seqNo, addr).value, ToBytes(seqNo, 6).value;
    var b, c := ToBytes(addr.src, 2).value, ToBytes(addr.dst, 2).value;
    assert n[..6] == a && n[6..8] == b && n[8..] == c;
  }

  /** The flags of an addressing that the MAC covers. */
  predicate SameFlags(a: Addressing, b: Addressing) {
    a.group == b.group && a.extFf % 16 == b.extFf % 16 && a.tpci % 256 / 4 == b.tpci % 256 / 4
  }

  lemma OctetsDiffer(m: nat, n: nat)
    requires m < 256 && n < 256
    ensures Octet(m) == Octet(n) <==> m == n
  {
  }

  lemma FlagsDetermine(a: Addressing, b: Addressing)
    ensures Flags(a) == Flags(b) && Control(a) == Control(b) <==> SameFlags(a, b)
  {
  }

  lemma TailsEqual(n: Bytes, n': Bytes, t: Bytes, t': Bytes)
    requires |n| == |n'|
    ensures n + t == n' + t' <==> n == n' && t == t'
  {
    if n + t == n' + t' {
      assert (n + t)[..|n|] == n && (n' + t')[..|n|] == n';
      assert (n + t)[|n|..] == t && (n' + t')[|n|..] == t';
    }
  }

  function Trailer(f: nat, c: nat, l: nat): Bytes
    requires f < 256 && c < 256 && l < 256
  {
    [0, Octet(f), Octet(c), 0xF1, 0, Octet(l)]
  }

  lemma TrailersEqual(f: nat, c: nat, l: nat, f': nat, c': nat, l': nat)
    requires f < 256 && c < 256 && l < 256 && f' < 256 && c' < 256 && l' < 256
    ensures Trailer(f, c, l) == Trailer(f', c', l') <==> f == f' && c == c' && l == l'
  {
    OctetsDiffer(f, f');
    OctetsDiffer(c, c');
    OctetsDiffer(l, l');
    var t, t' := Trailer(f, c, l), Trailer(f', c', l');
    assert t[1] == Octet(f) && t[2] == Octet(c) && t[5] == Octet(l);
    assert t'[1] == Octet(f') && t'[2] == Octet(c') && t'[5] == Octet(l');
  }

  lemma Block0Determines(n: Bytes, a: Addressing, l: nat, n': Bytes, a': Addressing, l': nat)
    requires |n| == 10 && |n'| == 10
    ensures Block0(n, a, l) == Block0(n', a', l') <==> n == n' && SameFlags(a, a') && l % 256 == l' % 256
  {
    FlagsDetermine(a, a');
    TrailersEqual(Flags(a), Control(a), l % 256, Flags(a'), Control(a'), l' % 256);
    TailsEqual(n, n', Trailer(Flags(a), Control(a), l % 256), Trailer(Flags(a'), Control(a'), l' % 256));
  }

  lemma LengthDetermines(ad: Bytes, ad': Bytes)
    requires ToBytes(|ad|, 2).Ok? && ToBytes(|ad'|, 2).Ok?
    ensures ToBytes(|ad|, 2) == ToBytes(|ad'|, 2) ==> |ad| == |ad'|
  {
  }

  lemma PadsTo(buf: Bytes)
    ensures |buf| <= |Padded(buf)| < |buf| + 16 && Padded(buf)[..|buf|] == buf
  {
  }

  lemma Slices(a: Bytes, b: Bytes, c: Bytes, d: Bytes, x: Bytes)
    requires a + b + c + d <= x
    ensures
      var i, j := |a| + |b|, |a| + |b| + |c|;
      x[..|a|] == a && x[|a|..i] == b && x[i..j] == c && x[j..j + |d|] == d
  {
    var s := a + b + c + d;
    assert x[..|s|] == s;
    assert s[..|a|] == a && s[|a|..|a| + |b|] == b;
    assert s[|a| + |b|..|a| + |b| + |c|] == c;
  }

  /** The fields of an input, at their places. */
  lemma InputParts(ad: Bytes, payload: Bytes, block0: Block)
    requires MacInput(ad, payload, block0).Ok?
    ensures
      var x := MacInput(ad, payload, block0).value;
      var n := 18 + |ad|;
      && n + |payload| <= |x| < n + |payload| + 16
      && x[..16] == block0 && ToBytes(|ad|, 2) == Ok(x[16..18]) && x[18..n] == ad && x[n..n + |payload|] == payload
  {
    var length := ToBytes(|ad|, 2).value;
    PadsTo(block0 + length + ad + payload);
    Slices(block0, length, ad, payload, Padded(block0 + length + ad + payload));
  }

  /** Two inputs with the same payload length modulo 256 are equal only when they have the same parts: the padding,
      shorter than a block, cannot hide a difference. */
  lemma InputDetermines(ad: Bytes, payload: Bytes, block0: Block, ad': Bytes, payload': Bytes, block0': Block)
    requires MacInput(ad, payload, block0).Ok? && MacInput(ad, payload, block0) == MacInput(ad', payload', block0')
    requires |payload| % 256 == |payload'| % 256
    ensures block0 == block0' && ad == ad' && payload == payload'
  {
    InputParts(ad, payload, block0);
    InputParts(ad', payload', block0');
    LengthDetermines(ad, ad');
    assert |payload| == |payload'|;
  }

  /** The MAC covers every field: two sealings of the same mode feed the same octets to the cipher exactly when they
      have the same sequence number, addresses and flags, and the same data, split the same way when the payload is
      enciphered. */
  lemma MacCovers(n: Bytes, a: Addressing, ad: Bytes, payload: Bytes, n': Bytes, a': Addressing, ad': Bytes,
                  payload': Bytes, encrypt: bool)
    requires |n| == 10 && |n'| == 10
    requires InputOf(n, a, ad, payload, encrypt).Ok? && InputOf(n', a', ad', payload', encrypt).Ok?
    ensures InputOf(n, a, ad, payload, encrypt) == InputOf(n', a', ad', payload', encrypt) <==>
      && n == n' && SameFlags(a, a')
      && Authenticated(ad, payload, encrypt) == Authenticated(ad', payload', encrypt)
      && Enciphered(payload, encrypt) == Enciphered(payload', encrypt)
  {
    var p, p' := Enciphered(payload, encrypt), Enciphered(payload', encrypt);
    var b, b' := Block0(n, a, |p|), Block0(n', a', |p'|);
    Block0Determines(n, a, |p|, n', a', |p'|);
    if InputOf(n, a, ad, payload, encrypt) == InputOf(n', a', ad', payload', encrypt) {
      InputParts(Authenticated(ad, payload, encrypt), p, b);
      InputParts(Authenticated(ad', payload', encrypt), p', b');
      assert b == b';
      InputDetermines(Authenticated(ad, payload, encrypt), p, b, Authenticated(ad', payload', encrypt), p', b');
    }
  }

  /** What the MAC of a sealing is computed over. */
  function InputOf(nonce: Bytes, addr: Addressing, ad: Bytes, payload: Bytes, encrypt: bool): Result<Bytes>
    requires |nonce| == 10
  {
    var p := Enciphered(payload, encrypt);
    MacInput(Authenticated(ad, payload, encrypt), p, Block0(nonce, addr, |p|))
  }
}
