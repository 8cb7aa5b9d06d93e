/** Sealing and the secure frames octet by octet: what the MAC is computed over,
    which octets of it are kept, and where everything stands in a frame. */
module SecureLayout {

  import opened Gf256
  import opened Octets
  import opened AesState
  import opened DataSecure
  import opened SecureFrames
  import opened Wrappers
  import AesModes

  // ----- what the MAC is computed over

  /** The nonce, a zero octet, the flags, the control octet, F1, a zero octet and the length of what is enciphered. */
  lemma FirstBlock(n: Bytes, addr: Addressing, length: nat)
    requires |n| == 10
    ensures
      var b := Block0(n, addr, length);
      && b[..10] == n && b[10] == 0
      && b[11] as int == (if addr.group then 128 else 0) + addr.extFf % 16
      && b[12] as int == addr.tpci % 256 - addr.tpci % 4 + 3
      && b[13] == 0xF1 && b[14] == 0 && b[15] as int == length % 256
  {
    var b := Block0(n, addr, length);
    assert b[11] == Octet(Flags(addr)) && b[12] == Octet(Control(addr)) && b[15] == Octet(length % 256);
    FourthsOf(addr.tpci);
  }

  lemma FourthsOf(t: int)
    ensures t % 256 / 4 * 4 == t % 256 - t % 4
  {
    assert t % 256 % 4 == t % 4;
  }

  lemma PadsWithZeros(buf: Bytes, i: nat)
    requires |buf| <= i < |Padded(buf)|
    ensures Padded(buf)[i] == 0
  {
  }

  /** Behind the data the input is zero. */
  lemma ZerosBehind(ad: Bytes, payload: Bytes, block0: Block, i: nat)
    requires MacInput(ad, payload, block0).Ok?
    requires 18 + |ad| + |payload| <= i < |MacInput(ad, payload, block0).value|
    ensures MacInput(ad, payload, block0).value[i] == 0
  {
    PadsWithZeros(block0 + ToBytes(|ad|, 2).value + ad + payload, i);
  }

  lemma DataBehind(ad: Bytes, payload: Bytes, block0: Block)
    requires MacInput(ad, payload, block0).Ok?
    ensures
      var x := MacInput(ad, payload, block0).value;
      var end := 18 + |ad| + |payload|;
      && end <= |x| < end + 16 && |x| % 16 == 0 && x[..16] == block0
      && FromBytes(x[16..18]) == |ad| && x[18..end] == ad + payload
  {
    InputParts(ad, payload, block0);
    var x := MacInput(ad, payload, block0).value;
    var m := 18 + |ad|;
    assert x[18..m + |payload|] == x[18..m] + x[m..m + |payload|];
  }

  /** After the first block: two octets with the length of the authenticated data, the additional data and the payload
      one after the other in either mode, and zeros up to a whole block. */
  lemma MacInputLayout(n: Bytes, addr: Addressing, ad: Bytes, payload: Bytes, encrypt: bool)
    requires |n| == 10 && InputOf(n, addr, ad, payload, encrypt).Ok?
    ensures
      var x := InputOf(n, addr, ad, payload, encrypt).value;
      var end := 18 + |ad| + |payload|;
      && end <= |x| < end + 16 && |x| % 16 == 0
      && x[..16] == Block0(n, addr, if encrypt then |payload| else 0)
      && FromBytes(x[16..18]) == |ad| + (if encrypt then 0 else |payload|)
      && x[18..end] == ad + payload
      && forall i: nat :: end <= i < |x| ==> x[i] == 0
  {
    var a, p := Authenticated(ad, payload, encrypt), Enciphered(payload, encrypt);
    var b := Block0(n, addr, |p|);
    assert a + p == ad + payload;
    DataBehind(a, p, b);
    forall i: nat | 18 + |a| + |p| <= i < |MacInput(a, p, b).value|
      ensures MacInput(a, p, b).value[i] == 0
    {
      ZerosBehind(a, p, b, i);
    }
  }

  // ----- what the MAC is

  /** The chaining value after the first block continues over the rest. */
  lemma {:induction false} ChainIsCbc(e: BlockCipher, key: Block, state: Block, buf: Bytes)
    requires |buf| > 0 && |buf| % 16 == 0
    ensures Chain(e, key, state, buf) == AesModes.CbcEncrypt(e, key, state, buf)[|buf| - 16..]
    decreases |buf|
  {
    var c: Block := e(key, Xor(buf[..16], state));
    XorCommutes(state, buf[..16]);
    var rest := AesModes.CbcEncrypt(e, key, c, buf[16..]);
    assert AesModes.CbcEncrypt(e, key, state, buf) == c + rest;
    if |buf| > 16 {
      ChainIsCbc(e, key, c, buf[16..]);
      LastOf(c, rest);
    } else {
      assert buf[16..] == [] && rest == [];
      assert c + rest == c;
    }
  }

  lemma LastOf(c: Bytes, rest: Bytes)
    requires |c| == 16 && |rest| >= 16
    ensures (c + rest)[|c + rest| - 16..] == rest[|rest| - 16..]
  {
  }

  lemma XorCommutes(a: Bytes, b: Bytes)
    requires |a| == |b|
    ensures Xor(a, b) == Xor(b, a)
  {
    forall i | 0 <= i < |a|
      ensures Add(a[i], b[i]) == Add(b[i], a[i])
    {
      Commutes(a[i], b[i]);
    }
  }

  /** The MAC is the last block of the CBC encryption of the input under a zero initialization vector. */
  lemma MacIsLastBlock(e: BlockCipher, key: Block, ad: Bytes, payload: Bytes, block0: Block)
    requires MacInput(ad, payload, block0).Ok?
    ensures
      var x := MacInput(ad, payload, block0).value;
      && |x| >= 16
      && CbcMac(e, key, ad, payload, block0) == Ok(AesModes.CbcEncrypt(e, key, Zeros(16), x)[|x| - 16..])
  {
    var x := MacInput(ad, payload, block0).value;
    InputParts(ad, payload, block0);
    ChainIsCbc(e, key, Zeros(16), x);
  }

  // ----- sealing

  /** The octet of the keystream at place i: of the enciphered counter, which starts at the nonce and 00 00
      00 00 01 00. */
  function StreamOctet(e: BlockCipher, key: Block, n: Bytes, i: nat): Byte
    requires |n| == 10
  {
    var c: Block := n + [0, 0, 0, 0, 1, 0];
    e(key, BigEndian((FromBytes(c) + i / 16) % COUNTERS, 16))[i % 16]
  }

  /** Sealed octets: the first four octets of the MAC under the first four of the keystream, and the payload in clear or
      under the octets that follow. */
  lemma SealOctets(e: BlockCipher, key: Bytes, seqNo: int, addr: Addressing, ad: Bytes, payload: Bytes, encrypt: bool)
    requires Fits(key, seqNo, addr, ad, payload, encrypt)
    ensures Nonce(seqNo, addr).Ok? && Seal(e, key, seqNo, addr, ad, payload, encrypt).Ok?
    ensures
      var n := Nonce(seqNo, addr).value;
      var s := Seal(e, key, seqNo, addr, ad, payload, encrypt).value;
      && InputOf(n, addr, ad, payload, encrypt).Ok?
      && (forall i: nat :: i < 4 ==>
            s.mac[i] == Add(Chain(e, key, Zeros(16), InputOf(n, addr, ad, payload, encrypt).value)[i],
                            StreamOctet(e, key, n, i)))
      && (!encrypt ==> s.body == payload)
      && (encrypt ==> forall i: nat :: i < |payload| ==> s.body[i] == Add(payload[i], StreamOctet(e, key, n, i + 4)))
  {
    Powers();
    SealRaises(e, key, seqNo, addr, ad, payload, encrypt);
    var n := Nonce(seqNo, addr).value;
    var ks := Keystream(e, key, Counter0(n), MAC_LEN + if encrypt then |payload| else 0);
    StreamIs(e, key, n, |ks|);
  }

  lemma StreamIs(e: BlockCipher, key: Block, n: Bytes, m: nat)
    requires |n| == 10
    ensures forall i: nat :: i < m ==> Keystream(e, key, Counter0(n), m)[i] == StreamOctet(e, key, n, i)
  {
  }

  // ----- the frames

  /** The sealing is enciphered exactly when bits 4 to 6 of the security control field are 001. */
  lemma EncryptsBits(b: Byte)
    ensures Encrypts(b as int) <==> (b >> 4) & 7 == 1
  {
    assert (b >> 4) & 7 == (b / 16) % 8;
    assert (b / 16) as int == b as int / 16;
    assert ((b / 16) % 8) as int == b as int / 16 % 8;
  }

  /** S-A_Data: the control field, six octets of sequence number, the sealed APDU and its MAC; the control field is the
      additional data. */
  lemma DataLayout(e: BlockCipher, key: Bytes, scf: int, seqNo: int, addr: Addressing, apdu: Bytes)
    requires Encode(e, key, scf, seqNo, addr, apdu).Ok?
    ensures
      var f := Encode(e, key, scf, seqNo, addr, apdu).value;
      && |f| == 11 + |apdu| && f[0] as int == scf && FromBytes(f[1..7]) == seqNo
      && Seal(e, key, seqNo, addr, [f[0]], apdu, Encrypts(f[0] as int)) == Ok(Sealed(f[7..|f| - 4], f[|f| - 4..]))
  {
    var s := Seal(e, key, seqNo, addr, [Octet(scf)], apdu, Encrypts(scf)).value;
    Parts(Octet(scf), ToBytes(seqNo, 6).value, s.body, s.mac);
  }

  /** S-A_Sync_Req: the serial number stands in clear behind the sequence number, and is additional data too. */
  lemma SyncReqLayout(e: BlockCipher, key: Bytes, seqNo: int, serial: Bytes, challenge: Bytes, addr: Addressing,
                      scf: int)
    requires |serial| == 6 && |challenge| == 6 && EncodeSyncReq(e, key, seqNo, serial, challenge, addr, scf).Ok?
    ensures
      var f := EncodeSyncReq(e, key, seqNo, serial, challenge, addr, scf).value;
      && |f| == 23 && f[0] as int == scf && FromBytes(f[1..7]) == seqNo && f[7..13] == serial
      && Seal(e, key, seqNo, addr, [f[0]] + serial, challenge, Encrypts(f[0] as int)) == Ok(Sealed(f[13..19], f[19..]))
  {
    var s := Seal(e, key, seqNo, addr, [Octet(scf)] + serial, challenge, Encrypts(scf)).value;
    SyncParts(Octet(scf), ToBytes(seqNo, 6).value, serial, s.body, s.mac);
  }

  /** S-A_Sync_Res: in the place of the sequence number the sum of nonce and challenge; the sealed numbers, first the
      responder's. */
  lemma SyncResLayout(e: BlockCipher, key: Bytes, responder: int, requester: int, challenge: Bytes, nonce: int,
                      addr: Addressing, scf: int)
    requires |challenge| == 6 && EncodeSyncRes(e, key, responder, requester, challenge, nonce, addr, scf).Ok?
    ensures ToBytes(responder, 6).Ok? && ToBytes(requester, 6).Ok?
    ensures
      var f := EncodeSyncRes(e, key, responder, requester, challenge, nonce, addr, scf).value;
      var numbers := ToBytes(responder, 6).value + ToBytes(requester, 6).value;
      && |f| == 23 && f[0] as int == scf && FromBytes(Xor(f[1..7], challenge)) == nonce
      && Seal(e, key, nonce, addr, [f[0]], numbers, Encrypts(f[0] as int)) == Ok(Sealed(f[7..19], f[19..]))
  {
    var n := ToBytes(nonce, 6).value;
    var numbers := ToBytes(responder, 6).value + ToBytes(requester, 6).value;
    var s := Seal(e, key, nonce, addr, [Octet(scf)], numbers, Encrypts(scf)).value;
    XorTwice(n, challenge);
    Parts(Octet(scf), Xor(n, challenge), s.body, s.mac);
  }
}
