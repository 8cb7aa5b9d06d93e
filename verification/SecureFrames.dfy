/** The A_SecureData frames: S-A_Data, S-A_Sync_Req and S-A_Sync_Res. */
module SecureFrames {

  import opened Gf256
  import opened Octets
  import opened DataSecure
  import opened Wrappers

  /** Whether the security control field asks for encryption: algorithm 001 in bits 4 to 6. */
  predicate Encrypts(scf: int) { scf / 16 % 8 == 1 }

  predicate IsOctet(v: int) { 0 <= v < 256 }

  // ----- S-A_Data

  /** scf, seq(6), body, mac(4) */
  function Encode(e: BlockCipher, key: Bytes, scf: int, seqNo: int, addr: Addressing, apdu: Bytes): Result<Bytes> {
    if !IsOctet(scf) then Raises
    else
      var s := Seal(e, key, seqNo, addr, [Octet(scf)], apdu, Encrypts(scf));
      var n := ToBytes(seqNo, 6);
      if s.Raises? || n.Raises? then Raises
      else Ok([Octet(scf)] + n.value + s.value.body + s.value.mac)
  }

  function Decode(e: BlockCipher, key: Bytes, asdu: Bytes, addr: Addressing): Result<Opening> {
    if |asdu| < 1 + 6 + MAC_LEN then Raises
    else
      OpenSealed(e, key, FromBytes(asdu[1..7]), addr, [asdu[0]], asdu[7..|asdu| - MAC_LEN], asdu[|asdu| - MAC_LEN..],
        Encrypts(asdu[0] as int))
  }

  /** A frame of known parts, taken apart again. */
  lemma Parts(head: Byte, n: Bytes, mid: Bytes, mac: Bytes)
    requires |n| == 6 && |mac| == MAC_LEN
    ensures
      var f := [head] + n + mid + mac;
      f[0] == head && f[1..7] == n && f[7..|f| - MAC_LEN] == mid && f[|f| - MAC_LEN..] == mac
  {
  }

  /** Every frame that can be encoded decodes to its APDU with the MAC accepted. */
  lemma DecodeEncode(e: BlockCipher, key: Bytes, scf: int, seqNo: int, addr: Addressing, apdu: Bytes)
    ensures Encode(e, key, scf, seqNo, addr, apdu).Ok? <==>
      IsOctet(scf) && Fits(key, seqNo, addr, [0], apdu, Encrypts(scf))
    ensures
      var f := Encode(e, key, scf, seqNo, addr, apdu);
      f.Ok? ==> Decode(e, key, f.value, addr) == Ok(Opening(apdu, true))
  {
    Powers();
    if IsOctet(scf) {
      var ad := [Octet(scf)];
      SealRaises(e, key, seqNo, addr, ad, apdu, Encrypts(scf));
      if Fits(key, seqNo, addr, ad, apdu, Encrypts(scf)) {
        OpenSeal(e, key, seqNo, addr, ad, apdu, Encrypts(scf));
        var s := Seal(e, key, seqNo, addr, ad, apdu, Encrypts(scf)).value;
        Parts(Octet(scf), ToBytes(seqNo, 6).value, s.body, s.mac);
      }
    }
  }

  lemma Reassembled(f: Bytes)
    requires |f| >= 1 + 6 + MAC_LEN
    ensures f == [f[0]] + f[1..7] + f[7..|f| - MAC_LEN] + f[|f| - MAC_LEN..]
    ensures ToBytes(FromBytes(f[1..7]), 6) == Ok(f[1..7])
  {
    BigEndianFrom(f[1..7]);
  }

  /** Decoding accepts only what encoding makes, octet for octet. */
  lemma AcceptedIsEncoded(e: BlockCipher, key: Bytes, asdu: Bytes, addr: Addressing, scf: int, seqNo: int, plain: Bytes)
    requires Decode(e, key, asdu, addr) == Ok(Opening(plain, true))
    requires scf == asdu[0] as int && seqNo == FromBytes(asdu[1..7])
    ensures Encode(e, key, scf, seqNo, addr, plain) == Ok(asdu)
  {
    Reassembled(asdu);
    var end := |asdu| - MAC_LEN;
    AcceptsOnlySealed(e, key, seqNo, addr, [asdu[0]], asdu[7..end], asdu[end..], Encrypts(scf));
    OctetAgain(asdu[0]);
  }

  // ----- S-A_Sync_Req

  datatype SyncReq = SyncReq(seqNo: int, serial: Bytes, challenge: Bytes, ok: bool)

  /** scf, seq(6), serial, covered challenge, mac(4); the serial is additional data and in clear. */
  function EncodeSyncReq(e: BlockCipher, key: Bytes, seqNo: int, serial: Bytes, challenge: Bytes, addr: Addressing,
                         scf: int): Result<Bytes> {
    if !IsOctet(scf) then Raises
    else
      var s := Seal(e, key, seqNo, addr, [Octet(scf)] + serial, challenge, Encrypts(scf));
      var n := ToBytes(seqNo, 6);
      if s.Raises? || n.Raises? then Raises
      else Ok([Octet(scf)] + n.value + (serial + s.value.body) + s.value.mac)
  }

  function DecodeSyncReq(e: BlockCipher, key: Bytes, asdu: Bytes, addr: Addressing): Result<Option<SyncReq>> {
    if |asdu| != 1 + 6 + 6 + 6 + MAC_LEN then Ok(None)
    else
      var seqNo := FromBytes(asdu[1..7]);
      var serial := asdu[7..13];
      var mac := asdu[|asdu| - MAC_LEN..];
      match OpenSealed(e, key, seqNo, addr, [asdu[0]] + serial, asdu[13..19], mac, Encrypts(asdu[0] as int))
      case Raises => Raises
      case Ok(o) => Ok(Some(SyncReq(seqNo, serial, o.plain, o.ok)))
  }

  lemma Middle(a: Bytes, b: Bytes, c: Bytes)
    ensures (a + b + c)[|a|..|a| + |b|] == b
  {
  }

  lemma SyncParts(head: Byte, n: Bytes, serial: Bytes, body: Bytes, mac: Bytes)
    requires |n| == 6 && |serial| == 6 && |body| == 6 && |mac| == MAC_LEN
    ensures
      var f := [head] + n + (serial + body) + mac;
      |f| == 23 && f[0] == head && f[1..7] == n && f[7..13] == serial && f[13..19] == body && f[|f| - MAC_LEN..] == mac
  {
    var f := [head] + n + (serial + body) + mac;
    Parts(head, n, serial + body, mac);
    assert f == ([head] + n) + serial + (body + mac);
    Middle([head] + n, serial, body + mac);
    assert f == ([head] + n + serial) + body + mac;
    Middle([head] + n + serial, body, mac);
  }

  /** A request with a serial number and a challenge of six octets each comes back whole. */
  lemma DecodeEncodeSyncReq(e: BlockCipher, key: Bytes, seqNo: int, serial: Bytes, challenge: Bytes, addr: Addressing,
                            scf: int)
    requires |serial| == 6 && |challenge| == 6
    requires IsOctet(scf) && Fits(key, seqNo, addr, [Octet(scf)] + serial, challenge, Encrypts(scf))
    ensures EncodeSyncReq(e, key, seqNo, serial, challenge, addr, scf).Ok?
    ensures DecodeSyncReq(e, key, EncodeSyncReq(e, key, seqNo, serial, challenge, addr, scf).value, addr) ==
      Ok(Some(SyncReq(seqNo, serial, challenge, true)))
  {
    Powers();
    var head, n := Octet(scf), ToBytes(seqNo, 6);
    var s := Seal(e, key, seqNo, addr, [head] + serial, challenge, Encrypts(scf));
    OpenSeal(e, key, seqNo, addr, [head] + serial, challenge, Encrypts(scf));
    SyncReqIs(e, key, seqNo, serial, challenge, addr, scf, n, s);
    SyncReqReads(e, key, seqNo, serial, challenge, addr, head, n.value, s.value);
  }

  lemma SyncReqIs(e: BlockCipher, key: Bytes, seqNo: int, serial: Bytes, challenge: Bytes, addr: Addressing, scf: int,
                  n: Result<Bytes>, s: Result<Sealed>)
    requires IsOctet(scf) && n == ToBytes(seqNo, 6) && n.Ok?
    requires s == Seal(e, key, seqNo, addr, [Octet(scf)] + serial, challenge, Encrypts(scf)) && s.Ok?
    ensures EncodeSyncReq(e, key, seqNo, serial, challenge, addr, scf) ==
      Ok([Octet(scf)] + n.value + (serial + s.value.body) + s.value.mac)
  {
  }

  lemma SyncReqReads(e: BlockCipher, key: Bytes, seqNo: int, serial: Bytes, challenge: Bytes, addr: Addressing,
                     head: Byte, n: Bytes, s: Sealed)
    requires |serial| == 6 && |s.body| == 6 && |n| == 6 && |s.mac| == MAC_LEN && FromBytes(n) == seqNo
    requires OpenSealed(e, key, seqNo, addr, [head] + serial, s.body, s.mac, Encrypts(head as int))
             == Ok(Opening(challenge, true))
    ensures DecodeSyncReq(e, key, [head] + n + (serial + s.body) + s.mac, addr) ==
      Ok(Some(SyncReq(seqNo, serial, challenge, true)))
  {
    SyncParts(head, n, serial, s.body, s.mac);
  }

  // ----- S-A_Sync_Res

  datatype SyncRes = SyncRes(responder: int, requester: int, ok: bool)

  /** scf, nonce xor challenge, covered sequence numbers, mac(4) */
  function EncodeSyncRes(e: BlockCipher, key: Bytes, responder: int, requester: int, challenge: Bytes, nonce: int,
                         addr: Addressing, scf: int): Result<Bytes> {
    var r, q, n := ToBytes(responder, 6), ToBytes(requester, 6), ToBytes(nonce, 6);
    if !IsOctet(scf) || r.Raises? || q.Raises? || n.Raises? then Raises
    else
      var s := Seal(e, key, nonce, addr, [Octet(scf)], r.value + q.value, Encrypts(scf));
      if s.Raises? then Raises
      else Ok([Octet(scf)] + Xor(n.value, challenge) + s.value.body + s.value.mac)
  }

  function DecodeSyncRes(e: BlockCipher, key: Bytes, asdu: Bytes, addr: Addressing,
                         challenge: Bytes): Result<Option<SyncRes>> {
    if |asdu| != 1 + 6 + 12 + MAC_LEN then Ok(None)
    else
      var nonce := FromBytes(Xor(asdu[1..7], challenge));
      match OpenSealed(e, key, nonce, addr, [asdu[0]], asdu[7..19], asdu[|asdu| - MAC_LEN..], Encrypts(asdu[0] as int))
      case Raises => Raises
      case Ok(o) =>
        var k := Min(6, |o.plain|);
        Ok(Some(SyncRes(FromBytes(o.plain[..k]), FromBytes(o.plain[k..]), o.ok)))
  }

  /** With the challenge of the request it answers, a response comes back whole; a challenge
      shorter than six octets makes the frame too short to be read at all. */
  lemma DecodeEncodeSyncRes(e: BlockCipher, key: Bytes, responder: int, requester: int, challenge: Bytes, nonce: int,
                            addr: Addressing, scf: int)
    requires EncodeSyncRes(e, key, responder, requester, challenge, nonce, addr, scf).Ok?
    ensures
      var asdu := EncodeSyncRes(e, key, responder, requester, challenge, nonce, addr, scf).value;
      DecodeSyncRes(e, key, asdu, addr, challenge) ==
      Ok(if |challenge| >= 6 then Some(SyncRes(responder, requester, true)) else None)
  {
    Powers();
    var n := ToBytes(nonce, 6).value;
    var plain := ToBytes(responder, 6).value + ToBytes(requester, 6).value;
    var ad := [Octet(scf)];
    SealRaises(e, key, nonce, addr, ad, plain, Encrypts(scf));
    OpenSeal(e, key, nonce, addr, ad, plain, Encrypts(scf));
    var s := Seal(e, key, nonce, addr, ad, plain, Encrypts(scf)).value;
    if |challenge| >= 6 {
      XorTwice(n, challenge);
      Parts(Octet(scf), Xor(n, challenge), s.body, s.mac);
      assert plain[..6] == ToBytes(responder, 6).value && plain[6..] == ToBytes(requester, 6).value;
    }
  }
}
