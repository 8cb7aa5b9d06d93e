/** What the framers make of octets that are no frame, and of all datagrams of a
    capture. */
module KnxDamage {
  import opened TcpReassembly
  import opened KnxFraming
  import opened TcpCapture
  import opened Wrappers

  /** A frame is well-formed exactly when it begins with 06 10, has a whole header, and octets 4 and 5 hold its length,
      the higher one first. */
  lemma FrameForm(f: seq<byte>)
    ensures WellFormed(f) <==> |f| >= 6 && f[0] == 0x06 && f[1] == 0x10 && f[4] as int * 256 + f[5] as int == |f|
  {
  }

  /** The shortest frame, in a datagram and in a stream. */
  lemma ShortestFrame(a: byte, b: byte)
    ensures Datagram([0x06, 0x10, a, b, 0, 6]) == [Frame([0x06, 0x10, a, b, 0, 6])]
    ensures Walk([0x06, 0x10, a, b, 0, 6]) == Walked([Frame([0x06, 0x10, a, b, 0, 6])], [])
  {
    var f: seq<byte> := [0x06, 0x10, a, b, 0, 6];
    FrameForm(f);
    assert f[..6] == f && f[6..] == [];
    assert Datagram([]) == [] && Walk([]) == Walked([], []);
  }

  // ----- damage in a stream

  /** Octets before the next header: they are dropped and reported, and the walk goes on at the header. */
  lemma ResyncsToHeader(garbage: seq<byte>, more: seq<byte>)
    requires garbage != [] && HeaderAt(more, 0) && |garbage + more| >= HEADER_LEN
    requires forall i :: 0 <= i < |garbage| ==> !HeaderAt(garbage + more, i)
    ensures Walk(garbage + more) == Prepend([Resync(garbage)], Walk(more))
  {
    var buf := garbage + more;
    assert HeaderAt(buf, |garbage|) by {
      assert buf[|garbage|] == more[0] && buf[|garbage| + 1] == more[1];
    }
    var r := FindHeader(buf, 1);
    assert r == Some(|garbage|);
    assert buf[..|garbage|] == garbage && buf[|garbage|..] == more;
  }

  /** Without any header everything is dropped, and its length reported. */
  lemma DropsWithoutHeader(buf: seq<byte>)
    requires |buf| >= HEADER_LEN && forall i :: 0 <= i < |buf| ==> !HeaderAt(buf, i)
    ensures Walk(buf) == Walked([NoHeader(|buf|)], [])
  {
    assert buf[|buf|..] == [];
  }

  /** A header whose length is shorter than a header is passed over, octet by octet. */
  lemma PassesOverShortLength(buf: seq<byte>)
    requires |buf| >= HEADER_LEN && HeaderAt(buf, 0) && TotalLength(buf) < HEADER_LEN
    ensures Walk(buf) == Walk(buf[1..])
  {
  }

  /** Fewer octets than a header, and a frame not complete yet, are kept. */
  lemma KeepsIncomplete(buf: seq<byte>)
    requires |buf| < HEADER_LEN || (HeaderAt(buf, 0) && HEADER_LEN <= TotalLength(buf) && |buf| < TotalLength(buf))
    ensures Walk(buf) == Walked([], buf)
  {
  }

  // ----- damage in a datagram

  /** The frames before the damage come out, then the rest as one malformed piece; a tail shorter than a header gives
      nothing. */
  lemma {:induction false} DatagramDamaged(frames: seq<seq<byte>>, i: nat, tail: seq<byte>)
    requires AllWellFormed(frames) && i <= |frames|
    requires |tail| >= HEADER_LEN ==>
      !HeaderAt(tail, 0) || TotalLength(tail) < HEADER_LEN || TotalLength(tail) > |tail|
    ensures Datagram(StreamFrom(frames, i) + tail)
            == FramesBetween(frames, i, |frames|) + (if |tail| < HEADER_LEN then [] else [Malformed(tail)])
    decreases |frames| - i
  {
    if i < |frames| {
      var f, data := frames[i], StreamFrom(frames, i) + tail;
      assert data == f + (StreamFrom(frames, i + 1) + tail);
      assert HeaderAt(data, 0) && TotalLength(data) == |f|;
      assert data[..|f|] == f && data[|f|..] == StreamFrom(frames, i + 1) + tail;
      DatagramDamaged(frames, i + 1, tail);
      BetweenNext(frames, i, |frames|);
    } else {
      assert StreamFrom(frames, i) + tail == tail;
    }
  }

  // ----- the datagrams of a capture

  /** The payloads of the datagrams, in order. */
  function Payloads<K>(ps: seq<Packet<K>>): seq<seq<byte>> {
    if ps == [] then []
    else if ps[0].Udp? then [ps[0].payload] + Payloads(ps[1..])
    else Payloads(ps[1..])
  }

  function Concat(fs: seq<seq<seq<byte>>>): seq<seq<byte>> {
    if fs == [] then [] else fs[0] + Concat(fs[1..])
  }

  /** The datagrams of the capture carry these frames, datagram by datagram. */
  predicate CarriesFrames<K>(ps: seq<Packet<K>>, fs: seq<seq<seq<byte>>>) {
    |Payloads(ps)| == |fs| &&
    forall i :: 0 <= i < |fs| ==> AllWellFormed(fs[i]) && Payloads(ps)[i] == Stream(fs[i])
  }

  /** The output is these frames, none of them of a flow. */
  predicate AreFrames<K(==)>(out: seq<Tagged<K>>, frames: seq<seq<byte>>) {
    |out| == |frames| && forall i :: 0 <= i < |out| ==> out[i] == Tagged(None, Frame(frames[i]))
  }

  lemma AreFramesJoin<K>(a: seq<Tagged<K>>, b: seq<Tagged<K>>, frames: seq<seq<byte>>, more: seq<seq<byte>>)
    requires AreFrames(a, frames) && AreFrames(b, more)
    ensures AreFrames(a + b, frames + more)
  {
  }

  lemma DatagramOut<K>(flows: Flows<K>, p: Packet<K>, frames: seq<seq<byte>>)
    requires p.Udp? && AllWellFormed(frames) && p.payload == Stream(frames)
    ensures OutputOf(PacketOut(KnxStep<K>, flows, p), None) == PacketOut(KnxStep<K>, flows, p)
    ensures AreFrames(PacketOut(KnxStep<K>, flows, p), frames)
  {
    DatagramFrames(frames, 0);
    OutputOfTagged(PacketOut(KnxStep<K>, flows, p), None, None);
  }

  /** Whatever TCP flows are in between, the frames of the datagrams come out whole and in order. */
  lemma {:induction false} UdpFrames<K>(flows: Flows<K>, ps: seq<Packet<K>>, fs: seq<seq<seq<byte>>>)
    requires CarriesFrames(ps, fs)
    ensures AreFrames(OutputOf(Output(KnxStep<K>, flows, ps), None), Concat(fs))
    decreases |ps|
  {
    if ps != [] {
      var p, rest := ps[0], ps[1..];
      var next := PacketStep(KnxStep<K>, flows, p);
      var now, later := PacketOut(KnxStep<K>, flows, p), Output(KnxStep<K>, next, rest);
      OutputOfJoin(now, later, None);
      if p.Udp? {
        assert Payloads(ps)[0] == p.payload && Payloads(ps)[1..] == Payloads(rest);
        assert forall i :: 0 <= i < |fs| - 1 ==> fs[1..][i] == fs[i + 1] && Payloads(rest)[i] == Payloads(ps)[i + 1];
        DatagramOut(flows, p, fs[0]);
        UdpFrames(next, rest, fs[1..]);
        AreFramesJoin(now, OutputOf(later, None), fs[0], Concat(fs[1..]));
      } else {
        OutputOfTagged(now, KeyOf(p), None);
        UdpFrames(next, rest, fs);
      }
    }
  }
}
