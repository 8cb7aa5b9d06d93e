/** When the reassembly loses an octet that has arrived: exactly when a shorter
    segment takes the place of a longer held one, or when the delivery stops
    inside a held segment. */
module TcpLoss {
  import opened TcpReassembly
  import opened KnxFraming
  import opened TcpCapture
  import opened Wrappers

  /** The octet at position p is in the held segment k. */
  predicate Holds(base: SeqNo, pending: Pending, k: SeqNo, p: nat) {
    k in pending && Position(base, k) <= p < Position(base, k) + |pending[k]|
  }

  /** Exactly n octets are out and the next one is not held: the state between two segments. */
  predicate Ready(stream: seq<byte>, base: SeqNo, r: Reassembly, n: nat) {
    DeliveredTo(stream, base, r, n) && r.next.value !in r.pending
  }

  /** The octet at p is out, or held where the delivery will still come to it. */
  ghost predicate Has(base: SeqNo, r: Reassembly, n: nat, p: nat) {
    p < n || exists k :: Holds(base, r.pending, k, p) && n <= Position(base, k)
  }

  /** After a segment from o to end, every octet that has arrived is out or still held. */
  ghost predicate KeepsAll(base: SeqNo, r: Reassembly, n: nat, o: nat, end: nat, d: Delivery) {
    forall p: nat :: Has(base, r, n, p) || o <= p < end ==> Has(base, d.state, n + |d.out|, p)
  }

  /** A longer segment is held at the place o, and one of its octets past the end is held nowhere else. */
  ghost predicate Overwritten(base: SeqNo, r: Reassembly, n: nat, o: nat, end: nat) {
    exists p: nat :: end <= p && OnlyAt(base, r, n, Advance(base, o), p)
  }

  ghost predicate OnlyAt(base: SeqNo, r: Reassembly, n: nat, at: SeqNo, p: nat) {
    Holds(base, r.pending, at, p) && forall k :: Holds(base, r.pending, k, p) && n <= Position(base, k) ==> k == at
  }

  /** A held segment begins inside what is delivered from n to m and ends beyond it. */
  ghost predicate Stranded(base: SeqNo, r: Reassembly, n: nat, m: nat) {
    exists k :: Holds(base, r.pending, k, m) && n < Position(base, k) < m
  }

  /** Where the delivery comes to from m on: the end of the chain of held segments that follow on there. */
  function Reach(base: SeqNo, pending: Pending, m: nat): nat
    decreases |pending|
  {
    var k := Advance(base, m);
    if k in pending then Reach(base, pending - {k}, m + |pending[k]|) else m
  }

  /** The guard of a loss, read off the state before: ahead of the gap the place is overwritten; a segment that fills
      the gap has a held segment stranded where the chain behind it ends. */
  ghost predicate Loses(base: SeqNo, r: Reassembly, n: nat, o: nat, end: nat) {
    if n < o then Overwritten(base, r, n, o, end) else n < end && Stranded(base, r, n, Reach(base, r.pending, end))
  }

  /** The delivery comes exactly there. */
  lemma {:induction false} DrainReaches(base: SeqNo, pending: Pending, m: nat)
    ensures m + |Drain(Advance(base, m), pending).out| == Reach(base, pending, m)
    decreases |pending|
  {
    var k := Advance(base, m);
    if k in pending {
      AdvanceTwice(base, m, |pending[k]|);
      DrainReaches(base, pending - {k}, m + |pending[k]|);
    }
  }

  lemma AdvanceTwice(base: SeqNo, n: nat, m: nat)
    ensures Advance(Advance(base, n), m) == Advance(base, n + m)
  {
  }

  lemma DrainFirst(next: SeqNo, pending: Pending, rest: Pending)
    requires next in pending && rest == pending - {next}
    ensures Drain(next, pending).out == pending[next] + Drain(Advance(next, |pending[next]|), rest).out
  {
  }

  lemma WithAndWithout(next: SeqNo, pending: Pending, data: seq<byte>)
    requires next !in pending
    ensures pending[next := data] - {next} == pending
  {
  }

  lemma DrainOver(next: SeqNo, pending: Pending, data: seq<byte>)
    requires next !in pending
    ensures Drain(next, pending[next := data]).out == data + Drain(Advance(next, |data|), pending).out
  {
    WithAndWithout(next, pending, data);
    DrainFirst(next, pending[next := data], pending);
  }

  /** A segment that fills the gap delivers to the end of the chain behind it. */
  lemma AddReaches(stream: seq<byte>, base: SeqNo, r: Reassembly, n: nat, o: nat, end: nat)
    requires Short(stream) && Ready(stream, base, r, n) && o <= n < end <= |stream|
    ensures n + |Add(r, Advance(base, o), stream[o..end]).out| == Reach(base, r.pending, end)
  {
    AddIs(stream, base, r, n, o, end);
    DrainOver(Advance(base, n), r.pending, stream[n..end]);
    AdvanceTwice(base, n, end - n);
    DrainReaches(base, r.pending, end);
  }

  lemma KeyAt(base: SeqNo, k: SeqNo)
    ensures Advance(base, Position(base, k)) == k
  {
  }

  /** What the delivery takes out of the held segments it gives out whole. */
  lemma {:induction false} DrainTakesWhole(stream: seq<byte>, base: SeqNo, n: nat, pending: Pending, k: SeqNo)
    requires Short(stream) && n <= |stream| && Faithful(stream, base, pending)
    requires k in pending && k !in Drain(Advance(base, n), pending).state.pending
    ensures Position(base, k) + |pending[k]| <= n + |Drain(Advance(base, n), pending).out|
    decreases |pending|
  {
    var next := Advance(base, n);
    if next in pending {
      HeldIsNext(stream, base, n, pending);
      PositionOf(base, n);
      if k != next {
        DrainTakesWhole(stream, base, n + |pending[next]|, pending - {next}, k);
      }
    }
  }

  lemma AheadIs(base: SeqNo, r: Reassembly, n: nat, at: SeqNo, data: seq<byte>)
    requires r.next.Some? && r.next.value !in r.pending && r.next.value != at
    ensures Drain(r.next.value, r.pending[at := data]) == Delivery([], Reassembly(r.next, r.pending[at := data]))
  {
  }

  /** A segment ahead of the gap: it is held, and nothing is given out. */
  lemma AheadKeeps(stream: seq<byte>, base: SeqNo, r: Reassembly, n: nat, o: nat, end: nat)
    requires Short(stream) && Ready(stream, base, r, n) && n < o < end <= |stream|
    ensures KeepsAll(base, r, n, o, end, Add(r, Advance(base, o), stream[o..end])) <==> !Overwritten(base, r, n, o, end)
  {
    var at := Advance(base, o);
    AddIs(stream, base, r, n, o, end);
    PositionOf(base, n);
    PositionOf(base, o);
    AheadIs(base, r, n, at, stream[o..end]);
    var d := Add(r, at, stream[o..end]);
    forall p: nat
      ensures (Has(base, r, n, p) || o <= p < end ==> Has(base, d.state, n, p)) <==>
        !(end <= p && OnlyAt(base, r, n, at, p))
    {
      AheadOctet(base, r, n, o, end, stream[o..end], p);
    }
  }

  lemma AheadOctet(base: SeqNo, r: Reassembly, n: nat, o: nat, end: nat, data: seq<byte>, p: nat)
    requires n < o < end && Position(base, Advance(base, o)) == o && |data| == end - o
    ensures
      var at := Advance(base, o);
      var r' := Reassembly(r.next, r.pending[at := data]);
      (Has(base, r, n, p) || o <= p < end ==> Has(base, r', n, p)) <==> !(end <= p && OnlyAt(base, r, n, at, p))
  {
    var at := Advance(base, o);
    var r' := Reassembly(r.next, r.pending[at := data]);
    if o <= p < end {
      assert Holds(base, r'.pending, at, p);
    }
    if k :| Holds(base, r.pending, k, p) && n <= Position(base, k) && k != at {
      assert Holds(base, r'.pending, k, p);
    }
    if k :| Holds(base, r'.pending, k, p) && n <= Position(base, k) && k != at {
      assert Holds(base, r.pending, k, p);
    }
    if Holds(base, r.pending, at, p) {
      assert Has(base, r, n, p);
    }
  }

  /** A segment that fills the gap: what follows on is given out. */
  lemma FillKeeps(stream: seq<byte>, base: SeqNo, r: Reassembly, n: nat, o: nat, end: nat, d: Delivery, m: nat)
    requires Short(stream) && Ready(stream, base, r, n) && o <= n < end <= |stream|
    requires d == Add(r, Advance(base, o), stream[o..end]) && m == n + |d.out|
    ensures KeepsAll(base, r, n, o, end, d) <==> !Stranded(base, r, n, m)
  {
    Filled(stream, base, r, n, o, end, d, m);
    if k :| Holds(base, r.pending, k, m) && n < Position(base, k) < m {
      assert Has(base, r, n, m);
      NextNotHad(stream, base, d.state, m);
    } else {
      forall p: nat | Has(base, r, n, p)
        ensures Has(base, d.state, m, p)
      {
        if p >= m {
          var k :| Holds(base, r.pending, k, p) && n <= Position(base, k);
          KeyAt(base, k);
          assert Position(base, k) != n;
          assert k in d.state.pending && d.state.pending[k] == r.pending[k];
          assert Position(base, k) < m ==> Holds(base, r.pending, k, m);
          assert Holds(base, d.state.pending, k, p);
        }
      }
    }
  }

  /** The next octet to deliver is not held where the delivery comes to it. */
  lemma NextNotHad(stream: seq<byte>, base: SeqNo, r: Reassembly, n: nat)
    requires Short(stream) && Ready(stream, base, r, n)
    ensures !Has(base, r, n, n)
  {
    if k :| Holds(base, r.pending, k, n) && n <= Position(base, k) {
      KeyAt(base, k);
    }
  }

  /** After the gap is filled: the segment is out whole, and a held segment is kept as it is or out whole. */
  lemma Filled(stream: seq<byte>, base: SeqNo, r: Reassembly, n: nat, o: nat, end: nat, d: Delivery, m: nat)
    requires Short(stream) && Ready(stream, base, r, n) && o <= n < end <= |stream|
    requires d == Add(r, Advance(base, o), stream[o..end]) && m == n + |d.out|
    ensures end <= m && Ready(stream, base, d.state, m)
    ensures forall k :: k in r.pending ==>
      (k in d.state.pending && d.state.pending[k] == r.pending[k]) || Position(base, k) + |r.pending[k]| <= m
  {
    AddIs(stream, base, r, n, o, end);
    AddDelivers(stream, base, r, n, o, end);
    var next := Advance(base, n);
    var pending := r.pending[next := stream[n..end]];
    PutFaithful(stream, base, r.pending, n, end);
    PositionOf(base, n);
    assert d == Drain(next, pending);
    assert |pending[next]| == end - n;
    forall k | k in r.pending
      ensures (k in d.state.pending && d.state.pending[k] == r.pending[k]) || Position(base, k) + |r.pending[k]| <= m
    {
      if k !in d.state.pending {
        DrainTakesWhole(stream, base, n, pending, k);
      }
    }
  }

  /** Exactly when an arrived octet is lost. */
  lemma AddKeeps(stream: seq<byte>, base: SeqNo, r: Reassembly, n: nat, o: nat, end: nat)
    requires Short(stream) && Ready(stream, base, r, n) && o <= end <= |stream|
    ensures
      var d := Add(r, Advance(base, o), stream[o..end]);
      && Ready(stream, base, d.state, n + |d.out|)
      && (KeepsAll(base, r, n, o, end, d) <==> o == end || !Loses(base, r, n, o, end))
  {
    var d := Add(r, Advance(base, o), stream[o..end]);
    AddDelivers(stream, base, r, n, o, end);
    if o < end {
      AddIs(stream, base, r, n, o, end);
      if n < o {
        AheadKeeps(stream, base, r, n, o, end);
        PositionOf(base, n);
        PositionOf(base, o);
        AheadIs(base, r, n, Advance(base, o), stream[o..end]);
      } else if n < end {
        AddReaches(stream, base, r, n, o, end);
        FillKeeps(stream, base, r, n, o, end, d, n + |d.out|);
      }
    }
  }

  // ----- whole runs

  /** The reassembly after some segments of a stream whose start is known. */
  function After(base: SeqNo, stream: seq<byte>, ss: seq<Segment>): Reassembly
    requires AllWithin(stream, ss)
    decreases |ss|
  {
    if ss == [] then Reassembly(Some(base), map[])
    else
      var s := ss[|ss| - 1];
      Add(After(base, stream, ss[..|ss| - 1]), Advance(base, s.from), stream[s.from..s.end]).state
  }

  function Count(base: SeqNo, r: Reassembly): nat { if r.next.Some? then Position(base, r.next.value) else 0 }

  ghost predicate LosesAt(base: SeqNo, stream: seq<byte>, ss: seq<Segment>, x: nat)
    requires AllWithin(stream, ss) && x < |ss|
  {
    var before := After(base, stream, ss[..x]);
    ss[x].from < ss[x].end && Loses(base, before, Count(base, before), ss[x].from, ss[x].end)
  }

  /** No segment of the run loses anything. */
  ghost predicate NothingLost(base: SeqNo, stream: seq<byte>, ss: seq<Segment>)
    requires AllWithin(stream, ss)
  {
    forall x :: 0 <= x < |ss| ==> !LosesAt(base, stream, ss, x)
  }

  predicate InSegment(s: Segment, p: nat) { s.from <= p < s.end }

  predicate InSome(ss: seq<Segment>, p: nat) { exists x :: 0 <= x < |ss| && InSegment(ss[x], p) }

  lemma StepKeeps(stream: seq<byte>, base: SeqNo, r: Reassembly, n: nat, s: Segment, r': Reassembly, n': nat)
    requires Short(stream) && Within(stream, s) && Ready(stream, base, r, n)
    requires r' == Add(r, Advance(base, s.from), stream[s.from..s.end]).state && n' == Count(base, r')
    requires s.from < s.end ==> !Loses(base, r, n, s.from, s.end)
    ensures Ready(stream, base, r', n')
    ensures forall p: nat :: Has(base, r, n, p) || InSegment(s, p) ==> Has(base, r', n', p)
  {
    AddKeeps(stream, base, r, n, s.from, s.end);
    var m := n + |Add(r, Advance(base, s.from), stream[s.from..s.end]).out|;
    PositionOf(base, m);
    assert n' == m;
  }

  lemma FewerLost(base: SeqNo, stream: seq<byte>, ss: seq<Segment>)
    requires AllWithin(stream, ss) && ss != [] && NothingLost(base, stream, ss)
    ensures NothingLost(base, stream, ss[..|ss| - 1]) && !LosesAt(base, stream, ss, |ss| - 1)
  {
    var front := ss[..|ss| - 1];
    forall x | 0 <= x < |front|
      ensures !LosesAt(base, stream, front, x)
    {
      assert front[..x] == ss[..x];
      assert !LosesAt(base, stream, ss, x);
    }
  }

  lemma InSomeLast(ss: seq<Segment>, p: nat)
    requires ss != [] && InSome(ss, p)
    ensures InSome(ss[..|ss| - 1], p) || InSegment(ss[|ss| - 1], p)
  {
    var x :| 0 <= x < |ss| && InSegment(ss[x], p);
    assert x < |ss| - 1 ==> InSegment(ss[..|ss| - 1][x], p);
  }

  /** While nothing is lost, every octet that has arrived is out or held. */
  lemma {:induction false} NothingLostHas(base: SeqNo, stream: seq<byte>, ss: seq<Segment>, r: Reassembly, n: nat)
    requires Short(stream) && AllWithin(stream, ss) && NothingLost(base, stream, ss)
    requires r == After(base, stream, ss) && n == Count(base, r)
    ensures Ready(stream, base, r, n)
    ensures forall p: nat :: InSome(ss, p) ==> Has(base, r, n, p)
    decreases |ss|
  {
    if ss == [] {
      PositionOf(base, 0);
    } else {
      var front, s := ss[..|ss| - 1], ss[|ss| - 1];
      var before := After(base, stream, front);
      FewerLost(base, stream, ss);
      NothingLostHas(base, stream, front, before, Count(base, before));
      StepKeeps(stream, base, before, Count(base, before), s, r, n);
      forall p: nat | InSome(ss, p)
        ensures Has(base, r, n, p)
      {
        InSomeLast(ss, p);
      }
    }
  }

  lemma ArriveStream(base: SeqNo, stream: seq<byte>, flow: Flow, s: Segment)
    requires Within(stream, s)
    ensures Arrive(base, stream, flow, s).flow.stream
            == Add(flow.stream, Advance(base, s.from), stream[s.from..s.end]).state
  {
  }

  lemma {:induction false} FlowIsAfter(base: SeqNo, stream: seq<byte>, ss: seq<Segment>)
    requires AllWithin(stream, ss)
    ensures FlowAfter(base, stream, Started(base), ss).stream == After(base, stream, ss)
    decreases |ss|
  {
    if ss != [] {
      FlowIsAfter(base, stream, ss[..|ss| - 1]);
      ArriveStream(base, stream, FlowAfter(base, stream, Started(base), ss[..|ss| - 1]), ss[|ss| - 1]);
    }
  }

  lemma AllOut(stream: seq<byte>, base: SeqNo, r: Reassembly, n: nat)
    requires Short(stream) && Ready(stream, base, r, n) && forall p: nat :: p < |stream| ==> Has(base, r, n, p)
    ensures n == |stream|
  {
    NextNotHad(stream, base, r, n);
  }

  /** Whatever the boundaries: when every octet arrived in a segment and no segment lost any, every frame is emitted. */
  lemma EverythingOut(base: SeqNo, frames: seq<seq<byte>>, ss: seq<Segment>)
    requires AllWellFormed(frames) && Short(Stream(frames)) && AllWithin(Stream(frames), ss)
    requires NothingLost(base, Stream(frames), ss) && forall p: nat :: p < |Stream(frames)| ==> InSome(ss, p)
    ensures EmittedBy(base, Stream(frames), Started(base), ss) == FramesBetween(frames, 0, |frames|)
  {
    var stream, r := Stream(frames), After(base, Stream(frames), ss);
    NothingLostHas(base, stream, ss, r, Count(base, r));
    AllOut(stream, base, r, Count(base, r));
    FlowIsAfter(base, stream, ss);
    EmitsPrefix(base, frames, ss);
    WholeStream(base, frames, FlowAfter(base, stream, Started(base), ss), |stream|);
  }

  /** The same for a capture with other flows in between. */
  lemma CaptureEmitsEvery<K>(ps: seq<Packet<K>>, k: K, isn: SeqNo, syns: nat, base: SeqNo, frames: seq<seq<byte>>,
                             ss: seq<Segment>, fins: seq<bool>)
    requires AllWellFormed(frames) && Short(Stream(frames)) && Carried(ps, k, isn, syns, base, Stream(frames), ss, fins)
    requires NothingLost(base, Stream(frames), ss) && forall p: nat :: p < |Stream(frames)| ==> InSome(ss, p)
    ensures OutputOf(Output(KnxStep<K>, map[], ps), Some(k)) == Tag(Some(k), FramesBetween(frames, 0, |frames|))
  {
    CaptureIsRun(ps, k, isn, syns, base, Stream(frames), ss, fins);
    EverythingOut(base, frames, ss);
  }

  // ----- two ways to lose an octet that arrived

  /** A shorter retransmission replaces a longer held segment: c arrived and is nowhere. */
  lemma ShorterRetransmissionLosesOctets(a: byte, b: byte, c: byte)
    ensures
      var r1 := Add(Reassembly(Some(0), map[]), 1, [b, c]);
      var r2 := Add(r1.state, 1, [b]);
      var r3 := Add(r2.state, 0, [a]);
      r1.out == [] && r2.out == [] && r3 == Delivery([a, b], Reassembly(Some(2), map[]))
  {
    var r2 := Reassembly(Some(0), map[1 := [b]]);
    assert map[1 := [b, c]][1 := [b]] == map[1 := [b]];
    assert Add(Reassembly(Some(0), map[1 := [b, c]]), 1, [b]) == Delivery([], r2);
    var held: Pending := map[1 := [b], 0 := [a]];
    assert r2.pending[0 := [a]] == held && held - {0} == map[1 := [b]];
    var last: Pending := map[1 := [b]];
    assert last - {1} == map[];
    assert Drain(1, last) == Delivery([b] + [], Reassembly(Some(2), map[]));
  }

  /** Without a shorter retransmission: the delivery stops inside a held segment, and c is held where it never comes. */
  lemma OverlapStrandsOctets(a: byte, b: byte, c: byte)
    ensures
      var r1 := Add(Reassembly(Some(0), map[]), 1, [b, c]);
      r1.out == [] && Add(r1.state, 0, [a, b]) == Delivery([a, b], Reassembly(Some(2), map[1 := [b, c]]))
  {
    var held: Pending := map[1 := [b, c]];
    assert Add(Reassembly(Some(0), map[]), 1, [b, c]) == Delivery([], Reassembly(Some(0), held));
    var both: Pending := held[0 := [a, b]];
    assert both - {0} == held;
    assert Drain(0, both) == Delivery([a, b] + [], Reassembly(Some(2), held));
  }
}
