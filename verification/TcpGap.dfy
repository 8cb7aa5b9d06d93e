/** What a SYN and a FIN do to a flow that holds segments back: where the flush
    of a gap goes on, what it strands, and the frames a FIN emits. */
module TcpGap {
  import opened TcpReassembly
  import opened KnxFraming
  import opened TcpCapture
  import opened Wrappers

  // ----- where the flush goes on

  /** k is the lowest held number. */
  predicate Lowest(pending: Pending, k: SeqNo) { k in pending && forall j :: j in pending ==> k <= j }

  lemma LowestIsLeast(pending: Pending, k: SeqNo)
    requires Lowest(pending, k)
    ensures Least(pending.Keys) == k
  {
    assert Least(pending.Keys) in pending;
  }

  lemma FlushIs(r: Reassembly, k: SeqNo)
    requires Lowest(r.pending, k) && r.pending[k] != []
    ensures FlushGap(r) == Drain(k, r.pending)
  {
    LowestIsLeast(r.pending, k);
    assert (r.pending - {k})[k := r.pending[k]] == r.pending;
  }

  /** The flush gives out the stretch of the stream that begins at the lowest held number. */
  lemma FlushDelivers(stream: seq<byte>, base: SeqNo, r: Reassembly, k: SeqNo, o: nat)
    requires Short(stream) && Faithful(stream, base, r.pending) && Lowest(r.pending, k) && o == Position(base, k)
    ensures Continues(stream, base, o, FlushGap(r)) && FlushGap(r).out != []
  {
    FlushIs(r, k);
    NumberOf(base, k);
    DrainDelivers(stream, base, o, r.pending);
  }

  lemma NumberOf(base: SeqNo, k: SeqNo)
    ensures Advance(base, Position(base, k)) == k
  {
  }

  /** Some held numbers are before the wrap of the sequence numbers and some after it. */
  predicate Straddles(base: SeqNo, pending: Pending) {
    exists j, k :: j in pending && k in pending && j < base <= k
  }

  /** k is the held segment that comes first in the stream. */
  predicate Earliest(base: SeqNo, pending: Pending, k: SeqNo) {
    k in pending && forall j :: j in pending ==> Position(base, k) <= Position(base, j)
  }

  lemma PositionCases(base: SeqNo, k: SeqNo)
    ensures Position(base, k) == if k >= base then k - base else k - base + SEQ_SPACE
  {
  }

  /** The lowest number is the earliest segment exactly when the held numbers do not straddle the wrap. */
  lemma LowestIsEarliest(base: SeqNo, pending: Pending, low: SeqNo)
    requires Lowest(pending, low)
    ensures Earliest(base, pending, low) <==> !Straddles(base, pending)
  {
    forall j | j in pending
      ensures Position(base, j) == if j >= base then j - base else j - base + SEQ_SPACE
    {
      PositionCases(base, j);
    }
    if Straddles(base, pending) {
      var j, k :| j in pending && k in pending && j < base <= k;
      assert low < base && Position(base, k) < Position(base, low);
    }
  }

  /** A flush goes on with the earliest held segment exactly when the held numbers do not straddle the wrap: the lowest
      number is taken without regard to it. */
  lemma FlushGoesOn(stream: seq<byte>, base: SeqNo, r: Reassembly, first: SeqNo)
    requires Short(stream) && Faithful(stream, base, r.pending) && Earliest(base, r.pending, first)
    ensures Continues(stream, base, Position(base, first), FlushGap(r)) <==> !Straddles(base, r.pending)
  {
    var low := Least(r.pending.Keys);
    FlushDelivers(stream, base, r, low, Position(base, low));
    LowestIsEarliest(base, r.pending, low);
    PositionsDiffer(base, first, low);
    var d := FlushGap(r);
    var o, p := Position(base, first), Position(base, low);
    if o != p && Continues(stream, base, o, d) {
      OneNext(base, o + |d.out|, p + |d.out|);
    }
  }

  lemma PositionsDiffer(base: SeqNo, j: SeqNo, k: SeqNo)
    ensures Position(base, j) == Position(base, k) <==> j == k
  {
    NumberOf(base, j);
    NumberOf(base, k);
  }

  lemma OneNext(base: SeqNo, m: nat, n: nat)
    requires m < SEQ_SPACE && n < SEQ_SPACE
    ensures Advance(base, m) == Advance(base, n) <==> m == n
  {
    PositionOf(base, m);
    PositionOf(base, n);
  }

  /** Held segments before the place where a drain begins stay held. */
  lemma {:induction false} DrainLeaves(stream: seq<byte>, base: SeqNo, n: nat, pending: Pending, k: SeqNo)
    requires Short(stream) && n <= |stream| && Faithful(stream, base, pending)
    requires k in pending && Position(base, k) < n
    ensures k in Drain(Advance(base, n), pending).state.pending
    decreases |pending|
  {
    var next := Advance(base, n);
    if next in pending {
      HeldIsNext(stream, base, n, pending);
      PositionOf(base, n);
      DrainLeaves(stream, base, n + |pending[next]|, pending - {next}, k);
    }
  }

  /** When they straddle it, the flush leaves the earliest segment held behind the place it has reached. */
  lemma FlushStrands(stream: seq<byte>, base: SeqNo, r: Reassembly, first: SeqNo)
    requires Short(stream) && Faithful(stream, base, r.pending) && Earliest(base, r.pending, first)
    requires Straddles(base, r.pending)
    ensures first in FlushGap(r).state.pending && SeqLt(first, FlushGap(r).state.next.value)
  {
    var low := Least(r.pending.Keys);
    var o, p := Position(base, first), Position(base, low);
    LowestIsEarliest(base, r.pending, low);
    FlushIs(r, low);
    NumberOf(base, low);
    NumberOf(base, first);
    DrainLeaves(stream, base, p, r.pending, first);
    FlushDelivers(stream, base, r, low, p);
    SeqLtIsLess(base, o, p + |FlushGap(r).out|);
  }

  /** Two segments on either side of the wrap: the flush gives out the second and keeps the first. */
  lemma FlushSkips(x: byte, y: byte)
    ensures
      var held: Pending := map[0xFFFF_FFFE := [x], 5 := [y]];
      FlushGap(Reassembly(Some(0xFFFF_FFF0), held)) == Delivery([y], Reassembly(Some(6), map[0xFFFF_FFFE := [x]]))
  {
    var held: Pending := map[0xFFFF_FFFE := [x], 5 := [y]];
    assert Lowest(held, 5);
    FlushIs(Reassembly(Some(0xFFFF_FFF0), held), 5);
    var rest: Pending := map[0xFFFF_FFFE := [x]];
    assert held - {5} == rest;
    assert Drain(6, rest) == Delivery([], Reassembly(Some(6), rest));
    assert [y] + [] == [y];
  }

  // ----- a FIN

  /** A FIN on a packet does what a FIN without data behind it does. */
  lemma FinIsSeparate(flow: Flow, at: SeqNo, payload: seq<byte>, syn: bool)
    ensures
      var first := FlowStep(flow, at, payload, syn, false);
      var second := FlowStep(first.flow, at, [], false, true);
      FlowStep(flow, at, payload, syn, true) == FlowOut(first.out + second.out, second.flow)
  {
    var first := FlowStep(flow, at, payload, syn, false);
    RestWaits(flow.buf + Add(Synchronised(flow.stream, at, syn), at, payload).out);
    EmptySegment(first.flow, at);
  }

  /** An empty segment on a flow whose buffer waits. */
  lemma EmptySegment(flow: Flow, at: SeqNo)
    requires Walk(flow.buf) == Walked([], flow.buf)
    ensures FlowStep(flow, at, [], false, false) == FlowOut([], flow)
    ensures FlowStep(flow, at, [], false, true) == Deliver(flow.buf, FlushGap(flow.stream))
  {
    assert flow.buf + [] == flow.buf;
    var d := Deliver(flow.buf, FlushGap(flow.stream));
    assert [] + d.out == d.out;
  }

  /** Every part from the j-th on is held, and nothing else. */
  ghost predicate HoldsFrom(base: SeqNo, parts: seq<seq<byte>>, pending: Pending, j: nat) {
    && (forall i: nat :: j <= i < |parts| ==> SeqOf(base, parts, i) in pending)
    && (forall k :: k in pending ==> exists i :: j <= i && HeldAs(base, parts, pending, k, i))
  }

  lemma HoldsFaithful(base: SeqNo, parts: seq<seq<byte>>, pending: Pending, j: nat)
    requires Sent(parts) && HoldsFrom(base, parts, pending, j) && j < |parts|
    ensures Faithful(Stream(parts), base, pending) && Earliest(base, pending, SeqOf(base, parts, j))
    ensures Position(base, SeqOf(base, parts, j)) == Begin(parts, j)
  {
    StreamSplits(parts, j);
    PositionOf(base, Begin(parts, j));
    forall k | k in pending
      ensures StretchAt(Stream(parts), Position(base, k), pending[k])
      ensures Position(base, SeqOf(base, parts, j)) <= Position(base, k)
    {
      var i :| j <= i && HeldAs(base, parts, pending, k, i);
      StreamSplits(parts, i);
      PositionOf(base, Begin(parts, i));
      PartIs(parts, i);
      BeginGrows(parts, j, i);
    }
  }

  /** With every part from the j-th on held, the flush gives out all of them, unless they straddle the wrap. */
  lemma FlushGivesRest(base: SeqNo, parts: seq<seq<byte>>, r: Reassembly, j: nat)
    requires Sent(parts) && j < |parts| && HoldsFrom(base, parts, r.pending, j) && !Straddles(base, r.pending)
    ensures FlushGap(r) == Delivery(StreamFrom(parts, j), Reassembly(Some(Advance(base, |Stream(parts)|)), map[]))
  {
    var first, stream := SeqOf(base, parts, j), Stream(parts);
    HoldsFaithful(base, parts, r.pending, j);
    FlushGoesOn(stream, base, r, first);
    var low := Least(r.pending.Keys);
    LowestIsEarliest(base, r.pending, low);
    PositionsDiffer(base, first, low);
    FlushIs(r, first);
    var d := FlushGap(r);
    FlushEmpties(base, parts, r.pending, j);
    OneNext(base, Begin(parts, j) + |d.out|, |stream|);
    StreamSplits(parts, j);
    assert d.out == stream[Begin(parts, j)..];
  }

  lemma FlushEmpties(base: SeqNo, parts: seq<seq<byte>>, pending: Pending, j: nat)
    requires Sent(parts) && j < |parts| && HoldsFrom(base, parts, pending, j)
    ensures
      var d := Drain(SeqOf(base, parts, j), pending);
      d.state.pending == map[] && d.state.next == Some(Advance(base, |Stream(parts)|))
  {
    var all: seq<nat> := seq(|parts|, i => i);
    var arrived := Arrived(all);
    forall i: nat | i < |parts|
      ensures i in arrived
    {
      assert all[i] == i;
    }
    var r := Reassembly(Some(SeqOf(base, parts, j)), pending);
    var j' := DrainAligned(base, parts, arrived, r, j);
    AllArrived(base, parts, arrived, Drain(SeqOf(base, parts, j), pending).state, j');
  }

  /** A FIN gives up on the octets before the held parts: when these begin at a frame and the buffer is empty, it emits
      every frame from there on. */
  lemma FinEmitsRest(base: SeqNo, frames: seq<seq<byte>>, parts: seq<seq<byte>>, flow: Flow, at: SeqNo, j: nat, i: nat)
    requires AllWellFormed(frames) && Sent(parts) && Stream(parts) == Stream(frames)
    requires j < |parts| && i <= |frames| && Begin(parts, j) == Begin(frames, i)
    requires HoldsFrom(base, parts, flow.stream.pending, j) && !Straddles(base, flow.stream.pending) && flow.buf == []
    ensures FlowStep(flow, at, [], false, true).out == FramesBetween(frames, i, |frames|)
    ensures FlowStep(flow, at, [], false, true).flow
            == Flow(Reassembly(Some(Advance(base, |Stream(frames)|)), map[]), [])
  {
    assert Walk([]) == Walked([], []);
    EmptySegment(flow, at);
    FlushGivesRest(base, parts, flow.stream, j);
    StreamSplits(parts, j);
    StreamSplits(frames, i);
    var rest := StreamFrom(frames, i);
    WalkFrames(frames, i, |rest|);
    assert rest[..|rest|] == rest && [] + rest == rest;
    ReachesEnd(frames, i);
  }

  lemma {:induction false} ReachesEnd(frames: seq<seq<byte>>, i: nat)
    requires i <= |frames|
    ensures Reaches(frames, i, |StreamFrom(frames, i)|) == |frames|
    ensures Begin(frames, i) + |StreamFrom(frames, i)| == Begin(frames, |frames|)
    decreases |frames| - i
  {
    if i < |frames| {
      ReachesEnd(frames, i + 1);
    }
  }

  lemma {:induction false} PacketsOfLast<K>(ps: seq<Packet<K>>, p: Packet<K>, flow: Option<K>)
    requires Carries(p, flow)
    ensures PacketsOf(ps + [p], flow) == PacketsOf(ps, flow) + [p]
  {
    if ps == [] {
      assert ps + [p] == [p] && [p][1..] == [];
    } else {
      PacketsOfLast(ps[1..], p, flow);
      assert (ps + [p])[1..] == ps[1..] + [p];
    }
  }

  lemma RunLast<K>(step: Stepper<K>, flow: Flow, ps: seq<Packet<K>>, p: Packet<K>)
    ensures
      var before := RunOf(step, flow, ps);
      RunOf(step, flow, ps + [p]).out == before.out + step(before.flow, p).out
  {
    assert (ps + [p])[..|ps|] == ps;
  }

  /** The flow before its first segment: new, or started by its SYN. */
  predicate AtStart(flow: Flow, isn: SeqNo, syns: nat) {
    if syns > 0 then flow == Started(Advance(isn, 1)) else flow == NewFlow
  }

  /** One more packet of the flow behind its segments, in the flow's own run. */
  lemma CaptureIsRunOf<K>(ps: seq<Packet<K>>, p: Packet<K>, k: K, isn: SeqNo, syns: nat, segments: seq<Packet<K>>)
    returns (flow: Flow)
    requires PacketsOf(ps, Some(k)) == Syns(k, isn, syns) + segments && KeyOf(p) == Some(k) && AllOf(k, segments)
    ensures AtStart(flow, isn, syns)
    ensures OutputOf(Output(KnxStep<K>, map[], ps + [p]), Some(k))
            == Tag(Some(k), RunOf(KnxStep<K>, flow, segments + [p]).out)
  {
    var none: Flows<K> := map[];
    FlowsIsolated(KnxStep<K>, none, none, ps + [p], Some(k));
    PacketsOfLast(ps, p, Some(k));
    var more := segments + [p];
    assert Syns(k, isn, syns) + segments + [p] == Syns(k, isn, syns) + more;
    var flows := SynsFirst(k, isn, syns, none, more);
    flow := FlowOf(flows, k);
    OutputIsRun(KnxStep<K>, k, flows, more);
  }

  lemma RunFromStart(base: SeqNo, stream: seq<byte>, flow: Flow, isn: SeqNo, syns: nat, ss: seq<Segment>,
                     fins: seq<bool>)
    requires AllWithin(stream, ss) && |fins| == |ss| && FinsQuiet(base, stream, Started(base), ss, fins)
    requires if syns > 0 then base == Advance(isn, 1) else |ss| > 0 && ss[0].from == 0 < ss[0].end
    requires AtStart(flow, isn, syns)
    ensures FinsQuiet(base, stream, flow, ss, fins)
    ensures EmittedBy(base, stream, flow, ss) == EmittedBy(base, stream, Started(base), ss)
    ensures FlowAfter(base, stream, flow, ss) == FlowAfter(base, stream, Started(base), ss)
  {
    if syns == 0 {
      FirstSegmentFirst(base, stream, ss);
      FinsQuietFirst(base, stream, ss, fins);
    }
  }

  lemma CaptureNext<K>(ps: seq<Packet<K>>, p: Packet<K>, k: K, isn: SeqNo, syns: nat, base: SeqNo, stream: seq<byte>,
                       ss: seq<Segment>, fins: seq<bool>)
    requires Carried(ps, k, isn, syns, base, stream, ss, fins) && KeyOf(p) == Some(k)
    ensures
      OutputOf(Output(KnxStep<K>, map[], ps + [p]), Some(k))
      == Tag(Some(k), EmittedBy(base, stream, Started(base), ss)
                      + KnxStep(FlowAfter(base, stream, Started(base), ss), p).out)
  {
    var segments := SegmentPackets(k, base, stream, ss, fins);
    var flow := CaptureIsRunOf(ps, p, k, isn, syns, segments);
    RunFromStart(base, stream, flow, isn, syns, ss, fins);
    RunIsEmitted(k, base, stream, flow, ss, fins);
    RunLast(KnxStep<K>, flow, segments, p);
  }

  /** From capture to frames across a loss: the frames complete before it, and behind a FIN every frame from the first
      held part on, when this begins a frame and the loss began at one. */
  lemma CaptureFlushes<K>(ps: seq<Packet<K>>, k: K, isn: SeqNo, syns: nat, base: SeqNo, frames: seq<seq<byte>>,
                          ss: seq<Segment>, fins: seq<bool>, parts: seq<seq<byte>>, at: SeqNo, j: nat, i: nat)
    requires AllWellFormed(frames) && Sent(parts) && Stream(parts) == Stream(frames)
    requires Carried(ps, k, isn, syns, base, Stream(frames), ss, fins)
    requires j < |parts| && i <= |frames| && Begin(parts, j) == Begin(frames, i)
    requires
      var flow := FlowAfter(base, Stream(frames), Started(base), ss);
      flow.buf == [] && HoldsFrom(base, parts, flow.stream.pending, j) && !Straddles(base, flow.stream.pending)
    ensures
      var n := OctetsDelivered(base, FlowAfter(base, Stream(frames), Started(base), ss));
      OutputOf(Output(KnxStep<K>, map[], ps + [Tcp(k, at, [], false, true)]), Some(k))
      == Tag(Some(k), FramesBetween(frames, 0, Whole(frames, n)) + FramesBetween(frames, i, |frames|))
  {
    var flow := FlowAfter(base, Stream(frames), Started(base), ss);
    CaptureNext(ps, Tcp(k, at, [], false, true), k, isn, syns, base, Stream(frames), ss, fins);
    EmitsPrefix(base, frames, ss);
    FinEmitsRest(base, frames, parts, flow, at, j, i);
  }

  /** Octets behind a gap fill up the frame that the gap cut: the first frame emitted has the old octets and the new
      ones, and is the frame that was sent exactly when the new octets happen to be the lost ones. */
  lemma GapMixes(f: seq<byte>, b: nat, out: seq<byte>)
    requires WellFormed(f) && HEADER_LEN <= b < |f| && |out| >= |f| - b
    ensures
      var mixed := f[..b] + out[..|f| - b];
      && Walk(f[..b] + out) == Prepend([Frame(mixed)], Walk(out[|f| - b..]))
      && (mixed == f <==> out[..|f| - b] == f[b..])
  {
    var x, more := out[..|f| - b], out[|f| - b..];
    assert out == x + more;
    Mixed(f, b, x);
    FillsUp(f[..b], x, more, out);
  }

  lemma FillsUp(h: seq<byte>, x: seq<byte>, more: seq<byte>, out: seq<byte>)
    requires out == x + more && WellFormed(h + x)
    ensures Walk(h + out) == Prepend([Frame(h + x)], Walk(more))
  {
    assert h + out == (h + x) + more;
    TakesFrame(h + x, more);
  }

  lemma Mixed(f: seq<byte>, b: nat, x: seq<byte>)
    requires WellFormed(f) && HEADER_LEN <= b < |f| && |x| == |f| - b
    ensures WellFormed(f[..b] + x)
    ensures f[..b] + x == f <==> x == f[b..]
  {
    var mixed := f[..b] + x;
    assert mixed[0] == f[0] && mixed[1] == f[1] && mixed[4] == f[4] && mixed[5] == f[5];
    assert f == f[..b] + f[b..];
    assert mixed[b..] == x;
  }

  // ----- a SYN

  /** A SYN starts its stream anew whatever the flow expected before, and keeps the segments that overtook it. */
  lemma SynAligns(isn: SeqNo, parts: seq<seq<byte>>, arrived: set<nat>, r: Reassembly)
    requires forall i :: i in arrived && i < |parts| ==> SeqOf(Advance(isn, 1), parts, i) in r.pending
    requires forall k :: k in r.pending ==> exists i :: HeldAs(Advance(isn, 1), parts, r.pending, k, i)
    ensures Aligned(Advance(isn, 1), parts, arrived, Synchronised(r, isn, true), 0)
  {
    var base := Advance(isn, 1);
    assert SeqOf(base, parts, 0) == base by { AdvanceTwice(isn, 1, 0); }
    forall k | k in r.pending
      ensures exists i :: 0 <= i && HeldAs(base, parts, r.pending, k, i)
    {
      var i :| HeldAs(base, parts, r.pending, k, i);
      assert 0 <= i;
    }
  }
}
