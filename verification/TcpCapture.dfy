/** From captured packets to frames: reassembly per flow, then framing. */
module TcpCapture {
  import opened TcpReassembly
  import opened KnxFraming
  import opened Wrappers

  datatype Packet<K> =
    | Udp(payload: seq<byte>)
    | Tcp(flow: K, at: SeqNo, payload: seq<byte>, syn: bool, fin: bool)

  /** One direction of one connection: its reassembly and its framing buffer. */
  datatype Flow = Flow(stream: Reassembly, buf: seq<byte>)
  datatype FlowOut = FlowOut(out: seq<Emission>, flow: Flow)

  const NewFlow := Flow(Reassembly(None, map[]), [])

  /** New octets for the buffer, and the frames they complete. */
  function Deliver(buf: seq<byte>, d: Delivery): FlowOut {
    var w := Walk(buf + d.out);
    FlowOut(w.out, Flow(d.state, w.rest))
  }

  function Synchronised(r: Reassembly, at: SeqNo, syn: bool): Reassembly {
    if syn then Reassembly(Some(Advance(at, 1)), r.pending) else r
  }

  function FlowStep(flow: Flow, at: SeqNo, payload: seq<byte>, syn: bool, fin: bool): FlowOut {
    var first := Deliver(flow.buf, Add(Synchronised(flow.stream, at, syn), at, payload));
    if fin then
      var second := Deliver(first.flow.buf, FlushGap(first.flow.stream));
      FlowOut(first.out + second.out, second.flow)
    else
      first
  }

  // ----- many flows at once

  type Flows<!K> = map<K, Flow>

  function FlowOf<K>(flows: Flows<K>, k: K): Flow {
    if k in flows then flows[k] else NewFlow
  }

  datatype Tagged<K> = Tagged(flow: Option<K>, e: Emission)

  function Tag<K>(flow: Option<K>, out: seq<Emission>): seq<Tagged<K>> {
    seq(|out|, i requires 0 <= i < |out| => Tagged(flow, out[i]))
  }

  function KeyOf<K>(p: Packet<K>): Option<K> {
    match p
    case Udp(_) => None
    case Tcp(k, _, _, _, _) => Some(k)
  }

  /** What one packet does to its flow; a datagram has none. */
  type Stepper<!K> = (Flow, Packet<K>) -> FlowOut

  function KnxStep<K>(flow: Flow, p: Packet<K>): FlowOut {
    match p
    case Udp(payload) => FlowOut(Datagram(payload), flow)
    case Tcp(_, at, payload, syn, fin) => FlowStep(flow, at, payload, syn, fin)
  }

  function Stepped<K>(step: Stepper<K>, flows: Flows<K>, p: Packet<K>): FlowOut {
    step(if p.Tcp? then FlowOf(flows, p.flow) else NewFlow, p)
  }

  function PacketOut<K>(step: Stepper<K>, flows: Flows<K>, p: Packet<K>): seq<Tagged<K>> {
    Tag(KeyOf(p), Stepped(step, flows, p).out)
  }

  function PacketStep<K>(step: Stepper<K>, flows: Flows<K>, p: Packet<K>): Flows<K> {
    if p.Tcp? then flows[p.flow := Stepped(step, flows, p).flow] else flows
  }

  /** The reader of a capture: a stream object and a buffer per flow. */
  class Assembler<!K(==)> {
    var streams: map<K, TcpStream>
    var buffers: map<K, seq<byte>>

    ghost predicate Valid()
      reads this
    {
      && streams.Keys == buffers.Keys
      && forall a, b :: a in streams && b in streams && streams[a] == streams[b] ==> a == b
    }

    ghost function State(): Flows<K>
      reads this, streams.Values
      requires Valid()
    {
      map k | k in streams :: Flow(streams[k].State(), buffers[k])
    }

    constructor ()
      ensures Valid() && State() == map[] && streams == map[]
    {
      streams, buffers := map[], map[];
    }

    /** The objects of the flow of a packet, made on its first packet. */
    method Open(k: K)
      requires Valid()
      modifies this
      ensures Valid() && k in streams
      ensures State() == old(State())[k := FlowOf(old(State()), k)]
      ensures forall j :: j in streams ==> fresh(streams[j]) || streams[j] in old(streams.Values)
    {
      if k !in streams {
        var stream := new TcpStream();
        assert forall j :: j in streams ==> streams[j] != stream;
        streams, buffers := streams[k := stream], buffers[k := []];
      }
    }

    /** One packet of a flow through its stream object and its buffer. */
    static method Feed(stream: TcpStream, before: seq<byte>, at: SeqNo, payload: seq<byte>, syn: bool, fin: bool)
        returns (frames: seq<Emission>, buf: seq<byte>)
      modifies stream
      ensures FlowOut(frames, Flow(stream.State(), buf))
              == FlowStep(Flow(old(stream.State()), before), at, payload, syn, fin)
    {
      if syn {
        stream.Synchronise(at);
      }
      var chunk := stream.AddSegment(at, payload);
      frames, buf := WalkStream(before + chunk);
      if fin {
        chunk := stream.Flush();
        var more;
        more, buf := WalkStream(buf + chunk);
        frames := frames + more;
      }
    }

    method ReadSegment(k: K, at: SeqNo, payload: seq<byte>, syn: bool, fin: bool) returns (frames: seq<Emission>)
      requires Valid() && k in streams
      modifies this`buffers, streams.Values
      ensures Valid() && streams == old(streams)
      ensures frames == FlowStep(old(State())[k], at, payload, syn, fin).out
      ensures State() == old(State())[k := FlowStep(old(State())[k], at, payload, syn, fin).flow]
    {
      assert streams[k] in streams.Values;
      var buf;
      frames, buf := Feed(streams[k], buffers[k], at, payload, syn, fin);
      buffers := buffers[k := buf];
    }

    method Read(p: Packet<K>) returns (out: seq<Tagged<K>>)
      requires Valid()
      modifies this, streams.Values
      ensures Valid()
      ensures State() == PacketStep(KnxStep<K>, old(State()), p)
      ensures out == PacketOut(KnxStep<K>, old(State()), p)
      ensures forall j :: j in streams ==> fresh(streams[j]) || streams[j] in old(streams.Values)
    {
      ghost var before := State();
      match p
      case Udp(payload) =>
        var frames := WalkDatagram(payload);
        out := Tag(None, frames);
      case Tcp(k, at, payload, syn, fin) =>
        Open(k);
        ghost var ready := State();
        assert ready[k] == FlowOf(before, k);
        var frames := ReadSegment(k, at, payload, syn, fin);
        ghost var flow := FlowStep(FlowOf(before, k), at, payload, syn, fin).flow;
        assert State() == before[k := FlowOf(before, k)][k := flow] == before[k := flow];
        out := Tag(Some(k), frames);
    }
  }

  // ----- flows do not disturb each other

  function Output<K>(step: Stepper<K>, flows: Flows<K>, ps: seq<Packet<K>>): seq<Tagged<K>>
    decreases |ps|
  {
    if ps == [] then []
    else PacketOut(step, flows, ps[0]) + Output(step, PacketStep(step, flows, ps[0]), ps[1..])
  }

  function Final<K>(step: Stepper<K>, flows: Flows<K>, ps: seq<Packet<K>>): Flows<K>
    decreases |ps|
  {
    if ps == [] then flows else Final(step, PacketStep(step, flows, ps[0]), ps[1..])
  }

  /** One more packet at the end. */
  lemma {:induction false} OutputLast<K>(step: Stepper<K>, flows: Flows<K>, ps: seq<Packet<K>>, p: Packet<K>)
    ensures Output(step, flows, ps + [p]) == Output(step, flows, ps) + PacketOut(step, Final(step, flows, ps), p)
    ensures Final(step, flows, ps + [p]) == PacketStep(step, Final(step, flows, ps), p)
    decreases |ps|
  {
    var all := ps + [p];
    if ps == [] {
      assert all == [p] && all[1..] == [];
    } else {
      OutputLast(step, PacketStep(step, flows, ps[0]), ps[1..], p);
      assert all[0] == ps[0] && all[1..] == ps[1..] + [p];
    }
  }

  /** The first i packets gave this output and these flows. */
  ghost predicate Reached<K>(step: Stepper<K>, ps: seq<Packet<K>>, i: nat, flows: Flows<K>, out: seq<Tagged<K>>) {
    i <= |ps| && out + Output(step, flows, ps[i..]) == Output(step, map[], ps)
  }

  lemma ReachedFirst<K>(step: Stepper<K>, ps: seq<Packet<K>>)
    ensures Reached(step, ps, 0, map[], [])
  {
    assert ps[0..] == ps;
  }

  lemma ReachedNext<K>(step: Stepper<K>, ps: seq<Packet<K>>, i: nat, flows: Flows<K>, out: seq<Tagged<K>>)
    requires i < |ps| && Reached(step, ps, i, flows, out)
    ensures Reached(step, ps, i + 1, PacketStep(step, flows, ps[i]), out + PacketOut(step, flows, ps[i]))
  {
    assert ps[i..][0] == ps[i] && ps[i..][1..] == ps[i + 1..];
  }

  lemma ReachedLast<K>(step: Stepper<K>, ps: seq<Packet<K>>, flows: Flows<K>, out: seq<Tagged<K>>)
    requires Reached(step, ps, |ps|, flows, out)
    ensures out == Output(step, map[], ps)
  {
    assert Output(step, flows, ps[|ps|..]) == [];
  }

  /** The loop over the packets of a capture. */
  method Frames<K(==)>(packets: seq<Packet<K>>) returns (out: seq<Tagged<K>>)
    ensures out == Output(KnxStep<K>, map[], packets)
  {
    var assembler := new Assembler<K>();
    out := [];
    ReachedFirst(KnxStep<K>, packets);
    for i := 0 to |packets|
      invariant fresh(assembler) && assembler.Valid()
      invariant forall j :: j in assembler.streams ==> fresh(assembler.streams[j])
      invariant Reached(KnxStep<K>, packets, i, assembler.State(), out)
    {
      ReachedNext(KnxStep<K>, packets, i, assembler.State(), out);
      var frames := assembler.Read(packets[i]);
      out := out + frames;
    }
    ReachedLast(KnxStep<K>, packets, assembler.State(), out);
  }

  predicate Carries<K(==)>(p: Packet<K>, flow: Option<K>) { KeyOf(p) == flow }

  function PacketsOf<K(==)>(ps: seq<Packet<K>>, flow: Option<K>): seq<Packet<K>> {
    if ps == [] then []
    else if Carries(ps[0], flow) then [ps[0]] + PacketsOf(ps[1..], flow)
    else PacketsOf(ps[1..], flow)
  }

  function OutputOf<K(==)>(out: seq<Tagged<K>>, flow: Option<K>): seq<Tagged<K>> {
    if out == [] then []
    else if out[0].flow == flow then [out[0]] + OutputOf(out[1..], flow)
    else OutputOf(out[1..], flow)
  }

  lemma {:induction false} OutputOfJoin<K>(a: seq<Tagged<K>>, b: seq<Tagged<K>>, flow: Option<K>)
    ensures OutputOf(a + b, flow) == OutputOf(a, flow) + OutputOf(b, flow)
  {
    if a == [] {
      assert a + b == b;
    } else {
      OutputOfJoin(a[1..], b, flow);
      assert (a + b)[1..] == a[1..] + b;
    }
  }

  lemma {:induction false} OutputOfTagged<K>(out: seq<Tagged<K>>, tag: Option<K>, flow: Option<K>)
    requires forall i :: 0 <= i < |out| ==> out[i].flow == tag
    ensures OutputOf(out, flow) == if tag == flow then out else []
  {
    if out != [] {
      OutputOfTagged(out[1..], tag, flow);
      assert out == [out[0]] + out[1..];
    }
  }

  predicate SameFlow<K>(flows: Flows<K>, alone: Flows<K>, flow: Option<K>) {
    flow.Some? ==> FlowOf(flows, flow.value) == FlowOf(alone, flow.value)
  }

  /** A packet of the flow does the same on its own; any other leaves the flow alone. */
  lemma StepIsolated<K>(step: Stepper<K>, flows: Flows<K>, alone: Flows<K>, p: Packet<K>, flow: Option<K>)
    requires SameFlow(flows, alone, flow)
    ensures OutputOf(PacketOut(step, flows, p), flow) == if Carries(p, flow) then PacketOut(step, alone, p) else []
    ensures SameFlow(PacketStep(step, flows, p), if Carries(p, flow) then PacketStep(step, alone, p) else alone, flow)
  {
    OutputOfTagged(PacketOut(step, flows, p), KeyOf(p), flow);
  }

  /** What a flow yields in a whole capture is what its own packets yield alone, whatever a packet does to its flow. */
  lemma {:induction false} FlowsIsolated<K>(step: Stepper<K>, flows: Flows<K>, alone: Flows<K>, ps: seq<Packet<K>>,
                                            flow: Option<K>)
    requires SameFlow(flows, alone, flow)
    ensures OutputOf(Output(step, flows, ps), flow) == Output(step, alone, PacketsOf(ps, flow))
    decreases |ps|
  {
    if ps != [] {
      var p, rest := ps[0], ps[1..];
      var next := PacketStep(step, flows, p);
      StepIsolated(step, flows, alone, p, flow);
      OutputOfJoin(PacketOut(step, flows, p), Output(step, next, rest), flow);
      if Carries(p, flow) {
        var mine := PacketsOf(ps, flow);
        assert mine[0] == p && mine[1..] == PacketsOf(rest, flow);
        FlowsIsolated(step, next, PacketStep(step, alone, p), rest, flow);
      } else {
        FlowsIsolated(step, next, alone, rest, flow);
      }
    }
  }

  // ----- one flow carrying a stream of frames

  /** A packet of the stream: a stretch of it, or an empty segment. */
  datatype Segment = Segment(from: nat, end: nat)

  predicate Within(stream: seq<byte>, s: Segment) { s.from <= s.end <= |stream| }

  predicate AllWithin(stream: seq<byte>, ss: seq<Segment>) {
    forall x :: 0 <= x < |ss| ==> Within(stream, ss[x])
  }

  function Arrive(base: SeqNo, stream: seq<byte>, flow: Flow, s: Segment): FlowOut
    requires Within(stream, s)
  {
    FlowStep(flow, Advance(base, s.from), stream[s.from..s.end], false, false)
  }

  function FlowAfter(base: SeqNo, stream: seq<byte>, flow: Flow, ss: seq<Segment>): Flow
    requires AllWithin(stream, ss)
    decreases |ss|
  {
    if ss == [] then flow
    else Arrive(base, stream, FlowAfter(base, stream, flow, ss[..|ss| - 1]), ss[|ss| - 1]).flow
  }

  function EmittedBy(base: SeqNo, stream: seq<byte>, flow: Flow, ss: seq<Segment>): seq<Emission>
    requires AllWithin(stream, ss)
    decreases |ss|
  {
    if ss == [] then []
    else EmittedBy(base, stream, flow, ss[..|ss| - 1])
         + Arrive(base, stream, FlowAfter(base, stream, flow, ss[..|ss| - 1]), ss[|ss| - 1]).out
  }

  /** The flow after the start of the stream is known: its SYN was seen. */
  function Started(base: SeqNo): Flow { Flow(Reassembly(Some(base), map[]), []) }

  predicate Tracks(base: SeqNo, frames: seq<seq<byte>>, flow: Flow, n: nat) {
    DeliveredTo(Stream(frames), base, flow.stream, n) && flow.buf == Kept(frames, n)
  }

  lemma ArriveTracks(base: SeqNo, frames: seq<seq<byte>>, flow: Flow, n: nat, s: Segment) returns (n': nat)
    requires AllWellFormed(frames) && Short(Stream(frames))
    requires Within(Stream(frames), s) && Tracks(base, frames, flow, n)
    ensures n <= n' <= |Stream(frames)| && Whole(frames, n) <= Whole(frames, n')
    ensures Tracks(base, frames, Arrive(base, Stream(frames), flow, s).flow, n')
    ensures Arrive(base, Stream(frames), flow, s).out == FramesBetween(frames, Whole(frames, n), Whole(frames, n'))
  {
    var d := Add(flow.stream, Advance(base, s.from), Stream(frames)[s.from..s.end]);
    AddDelivers(Stream(frames), base, flow.stream, n, s.from, s.end);
    n' := n + |d.out|;
    WalkMore(frames, n, n');
  }

  lemma BetweenJoins(frames: seq<seq<byte>>, i: nat, j: nat, k: nat)
    requires i <= j <= k <= |frames|
    ensures FramesBetween(frames, i, j) + FramesBetween(frames, j, k) == FramesBetween(frames, i, k)
  {
  }

  lemma {:induction false} RunTracks(base: SeqNo, frames: seq<seq<byte>>, flow: Flow, m: nat, ss: seq<Segment>)
    returns (n: nat)
    requires AllWellFormed(frames) && Short(Stream(frames)) && Tracks(base, frames, flow, m)
    requires AllWithin(Stream(frames), ss)
    ensures m <= n <= |Stream(frames)| && Whole(frames, m) <= Whole(frames, n)
    ensures Tracks(base, frames, FlowAfter(base, Stream(frames), flow, ss), n)
    ensures EmittedBy(base, Stream(frames), flow, ss) == FramesBetween(frames, Whole(frames, m), Whole(frames, n))
    decreases |ss|
  {
    n := m;
    if ss != [] {
      var k := RunTracks(base, frames, flow, m, ss[..|ss| - 1]);
      n := ArriveTracks(base, frames, FlowAfter(base, Stream(frames), flow, ss[..|ss| - 1]), k, ss[|ss| - 1]);
      BetweenJoins(frames, Whole(frames, m), Whole(frames, k), Whole(frames, n));
    }
  }

  lemma StartedTracks(base: SeqNo, frames: seq<seq<byte>>)
    ensures Tracks(base, frames, Started(base), 0)
  {
    assert Whole(frames, 0) == 0 || frames[0] == [];
    BeginReaches(frames, 0, 0);
    assert Kept(frames, 0) == [];
  }

  /** How many octets of the stream a flow has delivered. */
  function OctetsDelivered(base: SeqNo, flow: Flow): nat {
    if flow.stream.next.Some? then Position(base, flow.stream.next.value) else 0
  }

  lemma TracksDelivered(base: SeqNo, frames: seq<seq<byte>>, flow: Flow, n: nat)
    requires Short(Stream(frames)) && Tracks(base, frames, flow, n)
    ensures OctetsDelivered(base, flow) == n
  {
    PositionOf(base, n);
  }

  /** Any arrival order, with duplicates and overlaps, emits exactly a prefix of
      the frames: those complete in the octets delivered so far. */
  lemma EmitsPrefix(base: SeqNo, frames: seq<seq<byte>>, ss: seq<Segment>)
    requires AllWellFormed(frames) && Short(Stream(frames))
    requires AllWithin(Stream(frames), ss)
    ensures
      var flow := FlowAfter(base, Stream(frames), Started(base), ss);
      var n := OctetsDelivered(base, flow);
      && Tracks(base, frames, flow, n)
      && EmittedBy(base, Stream(frames), Started(base), ss) == FramesBetween(frames, 0, Whole(frames, n))
  {
    StartedTracks(base, frames);
    var n := RunTracks(base, frames, Started(base), 0, ss);
    TracksDelivered(base, frames, FlowAfter(base, Stream(frames), Started(base), ss), n);
    if frames != [] {
      assert WellFormed(frames[0]);
    }
  }

  // ----- how the start becomes known, and the end

  /** A SYN without data starts the flow after it, and the same SYN again changes nothing. */
  lemma SynStarts(isn: SeqNo)
    ensures FlowStep(NewFlow, isn, [], true, false) == FlowOut([], Started(Advance(isn, 1)))
    ensures FlowStep(Started(Advance(isn, 1)), isn, [], true, false) == FlowOut([], Started(Advance(isn, 1)))
  {
  }

  /** So does the first segment, when it comes before any other. */
  lemma FirstSegment(base: SeqNo, stream: seq<byte>, s: Segment)
    requires Within(stream, s) && s.from == 0 < s.end
    ensures Arrive(base, stream, NewFlow, s) == Arrive(base, stream, Started(base), s)
  {
  }

  /** Data on the SYN itself stands for the octets after it (section 3.4 of RFC
      9293), but its first octet is taken for the SYN: the data comes out whole
      exactly when there is none. */
  lemma SynWithData(isn: SeqNo, payload: seq<byte>)
    requires |payload| < SEQ_HALF
    ensures Add(Synchronised(Reassembly(None, map[]), isn, true), isn, payload).out
            == if payload == [] then [] else payload[1..]
    ensures Add(Synchronised(Reassembly(None, map[]), isn, true), isn, payload).out == payload <==> payload == []
  {
    var next := Advance(isn, 1);
    SeqLtIsLess(isn, 0, 1);
    if |payload| > 1 {
      var held: Pending := map[][next := payload[1..]];
      assert Add(Synchronised(Reassembly(None, map[]), isn, true), isn, payload) == Drain(next, held);
      assert held - {next} == map[];
      assert payload[1..] + [] == payload[1..];
    }
  }

  lemma RestWaits(buf: seq<byte>)
    ensures Walk(Walk(buf).rest) == Walked([], Walk(buf).rest)
    decreases |buf|
  {
    var c := NextCut(buf);
    if c.Take? {
      RestWaits(buf[c.n..]);
    }
  }

  /** A FIN flushes a gap; when nothing is held it changes nothing. */
  lemma FinHarmless(flow: Flow, at: SeqNo, payload: seq<byte>, syn: bool)
    requires Add(Synchronised(flow.stream, at, syn), at, payload).state.pending == map[]
    ensures FlowStep(flow, at, payload, syn, true) == FlowStep(flow, at, payload, syn, false)
  {
    var first := FlowStep(flow, at, payload, syn, false);
    assert first.flow.buf + [] == first.flow.buf;
    RestWaits(flow.buf + Add(Synchronised(flow.stream, at, syn), at, payload).out);
    assert first.out + [] == first.out;
  }

  // ----- everything arrived

  /** The segment of part i; the index after the last part stands for the empty segment at the end of the stream. */
  function PartAt(parts: seq<seq<byte>>, i: nat): Segment
    requires i <= |parts|
  {
    Segment(Begin(parts, i), if i < |parts| then Begin(parts, i + 1) else Begin(parts, i))
  }

  predicate PartIndices(parts: seq<seq<byte>>, order: seq<nat>) {
    forall x :: 0 <= x < |order| ==> order[x] <= |parts|
  }

  lemma PartWithin(parts: seq<seq<byte>>, i: nat)
    requires i <= |parts|
    ensures Within(Stream(parts), PartAt(parts, i))
  {
    if i < |parts| {
      PartIs(parts, i);
    } else {
      StreamSplits(parts, i);
    }
  }

  function PartsAt(parts: seq<seq<byte>>, order: seq<nat>): (ss: seq<Segment>)
    requires PartIndices(parts, order)
    ensures AllWithin(Stream(parts), ss)
  {
    assert forall x :: 0 <= x < |order| ==> Within(Stream(parts), PartAt(parts, order[x])) by {
      forall x | 0 <= x < |order|
        ensures Within(Stream(parts), PartAt(parts, order[x]))
      {
        PartWithin(parts, order[x]);
      }
    }
    seq(|order|, x requires 0 <= x < |order| => PartAt(parts, order[x]))
  }

  function Arrived(order: seq<nat>): set<nat> { set i | i in order }

  lemma {:induction false} RunAligned(base: SeqNo, parts: seq<seq<byte>>, order: seq<nat>) returns (j: nat)
    requires Sent(parts) && PartIndices(parts, order)
    ensures
      var r := FlowAfter(base, Stream(parts), Started(base), PartsAt(parts, order)).stream;
      Aligned(base, parts, Arrived(order), r, j) && r.next.value !in r.pending
    decreases |order|
  {
    if order == [] {
      j := 0;
    } else {
      var front, i := order[..|order| - 1], order[|order| - 1];
      var ss := PartsAt(parts, order);
      assert ss[..|ss| - 1] == PartsAt(parts, front);
      j := RunAligned(base, parts, front);
      var flow := FlowAfter(base, Stream(parts), Started(base), PartsAt(parts, front));
      assert order == front + [i];
      assert Arrived(order) == Arrived(front) + {i};
      if i < |parts| {
        PartIs(parts, i);
        NotHeld(flow.stream, SeqOf(base, parts, i), parts[i]);
        j := AddAligned(base, parts, Arrived(front), flow.stream, j, i);
      }
    }
  }

  lemma NotHeld(r: Reassembly, at: SeqNo, data: seq<byte>)
    requires r.next.Some? && r.next.value !in r.pending
    ensures
      var r' := Add(r, at, data).state;
      r'.next.Some? && r'.next.value !in r'.pending
  {
  }

  lemma WholeStream(base: SeqNo, frames: seq<seq<byte>>, flow: Flow, n: nat)
    requires Short(Stream(frames)) && Tracks(base, frames, flow, n)
    requires flow.stream.next == Some(Advance(base, |Stream(frames)|))
    ensures n == |Stream(frames)| && Whole(frames, n) == |frames| && flow.buf == []
  {
    PositionOf(base, n);
    PositionOf(base, |Stream(frames)|);
    ReachesAll(frames, 0);
    KeptIs(frames, n);
    StreamSplits(frames, |frames|);
  }

  /** When the sender keeps its segment boundaries and every segment arrived,
      in whatever order and however often, every frame is emitted and nothing
      is left. */
  lemma AllFramesEmitted(base: SeqNo, frames: seq<seq<byte>>, parts: seq<seq<byte>>, order: seq<nat>)
    requires AllWellFormed(frames) && Sent(parts) && Stream(parts) == Stream(frames)
    requires PartIndices(parts, order) && (forall i: nat :: i < |parts| ==> i in order)
    ensures EmittedBy(base, Stream(frames), Started(base), PartsAt(parts, order)) == FramesBetween(frames, 0, |frames|)
    ensures FlowAfter(base, Stream(frames), Started(base), PartsAt(parts, order))
            == Flow(Reassembly(Some(Advance(base, |Stream(frames)|)), map[]), [])
  {
    var ss := PartsAt(parts, order);
    var flow := FlowAfter(base, Stream(frames), Started(base), ss);
    var j := RunAligned(base, parts, order);
    AllArrived(base, parts, Arrived(order), flow.stream, j);
    EmitsPrefix(base, frames, ss);
    WholeStream(base, frames, flow, OctetsDelivered(base, flow));
  }

  lemma {:induction false} ReachesAll(frames: seq<seq<byte>>, i: nat)
    requires i <= |frames|
    ensures Reaches(frames, i, |StreamFrom(frames, i)|) == |frames|
    decreases |frames| - i
  {
    if i < |frames| {
      ReachesAll(frames, i + 1);
    }
  }

  // ----- a whole capture with other flows in between

  function SegmentPacket<K>(k: K, base: SeqNo, stream: seq<byte>, s: Segment, fin: bool): Packet<K>
    requires Within(stream, s)
  {
    Tcp(k, Advance(base, s.from), stream[s.from..s.end], false, fin)
  }

  function SegmentPackets<K>(k: K, base: SeqNo, stream: seq<byte>, ss: seq<Segment>,
                             fins: seq<bool>): (ps: seq<Packet<K>>)
    requires AllWithin(stream, ss) && |fins| == |ss|
    ensures |ps| == |ss|
  {
    seq(|ss|, x requires 0 <= x < |ss| => SegmentPacket(k, base, stream, ss[x], fins[x]))
  }

  lemma TagJoins<K>(flow: Option<K>, a: seq<Emission>, b: seq<Emission>)
    ensures Tag(flow, a + b) == Tag(flow, a) + Tag(flow, b)
  {
  }

  /** One flow's packets, one after the other. */
  function RunOf<K>(step: Stepper<K>, flow: Flow, ps: seq<Packet<K>>): FlowOut
    decreases |ps|
  {
    if ps == [] then FlowOut([], flow)
    else
      var before := RunOf(step, flow, ps[..|ps| - 1]);
      var last := step(before.flow, ps[|ps| - 1]);
      FlowOut(before.out + last.out, last.flow)
  }

  predicate AllOf<K(==)>(k: K, ps: seq<Packet<K>>) { forall x :: 0 <= x < |ps| ==> KeyOf(ps[x]) == Some(k) }

  lemma {:induction false} OutputIsRun<K>(step: Stepper<K>, k: K, flows: Flows<K>, ps: seq<Packet<K>>)
    requires AllOf(k, ps)
    ensures Output(step, flows, ps) == Tag(Some(k), RunOf(step, FlowOf(flows, k), ps).out)
    ensures FlowOf(Final(step, flows, ps), k) == RunOf(step, FlowOf(flows, k), ps).flow
    decreases |ps|
  {
    if ps != [] {
      var front, p := ps[..|ps| - 1], ps[|ps| - 1];
      OutputIsRun(step, k, flows, front);
      assert ps == front + [p];
      OutputLast(step, flows, front, p);
      var before := RunOf(step, FlowOf(flows, k), front);
      TagJoins(Some(k), before.out, step(before.flow, p).out);
    }
  }

  /** A segment with a FIN arrives like one without when nothing is held after it. */
  lemma PacketArrives<K>(k: K, base: SeqNo, stream: seq<byte>, flow: Flow, s: Segment, fin: bool)
    requires Within(stream, s) && (fin ==> Arrive(base, stream, flow, s).flow.stream.pending == map[])
    ensures KnxStep(flow, SegmentPacket(k, base, stream, s, fin)) == Arrive(base, stream, flow, s)
  {
    if fin {
      FinHarmless(flow, Advance(base, s.from), stream[s.from..s.end], false);
    }
  }

  /** Whenever a FIN arrives, nothing is held. */
  ghost predicate FinsQuiet(base: SeqNo, stream: seq<byte>, flow: Flow, ss: seq<Segment>, fins: seq<bool>)
    requires AllWithin(stream, ss) && |fins| == |ss|
  {
    forall x :: 0 <= x < |ss| ==> QuietAt(base, stream, flow, ss, fins, x)
  }

  ghost predicate QuietAt(base: SeqNo, stream: seq<byte>, flow: Flow, ss: seq<Segment>, fins: seq<bool>, x: nat)
    requires AllWithin(stream, ss) && x < |fins| == |ss|
  {
    fins[x] ==> NothingHeld(base, stream, flow, ss[..x + 1])
  }

  ghost predicate NothingHeld(base: SeqNo, stream: seq<byte>, flow: Flow, ss: seq<Segment>)
    requires AllWithin(stream, ss)
  {
    FlowAfter(base, stream, flow, ss).stream.pending == map[]
  }

  lemma FinsBefore(base: SeqNo, stream: seq<byte>, flow: Flow, ss: seq<Segment>, fins: seq<bool>)
    requires AllWithin(stream, ss) && |fins| == |ss| && ss != [] && FinsQuiet(base, stream, flow, ss, fins)
    ensures FinsQuiet(base, stream, flow, ss[..|ss| - 1], fins[..|ss| - 1])
    ensures fins[|ss| - 1] ==> NothingHeld(base, stream, flow, ss)
  {
    var front, flags := ss[..|ss| - 1], fins[..|ss| - 1];
    forall x | 0 <= x < |front|
      ensures QuietAt(base, stream, flow, front, flags, x)
    {
      assert QuietAt(base, stream, flow, ss, fins, x);
      assert front[..x + 1] == ss[..x + 1];
    }
    assert QuietAt(base, stream, flow, ss, fins, |ss| - 1);
    assert ss[..|ss|] == ss;
  }

  lemma {:induction false} RunIsEmitted<K>(k: K, base: SeqNo, stream: seq<byte>, flow: Flow, ss: seq<Segment>,
                                           fins: seq<bool>)
    requires AllWithin(stream, ss) && |fins| == |ss| && FinsQuiet(base, stream, flow, ss, fins)
    ensures RunOf(KnxStep<K>, flow, SegmentPackets(k, base, stream, ss, fins))
            == FlowOut(EmittedBy(base, stream, flow, ss), FlowAfter(base, stream, flow, ss))
    decreases |ss|
  {
    if ss != [] {
      var front := ss[..|ss| - 1];
      FinsBefore(base, stream, flow, ss, fins);
      RunIsEmitted(k, base, stream, flow, front, fins[..|ss| - 1]);
      var packets := SegmentPackets(k, base, stream, ss, fins);
      assert packets[..|ss| - 1] == SegmentPackets(k, base, stream, front, fins[..|ss| - 1]);
      PacketArrives(k, base, stream, FlowAfter(base, stream, flow, front), ss[|ss| - 1], fins[|ss| - 1]);
    }
  }

  function Syns<K>(k: K, isn: SeqNo, m: nat): seq<Packet<K>> {
    if m == 0 then [] else [Tcp(k, isn, [], true, false)] + Syns(k, isn, m - 1)
  }

  /** The packets of flow k in a capture are segments of a stream, in any order, and its start is known: its SYN came
      first, once or more often, or the first segment before any other. A segment may carry a FIN when nothing is held
      after it. */
  ghost predicate Carried<K>(ps: seq<Packet<K>>, k: K, isn: SeqNo, syns: nat, base: SeqNo, stream: seq<byte>,
                             ss: seq<Segment>, fins: seq<bool>) {
    && AllWithin(stream, ss) && |fins| == |ss|
    && (if syns > 0 then base == Advance(isn, 1) else |ss| > 0 && ss[0].from == 0 < ss[0].end)
    && PacketsOf(ps, Some(k)) == Syns(k, isn, syns) + SegmentPackets(k, base, stream, ss, fins)
    && FinsQuiet(base, stream, Started(base), ss, fins)
  }

  lemma {:induction false} SynsFirst<K>(k: K, isn: SeqNo, m: nat, before: Flows<K>, rest: seq<Packet<K>>)
    returns (flows: Flows<K>)
    requires FlowOf(before, k) == NewFlow || FlowOf(before, k) == Started(Advance(isn, 1))
    ensures Output(KnxStep<K>, before, Syns(k, isn, m) + rest) == Output(KnxStep<K>, flows, rest)
    ensures if m > 0 then FlowOf(flows, k) == Started(Advance(isn, 1)) else flows == before
    decreases m
  {
    flows := before;
    if m == 0 {
      assert Syns(k, isn, m) + rest == rest;
    } else {
      var syn: Packet<K> := Tcp(k, isn, [], true, false);
      var more := Syns(k, isn, m - 1) + rest;
      SynStarts(isn);
      var next := PacketStep(KnxStep<K>, before, syn);
      assert PacketOut(KnxStep<K>, before, syn) == [];
      assert Syns(k, isn, m) + rest == [syn] + more;
      assert ([syn] + more)[0] == syn && ([syn] + more)[1..] == more;
      var last := SynsFirst(k, isn, m - 1, next, rest);
      flows := last;
    }
  }

  lemma {:induction false} FirstSegmentFirst(base: SeqNo, stream: seq<byte>, ss: seq<Segment>)
    requires AllWithin(stream, ss) && |ss| > 0 && ss[0].from == 0 < ss[0].end
    ensures EmittedBy(base, stream, NewFlow, ss) == EmittedBy(base, stream, Started(base), ss)
    ensures FlowAfter(base, stream, NewFlow, ss) == FlowAfter(base, stream, Started(base), ss)
    decreases |ss|
  {
    var front := ss[..|ss| - 1];
    if front == [] {
      FirstSegment(base, stream, ss[0]);
    } else {
      FirstSegmentFirst(base, stream, front);
    }
  }

  lemma FinsQuietFirst(base: SeqNo, stream: seq<byte>, ss: seq<Segment>, fins: seq<bool>)
    requires AllWithin(stream, ss) && |fins| == |ss| > 0 && ss[0].from == 0 < ss[0].end
    requires FinsQuiet(base, stream, Started(base), ss, fins)
    ensures FinsQuiet(base, stream, NewFlow, ss, fins)
  {
    forall x | 0 <= x < |ss|
      ensures QuietAt(base, stream, NewFlow, ss, fins, x)
    {
      FirstSegmentFirst(base, stream, ss[..x + 1]);
      assert QuietAt(base, stream, Started(base), ss, fins, x);
    }
  }

  /** What a capture yields for the flow is what its segments yield on a flow whose start is known. */
  lemma CaptureIsRun<K>(ps: seq<Packet<K>>, k: K, isn: SeqNo, syns: nat, base: SeqNo, stream: seq<byte>,
                        ss: seq<Segment>, fins: seq<bool>)
    requires Carried(ps, k, isn, syns, base, stream, ss, fins)
    ensures OutputOf(Output(KnxStep<K>, map[], ps), Some(k)) == Tag(Some(k), EmittedBy(base, stream, Started(base), ss))
  {
    var segments := SegmentPackets(k, base, stream, ss, fins);
    FlowsIsolated(KnxStep<K>, map[], map[], ps, Some(k));
    var flows := SynsFirst(k, isn, syns, map[], segments);
    if syns == 0 {
      FirstSegmentFirst(base, stream, ss);
      FinsQuietFirst(base, stream, ss, fins);
    }
    OutputIsRun(KnxStep<K>, k, flows, segments);
    RunIsEmitted(k, base, stream, FlowOf(flows, k), ss, fins);
  }

  /** From capture to frames: whatever order the segments arrive in, with duplicates, overlaps and other flows in
      between, the capture yields for the flow exactly a prefix of the frames that were sent. */
  lemma CaptureEmitsPrefix<K>(ps: seq<Packet<K>>, k: K, isn: SeqNo, syns: nat, base: SeqNo, frames: seq<seq<byte>>,
                              ss: seq<Segment>, fins: seq<bool>)
    requires AllWellFormed(frames) && Short(Stream(frames)) && Carried(ps, k, isn, syns, base, Stream(frames), ss, fins)
    ensures
      var n := OctetsDelivered(base, FlowAfter(base, Stream(frames), Started(base), ss));
      OutputOf(Output(KnxStep<K>, map[], ps), Some(k)) == Tag(Some(k), FramesBetween(frames, 0, Whole(frames, n)))
  {
    CaptureIsRun(ps, k, isn, syns, base, Stream(frames), ss, fins);
    EmitsPrefix(base, frames, ss);
  }

  /** With fixed boundaries and every segment arrived, the capture yields every frame of the flow. */
  lemma CaptureEmitsAll<K>(ps: seq<Packet<K>>, k: K, isn: SeqNo, syns: nat, base: SeqNo, frames: seq<seq<byte>>,
                           parts: seq<seq<byte>>, order: seq<nat>, fins: seq<bool>)
    requires AllWellFormed(frames) && Sent(parts) && Stream(parts) == Stream(frames)
    requires PartIndices(parts, order) && (forall i: nat :: i < |parts| ==> i in order)
    requires Carried(ps, k, isn, syns, base, Stream(frames), PartsAt(parts, order), fins)
    ensures OutputOf(Output(KnxStep<K>, map[], ps), Some(k)) == Tag(Some(k), FramesBetween(frames, 0, |frames|))
  {
    CaptureIsRun(ps, k, isn, syns, base, Stream(frames), PartsAt(parts, order), fins);
    AllFramesEmitted(base, frames, parts, order);
  }
}
