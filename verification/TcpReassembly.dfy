/** Reassembly of one direction of one TCP flow into a byte stream.
    Sequence numbers are 32 bits wide and wrap (section 3.4 of RFC 9293). */
module TcpReassembly {
  import opened Wrappers

  type byte = x: int | 0 <= x < 256

  const SEQ_SPACE: nat := 0x1_0000_0000
  const SEQ_HALF: nat := 0x8000_0000
  type SeqNo = x: int | 0 <= x < SEQ_SPACE

  /** The segments held back for a gap, by sequence number. */
  type Pending = map<SeqNo, seq<byte>>

  function Advance(a: SeqNo, n: int): SeqNo { (a + n) % SEQ_SPACE }

  /** How far `b` is past `a`. */
  function Distance(a: SeqNo, b: SeqNo): SeqNo { (b - a) % SEQ_SPACE }

  predicate SeqLt(a: SeqNo, b: SeqNo) {
    a != b && Distance(a, b) < SEQ_HALF
  }

  datatype Reassembly = Reassembly(next: Option<SeqNo>, pending: Pending)
  datatype Delivery = Delivery(out: seq<byte>, state: Reassembly)

  /** Every held segment that follows on, delivered in order. */
  function Drain(next: SeqNo, pending: Pending): (r: Delivery)
    ensures r.state.next.Some? && r.state.next.value !in r.state.pending
    ensures forall k :: k in r.state.pending ==> k in pending && r.state.pending[k] == pending[k]
    decreases |pending|
  {
    if next !in pending then
      Delivery([], Reassembly(Some(next), pending))
    else
      var rest := Drain(Advance(next, |pending[next]|), pending - {next});
      Delivery(pending[next] + rest.out, rest.state)
  }

  lemma DrainNext(next: SeqNo, pending: Pending, out: seq<byte>)
    requires next in pending
    ensures
      var rest := Drain(Advance(next, |pending[next]|), pending - {next});
      && out + Drain(next, pending).out == (out + pending[next]) + rest.out
      && Drain(next, pending).state == rest.state
  {
  }

  function Add(r: Reassembly, at: SeqNo, data: seq<byte>): Delivery {
    if data == [] then
      Delivery([], r)
    else
      var next := if r.next.Some? then r.next.value else at;
      if SeqLt(at, next) then
        var skip := Distance(at, next);
        if skip >= |data| then Delivery([], Reassembly(Some(next), r.pending))
        else Drain(next, r.pending[next := data[skip..]])
      else
        Drain(next, r.pending[at := data])
  }

  function Least(s: set<int>): (m: int)
    requires s != {}
    ensures m in s && forall x :: x in s ==> m <= x
  {
    LeastExists(s);
    var m :| m in s && forall x :: x in s ==> m <= x;
    m
  }

  lemma {:induction false} LeastExists(s: set<int>)
    requires s != {}
    ensures exists m :: m in s && forall x :: x in s ==> m <= x
    decreases |s|
  {
    if forall x :: x !in s {
      assert false;
    }
    var m :| m in s;
    var rest := s - {m};
    if rest != {} {
      LeastExists(rest);
      var n :| n in rest && forall x :: x in rest ==> n <= x;
      var least := if m <= n then m else n;
      forall x | x in s
        ensures least <= x
      {
        assert x == m || x in rest;
      }
    } else {
      assert s == {m};
    }
  }

  /** Gives up on a missing segment and resynchronises at the lowest held one. */
  function FlushGap(r: Reassembly): Delivery {
    if r.pending == map[] then
      Delivery([], r)
    else
      var first := Least(r.pending.Keys);
      Add(Reassembly(Some(first), r.pending - {first}), first, r.pending[first])
  }

  class TcpStream {
    var next: Option<SeqNo>
    var pending: Pending

    function State(): Reassembly
      reads this
    {
      Reassembly(next, pending)
    }

    constructor ()
      ensures State() == Reassembly(None, map[])
    {
      next, pending := None, map[];
    }

    method Synchronise(at: SeqNo)
      modifies this
      ensures State() == Reassembly(Some(Advance(at, 1)), old(pending))
    {
      next := Some(Advance(at, 1));
    }

    method AddSegment(at: SeqNo, data: seq<byte>) returns (out: seq<byte>)
      modifies this
      ensures Delivery(out, State()) == Add(old(State()), at, data)
    {
      out := [];
      if data == [] {
        return;
      }
      if next.None? {
        next := Some(at);
      }
      var place, rest := at, data;
      if SeqLt(at, next.value) {
        var skip := Distance(at, next.value);
        if skip >= |data| {
          return;
        }
        place, rest := next.value, data[skip..];
      }
      pending := pending[place := rest];
      out := DeliverHeld();
    }

    /** The delivery loop of `AddSegment`. */
    method DeliverHeld() returns (out: seq<byte>)
      requires next.Some?
      modifies this
      ensures Delivery(out, State()) == Drain(old(next.value), old(pending))
    {
      out := [];
      while next.value in pending
        invariant next.Some?
        invariant Drain(old(next.value), old(pending))
                  == Delivery(out + Drain(next.value, pending).out, Drain(next.value, pending).state)
        decreases |pending|
      {
        var segment := pending[next.value];
        DrainNext(next.value, pending, out);
        pending := pending - {next.value};
        out := out + segment;
        next := Some(Advance(next.value, |segment|));
      }
    }

    method Flush() returns (out: seq<byte>)
      modifies this
      ensures Delivery(out, State()) == FlushGap(old(State()))
    {
      if pending == map[] {
        return [];
      }
      var first := Least(pending.Keys);
      var segment := pending[first];
      next := Some(first);
      pending := pending - {first};
      out := AddSegment(first, segment);
    }
  }

  // ----- a stream shorter than half the sequence space

  predicate Short(stream: seq<byte>) { |stream| < SEQ_HALF }

  /** The stream position a sequence number stands for. */
  function Position(base: SeqNo, k: SeqNo): SeqNo { Distance(base, k) }

  /** The data is the stretch of the stream that begins at position o. */
  predicate StretchAt(stream: seq<byte>, o: nat, data: seq<byte>) {
    data != [] && o + |data| <= |stream| && data == stream[o..o + |data|]
  }

  /** Every held segment is a stretch of the stream at its position. */
  predicate Faithful(stream: seq<byte>, base: SeqNo, pending: Pending) {
    forall k :: k in pending ==> StretchAt(stream, Position(base, k), pending[k])
  }

  /** Exactly the first n octets were delivered. */
  predicate DeliveredTo(stream: seq<byte>, base: SeqNo, r: Reassembly, n: nat) {
    && n <= |stream|
    && r.next == Some(Advance(base, n))
    && Faithful(stream, base, r.pending)
  }

  lemma PositionOf(base: SeqNo, o: nat)
    requires o < SEQ_SPACE
    ensures Position(base, Advance(base, o)) == o
  {
  }

  lemma SeqLtIsLess(base: SeqNo, a: nat, b: nat)
    requires a < SEQ_HALF && b < SEQ_HALF
    ensures SeqLt(Advance(base, a), Advance(base, b)) <==> a < b
    ensures a < b ==> Distance(Advance(base, a), Advance(base, b)) == b - a
  {
  }

  /** Of two different numbers exactly one is before the other, unless they are half the space
      apart: then neither is. */
  lemma SeqLtOrders(a: SeqNo, b: SeqNo)
    requires a != b
    ensures SeqLt(a, b) && SeqLt(b, a) <==> false
    ensures !SeqLt(a, b) && !SeqLt(b, a) <==> a + SEQ_HALF == b || b + SEQ_HALF == a
  {
  }

  lemma AdvanceTwice(base: SeqNo, a: nat, b: nat)
    ensures Advance(Advance(base, a), b) == Advance(base, a + b)
  {
  }

  /** The held segment that follows on is the next stretch of the stream. */
  lemma HeldIsNext(stream: seq<byte>, base: SeqNo, n: nat, pending: Pending)
    requires Short(stream) && n <= |stream| && Faithful(stream, base, pending) && Advance(base, n) in pending
    ensures
      var segment := pending[Advance(base, n)];
      var m := n + |segment|;
      m <= |stream| && segment == stream[n..m] && Advance(Advance(base, n), |segment|) == Advance(base, m)
  {
    PositionOf(base, n);
    AdvanceTwice(base, n, |pending[Advance(base, n)]|);
  }

  /** The octets from n on come out, and the next expected one follows them. */
  predicate Continues(stream: seq<byte>, base: SeqNo, n: nat, d: Delivery) {
    && n + |d.out| <= |stream|
    && d.out == stream[n..n + |d.out|]
    && d.state.next == Some(Advance(base, n + |d.out|))
  }

  lemma ContinuesAfter(stream: seq<byte>, base: SeqNo, n: nat, m: nat, rest: Delivery)
    requires n <= m <= |stream| && Continues(stream, base, m, rest)
    ensures Continues(stream, base, n, Delivery(stream[n..m] + rest.out, rest.state))
  {
    assert stream[n..m] + stream[m..m + |rest.out|] == stream[n..m + |rest.out|];
  }

  lemma {:induction false} DrainDelivers(stream: seq<byte>, base: SeqNo, n: nat, pending: Pending)
    requires Short(stream) && n <= |stream| && Faithful(stream, base, pending)
    ensures Continues(stream, base, n, Drain(Advance(base, n), pending))
    decreases |pending|
  {
    var next := Advance(base, n);
    if next in pending {
      HeldIsNext(stream, base, n, pending);
      var m, held := n + |pending[next]|, pending - {next};
      DrainDelivers(stream, base, m, held);
      ContinuesAfter(stream, base, n, m, Drain(Advance(base, m), held));
    }
  }

  lemma PutFaithful(stream: seq<byte>, base: SeqNo, pending: Pending, o: nat, end: nat)
    requires Short(stream) && Faithful(stream, base, pending) && o < end <= |stream|
    ensures Faithful(stream, base, pending[Advance(base, o) := stream[o..end]])
  {
    PositionOf(base, o);
  }

  /** What `Add` does to a stretch of the stream, in stream positions. */
  lemma AddIs(stream: seq<byte>, base: SeqNo, r: Reassembly, n: nat, o: nat, end: nat)
    requires Short(stream) && DeliveredTo(stream, base, r, n) && o < end <= |stream|
    ensures n <= o ==>
      Add(r, Advance(base, o), stream[o..end]) == Drain(Advance(base, n), r.pending[Advance(base, o) := stream[o..end]])
    ensures o < n < end ==>
      Add(r, Advance(base, o), stream[o..end]) == Drain(Advance(base, n), r.pending[Advance(base, n) := stream[n..end]])
    ensures o < n && end <= n ==> Add(r, Advance(base, o), stream[o..end]) == Delivery([], r)
  {
    SeqLtIsLess(base, o, n);
    if o < n < end {
      assert stream[o..end][n - o..] == stream[n..end];
    }
  }

  /** Safety: whatever stretch of the stream arrives, in whatever order, the
      octets given out are the next ones of the stream. */
  lemma AddDelivers(stream: seq<byte>, base: SeqNo, r: Reassembly, n: nat, o: nat, end: nat)
    requires Short(stream) && DeliveredTo(stream, base, r, n) && o <= end <= |stream|
    ensures
      var d := Add(r, Advance(base, o), stream[o..end]);
      Continues(stream, base, n, d) && DeliveredTo(stream, base, d.state, n + |d.out|)
  {
    if o < end {
      AddIs(stream, base, r, n, o, end);
      var from := if n <= o then o else n;
      if from < end {
        PutFaithful(stream, base, r.pending, from, end);
        DrainDelivers(stream, base, n, r.pending[Advance(base, from) := stream[from..end]]);
      } else {
        assert stream[n..n] == [];
      }
    } else {
      assert stream[n..n] == [];
    }
  }

  // ----- a stream in parts

  /** The octets of the parts from the i-th on. */
  function StreamFrom(parts: seq<seq<byte>>, i: nat): seq<byte>
    requires i <= |parts|
    decreases |parts| - i
  {
    if i == |parts| then [] else parts[i] + StreamFrom(parts, i + 1)
  }

  function Stream(parts: seq<seq<byte>>): seq<byte> { StreamFrom(parts, 0) }

  /** Where the i-th part begins. */
  function Begin(parts: seq<seq<byte>>, i: nat): nat
    requires i <= |parts|
  {
    if i == 0 then 0 else Begin(parts, i - 1) + |parts[i - 1]|
  }

  lemma {:induction false} StreamSplits(parts: seq<seq<byte>>, i: nat)
    requires i <= |parts|
    ensures Begin(parts, i) <= |Stream(parts)|
    ensures Stream(parts)[Begin(parts, i)..] == StreamFrom(parts, i)
  {
    if i > 0 {
      StreamSplits(parts, i - 1);
      DropTwice(Stream(parts), Begin(parts, i - 1), |parts[i - 1]|);
    }
  }

  lemma DropTwice<T>(s: seq<T>, a: nat, b: nat)
    requires a + b <= |s|
    ensures s[a..][b..] == s[a + b..]
  {
  }

  lemma PartIs(parts: seq<seq<byte>>, i: nat)
    requires i < |parts|
    ensures Begin(parts, i + 1) <= |Stream(parts)|
    ensures parts[i] == Stream(parts)[Begin(parts, i)..Begin(parts, i + 1)]
  {
    StreamSplits(parts, i);
    StreamSplits(parts, i + 1);
    var rest := StreamFrom(parts, i);
    assert rest[..|parts[i]|] == parts[i];
    assert Stream(parts)[Begin(parts, i)..][..|parts[i]|] == Stream(parts)[Begin(parts, i)..Begin(parts, i + 1)];
  }

  predicate NoEmptyPart(parts: seq<seq<byte>>) {
    forall i :: 0 <= i < |parts| ==> parts[i] != []
  }

  lemma {:induction false} BeginGrows(parts: seq<seq<byte>>, i: nat, j: nat)
    requires NoEmptyPart(parts) && i <= j <= |parts|
    ensures Begin(parts, i) + (j - i) <= Begin(parts, j)
  {
    if i < j {
      BeginGrows(parts, i, j - 1);
    }
  }

  // ----- a sender that never re-cuts its data

  function SeqOf(base: SeqNo, parts: seq<seq<byte>>, i: nat): SeqNo
    requires i <= |parts|
  {
    Advance(base, Begin(parts, i))
  }

  predicate Sent(parts: seq<seq<byte>>) {
    NoEmptyPart(parts) && Short(Stream(parts))
  }

  lemma SeqOfInjective(base: SeqNo, parts: seq<seq<byte>>, i: nat, j: nat)
    requires Sent(parts) && i <= |parts| && j <= |parts|
    ensures SeqOf(base, parts, i) == SeqOf(base, parts, j) ==> i == j
    ensures SeqLt(SeqOf(base, parts, i), SeqOf(base, parts, j)) <==> i < j
    ensures i < j ==> Distance(SeqOf(base, parts, i), SeqOf(base, parts, j)) == Begin(parts, j) - Begin(parts, i)
  {
    StreamSplits(parts, i);
    StreamSplits(parts, j);
    BeginGrows(parts, if i <= j then i else j, if i <= j then j else i);
    PositionOf(base, Begin(parts, i));
    PositionOf(base, Begin(parts, j));
    SeqLtIsLess(base, Begin(parts, i), Begin(parts, j));
  }

  /** The held segment k is the part i. */
  predicate HeldAs(base: SeqNo, parts: seq<seq<byte>>, pending: Pending, k: SeqNo, i: nat) {
    i < |parts| && k == SeqOf(base, parts, i) && k in pending && pending[k] == parts[i]
  }

  /** Part j is expected next; what is held are parts from j on, and every part
      that arrived is delivered or held. */
  ghost predicate Aligned(base: SeqNo, parts: seq<seq<byte>>, arrived: set<nat>, r: Reassembly, j: nat) {
    && j <= |parts| && r.next == Some(SeqOf(base, parts, j))
    && (forall i :: i in arrived && i < |parts| ==> i < j || SeqOf(base, parts, i) in r.pending)
    && (forall k :: k in r.pending ==> exists i :: j <= i && HeldAs(base, parts, r.pending, k, i))
  }

  lemma HeldNext(base: SeqNo, parts: seq<seq<byte>>, arrived: set<nat>, r: Reassembly, j: nat)
    requires Sent(parts) && Aligned(base, parts, arrived, r, j) && r.next.value in r.pending
    ensures HeldAs(base, parts, r.pending, r.next.value, j)
    ensures Advance(r.next.value, |r.pending[r.next.value]|) == SeqOf(base, parts, j + 1)
  {
    var i :| j <= i && HeldAs(base, parts, r.pending, r.next.value, i);
    SeqOfInjective(base, parts, i, j);
    AdvanceTwice(base, Begin(parts, j), |parts[j]|);
  }

  /** The state after delivering part j. */
  function PastPart(base: SeqNo, parts: seq<seq<byte>>, r: Reassembly, j: nat): Reassembly
    requires j < |parts| && r.next.Some?
  {
    Reassembly(Some(SeqOf(base, parts, j + 1)), r.pending - {r.next.value})
  }

  lemma AlignNext(base: SeqNo, parts: seq<seq<byte>>, arrived: set<nat>, r: Reassembly, j: nat)
    requires Sent(parts) && Aligned(base, parts, arrived, r, j) && r.next.value in r.pending && j < |parts|
    ensures Aligned(base, parts, arrived, PastPart(base, parts, r, j), j + 1)
  {
    var held := r.pending - {r.next.value};
    forall k | k in held
      ensures exists i :: j + 1 <= i && HeldAs(base, parts, held, k, i)
    {
      var i :| j <= i && HeldAs(base, parts, r.pending, k, i);
      assert HeldAs(base, parts, held, k, i);
    }
    forall i | i in arrived && i < |parts|
      ensures i < j + 1 || SeqOf(base, parts, i) in held
    {
      SeqOfInjective(base, parts, i, j);
    }
  }

  lemma DrainPast(base: SeqNo, parts: seq<seq<byte>>, arrived: set<nat>, r: Reassembly, j: nat)
      returns (past: Reassembly)
    requires Sent(parts) && Aligned(base, parts, arrived, r, j) && r.next.value in r.pending
    ensures Aligned(base, parts, arrived, past, j + 1) && |past.pending| < |r.pending|
    ensures Drain(r.next.value, r.pending).state == Drain(past.next.value, past.pending).state
  {
    HeldNext(base, parts, arrived, r, j);
    AlignNext(base, parts, arrived, r, j);
    past := PastPart(base, parts, r, j);
  }

  lemma {:induction false} DrainAligned(base: SeqNo, parts: seq<seq<byte>>, arrived: set<nat>, r: Reassembly, j: nat)
      returns (j': nat)
    requires Sent(parts) && Aligned(base, parts, arrived, r, j)
    ensures Aligned(base, parts, arrived, Drain(r.next.value, r.pending).state, j')
    decreases |r.pending|
  {
    if r.next.value in r.pending {
      var past := DrainPast(base, parts, arrived, r, j);
      j' := DrainAligned(base, parts, arrived, past, j + 1);
    } else {
      assert Drain(r.next.value, r.pending).state == r;
      j' := j;
    }
  }

  lemma AddAligned(base: SeqNo, parts: seq<seq<byte>>, arrived: set<nat>, r: Reassembly, j: nat, i: nat)
      returns (j': nat)
    requires Sent(parts) && Aligned(base, parts, arrived, r, j) && i < |parts|
    ensures Aligned(base, parts, arrived + {i}, Add(r, SeqOf(base, parts, i), parts[i]).state, j')
  {
    SeqOfInjective(base, parts, i, j);
    if i < j {
      BeginGrows(parts, i + 1, j);
      j' := j;
    } else {
      var r' := Reassembly(r.next, r.pending[SeqOf(base, parts, i) := parts[i]]);
      forall k | k in r'.pending
        ensures exists x :: j <= x && HeldAs(base, parts, r'.pending, k, x)
      {
        if k == SeqOf(base, parts, i) {
          assert HeldAs(base, parts, r'.pending, k, i);
        } else {
          var x :| j <= x && HeldAs(base, parts, r.pending, k, x);
          assert HeldAs(base, parts, r'.pending, k, x);
        }
      }
      j' := DrainAligned(base, parts, arrived + {i}, r', j);
    }
  }

  /** Completeness: once every part arrived, nothing is held and the next
      expected octet is the end of the stream. */
  lemma AllArrived(base: SeqNo, parts: seq<seq<byte>>, arrived: set<nat>, r: Reassembly, j: nat)
    requires Sent(parts) && Aligned(base, parts, arrived, r, j) && r.next.value !in r.pending
    requires forall i: nat :: i < |parts| ==> i in arrived
    ensures r.pending == map[] && r.next == Some(Advance(base, |Stream(parts)|))
  {
    assert forall k :: k in r.pending ==> j < |parts|;
    assert j < |parts| ==> j in arrived;
    assert r.pending.Keys == {};
    StreamSplits(parts, |parts|);
  }
}
