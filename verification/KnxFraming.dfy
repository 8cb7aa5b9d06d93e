/** Cutting a byte stream, or a datagram, into KNXnet/IP frames by the length
    field of the six-octet header. */
module KnxFraming {
  import opened TcpReassembly
  import opened Wrappers

  const HEADER_LEN: nat := 6

  /** What the framer yields: a frame's octets, or what it skipped. */
  datatype Emission =
    | Frame(raw: seq<byte>)
    | Resync(skipped: seq<byte>)
    | NoHeader(count: nat)
    | Malformed(raw: seq<byte>)

  datatype Walked = Walked(out: seq<Emission>, rest: seq<byte>)

  predicate HeaderAt(buf: seq<byte>, i: nat) {
    i + 1 < |buf| && buf[i] == 0x06 && buf[i + 1] == 0x10
  }

  /** The first header at or after `from`. */
  function FindHeader(buf: seq<byte>, from: nat): (r: Option<nat>)
    ensures r.Some? ==> from <= r.value && HeaderAt(buf, r.value)
    ensures forall i :: from <= i && (r.Some? ==> i < r.value) ==> !HeaderAt(buf, i)
    decreases |buf| - from
  {
    if from + 1 >= |buf| then None
    else if HeaderAt(buf, from) then Some(from)
    else FindHeader(buf, from + 1)
  }

  function TotalLength(buf: seq<byte>): nat
    requires |buf| >= HEADER_LEN
  {
    (buf[4] as int) * 256 + buf[5] as int
  }

  /** What the framer does next with a buffer: wait for more octets, or take
      the first n off it and yield `out`. */
  datatype Cut = Wait | Take(n: nat, out: seq<Emission>)

  function NextCut(buf: seq<byte>): (c: Cut)
    ensures c.Take? ==> 0 < c.n <= |buf|
  {
    if |buf| < HEADER_LEN then Wait
    else if !HeaderAt(buf, 0) then
      match FindHeader(buf, 1)
      case None => Take(|buf|, [NoHeader(|buf|)])
      case Some(idx) => Take(idx, [Resync(buf[..idx])])
    else if TotalLength(buf) < HEADER_LEN then Take(1, [])
    else if |buf| < TotalLength(buf) then Wait
    else Take(TotalLength(buf), [Frame(buf[..TotalLength(buf)])])
  }

  function Prepend(out: seq<Emission>, w: Walked): Walked {
    Walked(out + w.out, w.rest)
  }

  /** The frames of a stream buffer, and the octets kept for later. */
  function Walk(buf: seq<byte>): Walked
    decreases |buf|
  {
    match NextCut(buf)
    case Wait => Walked([], buf)
    case Take(n, out) => Prepend(out, Walk(buf[n..]))
  }

  lemma PrependTwice(a: seq<Emission>, b: seq<Emission>, w: Walked)
    ensures Prepend(a, Prepend(b, w)) == Prepend(a + b, w)
  {
    assert a + (b + w.out) == (a + b) + w.out;
  }

  lemma WalkTakes(before: seq<Emission>, buf: seq<byte>, n: nat, out: seq<Emission>)
    requires NextCut(buf) == Take(n, out)
    ensures Prepend(before, Walk(buf)) == Prepend(before + out, Walk(buf[n..]))
  {
    PrependTwice(before, out, Walk(buf[n..]));
  }

  method WalkStream(data: seq<byte>) returns (out: seq<Emission>, buf: seq<byte>)
    ensures Walked(out, buf) == Walk(data)
  {
    out, buf := [], data;
    assert Prepend([], Walk(data)) == Walk(data);
    while |buf| >= HEADER_LEN
      invariant Walk(data) == Prepend(out, Walk(buf))
      decreases |buf|
    {
      if !HeaderAt(buf, 0) {
        var idx := FindHeader(buf, 1);
        if idx.None? {
          WalkTakes(out, buf, |buf|, [NoHeader(|buf|)]);
          out, buf := out + [NoHeader(|buf|)], [];
          break;
        }
        WalkTakes(out, buf, idx.value, [Resync(buf[..idx.value])]);
        out, buf := out + [Resync(buf[..idx.value])], buf[idx.value..];
        continue;
      }
      var total := TotalLength(buf);
      if total < HEADER_LEN {
        WalkTakes(out, buf, 1, []);
        assert out + [] == out;
        buf := buf[1..];
        continue;
      }
      if |buf| < total {
        break;
      }
      WalkTakes(out, buf, total, [Frame(buf[..total])]);
      out, buf := out + [Frame(buf[..total])], buf[total..];
    }
  }

  // ----- well-formed frames

  predicate WellFormed(frame: seq<byte>) {
    |frame| >= HEADER_LEN && HeaderAt(frame, 0) && TotalLength(frame) == |frame|
  }

  predicate AllWellFormed(frames: seq<seq<byte>>) {
    forall i :: 0 <= i < |frames| ==> WellFormed(frames[i])
  }

  function FramesBetween(frames: seq<seq<byte>>, i: nat, j: nat): seq<Emission>
    requires i <= j <= |frames|
  {
    seq(j - i, k requires 0 <= k < j - i => Frame(frames[i + k]))
  }

  /** The first frame that m octets from the i-th frame on do not complete. */
  function Reaches(frames: seq<seq<byte>>, i: nat, m: nat): (j: nat)
    requires i <= |frames|
    ensures i <= j <= |frames|
    decreases |frames| - i
  {
    if i == |frames| || m < |frames[i]| then i else Reaches(frames, i + 1, m - |frames[i]|)
  }

  lemma {:induction false} BeginReaches(frames: seq<seq<byte>>, i: nat, m: nat)
    requires i <= |frames|
    ensures Begin(frames, Reaches(frames, i, m)) <= Begin(frames, i) + m
    decreases |frames| - i
  {
    if i < |frames| && m >= |frames[i]| {
      BeginReaches(frames, i + 1, m - |frames[i]|);
    }
  }

  /** Counting can go on from any frame boundary that was reached. */
  lemma {:induction false} ReachesOn(frames: seq<seq<byte>>, i: nat, m: nat, n: nat)
    requires i <= |frames| && m <= n
    ensures
      var j := Reaches(frames, i, m);
      && Begin(frames, j) <= Begin(frames, i) + m
      && Reaches(frames, i, n) == Reaches(frames, j, n - (Begin(frames, j) - Begin(frames, i)))
    decreases |frames| - i
  {
    BeginReaches(frames, i, m);
    if i < |frames| && m >= |frames[i]| {
      ReachesOn(frames, i + 1, m - |frames[i]|, n - |frames[i]|);
    }
  }

  lemma JoinTakes<T>(s: seq<T>, a: nat, b: nat, c: nat)
    requires a <= b <= c <= |s|
    ensures s[a..][..b - a] + s[b..c] == s[a..][..c - a]
  {
  }

  lemma TakeAcross<T>(front: seq<T>, s: seq<T>, m: nat)
    requires |front| <= m <= |front| + |s|
    ensures (front + s)[..m] == front + s[..m - |front|]
  {
  }

  lemma TakeWithin<T>(front: seq<T>, s: seq<T>, m: nat)
    requires m <= |front|
    ensures (front + s)[..m] == front[..m]
  {
  }

  lemma WaitsForFrame(f: seq<byte>, m: nat)
    requires WellFormed(f) && m < |f|
    ensures Walk(f[..m]) == Walked([], f[..m])
  {
    if m >= HEADER_LEN {
      assert HeaderAt(f[..m], 0) && TotalLength(f[..m]) == |f|;
    }
  }

  lemma TakesFrame(f: seq<byte>, more: seq<byte>)
    requires WellFormed(f)
    ensures Walk(f + more) == Prepend([Frame(f)], Walk(more))
  {
    var buf := f + more;
    assert HeaderAt(buf, 0) && TotalLength(buf) == |f|;
    assert buf[..|f|] == f && buf[|f|..] == more;
  }

  /** What m octets from the i-th frame on give: the frames they complete, and
      the beginning of the next one. */
  function Expected(frames: seq<seq<byte>>, i: nat, m: nat): Walked
    requires i <= |frames| && Begin(frames, i) + m <= |Stream(frames)|
  {
    var j := Reaches(frames, i, m);
    BeginReaches(frames, i, m);
    StreamSplits(frames, j);
    Walked(FramesBetween(frames, i, j), StreamFrom(frames, j)[..Begin(frames, i) + m - Begin(frames, j)])
  }

  lemma BetweenNext(frames: seq<seq<byte>>, i: nat, j: nat)
    requires i < j <= |frames|
    ensures FramesBetween(frames, i, j) == [Frame(frames[i])] + FramesBetween(frames, i + 1, j)
  {
  }

  lemma ExpectedNext(frames: seq<seq<byte>>, i: nat, m: nat)
    requires i < |frames| && |frames[i]| <= m && Begin(frames, i) + m <= |Stream(frames)|
    ensures Expected(frames, i, m) == Prepend([Frame(frames[i])], Expected(frames, i + 1, m - |frames[i]|))
  {
    BetweenNext(frames, i, Reaches(frames, i, m));
  }

  lemma {:induction false} WalkFrames(frames: seq<seq<byte>>, i: nat, m: nat)
    requires AllWellFormed(frames) && i <= |frames| && Begin(frames, i) + m <= |Stream(frames)|
    ensures m <= |StreamFrom(frames, i)|
    ensures Walk(StreamFrom(frames, i)[..m]) == Expected(frames, i, m)
    decreases |frames| - i
  {
    StreamSplits(frames, i);
    if i < |frames| {
      var f, tail := frames[i], StreamFrom(frames, i + 1);
      if m < |f| {
        TakeWithin(f, tail, m);
        WaitsForFrame(f, m);
      } else {
        WalkFrames(frames, i + 1, m - |f|);
        TakeAcross(f, tail, m);
        TakesFrame(f, tail[..m - |f|]);
        ExpectedNext(frames, i, m);
      }
    }
  }

  /** The frames complete in the first n octets of the stream. */
  function Whole(frames: seq<seq<byte>>, n: nat): nat { Reaches(frames, 0, n) }

  /** The octets of the first n that are after the whole frames. */
  function Kept(frames: seq<seq<byte>>, n: nat): seq<byte>
    requires n <= |Stream(frames)|
  {
    Expected(frames, 0, n).rest
  }

  lemma KeptIs(frames: seq<seq<byte>>, n: nat)
    requires n <= |Stream(frames)|
    ensures
      var done := Begin(frames, Whole(frames, n));
      done <= n && Kept(frames, n) == Stream(frames)[done..][..n - done]
  {
    BeginReaches(frames, 0, n);
    StreamSplits(frames, Whole(frames, n));
  }

  lemma ExpectedOn(frames: seq<seq<byte>>, n: nat, n': nat)
    requires n <= n' <= |Stream(frames)|
    ensures
      var k := Whole(frames, n);
      && k <= Whole(frames, n') && Begin(frames, k) <= n
      && Expected(frames, k, n' - Begin(frames, k))
         == Walked(FramesBetween(frames, k, Whole(frames, n')), Kept(frames, n'))
  {
    ReachesOn(frames, 0, n, n');
  }

  /** One more delivery emits exactly the frames it completes. */
  lemma WalkMore(frames: seq<seq<byte>>, n: nat, n': nat)
    requires AllWellFormed(frames) && n <= n' <= |Stream(frames)|
    ensures Whole(frames, n) <= Whole(frames, n')
    ensures Walk(Kept(frames, n) + Stream(frames)[n..n'])
            == Walked(FramesBetween(frames, Whole(frames, n), Whole(frames, n')), Kept(frames, n'))
  {
    var k := Whole(frames, n);
    var done := Begin(frames, k);
    KeptIs(frames, n);
    ExpectedOn(frames, n, n');
    StreamSplits(frames, k);
    JoinTakes(Stream(frames), done, n, n');
    WalkFrames(frames, k, n' - done);
  }

  // ----- datagrams

  predicate BadHeader(data: seq<byte>)
    requires |data| >= HEADER_LEN
  {
    !HeaderAt(data, 0) || TotalLength(data) < HEADER_LEN || TotalLength(data) > |data|
  }

  /** The frames of one datagram; a bad header or length ends the walk. */
  function Datagram(data: seq<byte>): (out: seq<Emission>)
    decreases |data|
  {
    if |data| < HEADER_LEN then []
    else if BadHeader(data) then [Malformed(data)]
    else [Frame(data[..TotalLength(data)])] + Datagram(data[TotalLength(data)..])
  }

  lemma JoinAssociates<T>(a: seq<T>, b: seq<T>, c: seq<T>)
    ensures a + (b + c) == a + b + c
  {
  }

  method WalkDatagram(data: seq<byte>) returns (out: seq<Emission>)
    ensures out == Datagram(data)
  {
    out := [];
    var off := 0;
    assert data[0..] == data;
    while off + HEADER_LEN <= |data|
      invariant off <= |data|
      invariant Datagram(data) == out + Datagram(data[off..])
      decreases |data| - off
    {
      var here := data[off..];
      if !HeaderAt(here, 0) {
        return out + [Malformed(here)];
      }
      var total := TotalLength(here);
      if total < HEADER_LEN || off + total > |data| {
        return out + [Malformed(here)];
      }
      assert data[off + total..] == here[total..];
      JoinAssociates(out, [Frame(here[..total])], Datagram(here[total..]));
      out := out + [Frame(here[..total])];
      off := off + total;
    }
  }

  function Octets(out: seq<Emission>): seq<byte> {
    if out == [] then []
    else
      (match out[0]
       case Frame(raw) => raw
       case Malformed(raw) => raw
       case Resync(skipped) => skipped
       case NoHeader(_) => [])
         + Octets(out[1..])
  }

  /** Nothing of a datagram is lost but a tail shorter than a header. */
  lemma {:induction false} DatagramConserves(data: seq<byte>)
    ensures |Octets(Datagram(data))| <= |data| < |Octets(Datagram(data))| + HEADER_LEN
    ensures Octets(Datagram(data)) == data[..|Octets(Datagram(data))|]
    decreases |data|
  {
    var out := Datagram(data);
    if out != [] {
      if out[0].Frame? {
        var total := TotalLength(data);
        DatagramConserves(data[total..]);
        assert out[1..] == Datagram(data[total..]);
      } else {
        assert out[1..] == [];
      }
    }
  }

  /** Frames sent in one datagram come back as they were. */
  lemma {:induction false} DatagramFrames(frames: seq<seq<byte>>, i: nat)
    requires AllWellFormed(frames) && i <= |frames|
    ensures Datagram(StreamFrom(frames, i)) == FramesBetween(frames, i, |frames|)
    decreases |frames| - i
  {
    if i < |frames| {
      var f, data := frames[i], StreamFrom(frames, i);
      assert HeaderAt(data, 0) && TotalLength(data) == |f|;
      assert data[..|f|] == f && data[|f|..] == StreamFrom(frames, i + 1);
      DatagramFrames(frames, i + 1);
    }
  }
}
