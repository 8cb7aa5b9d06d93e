/** Replaying a capture: the two walkers over its records or blocks, the UDP
    payloads, and the removal of retransmitted requests. */
module Replay {

  import opened Pcap
  import opened Wrappers

  /** What a walk over a capture gives, or why it stopped. */
  datatype Reading<T> = Read(value: T) | NotACapture(magic: nat) | Truncated(at: nat)

  function Get(b: Bytes, lo: nat, hi: nat): Option<Bytes> { if lo <= hi <= |b| then Some(b[lo..hi]) else None }

  function ReadU16(b: Bytes, at: nat, le: bool): (v: Option<nat>)
    ensures v.Some? <==> at + 2 <= |b|
  {
    if at + 2 > |b| then None else if le then Some(Two(b[at], b[at + 1])) else Some(Two(b[at + 1], b[at]))
  }

  function Two(low: nat, high: nat): nat { low + 256 * high }

  // ----- the payload of one link-layer frame

  /** The IP packet inside a frame, by link type: raw IP, Ethernet, Linux cooked capture, BSD loopback. */
  function IpPacket(link: nat, frame: Bytes): Option<Bytes> {
    if link == 101 || link == 228 then Some(frame)
    else if link == 1 then (if Get(frame, 12, 14) == Some([8, 0]) then Get(frame, 14, |frame|) else None)
    else if link == 113 then (if Get(frame, 14, 16) == Some([8, 0]) then Get(frame, 16, |frame|) else None)
    else if link == 0 then Get(frame, 4, |frame|)
    else None
  }

  /** The UDP payload of an IPv4 packet, cut at the lengths its headers give. */
  function UdpOf(ip: Bytes): Option<Bytes> {
    if |ip| < 10 || ip[0] / 16 != 4 || ip[9] != 17 then None
    else
      var ihl := ip[0] % 16 * 4;
      var total := ReadU16(ip, 2, false).value;
      match Get(ip, ihl, Min(total, |ip|))
      case None => None
      case Some(udp) =>
        match ReadU16(udp, 4, false)
        case None => None
        case Some(length) => Get(udp, 8, Min(length, |udp|))
  }

  function UdpPayload(link: nat, frame: Bytes): Option<Bytes> {
    match IpPacket(link, frame)
    case None => None
    case Some(ip) => UdpOf(ip)
  }

  /** A frame of a capture and the link type of the interface it was captured on. */
  datatype Frame = Frame(link: nat, octets: Bytes)

  /** The UDP payloads among some frames, in order. */
  function PayloadsIn(frames: seq<Frame>): seq<Bytes> {
    if |frames| == 0 then []
    else
      var n := |frames| - 1;
      match UdpPayload(frames[n].link, frames[n].octets)
      case Some(p) => PayloadsIn(frames[..n]) + [p]
      case None => PayloadsIn(frames[..n])
  }

  lemma PayloadsLast(frames: seq<Frame>, f: Frame)
    ensures PayloadsIn(frames + [f])
            == match UdpPayload(f.link, f.octets)
               case Some(p) => PayloadsIn(frames) + [p]
               case None => PayloadsIn(frames)
  {
    assert (frames + [f])[..|frames|] == frames;
  }

  function UdpIn(r: Reading<seq<Frame>>): Reading<seq<Bytes>> {
    match r
    case Read(frames) => Read(PayloadsIn(frames))
    case NotACapture(magic) => NotACapture(magic)
    case Truncated(at) => Truncated(at)
  }

  // ----- classic captures

  /** One step of a walk: the end, an error, or a frame if there is one and where to go on. */
  datatype Step = Done | Fail(at: nat) | Go(frame: Option<Frame>, next: nat)

  /** One record; a record that runs past the end is an error. */
  function ClassicStep(b: Bytes, le: bool, link: nat, pos: nat): (s: Step)
    ensures s.Go? ==> pos < s.next <= |b|
  {
    if pos >= |b| then Done
    else
      match ReadU32(b, pos + 8, le)
      case None => Fail(pos)
      case Some(incl) =>
        match Get(b, pos + 16, pos + 16 + incl)
        case None => Fail(pos)
        case Some(data) => Go(Some(Frame(link, data)), pos + 16 + incl)
  }

  function Add<T>(x: Option<T>, rest: Reading<seq<T>>): Reading<seq<T>> {
    if rest.Read? && x.Some? then Read([x.value] + rest.value) else rest
  }

  /** The frames of the records from a position on. */
  function ClassicFrom(b: Bytes, le: bool, link: nat, pos: nat): Reading<seq<Frame>>
    decreases |b| - pos
  {
    match ClassicStep(b, le, link, pos)
    case Done => Read([])
    case Fail(at) => Truncated(at)
    case Go(frame, next) => Add(frame, ClassicFrom(b, le, link, next))
  }

  function Classic(b: Bytes, le: bool): Reading<seq<Bytes>> {
    match ReadU32(b, 20, le)
    case None => Truncated(20)
    case Some(link) => UdpIn(ClassicFrom(b, le, link, 24))
  }

  /** What is still to come, after what was already found. */
  function Prepend<T>(out: seq<T>, rest: Reading<seq<T>>): Reading<seq<T>> {
    if rest.Read? then Read(out + rest.value) else rest
  }

  method ClassicLoop(b: Bytes, le: bool) returns (r: Reading<seq<Bytes>>)
    ensures r == Classic(b, le)
  {
    var link := ReadU32(b, 20, le);
    if link.None? {
      return Truncated(20);
    }
    var out: seq<Bytes> := [];
    ghost var taken: seq<Frame> := [];
    var pos := 24;
    PrependNone(ClassicFrom(b, le, link.value, 24));
    while true
      invariant out == PayloadsIn(taken)
      invariant Prepend(taken, ClassicFrom(b, le, link.value, pos)) == ClassicFrom(b, le, link.value, 24)
      decreases |b| - pos
    {
      match ClassicStep(b, le, link.value, pos) {
        case Done =>
          PrependEmpty(taken);
          return Read(out);
        case Fail(at) =>
          return Truncated(at);
        case Go(frame, next) =>
          PrependAdd(taken, frame.value, ClassicFrom(b, le, link.value, next));
          PayloadsLast(taken, frame.value);
          var payload := UdpPayload(link.value, frame.value.octets);
          if payload.Some? {
            out := out + [payload.value];
          }
          taken := taken + [frame.value];
          pos := next;
      }
    }
  }

  lemma PrependNone<T>(rest: Reading<seq<T>>)
    ensures Prepend([], rest) == rest
  {
    if rest.Read? {
      assert [] + rest.value == rest.value;
    }
  }

  lemma PrependAdd<T>(out: seq<T>, x: T, rest: Reading<seq<T>>)
    ensures Prepend(out, Add(Some(x), rest)) == Prepend(out + [x], rest)
  {
    if rest.Read? {
      assert out + ([x] + rest.value) == (out + [x]) + rest.value;
    }
  }

  lemma PrependFirst<T>(x: T, out: seq<T>, rest: Reading<seq<T>>)
    ensures Add(Some(x), Prepend(out, rest)) == Prepend([x] + out, rest)
  {
    if rest.Read? {
      assert [x] + (out + rest.value) == ([x] + out) + rest.value;
    }
  }

  lemma PrependEmpty<T>(out: seq<T>)
    ensures Prepend(out, Read([])) == Read(out)
  {
    assert out + [] == out;
  }

  // ----- writing datagrams and reading them back

  function U16Big(v: nat): (b: Bytes)
    requires v < 0x1_0000
    ensures |b| == 2
  {
    [v / 256, v % 256]
  }

  /** The longest payload that fits an IPv4 datagram. */
  predicate Fits(p: Bytes) { |p| + 28 < 0x1_0000 }

  function Ipv4Udp(p: Bytes): (b: Bytes)
    requires Fits(p)
    ensures |b| == 28 + |p|
  {
    [0x45, 0] + U16Big(28 + |p|) + [0, 0, 0, 0, 64, 17, 0, 0, 127, 0, 0, 1, 127, 0, 0, 1]
    + UdpPart(p)
  }

  lemma ReadBig(v: nat, b: Bytes, at: nat)
    requires v < 0x1_0000 && at + 2 <= |b| && b[at] == v / 256 && b[at + 1] == v % 256
    ensures ReadU16(b, at, false) == Some(v)
  {
    assert Two(b[at + 1], b[at]) == v;
  }

  function UdpPart(p: Bytes): (b: Bytes)
    requires Fits(p)
    ensures |b| == 8 + |p|
  {
    [0x0e, 0x57, 0x0e, 0x57] + U16Big(8 + |p|) + [0, 0] + p
  }

  lemma UdpPartReads(p: Bytes)
    requires Fits(p)
    ensures ReadU16(UdpPart(p), 4, false) == Some(8 + |p|)
    ensures Get(UdpPart(p), 8, 8 + |p|) == Some(p)
  {
    var udp := UdpPart(p);
    assert udp[4] == U16Big(8 + |p|)[0] && udp[5] == U16Big(8 + |p|)[1];
    ReadBig(8 + |p|, udp, 4);
    assert udp[8..8 + |p|] == p;
  }

  lemma IpPartReads(p: Bytes)
    requires Fits(p)
    ensures var ip := Ipv4Udp(p);
      ip[0] == 0x45 && ip[9] == 17 && ReadU16(ip, 2, false) == Some(28 + |p|) && Get(ip, 20, |ip|) == Some(UdpPart(p))
  {
    var ip := Ipv4Udp(p);
    assert ip[2] == U16Big(28 + |p|)[0] && ip[3] == U16Big(28 + |p|)[1];
    ReadBig(28 + |p|, ip, 2);
    assert ip[20..|ip|] == UdpPart(p);
  }

  lemma UdpOfDatagram(p: Bytes)
    requires Fits(p)
    ensures UdpOf(Ipv4Udp(p)) == Some(p)
  {
    IpPartReads(p);
    UdpPartReads(p);
  }

  // ----- frames of each link type

  /** An IP packet as the link types carry it: alone, behind an Ethernet header, behind a cooked header, behind an
      address family. The header before the type field is arbitrary. */
  lemma LinkLayers(ip: Bytes, head: Bytes)
    ensures UdpPayload(101, ip) == UdpOf(ip) && UdpPayload(228, ip) == UdpOf(ip)
    ensures |head| == 12 ==> UdpPayload(1, head + [8, 0] + ip) == UdpOf(ip)
    ensures |head| == 14 ==> UdpPayload(113, head + [8, 0] + ip) == UdpOf(ip)
    ensures |head| == 4 ==> UdpPayload(0, head + ip) == UdpOf(ip)
  {
    var f, g := head + [8, 0] + ip, head + ip;
    assert f[|head|..|head| + 2] == [8, 0] && f[|head| + 2..|f|] == ip && g[|head|..|g|] == ip;
    assert Get(f, |head|, |head| + 2) == Some([8, 0]) && Get(f, |head| + 2, |f|) == Some(ip);
    assert |head| == 12 ==> IpPacket(1, f) == Some(ip);
    assert |head| == 14 ==> IpPacket(113, f) == Some(ip);
  }

  /** Other link types, and frames of another type, carry nothing. */
  lemma NoPayload(link: nat, head: Bytes, kind: Bytes, rest: Bytes)
    requires |kind| == 2 && kind != [8, 0]
    ensures link !in {0, 1, 101, 113, 228} ==> UdpPayload(link, rest).None?
    ensures |head| == 12 ==> UdpPayload(1, head + kind + rest).None?
    ensures |head| == 14 ==> UdpPayload(113, head + kind + rest).None?
  {
    var f := head + kind + rest;
    assert f[|head|..|head| + 2] == kind;
    assert Get(f, |head|, |head| + 2) == Some(kind);
    assert Get(f, |head|, |head| + 2) != Some([8, 0]);
    assert link !in {0, 1, 101, 113, 228} ==> IpPacket(link, rest).None?;
    assert |head| == 12 ==> IpPacket(1, f).None?;
    assert |head| == 14 ==> IpPacket(113, f).None?;
  }

  /** A packet is read as UDP over IPv4 only when its first half-octet is 4 and its protocol octet 17. */
  lemma OnlyUdp(ip: Bytes)
    ensures UdpOf(ip).Some? ==> |ip| >= 10 && ip[0] / 16 == 4 && ip[9] == 17
  {
  }

  /** A datagram with a longer header, and octets behind its end: the lengths in the headers count. */
  lemma LengthsCount(ip: Bytes, h: nat, total: nat, n: nat)
    requires 3 <= h < 16 && 10 <= 4 * h && 4 * h + 8 <= total <= |ip| && 8 <= n <= total - 4 * h && total < 0x1_0000
    requires ip[0] == 64 + h && ip[9] == 17 && ip[2] == total / 256 && ip[3] == total % 256
    requires ip[4 * h + 4] == n / 256 && ip[4 * h + 5] == n % 256
    ensures UdpOf(ip) == Some(ip[4 * h + 8..4 * h + n])
  {
    var udp := ip[4 * h..total];
    assert ip[0] / 16 == 4 && ip[0] % 16 == h;
    assert udp[4] == ip[4 * h + 4] && udp[5] == ip[4 * h + 5];
    ReadBig(total, ip, 2);
    ReadBig(n, udp, 4);
    SliceOfSlice(ip, 4 * h, total, 8, n);
    UdpOfLengths(ip, 4 * h, total, udp, n);
  }

  lemma UdpOfLengths(ip: Bytes, ihl: nat, total: nat, udp: Bytes, n: nat)
    requires 10 <= |ip| && ip[0] / 16 == 4 && ip[9] == 17 && ip[0] % 16 * 4 == ihl
    requires ReadU16(ip, 2, false) == Some(total) && ihl <= total <= |ip| && udp == ip[ihl..total]
    requires ReadU16(udp, 4, false) == Some(n) && 8 <= n <= |udp|
    ensures UdpOf(ip) == Some(udp[8..n])
  {
  }

  lemma SliceOfSlice(b: Bytes, lo: nat, hi: nat, i: nat, j: nat)
    requires lo <= hi <= |b| && i <= j <= hi - lo
    ensures b[lo..hi][i..j] == b[lo + i..lo + j]
  {
    assert forall k :: 0 <= k < j - i ==> b[lo..hi][i..j][k] == b[lo + i..lo + j][k];
  }

  // ----- classic files

  function RecordOf(frame: Bytes, le: bool): Bytes {
    Num(0, le) + Num(0, le) + Num(|frame|, le) + Num(|frame|, le) + frame
  }

  predicate AllShort(frames: seq<Bytes>) { forall k :: 0 <= k < |frames| ==> |frames[k]| < 0x1_0000_0000 }

  /** The records of some frames. */
  function RecordsOf(frames: seq<Bytes>, le: bool): (r: seq<Bytes>)
    ensures |r| == |frames|
  {
    seq(|frames|, k requires 0 <= k < |frames| => RecordOf(frames[k], le))
  }

  /** The file header; the magic number tells the byte order and the resolution of the clock. */
  function FileHeader(link: nat, le: bool, nano: bool): (h: Bytes)
    ensures |h| == 24
  {
    Num(if nano then 0xa1b23c4d else 0xa1b2c3d4, le) + (if le then [2, 0, 4, 0] else [0, 2, 0, 4])
    + Num(0, le) + Num(0, le) + Num(65535, le) + Num(link, le)
  }

  function ClassicFile(link: nat, frames: seq<Bytes>, le: bool, nano: bool): Bytes {
    FileHeader(link, le, nano) + Concat(RecordsOf(frames, le))
  }

  /** Octets captured on one interface. */
  function OnLink(link: nat, frames: seq<Bytes>): (f: seq<Frame>)
    ensures |f| == |frames|
  {
    seq(|frames|, k requires 0 <= k < |frames| => Frame(link, frames[k]))
  }

  /** The record of a frame stands at a position: its length and its octets. */
  predicate RecordAt(b: Bytes, pos: nat, frame: Bytes, le: bool) {
    && |frame| < 0x1_0000_0000 && pos + 16 + |frame| <= |b|
    && b[pos + 8..pos + 12] == Num(|frame|, le) && b[pos + 16..pos + 16 + |frame|] == frame
  }

  /** A record is eight octets, its length twice, and its octets. */
  lemma RecordParts(r: Bytes, head: Bytes, n: Bytes, frame: Bytes)
    requires |head| == 8 && |n| == 4 && r == head + n + n + frame
    ensures |r| == 16 + |frame| && r[8..12] == n && r[16..] == frame
  {
  }

  lemma RecordThere(b: Bytes, pos: nat, frame: Bytes, le: bool)
    requires |frame| < 0x1_0000_0000 && Stands(b, pos, RecordOf(frame, le))
    ensures |RecordOf(frame, le)| == 16 + |frame| && RecordAt(b, pos, frame, le)
  {
    var r := RecordOf(frame, le);
    RecordParts(r, Num(0, le) + Num(0, le), Num(|frame|, le), frame);
    SliceOfSlice(b, pos, pos + |r|, 8, 12);
    SliceOfSlice(b, pos, pos + |r|, 16, |r|);
    assert r[16..|r|] == r[16..];
  }

  lemma RecordsNext(b: Bytes, pos: nat, frames: seq<Bytes>, rest: seq<Bytes>, next: nat, le: bool, end: nat)
    requires AllShort(frames) && |frames| > 0 && Stand(b, pos, RecordsOf(frames, le), end)
    requires rest == frames[1..] && next == pos + 16 + |frames[0]|
    ensures RecordAt(b, pos, frames[0], le) && AllShort(rest) && Stand(b, next, RecordsOf(rest, le), end)
  {
    RecordThere(b, pos, frames[0], le);
    assert RecordsOf(frames, le)[1..] == RecordsOf(rest, le);
  }

  lemma StepOfNumber(b: Bytes, le: bool, link: nat, pos: nat, n: nat, next: nat)
    requires ReadU32(b, pos + 8, le) == Some(n) && next == pos + 16 + n <= |b|
    ensures ClassicStep(b, le, link, pos) == Go(Some(Frame(link, b[pos + 16..next])), next)
  {
  }

  lemma ReadsRecord(b: Bytes, pos: nat, frame: Bytes, link: nat, le: bool, next: nat)
    requires RecordAt(b, pos, frame, le) && next == pos + 16 + |frame|
    ensures ClassicFrom(b, le, link, pos) == Add(Some(Frame(link, frame)), ClassicFrom(b, le, link, next))
  {
    ReadNum(|frame|, b, pos + 8, le);
    StepOfNumber(b, le, link, pos, |frame|, next);
  }

  lemma OnLinkFirst(link: nat, frames: seq<Bytes>, rest: seq<Bytes>, last: Reading<seq<Frame>>,
                    next: Reading<seq<Frame>>, all: Reading<seq<Frame>>)
    requires |frames| > 0 && rest == frames[1..]
    requires next == Prepend(OnLink(link, rest), last) && all == Add(Some(Frame(link, frames[0])), next)
    ensures all == Prepend(OnLink(link, frames), last)
  {
    PrependFirst(Frame(link, frames[0]), OnLink(link, rest), last);
    assert OnLink(link, frames) == [Frame(link, frames[0])] + OnLink(link, rest);
  }

  /** The frames, and then whatever the rest of the file gives. */
  lemma {:induction false} ReadsRecords(b: Bytes, pos: nat, frames: seq<Bytes>, link: nat, le: bool, end: nat)
    requires AllShort(frames) && Stand(b, pos, RecordsOf(frames, le), end)
    ensures ClassicFrom(b, le, link, pos) == Prepend(OnLink(link, frames), ClassicFrom(b, le, link, end))
    decreases |frames|
  {
    if |frames| == 0 {
      assert OnLink(link, frames) == [];
      PrependNone(ClassicFrom(b, le, link, pos));
    } else {
      var rest, next := frames[1..], pos + 16 + |frames[0]|;
      RecordsNext(b, pos, frames, rest, next, le, end);
      ReadsRecord(b, pos, frames[0], link, le, next);
      ReadsRecords(b, next, rest, link, le, end);
      OnLinkFirst(link, frames, rest, ClassicFrom(b, le, link, end), ClassicFrom(b, le, link, next),
                  ClassicFrom(b, le, link, pos));
    }
  }

  /** What is left when the records end: nothing, or a record that is cut off. */
  predicate CutOff(tail: Bytes, le: bool) { tail != [] && (|tail| < 12 || 16 + ReadU32(tail, 8, le).value > |tail|) }

  lemma ReadsTail(b: Bytes, pos: nat, tail: Bytes, link: nat, le: bool)
    requires pos <= |b| && b[pos..] == tail
    ensures tail == [] ==> ClassicFrom(b, le, link, pos) == Read([])
    ensures CutOff(tail, le) ==> ClassicFrom(b, le, link, pos) == Truncated(pos)
  {
    if |tail| >= 12 {
      assert forall k :: 0 <= k < |tail| ==> tail[k] == b[pos + k];
      assert ReadU32(b, pos + 8, le) == ReadU32(tail, 8, le);
    }
  }

  lemma BehindHeader(b: Bytes, h: Bytes, frames: seq<Bytes>, link: nat, le: bool, tail: Bytes, end: nat)
    requires AllShort(frames) && (tail == [] || CutOff(tail, le)) && |h| == 24
    requires b == h + Concat(RecordsOf(frames, le)) + tail && end == |h| + |Concat(RecordsOf(frames, le))|
    ensures ClassicFrom(b, le, link, 24) == if tail == [] then Read(OnLink(link, frames)) else Truncated(end)
  {
    PartsStand(b, h, RecordsOf(frames, le), tail, 24, end);
    ReadsRecords(b, 24, frames, link, le, end);
    ReadsTail(b, end, tail, link, le);
    PrependEmpty(OnLink(link, frames));
  }

  /** A classic file gives the UDP payloads of its frames, in either byte order and resolution; with a cut-off record
      behind them it is an error at that record. */
  lemma ClassicReads(link: nat, frames: seq<Bytes>, le: bool, nano: bool, tail: Bytes)
    requires link < 0x1_0000_0000 && AllShort(frames) && (tail == [] || CutOff(tail, le))
    ensures
      var b := ClassicFile(link, frames, le, nano);
      Classic(b + tail, le) == if tail == [] then Read(PayloadsIn(OnLink(link, frames))) else Truncated(|b|)
  {
    var h, records := FileHeader(link, le, nano), RecordsOf(frames, le);
    var b, end := ClassicFile(link, frames, le, nano) + tail, |h| + |Concat(records)|;
    HeaderLink(b, link, le, nano, Concat(records) + tail);
    BehindHeader(b, h, frames, link, le, tail, end);
  }

  lemma HeaderLink(b: Bytes, link: nat, le: bool, nano: bool, rest: Bytes)
    requires link < 0x1_0000_0000 && b == FileHeader(link, le, nano) + rest
    ensures ReadU32(b, 20, le) == Some(link)
  {
    var h := FileHeader(link, le, nano);
    assert h[20..24] == Num(link, le);
    assert b[20..24] == h[20..24];
    ReadNum(link, b, 20, le);
  }

  predicate AllFit(ds: seq<Bytes>) { forall k :: 0 <= k < |ds| ==> Fits(ds[k]) }

  /** The datagrams as IP packets. */
  function Datagrams(ds: seq<Bytes>): (frames: seq<Bytes>)
    requires AllFit(ds)
    ensures |frames| == |ds|
  {
    seq(|ds|, k requires 0 <= k < |ds| => Ipv4Udp(ds[k]))
  }

  /** Frames that carry the datagrams give them back. */
  lemma {:induction false} DatagramsRead(ds: seq<Bytes>, frames: seq<Frame>)
    requires |frames| == |ds| && forall k :: 0 <= k < |ds| ==> Carries(frames[k], ds[k])
    ensures PayloadsIn(frames) == ds
  {
    if |ds| > 0 {
      var n := |ds| - 1;
      DatagramsRead(ds[..n], frames[..n]);
      assert Carries(frames[n], ds[n]);
      assert ds == ds[..n] + [ds[n]];
    }
  }

  predicate Carries(f: Frame, p: Bytes) { UdpPayload(f.link, f.octets) == Some(p) }

  lemma DatagramsCarried(ds: seq<Bytes>)
    requires AllFit(ds)
    ensures AllShort(Datagrams(ds)) && PayloadsIn(OnLink(101, Datagrams(ds))) == ds
  {
    var frames := OnLink(101, Datagrams(ds));
    forall k | 0 <= k < |ds| ensures Carries(frames[k], ds[k]) {
      UdpOfDatagram(ds[k]);
      LinkLayers(Ipv4Udp(ds[k]), []);
    }
    DatagramsRead(ds, frames);
  }

  /** Datagrams written as a classic capture come back in order. */
  lemma ClassicRoundTrip(ds: seq<Bytes>, le: bool, nano: bool)
    requires AllFit(ds)
    ensures Classic(ClassicFile(101, Datagrams(ds), le, nano), le) == Read(ds)
  {
    DatagramsCarried(ds);
    ClassicReads(101, Datagrams(ds), le, nano, []);
    var b := ClassicFile(101, Datagrams(ds), le, nano);
    assert b + [] == b;
  }

  // ----- retransmissions

  /** What the request reader makes of a datagram: a connect request, a tunnelled L_Data.req, or something it skips. */
  datatype Event = ConnectRequest | Request(channel: Octet, seqNo: Octet, cemi: Bytes) | Skipped

  type Last = map<Octet, (Octet, Bytes)>

  /** The last request of each channel since the last connect request. */
  function LastOf(events: seq<Event>): Last {
    if |events| == 0 then map[]
    else
      var last := LastOf(events[..|events| - 1]);
      match events[|events| - 1]
      case ConnectRequest => map[]
      case Request(channel, seqNo, cemi) => last[channel := (seqNo, cemi)]
      case Skipped => last
  }

  /** The requests that are delivered. */
  function Delivered(events: seq<Event>): seq<Bytes> {
    if |events| == 0 then []
    else
      var before := events[..|events| - 1];
      match events[|events| - 1]
      case Request(channel, seqNo, cemi) =>
        if Repeats(LastOf(before), events[|events| - 1]) then Delivered(before) else Delivered(before) + [cemi]
      case _ => Delivered(before)
  }

  /** The event is the last request of its channel once more. */
  predicate Repeats(last: Last, e: Event) { e.Request? && e.channel in last && last[e.channel] == (e.seqNo, e.cemi) }

  method Requests(events: seq<Event>) returns (out: seq<Bytes>)
    ensures out == Delivered(events)
  {
    out := [];
    var last: Last := map[];
    for i := 0 to |events|
      invariant out == Delivered(events[..i]) && last == LastOf(events[..i])
    {
      assert events[..i + 1][..i] == events[..i];
      match events[i] {
        case ConnectRequest =>
          last := map[];
        case Request(channel, seqNo, cemi) =>
          if Repeats(last, events[i]) {
            Unchanged(last, events[i]);
            continue;
          }
          last := last[channel := (seqNo, cemi)];
          out := out + [cemi];
        case Skipped =>
      }
    }
    assert events[..|events|] == events;
  }

  lemma Unchanged(last: Last, e: Event)
    requires Repeats(last, e)
    ensures last[e.channel := (e.seqNo, e.cemi)] == last
  {
  }

  /** The state after more events depends on the state before them only. */
  lemma {:induction false} SameAfter(a: seq<Event>, b: seq<Event>, more: seq<Event>)
    requires LastOf(a) == LastOf(b) && Delivered(a) == Delivered(b)
    ensures LastOf(a + more) == LastOf(b + more) && Delivered(a + more) == Delivered(b + more)
  {
    if |more| == 0 {
      assert a + more == a && b + more == b;
    } else {
      var m, l := more[..|more| - 1], more[|more| - 1];
      SameAfter(a, b, m);
      LastEvent(a, m, l);
      LastEvent(b, m, l);
      assert more == m + [l];
      NextEvent(a + m, b + m, l);
    }
  }

  lemma LastEvent(a: seq<Event>, m: seq<Event>, l: Event)
    ensures a + (m + [l]) == (a + m) + [l]
  {
  }

  lemma NextEvent(a: seq<Event>, b: seq<Event>, l: Event)
    requires LastOf(a) == LastOf(b) && Delivered(a) == Delivered(b)
    ensures LastOf(a + [l]) == LastOf(b + [l]) && Delivered(a + [l]) == Delivered(b + [l])
  {
    assert (a + [l])[..|a|] == a && (b + [l])[..|b|] == b;
  }

  /** No connect request and no request of the channel but the same one again. */
  predicate Quiet(b: seq<Event>, x: Event)
    requires x.Request?
  {
    forall k :: 0 <= k < |b| ==> !b[k].ConnectRequest? && (b[k].Request? && b[k].channel == x.channel ==> b[k] == x)
  }

  lemma {:induction false} StillLast(a: seq<Event>, x: Event, b: seq<Event>)
    requires x.Request? && Quiet(b, x)
    ensures Repeats(LastOf(a + [x] + b), x)
  {
    if |b| == 0 {
      assert a + [x] + b == a + [x];
      assert (a + [x])[..|a|] == a;
    } else {
      StillLast(a, x, b[..|b| - 1]);
      assert (a + [x] + b)[..|a| + |b|] == a + [x] + b[..|b| - 1];
    }
  }

  /** A connect request forgets what was delivered before it: what follows is delivered as in a recording of its own. */
  lemma {:induction false} ConnectForgets(a: seq<Event>, more: seq<Event>)
    ensures Delivered(a + [ConnectRequest] + more) == Delivered(a) + Delivered(more)
    ensures LastOf(a + [ConnectRequest] + more) == LastOf(more)
  {
    if more == [] {
      assert a + [ConnectRequest] + [] == a + [ConnectRequest];
      assert (a + [ConnectRequest])[..|a|] == a;
      assert Delivered(a) + [] == Delivered(a);
    } else {
      var m, l := more[..|more| - 1], more[|more| - 1];
      ConnectForgets(a, m);
      LastEvent(a + [ConnectRequest], m, l);
      assert more == m + [l];
      OneMore(a + [ConnectRequest] + m, m, l, Delivered(a));
    }
  }

  /** One more event on two recordings that differ in what was delivered long ago. */
  lemma OneMore(a: seq<Event>, b: seq<Event>, l: Event, before: seq<Bytes>)
    requires LastOf(a) == LastOf(b) && Delivered(a) == before + Delivered(b)
    ensures LastOf(a + [l]) == LastOf(b + [l]) && Delivered(a + [l]) == before + Delivered(b + [l])
  {
    assert (a + [l])[..|a|] == a && (b + [l])[..|b|] == b;
    if l.Request? {
      assert before + (Delivered(b) + [l.cemi]) == before + Delivered(b) + [l.cemi];
    }
  }

  /** Another request of the channel is delivered, whatever the other channels sent since the last one. */
  lemma AnotherIsDelivered(a: seq<Event>, x: Event, b: seq<Event>, y: Event)
    requires x.Request? && y.Request? && Quiet(b, x) && y.channel == x.channel && y != x
    ensures Delivered(a + [x] + b + [y]) == Delivered(a + [x] + b) + [y.cemi]
  {
    var s := a + [x] + b;
    StillLast(a, x, b);
    assert (s + [y])[..|s|] == s;
  }

  /** A request sent again before the channel's next one and before the next connect request changes nothing, whatever
      the other channels send in between. */
  lemma RepeatDeliversNothing(a: seq<Event>, x: Event, b: seq<Event>, more: seq<Event>)
    requires x.Request? && Quiet(b, x)
    ensures Delivered(a + [x] + b + [x] + more) == Delivered(a + [x] + b + more)
  {
    var s := a + [x] + b;
    StillLast(a, x, b);
    assert (s + [x])[..|s|] == s;
    Unchanged(LastOf(s), x);
    SameAfter(s + [x], s, more);
  }
}
