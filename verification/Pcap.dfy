/** Classic pcap files: cutting a recording at a record boundary, and the two
    readers that walk its records. */
module Pcap {

  import opened Wrappers

  type Octet = n: nat | n < 256

  type Bytes = seq<Octet>

  // ----- 32-bit numbers

  function ReadU32(b: Bytes, at: nat, le: bool): (v: Option<nat>)
    ensures v.Some? <==> at + 4 <= |b|
    ensures v.Some? ==> v.value < 0x1_0000_0000
  {
    if at + 4 > |b| then None
    else if le then Some(Value(b[at], b[at + 1], b[at + 2], b[at + 3]))
    else Some(Value(b[at + 3], b[at + 2], b[at + 1], b[at]))
  }

  function Value(a: nat, b: nat, c: nat, d: nat): nat { a + 256 * (b + 256 * (c + 256 * d)) }

  /** Octet i of v, the least significant first. */
  function OctetAt(v: nat, i: nat): (o: nat)
    ensures o < 256
  {
    if i == 0 then v % 256 else OctetAt(v / 256, i - 1)
  }

  /** The four octets of v, the least significant first. */
  function U32(v: nat): (b: Bytes)
    ensures |b| == 4
  {
    seq(4, i requires 0 <= i => OctetAt(v, i))
  }

  lemma Quotient(v: nat)
    ensures v == v % 256 + 256 * (v / 256)
  {
  }

  lemma OctetsOf(v: nat)
    requires v < 0x1_0000_0000
    ensures Value(U32(v)[0], U32(v)[1], U32(v)[2], U32(v)[3]) == v
  {
    Quotient(v);
    Quotient(v / 256);
    Quotient(v / 256 / 256);
    Quotient(v / 256 / 256 / 256);
    assert OctetAt(v, 1) == v / 256 % 256;
    assert OctetAt(v, 2) == OctetAt(v / 256, 1) == v / 256 / 256 % 256;
    assert OctetAt(v / 256, 2) == OctetAt(v / 256 / 256, 1) == v / 256 / 256 / 256 % 256;
    assert OctetAt(v, 3) == OctetAt(v / 256, 2);
  }

  lemma ReadWritten(v: nat, b: Bytes, at: nat)
    requires v < 0x1_0000_0000 && at + 4 <= |b| && b[at..at + 4] == U32(v)
    ensures ReadU32(b, at, true) == Some(v)
  {
    var s := b[at..at + 4];
    assert s[0] == b[at] && s[1] == b[at + 1] && s[2] == b[at + 2] && s[3] == b[at + 3];
    OctetsOf(v);
  }

  /** The four octets of v in either order. */
  function Num(v: nat, le: bool): (b: Bytes)
    ensures |b| == 4
  {
    if le then U32(v) else [U32(v)[3], U32(v)[2], U32(v)[1], U32(v)[0]]
  }

  lemma ReadNum(v: nat, b: Bytes, at: nat, le: bool)
    requires v < 0x1_0000_0000 && at + 4 <= |b| && b[at..at + 4] == Num(v, le)
    ensures ReadU32(b, at, le) == Some(v)
  {
    var s := b[at..at + 4];
    assert s[0] == b[at] && s[1] == b[at + 1] && s[2] == b[at + 2] && s[3] == b[at + 3];
    OctetsOf(v);
  }

  // ----- the records

  const HEADER := 24

  /** Where the record at a position ends, if it is whole. */
  function RecordEnd(b: Bytes, pos: nat): (e: Option<nat>)
    ensures e.Some? ==> pos + 16 <= e.value <= |b|
  {
    if pos + 16 > |b| then None
    else
      var e := pos + 16 + ReadU32(b, pos + 8, true).value;
      if e > |b| then None else Some(e)
  }

  /** The whole records from a position on; a record cut off at the end is dropped. */
  function Records(b: Bytes, pos: nat): seq<Bytes>
    decreases |b| - pos
  {
    match RecordEnd(b, pos)
    case None => []
    case Some(e) => [b[pos..e]] + Records(b, e)
  }

  function Concat(r: seq<Bytes>): Bytes {
    if |r| == 0 then [] else r[0] + Concat(r[1..])
  }

  /** A record as it stands in a file. */
  predicate IsRecord(r: Bytes) { |r| >= 16 && |r| == 16 + ReadU32(r, 8, true).value }

  method Slice(data: Bytes, offset: nat) returns (out: Bytes, n: nat)
    ensures var start := if offset > HEADER then offset else HEADER;
      out == data[..Min(HEADER, |data|)] + Concat(Records(data, start)) && n == |Records(data, start)|
  {
    ghost var head := data[..Min(HEADER, |data|)];
    out, n := data[..Min(HEADER, |data|)], 0;
    var pos := if offset > HEADER then offset else HEADER;
    ghost var all, taken: seq<Bytes> := Records(data, pos), [];
    while pos + 16 <= |data|
      invariant all == taken + Records(data, pos)
      invariant out == head + Concat(taken) && n == |taken|
      decreases |data| - pos
    {
      var incl := ReadU32(data, pos + 8, true).value;
      var end := pos + 16 + incl;
      if end > |data| {
        break;
      }
      NextSliced(data, pos, end, taken);
      ConcatLast(taken, data[pos..end]);
      out := out + data[pos..end];
      taken := taken + [data[pos..end]];
      pos := end;
      n := n + 1;
    }
    assert taken + [] == taken;
  }

  lemma NextSliced(data: Bytes, pos: nat, end: nat, taken: seq<Bytes>)
    requires RecordEnd(data, pos) == Some(end)
    ensures taken + Records(data, pos) == (taken + [data[pos..end]]) + Records(data, end)
  {
    TakeOne(taken, data[pos..end], Records(data, end));
  }

  lemma TakeOne(taken: seq<Bytes>, x: Bytes, rest: seq<Bytes>)
    ensures taken + ([x] + rest) == (taken + [x]) + rest
  {
  }

  lemma {:induction false} ConcatLast(r: seq<Bytes>, x: Bytes)
    ensures Concat(r + [x]) == Concat(r) + x
  {
    if |r| == 0 {
      assert r + [x] == [x] && [x][1..] == [];
      assert Concat([]) == [];
    } else {
      ConcatLast(r[1..], x);
      assert (r + [x])[1..] == r[1..] + [x];
    }
  }

  function Min(a: nat, b: nat): nat { if a < b then a else b }

  lemma ConcatFirst(x: Bytes, rest: seq<Bytes>)
    ensures Concat([x] + rest) == x + Concat(rest)
  {
    assert ([x] + rest)[1..] == rest;
  }

  /** Some parts stand one after the other from pos to end. */
  predicate Stand(b: Bytes, pos: nat, parts: seq<Bytes>, end: nat)
    decreases |parts|
  {
    if |parts| == 0 then pos == end <= |b|
    else Stands(b, pos, parts[0]) && Stand(b, pos + |parts[0]|, parts[1..], end)
  }

  predicate Stands(b: Bytes, pos: nat, part: Bytes) { pos + |part| <= |b| && b[pos..pos + |part|] == part }

  lemma PartStands(b: Bytes, head: Bytes, x: Bytes, rest: Bytes, tail: Bytes)
    requires b == head + (x + rest) + tail
    ensures b == (head + x) + rest + tail && Stands(b, |head|, x)
  {
  }

  lemma {:induction false} PartsStand(b: Bytes, head: Bytes, parts: seq<Bytes>, tail: Bytes, pos: nat, end: nat)
    requires b == head + Concat(parts) + tail && pos == |head| && end == |head + Concat(parts)|
    ensures Stand(b, pos, parts, end)
    decreases |parts|
  {
    if |parts| > 0 {
      PartStands(b, head, parts[0], Concat(parts[1..]), tail);
      PartsStand(b, head + parts[0], parts[1..], tail, pos + |parts[0]|, end);
    }
  }

  // ----- a slice reads as the records it was cut from

  lemma ReadInside(b: Bytes, lo: nat, hi: nat, at: nat)
    requires lo <= hi <= |b| && lo + at + 4 <= hi
    ensures ReadU32(b[lo..hi], at, true) == ReadU32(b, lo + at, true)
  {
  }

  lemma RecordAtIs(b: Bytes, pos: nat)
    requires RecordEnd(b, pos).Some?
    ensures IsRecord(b[pos..RecordEnd(b, pos).value])
  {
    ReadInside(b, pos, RecordEnd(b, pos).value, 8);
  }

  predicate AllRecords(r: seq<Bytes>) { forall k :: 0 <= k < |r| ==> IsRecord(r[k]) }

  lemma {:induction false} RecordsAre(b: Bytes, pos: nat)
    ensures AllRecords(Records(b, pos))
    decreases |b| - pos
  {
    if RecordEnd(b, pos).Some? {
      RecordsAre(b, RecordEnd(b, pos).value);
      RecordAtIs(b, pos);
    }
  }

  lemma FirstRecord(head: Bytes, x: Bytes, tail: Bytes)
    requires IsRecord(x)
    ensures RecordEnd(head + x + tail, |head|) == Some(|head + x|)
    ensures Records(head + x + tail, |head|) == [x] + Records(head + x + tail, |head + x|)
  {
    var b := head + x + tail;
    assert b[|head|..|head| + |x|] == x;
    ReadInside(b, |head|, |head| + |x|, 8);
  }

  lemma MoveIn(head: Bytes, x: Bytes, rest: seq<Bytes>)
    ensures head + Concat([x] + rest) == head + x + Concat(rest)
  {
    ConcatFirst(x, rest);
  }

  lemma AllRecordsTail(r: seq<Bytes>)
    requires AllRecords(r) && |r| > 0
    ensures r == [r[0]] + r[1..] && IsRecord(r[0]) && AllRecords(r[1..])
  {
    assert forall k :: 0 <= k < |r[1..]| ==> r[1..][k] == r[k + 1];
  }

  lemma NoRecord(head: Bytes)
    ensures Records(head + [], |head|) == []
  {
  }

  /** Reading records that were written one after another gives them back. */
  lemma {:induction false} RecordsOfConcat(head: Bytes, r: seq<Bytes>)
    requires AllRecords(r)
    ensures Records(head + Concat(r), |head|) == r
    decreases |r|
  {
    if |r| == 0 {
      NoRecord(head);
    } else {
      AllRecordsTail(r);
      MoveIn(head, r[0], r[1..]);
      FirstRecord(head, r[0], Concat(r[1..]));
      RecordsOfConcat(head + r[0], r[1..]);
    }
  }

  /** Parsing a slice gives exactly the records from its offset on. */
  lemma SliceReads(data: Bytes, start: nat)
    requires HEADER <= start && HEADER <= |data|
    ensures Records(data[..HEADER] + Concat(Records(data, start)), HEADER) == Records(data, start)
  {
    RecordsAre(data, start);
    RecordsOfConcat(data[..HEADER], Records(data, start));
  }

  /** The position after k whole records. */
  function Boundary(b: Bytes, pos: nat, k: nat): nat
    requires k <= |Records(b, pos)|
    decreases k
  {
    if k == 0 then pos else Boundary(b, RecordEnd(b, pos).value, k - 1)
  }

  lemma NextRecords(b: Bytes, pos: nat)
    requires |Records(b, pos)| > 0
    ensures RecordEnd(b, pos).Some? && Records(b, pos)[1..] == Records(b, RecordEnd(b, pos).value)
  {
  }

  /** From a boundary on there are the records after it. */
  lemma {:induction false} RecordsFromBoundary(b: Bytes, pos: nat, k: nat)
    requires k <= |Records(b, pos)|
    ensures Records(b, Boundary(b, pos, k)) == Records(b, pos)[k..]
    decreases k
  {
    if k > 0 {
      NextRecords(b, pos);
      RecordsFromBoundary(b, RecordEnd(b, pos).value, k - 1);
      DropOne(Records(b, pos), k);
    }
  }

  lemma DropOne(r: seq<Bytes>, k: nat)
    requires 0 < k <= |r|
    ensures r[1..][k - 1..] == r[k..]
  {
  }

  /** The first record, and the boundaries after it. */
  lemma NextBoundary(b: Bytes, pos: nat, k: nat, e: nat)
    requires 0 < k <= |Records(b, pos)| && Some(e) == RecordEnd(b, pos)
    ensures |Records(b, e)| == |Records(b, pos)| - 1
    ensures Boundary(b, pos, k) == Boundary(b, e, k - 1)
    ensures Records(b, pos) == [b[pos..e]] + Records(b, e)
  {
  }

  lemma {:induction false} BoundaryWithin(b: Bytes, pos: nat, k: nat)
    requires pos <= |b| && k <= |Records(b, pos)|
    ensures pos <= Boundary(b, pos, k) <= |b|
    decreases k
  {
    if k > 0 {
      var e := RecordEnd(b, pos).value;
      NextBoundary(b, pos, k, e);
      BoundaryWithin(b, e, k - 1);
    }
  }

  lemma RecordInside(b: Bytes, pos: nat, m: nat)
    requires RecordEnd(b, pos).Some? && RecordEnd(b, pos).value <= m <= |b|
    ensures RecordEnd(b[..m], pos) == RecordEnd(b, pos)
    ensures b[..m][pos..RecordEnd(b, pos).value] == b[pos..RecordEnd(b, pos).value]
  {
    ReadInside(b, 0, m, pos + 8);
    assert b[0..m] == b[..m];
  }

  /** The data cut at a boundary holds the records before it. */
  lemma {:induction false} RecordsBefore(b: Bytes, pos: nat, k: nat, m: nat)
    requires pos <= |b| && k <= |Records(b, pos)| && m == Boundary(b, pos, k)
    ensures m <= |b| && Records(b[..m], pos) == Records(b, pos)[..k]
    decreases k
  {
    BoundaryWithin(b, pos, k);
    if k > 0 {
      var e := RecordEnd(b, pos).value;
      NextBoundary(b, pos, k, e);
      BoundaryWithin(b, e, k - 1);
      RecordInside(b, pos, m);
      RecordsBefore(b, e, k - 1, m);
      TakeFirst(b[pos..e], Records(b, e), k);
    }
  }

  lemma TakeFirst(x: Bytes, rest: seq<Bytes>, k: nat)
    requires 0 < k <= |rest| + 1
    ensures ([x] + rest)[..k] == [x] + rest[..k - 1]
  {
  }

  lemma NextPlace(b: Bytes, pos: nat, k: nat, e: nat)
    requires 0 < k <= |Records(b, pos)| && Some(e) == RecordEnd(b, pos)
    ensures |Records(b, e)| == |Records(b, pos)| - 1 && Boundary(b, pos, k) == Boundary(b, e, k - 1)
  {
    NextBoundary(b, pos, k, e);
  }

  lemma {:induction false} BoundaryOn(b: Bytes, pos: nat, j: nat, k: nat, p: nat)
    requires j <= k <= |Records(b, pos)| && p == Boundary(b, pos, j)
    ensures k - j <= |Records(b, p)| && Boundary(b, p, k - j) == Boundary(b, pos, k)
    decreases j
  {
    if j > 0 {
      var e := RecordEnd(b, pos).value;
      NextPlace(b, pos, j, e);
      NextPlace(b, pos, k, e);
      assert k - 1 <= |Records(b, e)| && p == Boundary(b, e, j - 1);
      BoundaryOn(b, e, j - 1, k - 1, p);
    }
  }

  /** Between two boundaries there are exactly the records between them: slices partition the recording. */
  lemma RecordsBetween(b: Bytes, pos: nat, j: nat, k: nat)
    requires pos <= |b| && j <= k <= |Records(b, pos)|
    ensures Boundary(b, pos, k) <= |b|
    ensures Records(b[..Boundary(b, pos, k)], Boundary(b, pos, j)) == Records(b, pos)[j..k]
  {
    RecordsFromBoundary(b, pos, j);
    BoundaryWithin(b, pos, j);
    BoundaryOn(b, pos, j, k, Boundary(b, pos, j));
    RecordsBefore(b, Boundary(b, pos, j), k - j, Boundary(b, pos, k));
    assert Records(b, pos)[j..][..k - j] == Records(b, pos)[j..k];
  }

  // ----- the reader that bounds a record's length

  /** 64 MiB: a longer record is taken for a damaged length. */
  const LIMIT: nat := 0x0400_0000

  function Data(r: Bytes): Bytes { if |r| >= 16 then r[16..] else [] }

  /** The packets the reader yields, the octets after each record header. */
  function Packets(b: Bytes, pos: nat): seq<Bytes>
    decreases |b| - pos
  {
    match RecordEnd(b, pos)
    case None => []
    case Some(e) => if e - pos - 16 > LIMIT then [] else [b[pos + 16..e]] + Packets(b, e)
  }

  /** A file shorter than its header raises. */
  method ReadPackets(b: Bytes) returns (r: Result<seq<Bytes>>)
    ensures r == if |b| < HEADER then Raises else Ok(Packets(b, HEADER))
  {
    if |b| < HEADER {
      return Raises;
    }
    var out: seq<Bytes> := [];
    var pos := HEADER;
    while true
      invariant HEADER <= pos <= |b| && out + Packets(b, pos) == Packets(b, HEADER)
      decreases |b| - pos
    {
      assert out + [] == out;
      if |b| - pos < 16 {
        return Ok(out);
      }
      var incl := ReadU32(b, pos + 8, true).value;
      if incl > LIMIT {
        return Ok(out);
      }
      if |b| - (pos + 16) < incl {
        return Ok(out);
      }
      NextPacket(b, pos, pos + 16 + incl, out);
      out := out + [b[pos + 16..pos + 16 + incl]];
      pos := pos + 16 + incl;
    }
  }

  lemma NextPacket(b: Bytes, pos: nat, e: nat, out: seq<Bytes>)
    requires RecordEnd(b, pos) == Some(e) && e - pos - 16 <= LIMIT
    ensures out + Packets(b, pos) == (out + [b[pos + 16..e]]) + Packets(b, e)
  {
    assert Packets(b, pos) == [b[pos + 16..e]] + Packets(b, e);
  }

  function Payloads(r: seq<Bytes>): (p: seq<Bytes>)
    ensures |p| == |r|
  {
    seq(|r|, k requires 0 <= k < |r| => Data(r[k]))
  }

  predicate AllWithin(r: seq<Bytes>) { forall k :: 0 <= k < |r| ==> |r[k]| <= 16 + LIMIT }

  lemma FirstOf(x: Bytes, rest: seq<Bytes>)
    ensures Payloads([x] + rest) == [Data(x)] + Payloads(rest)
    ensures AllWithin([x] + rest) <==> |x| <= 16 + LIMIT && AllWithin(rest)
  {
    var r := [x] + rest;
    assert r[0] == x;
    assert forall k :: 0 <= k < |rest| ==> rest[k] == r[k + 1];
    assert forall k :: 0 < k < |r| ==> r[k] == rest[k - 1];
  }

  /** The reader yields the slicer's records as far as no record is over the limit, and all of them exactly then. */
  lemma {:induction false} ReaderAgrees(b: Bytes, pos: nat)
    ensures Packets(b, pos) == Payloads(Records(b, pos)) <==> AllWithin(Records(b, pos))
    ensures Packets(b, pos) <= Payloads(Records(b, pos))
    decreases |b| - pos
  {
    if RecordEnd(b, pos).Some? {
      var e := RecordEnd(b, pos).value;
      ReaderAgrees(b, e);
      FirstOf(b[pos..e], Records(b, e));
      assert Data(b[pos..e]) == b[pos + 16..e];
      Prefixed(b[pos + 16..e], Packets(b, e), Payloads(Records(b, e)));
    }
  }

  lemma Prefixed(x: Bytes, s: seq<Bytes>, t: seq<Bytes>)
    ensures [x] + s == [x] + t <==> s == t
    ensures s <= t ==> [x] + s <= [x] + t
  {
    assert ([x] + s)[1..] == s && ([x] + t)[1..] == t;
  }
}
