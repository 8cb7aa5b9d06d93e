/** pcapng captures: the walk over the blocks, and datagrams written as blocks
    and read back. */
module Pcapng {

  import opened Pcap
  import opened Wrappers
  import opened Replay

  const SECTION: nat := 0x0a0d0d0a

  /** What the walk carries from block to block: the byte order and the link types of the interfaces. */
  datatype State = State(le: bool, links: seq<nat>)

  function OrZero(v: Option<nat>): nat { if v.Some? then v.value else 0 }

  /** A section header sets the byte order and forgets the interfaces. */
  function Section(b: Bytes, pos: nat, s: State): State {
    if ReadU32(b, pos, true) == Some(SECTION) then State(ReadU32(b, pos + 8, true) == Some(0x1a2b3c4d), []) else s
  }

  /** The interfaces after a block. */
  function Interfaces(kind: nat, body: Bytes, s: State): State {
    if kind == 1 then State(s.le, s.links + [OrZero(ReadU16(body, 0, s.le))]) else s
  }

  /** The frame of an enhanced or a simple packet block. */
  function PacketOf(kind: nat, body: Bytes, s: State): Option<Frame> {
    if kind == 6 then
      var iface, cap := OrZero(ReadU32(body, 0, s.le)), OrZero(ReadU32(body, 12, s.le));
      var data := Get(body, 20, 20 + cap);
      if data.Some? && iface < |s.links| then Some(Frame(s.links[iface], data.value)) else None
    else if kind == 3 then
      var data := Get(body, 4, |body|);
      if data.Some? && |s.links| > 0 then Some(Frame(s.links[0], data.value)) else None
    else None
  }

  /** One block, whose length field must cover it and stay in the file, and the state after it. */
  function BlockStep(b: Bytes, pos: nat, s0: State): (r: (Step, State))
    ensures r.0.Go? ==> pos < r.0.next <= |b|
  {
    if pos + 12 > |b| then (Done, s0)
    else
      var s := Section(b, pos, s0);
      var len := ReadU32(b, pos + 4, s.le).value;
      if len < 12 || pos + len > |b| then (Fail(pos), s)
      else
        var body, kind := b[pos + 8..pos + len - 4], ReadU32(b, pos, s.le).value;
        (Go(PacketOf(kind, body, s), pos + len), Interfaces(kind, body, s))
  }

  /** The frames of the blocks from a position on. */
  function Blocks(b: Bytes, pos: nat, s: State): Reading<seq<Frame>>
    decreases |b| - pos
  {
    var (step, t) := BlockStep(b, pos, s);
    match step
    case Done => Read([])
    case Fail(at) => Truncated(at)
    case Go(frame, next) => Add(frame, Blocks(b, next, t))
  }

  const START := State(true, [])

  function Walk(b: Bytes): Reading<seq<Bytes>> { UdpIn(Blocks(b, 0, START)) }

  method WalkLoop(b: Bytes) returns (r: Reading<seq<Bytes>>)
    ensures r == Walk(b)
  {
    var out: seq<Bytes> := [];
    ghost var taken: seq<Frame> := [];
    var s := START;
    var pos := 0;
    PrependNone(Blocks(b, 0, s));
    while true
      invariant out == PayloadsIn(taken) && Prepend(taken, Blocks(b, pos, s)) == Blocks(b, 0, START)
      decreases |b| - pos
    {
      var (step, t) := BlockStep(b, pos, s);
      match step {
        case Done =>
          PrependEmpty(taken);
          return Read(out);
        case Fail(at) =>
          return Truncated(at);
        case Go(frame, next) =>
          if frame.Some? {
            PrependAdd(taken, frame.value, Blocks(b, next, t));
            PayloadsLast(taken, frame.value);
            var payload := UdpPayload(frame.value.link, frame.value.octets);
            if payload.Some? {
              out := out + [payload.value];
            }
            taken := taken + [frame.value];
          }
          s, pos := t, next;
      }
    }
  }

  // ----- writing blocks

  function Padding(n: nat): (z: Bytes)
    ensures (n + |z|) % 4 == 0 && |z| < 4
  {
    if n % 4 == 0 then [] else if n % 4 == 1 then [0, 0, 0] else if n % 4 == 2 then [0, 0] else [0]
  }

  function Padded(body: Bytes): Bytes { body + Padding(|body|) }

  /** A block around a padded body. */
  function BlockOf(kind: nat, padded: Bytes, le: bool): (b: Bytes)
    ensures |b| == 12 + |padded|
  {
    Num(kind, le) + Num(12 + |padded|, le) + padded + Num(12 + |padded|, le)
  }

  /** What a capture can hold: a section in its byte order, an interface with its link type, a frame on an interface, a
      frame on the first interface, and blocks of other kinds. */
  datatype Item =
    | SectionStart(le: bool)
    | Interface(link: nat)
    | Enhanced(iface: nat, frame: Bytes)
    | Simple(frame: Bytes)
    | Unknown(kind: nat, body: Bytes)

  predicate IsWord(v: nat) { v < 0x1_0000_0000 }

  /** The item can be written: its numbers fit their fields. */
  predicate Writable(i: Item) {
    match i
    case SectionStart(_) => true
    case Interface(link) => link < 0x1_0000
    case Enhanced(iface, frame) => IsWord(iface) && IsWord(|frame| + 64)
    case Simple(frame) => IsWord(|frame| + 64)
    case Unknown(kind, body) => IsWord(kind) && IsWord(|body| + 64) && kind !in {1, 3, 6, SECTION}
  }

  function Half(v: nat, le: bool): (b: Bytes)
    requires v < 0x1_0000
    ensures |b| == 2
  {
    if le then [v % 256, v / 256] else [v / 256, v % 256]
  }

  function SectionBody(le: bool): (b: Bytes)
    ensures |b| == 16
  {
    Num(0x1a2b3c4d, le) + Half(1, le) + [0, 0] + [255, 255, 255, 255, 255, 255, 255, 255]
  }

  function KindOf(i: Item): nat {
    match i
    case SectionStart(_) => SECTION
    case Interface(_) => 1
    case Enhanced(_, _) => 6
    case Simple(_) => 3
    case Unknown(kind, _) => kind
  }

  /** The body of the item's block, padded. */
  function BodyOf(i: Item, le: bool): Bytes
    requires Writable(i)
  {
    match i
    case SectionStart(order) => SectionBody(order)
    case Interface(link) => Half(link, le) + [0, 0] + [0, 0, 0, 0]
    case Enhanced(iface, frame) =>
      Padded(Num(iface, le) + Num(0, le) + Num(0, le) + Num(|frame|, le) + Num(|frame|, le) + frame)
    case Simple(frame) => Padded(Num(|frame|, le) + frame)
    case Unknown(_, body) => Padded(body)
  }

  /** The byte order an item is written in: a section begins its own. */
  function OrderOf(i: Item, le: bool): bool { if i.SectionStart? then i.le else le }

  function WrittenItem(i: Item, le: bool): Bytes
    requires Writable(i)
  {
    BlockOf(KindOf(i), BodyOf(i, OrderOf(i, le)), OrderOf(i, le))
  }

  predicate AllWritable(items: seq<Item>) { forall k :: 0 <= k < |items| ==> Writable(items[k]) }

  /** The blocks of some items. */
  function WrittenItems(items: seq<Item>, le: bool): seq<Bytes>
    requires AllWritable(items)
  {
    if |items| == 0 then []
    else [WrittenItem(items[0], le)] + WrittenItems(items[1..], OrderOf(items[0], le))
  }

  /** A capture of some items. */
  function Capture(items: seq<Item>): Bytes
    requires AllWritable(items)
  {
    Concat(WrittenItems(items, true))
  }

  // ----- what they mean

  /** The byte order and the interfaces after an item. */
  function After(i: Item, s: State): State {
    match i
    case SectionStart(le) => State(le, [])
    case Interface(link) => State(s.le, s.links + [link])
    case _ => s
  }

  function StateAfter(items: seq<Item>, s: State): State {
    if |items| == 0 then s else StateAfter(items[1..], After(items[0], s))
  }

  /** The frame of an item on its interface, the padding of a simple packet included. */
  function FrameOf(i: Item, s: State): Option<Frame> {
    match i
    case Enhanced(iface, frame) => if iface < |s.links| then Some(Frame(s.links[iface], frame)) else None
    case Simple(frame) => if s.links != [] then Some(Frame(s.links[0], frame + Padding(4 + |frame|))) else None
    case _ => None
  }

  function Meant(items: seq<Item>, s: State): seq<Frame> {
    if |items| == 0 then []
    else
      var rest := Meant(items[1..], After(items[0], s));
      match FrameOf(items[0], s)
      case Some(f) => [f] + rest
      case None => rest
  }

  // ----- reading them back

  /** The section's kind reads the same in both orders, and no other number reads as it. */
  lemma Palindrome(b: Bytes, at: nat, le: bool)
    requires at + 4 <= |b|
    ensures ReadU32(b, at, true) == Some(SECTION) <==> ReadU32(b, at, le) == Some(SECTION)
  {
    OnlySection(b[at], b[at + 1], b[at + 2], b[at + 3]);
    OnlySection(b[at + 3], b[at + 2], b[at + 1], b[at]);
  }

  lemma OnlySection(a: Octet, b: Octet, c: Octet, d: Octet)
    ensures Value(a, b, c, d) == SECTION <==> a == 0x0a && b == 0x0d && c == 0x0d && d == 0x0a
  {
    var x := c + 256 * d;
    var y := b + 256 * x;
    assert Value(a, b, c, d) == a + 256 * y;
  }

  /** A block of known fields stands at a position. */
  predicate BlockAt(b: Bytes, pos: nat, kind: nat, padded: Bytes, le: bool) {
    && IsWord(kind) && IsWord(12 + |padded|) && pos + 12 + |padded| <= |b|
    && b[pos..pos + 4] == Num(kind, le) && b[pos + 4..pos + 8] == Num(12 + |padded|, le)
    && b[pos + 8..pos + 8 + |padded|] == padded
  }

  lemma BlockParts(block: Bytes, kind: Bytes, n: Bytes, padded: Bytes)
    requires |kind| == 4 && |n| == 4 && block == kind + n + padded + n
    ensures |block| == 12 + |padded|
    ensures block[0..4] == kind && block[4..8] == n && block[8..8 + |padded|] == padded
  {
  }

  lemma BlockThere(b: Bytes, pos: nat, kind: nat, padded: Bytes, le: bool, block: Bytes)
    requires IsWord(kind) && IsWord(12 + |padded|) && block == BlockOf(kind, padded, le) && Stands(b, pos, block)
    ensures BlockAt(b, pos, kind, padded, le)
  {
    BlockPieces(b, pos, block, Num(kind, le), Num(12 + |padded|, le), padded);
  }

  lemma BlockPieces(b: Bytes, pos: nat, block: Bytes, kind: Bytes, n: Bytes, padded: Bytes)
    requires |kind| == 4 && |n| == 4 && block == kind + n + padded + n && Stands(b, pos, block)
    ensures pos + 12 + |padded| <= |b| && b[pos..pos + 4] == kind && b[pos + 4..pos + 8] == n
    ensures b[pos + 8..pos + 8 + |padded|] == padded
  {
    BlockParts(block, kind, n, padded);
    SliceOfSlice(b, pos, pos + |block|, 0, 4);
    SliceOfSlice(b, pos, pos + |block|, 4, 8);
    SliceOfSlice(b, pos, pos + |block|, 8, 8 + |padded|);
  }

  lemma StepOfNumbers(b: Bytes, pos: nat, kind: nat, n: nat, s: State, t: State, next: nat, body: Bytes)
    requires pos + 12 <= |b| && t == Section(b, pos, s)
    requires ReadU32(b, pos, t.le) == Some(kind) && ReadU32(b, pos + 4, t.le) == Some(n)
    requires 12 <= n && next == pos + n <= |b| && body == b[pos + 8..next - 4]
    ensures BlockStep(b, pos, s) == (Go(PacketOf(kind, body, t), next), Interfaces(kind, body, t))
  {
  }

  /** What the walk finds at a block, in the state its section gives. */
  lemma ReadsBlock(b: Bytes, pos: nat, kind: nat, padded: Bytes, s: State, t: State, frame: Option<Frame>, u: State,
                   next: nat)
    requires BlockAt(b, pos, kind, padded, t.le) && t == Section(b, pos, s) && next == pos + 12 + |padded|
    requires frame == PacketOf(kind, padded, t) && u == Interfaces(kind, padded, t)
    ensures Blocks(b, pos, s) == Add(frame, Blocks(b, next, u))
  {
    ReadNum(kind, b, pos, t.le);
    ReadNum(12 + |padded|, b, pos + 4, t.le);
    StepOfNumbers(b, pos, kind, 12 + |padded|, s, t, next, padded);
    BlocksStep(b, pos, s, frame, next, u);
  }

  lemma BlocksStep(b: Bytes, pos: nat, s: State, frame: Option<Frame>, next: nat, u: State)
    requires BlockStep(b, pos, s) == (Go(frame, next), u)
    ensures Blocks(b, pos, s) == Add(frame, Blocks(b, next, u))
  {
  }

  /** A block that begins no section leaves byte order and interfaces to the walk. */
  lemma NoSection(b: Bytes, pos: nat, kind: nat, padded: Bytes, s: State)
    requires BlockAt(b, pos, kind, padded, s.le) && kind != SECTION
    ensures Section(b, pos, s) == s
  {
    ReadNum(kind, b, pos, s.le);
    Palindrome(b, pos, s.le);
  }

  /** A section header sets the byte order it is written in. */
  lemma BeginsSection(b: Bytes, pos: nat, s: State, le: bool)
    requires BlockAt(b, pos, SECTION, SectionBody(le), le)
    ensures Section(b, pos, s) == State(le, [])
  {
    ReadNum(SECTION, b, pos, le);
    Palindrome(b, pos, le);
    assert b[pos + 8..pos + 12] == b[pos + 8..pos + 24][..4] == SectionBody(le)[..4] == Num(0x1a2b3c4d, le);
    ReadNum(0x1a2b3c4d, b, pos + 8, le);
    if !le {
      Backwards(b, pos + 8, 0x1a2b3c4d);
    }
  }

  /** Read in the other order the byte-order magic is another number. */
  lemma Backwards(b: Bytes, at: nat, v: nat)
    requires at + 4 <= |b| && ReadU32(b, at, false) == Some(v) && v == 0x1a2b3c4d
    ensures ReadU32(b, at, true) != Some(v)
  {
    var x: nat, y: nat := b[at], b[at + 3];
    assert Value(b[at + 3], b[at + 2], b[at + 1], b[at]) % 256 == y;
    assert y == 0x4d;
    assert Value(b[at], b[at + 1], b[at + 2], b[at + 3]) == x + 256 * (b[at + 1] + 256 * (b[at + 2] + 256 * y));
  }

  lemma ReadHalf(v: nat, b: Bytes, le: bool)
    requires v < 0x1_0000 && |b| >= 2 && b[..2] == Half(v, le)
    ensures ReadU16(b, 0, le) == Some(v)
  {
    assert b[0] == b[..2][0] && b[1] == b[..2][1];
    assert v == v % 256 + 256 * (v / 256);
  }

  lemma EnhancedParts(iface: nat, frame: Bytes, le: bool, z: Bytes)
    ensures
      var body := Num(iface, le) + Num(0, le) + Num(0, le) + Num(|frame|, le) + Num(|frame|, le) + frame + z;
      && body[0..4] == Num(iface, le) && body[12..16] == Num(|frame|, le) && body[20..20 + |frame|] == frame
  {
  }

  lemma SimpleParts(n: Bytes, frame: Bytes, z: Bytes)
    requires |n| == 4
    ensures (n + frame + z)[4..] == frame + z
  {
  }

  lemma EnhancedRead(iface: nat, frame: Bytes, s: State)
    requires Writable(Enhanced(iface, frame))
    ensures PacketOf(6, BodyOf(Enhanced(iface, frame), s.le), s) == FrameOf(Enhanced(iface, frame), s)
    ensures |BodyOf(Enhanced(iface, frame), s.le)| < |frame| + 24
  {
    var body := BodyOf(Enhanced(iface, frame), s.le);
    EnhancedParts(iface, frame, s.le, Padding(20 + |frame|));
    ReadNum(iface, body, 0, s.le);
    ReadNum(|frame|, body, 12, s.le);
    assert body[20..20 + |frame|] == frame;
    EnhancedOf(body, iface, frame, s);
  }

  lemma EnhancedOf(body: Bytes, iface: nat, frame: Bytes, s: State)
    requires ReadU32(body, 0, s.le) == Some(iface) && ReadU32(body, 12, s.le) == Some(|frame|)
    requires |body| >= 20 + |frame| && body[20..20 + |frame|] == frame
    ensures PacketOf(6, body, s) == if iface < |s.links| then Some(Frame(s.links[iface], frame)) else None
  {
  }

  lemma SimpleRead(frame: Bytes, s: State)
    requires Writable(Simple(frame))
    ensures PacketOf(3, BodyOf(Simple(frame), s.le), s) == FrameOf(Simple(frame), s)
    ensures |BodyOf(Simple(frame), s.le)| < |frame| + 8
  {
    var body := BodyOf(Simple(frame), s.le);
    SimpleParts(Num(|frame|, s.le), frame, Padding(4 + |frame|));
    assert body[4..|body|] == frame + Padding(4 + |frame|);
  }

  lemma InterfaceRead(link: nat, s: State)
    requires link < 0x1_0000
    ensures Interfaces(1, BodyOf(Interface(link), s.le), s) == State(s.le, s.links + [link])
  {
    var body := BodyOf(Interface(link), s.le);
    assert body[..2] == Half(link, s.le);
    ReadHalf(link, body, s.le);
  }

  /** The body of an item's block is understood as the item. */
  lemma Understood(i: Item, s: State)
    requires Writable(i) && !i.SectionStart?
    ensures PacketOf(KindOf(i), BodyOf(i, s.le), s) == FrameOf(i, s)
    ensures Interfaces(KindOf(i), BodyOf(i, s.le), s) == After(i, s)
    ensures |BodyOf(i, s.le)| < 0x1_0000_0000 - 12
  {
    match i
    case Interface(link) => InterfaceRead(link, s);
    case Enhanced(iface, frame) => EnhancedRead(iface, frame, s);
    case Simple(frame) => SimpleRead(frame, s);
    case Unknown(_, _) =>
  }

  /** A section at its place. */
  lemma SectionItem(b: Bytes, pos: nat, le: bool, s: State, next: nat)
    requires BlockAt(b, pos, SECTION, SectionBody(le), le) && next == pos + 28
    ensures Blocks(b, pos, s) == Add(None, Blocks(b, next, State(le, [])))
  {
    var t := State(le, []);
    BeginsSection(b, pos, s, le);
    ReadsBlock(b, pos, SECTION, SectionBody(le), s, t, None, t, next);
  }

  /** Any other block at its place. */
  lemma OtherItem(b: Bytes, pos: nat, kind: nat, body: Bytes, s: State, frame: Option<Frame>, t: State, next: nat)
    requires BlockAt(b, pos, kind, body, s.le) && kind != SECTION && next == pos + 12 + |body|
    requires PacketOf(kind, body, s) == frame && Interfaces(kind, body, s) == t
    ensures Blocks(b, pos, s) == Add(frame, Blocks(b, next, t))
  {
    NoSection(b, pos, kind, body, s);
    ReadsBlock(b, pos, kind, body, s, s, frame, t, next);
  }

  lemma ShortBody(i: Item, le: bool)
    requires Writable(i)
    ensures IsWord(KindOf(i)) && IsWord(12 + |BodyOf(i, le)|)
  {
  }

  lemma ItemThere(b: Bytes, pos: nat, i: Item, le: bool, body: Bytes, order: bool)
    requires Writable(i) && Stands(b, pos, WrittenItem(i, le)) && order == OrderOf(i, le) && body == BodyOf(i, order)
    ensures BlockAt(b, pos, KindOf(i), body, order) && |WrittenItem(i, le)| == 12 + |body|
  {
    ShortBody(i, order);
    BlockThere(b, pos, KindOf(i), body, order, WrittenItem(i, le));
  }

  /** One item at its place: its frame, and the walk goes on behind it in the state after it. */
  lemma ReadsItem(b: Bytes, pos: nat, i: Item, s: State, frame: Option<Frame>, t: State, next: nat)
    requires Writable(i) && Stands(b, pos, WrittenItem(i, s.le)) && next == pos + |WrittenItem(i, s.le)|
    requires frame == FrameOf(i, s) && t == After(i, s)
    ensures Blocks(b, pos, s) == Add(frame, Blocks(b, next, t))
  {
    ItemThere(b, pos, i, s.le, BodyOf(i, OrderOf(i, s.le)), OrderOf(i, s.le));
    if i.SectionStart? {
      SectionItem(b, pos, i.le, s, next);
    } else {
      Understood(i, s);
      OtherItem(b, pos, KindOf(i), BodyOf(i, s.le), s, frame, t, next);
    }
  }

  lemma ItemsNext(b: Bytes, pos: nat, items: seq<Item>, rest: seq<Item>, next: nat, le: bool, order: bool, end: nat)
    requires AllWritable(items) && |items| > 0 && Stand(b, pos, WrittenItems(items, le), end)
    requires rest == items[1..] && next == pos + |WrittenItem(items[0], le)| && order == OrderOf(items[0], le)
    ensures Stands(b, pos, WrittenItem(items[0], le)) && AllWritable(rest)
    ensures Stand(b, next, WrittenItems(rest, order), end)
  {
    assert WrittenItems(items, le)[1..] == WrittenItems(rest, order);
  }

  lemma MeantNext(items: seq<Item>, rest: seq<Item>, s: State, t: State, last: Reading<seq<Frame>>,
                  next: Reading<seq<Frame>>, all: Reading<seq<Frame>>)
    requires |items| > 0 && rest == items[1..] && t == After(items[0], s)
    requires next == Prepend(Meant(rest, t), last) && all == Add(FrameOf(items[0], s), next)
    ensures all == Prepend(Meant(items, s), last)
  {
    match FrameOf(items[0], s)
    case Some(f) => PrependFirst(f, Meant(rest, t), last);
    case None =>
  }

  /** Items that stand in a file are read as they are meant, and then whatever the rest of the file gives. */
  lemma {:induction false} ReadsItems(b: Bytes, pos: nat, items: seq<Item>, s: State, end: nat, last: State)
    requires AllWritable(items) && Stand(b, pos, WrittenItems(items, s.le), end) && last == StateAfter(items, s)
    ensures Blocks(b, pos, s) == Prepend(Meant(items, s), Blocks(b, end, last))
    decreases |items|
  {
    if |items| == 0 {
      PrependNone(Blocks(b, pos, s));
    } else {
      var rest, next, t := items[1..], pos + |WrittenItem(items[0], s.le)|, After(items[0], s);
      ItemsNext(b, pos, items, rest, next, s.le, t.le, end);
      ReadsItem(b, pos, items[0], s, FrameOf(items[0], s), t, next);
      ReadsItems(b, next, rest, t, end, last);
      MeantNext(items, rest, s, t, Blocks(b, end, last), Blocks(b, next, t), Blocks(b, pos, s));
    }
  }

  /** Behind the items: too little for a block ends the walk, a block that is cut off is an error. */
  predicate CutOff(tail: Bytes, le: bool) {
    && |tail| >= 12 && ReadU32(tail, 0, true) != Some(SECTION)
    && (ReadU32(tail, 4, le).value < 12 || ReadU32(tail, 4, le).value > |tail|)
  }

  lemma ReadsTail(b: Bytes, pos: nat, tail: Bytes, s: State)
    requires pos <= |b| && b[pos..] == tail
    ensures |tail| < 12 ==> Blocks(b, pos, s) == Read([])
    ensures CutOff(tail, s.le) ==> Blocks(b, pos, s) == Truncated(pos)
  {
    if |tail| >= 12 {
      assert forall k :: 0 <= k < |tail| ==> tail[k] == b[pos + k];
      assert ReadU32(b, pos, true) == ReadU32(tail, 0, true);
      assert ReadU32(b, pos + 4, s.le) == ReadU32(tail, 4, s.le);
    }
  }

  /** A written capture is read as it was meant: payloads in order, whatever sections, byte orders, interfaces and other
      blocks it holds; with a cut-off block behind them it is an error at that block. */
  lemma PcapngReads(items: seq<Item>, tail: Bytes)
    requires AllWritable(items) && (|tail| < 12 || CutOff(tail, StateAfter(items, START).le))
    ensures
      var b := Capture(items);
      Walk(b + tail) == if |tail| < 12 then Read(PayloadsIn(Meant(items, START))) else Truncated(|b|)
  {
    CaptureReads(Capture(items) + tail, items, tail, |Capture(items)|, StateAfter(items, START));
  }

  lemma CaptureStands(b: Bytes, parts: seq<Bytes>, tail: Bytes, end: nat)
    requires b == Concat(parts) + tail && end == |Concat(parts)|
    ensures Stand(b, 0, parts, end) && b[end..] == tail
  {
    assert [] + Concat(parts) == Concat(parts);
    PartsStand(b, [], parts, tail, 0, end);
  }

  lemma CaptureReads(b: Bytes, items: seq<Item>, tail: Bytes, end: nat, last: State)
    requires AllWritable(items) && b == Capture(items) + tail && end == |Capture(items)|
    requires last == StateAfter(items, START) && (|tail| < 12 || CutOff(tail, last.le))
    ensures Blocks(b, 0, START) == if |tail| < 12 then Read(Meant(items, START)) else Truncated(end)
  {
    CaptureStands(b, WrittenItems(items, true), tail, end);
    ReadsItems(b, 0, items, START, end, last);
    ReadsTail(b, end, tail, last);
    PrependEmpty(Meant(items, START));
  }

  // ----- datagrams

  function Ethernet(p: Bytes): (f: Bytes)
    requires Fits(p)
    ensures |f| == 42 + |p|
  {
    [0, 0, 0, 0, 0, 0, 0, 0, 0, 0, 0, 0] + [8, 0] + Ipv4Udp(p)
  }

  /** The datagrams on one Ethernet interface. */
  function Packets(ds: seq<Bytes>): (items: seq<Item>)
    requires AllFit(ds)
    ensures |items| == |ds|
  {
    seq(|ds|, k requires 0 <= k < |ds| => Enhanced(0, Ethernet(ds[k])))
  }

  function PcapngItems(ds: seq<Bytes>, le: bool): seq<Item>
    requires AllFit(ds)
  {
    [SectionStart(le), Interface(1)] + Packets(ds)
  }

  function PcapngCapture(ds: seq<Bytes>, le: bool): Bytes
    requires AllFit(ds)
  {
    ItemsWritable(ds, le);
    Capture(PcapngItems(ds, le))
  }

  lemma ItemsWritable(ds: seq<Bytes>, le: bool)
    requires AllFit(ds)
    ensures AllWritable(PcapngItems(ds, le))
  {
    var items := PcapngItems(ds, le);
    assert forall k :: 0 <= k < |ds| ==> Writable(Packets(ds)[k]);
    assert forall k :: 2 <= k < |items| ==> items[k] == Packets(ds)[k - 2];
  }

  /** The frames of the datagrams. */
  function Frames(ds: seq<Bytes>): (f: seq<Frame>)
    requires AllFit(ds)
    ensures |f| == |ds|
  {
    seq(|ds|, k requires 0 <= k < |ds| => Frame(1, Ethernet(ds[k])))
  }

  lemma AllFitTail(ds: seq<Bytes>)
    requires AllFit(ds) && |ds| > 0
    ensures Fits(ds[0]) && AllFit(ds[1..]) && ds == [ds[0]] + ds[1..]
  {
    assert forall k :: 0 <= k < |ds[1..]| ==> ds[1..][k] == ds[k + 1];
  }

  lemma {:induction false} PacketsMeant(ds: seq<Bytes>, le: bool)
    requires AllFit(ds)
    ensures Meant(Packets(ds), State(le, [1])) == Frames(ds)
  {
    if |ds| > 0 {
      AllFitTail(ds);
      assert Packets(ds)[1..] == Packets(ds[1..]);
      PacketsMeant(ds[1..], le);
      assert Frames(ds) == [Frame(1, Ethernet(ds[0]))] + Frames(ds[1..]);
    }
  }

  lemma FramesRead(ds: seq<Bytes>)
    requires AllFit(ds)
    ensures PayloadsIn(Frames(ds)) == ds
  {
    forall k | 0 <= k < |ds| ensures Carries(Frames(ds)[k], ds[k]) {
      LinkLayers(Ipv4Udp(ds[k]), [0, 0, 0, 0, 0, 0, 0, 0, 0, 0, 0, 0]);
      UdpOfDatagram(ds[k]);
    }
    DatagramsRead(ds, Frames(ds));
  }

  lemma MeantFirst(i: Item, rest: seq<Item>, s: State)
    requires FrameOf(i, s) == None
    ensures Meant([i] + rest, s) == Meant(rest, After(i, s))
  {
    assert ([i] + rest)[1..] == rest;
  }

  lemma ItemsMeant(ds: seq<Bytes>, le: bool)
    requires AllFit(ds)
    ensures Meant(PcapngItems(ds, le), START) == Frames(ds)
  {
    var rest := [Interface(1)] + Packets(ds);
    assert PcapngItems(ds, le) == [SectionStart(le)] + rest;
    MeantFirst(SectionStart(le), rest, START);
    MeantFirst(Interface(1), Packets(ds), State(le, []));
    assert [] + [1] == [1];
    PacketsMeant(ds, le);
  }

  /** Datagrams written as a pcapng capture come back in order. */
  lemma PcapngRoundTrip(ds: seq<Bytes>, le: bool)
    requires AllFit(ds)
    ensures Walk(PcapngCapture(ds, le)) == Read(ds)
  {
    ItemsWritable(ds, le);
    ItemsMeant(ds, le);
    FramesRead(ds);
    PcapngReads(PcapngItems(ds, le), []);
    var b := PcapngCapture(ds, le);
    assert b + [] == b;
  }

  // ----- either format

  /** The dispatch on the first four octets, read as a little-endian number. */
  function UdpPayloads(b: Bytes): Reading<seq<Bytes>> {
    match ReadU32(b, 0, true)
    case None => Truncated(0)
    case Some(magic) =>
      if magic == 0xa1b2c3d4 || magic == 0xa1b23c4d then Classic(b, true)
      else if magic == 0xd4c3b2a1 || magic == 0x4d3cb2a1 then Classic(b, false)
      else if magic == SECTION then Walk(b)
      else NotACapture(magic)
  }

  /** The four magic numbers of classic files, and that of a section. */
  lemma Dispatches(b: Bytes)
    requires |b| >= 4
    ensures b[..4] == [0xd4, 0xc3, 0xb2, 0xa1] || b[..4] == [0x4d, 0x3c, 0xb2, 0xa1] ==>
      UdpPayloads(b) == Classic(b, true)
    ensures b[..4] == [0xa1, 0xb2, 0xc3, 0xd4] || b[..4] == [0xa1, 0xb2, 0x3c, 0x4d] ==>
      UdpPayloads(b) == Classic(b, false)
    ensures b[..4] == [0x0a, 0x0d, 0x0d, 0x0a] ==> UdpPayloads(b) == Walk(b)
  {
    assert b[..4][0] == b[0] && b[..4][1] == b[1] && b[..4][2] == b[2] && b[..4][3] == b[3];
  }

  lemma Magics(v: nat, le: bool, first: Bytes)
    requires first == Num(v, le)
    ensures v == 0xa1b2c3d4 ==> first == if le then [0xd4, 0xc3, 0xb2, 0xa1] else [0xa1, 0xb2, 0xc3, 0xd4]
    ensures v == 0xa1b23c4d ==> first == if le then [0x4d, 0x3c, 0xb2, 0xa1] else [0xa1, 0xb2, 0x3c, 0x4d]
    ensures v == SECTION ==> first == [0x0a, 0x0d, 0x0d, 0x0a]
  {
    FourOctets(v);
  }

  lemma FourOctets(v: nat)
    ensures U32(v) == [v % 256, v / 256 % 256, v / 256 / 256 % 256, v / 256 / 256 / 256 % 256]
  {
    assert OctetAt(v, 1) == v / 256 % 256;
    assert OctetAt(v, 2) == OctetAt(v / 256, 1) == v / 256 / 256 % 256;
    assert OctetAt(v / 256, 2) == OctetAt(v / 256 / 256, 1) == v / 256 / 256 / 256 % 256;
    assert OctetAt(v, 3) == OctetAt(v / 256, 2);
  }

  /** A classic file of either byte order and resolution is read by its magic number. */
  lemma ClassicDispatched(link: nat, frames: seq<Bytes>, le: bool, nano: bool)
    requires link < 0x1_0000_0000 && AllShort(frames)
    ensures UdpPayloads(ClassicFile(link, frames, le, nano)) == Read(PayloadsIn(OnLink(link, frames)))
  {
    var b := ClassicFile(link, frames, le, nano);
    var magic: nat := if nano then 0xa1b23c4d else 0xa1b2c3d4;
    assert b[..4] == Num(magic, le);
    Magics(magic, le, b[..4]);
    Dispatches(b);
    ClassicReads(link, frames, le, nano, []);
    assert b + [] == b;
  }

  /** A pcapng capture that begins with a section is read block by block. */
  lemma PcapngDispatched(items: seq<Item>)
    requires AllWritable(items) && |items| > 0 && items[0].SectionStart?
    ensures UdpPayloads(Capture(items)) == Read(PayloadsIn(Meant(items, START)))
  {
    var b := Capture(items);
    FirstBlock(items, items[0].le);
    Magics(SECTION, items[0].le, b[..4]);
    Dispatches(b);
    PcapngReads(items, []);
    assert b + [] == b;
  }

  lemma FirstBlock(items: seq<Item>, le: bool)
    requires AllWritable(items) && |items| > 0 && items[0] == SectionStart(le)
    ensures |Capture(items)| >= 4 && Capture(items)[..4] == Num(SECTION, le)
  {
    var x, rest := WrittenItem(items[0], true), WrittenItems(items[1..], le);
    assert WrittenItems(items, true) == [x] + rest;
    ConcatFirst(x, rest);
    BlockParts(x, Num(SECTION, le), Num(28, le), SectionBody(le));
    assert (x + Concat(rest))[..4] == x[0..4];
  }

  /** The same datagrams, whichever format and byte order they were written in. */
  lemma EitherFormat(ds: seq<Bytes>, le: bool, nano: bool)
    requires AllFit(ds)
    ensures UdpPayloads(ClassicFile(101, Datagrams(ds), le, nano)) == Read(ds)
    ensures UdpPayloads(PcapngCapture(ds, le)) == Read(ds)
  {
    DatagramsCarried(ds);
    ClassicDispatched(101, Datagrams(ds), le, nano);
    ItemsWritable(ds, le);
    ItemsMeant(ds, le);
    FramesRead(ds);
    PcapngDispatched(PcapngItems(ds, le));
  }
}
