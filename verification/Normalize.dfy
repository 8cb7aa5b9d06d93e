/** Grouping a frame stream into one operation list per device, and the frames
    that are dropped on the way: echoes and link-layer repeats. */
module Normalize {

  import opened Wrappers

  datatype Direction = Req | Res

  /** A frame as the walk sees it. A frame without a decoded transport part is not usable; the operation is what its
      service maps to, if anything. */
  datatype Frame = Frame(usable: bool, code: nat, src: string, dst: string, toGroup: bool, npdu: string,
                         repeated: bool, op: Option<string>)

  const REQ: nat := 0x11
  const CON: nat := 0x2E
  const IND: nat := 0x29

  type Key = (string, Direction)

  /** The device a frame belongs to and which way it goes. */
  function KeyOf(f: Frame): Key {
    if f.toGroup then ("group", Req)
    else if f.code == REQ then (f.dst, Req)
    else if f.code == IND || (f.src != "0.0.0" && f.src != "") then (f.src, Res)
    else (f.dst, Req)
  }

  /** One operation with its place in the count of the frames that were not dropped. */
  datatype Op = Op(op: string, direction: Direction, index: nat)

  datatype Bucket = Bucket(ops: seq<Op>, repeats: nat, confirms: nat, acks: nat)

  datatype State = State(buckets: map<string, Bucket>, last: map<Key, string>, counter: nat)

  const START := State(map[], map[], 0)

  const EMPTY := Bucket([], 0, 0, 0)

  function BucketOf(s: State, target: string): Bucket { if target in s.buckets then s.buckets[target] else EMPTY }

  /** The walk leaves the frame alone: it cannot be used, or it is of another device. */
  predicate Passed(f: Frame, device: Option<string>) { !f.usable || (device.Some? && KeyOf(f).0 != device.value) }

  predicate IsRepeat(s: State, f: Frame) { f.repeated && KeyOf(f) in s.last && s.last[KeyOf(f)] == f.npdu }

  function Step(s: State, f: Frame, device: Option<string>): State {
    if Passed(f, device) then s
    else
      var key := KeyOf(f);
      var b := BucketOf(s, key.0);
      if f.code == CON then s.(buckets := s.buckets[key.0 := b.(confirms := b.confirms + 1)])
      else if IsRepeat(s, f) then s.(buckets := s.buckets[key.0 := b.(repeats := b.repeats + 1)])
      else
        var n := s.counter + 1;
        var b' := if f.op.None? then b.(acks := b.acks + 1) else b.(ops := b.ops + [Op(f.op.value, key.1, n)]);
        State(s.buckets[key.0 := b'], s.last[key := f.npdu], n)
  }

  function Run(frames: seq<Frame>, device: Option<string>): State {
    if |frames| == 0 then START else Step(Run(frames[..|frames| - 1], device), frames[|frames| - 1], device)
  }

  method Walk(frames: seq<Frame>, device: Option<string>) returns (out: map<string, Bucket>)
    ensures out == Run(frames, device).buckets
  {
    out := map[];
    var last: map<Key, string> := map[];
    var counter := 0;
    for i := 0 to |frames|
      invariant State(out, last, counter) == Run(frames[..i], device)
    {
      var f := frames[i];
      assert frames[..i + 1][..i] == frames[..i];
      if !f.usable {
        continue;
      }
      var (target, direction) := KeyOf(f);
      if device.Some? && target != device.value {
        continue;
      }
      var bucket := if target in out then out[target] else EMPTY;
      if f.code == CON {
        out := out[target := bucket.(confirms := bucket.confirms + 1)];
        continue;
      }
      if f.repeated && (target, direction) in last && last[(target, direction)] == f.npdu {
        out := out[target := bucket.(repeats := bucket.repeats + 1)];
        continue;
      }
      last := last[(target, direction) := f.npdu];
      counter := counter + 1;
      if f.op.None? {
        out := out[target := bucket.(acks := bucket.acks + 1)];
      } else {
        out := out[target := bucket.(ops := bucket.ops + [Op(f.op.value, direction, counter)])];
      }
    }
    assert frames[..|frames|] == frames;
  }

  // ----- what the drop rules leave unchanged

  /** The two walks will go on alike: they have the same operations, last frames and count. */
  ghost predicate Same(s: State, t: State) {
    s.last == t.last && s.counter == t.counter && forall d :: SameOps(s, t, d)
  }

  ghost predicate SameOps(s: State, t: State, d: string) { BucketOf(s, d).ops == BucketOf(t, d).ops }

  lemma StepSame(s: State, t: State, f: Frame, device: Option<string>)
    requires Same(s, t)
    ensures Same(Step(s, f, device), Step(t, f, device))
  {
    var d0 := KeyOf(f).0;
    assert SameOps(s, t, d0);
    forall d
      ensures SameOps(Step(s, f, device), Step(t, f, device), d)
    {
      assert SameOps(s, t, d);
    }
  }

  /** An echo of the gateway, or a flagged repeat of the last frame of its device and direction. */
  predicate Dropped(s: State, f: Frame) { f.code == CON || IsRepeat(s, f) }

  lemma DroppedSame(s: State, f: Frame, device: Option<string>)
    requires Dropped(s, f)
    ensures Same(Step(s, f, device), s)
  {
    forall d
      ensures SameOps(Step(s, f, device), s, d)
    {
    }
  }

  lemma {:induction false} RunSame(a: seq<Frame>, b: seq<Frame>, more: seq<Frame>, device: Option<string>)
    requires Same(Run(a, device), Run(b, device))
    ensures Same(Run(a + more, device), Run(b + more, device))
  {
    if |more| == 0 {
      assert a + more == a && b + more == b;
    } else {
      var m, l := more[..|more| - 1], more[|more| - 1];
      RunSame(a, b, m, device);
      LastFrame(a, m, l, more, device);
      LastFrame(b, m, l, more, device);
      StepSame(Run(a + m, device), Run(b + m, device), l, device);
    }
  }

  lemma LastFrame(a: seq<Frame>, m: seq<Frame>, l: Frame, more: seq<Frame>, device: Option<string>)
    requires more == m + [l]
    ensures Run(a + more, device) == Step(Run(a + m, device), l, device)
  {
    assert (a + more)[..|a| + |m|] == a + m;
  }

  /** Inserting an echo anywhere changes no device's operations. */
  lemma EchoChangesNothing(a: seq<Frame>, x: Frame, more: seq<Frame>, device: Option<string>, d: string)
    requires x.code == CON
    ensures BucketOf(Run(a + [x] + more, device), d).ops == BucketOf(Run(a + more, device), d).ops
  {
    assert (a + [x])[..|a|] == a;
    DroppedSame(Run(a, device), x, device);
    RunSame(a + [x], a, more, device);
    assert SameOps(Run(a + [x] + more, device), Run(a + more, device), d);
  }

  /** No frame that counts is of the same device and direction. */
  predicate Quiet(b: seq<Frame>, key: Key, device: Option<string>) {
    forall k :: 0 <= k < |b| ==> Passed(b[k], device) || b[k].code == CON || KeyOf(b[k]) != key
  }

  lemma {:induction false} StillLast(a: seq<Frame>, x: Frame, b: seq<Frame>, device: Option<string>)
    requires x.usable && !Passed(x, device) && x.code != CON && Quiet(b, KeyOf(x), device)
    ensures KeyOf(x) in Run(a + [x] + b, device).last && Run(a + [x] + b, device).last[KeyOf(x)] == x.npdu
  {
    if |b| == 0 {
      assert a + [x] + b == a + [x];
      assert (a + [x])[..|a|] == a;
    } else {
      var m := b[..|b| - 1];
      StillLast(a, x, m, device);
      assert (a + [x] + b)[..|a| + |b|] == a + [x] + m;
    }
  }

  /** Inserting a flagged repeat before the next frame of the same device and direction changes no device's operations,
      whatever the other devices send in between. */
  lemma RepeatChangesNothing(a: seq<Frame>, x: Frame, b: seq<Frame>, r: Frame, more: seq<Frame>,
                             device: Option<string>, d: string)
    requires Quiet(b, KeyOf(x), device)
    requires r.usable == x.usable && r.code == x.code && KeyOf(r) == KeyOf(x) && r.npdu == x.npdu && r.repeated
    ensures BucketOf(Run(a + [x] + b + [r] + more, device), d).ops == BucketOf(Run(a + [x] + b + more, device), d).ops
  {
    var s := a + [x] + b;
    assert (s + [r])[..|s|] == s;
    if !Passed(x, device) && x.code != CON {
      StillLast(a, x, b, device);
      DroppedSame(Run(s, device), r, device);
    } else if !Passed(x, device) {
      DroppedSame(Run(s, device), r, device);
    } else {
      assert Same(Run(s + [r], device), Run(s, device)) by {
        assert forall t :: SameOps(Run(s, device), Run(s, device), t);
      }
    }
    RunSame(s + [r], s, more, device);
    assert SameOps(Run(s + [r] + more, device), Run(s + more, device), d);
  }

  /** An echo is counted for its device. */
  lemma EchoCounted(a: seq<Frame>, x: Frame, device: Option<string>)
    requires x.code == CON && !Passed(x, device)
    ensures
      var b := BucketOf(Run(a, device), KeyOf(x).0);
      BucketOf(Run(a + [x], device), KeyOf(x).0) == b.(confirms := b.confirms + 1)
  {
    assert (a + [x])[..|a|] == a;
  }

  /** A flagged repeat is counted as a repeat of its device. */
  lemma RepeatCounted(a: seq<Frame>, x: Frame, b: seq<Frame>, r: Frame, device: Option<string>)
    requires x.usable && !Passed(x, device) && x.code != CON && Quiet(b, KeyOf(x), device)
    requires r.usable && r.code == x.code && KeyOf(r) == KeyOf(x) && r.npdu == x.npdu && r.repeated
    ensures
      var before := BucketOf(Run(a + [x] + b, device), KeyOf(x).0);
      BucketOf(Run(a + [x] + b + [r], device), KeyOf(x).0) == before.(repeats := before.repeats + 1)
  {
    var s := a + [x] + b;
    assert (s + [r])[..|s|] == s;
    StillLast(a, x, b, device);
  }

  /** A frame with another payload than the last of its device and direction is no repeat, flagged or not. */
  lemma NewPayloadKept(a: seq<Frame>, x: Frame, b: seq<Frame>, r: Frame, device: Option<string>)
    requires x.usable && !Passed(x, device) && x.code != CON && Quiet(b, KeyOf(x), device)
    requires r.usable && r.code == x.code && KeyOf(r) == KeyOf(x) && r.npdu != x.npdu && r.op.Some?
    ensures
      var before := BucketOf(Run(a + [x] + b, device), KeyOf(x).0);
      var n := Run(a + [x] + b, device).counter + 1;
      BucketOf(Run(a + [x] + b + [r], device), KeyOf(x).0)
      == before.(ops := before.ops + [Op(r.op.value, KeyOf(x).1, n)])
  {
    var s := a + [x] + b;
    assert (s + [r])[..|s|] == s;
    StillLast(a, x, b, device);
  }

  // ----- which device a frame belongs to

  /** Group traffic goes to the pseudo-device; a request names the device as its destination, an indication as its
      source; any other frame by its source unless that is the tool's empty address. */
  lemma BelongsTo(f: Frame)
    ensures f.toGroup ==> KeyOf(f) == ("group", Req)
    ensures !f.toGroup && f.code == 0x11 ==> KeyOf(f) == (f.dst, Req)
    ensures !f.toGroup && f.code == 0x29 ==> KeyOf(f) == (f.src, Res)
    ensures !f.toGroup && f.code != 0x11 && f.code != 0x29 ==>
      KeyOf(f) == if f.src in {"0.0.0", ""} then (f.dst, Req) else (f.src, Res)
  {
  }

  predicate Belongs(f: Frame, d: string) { f.usable && KeyOf(f).0 == d }

  function FramesOf(frames: seq<Frame>, d: string): nat {
    if frames == [] then 0
    else FramesOf(frames[..|frames| - 1], d) + if Belongs(frames[|frames| - 1], d) then 1 else 0
  }

  /** The echoes among the frames of a device: code 0x2E. */
  function EchoesOf(frames: seq<Frame>, d: string): nat {
    if frames == [] then 0
    else EchoesOf(frames[..|frames| - 1], d)
         + if Belongs(frames[|frames| - 1], d) && frames[|frames| - 1].code == 0x2E then 1 else 0
  }

  /** Every usable frame of a device is accounted for once: as an operation, an echo, a repeat or an acknowledgement. */
  lemma {:induction false} EveryFrameCounted(frames: seq<Frame>, d: string)
    ensures
      var b := BucketOf(Run(frames, None), d);
      |b.ops| + b.repeats + b.confirms + b.acks == FramesOf(frames, d) && b.confirms == EchoesOf(frames, d)
  {
    if frames != [] {
      EveryFrameCounted(frames[..|frames| - 1], d);
    }
  }

  /** The frames that become operations of a device when nothing is dropped, with their places among all frames. */
  function Kept(frames: seq<Frame>, d: string): seq<Op> {
    if frames == [] then []
    else
      var n, f := |frames|, frames[|frames| - 1];
      Kept(frames[..n - 1], d) + (if KeyOf(f).0 == d && f.op.Some? then [Op(f.op.value, KeyOf(f).1, n)] else [])
  }

  predicate NothingToDrop(frames: seq<Frame>) {
    forall i :: 0 <= i < |frames| ==> frames[i].usable && frames[i].code != 0x2E && !frames[i].repeated
  }

  /** Without echoes and flagged repeats every frame of a device with an operation is kept, in order, at its place. */
  lemma {:induction false} NothingDropped(frames: seq<Frame>, d: string)
    requires NothingToDrop(frames)
    ensures Run(frames, None).counter == |frames| && BucketOf(Run(frames, None), d).ops == Kept(frames, d)
  {
    if frames != [] {
      var front := frames[..|frames| - 1];
      assert forall i :: 0 <= i < |front| ==> front[i] == frames[i];
      NothingDropped(front, d);
      assert frames[|frames| - 1].usable;
    }
  }

  // ----- one device alone

  function Texts(ops: seq<Op>): seq<(string, Direction)> {
    seq(|ops|, i requires 0 <= i < |ops| => (ops[i].op, ops[i].direction))
  }

  /** The walk for one device and the walk for all agree on that device but for the places in the count. */
  ghost predicate SameDevice(one: State, all: State, d: string) {
    var b, c := BucketOf(one, d), BucketOf(all, d);
    && Texts(b.ops) == Texts(c.ops) && b.repeats == c.repeats && b.confirms == c.confirms && b.acks == c.acks
    && forall dir :: SameLast(one, all, (d, dir))
  }

  predicate SameLast(one: State, all: State, key: Key) {
    (key in one.last <==> key in all.last) && (key in one.last ==> one.last[key] == all.last[key])
  }

  lemma TextsMore(ops: seq<Op>, x: Op)
    ensures Texts(ops + [x]) == Texts(ops) + [(x.op, x.direction)]
  {
  }

  /** The two walks drop a frame of the device alike. */
  lemma SameDrops(one: State, all: State, f: Frame, d: string)
    requires SameDevice(one, all, d) && KeyOf(f).0 == d
    ensures IsRepeat(one, f) == IsRepeat(all, f)
  {
    assert SameLast(one, all, (d, KeyOf(f).1));
  }

  lemma SameDeviceStep(one: State, all: State, f: Frame, d: string)
    requires SameDevice(one, all, d)
    ensures SameDevice(Step(one, f, Some(d)), Step(all, f, None), d)
  {
    var s, t := Step(one, f, Some(d)), Step(all, f, None);
    forall dir
      ensures SameLast(s, t, (d, dir))
    {
      assert SameLast(one, all, (d, dir));
      if KeyOf(f).0 == d {
        SameDrops(one, all, f, d);
      }
    }
    if KeyOf(f).0 == d {
      SameDrops(one, all, f, d);
      SameBuckets(one, all, f, d);
    } else {
      assert BucketOf(t, d) == BucketOf(all, d);
    }
  }

  lemma SameBuckets(one: State, all: State, f: Frame, d: string)
    requires SameDevice(one, all, d) && KeyOf(f).0 == d && IsRepeat(one, f) == IsRepeat(all, f)
    ensures
      var b, c := BucketOf(Step(one, f, Some(d)), d), BucketOf(Step(all, f, None), d);
      Texts(b.ops) == Texts(c.ops) && b.repeats == c.repeats && b.confirms == c.confirms && b.acks == c.acks
  {
    if f.op.Some? {
      TextsMore(BucketOf(one, d).ops, Op(f.op.value, KeyOf(f).1, one.counter + 1));
      TextsMore(BucketOf(all, d).ops, Op(f.op.value, KeyOf(f).1, all.counter + 1));
    }
  }

  /** Restricting the walk to a device gives that device's operations and counters as the whole walk does. */
  lemma {:induction false} RestrictedWalk(frames: seq<Frame>, d: string)
    ensures SameDevice(Run(frames, Some(d)), Run(frames, None), d)
  {
    if frames == [] {
      forall dir
        ensures SameLast(START, START, (d, dir))
      {
      }
    } else {
      RestrictedWalk(frames[..|frames| - 1], d);
      SameDeviceStep(Run(frames[..|frames| - 1], Some(d)), Run(frames[..|frames| - 1], None), frames[|frames| - 1], d);
    }
  }
}
