/** The image comparison from the captured writes, answers and fills: which
    captured value an octet is compared with. */
module ImageMemory {

  import opened Memory
  import opened ImageCompare
  import opened ImageVerdict

  // ----- the octet it is compared with

  /** Fill k is the last one over the address. */
  predicate LastFill(fills: seq<Fill>, k: nat, a: int) {
    && k < |fills| && fills[k].base <= a < fills[k].base + fills[k].size
    && forall j :: k < j < |fills| ==> !(fills[j].base <= a < fills[j].base + fills[j].size)
  }

  predicate Filled(fills: seq<Fill>, a: int) {
    exists k :: 0 <= k < |fills| && fills[k].base <= a < fills[k].base + fills[k].size
  }

  predicate FillLeaves(fills: seq<Fill>, a: int, v: Octet) {
    exists k :: 0 <= k < |fills| && LastFill(fills, k, a) && fills[k].byte == v
  }

  lemma FillsAsWrites(fills: seq<Fill>, a: int, v: Octet)
    ensures Touched(AsWrites(fills), a) <==> Filled(fills, a)
    ensures Leaves(AsWrites(fills), a, v) <==> FillLeaves(fills, a, v)
  {
    var w := AsWrites(fills);
    forall k | 0 <= k < |fills|
      ensures w[k].Holds(a) <==> fills[k].base <= a < fills[k].base + fills[k].size
      ensures w[k].Holds(a) ==> w[k].data[a - w[k].start] == fills[k].byte
    {
      assert w[k] == fills[k].AsWrite();
    }
    forall k | 0 <= k < |fills|
      ensures LastTouch(w, k, a) <==> LastFill(fills, k, a)
    {
    }
  }

  /** What ETS left at the address: what it wrote there last, or, if it wrote nothing there, the last fill. */
  predicate EtsLeft(writes: seq<Region>, fills: seq<Fill>, a: int, v: Octet) {
    if Touched(writes, a) then Leaves(writes, a, v) else FillLeaves(fills, a, v)
  }

  /** The capture behind an Ets. */
  ghost predicate Captured(e: Ets, writes: seq<Region>, answers: seq<Region>, fills: seq<Fill>) {
    && e.written == LastWins(writes) && e.filled == LastWins(AsWrites(fills))
    && e.confirmed == Confirmed(writes, answers)
  }

  lemma KnownIsLeft(e: Ets, writes: seq<Region>, answers: seq<Region>, fills: seq<Fill>, a: int)
    requires Captured(e, writes, answers, fills)
    ensures a in e.Known() <==> Touched(writes, a) || Filled(fills, a)
    ensures a in e.Known() ==> forall v :: EtsLeft(writes, fills, a, v) <==> v == e.Known()[a]
  {
    LastWriteWins(writes, a);
    LastWriteWins(AsWrites(fills), a);
    forall v
      ensures Touched(AsWrites(fills), a) <==> Filled(fills, a)
      ensures Leaves(AsWrites(fills), a, v) <==> FillLeaves(fills, a, v)
    {
      FillsAsWrites(fills, a, v);
    }
    FillsAsWrites(fills, a, 0);
  }

  /** The offset is in the image, in its mask, and written or filled by ETS. */
  predicate Comparable(writes: seq<Region>, fills: seq<Fill>, s: Step, i: nat) {
    && s.address.Some? && i < |s.ours| && (s.mask.None? || i >= |s.mask.value| || s.mask.value[i] == 255)
    && (Touched(writes, s.address.value + i) || Filled(fills, s.address.value + i))
  }

  /** An octet is compared with what ETS wrote there last or else with the fill, and differs exactly when ours is
      another; it is confirmed exactly when ETS read it and never wrote it, against the last answer. */
  lemma OctetCompared(e: Ets, writes: seq<Region>, answers: seq<Region>, fills: seq<Fill>, s: Step, i: nat)
    requires Captured(e, writes, answers, fills)
    ensures IsCompared(e, s, i) <==> Comparable(writes, fills, s, i)
    ensures IsDifferent(e, s, i) <==>
      Comparable(writes, fills, s, i) && !EtsLeft(writes, fills, s.address.value + i, s.ours[i])
    ensures IsConfirmed(e, s, i) <==>
      && s.address.Some? && i < |s.ours|
      && Touched(answers, s.address.value + i) && !Touched(writes, s.address.value + i)
    ensures IsConfirmed(e, s, i) ==>
      (e.confirmed[s.address.value + i] == s.ours[i] <==> Leaves(answers, s.address.value + i, s.ours[i]))
    ensures ConfirmsDifferent(e, s, i) <==>
      && IsConfirmed(e, s, i) && (s.mask.None? || i >= |s.mask.value| || s.mask.value[i] == 255)
      && !Leaves(answers, s.address.value + i, s.ours[i])
  {
    if s.address.Some? && i < |s.ours| {
      var a := s.address.value + i;
      KnownIsLeft(e, writes, answers, fills, a);
      LastWriteWins(writes, a);
      LastWriteWins(answers, a);
    }
  }

  /** The offset counts as seen: written or filled by ETS, or, where read-confirmed octets count, read back as ours. */
  predicate SeenAt(writes: seq<Region>, answers: seq<Region>, fills: seq<Fill>, s: Step, i: nat, confirmed: bool) {
    s.address.Some? &&
    var a := s.address.value + i;
    || Touched(writes, a) || Filled(fills, a)
    || (confirmed && i < |s.ours| && Touched(answers, a) && Leaves(answers, a, s.ours[i]))
  }

  /** The coverage counts the placed offsets, as often as they are placed, and those of them that are seen. */
  ghost predicate CoverFrom(c: Cover, writes: seq<Region>, answers: seq<Region>, fills: seq<Fill>, s: Step,
                            confirmed: bool) {
    && c.placed == |Offsets(s)|
    && exists seen: set<nat> :: c.compared == |seen| && IsSeen(seen, writes, answers, fills, s, confirmed)
  }

  ghost predicate IsSeen(seen: set<nat>, writes: seq<Region>, answers: seq<Region>, fills: seq<Fill>, s: Step,
                         confirmed: bool) {
    forall i: nat :: i in seen <==> IsPlaced(s, i) && SeenAt(writes, answers, fills, s, i, confirmed)
  }

  lemma SeenIs(e: Ets, writes: seq<Region>, answers: seq<Region>, fills: seq<Fill>, s: Step, i: nat, confirmed: bool)
    requires Captured(e, writes, answers, fills)
    ensures SeenAt(writes, answers, fills, s, i, confirmed) <==>
      s.address.Some? &&
      (s.address.value + i in e.Known() ||
       (confirmed && IsConfirmed(e, s, i) && e.confirmed[s.address.value + i] == s.ours[i]))
  {
    if s.address.Some? {
      KnownIsLeft(e, writes, answers, fills, s.address.value + i);
      OctetCompared(e, writes, answers, fills, s, i);
    }
  }

  lemma KnownFrom(e: Ets, writes: seq<Region>, answers: seq<Region>, fills: seq<Fill>, s: Step, confirmed: bool)
    requires Captured(e, writes, answers, fills)
    ensures IsSeen(KnownOf(e, s, confirmed), writes, answers, fills, s, confirmed)
  {
    forall i: nat
      ensures i in KnownOf(e, s, confirmed) <==>
        IsPlaced(s, i) && SeenAt(writes, answers, fills, s, i, confirmed)
    {
      assert i in Offsets(s) <==> IsPlaced(s, i);
      SeenIs(e, writes, answers, fills, s, i, confirmed);
    }
  }

  lemma CoversFrom(r: Result, e: Ets, writes: seq<Region>, answers: seq<Region>, fills: seq<Fill>, s: Step, size: nat)
    requires size > 0 && Means(r, e, s, size) && Captured(e, writes, answers, fills)
    ensures CoverFrom(r.cover, writes, answers, fills, s, false)
    ensures CoverFrom(r.withConfirmed, writes, answers, fills, s, true)
  {
    KnownFrom(e, writes, answers, fills, s, false);
    KnownFrom(e, writes, answers, fills, s, true);
  }

  /** The meaning of a region's verdict, from the capture. */
  ghost predicate VerdictFrom(r: Result, writes: seq<Region>, fills: seq<Fill>, s: Step) {
    && (r.verdict == Differing <==> exists i: nat ::
         Comparable(writes, fills, s, i) && !EtsLeft(writes, fills, s.address.value + i, s.ours[i]))
    && (r.verdict == NotComparable <==> forall i: nat :: !Comparable(writes, fills, s, i))
  }

  lemma MeansFrom(r: Result, e: Ets, writes: seq<Region>, answers: seq<Region>, fills: seq<Fill>, s: Step, size: nat)
    requires size > 0 && Means(r, e, s, size) && Captured(e, writes, answers, fills)
    ensures VerdictFrom(r, writes, fills, s)
  {
    forall i: nat
      ensures IsCompared(e, s, i) <==> Comparable(writes, fills, s, i)
      ensures IsDifferent(e, s, i) <==>
        Comparable(writes, fills, s, i) && !EtsLeft(writes, fills, s.address.value + i, s.ours[i])
    {
      OctetCompared(e, writes, answers, fills, s, i);
    }
    if i: nat :| IsDifferent(e, s, i) {
      assert Comparable(writes, fills, s, i);
    }
    if i: nat :| Comparable(writes, fills, s, i) && !EtsLeft(writes, fills, s.address.value + i, s.ours[i]) {
      assert IsDifferent(e, s, i);
    }
  }

  /** Composing, loading and comparing: each image's verdict is about the captured writes and fills. */
  method CompareCapture(writes: seq<Region>, answers: seq<Region>, fills: seq<Fill>, steps: seq<Step>, minPercent: real,
                        size: nat) returns (v: Verdict, results: seq<Result>)
    requires size > 0
    ensures |results| == |steps| && v == Overall(Judged(results), minPercent)
    ensures forall k :: 0 <= k < |steps| ==>
      && VerdictFrom(results[k], writes, fills, steps[k])
      && CoverFrom(results[k].cover, writes, answers, fills, steps[k], false)
      && CoverFrom(results[k].withConfirmed, writes, answers, fills, steps[k], true)
  {
    var ets := ComposeAndLoad(writes, answers, fills);
    v, results := Compare(ets, steps, minPercent, size);
    forall k | 0 <= k < |steps|
      ensures VerdictFrom(results[k], writes, fills, steps[k])
      ensures CoverFrom(results[k].cover, writes, answers, fills, steps[k], false)
      ensures CoverFrom(results[k].withConfirmed, writes, answers, fills, steps[k], true)
    {
      assert Means(results[k], ets, steps[k], size);
      MeansFrom(results[k], ets, writes, answers, fills, steps[k], size);
      CoversFrom(results[k], ets, writes, answers, fills, steps[k], size);
    }
  }
}
