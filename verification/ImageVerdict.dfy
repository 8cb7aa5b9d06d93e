/** The verdict of the image comparison, and the octets it speaks for. */
module ImageVerdict {

  import opened Memory
  import opened ImageCompare
  import opened Wrappers

  /** One dry-run image: where it goes if known, which octets its mask keeps, and which ranges count as placed. */
  datatype Step = Step(address: Option<int>, ours: seq<Octet>, mask: Option<seq<Octet>>, ranges: seq<(nat, nat)>,
                       inScope: bool)

  predicate InMask(s: Step, i: nat) { s.mask.None? || i >= |s.mask.value| || s.mask.value[i] == 255 }

  /** The offset is compared: it is in the mask and the value ETS left is known. */
  predicate IsCompared(e: Ets, s: Step, i: nat) {
    s.address.Some? && i < |s.ours| && InMask(s, i) && s.address.value + i in e.Known()
  }

  predicate IsDifferent(e: Ets, s: Step, i: nat) { IsCompared(e, s, i) && e.Known()[s.address.value + i] != s.ours[i] }

  /** The offset was read and not written, and the answer equals ours or not. */
  predicate IsConfirmed(e: Ets, s: Step, i: nat) {
    s.address.Some? && i < |s.ours| && s.address.value + i in e.confirmed
  }

  predicate ConfirmsDifferent(e: Ets, s: Step, i: nat) {
    IsConfirmed(e, s, i) && InMask(s, i) && e.confirmed[s.address.value + i] != s.ours[i]
  }

  datatype Verdict = Identical | Differing | NotComparable

  // ----- one image

  /** The offsets of a range that are in the image. */
  function RangeOffsets(lo: nat, hi: nat, length: nat): (out: seq<nat>)
    ensures forall i: nat :: i in out <==> lo <= i < hi && i < length
    decreases hi - lo
  {
    if lo >= hi || lo >= length then [] else [lo] + RangeOffsets(lo + 1, hi, length)
  }

  /** The offsets of the first k ranges, one range after the other. */
  function RangesOffsets(s: Step, k: nat): (out: seq<nat>)
    requires k <= |s.ranges|
    ensures forall i: nat :: i in out <==> InSomeRange(s, k, i)
  {
    if k == 0 then []
    else
      var out := RangesOffsets(s, k - 1) + RangeOffsets(s.ranges[k - 1].0, s.ranges[k - 1].1, |s.ours|);
      assert forall i: nat :: InSomeRange(s, k, i) <==> InSomeRange(s, k - 1, i) || InRange(s, k - 1, i) by {
        forall i: nat
          ensures InSomeRange(s, k, i) <==> InSomeRange(s, k - 1, i) || InRange(s, k - 1, i)
        {
          NextRange(s, k - 1, i);
        }
      }
      out
  }

  function MaskOffsets(s: Step, n: nat): (out: seq<nat>)
    ensures forall i: nat :: i in out <==> i < n && InMask(s, i)
  {
    if n == 0 then [] else if InMask(s, n - 1) then MaskOffsets(s, n - 1) + [n - 1] else MaskOffsets(s, n - 1)
  }

  /** The offsets the coverage counts: those of the placed ranges, or without ranges those in the mask. */
  function Offsets(s: Step): (out: seq<nat>)
    ensures forall i: nat :: i in out <==> IsPlaced(s, i)
  {
    if |s.ranges| > 0 then RangesOffsets(s, |s.ranges|) else MaskOffsets(s, |s.ours|)
  }

  method PlacedOffsets(s: Step) returns (out: seq<nat>)
    ensures out == Offsets(s)
  {
    out := [];
    if |s.ranges| > 0 {
      for k := 0 to |s.ranges|
        invariant out == RangesOffsets(s, k)
      {
        out := out + RangeOffsets(s.ranges[k].0, s.ranges[k].1, |s.ours|);
      }
    } else {
      for i := 0 to |s.ours|
        invariant out == MaskOffsets(s, i)
      {
        if InMask(s, i) {
          out := out + [i];
        }
      }
    }
  }

  ghost predicate InSomeRange(s: Step, k: nat, i: nat)
    requires k <= |s.ranges|
  {
    exists j :: 0 <= j < k && InRange(s, j, i)
  }

  lemma NextRange(s: Step, k: nat, i: nat)
    requires k < |s.ranges|
    ensures InSomeRange(s, k + 1, i) <==> InSomeRange(s, k, i) || InRange(s, k, i)
  {
  }

  predicate InRange(s: Step, j: nat, i: nat)
    requires j < |s.ranges|
  {
    s.ranges[j].0 <= i < s.ranges[j].1 && i < |s.ours|
  }

  ghost predicate IsPlaced(s: Step, i: nat) {
    if |s.ranges| > 0 then InSomeRange(s, |s.ranges|, i)
    else i < |s.ours| && InMask(s, i)
  }

  /** What the comparison keeps of one image. */
  datatype Result = Result(verdict: Verdict, cover: Cover, withConfirmed: Cover,
                           compared: nat, diffs: nat, octets: nat, mismatches: nat, inScope: bool)

  /** The meaning of a result. */
  ghost predicate Means(r: Result, e: Ets, s: Step, size: nat)
    requires size > 0
  {
    && r.inScope == s.inScope
    && CountsAre(e, s, |s.ours|, r.compared, r.diffs, r.octets, r.mismatches)
    && (r.verdict == Differing <==> exists i: nat :: IsDifferent(e, s, i))
    && (r.verdict == NotComparable <==> !exists i: nat :: IsCompared(e, s, i))
    && CoverIs(r.cover, e, s, size, false)
    && CoverIs(r.withConfirmed, e, s, size, true)
  }

  /** The placed offsets whose ETS value is known, with the read-confirmed ones that equal ours or without. */
  function KnownOf(e: Ets, s: Step, confirmed: bool): set<nat> {
    set i | i in Offsets(s) && s.address.Some? &&
      (s.address.value + i in e.Known() ||
       (confirmed && IsConfirmed(e, s, i) && e.confirmed[s.address.value + i] == s.ours[i]))
  }

  function BaseOf(s: Step): int { if s.address.Some? then s.address.value else 0 }

  ghost predicate CoverIs(c: Cover, e: Ets, s: Step, size: nat, confirmed: bool)
    requires size > 0
  {
    var known := KnownOf(e, s, confirmed);
    c == Cover(|Offsets(s)|, |known|, PagesOf(Offsets(s), known, BaseOf(s), size))
  }

  method CompareImage(e: Ets, s: Step, size: nat) returns (r: Result)
    requires size > 0
    ensures Means(r, e, s, size)
  {
    var placed := PlacedOffsets(s);
    var cover := AddCoverage(placed, KnownOf(e, s, false), BaseOf(s), size);
    var with := AddCoverage(placed, KnownOf(e, s, true), BaseOf(s), size);
    if s.address.None? {
      r := Result(NotComparable, cover, with, 0, 0, 0, 0, s.inScope);
      return;
    }
    var compared, diffs, octets, mismatches := CountOctets(e, s);
    CountsTell(e, s);
    var verdict := if compared == 0 then NotComparable else if diffs > 0 then Differing else Identical;
    r := Result(verdict, cover, with, compared, diffs, octets, mismatches, s.inScope);
  }

  ghost function Below(p: nat -> bool, n: nat): set<nat> { set i: nat | i < n && p(i) }

  lemma BelowNext(p: nat -> bool, n: nat)
    ensures |Below(p, n + 1)| == |Below(p, n)| + if p(n) then 1 else 0
  {
    assert Below(p, n + 1) == if p(n) then Below(p, n) + {n} else Below(p, n);
  }

  lemma BelowSome(p: nat -> bool, n: nat)
    ensures |Below(p, n)| > 0 <==> exists i: nat :: i < n && p(i)
  {
    if i: nat :| i < n && p(i) {
      assert i in Below(p, n);
    }
    if |Below(p, n)| > 0 {
      var i :| i in Below(p, n);
    }
  }

  /** The offsets below n that are compared, that differ, that were read, and whose answer differs. */
  ghost function ComparedOffsets(e: Ets, s: Step, n: nat): set<nat> { Below((i: nat) => IsCompared(e, s, i), n) }

  ghost function DifferentOffsets(e: Ets, s: Step, n: nat): set<nat> { Below((i: nat) => IsDifferent(e, s, i), n) }

  ghost function ReadOffsets(e: Ets, s: Step, n: nat): set<nat> {
    Below((i: nat) => IsConfirmed(e, s, i) && InMask(s, i), n)
  }

  ghost function MismatchOffsets(e: Ets, s: Step, n: nat): set<nat> { Below((i: nat) => ConfirmsDifferent(e, s, i), n) }

  /** The counters after the first n octets. */
  ghost predicate CountsAre(e: Ets, s: Step, n: nat, compared: nat, diffs: nat, octets: nat, mismatches: nat) {
    && compared == |ComparedOffsets(e, s, n)| && diffs == |DifferentOffsets(e, s, n)|
    && octets == |ReadOffsets(e, s, n)| && mismatches == |MismatchOffsets(e, s, n)|
  }

  /** The loop over the octets of an image. */
  method CountOctets(e: Ets, s: Step) returns (compared: nat, diffs: nat, octets: nat, mismatches: nat)
    requires s.address.Some?
    ensures CountsAre(e, s, |s.ours|, compared, diffs, octets, mismatches)
  {
    compared, diffs, octets, mismatches := 0, 0, 0, 0;
    var addr, known := s.address.value, e.Known();
    for i := 0 to |s.ours|
      invariant CountsAre(e, s, i, compared, diffs, octets, mismatches)
    {
      NextOctet(e, s, i);
      if InMask(s, i) {
        if addr + i in e.confirmed {
          octets := octets + 1;
          if e.confirmed[addr + i] != s.ours[i] {
            mismatches := mismatches + 1;
          }
        }
        if addr + i in known {
          compared := compared + 1;
          if known[addr + i] != s.ours[i] {
            diffs := diffs + 1;
          }
        }
      }
    }
  }

  /** A counter is positive exactly when some octet counts. */
  lemma CountsTell(e: Ets, s: Step)
    ensures |ComparedOffsets(e, s, |s.ours|)| > 0 <==> exists i: nat :: IsCompared(e, s, i)
    ensures |DifferentOffsets(e, s, |s.ours|)| > 0 <==> exists i: nat :: IsDifferent(e, s, i)
  {
    var compared := (i: nat) => IsCompared(e, s, i);
    var different := (i: nat) => IsDifferent(e, s, i);
    BelowSome(compared, |s.ours|);
    BelowSome(different, |s.ours|);
    assert forall i: nat :: IsCompared(e, s, i) ==> i < |s.ours| && compared(i);
    assert forall i: nat :: IsDifferent(e, s, i) ==> i < |s.ours| && different(i);
  }

  lemma NextOctet(e: Ets, s: Step, i: nat)
    ensures |ComparedOffsets(e, s, i + 1)| == |ComparedOffsets(e, s, i)| + if IsCompared(e, s, i) then 1 else 0
    ensures |DifferentOffsets(e, s, i + 1)| == |DifferentOffsets(e, s, i)| + if IsDifferent(e, s, i) then 1 else 0
    ensures |ReadOffsets(e, s, i + 1)| == |ReadOffsets(e, s, i)| + if IsConfirmed(e, s, i) && InMask(s, i) then 1 else 0
    ensures |MismatchOffsets(e, s, i + 1)| == |MismatchOffsets(e, s, i)| + if ConfirmsDifferent(e, s, i) then 1 else 0
  {
    BelowNext((i: nat) => IsCompared(e, s, i), i);
    BelowNext((i: nat) => IsDifferent(e, s, i), i);
    BelowNext((i: nat) => IsConfirmed(e, s, i) && InMask(s, i), i);
    BelowNext((i: nat) => ConfirmsDifferent(e, s, i), i);
  }

  // ----- the whole plan

  function Judged(results: seq<Result>): seq<Result> {
    if |results| == 0 then []
    else
      var l := results[|results| - 1];
      Judged(results[..|results| - 1]) + (if l.inScope then [l] else [])
  }

  function Octets(results: seq<Result>): nat {
    if |results| == 0 then 0 else Octets(results[..|results| - 1]) + results[|results| - 1].octets
  }

  predicate AnyMismatch(results: seq<Result>) { exists k :: 0 <= k < |results| && results[k].mismatches > 0 }

  /** Read-confirmed octets count when there are some and none of them differs. */
  predicate UsesConfirmed(judged: seq<Result>) { Octets(judged) > 0 && !AnyMismatch(judged) }

  function Covers(judged: seq<Result>, confirmed: bool): (c: seq<Cover>)
    ensures |c| == |judged|
  {
    seq(|judged|, k requires 0 <= k < |judged| => if confirmed then judged[k].withConfirmed else judged[k].cover)
  }

  predicate HasVerdict(judged: seq<Result>, v: Verdict) { exists k :: 0 <= k < |judged| && judged[k].verdict == v }

  function Overall(judged: seq<Result>, minPercent: real): Verdict {
    if HasVerdict(judged, Differing) then Differing
    else if HasVerdict(judged, Identical) && !Thin(Covers(judged, UsesConfirmed(judged)), minPercent) then Identical
    else NotComparable
  }

  ghost predicate AllMean(results: seq<Result>, e: Ets, steps: seq<Step>, size: nat)
    requires size > 0
  {
    |results| == |steps| && forall k :: 0 <= k < |steps| ==> Means(results[k], e, steps[k], size)
  }

  method Compare(e: Ets, steps: seq<Step>, minPercent: real, size: nat)
    returns (v: Verdict, results: seq<Result>)
    requires size > 0
    ensures AllMean(results, e, steps, size) && v == Overall(Judged(results), minPercent)
  {
    results := [];
    for k := 0 to |steps|
      invariant AllMean(results, e, steps[..k], size)
    {
      var r := CompareImage(e, steps[k], size);
      results := results + [r];
    }
    assert steps[..|steps|] == steps;
    var judged := JudgedLoop(results);
    var thin := Coverage(Covers(judged, UsesConfirmed(judged)), minPercent);
    v := if HasVerdict(judged, Differing) then Differing
         else if HasVerdict(judged, Identical) && !thin then Identical
         else NotComparable;
  }

  method JudgedLoop(results: seq<Result>) returns (judged: seq<Result>)
    ensures judged == Judged(results)
  {
    judged := [];
    for k := 0 to |results|
      invariant judged == Judged(results[..k])
    {
      assert results[..k + 1][..k] == results[..k];
      if results[k].inScope {
        judged := judged + [results[k]];
      }
    }
    assert results[..|results|] == results;
  }

  // ----- what the verdict guarantees

  lemma {:induction false} JudgedHolds(results: seq<Result>, r: Result)
    ensures r in Judged(results) <==> r in results && r.inScope
  {
    if |results| > 0 {
      var h, l := results[..|results| - 1], results[|results| - 1];
      JudgedHolds(h, r);
      assert results == h + [l];
    }
  }

  lemma ScopedVerdict(results: seq<Result>, v: Verdict)
    ensures HasVerdict(Judged(results), v) <==>
      exists k :: 0 <= k < |results| && results[k].inScope && results[k].verdict == v
  {
    if k :| 0 <= k < |Judged(results)| && Judged(results)[k].verdict == v {
      JudgedHolds(results, Judged(results)[k]);
    }
    if k :| 0 <= k < |results| && results[k].inScope && results[k].verdict == v {
      JudgedHolds(results, results[k]);
      var j :| 0 <= j < |Judged(results)| && Judged(results)[j] == results[k];
    }
  }

  /** Identical exactly when no octet in scope differs, some is compared, and the coverage supports it. */
  lemma IdenticalMeans(results: seq<Result>, e: Ets, steps: seq<Step>, minPercent: real, size: nat)
    requires size > 0 && AllMean(results, e, steps, size)
    ensures Overall(Judged(results), minPercent) == Identical <==>
      && (forall k, i: nat :: 0 <= k < |steps| && steps[k].inScope ==> !IsDifferent(e, steps[k], i))
      && (exists k, i: nat :: 0 <= k < |steps| && steps[k].inScope && IsCompared(e, steps[k], i))
      && !Thin(Covers(Judged(results), UsesConfirmed(Judged(results))), minPercent)
  {
    ScopedVerdict(results, Differing);
    ScopedVerdict(results, Identical);
    forall k | 0 <= k < |steps|
      ensures results[k].inScope == steps[k].inScope
      ensures results[k].verdict == Differing <==> exists i: nat :: IsDifferent(e, steps[k], i)
      ensures results[k].verdict == NotComparable <==> !exists i: nat :: IsCompared(e, steps[k], i)
    {
      assert Means(results[k], e, steps[k], size);
    }
    if k: int, i: nat :| 0 <= k < |steps| && steps[k].inScope && IsCompared(e, steps[k], i) {
      assert results[k].verdict != NotComparable;
    }
  }

  lemma {:induction false} OctetsSome(results: seq<Result>)
    ensures Octets(results) > 0 <==> exists k :: 0 <= k < |results| && results[k].octets > 0
  {
    if |results| > 0 {
      var h := results[..|results| - 1];
      OctetsSome(h);
      assert forall k :: 0 <= k < |h| ==> h[k] == results[k];
    }
  }

  /** Some octet of an image was read back, and some differently, exactly when its counters say so. */
  lemma CountersTell(r: Result, e: Ets, s: Step, size: nat)
    requires size > 0 && Means(r, e, s, size)
    ensures r.octets > 0 <==> exists i: nat :: IsConfirmed(e, s, i) && InMask(s, i)
    ensures r.mismatches > 0 <==> exists i: nat :: ConfirmsDifferent(e, s, i)
  {
    var read := (i: nat) => IsConfirmed(e, s, i) && InMask(s, i);
    var mismatch := (i: nat) => ConfirmsDifferent(e, s, i);
    BelowSome(read, |s.ours|);
    BelowSome(mismatch, |s.ours|);
    assert forall i: nat :: IsConfirmed(e, s, i) ==> i < |s.ours|;
    assert forall i: nat :: IsConfirmed(e, s, i) && InMask(s, i) <==> read(i);
    assert forall i: nat :: ConfirmsDifferent(e, s, i) <==> mismatch(i);
  }

  lemma ScopedCounters(results: seq<Result>)
    ensures Octets(Judged(results)) > 0 <==>
      exists k :: 0 <= k < |results| && results[k].inScope && results[k].octets > 0
    ensures AnyMismatch(Judged(results)) <==>
      exists k :: 0 <= k < |results| && results[k].inScope && results[k].mismatches > 0
  {
    var judged := Judged(results);
    OctetsSome(judged);
    forall k | 0 <= k < |judged|
      ensures judged[k] in results && judged[k].inScope
    {
      JudgedHolds(results, judged[k]);
    }
    forall k | 0 <= k < |results| && results[k].inScope
      ensures results[k] in judged
    {
      JudgedHolds(results, results[k]);
    }
  }

  /** The coverage with the read-confirmed octets decides exactly when some octet in scope was read back and none
      differently. */
  lemma WhichCoverage(results: seq<Result>, e: Ets, steps: seq<Step>, size: nat)
    requires size > 0 && AllMean(results, e, steps, size)
    ensures UsesConfirmed(Judged(results)) <==>
      && (exists k, i: nat ::
            0 <= k < |steps| && steps[k].inScope && IsConfirmed(e, steps[k], i) && InMask(steps[k], i))
      && (forall k, i: nat :: 0 <= k < |steps| && steps[k].inScope ==> !ConfirmsDifferent(e, steps[k], i))
  {
    ScopedCounters(results);
    forall k | 0 <= k < |steps|
      ensures results[k].inScope == steps[k].inScope
      ensures results[k].octets > 0 <==> exists i: nat :: IsConfirmed(e, steps[k], i) && InMask(steps[k], i)
      ensures results[k].mismatches > 0 <==> exists i: nat :: ConfirmsDifferent(e, steps[k], i)
    {
      assert Means(results[k], e, steps[k], size);
      CountersTell(results[k], e, steps[k], size);
    }
  }

  /** On a page that is not blind some placed octet is known. */
  lemma PageSeen(c: Cover, e: Ets, s: Step, size: nat, confirmed: bool, i: nat)
    requires size > 0 && CoverIs(c, e, s, size, confirmed) && !Blind(c) && IsPlaced(s, i)
    ensures KnownOnPage(Offsets(s), KnownOf(e, s, confirmed), BaseOf(s), size, Page(BaseOf(s), i, size))
  {
    var p, offsets := Page(BaseOf(s), i, size), Offsets(s);
    assert i in offsets;
    var n :| 0 <= n < |offsets| && offsets[n] == i;
    assert Page(BaseOf(s), offsets[n], size) == p;
    PagesMean(offsets, KnownOf(e, s, confirmed), BaseOf(s), size, p);
  }

  function Effective(r: Result, confirmed: bool): Cover { if confirmed then r.withConfirmed else r.cover }

  lemma NoneBlind(results: seq<Result>, confirmed: bool, k: nat)
    requires k < |results| && results[k].inScope && !AnyBlind(Covers(Judged(results), confirmed))
    ensures !Blind(Effective(results[k], confirmed))
  {
    JudgedHolds(results, results[k]);
    var j :| 0 <= j < |Judged(results)| && Judged(results)[j] == results[k];
    assert Covers(Judged(results), confirmed)[j] == Effective(results[k], confirmed);
  }

  /** An identical verdict: enough of the placed octets were looked at. */
  lemma IdenticalIsCovered(judged: seq<Result>, minPercent: real)
    requires Overall(judged, minPercent) == Identical
    ensures var c := Covers(judged, UsesConfirmed(judged));
      Placed(c) > 0 && 100.0 * Compared(c) as real >= minPercent * Placed(c) as real && !AnyBlind(c)
  {
  }

  /** An identical verdict: every page with a placed octet was looked at. */
  lemma IdenticalSeesPages(results: seq<Result>, e: Ets, steps: seq<Step>, minPercent: real, size: nat, k: nat, i: nat)
    requires size > 0 && AllMean(results, e, steps, size)
    requires Overall(Judged(results), minPercent) == Identical
    requires k < |steps| && steps[k].inScope && IsPlaced(steps[k], i)
    ensures KnownOnPage(Offsets(steps[k]), KnownOf(e, steps[k], UsesConfirmed(Judged(results))), BaseOf(steps[k]), size,
                        Page(BaseOf(steps[k]), i, size))
  {
    var confirmed := UsesConfirmed(Judged(results));
    assert Means(results[k], e, steps[k], size);
    IdenticalIsCovered(Judged(results), minPercent);
    NoneBlind(results, confirmed, k);
    PageSeen(Effective(results[k], confirmed), e, steps[k], size, confirmed, i);
  }

  lemma ConfirmedSeesMore(r: Result, e: Ets, s: Step, size: nat)
    requires size > 0 && Means(r, e, s, size)
    ensures SeesMore(r.cover, r.withConfirmed)
  {
    var a, b := KnownOf(e, s, false), KnownOf(e, s, true);
    KnownMore(Offsets(s), a, b, BaseOf(s), size);
    SubsetSize(a, b);
  }

  /** Counting the read-confirmed octets that agree never makes the coverage thin. */
  lemma ConfirmedNeverLowers(results: seq<Result>, e: Ets, steps: seq<Step>, minPercent: real, size: nat)
    requires size > 0 && AllMean(results, e, steps, size)
    ensures Thin(Covers(Judged(results), true), minPercent) ==> Thin(Covers(Judged(results), false), minPercent)
  {
    var judged := Judged(results);
    forall k | 0 <= k < |judged|
      ensures SeesMore(Covers(judged, false)[k], Covers(judged, true)[k])
    {
      JudgedHolds(results, judged[k]);
      var j :| 0 <= j < |results| && results[j] == judged[k];
      ConfirmedSeesMore(results[j], e, steps[j], size);
    }
    ThinShrinks(Covers(judged, false), Covers(judged, true), minPercent);
  }

  /** The verdict the written octets' coverage alone would give. */
  function WrittenOverall(judged: seq<Result>, minPercent: real): Verdict {
    if HasVerdict(judged, Differing) then Differing
    else if HasVerdict(judged, Identical) && !Thin(Covers(judged, false), minPercent) then Identical
    else NotComparable
  }

  lemma NoMismatch(results: seq<Result>, e: Ets, steps: seq<Step>, size: nat, k: nat, i: nat)
    requires size > 0 && AllMean(results, e, steps, size)
    requires k < |steps| && steps[k].inScope && ConfirmsDifferent(e, steps[k], i)
    ensures AnyMismatch(Judged(results))
  {
    assert Means(results[k], e, steps[k], size);
    var mismatch := (i: nat) => ConfirmsDifferent(e, steps[k], i);
    BelowSome(mismatch, |steps[k].ours|);
    assert mismatch(i) && i < |steps[k].ours|;
    JudgedHolds(results, results[k]);
    var j :| 0 <= j < |Judged(results)| && Judged(results)[j] == results[k];
  }

  /** Read-confirmed octets can only turn a thin match into an identical verdict, and only when none in scope differs:
      they never take an identical verdict away and never hide or make a difference. */
  lemma ConfirmedOnlyAdds(results: seq<Result>, e: Ets, steps: seq<Step>, minPercent: real, size: nat)
    requires size > 0 && AllMean(results, e, steps, size)
    ensures
      var v, w := Overall(Judged(results), minPercent), WrittenOverall(Judged(results), minPercent);
      && (v == Differing <==> w == Differing)
      && (w == Identical ==> v == Identical)
      && (v != w ==> forall k, i: nat :: 0 <= k < |steps| && steps[k].inScope ==> !ConfirmsDifferent(e, steps[k], i))
  {
    ConfirmedNeverLowers(results, e, steps, minPercent, size);
    forall k, i: nat | 0 <= k < |steps| && steps[k].inScope && ConfirmsDifferent(e, steps[k], i)
      ensures Overall(Judged(results), minPercent) == WrittenOverall(Judged(results), minPercent)
    {
      NoMismatch(results, e, steps, size, k, i);
    }
  }

  // ----- a limit of the verdict: placed octets that the mask drops

  /** The placed offsets the comparison really looked at. */
  function PlacedCompared(e: Ets, s: Step): set<nat> { set i | i in Offsets(s) && IsCompared(e, s, i) }

  /** For one download: the counted octets are the compared ones exactly when every placed octet with a known value is
      in the mask. */
  lemma CountsCompared(e: Ets, s: Step)
    ensures KnownOf(e, s, false) == PlacedCompared(e, s) <==>
      forall i: nat :: IsPlaced(s, i) && s.address.Some? && s.address.value + i in e.Known() ==> InMask(s, i)
  {
    if KnownOf(e, s, false) == PlacedCompared(e, s) {
      forall i: nat | IsPlaced(s, i) && s.address.Some? && s.address.value + i in e.Known()
        ensures InMask(s, i)
      {
        assert i in Offsets(s);
        assert i in KnownOf(e, s, false);
      }
    }
  }

  /** For every download: the coverage counts what was compared exactly when the placed ranges stay in the mask (or the
      image has no address and counts nothing). */
  lemma CountsWhatIsCompared(s: Step)
    ensures (forall e: Ets :: KnownOf(e, s, false) == PlacedCompared(e, s)) <==>
      s.address.None? || forall i: nat :: IsPlaced(s, i) ==> InMask(s, i)
  {
    if s.address.None? || forall i: nat :: IsPlaced(s, i) ==> InMask(s, i) {
      forall e: Ets
        ensures KnownOf(e, s, false) == PlacedCompared(e, s)
      {
        CountsCompared(e, s);
      }
    } else {
      var i: nat :| IsPlaced(s, i) && !InMask(s, i);
      var e := Ets(map[s.address.value + i := 0], map[], map[]);
      assert s.address.value + i in e.Known();
      CountsCompared(e, s);
      assert KnownOf(e, s, false) != PlacedCompared(e, s);
    }
  }

  /** Three placed octets, two of them out of the mask and different in the download. */
  function MaskedStep(x: Octet): Step { Step(Some(0), [x, x, x], Some([255, 0, 0]), [(0, 3)], true) }

  function MaskedEts(x: Octet, y: Octet): Ets { Ets(map[0 := x, 1 := y, 2 := y], map[], map[]) }

  lemma MaskedOffsets(x: Octet)
    ensures Offsets(MaskedStep(x)) == [0, 1, 2]
  {
    var s := MaskedStep(x);
    assert RangeOffsets(2, 3, 3) == [2];
    assert RangeOffsets(1, 3, 3) == [1, 2];
    assert RangeOffsets(0, 3, 3) == [0, 1, 2];
    assert RangesOffsets(s, 0) == [];
    assert RangesOffsets(s, 1) == [] + RangeOffsets(0, 3, 3);
  }

  lemma MaskedSets(x: Octet, y: Octet)
    ensures KnownOf(MaskedEts(x, y), MaskedStep(x), false) == {0, 1, 2}
    ensures PlacedCompared(MaskedEts(x, y), MaskedStep(x)) == {0}
  {
    MaskedOffsets(x);
    var s, e := MaskedStep(x), MaskedEts(x, y);
    assert e.Known() == map[0 := x, 1 := y, 2 := y];
    assert InMask(s, 0) && !InMask(s, 1) && !InMask(s, 2);
    forall i: nat
      ensures i in KnownOf(e, s, false) <==> i in {0, 1, 2}
      ensures i in PlacedCompared(e, s) <==> i in {0}
    {
      assert i in Offsets(s) <==> i == 0 || i == 1 || i == 2;
    }
  }

  /** Its verdict is identical, with all three octets counted, although one was compared: a third is below the threshold
      of one half. */
  method CountedButSkipped(x: Octet, y: Octet) returns (v: Verdict, r: Result)
    ensures v == Identical && r.cover.placed == r.cover.compared == 3
    ensures |PlacedCompared(MaskedEts(x, y), MaskedStep(x))| == 1 && TooSmall(3, 1, 50.0)
  {
    var results;
    v, results := Compare(MaskedEts(x, y), [MaskedStep(x)], 50.0, 256);
    r := results[0];
    OneMeans(results, MaskedEts(x, y), MaskedStep(x), 256);
    MaskedSets(x, y);
    MaskedCover(x, y, r);
    MaskedVerdict(x, y, r);
  }

  lemma MaskedVerdict(x: Octet, y: Octet, r: Result)
    requires Means(r, MaskedEts(x, y), MaskedStep(x), 256)
    ensures Overall(Judged([r]), 50.0) == Identical
  {
    MaskedCover(x, y, r);
    MaskedMatches(x, y, r);
    MaskedThin(r);
    OneJudged([r], r);
  }

  lemma OneMeans(results: seq<Result>, e: Ets, s: Step, size: nat)
    requires size > 0 && AllMean(results, e, [s], size)
    ensures results == [results[0]] && Means(results[0], e, s, size)
  {
    assert [s][0] == s;
  }

  lemma OneJudged(results: seq<Result>, r: Result)
    requires results == [r] && r.inScope
    ensures Judged(results) == [r]
  {
    assert results[..0] == [];
    assert Judged([]) == [];
  }

  lemma MaskedMatches(x: Octet, y: Octet, r: Result)
    requires Means(r, MaskedEts(x, y), MaskedStep(x), 256)
    ensures r.verdict == Identical && r.inScope && r.octets == 0
  {
    MaskedSets(x, y);
    assert IsCompared(MaskedEts(x, y), MaskedStep(x), 0);
    forall i: nat
      ensures !IsDifferent(MaskedEts(x, y), MaskedStep(x), i)
    {
      if i != 0 {
        assert !IsCompared(MaskedEts(x, y), MaskedStep(x), i);
      }
    }
    assert forall i: nat :: !IsConfirmed(MaskedEts(x, y), MaskedStep(x), i);
    assert ReadOffsets(MaskedEts(x, y), MaskedStep(x), 3) == {};
  }

  lemma MaskedCover(x: Octet, y: Octet, r: Result)
    requires Means(r, MaskedEts(x, y), MaskedStep(x), 256)
    ensures r.cover.placed == 3 && r.cover.compared == 3 && !Blind(r.cover)
  {
    MaskedOffsets(x);
    MaskedSets(x, y);
    NoneUnseen([0, 1, 2], {0, 1, 2}, 0, 256);
  }

  /** With every offset known no page is blind. */
  lemma NoneUnseen(offsets: seq<nat>, known: set<nat>, base: int, size: nat)
    requires size > 0 && forall k :: 0 <= k < |offsets| ==> offsets[k] in known
    ensures forall p :: p in PagesOf(offsets, known, base, size) ==> PagesOf(offsets, known, base, size)[p].compared > 0
  {
    forall p | p in PagesOf(offsets, known, base, size)
      ensures PagesOf(offsets, known, base, size)[p].compared > 0
    {
      PagesMean(offsets, known, base, size, p);
      var k :| 0 <= k < |offsets| && Page(base, offsets[k], size) == p;
      assert offsets[k] in known;
    }
  }

  lemma MaskedThin(r: Result)
    requires r.inScope && r.octets == 0 && r.cover.placed == 3 && r.cover.compared == 3 && !Blind(r.cover)
    ensures !Thin(Covers([r], UsesConfirmed([r])), 50.0)
  {
    assert [r][..0] == [];
    assert Octets([]) == 0 && Octets([r]) == 0;
    var c := Covers([r], false);
    assert c == [r.cover] && c[..0] == [];
    assert Placed([]) == 0 && Compared([]) == 0;
    assert Placed(c) == 3 && Compared(c) == 3;
  }
}
