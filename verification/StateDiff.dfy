/** The device state after a partial download: the two final memories are
    compared on every octet either side wrote, grouped by segment. */
module StateDiff {

  import opened Memory
  import opened Runs

  /** The absolute segment of a load-state object. */
  datatype Segment = Segment(obj: int, start: int, length: int)

  datatype RegionName = OfObject(obj: int) | Page(base: int)

  /** The first segment that holds the address, else the address's 256-octet page. */
  function RegionOf(segs: seq<Segment>, a: int): RegionName {
    if |segs| == 0 then Page(a - a % 256)
    else if segs[0].start <= a < segs[0].start + segs[0].length then OfObject(segs[0].obj)
    else RegionOf(segs[1..], a)
  }

  /** The counters of one region. */
  datatype Tally = Tally(name: RegionName, compared: nat, differing: nat, unknown: nat, etsWritten: nat,
                         oursWritten: nat)

  /** One side's or the other's value is missing, or they are unequal. */
  predicate Differs(ours: Image, ets: Image, a: int) { a !in ours || a !in ets || ours[a] != ets[a] }

  datatype Sides = Sides(before: Image, etsStep: Image, oursStep: Image) {
    function Ets(): Image { before + etsStep }
    function Ours(): Image { before + oursStep }
    function Touched(): set<int> { etsStep.Keys + oursStep.Keys }
  }

  // ----- the base downloads

  function Base(downloads: seq<seq<Region>>): Image {
    if |downloads| == 0 then map[]
    else Base(downloads[..|downloads| - 1]) + LastWins(downloads[|downloads| - 1])
  }

  method ComposeBase(downloads: seq<seq<Region>>) returns (before: Image)
    ensures before == Base(downloads)
  {
    before := map[];
    for i := 0 to |downloads|
      invariant before == Base(downloads[..i])
    {
      assert downloads[..i + 1][..i] == downloads[..i];
      var step := Flatten(downloads[i]);
      before := before + step;
    }
    assert downloads[..|downloads|] == downloads;
  }

  /** The two sides of a step: the base downloads, and what each side wrote. */
  function SidesOf(base: seq<seq<Region>>, ets: seq<Region>, ours: seq<Region>): Sides {
    Sides(Base(base), LastWins(ets), LastWins(ours))
  }

  // ----- counting by region

  function Index(ts: seq<Tally>, name: RegionName): (k: nat)
    ensures k <= |ts|
    ensures k < |ts| ==> ts[k].name == name
    ensures forall i :: 0 <= i < k ==> ts[i].name != name
  {
    if |ts| == 0 then 0 else if ts[0].name == name then 0 else
      var k := Index(ts[1..], name);
      assert forall i :: 0 < i < k + 1 ==> ts[i] == ts[1..][i - 1];
      k + 1
  }

  function One(b: bool): nat { if b then 1 else 0 }

  function Bump(t: Tally, s: Sides, a: int): Tally {
    Tally(t.name, t.compared + 1, t.differing + One(Differs(s.Ours(), s.Ets(), a)),
      t.unknown + One(Unknown(s, a)), t.etsWritten + One(a in s.etsStep), t.oursWritten + One(a in s.oursStep))
  }

  function Add(ts: seq<Tally>, segs: seq<Segment>, s: Sides, a: int): seq<Tally> {
    var name := RegionOf(segs, a);
    var k := Index(ts, name);
    if k < |ts| then ts[k := Bump(ts[k], s, a)] else ts + [Bump(Tally(name, 0, 0, 0, 0, 0), s, a)]
  }

  function Tallies(segs: seq<Segment>, s: Sides, addrs: seq<int>): seq<Tally> {
    if |addrs| == 0 then [] else Add(Tallies(segs, s, addrs[..|addrs| - 1]), segs, s, addrs[|addrs| - 1])
  }

  // ----- what the counters mean

  function Sum(ts: seq<Tally>, f: Tally -> nat): nat {
    if |ts| == 0 then 0 else Sum(ts[..|ts| - 1], f) + f(ts[|ts| - 1])
  }

  lemma {:induction false} SumUpdate(ts: seq<Tally>, k: nat, t: Tally, f: Tally -> nat)
    requires k < |ts|
    ensures Sum(ts[k := t], f) == Sum(ts, f) - f(ts[k]) + f(t)
  {
    var n := |ts| - 1;
    if k < n {
      SumUpdate(ts[..n], k, t, f);
      assert ts[k := t][..n] == ts[..n][k := t];
    } else {
      assert ts[k := t][..n] == ts[..n];
    }
  }

  lemma SumMore(ts: seq<Tally>, t: Tally, f: Tally -> nat)
    ensures Sum(ts + [t], f) == Sum(ts, f) + f(t)
  {
    assert (ts + [t])[..|ts|] == ts;
  }

  function ComparedOf(t: Tally): nat { t.compared }

  function DifferingOf(t: Tally): nat { t.differing }

  function DiffersAt(s: Sides): int -> bool { a => Differs(s.Ours(), s.Ets(), a) }

  function InRegion(segs: seq<Segment>, name: RegionName): int -> bool { a => RegionOf(segs, a) == name }

  function DiffersIn(segs: seq<Segment>, name: RegionName, s: Sides): int -> bool {
    a => RegionOf(segs, a) == name && Differs(s.Ours(), s.Ets(), a)
  }

  predicate Unknown(s: Sides, a: int) { a !in s.Ours() || a !in s.Ets() }

  function UnknownIn(segs: seq<Segment>, name: RegionName, s: Sides): int -> bool {
    a => RegionOf(segs, a) == name && Unknown(s, a)
  }

  function HeldIn(segs: seq<Segment>, name: RegionName, step: Image): int -> bool {
    a => RegionOf(segs, a) == name && a in step
  }

  function Count(addrs: seq<int>, p: int -> bool): nat {
    if |addrs| == 0 then 0 else Count(addrs[..|addrs| - 1], p) + One(p(addrs[|addrs| - 1]))
  }

  lemma {:induction false} CountZero(addrs: seq<int>, p: int -> bool)
    ensures Count(addrs, p) == 0 <==> forall a :: a in addrs ==> !p(a)
  {
    if |addrs| > 0 {
      var h, l := addrs[..|addrs| - 1], addrs[|addrs| - 1];
      CountZero(h, p);
      assert addrs == h + [l];
    }
  }

  /** The regions' counters add up to the totals. */
  lemma {:induction false} TotalsAdd(segs: seq<Segment>, s: Sides, addrs: seq<int>)
    ensures Sum(Tallies(segs, s, addrs), ComparedOf) == |addrs|
    ensures Sum(Tallies(segs, s, addrs), DifferingOf) == Count(addrs, DiffersAt(s))
  {
    if |addrs| > 0 {
      var h, l := addrs[..|addrs| - 1], addrs[|addrs| - 1];
      TotalsAdd(segs, s, h);
      var ts := Tallies(segs, s, h);
      var name := RegionOf(segs, l);
      var k := Index(ts, name);
      if k < |ts| {
        SumUpdate(ts, k, Bump(ts[k], s, l), ComparedOf);
        SumUpdate(ts, k, Bump(ts[k], s, l), DifferingOf);
      } else {
        SumMore(ts, Bump(Tally(name, 0, 0, 0, 0, 0), s, l), ComparedOf);
        SumMore(ts, Bump(Tally(name, 0, 0, 0, 0, 0), s, l), DifferingOf);
      }
    }
  }

  ghost predicate Counts(t: Tally, segs: seq<Segment>, s: Sides, addrs: seq<int>) {
    && t.compared == Count(addrs, InRegion(segs, t.name))
    && t.differing == Count(addrs, DiffersIn(segs, t.name, s))
    && t.unknown == Count(addrs, UnknownIn(segs, t.name, s))
    && t.etsWritten == Count(addrs, HeldIn(segs, t.name, s.etsStep))
    && t.oursWritten == Count(addrs, HeldIn(segs, t.name, s.oursStep))
  }

  lemma CountMore(h: seq<int>, l: int, p: int -> bool)
    ensures Count(h + [l], p) == Count(h, p) + One(p(l))
  {
    assert (h + [l])[..|h|] == h;
  }

  lemma CountsOther(t: Tally, segs: seq<Segment>, s: Sides, h: seq<int>, l: int)
    requires Counts(t, segs, s, h) && RegionOf(segs, l) != t.name
    ensures Counts(t, segs, s, h + [l])
  {
    CountMore(h, l, InRegion(segs, t.name));
    CountMore(h, l, DiffersIn(segs, t.name, s));
    CountMore(h, l, UnknownIn(segs, t.name, s));
    CountMore(h, l, HeldIn(segs, t.name, s.etsStep));
    CountMore(h, l, HeldIn(segs, t.name, s.oursStep));
  }

  lemma CountsThis(t: Tally, segs: seq<Segment>, s: Sides, h: seq<int>, l: int)
    requires Counts(t, segs, s, h) && RegionOf(segs, l) == t.name
    ensures Counts(Bump(t, s, l), segs, s, h + [l])
  {
    CountMore(h, l, InRegion(segs, t.name));
    CountMore(h, l, DiffersIn(segs, t.name, s));
    CountMore(h, l, UnknownIn(segs, t.name, s));
    CountMore(h, l, HeldIn(segs, t.name, s.etsStep));
    CountMore(h, l, HeldIn(segs, t.name, s.oursStep));
  }

  lemma CountsNone(name: RegionName, segs: seq<Segment>, s: Sides, h: seq<int>)
    requires forall a :: a in h ==> RegionOf(segs, a) != name
    ensures Counts(Tally(name, 0, 0, 0, 0, 0), segs, s, h)
  {
    CountZero(h, InRegion(segs, name));
    CountZero(h, DiffersIn(segs, name, s));
    CountZero(h, UnknownIn(segs, name, s));
    CountZero(h, HeldIn(segs, name, s.etsStep));
    CountZero(h, HeldIn(segs, name, s.oursStep));
  }

  /** Each region is listed once, counts exactly its own touched octets, and every touched octet has its region. */
  lemma {:induction false} TalliesCount(segs: seq<Segment>, s: Sides, addrs: seq<int>)
    ensures forall i :: 0 <= i < |Tallies(segs, s, addrs)| ==> Counts(Tallies(segs, s, addrs)[i], segs, s, addrs)
    ensures forall i, j :: 0 <= i < j < |Tallies(segs, s, addrs)| ==>
      Tallies(segs, s, addrs)[i].name != Tallies(segs, s, addrs)[j].name
    ensures forall a :: a in addrs ==> Index(Tallies(segs, s, addrs), RegionOf(segs, a)) < |Tallies(segs, s, addrs)|
  {
    if |addrs| > 0 {
      var h, l := addrs[..|addrs| - 1], addrs[|addrs| - 1];
      assert addrs == h + [l];
      TalliesCount(segs, s, h);
      AddCounts(Tallies(segs, s, h), segs, s, h, l);
    }
  }

  lemma AddCounts(ts: seq<Tally>, segs: seq<Segment>, s: Sides, h: seq<int>, l: int)
    requires forall i :: 0 <= i < |ts| ==> Counts(ts[i], segs, s, h)
    requires forall i, j :: 0 <= i < j < |ts| ==> ts[i].name != ts[j].name
    requires forall a :: a in h ==> Index(ts, RegionOf(segs, a)) < |ts|
    ensures
      var us := Add(ts, segs, s, l);
      && (forall i :: 0 <= i < |us| ==> Counts(us[i], segs, s, h + [l]))
      && (forall i, j :: 0 <= i < j < |us| ==> us[i].name != us[j].name)
      && (forall a :: a in h + [l] ==> Index(us, RegionOf(segs, a)) < |us|)
  {
    var name := RegionOf(segs, l);
    var k := Index(ts, name);
    var us := Add(ts, segs, s, l);
    forall i | 0 <= i < |us|
      ensures Counts(us[i], segs, s, h + [l])
    {
      if i < |ts| && i != k {
        CountsOther(ts[i], segs, s, h, l);
      } else if i < |ts| {
        CountsThis(ts[i], segs, s, h, l);
      } else {
        CountsNone(name, segs, s, h);
        CountsThis(Tally(name, 0, 0, 0, 0, 0), segs, s, h, l);
      }
    }
    forall a | a in h + [l]
      ensures Index(us, RegionOf(segs, a)) < |us|
    {
      var n := if a in h then Index(ts, RegionOf(segs, a)) else k;
      assert us[n].name == RegionOf(segs, a);
    }
  }

  // ----- the comparison

  datatype Verdict = Identical | Differing | NotComparable

  datatype Report = Report(verdict: Verdict, regions: seq<Tally>, compared: nat, differing: nat)

  /** The loop over the touched addresses. */
  method TallyLoop(segs: seq<Segment>, s: Sides, touched: seq<int>) returns (regions: seq<Tally>)
    ensures regions == Tallies(segs, s, touched)
  {
    regions := [];
    for i := 0 to |touched|
      invariant regions == Tallies(segs, s, touched[..i])
    {
      var addr := touched[i];
      assert touched[..i + 1][..i] == touched[..i];
      var name := RegionOf(segs, addr);
      var k := Index(regions, name);
      if k == |regions| {
        regions := regions + [Tally(name, 0, 0, 0, 0, 0)];
      }
      regions := regions[k := Bump(regions[k], s, addr)];
    }
    assert touched[..|touched|] == touched;
  }

  method TotalDiffering(regions: seq<Tally>) returns (n: nat)
    ensures n == Sum(regions, DifferingOf)
  {
    n := 0;
    for i := 0 to |regions|
      invariant n == Sum(regions[..i], DifferingOf)
    {
      assert regions[..i + 1][..i] == regions[..i];
      n := n + regions[i].differing;
    }
    assert regions[..|regions|] == regions;
  }

  /** Outside what either side wrote, both memories are the base. */
  lemma Untouched(s: Sides, a: int)
    requires a !in s.Touched()
    ensures a in s.Ours() <==> a in s.Ets()
    ensures a in s.Ours() ==> s.Ours()[a] == s.Ets()[a]
  {
  }

  lemma TouchedKnown(s: Sides, a: int)
    requires a in s.Touched()
    ensures a in s.Ours() || a in s.Ets()
  {
  }

  ghost predicate TouchedEqual(s: Sides) { forall a :: a in s.Touched() ==> !Differs(s.Ours(), s.Ets(), a) }

  lemma EqualWhenTouchedEqual(s: Sides)
    ensures TouchedEqual(s) <==> s.Ours() == s.Ets()
  {
    var m, n := s.Ours(), s.Ets();
    if TouchedEqual(s) {
      forall a
        ensures (a in m <==> a in n) && (a in m ==> m[a] == n[a])
      {
        if a in s.Touched() {
          assert !Differs(m, n, a);
        } else {
          Untouched(s, a);
        }
      }
      assert m == n;
    }
    if m == n {
      forall a | a in s.Touched()
        ensures !Differs(m, n, a)
      {
        TouchedKnown(s, a);
      }
    }
  }

  lemma NoneDiffer(s: Sides, touched: seq<int>)
    requires Lists(touched, s.Touched())
    ensures Count(touched, DiffersAt(s)) == 0 <==> s.Ours() == s.Ets()
    ensures |touched| == 0 <==> s.Touched() == {}
  {
    CountZero(touched, DiffersAt(s));
    EqualWhenTouchedEqual(s);
    assert TouchedEqual(s) <==> forall a :: a in touched ==> !DiffersAt(s)(a);
    if |touched| > 0 {
      assert touched[0] in touched;
    } else {
      assert forall a :: a in s.Touched() ==> a in touched;
    }
  }

  /** The counters of a report are those of the touched addresses. */
  ghost predicate CountsTouched(r: Report, segs: seq<Segment>, s: Sides, touched: seq<int>) {
    && Lists(touched, s.Touched())
    && r.regions == Tallies(segs, s, touched)
    && Sum(r.regions, ComparedOf) == r.compared == |touched|
    && Sum(r.regions, DifferingOf) == r.differing == Count(touched, DiffersAt(s))
  }

  /** The verdict is Identical exactly when the two complete final memories are equal, once either side wrote. */
  ghost predicate IsReport(r: Report, segs: seq<Segment>, s: Sides) {
    && (r.verdict == NotComparable <==> s.Touched() == {})
    && (r.verdict == Identical <==> s.Touched() != {} && s.Ours() == s.Ets())
    && exists touched :: CountsTouched(r, segs, s, touched)
  }

  method CompareStates(base: seq<seq<Region>>, ets: seq<Region>, ours: seq<Region>, segs: seq<Segment>)
    returns (r: Report)
    ensures IsReport(r, segs, SidesOf(base, ets, ours))
  {
    var before := ComposeBase(base);
    var etsStep := Flatten(ets);
    var oursStep := Flatten(ours);
    var s := Sides(before, etsStep, oursStep);
    var touched := Sorted(etsStep.Keys + oursStep.Keys);
    var regions := TallyLoop(segs, s, touched);
    TotalsAdd(segs, s, touched);
    var differing := TotalDiffering(regions);
    NoneDiffer(s, touched);
    var verdict := if |touched| == 0 then NotComparable else if differing > 0 then Differing else Identical;
    r := Report(verdict, regions, |touched|, differing);
    assert CountsTouched(r, segs, s, touched);
  }

  lemma {:induction false} ListsUnique(s: seq<int>, t: seq<int>, keys: set<int>)
    requires Lists(s, keys) && Lists(t, keys)
    ensures s == t
  {
    if |s| == 0 {
      if |t| > 0 {
        LastIsGreatest(t, s, keys);
      }
    } else {
      LastIsGreatest(s, t, keys);
      var n, m := |s| - 1, |t| - 1;
      assert Lists(s[..n], keys - {s[n]}) by { WithoutLast(s, keys); }
      assert Lists(t[..m], keys - {t[m]}) by { WithoutLast(t, keys); }
      ListsUnique(s[..n], t[..m], keys - {s[n]});
      assert s == s[..n] + [s[n]] && t == t[..m] + [t[m]];
    }
  }

  lemma WithoutLast(s: seq<int>, keys: set<int>)
    requires Lists(s, keys) && |s| > 0
    ensures Lists(s[..|s| - 1], keys - {s[|s| - 1]})
  {
    var h, l := s[..|s| - 1], s[|s| - 1];
    assert s == h + [l];
    forall a
      ensures a in h <==> a in keys - {l}
    {
      assert a in s <==> a in h || a == l;
      if a in h {
        var i :| 0 <= i < |h| && h[i] == a;
        assert s[i] < s[|s| - 1];
      }
    }
  }

  lemma LastIsGreatest(s: seq<int>, t: seq<int>, keys: set<int>)
    requires Lists(s, keys) && Lists(t, keys) && |s| > 0
    ensures |t| > 0 && s[|s| - 1] == t[|t| - 1]
  {
    var x := s[|s| - 1];
    assert x in s && x in t;
    var i :| 0 <= i < |t| && t[i] == x;
    var y := t[|t| - 1];
    assert y in t && y in s;
    var j :| 0 <= j < |s| && s[j] == y;
  }

  /** The report depends on the memories alone: however the writes were chunked, there is one report. */
  lemma ChunkingDoesNotMatter(r: Report, t: Report, segs: seq<Segment>, base: seq<seq<Region>>, ets: seq<Region>,
                              ours: seq<Region>,
                              base': seq<seq<Region>>, ets': seq<Region>, ours': seq<Region>)
    requires IsReport(r, segs, SidesOf(base, ets, ours)) && IsReport(t, segs, SidesOf(base', ets', ours'))
    requires Base(base) == Base(base') && LastWins(ets) == LastWins(ets') && LastWins(ours) == LastWins(ours')
    ensures r == t
  {
    var s := SidesOf(base, ets, ours);
    var a :| CountsTouched(r, segs, s, a);
    var b :| CountsTouched(t, segs, s, b);
    ListsUnique(a, b, s.Touched());
  }

  // ----- the two final memories

  /** All writes of some downloads, one after the other. */
  function AllWrites(downloads: seq<seq<Region>>): seq<Region> {
    if |downloads| == 0 then [] else AllWrites(downloads[..|downloads| - 1]) + downloads[|downloads| - 1]
  }

  lemma {:induction false} BaseIs(downloads: seq<seq<Region>>)
    ensures Base(downloads) == LastWins(AllWrites(downloads))
  {
    if |downloads| > 0 {
      var front, l := downloads[..|downloads| - 1], downloads[|downloads| - 1];
      BaseIs(front);
      WrittenJoin(map[], AllWrites(front), l);
    }
  }

  /** A side's final memory is what all its writes leave, one after the other: the base downloads and then its step. */
  lemma FinalMemories(base: seq<seq<Region>>, ets: seq<Region>, ours: seq<Region>)
    ensures SidesOf(base, ets, ours).Ets() == LastWins(AllWrites(base) + ets)
    ensures SidesOf(base, ets, ours).Ours() == LastWins(AllWrites(base) + ours)
  {
    BaseIs(base);
    WrittenJoin(map[], AllWrites(base), ets);
    WrittenJoin(map[], AllWrites(base), ours);
  }

  /** An octet differs exactly when one side has none there or the sides leave different ones, and is unknown exactly
      when one side has none. */
  lemma OctetDiffers(base: seq<seq<Region>>, ets: seq<Region>, ours: seq<Region>, a: int)
    ensures
      var s, v, w := SidesOf(base, ets, ours), AllWrites(base) + ets, AllWrites(base) + ours;
      && (Unknown(s, a) <==> !Memory.Touched(v, a) || !Memory.Touched(w, a))
      && (Differs(s.Ours(), s.Ets(), a) <==> forall x :: !(Leaves(v, a, x) && Leaves(w, a, x)))
  {
    var v, w := AllWrites(base) + ets, AllWrites(base) + ours;
    FinalMemories(base, ets, ours);
    LastWriteWins(v, a);
    LastWriteWins(w, a);
    if a in LastWins(v) && a in LastWins(w) {
      assert Leaves(v, a, LastWins(v)[a]) && Leaves(w, a, LastWins(w)[a]);
    }
  }

  // ----- the regions

  predicate InSegment(seg: Segment, a: int) { seg.start <= a < seg.start + seg.length }

  /** Segment k is the first that holds the octet. */
  predicate FirstHolder(segs: seq<Segment>, k: nat, a: int) {
    k < |segs| && InSegment(segs[k], a) && forall j :: 0 <= j < k ==> !InSegment(segs[j], a)
  }

  /** An octet is counted for the first segment that holds it, and for its page of 256 octets exactly when none does. */
  lemma {:induction false} RegionIs(segs: seq<Segment>, a: int)
    ensures RegionOf(segs, a).Page? <==> forall k :: 0 <= k < |segs| ==> !InSegment(segs[k], a)
    ensures RegionOf(segs, a).Page? ==> RegionOf(segs, a).base <= a < RegionOf(segs, a).base + 256
    ensures RegionOf(segs, a).Page? ==> RegionOf(segs, a).base % 256 == 0
    ensures forall k: nat :: FirstHolder(segs, k, a) ==> RegionOf(segs, a) == OfObject(segs[k].obj)
  {
    if segs != [] {
      var rest := segs[1..];
      RegionIs(rest, a);
      assert forall k :: 0 < k < |segs| ==> segs[k] == rest[k - 1];
      forall k: nat | FirstHolder(segs, k, a)
        ensures RegionOf(segs, a) == OfObject(segs[k].obj)
      {
        if k > 0 {
          assert !InSegment(segs[0], a);
          assert FirstHolder(rest, k - 1, a) by {
            assert forall j :: 0 <= j < k - 1 ==> rest[j] == segs[j + 1];
          }
        }
      }
      if forall k :: 0 <= k < |segs| ==> !InSegment(segs[k], a) {
        assert !InSegment(segs[0], a);
        assert forall k :: 0 <= k < |rest| ==> rest[k] == segs[k + 1];
      }
      if forall k :: 0 <= k < |rest| ==> !InSegment(rest[k], a) {
        forall k | 0 < k < |segs|
          ensures !InSegment(segs[k], a)
        {
          assert segs[k] == rest[k - 1];
        }
      }
    }
  }
}
