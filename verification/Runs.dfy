/** Coalesced regions are a canonical form, and every run-splitter of the
    comparison tools computes it. */
module Runs {

  import opened Memory

  // ----- ranges of addresses

  predicate Covers(r: seq<Range>, a: int) {
    |r| > 0 && (r[0].start <= a < r[0].end || Covers(r[1..], a))
  }

  /** Nonempty ranges in order, with a gap before each next one. */
  predicate Split(r: seq<Range>) {
    |r| > 0 ==> r[0].start < r[0].end && (|r| > 1 ==> r[0].end < r[1].start) && Split(r[1..])
  }

  lemma {:induction false} AfterFirst(r: seq<Range>, a: int)
    requires Split(r) && Covers(r, a)
    ensures r[0].start <= a && (Covers(r[1..], a) ==> r[0].end < a)
  {
    if Covers(r[1..], a) {
      AfterFirst(r[1..], a);
    }
  }

  lemma FirstNotBefore(r: seq<Range>, s: seq<Range>)
    requires Split(r) && Split(s) && |r| > 0 && forall a :: Covers(r, a) ==> Covers(s, a)
    ensures |s| > 0 && s[0].start <= r[0].start
  {
    assert Covers(r, r[0].start);
    AfterFirst(s, r[0].start);
  }

  lemma NotCoveredAtEnd(r: seq<Range>)
    requires Split(r) && |r| > 0
    ensures !Covers(r, r[0].end)
  {
    if Covers(r, r[0].end) {
      AfterFirst(r, r[0].end);
    }
  }

  ghost predicate SameCover(r: seq<Range>, s: seq<Range>) { forall a :: Covers(r, a) <==> Covers(s, a) }

  lemma FirstSame(r: seq<Range>, s: seq<Range>)
    requires Split(r) && Split(s) && |r| > 0 && SameCover(r, s)
    ensures |s| > 0 && r[0] == s[0]
  {
    FirstNotBefore(r, s);
    FirstNotBefore(s, r);
    NotCoveredAtEnd(r);
    NotCoveredAtEnd(s);
    assert Covers(s, r[0].end) <==> Covers(r, r[0].end);
    assert Covers(r, s[0].end) <==> Covers(s, s[0].end);
  }

  lemma RestSame(r: seq<Range>, s: seq<Range>)
    requires Split(r) && Split(s) && |r| > 0 && |s| > 0 && r[0] == s[0] && SameCover(r, s)
    ensures SameCover(r[1..], s[1..])
  {
    forall a
      ensures Covers(r[1..], a) <==> Covers(s[1..], a)
    {
      assert Covers(r, a) <==> Covers(s, a);
      if Covers(r[1..], a) {
        AfterFirst(r, a);
      }
      if Covers(s[1..], a) {
        AfterFirst(s, a);
      }
    }
  }

  /** There is one way to split a set of addresses into runs. */
  lemma {:induction false} SplitUnique(r: seq<Range>, s: seq<Range>)
    requires Split(r) && Split(s) && SameCover(r, s)
    ensures r == s
  {
    if |r| == 0 {
      if |s| > 0 {
        FirstSame(s, r);
      }
    } else {
      FirstSame(r, s);
      RestSame(r, s);
      SplitUnique(r[1..], s[1..]);
      assert r == [r[0]] + r[1..] && s == [s[0]] + s[1..];
    }
  }

  // ----- the two run-splitters on address lists

  lemma {:induction false} CoversMore(r: seq<Range>, x: Range, a: int)
    ensures Covers(r + [x], a) <==> Covers(r, a) || x.start <= a < x.end
  {
    if |r| == 0 {
      assert r + [x] == [x];
      assert [x][1..] == [];
    } else {
      CoversMore(r[1..], x, a);
      assert (r + [x])[1..] == r[1..] + [x];
    }
  }

  lemma {:induction false} SplitMore(r: seq<Range>, x: Range)
    ensures Split(r + [x]) <==> Split(r) && x.start < x.end && (|r| > 0 ==> r[|r| - 1].end < x.start)
  {
    if |r| == 0 {
      assert r + [x] == [x];
      assert [x][1..] == [];
    } else {
      SplitMore(r[1..], x);
      assert (r + [x])[1..] == r[1..] + [x];
    }
  }

  /** r is the split of the first n addresses. */
  ghost predicate SplitOf(r: seq<Range>, addrs: seq<int>, n: nat)
    requires n <= |addrs|
  {
    && Split(r)
    && (forall a :: Covers(r, a) <==> a in addrs[..n])
    && (|r| > 0 <==> n > 0)
    && (n > 0 ==> r[|r| - 1].end == addrs[n - 1] + 1)
  }

  lemma SplitStarts(r: seq<Range>, addrs: seq<int>, n: nat)
    requires Increasing(addrs) && n < |addrs| && SplitOf(r, addrs, n) && (n > 0 ==> addrs[n - 1] + 1 != addrs[n])
    ensures SplitOf(r + [Range(addrs[n], addrs[n] + 1)], addrs, n + 1)
  {
    var x := Range(addrs[n], addrs[n] + 1);
    SplitMore(r, x);
    assert addrs[..n + 1] == addrs[..n] + [addrs[n]];
    forall a
      ensures Covers(r + [x], a) <==> a in addrs[..n + 1]
    {
      CoversMore(r, x, a);
    }
  }

  lemma SplitExtends(r: seq<Range>, addrs: seq<int>, n: nat, x: Range)
    requires Increasing(addrs) && n < |addrs| && SplitOf(r, addrs, n) && n > 0 && addrs[n - 1] + 1 == addrs[n]
    requires x == Range(r[|r| - 1].start, addrs[n] + 1)
    ensures SplitOf(r[..|r| - 1] + [x], addrs, n + 1)
  {
    var h, l := r[..|r| - 1], r[|r| - 1];
    assert r == h + [l];
    SplitMore(h, l);
    SplitMore(h, x);
    assert addrs[..n + 1] == addrs[..n] + [addrs[n]];
    forall a
      ensures Covers(h + [x], a) <==> a in addrs[..n + 1]
    {
      CoversMore(h, l, a);
      CoversMore(h, x, a);
    }
  }

  /** The splitter of the operation diff: it keeps the start and the last address of the open run. */
  method RangesByStart(addrs: seq<int>) returns (out: seq<Range>)
    requires Increasing(addrs)
    ensures SplitOf(out, addrs, |addrs|)
  {
    out := [];
    if |addrs| == 0 {
      return;
    }
    var start, prev := addrs[0], addrs[0];
    SplitStarts([], addrs, 0);
    assert [] + [Range(addrs[0], addrs[0] + 1)] == [Range(addrs[0], addrs[0] + 1)];
    for n := 1 to |addrs|
      invariant prev == addrs[n - 1] && SplitOf(out + [Range(start, prev + 1)], addrs, n)
    {
      var addr := addrs[n];
      ghost var now := out + [Range(start, prev + 1)];
      assert now[..|now| - 1] == out;
      if addr == prev + 1 {
        SplitExtends(now, addrs, n, Range(start, addr + 1));
        prev := addr;
      } else {
        SplitStarts(now, addrs, n);
        out := out + [Range(start, prev + 1)];
        start, prev := addr, addr;
      }
    }
    out := out + [Range(start, prev + 1)];
  }

  /** The splitter of the image comparison: it widens the last range of the list. */
  method RangesByLast(addrs: seq<int>) returns (out: seq<Range>)
    requires Increasing(addrs)
    ensures SplitOf(out, addrs, |addrs|)
  {
    out := [];
    for n := 0 to |addrs|
      invariant SplitOf(out, addrs, n)
    {
      var a := addrs[n];
      if |out| > 0 && out[|out| - 1].end == a {
        SplitExtends(out, addrs, n, Range(out[|out| - 1].start, a + 1));
        out := out[..|out| - 1] + [Range(out[|out| - 1].start, a + 1)];
      } else {
        SplitStarts(out, addrs, n);
        out := out + [Range(a, a + 1)];
      }
    }
  }

  /** Whatever splits the same addresses has split them the same way. */
  lemma SplittersAgree(r: seq<Range>, s: seq<Range>, addrs: seq<int>)
    requires SplitOf(r, addrs, |addrs|) && SplitOf(s, addrs, |addrs|)
    ensures r == s
  {
    SplitUnique(r, s);
  }

  // ----- regions

  function Ranges(r: seq<Region>): (s: seq<Range>)
    ensures |s| == |r|
  {
    seq(|r|, i requires 0 <= i < |r| => Range(r[i].start, r[i].End()))
  }

  lemma {:induction false} CanonicalSplits(r: seq<Region>)
    requires Canonical(r)
    ensures Split(Ranges(r))
  {
    if |r| > 0 {
      var h, l := r[..|r| - 1], r[|r| - 1];
      CanonicalFewer(r);
      CanonicalSplits(h);
      SplitMore(Ranges(h), Range(l.start, l.End()));
      assert Ranges(r) == Ranges(h) + [Range(l.start, l.End())];
    }
  }

  lemma {:induction false} CoversKeys(r: seq<Region>, a: int)
    ensures Covers(Ranges(r), a) <==> a in LastWins(r)
  {
    if |r| > 0 {
      var h, l := r[..|r| - 1], r[|r| - 1];
      CoversKeys(h, a);
      CoversMore(Ranges(h), Range(l.start, l.End()), a);
      assert Ranges(r) == Ranges(h) + [Range(l.start, l.End())];
      assert a in Octets(l) <==> l.Holds(a);
    }
  }

  /** In a canonical list a region's octets are not overwritten by a later one. */
  lemma {:induction false} RegionHolds(r: seq<Region>, i: nat, a: int)
    requires Canonical(r) && i < |r| && r[i].Holds(a)
    ensures a in LastWins(r) && LastWins(r)[a] == r[i].data[a - r[i].start]
  {
    var h, l := r[..|r| - 1], r[|r| - 1];
    assert a in Octets(l) <==> l.Holds(a);
    if i < |r| - 1 {
      CanonicalFewer(r);
      RegionHolds(h, i, a);
      InOrder(r, i, |r| - 1);
    }
  }

  lemma {:induction false} InOrder(r: seq<Region>, i: nat, j: nat)
    requires Canonical(r) && i < j < |r|
    ensures r[i].End() < r[j].start
  {
    assert Gap(r, j);
    if i < j - 1 {
      InOrder(r, i, j - 1);
    }
  }

  /** Canonical lists of regions are equal when they hold the same memory. */
  lemma CanonicalUnique(r: seq<Region>, s: seq<Region>)
    requires Canonical(r) && Canonical(s) && LastWins(r) == LastWins(s)
    ensures r == s
  {
    CanonicalSplits(r);
    CanonicalSplits(s);
    forall a
      ensures Covers(Ranges(r), a) <==> Covers(Ranges(s), a)
    {
      CoversKeys(r, a);
      CoversKeys(s, a);
    }
    SplitUnique(Ranges(r), Ranges(s));
    forall i | 0 <= i < |r|
      ensures r[i] == s[i]
    {
      SameRegion(r, s, i);
    }
  }

  lemma SameRegion(r: seq<Region>, s: seq<Region>, i: nat)
    requires Canonical(r) && Canonical(s) && LastWins(r) == LastWins(s) && Ranges(r) == Ranges(s) && i < |r|
    ensures i < |s| && r[i] == s[i]
  {
    assert Ranges(r)[i] == Ranges(s)[i];
    forall k | 0 <= k < |r[i].data|
      ensures r[i].data[k] == s[i].data[k]
    {
      RegionHolds(r, i, r[i].start + k);
      RegionHolds(s, i, r[i].start + k);
    }
  }

  /** Two write lists coalesce to equal regions exactly when they leave equal memory. */
  lemma CoalescedEqual(v: seq<Region>, w: seq<Region>, r: seq<Region>, s: seq<Region>)
    requires Canonical(r) && LastWins(r) == LastWins(v) && Canonical(s) && LastWins(s) == LastWins(w)
    ensures r == s <==> LastWins(v) == LastWins(w)
  {
    if LastWins(v) == LastWins(w) {
      CanonicalUnique(r, s);
    }
  }

  /** The runs of the image tool: it appends to the last run while the addresses continue. */
  method RunsOf(octets: Image) returns (runs: seq<Region>)
    ensures Canonical(runs) && LastWins(runs) == octets
  {
    var addrs := Sorted(octets.Keys);
    runs := [];
    for i := 0 to |addrs|
      invariant Built(runs, octets, addrs, i)
    {
      var addr := addrs[i];
      var last := |runs| - 1;
      assert addr in addrs;
      if |runs| > 0 && runs[last].start + |runs[last].data| == addr {
        Extended(runs, octets, addrs, i);
        runs := runs[..last] + [Region(runs[last].start, runs[last].data + [octets[addr]])];
      } else {
        Started(runs, octets, addrs, i);
        runs := runs + [Region(addr, [octets[addr]])];
      }
    }
    Complete(runs, octets, addrs);
  }
}
