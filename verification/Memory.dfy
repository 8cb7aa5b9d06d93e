/** Memory as downloads write it: last write wins, coalescing into regions, and
    splitting addresses into runs. */
module Memory {

  type Octet = n: nat | n < 256

  type Image = map<int, Octet>

  /** A write, or a region of an image: some octets from an address on. */
  datatype Region = Region(start: int, data: seq<Octet>) {
    function End(): int { start + |data| }
    predicate Holds(a: int) { start <= a < End() }
  }

  datatype Range = Range(start: int, end: int)

  // ----- last write wins

  function Octets(r: Region): (m: Image)
    ensures forall a :: a in m <==> r.Holds(a)
    ensures forall a :: r.Holds(a) ==> m[a] == r.data[a - r.start]
    decreases |r.data|
  {
    if |r.data| == 0 then map[]
    else
      var n := |r.data| - 1;
      Octets(Region(r.start, r.data[..n]))[r.start + n := r.data[n]]
  }

  /** One more octet at the end of a region. */
  lemma OctetsNext(start: int, data: seq<Octet>, b: Octet)
    ensures Octets(Region(start, data + [b])) == Octets(Region(start, data))[start + |data| := b]
  {
    assert (data + [b])[..|data|] == data;
  }

  lemma PutLater(m: Image, o: Image, a: int, b: Octet)
    ensures m + o[a := b] == (m + o)[a := b]
  {
  }

  /** What is left in memory after some writes, in order, over what was there. */
  function Written(before: Image, writes: seq<Region>): Image {
    if |writes| == 0 then before
    else Written(before, writes[..|writes| - 1]) + Octets(writes[|writes| - 1])
  }

  function LastWins(writes: seq<Region>): Image { Written(map[], writes) }

  /** The image over before once the first n octets of a write are in. */
  ghost predicate Partly(flat: Image, before: Image, w: Region, n: nat)
    requires n <= |w.data|
  {
    && (forall a :: a in flat <==> a in before || w.start <= a < w.start + n)
    && (forall a :: a in flat ==> flat[a] == if w.start <= a < w.start + n then w.data[a - w.start] else before[a])
  }

  /** The loop that applies one write, octet by octet. */
  method Apply(before: Image, w: Region) returns (flat: Image)
    ensures flat == before + Octets(w)
  {
    flat := before;
    for i := 0 to |w.data|
      invariant Partly(flat, before, w, i)
    {
      flat := flat[w.start + i := w.data[i]];
    }
    PartlyEnds(flat, before, w);
  }

  lemma PartlyEnds(flat: Image, before: Image, w: Region)
    requires Partly(flat, before, w, |w.data|)
    ensures flat == before + Octets(w)
  {
    var whole := before + Octets(w);
    forall a
      ensures a in flat <==> a in whole
      ensures a in flat ==> flat[a] == whole[a]
    {
      assert a in Octets(w) <==> w.Holds(a);
    }
  }

  method Flatten(writes: seq<Region>) returns (flat: Image)
    ensures flat == LastWins(writes)
  {
    flat := map[];
    for i := 0 to |writes|
      invariant flat == LastWins(writes[..i])
    {
      assert writes[..i + 1][..i] == writes[..i];
      flat := Apply(flat, writes[i]);
    }
    assert writes[..|writes|] == writes;
  }

  // ----- one list of writes after another

  lemma Regrouped(m: Image, n: Image, o: Image)
    ensures m + (n + o) == m + n + o
  {
  }

  lemma WrittenLast(m: Image, w: seq<Region>, front: seq<Region>, l: Region)
    requires w == front + [l]
    ensures Written(m, w) == Written(m, front) + Octets(l)
  {
    assert w[..|w| - 1] == front;
  }

  lemma {:induction false} WrittenJoin(m: Image, v: seq<Region>, w: seq<Region>)
    ensures Written(m, v + w) == Written(m, v) + LastWins(w)
  {
    if w == [] {
      assert v + w == v;
      assert Written(m, v) + map[] == Written(m, v);
    } else {
      var front, l := w[..|w| - 1], w[|w| - 1];
      assert w == front + [l] && v + w == v + front + [l];
      WrittenJoin(m, v, front);
      WrittenLast(m, v + w, v + front, l);
      WrittenLast(map[], w, front, l);
      Regrouped(Written(m, v), LastWins(front), Octets(l));
    }
  }

  // ----- the value written last

  /** Write k is the last one that touches the address. */
  predicate LastTouch(writes: seq<Region>, k: nat, a: int) {
    k < |writes| && writes[k].Holds(a) && forall j :: k < j < |writes| ==> !writes[j].Holds(a)
  }

  predicate Touched(writes: seq<Region>, a: int) { exists k :: 0 <= k < |writes| && writes[k].Holds(a) }

  /** v is the value the writes leave at the address. */
  predicate Leaves(writes: seq<Region>, a: int, v: Octet) {
    exists k :: 0 <= k < |writes| && LastTouch(writes, k, a) && writes[k].data[a - writes[k].start] == v
  }

  lemma LeavesNext(front: seq<Region>, l: Region, a: int, v: Octet)
    ensures Leaves(front + [l], a, v) <==> if l.Holds(a) then l.data[a - l.start] == v else Leaves(front, a, v)
    ensures Touched(front + [l], a) <==> Touched(front, a) || l.Holds(a)
  {
    var all := front + [l];
    assert all[|front|] == l;
    if l.Holds(a) {
      assert LastTouch(all, |front|, a);
    } else {
      forall k | 0 <= k < |front|
        ensures LastTouch(all, k, a) <==> LastTouch(front, k, a)
      {
        assert forall j :: 0 <= j < |front| ==> all[j] == front[j];
      }
    }
    if k :| 0 <= k < |front| && front[k].Holds(a) {
      assert all[k].Holds(a);
    }
  }

  /** The last write wins: the image holds the touched addresses, each with the value of the last write to it. */
  lemma {:induction false} LastWriteWins(writes: seq<Region>, a: int)
    ensures a in LastWins(writes) <==> Touched(writes, a)
    ensures a in LastWins(writes) ==> forall v :: Leaves(writes, a, v) <==> v == LastWins(writes)[a]
  {
    if writes != [] {
      var front, l := writes[..|writes| - 1], writes[|writes| - 1];
      assert writes == front + [l];
      LastWriteWins(front, a);
      forall v
        ensures Leaves(writes, a, v) <==> if l.Holds(a) then l.data[a - l.start] == v else Leaves(front, a, v)
        ensures Touched(writes, a) <==> Touched(front, a) || l.Holds(a)
      {
        LeavesNext(front, l, a, v);
      }
      LeavesNext(front, l, a, 0);
    }
  }

  // ----- sorted addresses

  predicate Increasing(s: seq<int>) { forall i, j :: 0 <= i < j < |s| ==> s[i] < s[j] }

  ghost predicate Lists(s: seq<int>, keys: set<int>) { Increasing(s) && forall a :: a in s <==> a in keys }

  lemma {:induction false} HasLeast(keys: set<int>)
    requires keys != {}
    ensures exists m :: IsLeast(m, keys)
  {
    if forall k :: k !in keys {
      assert false;
    }
    var k :| k in keys;
    var rest := keys - {k};
    if rest == {} {
      LeastOfMore(k, k, keys);
    } else {
      HasLeast(rest);
      var m :| IsLeast(m, rest);
      LeastOfMore(k, m, keys);
    }
  }

  lemma LeastOfMore(k: int, m: int, keys: set<int>)
    requires k in keys && m in keys && forall a :: a in keys - {k} ==> m <= a
    ensures IsLeast(if k < m then k else m, keys)
  {
    forall a | a in keys
      ensures (if k < m then k else m) <= a
    {
      if a != k {
        assert a in keys - {k};
      }
    }
  }

  ghost predicate IsLeast(m: int, keys: set<int>) { m in keys && forall a :: a in keys ==> m <= a }

  /** Python's sorted() on the keys of a map. */
  method Sorted(keys: set<int>) returns (s: seq<int>)
    ensures Lists(s, keys)
  {
    s := [];
    var left := keys;
    while left != {}
      invariant left <= keys && Increasing(s)
      invariant forall a :: a in s <==> a in keys && a !in left
      invariant forall i, b :: 0 <= i < |s| && b in left ==> s[i] < b
    {
      HasLeast(left);
      ghost var l :| IsLeast(l, left);
      var m :| m in left && forall a :: a in left ==> m <= a;
      assert forall a :: a in s + [m] <==> a in s || a == m;
      s := s + [m];
      left := left - {m};
    }
  }

  // ----- regions

  predicate Gap(r: seq<Region>, i: int)
    requires 0 < i < |r|
  {
    r[i - 1].End() < r[i].start
  }

  /** Regions are in order, none is empty, and there is a gap before each next one. */
  ghost predicate Canonical(r: seq<Region>) {
    (forall i :: 0 <= i < |r| ==> |r[i].data| > 0) && (forall i :: 0 < i < |r| ==> Gap(r, i))
  }

  method Coalesce(writes: seq<Region>) returns (regions: seq<Region>)
    ensures Canonical(regions) && LastWins(regions) == LastWins(writes)
  {
    var flat := Flatten(writes);
    var addrs := Sorted(flat.Keys);
    regions := [];
    for i := 0 to |addrs|
      invariant Built(regions, flat, addrs, i)
    {
      var addr := addrs[i];
      var current := |regions| - 1;
      if |regions| > 0 && addr == regions[current].End() {
        Extended(regions, flat, addrs, i);
        regions := regions[..current] + [Region(regions[current].start, regions[current].data + [flat[addr]])];
      } else {
        Started(regions, flat, addrs, i);
        regions := regions + [Region(addr, [flat[addr]])];
      }
    }
    Complete(regions, flat, addrs);
  }

  function Restrict(m: Image, keys: seq<int>): Image { map a | a in m && a in keys :: m[a] }

  /** The regions made of the first n addresses. */
  ghost predicate Built(r: seq<Region>, flat: Image, addrs: seq<int>, n: nat) {
    && n <= |addrs|
    && Canonical(r)
    && LastWins(r) == Restrict(flat, addrs[..n])
    && (if n == 0 then r == [] else |r| > 0 && r[|r| - 1].End() == addrs[n - 1] + 1)
  }

  lemma RestrictNext(flat: Image, addrs: seq<int>, n: nat)
    requires n < |addrs| && addrs[n] in flat
    ensures Restrict(flat, addrs[..n + 1]) == Restrict(flat, addrs[..n])[addrs[n] := flat[addrs[n]]]
  {
    assert addrs[..n + 1] == addrs[..n] + [addrs[n]];
  }

  lemma LastRegion(r: seq<Region>, last: Region)
    ensures LastWins(r + [last]) == LastWins(r) + Octets(last)
  {
    assert (r + [last])[..|r|] == r;
  }

  lemma CanonicalMore(r: seq<Region>, last: Region)
    requires Canonical(r) && |last.data| > 0 && (|r| > 0 ==> r[|r| - 1].End() < last.start)
    ensures Canonical(r + [last])
  {
    var s := r + [last];
    forall i | 0 < i < |s|
      ensures Gap(s, i)
    {
      assert i < |r| ==> Gap(r, i);
    }
  }

  lemma CanonicalFewer(r: seq<Region>)
    requires Canonical(r) && |r| > 0
    ensures Canonical(r[..|r| - 1])
    ensures |r| > 1 ==> r[|r| - 2].End() < r[|r| - 1].start
  {
    var s := r[..|r| - 1];
    forall i | 0 < i < |s|
      ensures Gap(s, i)
    {
      assert Gap(r, i);
    }
    assert |r| > 1 ==> Gap(r, |r| - 1);
  }

  lemma GapBefore(r: seq<Region>, flat: Image, addrs: seq<int>, n: nat)
    requires Lists(addrs, flat.Keys) && n < |addrs| && Built(r, flat, addrs, n)
    requires |r| > 0 ==> addrs[n] != r[|r| - 1].End()
    ensures |r| > 0 ==> r[|r| - 1].End() < addrs[n]
  {
  }

  lemma OneOctet(a: int, b: Octet)
    ensures Octets(Region(a, [b])) == map[a := b]
  {
    OctetsNext(a, [], b);
    assert [] + [b] == [b];
  }

  lemma Started(r: seq<Region>, flat: Image, addrs: seq<int>, n: nat)
    requires Lists(addrs, flat.Keys) && n < |addrs| && Built(r, flat, addrs, n)
    requires |r| > 0 ==> addrs[n] != r[|r| - 1].End()
    ensures addrs[n] in flat && Built(r + [Region(addrs[n], [flat[addrs[n]]])], flat, addrs, n + 1)
  {
    GapBefore(r, flat, addrs, n);
    assert addrs[n] in addrs;
    var last := Region(addrs[n], [flat[addrs[n]]]);
    RestrictNext(flat, addrs, n);
    LastRegion(r, last);
    OneOctet(addrs[n], flat[addrs[n]]);
    AddOne(LastWins(r), addrs[n], flat[addrs[n]]);
    CanonicalMore(r, last);
  }

  lemma AddOne(m: Image, a: int, b: Octet)
    ensures m + map[a := b] == m[a := b]
  {
  }

  lemma Extended(r: seq<Region>, flat: Image, addrs: seq<int>, n: nat)
    requires Lists(addrs, flat.Keys) && n < |addrs| && Built(r, flat, addrs, n)
    requires |r| > 0 && addrs[n] == r[|r| - 1].End()
    ensures addrs[n] in flat
    ensures Built(r[..|r| - 1] + [Region(r[|r| - 1].start, r[|r| - 1].data + [flat[addrs[n]]])], flat, addrs, n + 1)
  {
    assert addrs[n] in addrs;
    var h, last := r[..|r| - 1], r[|r| - 1];
    var b := flat[addrs[n]];
    var longer := Region(last.start, last.data + [b]);
    RestrictNext(flat, addrs, n);
    LastRegion(h, last);
    LastRegion(h, longer);
    assert r == h + [last];
    OctetsNext(last.start, last.data, b);
    PutLater(LastWins(h), Octets(last), addrs[n], b);
    CanonicalFewer(r);
    CanonicalMore(h, longer);
  }

  lemma Complete(r: seq<Region>, flat: Image, addrs: seq<int>)
    requires Lists(addrs, flat.Keys) && Built(r, flat, addrs, |addrs|)
    ensures LastWins(r) == flat
  {
    assert addrs[..|addrs|] == addrs;
    forall a | a in flat
      ensures a in addrs
    {
      assert a in flat.Keys;
    }
    assert Restrict(flat, addrs) == flat;
  }
}
