/** The comparison of dry-run images with a composed image: what was captured
    survives storing and loading, and what an identical verdict guarantees. */
module ImageCompare {

  import opened Memory
  import opened Runs

  // ----- storing and loading

  /** The last answer for every octet that was read and never written. */
  function Confirmed(writes: seq<Region>, answers: seq<Region>): Image { LastWins(answers) - LastWins(writes).Keys }

  method ConfirmedOctets(writes: seq<Region>, answers: seq<Region>) returns (out: Image)
    ensures out == Confirmed(writes, answers)
  {
    var flat := Flatten(writes);
    var last := Flatten(answers);
    out := map a | a in last && a !in flat :: last[a];
  }

  /** The index of a stored image: its written regions and its confirmed runs. */
  datatype Stored = Stored(regions: seq<Region>, confirmed: seq<Region>)

  method Compose(writes: seq<Region>, answers: seq<Region>) returns (index: Stored)
    ensures Canonical(index.regions) && LastWins(index.regions) == LastWins(writes)
    ensures Canonical(index.confirmed) && LastWins(index.confirmed) == Confirmed(writes, answers)
  {
    var regions := Coalesce(writes);
    var octets := ConfirmedOctets(writes, answers);
    var runs := RunsOf(octets);
    index := Stored(regions, runs);
  }

  /** A fill-flagged allocation. */
  datatype Fill = Fill(base: int, size: nat, byte: Octet) {
    /** The write it stands for. */
    function AsWrite(): Region { Region(base, seq(size, _ => byte)) }
  }

  function AsWrites(fills: seq<Fill>): seq<Region> { seq(|fills|, k requires 0 <= k < |fills| => fills[k].AsWrite()) }

  /** What a download is known to have left in memory. */
  datatype Ets = Ets(written: Image, filled: Image, confirmed: Image) {
    /** A written value wins over the fill of an allocation. */
    function Known(): Image { filled + written }
  }

  method FillOne(before: Image, fill: Fill) returns (filled: Image)
    ensures filled == before + Octets(fill.AsWrite())
  {
    filled := before;
    for i := 0 to fill.size
      invariant Partly(filled, before, fill.AsWrite(), i)
    {
      filled := filled[fill.base + i := fill.byte];
    }
    PartlyEnds(filled, before, fill.AsWrite());
  }

  method Load(index: Stored, fills: seq<Fill>) returns (ets: Ets)
    ensures ets.written == LastWins(index.regions)
    ensures ets.filled == LastWins(AsWrites(fills))
    ensures ets.confirmed == LastWins(index.confirmed) - LastWins(index.regions).Keys
  {
    var written := Flatten(index.regions);
    var filled: Image := map[];
    for k := 0 to |fills|
      invariant filled == LastWins(AsWrites(fills)[..k])
    {
      filled := FillOne(filled, fills[k]);
      assert AsWrites(fills)[..k + 1][..k] == AsWrites(fills)[..k];
    }
    assert AsWrites(fills)[..|fills|] == AsWrites(fills);
    var runs := Flatten(index.confirmed);
    ets := Ets(written, filled, map a | a in runs && a !in written :: runs[a]);
  }

  /** Loading a composed image gives the last written value of every octet and the last answer of every octet that was
      only read, and the two are disjoint. */
  method ComposeAndLoad(writes: seq<Region>, answers: seq<Region>, fills: seq<Fill>) returns (ets: Ets)
    ensures ets.written == LastWins(writes) && ets.confirmed == Confirmed(writes, answers)
    ensures ets.filled == LastWins(AsWrites(fills))
    ensures ets.written.Keys !! ets.confirmed.Keys
  {
    var index := Compose(writes, answers);
    ets := Load(index, fills);
    assert Confirmed(writes, answers) - LastWins(writes).Keys == Confirmed(writes, answers);
  }

  // ----- coverage

  function Page(base: int, i: nat, size: nat): int
    requires size > 0
  {
    (base + i) / size * size
  }

  /** The page of an address begins at the multiple of the page size at or before it. */
  lemma PageHolds(base: int, i: nat, size: nat)
    requires size > 0
    ensures Page(base, i, size) == base + i - (base + i) % size
    ensures Page(base, i, size) <= base + i < Page(base, i, size) + size
  {
  }

  datatype Count = Count(placed: nat, compared: nat)

  type Pages = map<int, Count>

  /** The counts of one region, in all and per page. */
  datatype Cover = Cover(placed: nat, compared: nat, pages: Pages)

  function AddOne(pages: Pages, key: int, known: bool): Pages {
    var c := if key in pages then pages[key] else Count(0, 0);
    pages[key := Count(c.placed + 1, c.compared + if known then 1 else 0)]
  }

  function PagesOf(offsets: seq<nat>, known: set<nat>, base: int, size: nat): Pages
    requires size > 0
  {
    if |offsets| == 0 then map[]
    else
      var l := offsets[|offsets| - 1];
      AddOne(PagesOf(offsets[..|offsets| - 1], known, base, size), Page(base, l, size), l in known)
  }

  method AddCoverage(offsets: seq<nat>, known: set<nat>, base: int, size: nat) returns (c: Cover)
    requires size > 0
    ensures c == Cover(|offsets|, |known|, PagesOf(offsets, known, base, size))
  {
    var pages: Pages := map[];
    for k := 0 to |offsets|
      invariant pages == PagesOf(offsets[..k], known, base, size)
    {
      assert offsets[..k + 1][..k] == offsets[..k];
      var i := offsets[k];
      var key := Page(base, i, size);
      if key !in pages {
        pages := pages[key := Count(0, 0)];
      }
      pages := pages[key := Count(pages[key].placed + 1, pages[key].compared)];
      if i in known {
        pages := pages[key := Count(pages[key].placed, pages[key].compared + 1)];
      }
    }
    assert offsets[..|offsets|] == offsets;
    c := Cover(|offsets|, |known|, pages);
  }

  /** A page is listed when an offset is on it, and has nothing compared when none of its offsets is known. */
  lemma {:induction false} PagesMean(offsets: seq<nat>, known: set<nat>, base: int, size: nat, p: int)
    requires size > 0
    ensures p in PagesOf(offsets, known, base, size) <==>
      exists k :: 0 <= k < |offsets| && Page(base, offsets[k], size) == p
    ensures p in PagesOf(offsets, known, base, size) ==>
      (PagesOf(offsets, known, base, size)[p].compared > 0 <==>
        exists k :: 0 <= k < |offsets| && Page(base, offsets[k], size) == p && offsets[k] in known)
  {
    if |offsets| > 0 {
      var h, l := offsets[..|offsets| - 1], offsets[|offsets| - 1];
      PagesMean(h, known, base, size, p);
      OnPageMore(h, l, known, base, size, p);
      assert offsets == h + [l];
    }
  }

  predicate OnPage(offsets: seq<nat>, base: int, size: nat, p: int)
    requires size > 0
  {
    exists k :: 0 <= k < |offsets| && Page(base, offsets[k], size) == p
  }

  predicate KnownOnPage(offsets: seq<nat>, known: set<nat>, base: int, size: nat, p: int)
    requires size > 0
  {
    exists k :: 0 <= k < |offsets| && Page(base, offsets[k], size) == p && offsets[k] in known
  }

  lemma OnPageMore(h: seq<nat>, l: nat, known: set<nat>, base: int, size: nat, p: int)
    requires size > 0
    ensures OnPage(h + [l], base, size, p) <==> OnPage(h, base, size, p) || Page(base, l, size) == p
    ensures KnownOnPage(h + [l], known, base, size, p) <==>
      KnownOnPage(h, known, base, size, p) || (Page(base, l, size) == p && l in known)
  {
    var s := h + [l];
    assert s[|h|] == l;
    assert forall k :: 0 <= k < |h| ==> s[k] == h[k];
  }

  predicate Blind(c: Cover) { exists p :: p in c.pages && c.pages[p].compared == 0 }

  function Placed(covers: seq<Cover>): nat {
    if |covers| == 0 then 0 else Placed(covers[..|covers| - 1]) + covers[|covers| - 1].placed
  }

  function Compared(covers: seq<Cover>): nat {
    if |covers| == 0 then 0 else Compared(covers[..|covers| - 1]) + covers[|covers| - 1].compared
  }

  predicate AnyBlind(covers: seq<Cover>) { exists k :: 0 <= k < |covers| && Blind(covers[k]) }

  predicate TooSmall(placed: nat, compared: nat, minPercent: real) {
    100.0 * compared as real < minPercent * placed as real
  }

  /** A share of exactly the threshold is large enough. */
  lemma ShareBelow(placed: nat, compared: nat, minPercent: real)
    requires placed > 0
    ensures TooSmall(placed, compared, minPercent) <==> 100.0 * compared as real / placed as real < minPercent
  {
    var p, c := placed as real, 100.0 * compared as real;
    assert c / p * p == c;
  }

  /** The coverage does not support a verdict: nothing placed, too small a share, or a page nobody looked at. */
  predicate Thin(covers: seq<Cover>, minPercent: real) {
    Placed(covers) == 0 || TooSmall(Placed(covers), Compared(covers), minPercent) || AnyBlind(covers)
  }

  lemma BlindMore(h: seq<Cover>, c: Cover)
    ensures AnyBlind(h + [c]) <==> AnyBlind(h) || Blind(c)
  {
    var s := h + [c];
    assert s[|h|] == c;
    assert forall k :: 0 <= k < |h| ==> s[k] == h[k];
  }

  method Coverage(covers: seq<Cover>, minPercent: real) returns (thin: bool)
    ensures thin == Thin(covers, minPercent)
  {
    var placed, compared, blind := 0, 0, false;
    for k := 0 to |covers|
      invariant placed == Placed(covers[..k]) && compared == Compared(covers[..k])
      invariant blind <==> AnyBlind(covers[..k])
    {
      assert covers[..k + 1][..k] == covers[..k];
      placed, compared := placed + covers[k].placed, compared + covers[k].compared;
      BlindMore(covers[..k], covers[k]);
      assert covers[..k + 1] == covers[..k] + [covers[k]];
      if Blind(covers[k]) {
        blind := true;
      }
    }
    assert covers[..|covers|] == covers;
    thin := placed == 0 || TooSmall(placed, compared, minPercent) || blind;
  }

  /** The second coverage sees at least as much. */
  ghost predicate SeesMore(c: Cover, d: Cover) {
    && c.placed == d.placed && c.compared <= d.compared && c.pages.Keys == d.pages.Keys
    && forall p :: p in c.pages ==> c.pages[p].compared <= d.pages[p].compared
  }

  lemma {:induction false} SumsMore(c: seq<Cover>, d: seq<Cover>)
    requires |c| == |d| && forall k :: 0 <= k < |c| ==> SeesMore(c[k], d[k])
    ensures Placed(c) == Placed(d) && Compared(c) <= Compared(d)
  {
    if |c| > 0 {
      SumsMore(c[..|c| - 1], d[..|d| - 1]);
    }
  }

  /** Seeing more never makes a coverage thin. */
  lemma ThinShrinks(c: seq<Cover>, d: seq<Cover>, minPercent: real)
    requires |c| == |d| && forall k :: 0 <= k < |c| ==> SeesMore(c[k], d[k])
    ensures Thin(d, minPercent) ==> Thin(c, minPercent)
  {
    SumsMore(c, d);
    if k :| 0 <= k < |d| && Blind(d[k]) {
      assert SeesMore(c[k], d[k]);
      var p :| p in d[k].pages && d[k].pages[p].compared == 0;
      assert c[k].pages[p].compared == 0;
      assert Blind(c[k]);
    }
  }

  lemma SubsetSize(a: set<nat>, b: set<nat>)
    requires a <= b
    ensures |a| <= |b|
  {
    assert b == a + (b - a);
  }

  /** More known offsets, more coverage: counting read-confirmed octets never lowers it. */
  lemma {:induction false} KnownMore(offsets: seq<nat>, a: set<nat>, b: set<nat>, base: int, size: nat)
    requires size > 0 && a <= b
    ensures PagesOf(offsets, a, base, size).Keys == PagesOf(offsets, b, base, size).Keys
    ensures forall p :: p in PagesOf(offsets, a, base, size) ==>
      PagesOf(offsets, a, base, size)[p].compared <= PagesOf(offsets, b, base, size)[p].compared
  {
    if |offsets| > 0 {
      KnownMore(offsets[..|offsets| - 1], a, b, base, size);
    }
  }
}
