/** The verdict of the operation diff, and what it guarantees whatever alignment
    the matcher chose. */
module OpsVerdict {

  import opened Memory
  import opened Runs
  import opened OpsDiff
  import opened Wrappers

  // ----- the memory images

  ghost predicate Differs(m: Image, n: Image, a: int) { (a in m) != (a in n) || (a in m && m[a] != n[a]) }

  /** Some finding names the address. */
  predicate Names(f: seq<Finding>, a: int) { exists i :: 0 <= i < |f| && f[i].span.start <= a < f[i].span.end }

  /** Some finding with this reason names the address. */
  predicate NamesAs(f: seq<Finding>, reason: Reason, a: int) {
    exists i :: 0 <= i < |f| && f[i].reason == reason && f[i].span.start <= a < f[i].span.end
  }

  predicate AllReason(f: seq<Finding>, reason: Reason) { forall i :: 0 <= i < |f| ==> f[i].reason == reason }

  predicate AllDifferent(f: seq<Finding>) {
    forall i :: 0 <= i < |f| ==> f[i].verdict == Different && f[i].span.start < f[i].span.end
  }

  lemma {:induction false} RangesNonempty(r: seq<Range>, i: nat)
    requires Split(r) && i < |r|
    ensures r[i].start < r[i].end
  {
    if i > 0 {
      RangesNonempty(r[1..], i - 1);
    }
  }

  lemma {:induction false} CoversAt(r: seq<Range>, a: int)
    ensures Covers(r, a) <==> exists i :: 0 <= i < |r| && r[i].start <= a < r[i].end
  {
    if |r| > 0 {
      CoversAt(r[1..], a);
      if Covers(r[1..], a) {
        var i :| 0 <= i < |r[1..]| && r[1..][i].start <= a < r[1..][i].end;
        assert r[i + 1].start <= a < r[i + 1].end;
      }
      if i :| 0 <= i < |r| && r[i].start <= a < r[i].end {
        if i > 0 {
          assert r[1..][i - 1].start <= a < r[1..][i - 1].end;
        }
      }
    }
  }

  /** One finding for each run of some addresses. */
  method NameRanges(addrs: seq<int>, reason: Reason) returns (f: seq<Finding>)
    requires Increasing(addrs)
    ensures AllDifferent(f) && AllReason(f, reason) && forall a :: Names(f, a) <==> a in addrs
  {
    var r := RangesByStart(addrs);
    f := [];
    for i := 0 to |r|
      invariant |f| == i && AllDifferent(f) && AllReason(f, reason)
      invariant forall k :: 0 <= k < i ==> f[k].span == r[k]
    {
      RangesNonempty(r, i);
      f := f + [Finding(Different, reason, r[i])];
    }
    forall a
      ensures Names(f, a) <==> a in addrs
    {
      CoversAt(r, a);
      assert addrs[..|addrs|] == addrs;
      if i :| 0 <= i < |r| && r[i].start <= a < r[i].end {
        assert f[i].span.start <= a < f[i].span.end;
      }
    }
  }

  lemma NamesAppend(f: seq<Finding>, g: seq<Finding>, a: int)
    ensures Names(f + g, a) <==> Names(f, a) || Names(g, a)
  {
    if i :| 0 <= i < |f| && f[i].span.start <= a < f[i].span.end {
      assert (f + g)[i].span.start <= a < (f + g)[i].span.end;
    }
    if i :| 0 <= i < |g| && g[i].span.start <= a < g[i].span.end {
      assert (f + g)[|f| + i].span.start <= a < (f + g)[|f| + i].span.end;
    }
  }

  lemma NamesAsAppend(f: seq<Finding>, g: seq<Finding>, r: Reason, reason: Reason, a: int)
    requires AllReason(g, r)
    ensures NamesAs(f + g, reason, a) <==> NamesAs(f, reason, a) || (r == reason && Names(g, a))
  {
    if i :| 0 <= i < |f| && f[i].reason == reason && f[i].span.start <= a < f[i].span.end {
      assert (f + g)[i].reason == reason && (f + g)[i].span.start <= a < (f + g)[i].span.end;
    }
    if r == reason {
      if i :| 0 <= i < |g| && g[i].span.start <= a < g[i].span.end {
        assert (f + g)[|f| + i].reason == reason && (f + g)[|f| + i].span.start <= a < (f + g)[|f| + i].span.end;
      }
    }
  }

  /** The findings name exactly the octets on which the two images disagree: as coverage those that one side holds
      alone, as content those that both hold with different values. */
  method DiffImages(a: seq<Region>, b: seq<Region>) returns (f: seq<Finding>)
    ensures AllDifferent(f)
    ensures forall x :: Names(f, x) <==> Differs(LastWins(a), LastWins(b), x)
    ensures forall x :: NamesAs(f, Coverage, x) <==> (x in LastWins(a)) != (x in LastWins(b))
    ensures forall x :: NamesAs(f, Content, x) <==>
      x in LastWins(a) && x in LastWins(b) && LastWins(a)[x] != LastWins(b)[x]
  {
    var flatA := Flatten(a);
    var flatB := Flatten(b);
    var onlyA := Sorted(flatA.Keys - flatB.Keys);
    var onlyB := Sorted(flatB.Keys - flatA.Keys);
    var both := Sorted(flatA.Keys * flatB.Keys);
    var mismatched := Mismatched(flatA, flatB, both);
    var f0 := NameRanges(onlyA, Coverage);
    var f1 := NameRanges(onlyB, Coverage);
    var f2 := NameRanges(mismatched, Content);
    f := f0 + f1 + f2;
    forall x
      ensures NamesAs(f, Coverage, x) <==> x in onlyA || x in onlyB
      ensures NamesAs(f, Content, x) <==> x in mismatched
    {
      assert f == [] + f0 + f1 + f2;
      NamesAsAppend([], f0, Coverage, Coverage, x);
      NamesAsAppend([] + f0, f1, Coverage, Coverage, x);
      NamesAsAppend([] + f0 + f1, f2, Content, Coverage, x);
      NamesAsAppend([], f0, Coverage, Content, x);
      NamesAsAppend([] + f0, f1, Coverage, Content, x);
      NamesAsAppend([] + f0 + f1, f2, Content, Content, x);
    }
    forall x
      ensures Names(f, x) <==> Differs(flatA, flatB, x)
    {
      NamesAppend(f0 + f1, f2, x);
      NamesAppend(f0, f1, x);
      assert x in onlyA <==> x in flatA.Keys - flatB.Keys;
      assert x in onlyB <==> x in flatB.Keys - flatA.Keys;
      assert x in both <==> x in flatA.Keys * flatB.Keys;
    }
  }

  method Mismatched(m: Image, n: Image, both: seq<int>) returns (out: seq<int>)
    requires Increasing(both) && forall x :: x in both ==> x in m && x in n
    ensures Increasing(out) && forall x :: x in out <==> x in both && m[x] != n[x]
  {
    out := [];
    for i := 0 to |both|
      invariant Increasing(out) && forall x :: x in out <==> x in both[..i] && m[x] != n[x]
    {
      assert both[..i + 1] == both[..i] + [both[i]];
      assert both[i] in both;
      if m[both[i]] != n[both[i]] {
        forall k | 0 <= k < |out|
          ensures out[k] < both[i]
        {
          assert out[k] in out;
          assert out[k] in both[..i];
        }
        out := out + [both[i]];
      }
    }
    assert both[..|both|] == both;
  }

  lemma NoNames(f: seq<Finding>, m: Image, n: Image)
    requires AllDifferent(f) && forall x :: Names(f, x) <==> Differs(m, n, x)
    ensures f == [] <==> m == n
  {
    if |f| > 0 {
      assert Names(f, f[0].span.start);
      assert Differs(m, n, f[0].span.start);
    } else {
      forall x
        ensures x in m <==> x in n
        ensures x in m ==> m[x] == n[x]
      {
        assert !Names(f, x);
        assert !Differs(m, n, x);
      }
    }
  }

  // ----- the alignment

  /** One opcode of the matcher: a slice of each side, equal or not. */
  datatype Opcode = Opcode(equal: bool, i1: nat, i2: nat, j1: nat, j2: nat)

  /** The opcodes go through both sequences from positions i and j to the ends, and equal slices are equal. */
  predicate Aligns(codes: seq<Opcode>, a: seq<Op>, b: seq<Op>, i: nat, j: nat) {
    if |codes| == 0 then i == |a| && j == |b|
    else
      var c := codes[0];
      && c.i1 == i && c.j1 == j && i <= c.i2 <= |a| && j <= c.j2 <= |b|
      && (c.equal ==> Signatures(a[i..c.i2]) == Signatures(b[j..c.j2]))
      && Aligns(codes[1..], a, b, c.i2, c.j2)
  }

  /** Every opcode is equal or empty: nothing is left over. */
  predicate NothingLeft(codes: seq<Opcode>) {
    |codes| > 0 ==>
      (codes[0].equal || (codes[0].i1 == codes[0].i2 && codes[0].j1 == codes[0].j2)) && NothingLeft(codes[1..])
  }

  lemma SignaturesSlice(a: seq<Op>, i: nat, k: nat)
    requires i <= k <= |a|
    ensures a[i..] == a[i..k] + a[k..]
    ensures Signatures(a[i..]) == Signatures(a[i..k]) + Signatures(a[k..])
  {
  }

  lemma {:induction false} NothingLeftMeansEqual(codes: seq<Opcode>, a: seq<Op>, b: seq<Op>, i: nat, j: nat)
    requires i <= |a| && j <= |b| && Aligns(codes, a, b, i, j) && NothingLeft(codes)
    ensures Signatures(a[i..]) == Signatures(b[j..])
  {
    if |codes| > 0 {
      var c := codes[0];
      NothingLeftMeansEqual(codes[1..], a, b, c.i2, c.j2);
      SignaturesSlice(a, i, c.i2);
      SignaturesSlice(b, j, c.j2);
    }
  }

  /** The blocks of the unequal opcodes. */
  function BlocksOf(codes: seq<Opcode>, a: seq<Op>, b: seq<Op>, i: nat, j: nat): seq<Block>
    requires Aligns(codes, a, b, i, j)
  {
    if |codes| == 0 then []
    else
      var c := codes[0];
      (if c.equal then [] else [Block(a[i..c.i2], b[j..c.j2])]) + BlocksOf(codes[1..], a, b, c.i2, c.j2)
  }

  lemma {:induction false} BalanceAppend(x: Block, rest: seq<Block>, s: Signature)
    ensures Balance([x] + rest, s) == Count(x.a, s) - Count(x.b, s) + Balance(rest, s)
  {
    if |rest| == 0 {
      BalanceMore([], x, s);
      assert [x] + rest == [] + [x];
    } else {
      var h, l := rest[..|rest| - 1], rest[|rest| - 1];
      BalanceAppend(x, h, s);
      assert rest == h + [l] && [x] + rest == ([x] + h) + [l];
      BalanceMore(h, l, s);
      BalanceMore([x] + h, l, s);
    }
  }

  /** The blocks hold the whole difference of the counts. */
  lemma {:induction false} BlocksBalance(codes: seq<Opcode>, a: seq<Op>, b: seq<Op>, i: nat, j: nat, s: Signature)
    requires i <= |a| && j <= |b| && Aligns(codes, a, b, i, j)
    ensures Count(a[i..], s) - Count(b[j..], s) == Balance(BlocksOf(codes, a, b, i, j), s)
  {
    if |codes| == 0 {
      CountZero(a[i..], s);
      CountZero(b[j..], s);
    } else {
      var c := codes[0];
      var rest := BlocksOf(codes[1..], a, b, c.i2, c.j2);
      BlocksBalance(codes[1..], a, b, c.i2, c.j2, s);
      SignaturesSlice(a, i, c.i2);
      SignaturesSlice(b, j, c.j2);
      CountAppend(a[i..c.i2], a[c.i2..], s);
      CountAppend(b[j..c.j2], b[c.j2..], s);
      if c.equal {
        assert [] + rest == rest;
      } else {
        BalanceAppend(Block(a[i..c.i2], b[j..c.j2]), rest, s);
      }
    }
  }

  ghost predicate Within(blocks: seq<Block>, a: seq<Op>, b: seq<Op>) {
    forall k, s :: 0 <= k < |blocks| ==>
      (s in Signatures(blocks[k].a) ==> s in Signatures(a)) && (s in Signatures(blocks[k].b) ==> s in Signatures(b))
  }

  lemma SliceWithin(a: seq<Op>, i: nat, k: nat, s: Signature)
    requires i <= k <= |a|
    ensures s in Signatures(a[i..k]) ==> s in Signatures(a)
  {
    if s in Signatures(a[i..k]) {
      var n :| 0 <= n < k - i && Signatures(a[i..k])[n] == s;
      assert Signatures(a)[i + n] == s;
    }
  }

  lemma {:induction false} BlocksWithin(codes: seq<Opcode>, a: seq<Op>, b: seq<Op>, i: nat, j: nat)
    requires i <= |a| && j <= |b| && Aligns(codes, a, b, i, j)
    ensures Within(BlocksOf(codes, a, b, i, j), a, b)
  {
    if |codes| > 0 {
      var c := codes[0];
      BlocksWithin(codes[1..], a, b, c.i2, c.j2);
      var blocks, rest := BlocksOf(codes, a, b, i, j), BlocksOf(codes[1..], a, b, c.i2, c.j2);
      forall k, s | 0 <= k < |blocks|
        ensures s in Signatures(blocks[k].a) ==> s in Signatures(a)
        ensures s in Signatures(blocks[k].b) ==> s in Signatures(b)
      {
        if c.equal {
          assert blocks[k] == rest[k];
        } else if k > 0 {
          assert blocks[k] == rest[k - 1];
        } else {
          SliceWithin(a, i, c.i2, s);
          SliceWithin(b, j, c.j2, s);
        }
      }
    }
  }

  ghost predicate InSomeA(blocks: seq<Block>, s: Signature) {
    exists k :: 0 <= k < |blocks| && s in Signatures(blocks[k].a)
  }

  ghost predicate InSomeB(blocks: seq<Block>, s: Signature) {
    exists k :: 0 <= k < |blocks| && s in Signatures(blocks[k].b)
  }

  lemma InSomeMore(x: Block, rest: seq<Block>, s: Signature)
    ensures s in Signatures(x.a) || InSomeA(rest, s) ==> InSomeA([x] + rest, s)
    ensures s in Signatures(x.b) || InSomeB(rest, s) ==> InSomeB([x] + rest, s)
  {
    var blocks := [x] + rest;
    assert blocks[0] == x;
    if k :| 0 <= k < |rest| && s in Signatures(rest[k].a) {
      assert blocks[k + 1] == rest[k];
    }
    if k :| 0 <= k < |rest| && s in Signatures(rest[k].b) {
      assert blocks[k + 1] == rest[k];
    }
  }

  /** An operation is in an equal slice, and then on the other side, or in a block. */
  lemma {:induction false} BlocksHold(codes: seq<Opcode>, a: seq<Op>, b: seq<Op>, i: nat, j: nat, s: Signature)
    requires i <= |a| && j <= |b| && Aligns(codes, a, b, i, j)
    ensures s in Signatures(a[i..]) ==> s in Signatures(b) || InSomeA(BlocksOf(codes, a, b, i, j), s)
    ensures s in Signatures(b[j..]) ==> s in Signatures(a) || InSomeB(BlocksOf(codes, a, b, i, j), s)
  {
    if |codes| > 0 {
      var c := codes[0];
      var rest := BlocksOf(codes[1..], a, b, c.i2, c.j2);
      BlocksHold(codes[1..], a, b, c.i2, c.j2, s);
      SignaturesSlice(a, i, c.i2);
      SignaturesSlice(b, j, c.j2);
      SliceWithin(a, i, c.i2, s);
      SliceWithin(b, j, c.j2, s);
      if c.equal {
        assert [] + rest == rest;
      } else {
        InSomeMore(Block(a[i..c.i2], b[j..c.j2]), rest, s);
      }
    }
  }

  // ----- the verdict

  lemma {:induction false} BalanceZero(blocks: seq<Block>, s: Signature)
    requires forall k :: 0 <= k < |blocks| ==> Count(blocks[k].a, s) == Count(blocks[k].b, s)
    ensures Balance(blocks, s) == 0
  {
    if |blocks| > 0 {
      BalanceZero(blocks[..|blocks| - 1], s);
    }
  }

  /** A signature of a block is on the other side of the whole: by its own block, by its partner, or by a retry. */
  lemma BlockAccounted(blocks: seq<Block>, used: set<nat>, moves: seq<Finding>, f: seq<Finding>, a: seq<Op>,
                       b: seq<Op>, s: Signature)
    requires Pairing(blocks, used, moves) && Within(blocks, a, b) && Programs(s) && NoneDifferent(f)
    requires forall k :: 0 <= k < |Remaining(blocks, used)| ==>
      Accounted(Remaining(blocks, used)[k].a, Remaining(blocks, used)[k].b, Set(Signatures(a)), Set(Signatures(b)), f)
    ensures InSomeA(blocks, s) ==> s in Signatures(b)
    ensures InSomeB(blocks, s) ==> s in Signatures(a)
  {
    if k :| 0 <= k < |blocks| && s in Signatures(blocks[k].a) {
      OneBlock(blocks, used, moves, f, a, b, s, k);
    }
    if k :| 0 <= k < |blocks| && s in Signatures(blocks[k].b) {
      OneBlock(blocks, used, moves, f, a, b, s, k);
    }
  }

  lemma OneBlock(blocks: seq<Block>, used: set<nat>, moves: seq<Finding>, f: seq<Finding>, a: seq<Op>, b: seq<Op>,
                 s: Signature, k: nat)
    requires Pairing(blocks, used, moves) && Within(blocks, a, b) && Programs(s) && NoneDifferent(f) && k < |blocks|
    requires forall m :: 0 <= m < |Remaining(blocks, used)| ==>
      Accounted(Remaining(blocks, used)[m].a, Remaining(blocks, used)[m].b, Set(Signatures(a)), Set(Signatures(b)), f)
    ensures s in Signatures(blocks[k].a) ==> s in Signatures(b)
    ensures s in Signatures(blocks[k].b) ==> s in Signatures(a)
  {
    if k in used {
      assert Partnered(blocks, k);
      var m :| 0 <= m < |blocks| &&
        ((blocks[k].b == [] && SameMultiset(blocks[k].a, blocks[m].b))
         || (blocks[k].a == [] && SameMultiset(blocks[m].a, blocks[k].b)));
      if SameMultiset(blocks[k].a, blocks[m].b) {
        SameAccounts(blocks[k].a, blocks[m].b);
      }
      if SameMultiset(blocks[m].a, blocks[k].b) {
        SameAccounts(blocks[m].a, blocks[k].b);
      }
    } else {
      InRemaining(blocks, used, k);
      var m :| 0 <= m < |Remaining(blocks, used)| && Remaining(blocks, used)[m] == blocks[k];
      assert Accounted(blocks[k].a, blocks[k].b, Set(Signatures(a)), Set(Signatures(b)), f);
    }
  }

  function Set(s: seq<Signature>): set<Signature> { set x | x in s }

  /** The findings of the blocks that are left, one after the other. */
  function BlockFindings(blocks: seq<Block>, sigsA: set<Signature>, sigsB: set<Signature>): seq<Finding> {
    if |blocks| == 0 then []
    else BlockFindings(blocks[..|blocks| - 1], sigsA, sigsB)
         + Classified(blocks[|blocks| - 1].a, blocks[|blocks| - 1].b, sigsA, sigsB)
  }

  function OperationFindings(a: seq<Op>, b: seq<Op>, codes: seq<Opcode>): seq<Finding>
    requires Aligns(codes, a, b, 0, 0)
  {
    var blocks := BlocksOf(codes, a, b, 0, 0);
    var moves := MovesOf(blocks, |blocks|);
    moves.f + BlockFindings(Remaining(blocks, moves.used), Set(Signatures(a)), Set(Signatures(b)))
  }

  /** The verdict of the diff for an alignment. */
  function DiffVerdict(a: seq<Op>, b: seq<Op>, codes: seq<Opcode>): Verdict
    requires Aligns(codes, a, b, 0, 0)
  {
    if LastWins(Writes(a)) == LastWins(Writes(b)) then VerdictOf(OperationFindings(a, b, codes)) else Different
  }

  lemma AccountedMore(x: Block, sigsA: set<Signature>, sigsB: set<Signature>, f: seq<Finding>, g: seq<Finding>)
    requires Accounted(x.a, x.b, sigsA, sigsB, f) || Accounted(x.a, x.b, sigsA, sigsB, g)
    ensures Accounted(x.a, x.b, sigsA, sigsB, f + g)
  {
    FindingsAppend(f, g);
  }

  lemma BlockFindingsNext(blocks: seq<Block>, h: seq<Block>, x: Block, sigsA: set<Signature>, sigsB: set<Signature>)
    requires blocks == h + [x]
    ensures BlockFindings(blocks, sigsA, sigsB) == BlockFindings(h, sigsA, sigsB) + Classified(x.a, x.b, sigsA, sigsB)
  {
    assert blocks[..|h|] == h;
  }

  /** Every block left is accounted for. */
  lemma {:induction false} BlockFindingsAccount(blocks: seq<Block>, m: nat, sigsA: set<Signature>,
                                                sigsB: set<Signature>)
    requires m < |blocks|
    ensures Accounted(blocks[m].a, blocks[m].b, sigsA, sigsB, BlockFindings(blocks, sigsA, sigsB))
  {
    var h, x := blocks[..|blocks| - 1], blocks[|blocks| - 1];
    BlockFindingsNext(blocks, h, x, sigsA, sigsB);
    if m < |h| {
      BlockFindingsAccount(h, m, sigsA, sigsB);
    } else {
      ClassifiedMeans(x.a, x.b, sigsA, sigsB);
    }
    AccountedMore(blocks[m], sigsA, sigsB, BlockFindings(h, sigsA, sigsB), Classified(x.a, x.b, sigsA, sigsB));
  }

  lemma NothingClassified(x: Block, sigsA: set<Signature>, sigsB: set<Signature>)
    ensures Classified(x.a, x.b, sigsA, sigsB) == [] <==> x == Block([], [])
  {
    ClassifiedMeans(x.a, x.b, sigsA, sigsB);
  }

  /** Nothing is found exactly when the blocks are all empty. */
  lemma {:induction false} BlockFindingsNone(blocks: seq<Block>, sigsA: set<Signature>, sigsB: set<Signature>)
    ensures BlockFindings(blocks, sigsA, sigsB) == [] <==> AllEmpty(blocks)
  {
    if |blocks| > 0 {
      var h, x := blocks[..|blocks| - 1], blocks[|blocks| - 1];
      BlockFindingsNext(blocks, h, x, sigsA, sigsB);
      BlockFindingsNone(h, sigsA, sigsB);
      NothingClassified(x, sigsA, sigsB);
      assert AllEmpty(blocks) <==> AllEmpty(h) && x == Block([], []);
    }
  }

  /** The loop over the blocks that are left. */
  method ClassifyAll(remaining: seq<Block>, sigsA: set<Signature>, sigsB: set<Signature>) returns (f: seq<Finding>)
    ensures f == BlockFindings(remaining, sigsA, sigsB)
  {
    f := [];
    for k := 0 to |remaining|
      invariant f == BlockFindings(remaining[..k], sigsA, sigsB)
    {
      assert remaining[..k + 1][..k] == remaining[..k];
      var g := Classify(remaining[k].a, remaining[k].b, sigsA, sigsB);
      f := f + g;
    }
    assert remaining[..|remaining|] == remaining;
  }

  /** The findings on the aligned operations. */
  method CompareOperations(a: seq<Op>, b: seq<Op>, codes: seq<Opcode>) returns (f: seq<Finding>)
    requires Aligns(codes, a, b, 0, 0)
    ensures f == OperationFindings(a, b, codes)
    ensures f == [] <==> NothingLeft(codes)
    ensures NoneDifferent(f) ==> forall s :: Programs(s) ==> (s in Signatures(a) <==> s in Signatures(b))
    ensures NoneDifferent(f) && NoRetry(f) ==> forall s :: Programs(s) ==> Count(a, s) == Count(b, s)
  {
    var blocks := Collect(codes, a, b);
    var moves, remaining := PairMoves(blocks);
    ghost var used := MovesOf(blocks, |blocks|).used;
    var g := ClassifyAll(remaining, Set(Signatures(a)), Set(Signatures(b)));
    f := moves + g;
    BlockFindingsNone(remaining, Set(Signatures(a)), Set(Signatures(b)));
    forall m | 0 <= m < |remaining|
      ensures Accounted(remaining[m].a, remaining[m].b, Set(Signatures(a)), Set(Signatures(b)), f)
    {
      BlockFindingsAccount(remaining, m, Set(Signatures(a)), Set(Signatures(b)));
      AccountedMore(remaining[m], Set(Signatures(a)), Set(Signatures(b)), moves, g);
    }
    NothingFound(codes, a, b, blocks, used, moves, f);
    if NoneDifferent(f) {
      OperationsAccounted(codes, a, b, blocks, used, moves, f);
    }
  }

  lemma FindingsAppend(f: seq<Finding>, g: seq<Finding>)
    ensures NoneDifferent(f + g) ==> NoneDifferent(f) && NoneDifferent(g)
    ensures NoRetry(f + g) ==> NoRetry(f) && NoRetry(g)
  {
    assert forall i :: 0 <= i < |f| ==> (f + g)[i] == f[i];
    assert forall i :: 0 <= i < |g| ==> (f + g)[|f| + i] == g[i];
  }

  method Collect(codes: seq<Opcode>, a: seq<Op>, b: seq<Op>) returns (blocks: seq<Block>)
    requires Aligns(codes, a, b, 0, 0)
    ensures blocks == BlocksOf(codes, a, b, 0, 0)
  {
    blocks := [];
    var i: nat, j: nat, k: nat := 0, 0, 0;
    while k < |codes|
      invariant k <= |codes| && i <= |a| && j <= |b| && Aligns(codes[k..], a, b, i, j)
      invariant BlocksOf(codes, a, b, 0, 0) == blocks + BlocksOf(codes[k..], a, b, i, j)
    {
      var c := codes[k];
      assert codes[k..][0] == c && codes[k..][1..] == codes[k + 1..];
      if !c.equal {
        blocks := blocks + [Block(a[c.i1..c.i2], b[c.j1..c.j2])];
      }
      i, j, k := c.i2, c.j2, k + 1;
    }
  }

  ghost predicate AllEmpty(blocks: seq<Block>) { forall k :: 0 <= k < |blocks| ==> blocks[k] == Block([], []) }

  lemma AllEmptyMore(x: Block, rest: seq<Block>)
    ensures AllEmpty([x] + rest) <==> x == Block([], []) && AllEmpty(rest)
  {
    var blocks := [x] + rest;
    assert blocks[0] == x;
    assert forall k :: 0 <= k < |rest| ==> rest[k] == blocks[k + 1];
    assert forall k :: 0 < k < |blocks| ==> blocks[k] == rest[k - 1];
  }

  lemma {:induction false} EmptyBlocks(codes: seq<Opcode>, a: seq<Op>, b: seq<Op>, i: nat, j: nat)
    requires i <= |a| && j <= |b| && Aligns(codes, a, b, i, j)
    ensures NothingLeft(codes) <==> AllEmpty(BlocksOf(codes, a, b, i, j))
  {
    if |codes| > 0 {
      var c := codes[0];
      var rest := BlocksOf(codes[1..], a, b, c.i2, c.j2);
      EmptyBlocks(codes[1..], a, b, c.i2, c.j2);
      if c.equal {
        assert [] + rest == rest;
      } else {
        var x := Block(a[i..c.i2], b[j..c.j2]);
        assert x == Block([], []) <==> c.i1 == c.i2 && c.j1 == c.j2;
        AllEmptyMore(x, rest);
      }
    }
  }

  lemma NothingFound(codes: seq<Opcode>, a: seq<Op>, b: seq<Op>, blocks: seq<Block>, used: set<nat>,
                     moves: seq<Finding>, f: seq<Finding>)
    requires Aligns(codes, a, b, 0, 0) && blocks == BlocksOf(codes, a, b, 0, 0) && Pairing(blocks, used, moves)
    requires f == [] <==> moves == [] && AllEmpty(Remaining(blocks, used))
    requires AllEmpty(blocks) ==> moves == []
    ensures f == [] <==> NothingLeft(codes)
  {
    EmptyBlocks(codes, a, b, 0, 0);
    RemainingNone(blocks);
  }

  lemma OperationsAccounted(codes: seq<Opcode>, a: seq<Op>, b: seq<Op>, blocks: seq<Block>, used: set<nat>,
                            moves: seq<Finding>, f: seq<Finding>)
    requires Aligns(codes, a, b, 0, 0) && blocks == BlocksOf(codes, a, b, 0, 0)
    requires Pairing(blocks, used, moves) && NoneDifferent(f)
    requires forall k :: 0 <= k < |Remaining(blocks, used)| ==>
      Accounted(Remaining(blocks, used)[k].a, Remaining(blocks, used)[k].b, Set(Signatures(a)), Set(Signatures(b)), f)
    ensures forall s :: Programs(s) ==> (s in Signatures(a) <==> s in Signatures(b))
    ensures NoRetry(f) ==> forall s :: Programs(s) ==> Count(a, s) == Count(b, s)
  {
    assert a[0..] == a && b[0..] == b;
    BlocksWithin(codes, a, b, 0, 0);
    forall s | Programs(s)
      ensures s in Signatures(a) <==> s in Signatures(b)
      ensures NoRetry(f) ==> Count(a, s) == Count(b, s)
    {
      BlocksHold(codes, a, b, 0, 0, s);
      BlockAccounted(blocks, used, moves, f, a, b, s);
      BlocksBalance(codes, a, b, 0, 0, s);
      if NoRetry(f) {
        BalanceZero(Remaining(blocks, used), s);
      }
    }
  }

  /** The whole diff. Whatever alignment the matcher chose: a verdict other than Different means the same memory octet
      for octet and the same programming operations, and Identical means the same operations in the same order. */
  method Diff(a: seq<Op>, b: seq<Op>, codes: seq<Opcode>) returns (verdict: Verdict, f: seq<Finding>, g: seq<Finding>)
    requires Aligns(codes, a, b, 0, 0)
    ensures verdict == VerdictOf(f + g) == DiffVerdict(a, b, codes)
    ensures forall x :: Names(g, x) <==> Differs(LastWins(Writes(a)), LastWins(Writes(b)), x)
    ensures verdict != Different ==> LastWins(Writes(a)) == LastWins(Writes(b))
    ensures verdict != Different ==> forall s :: Programs(s) ==> (s in Signatures(a) <==> s in Signatures(b))
    ensures verdict != Different && NoRetry(f) ==> forall s :: Programs(s) ==> Count(a, s) == Count(b, s)
    ensures verdict == Identical <==> NothingLeft(codes) && LastWins(Writes(a)) == LastWins(Writes(b))
    ensures verdict == Identical ==> Signatures(a) == Signatures(b)
  {
    var imageA := MemoryImage(a);
    var imageB := MemoryImage(b);
    f := CompareOperations(a, b, codes);
    g := DiffImages(imageA, imageB);
    NoNames(g, LastWins(imageA), LastWins(imageB));
    FindingsAppend(f, g);
    if |g| > 0 {
      assert (f + g)[|f|] == g[0];
    }
    if NothingLeft(codes) {
      NothingLeftMeansEqual(codes, a, b, 0, 0);
      assert a[0..] == a && b[0..] == b;
    }
    verdict := VerdictOf(f + g);
  }
}
