/** The rules of the operation diff, one for each kind of block, as verdicts of
    the whole diff of two sequences that differ in one place. */
module DiffRules {

  import opened Memory
  import opened Runs
  import opened OpsDiff
  import opened OpsVerdict
  import opened MovedWrites
  import opened Wrappers

  /** The findings about one block are those of the rules. */
  lemma OneBlockFindings(pre: seq<Op>, xs: seq<Op>, ys: seq<Op>, post: seq<Op>)
    ensures Aligns(OneChange(pre, xs, ys, post), pre + xs + post, pre + ys + post, 0, 0)
    ensures OperationFindings(pre + xs + post, pre + ys + post, OneChange(pre, xs, ys, post))
            == Classified(xs, ys, Set(Signatures(pre + xs + post)), Set(Signatures(pre + ys + post)))
  {
    OneChangeLeaves(pre + xs + post, pre + ys + post, pre, xs, ys, post);
    NothingMoved(Block(xs, ys));
    SingleBlock(Block(xs, ys), Set(Signatures(pre + xs + post)), Set(Signatures(pre + ys + post)));
  }

  lemma VerdictOfOne(a: seq<Op>, b: seq<Op>, codes: seq<Opcode>, x: Finding)
    requires Aligns(codes, a, b, 0, 0) && OperationFindings(a, b, codes) == [x] && x.verdict != Identical
    ensures DiffVerdict(a, b, codes) == if LastWins(Writes(a)) == LastWins(Writes(b)) then x.verdict else Different
  {
    OneVerdict(x);
  }

  // ----- the memory around a block

  lemma {:induction false} WritesJoin(a: seq<Op>, b: seq<Op>)
    ensures Writes(a + b) == Writes(a) + Writes(b)
  {
    if b == [] {
      assert a + b == a;
    } else {
      WritesJoin(a, b[..|b| - 1]);
      assert (a + b)[..|a + b| - 1] == a + b[..|b| - 1];
    }
  }

  /** The same image written in between leaves the same memory. */
  lemma SameBetween(pre: seq<Op>, xs: seq<Op>, ys: seq<Op>, post: seq<Op>)
    requires LastWins(Writes(xs)) == LastWins(Writes(ys))
    ensures LastWins(Writes(pre + xs + post)) == LastWins(Writes(pre + ys + post))
  {
    Between(pre, xs, post);
    Between(pre, ys, post);
  }

  lemma Between(pre: seq<Op>, xs: seq<Op>, post: seq<Op>)
    ensures LastWins(Writes(pre + xs + post))
            == LastWins(Writes(pre)) + LastWins(Writes(xs)) + LastWins(Writes(post))
  {
    WritesJoin(pre + xs, post);
    WritesJoin(pre, xs);
    WrittenJoin(map[], Writes(pre) + Writes(xs), Writes(post));
    WrittenJoin(map[], Writes(pre), Writes(xs));
  }

  // ----- the rules

  /** No other rule before them applies: the block is neither a reordering nor a retry. */
  predicate NoShuffle(pre: seq<Op>, xs: seq<Op>, ys: seq<Op>, post: seq<Op>) {
    && !SameMultiset(xs, ys)
    && !RetryOnly(xs, ys, Set(Signatures(pre + xs + post)), Set(Signatures(pre + ys + post)))
  }

  /** Chunking: where both sides only write memory, the diff is benign exactly when both leave the same octets there,
      however the writes are cut; and then the whole memory is the same. */
  lemma ChunkedBlock(pre: seq<Op>, xs: seq<Op>, ys: seq<Op>, post: seq<Op>)
    requires forall x :: x in xs + ys ==> x.kind == MemWrite
    requires NoShuffle(pre, xs, ys, post)
    ensures
      var a, b, codes := pre + xs + post, pre + ys + post, OneChange(pre, xs, ys, post);
      && Aligns(codes, a, b, 0, 0)
      && (DiffVerdict(a, b, codes) == Benign <==> LastWins(Writes(xs)) == LastWins(Writes(ys)))
      && (DiffVerdict(a, b, codes) == Different <==> LastWins(Writes(xs)) != LastWins(Writes(ys)))
      && OperationFindings(a, b, codes) ==
         [if LastWins(Writes(xs)) == LastWins(Writes(ys)) then Finding(Benign, Chunking, NOWHERE)
          else Finding(Different, Payload, NOWHERE)]
      && (LastWins(Writes(xs)) == LastWins(Writes(ys)) ==> LastWins(Writes(a)) == LastWins(Writes(b)))
  {
    OneBlockFindings(pre, xs, ys, post);
    ChunksClassified(xs, ys, Set(Signatures(pre + xs + post)), Set(Signatures(pre + ys + post)));
    VerdictOfOne(pre + xs + post, pre + ys + post, OneChange(pre, xs, ys, post), ChunkFinding(xs, ys));
    if LastWins(Writes(xs)) == LastWins(Writes(ys)) {
      SameBetween(pre, xs, ys, post);
    }
  }

  function MemoryWrite(content: string, b: Octet): Op { Op(MemWrite, "memory", content, Some(0), [b]) }

  /** A block that is overwritten behind it: its octets are different, so the diff is, although both sequences leave the
      same memory. */
  lemma OverwrittenBlock(post: Op)
    requires post == MemoryWrite("3", 3)
    ensures
      var x, y := MemoryWrite("1", 1), MemoryWrite("2", 2);
      && DiffVerdict([] + [x] + [post], [] + [y] + [post], OneChange([], [x], [y], [post])) == Different
      && LastWins(Writes([] + [x] + [post])) == LastWins(Writes([] + [y] + [post]))
  {
    var x, y := MemoryWrite("1", 1), MemoryWrite("2", 2);
    OneWrite(x, 1);
    OneWrite(y, 2);
    assert map[0 := 1][0] != map[0 := 2][0];
    assert Signatures([x])[0] == x.Sig() && Signatures([y])[0] == y.Sig();
    CountPositive([x], x.Sig());
    CountPositive([y], x.Sig());
    ChunkedBlock([], [x], [y], [post]);
    TwoWrites(x, post, 3);
    TwoWrites(y, post, 3);
  }

  lemma OneWrite(x: Op, b: Octet)
    requires x.kind == MemWrite && x.addr == Some(0) && x.data == [b]
    ensures Writes([x]) == [Region(0, [b])] && LastWins(Writes([x])) == map[0 := b]
  {
    var ops, r := [x], Region(0, [b]);
    assert ops[..0] == [] && |ops| == 1 && ops[0] == x;
    assert Writes(ops) == Writes(ops[..0]) + [r];
    assert [] + [r] == [r];
    OneRegion(r, b);
  }

  lemma OneRegion(r: Region, b: Octet)
    requires r == Region(0, [b])
    ensures LastWins([r]) == map[0 := b]
  {
    var none: Image := map[];
    OctetsNext(0, [], b);
    assert [] + [b] == [b];
    WrittenLast(none, [r], [], r);
    assert Written(none, []) == none;
    assert forall a :: a in Octets(r) <==> a == 0;
    assert none + Octets(r) == map[0 := b];
  }

  lemma TwoWrites(x: Op, y: Op, b: Octet)
    requires x.kind == MemWrite && x.addr == Some(0) && |x.data| == 1
    requires y.kind == MemWrite && y.addr == Some(0) && y.data == [b]
    ensures LastWins(Writes([] + [x] + [y])) == map[0 := b]
  {
    var c := x.data[0];
    assert x.data == [c];
    OneWrite(x, c);
    OneWrite(y, b);
    WritesJoin([x], [y]);
    assert [] + [x] + [y] == [x] + [y];
    WrittenJoin(map[], Writes([x]), Writes([y]));
    assert map[0 := c] + map[0 := b] == map[0 := b];
  }

  function ChunkFinding(xs: seq<Op>, ys: seq<Op>): Finding {
    if LastWins(Writes(xs)) == LastWins(Writes(ys)) then Finding(Benign, Chunking, NOWHERE)
    else Finding(Different, Payload, NOWHERE)
  }

  lemma ChunksClassified(xs: seq<Op>, ys: seq<Op>, sigsA: set<Signature>, sigsB: set<Signature>)
    requires forall x :: x in xs + ys ==> x.kind == MemWrite
    requires !SameMultiset(xs, ys) && !RetryOnly(xs, ys, sigsA, sigsB)
    ensures Classified(xs, ys, sigsA, sigsB) == [ChunkFinding(xs, ys)]
  {
    EmptySame(xs, ys);
    var all := xs + ys;
    assert forall i :: 0 <= i < |all| ==> all[i] in all && all[i].kind == MemWrite;
    assert AllMemWrites(all);
    assert !Lifecycle(all[0].kind);
  }

  lemma EmptySame(xs: seq<Op>, ys: seq<Op>)
    ensures xs + ys == [] ==> SameMultiset(xs, ys)
  {
    if xs + ys == [] {
      assert |xs| == 0 && |ys| == 0;
      assert xs == ys;
    }
  }

  /** Cycling: opening and closing the connection more or less often is always benign. */
  lemma CyclingBlock(pre: seq<Op>, xs: seq<Op>, ys: seq<Op>, post: seq<Op>)
    requires forall x :: x in xs + ys ==> x.kind in {Connect, Disconnect}
    requires !SameMultiset(xs, ys)
    ensures
      var a, b, codes := pre + xs + post, pre + ys + post, OneChange(pre, xs, ys, post);
      && Aligns(codes, a, b, 0, 0) && DiffVerdict(a, b, codes) == Benign
      && OperationFindings(a, b, codes) == [Finding(Benign, Cycling, NOWHERE)]
  {
    OneBlockFindings(pre, xs, ys, post);
    CyclesClassified(xs, ys, Set(Signatures(pre + xs + post)), Set(Signatures(pre + ys + post)));
    NoWrites(xs);
    NoWrites(ys);
    SameBetween(pre, xs, ys, post);
    VerdictOfOne(pre + xs + post, pre + ys + post, OneChange(pre, xs, ys, post), Finding(Benign, Cycling, NOWHERE));
  }

  lemma CyclesClassified(xs: seq<Op>, ys: seq<Op>, sigsA: set<Signature>, sigsB: set<Signature>)
    requires forall x :: x in xs + ys ==> x.kind in {Connect, Disconnect}
    requires !SameMultiset(xs, ys)
    ensures Classified(xs, ys, sigsA, sigsB) == [Finding(Benign, Cycling, NOWHERE)]
    ensures forall i :: 0 <= i < |xs| ==> !xs[i].kind.MemWrite?
    ensures forall i :: 0 <= i < |ys| ==> !ys[i].kind.MemWrite?
  {
    EmptySame(xs, ys);
    var all := xs + ys;
    assert forall i :: 0 <= i < |all| ==> all[i] in all && Lifecycle(all[i].kind);
    assert forall i :: 0 <= i < |xs| ==> xs[i] == all[i] && xs[i] in all;
    assert forall i :: 0 <= i < |ys| ==> ys[i] == all[|xs| + i] && ys[i] in all;
  }

  /** Ordering: a block that is only reshuffled is benign exactly when the memory is the same and it only reads or goes
      to different objects. */
  lemma ReorderedBlock(pre: seq<Op>, xs: seq<Op>, ys: seq<Op>, post: seq<Op>)
    requires xs != [] && SameMultiset(xs, ys)
    ensures
      var a, b, codes := pre + xs + post, pre + ys + post, OneChange(pre, xs, ys, post);
      && Aligns(codes, a, b, 0, 0)
      && (DiffVerdict(a, b, codes) == Benign <==>
            && LastWins(Writes(a)) == LastWins(Writes(b))
            && (OnlyReads(xs) || DistinctKeys(xs)))
      && OperationFindings(a, b, codes) == [OrderFinding(xs)]
  {
    OneBlockFindings(pre, xs, ys, post);
    OrderingClassified(xs, ys, Set(Signatures(pre + xs + post)), Set(Signatures(pre + ys + post)));
    VerdictOfOne(pre + xs + post, pre + ys + post, OneChange(pre, xs, ys, post), OrderFinding(xs));
  }

  predicate OnlyReads(ops: seq<Op>) { forall x :: x in ops ==> x.kind in {PropRead, PropDescRead, MemRead, Descriptor} }

  function OrderFinding(xs: seq<Op>): Finding {
    Finding(if OnlyReads(xs) || DistinctKeys(xs) then Benign else Different, Ordering, NOWHERE)
  }

  lemma OrderingClassified(xs: seq<Op>, ys: seq<Op>, sigsA: set<Signature>, sigsB: set<Signature>)
    requires xs != [] && SameMultiset(xs, ys)
    ensures Classified(xs, ys, sigsA, sigsB) == [OrderFinding(xs)]
  {
    if OnlyReads(xs) {
      assert forall i :: 0 <= i < |xs| ==> xs[i] in xs;
    }
  }

  /** Anything else is different: what is not a reordering, a retry, connection plumbing or memory writes alone. */
  lemma OtherBlock(pre: seq<Op>, xs: seq<Op>, ys: seq<Op>, post: seq<Op>)
    requires NoShuffle(pre, xs, ys, post)
    requires exists x :: x in xs + ys && x.kind !in {Connect, Disconnect}
    requires exists x :: x in xs + ys && x.kind != MemWrite
    ensures
      var a, b, codes := pre + xs + post, pre + ys + post, OneChange(pre, xs, ys, post);
      && Aligns(codes, a, b, 0, 0) && DiffVerdict(a, b, codes) == Different
      && OperationFindings(a, b, codes) == PairFindings(PairAll(xs, ys))
  {
    OneBlockFindings(pre, xs, ys, post);
    EmptySame(xs, ys);
    NotAll(xs + ys);
    PairFindingsDiffer(xs, ys);
  }

  lemma NotAll(ops: seq<Op>)
    ensures (exists x :: x in ops && x.kind !in {Connect, Disconnect}) ==> !AllLifecycle(ops)
    ensures (exists x :: x in ops && x.kind != MemWrite) ==> !AllMemWrites(ops)
  {
    if x :| x in ops && x.kind !in {Connect, Disconnect} {
      var i :| 0 <= i < |ops| && ops[i] == x;
    }
    if x :| x in ops && x.kind != MemWrite {
      var i :| 0 <= i < |ops| && ops[i] == x;
    }
  }

  // ----- what is missing and what is extra

  function IdCount(ops: seq<Op>, id: (Kind, string)): nat {
    if ops == [] then 0 else IdCount(ops[..|ops| - 1], id) + if ops[|ops| - 1].Identity() == id then 1 else 0
  }

  lemma {:induction false} IdCountJoin(a: seq<Op>, b: seq<Op>, id: (Kind, string))
    ensures IdCount(a + b, id) == IdCount(a, id) + IdCount(b, id)
  {
    if b == [] {
      assert a + b == a;
    } else {
      IdCountJoin(a, b[..|b| - 1], id);
      assert (a + b)[..|a + b| - 1] == a + b[..|b| - 1];
    }
  }

  lemma OneId(x: Op, id: (Kind, string))
    ensures IdCount([x], id) == if x.Identity() == id then 1 else 0
  {
    assert [x][..0] == [];
  }

  lemma WithoutOne(ops: seq<Op>, j: nat, id: (Kind, string))
    requires j < |ops|
    ensures IdCount(ops, id) == IdCount(ops[..j] + ops[j + 1..], id) + if ops[j].Identity() == id then 1 else 0
  {
    assert ops == ops[..j] + [ops[j]] + ops[j + 1..];
    IdCountJoin(ops[..j] + [ops[j]], ops[j + 1..], id);
    IdCountJoin(ops[..j], [ops[j]], id);
    IdCountJoin(ops[..j], ops[j + 1..], id);
    OneId(ops[j], id);
  }

  lemma PairOneBalances(p: Pairs, x: Op, id: (Kind, string), n: nat, m: nat)
    requires n + IdCount(p.restB, id) == m + IdCount(p.restA, id)
    ensures
      var q := PairOne(p, x);
      n + (if x.Identity() == id then 1 else 0) + IdCount(q.restB, id) == m + IdCount(q.restA, id)
  {
    var j := FirstOf(p.restB, x.Identity());
    if j == |p.restB| {
      IdCountJoin(p.restA, [x], id);
      OneId(x, id);
    } else {
      WithoutOne(p.restB, j, id);
    }
  }

  /** Pairing takes as many operations of an identity from one side as from the other. */
  lemma {:induction false} PairingBalances(a: seq<Op>, b: seq<Op>, id: (Kind, string))
    ensures IdCount(a, id) + IdCount(PairAll(a, b).restB, id) == IdCount(b, id) + IdCount(PairAll(a, b).restA, id)
  {
    if |a| > 0 {
      var front := a[..|a| - 1];
      PairingBalances(front, b, id);
      PairOneBalances(PairAll(front, b), a[|a| - 1], id, IdCount(front, id), IdCount(b, id));
    }
  }

  lemma {:induction false} SomeId(ops: seq<Op>, id: (Kind, string))
    ensures IdCount(ops, id) > 0 <==> exists i :: 0 <= i < |ops| && ops[i].Identity() == id
  {
    if ops != [] {
      SomeId(ops[..|ops| - 1], id);
    }
  }

  /** What is left over of one identity is the surplus of that side. */
  lemma Surplus(a: seq<Op>, b: seq<Op>, id: (Kind, string))
    ensures IdCount(a, id) > IdCount(b, id) <==> IdCount(PairAll(a, b).restA, id) > 0
    ensures IdCount(a, id) < IdCount(b, id) <==> IdCount(PairAll(a, b).restB, id) > 0
  {
    PairAllMeans(a, b);
    PairingBalances(a, b, id);
    SomeId(PairAll(a, b).restA, id);
    SomeId(PairAll(a, b).restB, id);
  }

  lemma NoneLeft(ops: seq<Op>)
    ensures ops != [] <==> exists id :: IdCount(ops, id) > 0
  {
    if ops != [] {
      SomeId(ops, ops[0].Identity());
    }
  }

  /** A block is reported as missing something exactly when one identity occurs more often in A, as having something
      extra when one occurs more often in B. */
  lemma MissingAndExtra(a: seq<Op>, b: seq<Op>)
    ensures PairAll(a, b).restA != [] <==> exists id :: IdCount(a, id) > IdCount(b, id)
    ensures PairAll(a, b).restB != [] <==> exists id :: IdCount(a, id) < IdCount(b, id)
  {
    MissingWhen(a, b);
    ExtraWhen(a, b);
  }

  lemma MissingWhen(a: seq<Op>, b: seq<Op>)
    ensures PairAll(a, b).restA != [] <==> exists id :: IdCount(a, id) > IdCount(b, id)
  {
    var rest := PairAll(a, b).restA;
    NoneLeft(rest);
    if id :| IdCount(rest, id) > 0 {
      Surplus(a, b, id);
    }
    if id :| IdCount(a, id) > IdCount(b, id) {
      Surplus(a, b, id);
    }
  }

  lemma ExtraWhen(a: seq<Op>, b: seq<Op>)
    ensures PairAll(a, b).restB != [] <==> exists id :: IdCount(a, id) < IdCount(b, id)
  {
    var rest := PairAll(a, b).restB;
    NoneLeft(rest);
    if id :| IdCount(rest, id) > 0 {
      Surplus(a, b, id);
    }
    if id :| IdCount(a, id) < IdCount(b, id) {
      Surplus(a, b, id);
    }
  }

  /** Some operation of either side has the same identity. */
  predicate SharesIdentity(a: seq<Op>, b: seq<Op>) {
    exists k, j :: 0 <= k < |a| && 0 <= j < |b| && a[k].Identity() == b[j].Identity()
  }

  lemma {:induction false} NothingPaired(a: seq<Op>, b: seq<Op>)
    ensures PairAll(a, b).paired == [] ==> PairAll(a, b).restA == a && PairAll(a, b).restB == b
  {
    if |a| > 0 {
      var front, l := a[..|a| - 1], a[|a| - 1];
      NothingPaired(front, b);
      assert a == front + [l];
    }
  }

  lemma {:induction false} PairsNothing(a: seq<Op>, b: seq<Op>)
    requires !SharesIdentity(a, b)
    ensures PairAll(a, b).paired == [] && PairAll(a, b).restB == b
  {
    if |a| > 0 {
      var front, l := a[..|a| - 1], a[|a| - 1];
      assert forall k :: 0 <= k < |front| ==> front[k] == a[k];
      PairsNothing(front, b);
      var j := FirstOf(b, l.Identity());
      assert a[|a| - 1] == l;
    }
  }

  lemma PairsWhenShared(a: seq<Op>, b: seq<Op>)
    ensures PairAll(a, b).paired != [] <==> SharesIdentity(a, b)
  {
    if SharesIdentity(a, b) {
      PairAllMeans(a, b);
      NothingPaired(a, b);
    } else {
      PairsNothing(a, b);
    }
  }

  /** Some finding has the reason. */
  predicate Reports(f: seq<Finding>, reason: Reason) { exists k :: 0 <= k < |f| && f[k].reason == reason }

  lemma ReportsJoin(f: seq<Finding>, g: seq<Finding>, reason: Reason)
    ensures Reports(f + g, reason) <==> Reports(f, reason) || Reports(g, reason)
  {
    assert forall k :: 0 <= k < |f| ==> (f + g)[k] == f[k];
    assert forall k :: 0 <= k < |g| ==> (f + g)[|f| + k] == g[k];
    assert forall k :: |f| <= k < |f + g| ==> (f + g)[k] == g[k - |f|];
  }

  lemma ReportsSome(some: bool, r: Reason, reason: Reason)
    ensures Reports(SomeFinding(some, r), reason) <==> some && r == reason
  {
    if some {
      assert SomeFinding(some, r)[0].reason == r;
    }
  }

  lemma PairsReport(p: Pairs, reason: Reason)
    ensures Reports(PairFindings(p), reason) <==>
      || (reason == Payload && p.paired != [])
      || (reason == Missing && p.restA != [])
      || (reason == Extra && p.restB != [])
  {
    var paired := seq(|p.paired|, _ => Finding(Different, Payload, NOWHERE));
    var missing, extra := SomeFinding(|p.restA| > 0, Missing), SomeFinding(|p.restB| > 0, Extra);
    ReportsJoin(paired + missing, extra, reason);
    ReportsJoin(paired, missing, reason);
    ReportsSome(|p.restA| > 0, Missing, reason);
    ReportsSome(|p.restB| > 0, Extra, reason);
    if p.paired != [] {
      assert paired[0].reason == Payload;
    }
  }

  /** What is reported of a block that no other rule takes: a payload difference exactly when the sides share an
      identity, something missing exactly when an identity occurs more often in A, something extra when
      one does in B. */
  lemma OtherFindings(pre: seq<Op>, xs: seq<Op>, ys: seq<Op>, post: seq<Op>)
    requires NoShuffle(pre, xs, ys, post)
    requires exists x :: x in xs + ys && x.kind !in {Connect, Disconnect}
    requires exists x :: x in xs + ys && x.kind != MemWrite
    ensures
      var a, b, codes := pre + xs + post, pre + ys + post, OneChange(pre, xs, ys, post);
      && Aligns(codes, a, b, 0, 0) &&
      var f := OperationFindings(a, b, codes);
      && (Reports(f, Payload) <==> SharesIdentity(xs, ys))
      && (Reports(f, Missing) <==> exists id :: IdCount(xs, id) > IdCount(ys, id))
      && (Reports(f, Extra) <==> exists id :: IdCount(xs, id) < IdCount(ys, id))
  {
    OtherBlock(pre, xs, ys, post);
    var p := PairAll(xs, ys);
    PairsReport(p, Payload);
    PairsReport(p, Missing);
    PairsReport(p, Extra);
    PairsWhenShared(xs, ys);
    MissingAndExtra(xs, ys);
  }

  /** Two operations have one signature exactly when kind, object and content are the same. */
  lemma SignatureTells(x: Op, y: Op)
    ensures x.Sig() == y.Sig() <==> x.kind == y.kind && x.key == y.key && x.content == y.content
    ensures x.Identity() == y.Identity() <==> x.kind == y.kind && x.key == y.key
  {
  }

  /** The signatures a verdict guarantees one by one. */
  lemma ProgramsIs(s: Signature)
    ensures Programs(s) <==> s.kind !in {Connect, Disconnect, MemWrite}
  {
  }
}
