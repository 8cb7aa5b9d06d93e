/** The diff of two downloads: operations are aligned, what does not align is
    classified, and the memory images are compared on their own. */
module OpsDiff {

  import opened Memory
  import opened Runs
  import opened Wrappers

  datatype Kind =
    | Connect | Disconnect | Descriptor | Authorize | LoadEvent | AllocRecord | PropWrite | PropRead | PropDescRead
    | MemWrite | MemRead | Restart | IaWrite | GroupValue | SecureData | FunctionProp | Other

  predicate Lifecycle(k: Kind) { k.Connect? || k.Disconnect? }

  predicate Commutes(k: Kind) { k.PropRead? || k.PropDescRead? || k.MemRead? || k.Descriptor? }

  /** One operation. Its content fingerprint stands for the hash of its payload. */
  datatype Op = Op(kind: Kind, key: string, content: string, addr: Option<int>, data: seq<Octet>) {
    function Sig(): Signature { Signature(kind, key, content) }
    function Identity(): (Kind, string) { (kind, key) }
  }

  datatype Signature = Signature(kind: Kind, key: string, content: string)

  function Signatures(ops: seq<Op>): (s: seq<Signature>)
    ensures |s| == |ops|
  {
    seq(|ops|, i requires 0 <= i < |ops| => ops[i].Sig())
  }

  /** The signatures a verdict must account for one by one: neither session plumbing nor memory writes. */
  predicate Programs(s: Signature) { !Lifecycle(s.kind) && !s.kind.MemWrite? }

  datatype Verdict = Identical | Benign | Different

  datatype Reason = Ordering | Cycling | Retry | Chunking | Payload | Missing | Extra | Coverage | Content

  /** A finding; findings about memory name the range of addresses. */
  datatype Finding = Finding(verdict: Verdict, reason: Reason, span: Range)

  const NOWHERE := Range(0, 0)

  predicate NoneDifferent(f: seq<Finding>) { forall i :: 0 <= i < |f| ==> f[i].verdict != Different }

  predicate NoRetry(f: seq<Finding>) { forall i :: 0 <= i < |f| ==> f[i].reason != Retry }

  function VerdictOf(f: seq<Finding>): Verdict {
    if !NoneDifferent(f) then Different else if |f| > 0 then Benign else Identical
  }

  // ----- counting signatures

  function Count(ops: seq<Op>, s: Signature): nat { multiset(Signatures(ops))[s] }

  lemma CountAppend(a: seq<Op>, b: seq<Op>, s: Signature)
    ensures Count(a + b, s) == Count(a, s) + Count(b, s)
  {
    assert Signatures(a + b) == Signatures(a) + Signatures(b);
  }

  lemma CountZero(ops: seq<Op>, s: Signature)
    requires forall i :: 0 <= i < |ops| ==> ops[i].Sig() != s
    ensures Count(ops, s) == 0
  {
    if s in multiset(Signatures(ops)) {
      assert s in Signatures(ops);
    }
  }

  lemma CountPositive(ops: seq<Op>, s: Signature)
    ensures Count(ops, s) > 0 <==> s in Signatures(ops)
  {
    assert s in multiset(Signatures(ops)) <==> s in Signatures(ops);
  }

  // ----- classifying a block

  datatype Block = Block(a: seq<Op>, b: seq<Op>)

  function SameMultiset(a: seq<Op>, b: seq<Op>): bool { multiset(Signatures(a)) == multiset(Signatures(b)) }

  predicate DistinctKeys(ops: seq<Op>) {
    forall i, j :: 0 <= i < j < |ops| ==> ops[i].Identity() != ops[j].Identity()
  }

  predicate AllCommute(ops: seq<Op>) { forall i :: 0 <= i < |ops| ==> Commutes(ops[i].kind) }

  predicate AllLifecycle(ops: seq<Op>) { |ops| > 0 && forall i :: 0 <= i < |ops| ==> Lifecycle(ops[i].kind) }

  predicate AllMemWrites(ops: seq<Op>) { |ops| > 0 && forall i :: 0 <= i < |ops| ==> ops[i].kind.MemWrite? }

  function ClassifyOrdering(a: seq<Op>, b: seq<Op>): Finding {
    Finding(if AllCommute(a) || DistinctKeys(a) then Benign else Different, Ordering, NOWHERE)
  }

  /** One side repeats a single operation that the other sequence contains. */
  predicate Repeats(ops: seq<Op>, others: set<Signature>) {
    && |ops| > 0
    && ops[0].Sig() in others
    && forall i :: 0 <= i < |ops| ==> ops[i].Sig() == ops[0].Sig()
  }

  predicate RetryOnly(a: seq<Op>, b: seq<Op>, sigsA: set<Signature>, sigsB: set<Signature>) {
    (|b| == 0 && Repeats(a, sigsB)) || (|a| == 0 && Repeats(b, sigsA))
  }

  /** The memory writes among some operations. */
  function Writes(ops: seq<Op>): seq<Region> {
    if |ops| == 0 then []
    else
      var rest := Writes(ops[..|ops| - 1]);
      var op := ops[|ops| - 1];
      if op.kind.MemWrite? && op.addr.Some? && |op.data| > 0 then rest + [Region(op.addr.value, op.data)] else rest
  }

  method MemoryImage(ops: seq<Op>) returns (regions: seq<Region>)
    ensures Canonical(regions) && LastWins(regions) == LastWins(Writes(ops))
  {
    var writes: seq<Region> := [];
    for i := 0 to |ops|
      invariant writes == Writes(ops[..i])
    {
      var op := ops[i];
      assert ops[..i + 1][..i] == ops[..i];
      if op.kind.MemWrite? && op.addr.Some? && |op.data| > 0 {
        writes := writes + [Region(op.addr.value, op.data)];
      }
    }
    assert ops[..|ops|] == ops;
    regions := Coalesce(writes);
  }

  /** The first operation of that identity. */
  function FirstOf(ops: seq<Op>, id: (Kind, string)): (j: nat)
    ensures j <= |ops| && (j < |ops| ==> ops[j].Identity() == id)
    ensures forall k :: 0 <= k < j ==> ops[k].Identity() != id
  {
    if |ops| == 0 || ops[0].Identity() == id then 0
    else
      assert forall k :: 0 < k < |ops| ==> ops[k] == ops[1..][k - 1];
      1 + FirstOf(ops[1..], id)
  }

  datatype Pairs = Pairs(paired: seq<(Op, Op)>, restA: seq<Op>, restB: seq<Op>)

  /** One more operation of A, paired with the first one left of its identity. */
  function PairOne(p: Pairs, x: Op): Pairs {
    var j := FirstOf(p.restB, x.Identity());
    if j == |p.restB| then Pairs(p.paired, p.restA + [x], p.restB)
    else Pairs(p.paired + [(x, p.restB[j])], p.restA, p.restB[..j] + p.restB[j + 1..])
  }

  function PairAll(a: seq<Op>, b: seq<Op>): Pairs {
    if |a| == 0 then Pairs([], [], b) else PairOne(PairAll(a[..|a| - 1], b), a[|a| - 1])
  }

  /** Every operation is paired with one of its identity or left over, and nothing left over could still be paired. */
  ghost predicate WellPaired(p: Pairs, n: nat, m: nat) {
    && |p.paired| + |p.restA| == n && |p.paired| + |p.restB| == m
    && (forall k :: 0 <= k < |p.paired| ==> p.paired[k].0.Identity() == p.paired[k].1.Identity())
    && (forall k, j :: 0 <= k < |p.restA| && 0 <= j < |p.restB| ==> p.restA[k].Identity() != p.restB[j].Identity())
  }

  lemma PairOneMore(p: Pairs, x: Op, n: nat, m: nat)
    requires WellPaired(p, n, m)
    ensures WellPaired(PairOne(p, x), n + 1, m)
  {
  }

  lemma {:induction false} PairAllMeans(a: seq<Op>, b: seq<Op>)
    ensures WellPaired(PairAll(a, b), |a|, |b|)
  {
    if |a| > 0 {
      PairAllMeans(a[..|a| - 1], b);
      PairOneMore(PairAll(a[..|a| - 1], b), a[|a| - 1], |a| - 1, |b|);
    }
  }

  /** The search for a partner among what is left. */
  method FindPartner(ops: seq<Op>, x: Op) returns (j: nat)
    ensures j == FirstOf(ops, x.Identity())
  {
    j := 0;
    while j < |ops| && ops[j].Identity() != x.Identity()
      invariant 0 <= j <= |ops|
      invariant forall k :: 0 <= k < j ==> ops[k].Identity() != x.Identity()
    {
      j := j + 1;
    }
  }

  /** Operations that are the same but for their payload, paired in order. */
  method PairByIdentity(a: seq<Op>, b: seq<Op>) returns (paired: seq<(Op, Op)>, restA: seq<Op>, restB: seq<Op>)
    ensures Pairs(paired, restA, restB) == PairAll(a, b)
    ensures WellPaired(Pairs(paired, restA, restB), |a|, |b|)
  {
    paired, restA, restB := [], [], b;
    for i := 0 to |a|
      invariant Pairs(paired, restA, restB) == PairAll(a[..i], b)
    {
      assert a[..i + 1][..i] == a[..i];
      var j := FindPartner(restB, a[i]);
      if j == |restB| {
        restA := restA + [a[i]];
      } else {
        paired := paired + [(a[i], restB[j])];
        restB := restB[..j] + restB[j + 1..];
      }
    }
    assert a[..|a|] == a;
    PairAllMeans(a, b);
  }

  /** What a block without a finding of difference guarantees about a signature. */
  ghost predicate Accounted(a: seq<Op>, b: seq<Op>, sigsA: set<Signature>, sigsB: set<Signature>, f: seq<Finding>) {
    forall s :: Programs(s) && NoneDifferent(f) ==>
      && (s in Signatures(a) ==> s in Signatures(b) || s in sigsB)
      && (s in Signatures(b) ==> s in Signatures(a) || s in sigsA)
      && (NoRetry(f) ==> Count(a, s) == Count(b, s))
  }

  function SomeFinding(some: bool, reason: Reason): seq<Finding> {
    if some then [Finding(Different, reason, NOWHERE)] else []
  }

  /** The findings of a block of operations whose payloads differ, or that one side lacks. */
  function PairFindings(p: Pairs): seq<Finding> {
    seq(|p.paired|, _ => Finding(Different, Payload, NOWHERE))
    + SomeFinding(|p.restA| > 0, Missing) + SomeFinding(|p.restB| > 0, Extra)
  }

  /** The rules, in their order. */
  function Classified(a: seq<Op>, b: seq<Op>, sigsA: set<Signature>, sigsB: set<Signature>): seq<Finding> {
    if |a| == 0 && |b| == 0 then []
    else if SameMultiset(a, b) then [ClassifyOrdering(a, b)]
    else if AllLifecycle(a + b) then [Finding(Benign, Cycling, NOWHERE)]
    else if RetryOnly(a, b, sigsA, sigsB) then [Finding(Benign, Retry, NOWHERE)]
    else if AllMemWrites(a + b) then
      var same := LastWins(Writes(a)) == LastWins(Writes(b));
      [if same then Finding(Benign, Chunking, NOWHERE) else Finding(Different, Payload, NOWHERE)]
    else PairFindings(PairAll(a, b))
  }

  lemma PairFindingsDiffer(a: seq<Op>, b: seq<Op>)
    requires a != [] || b != []
    ensures PairFindings(PairAll(a, b)) != [] && !NoneDifferent(PairFindings(PairAll(a, b)))
  {
    PairAllMeans(a, b);
    var f := PairFindings(PairAll(a, b));
    assert f[0].verdict == Different;
  }

  lemma OneFinding(x: Finding)
    ensures NoRetry([x]) <==> x.reason != Retry
  {
    assert [x][0] == x;
  }

  /** No finding exactly for an empty block; without a finding of difference every programming signature of it is
      accounted for. */
  lemma ClassifiedMeans(a: seq<Op>, b: seq<Op>, sigsA: set<Signature>, sigsB: set<Signature>)
    ensures Classified(a, b, sigsA, sigsB) == [] <==> a == [] && b == []
    ensures Accounted(a, b, sigsA, sigsB, Classified(a, b, sigsA, sigsB))
  {
    if a == [] && b == [] {
    } else if SameMultiset(a, b) {
      SameAccounts(a, b);
    } else if AllLifecycle(a + b) {
      NoPrograms(a, b);
    } else if RetryOnly(a, b, sigsA, sigsB) {
      RetryAccounts(a, b, sigsA, sigsB);
      OneFinding(Finding(Benign, Retry, NOWHERE));
    } else if AllMemWrites(a + b) {
      NoPrograms(a, b);
    } else {
      PairFindingsDiffer(a, b);
    }
  }

  method Classify(a: seq<Op>, b: seq<Op>, sigsA: set<Signature>, sigsB: set<Signature>) returns (f: seq<Finding>)
    ensures f == Classified(a, b, sigsA, sigsB)
    ensures f == [] <==> a == [] && b == []
    ensures Accounted(a, b, sigsA, sigsB, f)
  {
    ClassifiedMeans(a, b, sigsA, sigsB);
    if |a| == 0 && |b| == 0 {
      return [];
    }
    if SameMultiset(a, b) {
      return [ClassifyOrdering(a, b)];
    }
    if AllLifecycle(a + b) {
      return [Finding(Benign, Cycling, NOWHERE)];
    }
    if RetryOnly(a, b, sigsA, sigsB) {
      return [Finding(Benign, Retry, NOWHERE)];
    }
    if AllMemWrites(a + b) {
      var imgA := MemoryImage(a);
      var imgB := MemoryImage(b);
      CoalescedEqual(Writes(a), Writes(b), imgA, imgB);
      if imgA == imgB {
        return [Finding(Benign, Chunking, NOWHERE)];
      }
      return [Finding(Different, Payload, NOWHERE)];
    }
    var paired, restA, restB := PairByIdentity(a, b);
    f := [];
    for i := 0 to |paired|
      invariant f == seq(i, _ => Finding(Different, Payload, NOWHERE))
    {
      f := f + [Finding(Different, Payload, NOWHERE)];
    }
    if |restA| > 0 {
      f := f + [Finding(Different, Missing, NOWHERE)];
    }
    if |restB| > 0 {
      f := f + [Finding(Different, Extra, NOWHERE)];
    }
  }

  lemma SameAccounts(a: seq<Op>, b: seq<Op>)
    requires SameMultiset(a, b)
    ensures forall s :: Count(a, s) == Count(b, s)
    ensures forall s :: s in Signatures(a) <==> s in Signatures(b)
  {
    forall s
      ensures s in Signatures(a) <==> s in Signatures(b)
    {
      CountPositive(a, s);
      CountPositive(b, s);
    }
  }

  lemma NoPrograms(a: seq<Op>, b: seq<Op>)
    requires AllLifecycle(a + b) || AllMemWrites(a + b)
    ensures forall s :: Programs(s) ==>
      s !in Signatures(a) && s !in Signatures(b) && Count(a, s) == 0 && Count(b, s) == 0
  {
    forall s | Programs(s)
      ensures s !in Signatures(a) && s !in Signatures(b) && Count(a, s) == 0 && Count(b, s) == 0
    {
      assert forall i :: 0 <= i < |a| ==> (a + b)[i] == a[i];
      assert forall i :: 0 <= i < |b| ==> (a + b)[|a| + i] == b[i];
      CountZero(a, s);
      CountZero(b, s);
    }
  }

  lemma RetryAccounts(a: seq<Op>, b: seq<Op>, sigsA: set<Signature>, sigsB: set<Signature>)
    requires RetryOnly(a, b, sigsA, sigsB)
    ensures forall s :: s in Signatures(a) ==> s in sigsB
    ensures forall s :: s in Signatures(b) ==> s in sigsA
  {
  }

  // ----- moved blocks

  /** How many more times a signature occurs on the A sides than on the B sides of some blocks. */
  ghost function Balance(blocks: seq<Block>, s: Signature): int {
    if |blocks| == 0 then 0
    else
      var last := blocks[|blocks| - 1];
      Balance(blocks[..|blocks| - 1], s) + Count(last.a, s) - Count(last.b, s)
  }

  lemma BalanceMore(blocks: seq<Block>, x: Block, s: Signature)
    ensures Balance(blocks + [x], s) == Balance(blocks, s) + Count(x.a, s) - Count(x.b, s)
  {
    assert (blocks + [x])[..|blocks|] == blocks;
  }

  /** The blocks whose index is not used, in order. */
  function Remaining(blocks: seq<Block>, used: set<nat>): seq<Block> {
    if |blocks| == 0 then []
    else
      var n := |blocks| - 1;
      Remaining(blocks[..n], used) + (if n in used then [] else [blocks[n]])
  }

  lemma {:induction false} RemainingOthers(blocks: seq<Block>, used: set<nat>, k: nat)
    requires k >= |blocks|
    ensures Remaining(blocks, used + {k}) == Remaining(blocks, used)
  {
    if |blocks| > 0 {
      RemainingOthers(blocks[..|blocks| - 1], used, k);
    }
  }

  lemma {:induction false} RemainingNone(blocks: seq<Block>)
    ensures Remaining(blocks, {}) == blocks
  {
    if |blocks| > 0 {
      RemainingNone(blocks[..|blocks| - 1]);
      assert blocks == blocks[..|blocks| - 1] + [blocks[|blocks| - 1]];
    }
  }

  lemma RemainingLast(blocks: seq<Block>, used: set<nat>, n: nat, s: Signature)
    requires |blocks| == n + 1
    ensures Balance(Remaining(blocks, used), s) ==
      Balance(Remaining(blocks[..n], used), s) + if n in used then 0 else Count(blocks[n].a, s) - Count(blocks[n].b, s)
  {
    if n in used {
      assert Remaining(blocks[..n], used) + [] == Remaining(blocks[..n], used);
    } else {
      BalanceMore(Remaining(blocks[..n], used), blocks[n], s);
    }
  }

  /** Using one more block takes it out of the balance. */
  lemma {:induction false} UseOne(blocks: seq<Block>, used: set<nat>, k: nat, s: Signature)
    requires k < |blocks| && k !in used
    ensures Balance(Remaining(blocks, used + {k}), s) ==
      Balance(Remaining(blocks, used), s) - Count(blocks[k].a, s) + Count(blocks[k].b, s)
  {
    var n := |blocks| - 1;
    RemainingLast(blocks, used, n, s);
    RemainingLast(blocks, used + {k}, n, s);
    if k == n {
      RemainingOthers(blocks[..n], used, n);
    } else {
      UseOne(blocks[..n], used, k, s);
    }
  }

  lemma {:induction false} InRemaining(blocks: seq<Block>, used: set<nat>, k: nat)
    requires k < |blocks| && k !in used
    ensures blocks[k] in Remaining(blocks, used)
  {
    if k < |blocks| - 1 {
      InRemaining(blocks[..|blocks| - 1], used, k);
    }
  }

  /** A used block has a partner with the same signatures on the other side. */
  ghost predicate Partnered(blocks: seq<Block>, k: nat)
    requires k < |blocks|
  {
    exists m :: 0 <= m < |blocks| &&
      ((blocks[k].b == [] && SameMultiset(blocks[k].a, blocks[m].b))
       || (blocks[k].a == [] && SameMultiset(blocks[m].a, blocks[k].b)))
  }

  /** The state of the pairing: what is used is partnered and balanced. */
  ghost predicate Pairing(blocks: seq<Block>, used: set<nat>, f: seq<Finding>) {
    && (forall k :: k in used ==> k < |blocks| && Partnered(blocks, k))
    && (forall s :: Balance(Remaining(blocks, used), s) == Balance(blocks, s))
    && (f == [] ==> used == {})
    && NoRetry(f)
  }

  lemma PairingUses(blocks: seq<Block>, used: set<nat>, f: seq<Finding>, i: nat, j: nat, x: Finding)
    requires Pairing(blocks, used, f) && i < |blocks| && j < |blocks| && i != j && i !in used && j !in used
    requires blocks[i].b == [] && blocks[j].a == [] && SameMultiset(blocks[i].a, blocks[j].b) && x.reason != Retry
    ensures Pairing(blocks, used + {i} + {j}, f + [x])
  {
    forall s
      ensures Balance(Remaining(blocks, used + {i} + {j}), s) == Balance(blocks, s)
    {
      UseOne(blocks, used, i, s);
      UseOne(blocks, used + {i}, j, s);
      SameAccounts(blocks[i].a, blocks[j].b);
      CountZero([], s);
    }
    assert Partnered(blocks, i) && Partnered(blocks, j);
  }

  predicate OnlyA(x: Block) { |x.a| > 0 && |x.b| == 0 }

  /** Block j can take what block x lost. */
  predicate Takes(x: Block, blocks: seq<Block>, used: set<nat>, j: nat)
    requires j < |blocks|
  {
    j !in used && |blocks[j].b| > 0 && |blocks[j].a| == 0 && SameMultiset(x.a, blocks[j].b)
  }

  /** The first block from j on that takes it. */
  function Taker(x: Block, blocks: seq<Block>, used: set<nat>, j: nat): (k: nat)
    requires j <= |blocks|
    ensures j <= k <= |blocks| && (k < |blocks| ==> Takes(x, blocks, used, k))
    ensures forall i :: j <= i < k ==> !Takes(x, blocks, used, i)
    decreases |blocks| - j
  {
    if j == |blocks| || Takes(x, blocks, used, j) then j else Taker(x, blocks, used, j + 1)
  }

  datatype Moves = Moves(f: seq<Finding>, used: set<nat>)

  /** The moves found from the first i blocks. */
  function MovesOf(blocks: seq<Block>, i: nat): Moves
    requires i <= |blocks|
  {
    if i == 0 then Moves([], {})
    else
      var m := MovesOf(blocks, i - 1);
      var x := blocks[i - 1];
      var j := Taker(x, blocks, m.used, 0);
      if OnlyA(x) && j < |blocks| then Moves(m.f + [ClassifyOrdering(x.a, blocks[j].b)], m.used + {i - 1} + {j}) else m
  }

  /** The search for a block that takes what block x lost. */
  method FindTaker(x: Block, blocks: seq<Block>, taken: set<nat>) returns (j: nat)
    ensures j == Taker(x, blocks, taken, 0)
  {
    j := 0;
    while j < |blocks| && !Takes(x, blocks, taken, j)
      invariant 0 <= j <= |blocks| && Taker(x, blocks, taken, 0) == Taker(x, blocks, taken, j)
    {
      j := j + 1;
    }
  }

  /** What the first i blocks leave: used blocks are partnered, and no other block has been taken for its A side. */
  ghost predicate MovesUpTo(blocks: seq<Block>, i: nat, m: Moves) {
    && Pairing(blocks, m.used, m.f)
    && (forall k :: k in m.used && k < |blocks| && |blocks[k].a| > 0 ==> k < i)
    && (m.f != [] ==> exists k :: 0 <= k < |blocks| && blocks[k].a != [])
  }

  lemma MovesStart(blocks: seq<Block>)
    ensures MovesUpTo(blocks, 0, Moves([], {}))
  {
    forall s
      ensures Balance(Remaining(blocks, {}), s) == Balance(blocks, s)
    {
      RemainingNone(blocks);
    }
  }

  lemma MovesStep(blocks: seq<Block>, i: nat, m: Moves, j: nat, x: Finding)
    requires i < |blocks| && j < |blocks| && MovesUpTo(blocks, i, m)
    requires OnlyA(blocks[i]) && Takes(blocks[i], blocks, m.used, j) && x.reason != Retry
    ensures MovesUpTo(blocks, i + 1, Moves(m.f + [x], m.used + {i} + {j}))
  {
    PairingUses(blocks, m.used, m.f, i, j, x);
  }

  lemma {:induction false} MovesMean(blocks: seq<Block>, i: nat)
    requires i <= |blocks|
    ensures MovesUpTo(blocks, i, MovesOf(blocks, i))
  {
    if i == 0 {
      MovesStart(blocks);
    } else {
      MovesMean(blocks, i - 1);
      var m := MovesOf(blocks, i - 1);
      var j := Taker(blocks[i - 1], blocks, m.used, 0);
      if OnlyA(blocks[i - 1]) && j < |blocks| {
        MovesStep(blocks, i - 1, m, j, ClassifyOrdering(blocks[i - 1].a, blocks[j].b));
      }
    }
  }

  /** One-sided blocks that hold the same operations are paired as a move. */
  method PairMoves(blocks: seq<Block>) returns (f: seq<Finding>, remaining: seq<Block>)
    ensures
      var m := MovesOf(blocks, |blocks|);
      f == m.f && remaining == Remaining(blocks, m.used) && Pairing(blocks, m.used, f)
    ensures (forall k :: 0 <= k < |blocks| ==> blocks[k] == Block([], [])) ==> f == []
  {
    f := [];
    var used: set<nat> := {};
    for i := 0 to |blocks|
      invariant Moves(f, used) == MovesOf(blocks, i)
    {
      if OnlyA(blocks[i]) {
        var j := FindTaker(blocks[i], blocks, used);
        if j < |blocks| {
          f, used := f + [ClassifyOrdering(blocks[i].a, blocks[j].b)], used + {i} + {j};
        }
      }
    }
    remaining := Remaining(blocks, used);
    MovesMean(blocks, |blocks|);
  }
}
