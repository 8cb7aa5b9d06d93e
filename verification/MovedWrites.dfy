/** Two limits of the operation diff: a moved block of writes to different objects
    is judged a harmless reordering whatever it was moved across, and a repeated
    operation a harmless retry whatever came before the repeat. */
module MovedWrites {

  import opened Memory
  import opened OpsDiff
  import opened OpsVerdict
  import opened Wrappers

  /** What one object is sent, in order. */
  function OnObject(ops: seq<Op>, id: (Kind, string)): seq<Signature> {
    if |ops| == 0 then []
    else (if ops[0].Identity() == id then [ops[0].Sig()] else []) + OnObject(ops[1..], id)
  }

  lemma {:induction false} OnObjectAppend(a: seq<Op>, b: seq<Op>, id: (Kind, string))
    ensures OnObject(a + b, id) == OnObject(a, id) + OnObject(b, id)
  {
    if |a| == 0 {
      assert a + b == b;
    } else {
      OnObjectAppend(a[1..], b, id);
      assert (a + b)[1..] == a[1..] + b;
    }
  }

  lemma {:induction false} OnObjectAll(ops: seq<Op>, id: (Kind, string), x: Signature)
    ensures (forall s :: s in OnObject(ops, id) ==> s == x) <==>
      forall i :: 0 <= i < |ops| && ops[i].Identity() == id ==> ops[i].Sig() == x
  {
    if |ops| > 0 {
      OnObjectAll(ops[1..], id, x);
      assert forall i :: 0 <= i < |ops[1..]| ==> ops[1..][i] == ops[i + 1];
      if ops[0].Identity() == id {
        assert ops[0].Sig() in OnObject(ops, id);
      }
      assert forall s :: s in OnObject(ops[1..], id) ==> s in OnObject(ops, id);
    }
  }

  lemma {:induction false} Rotate(x: Signature, s: seq<Signature>)
    ensures [x] + s == s + [x] <==> forall y :: y in s ==> y == x
  {
    if |s| > 0 {
      Rotate(x, s[1..]);
      assert s == [s[0]] + s[1..];
      assert ([x] + s)[0] == x && (s + [x])[0] == s[0];
      assert ([x] + s)[1..] == s && (s + [x])[1..] == s[1..] + [x];
      if [x] + s == s + [x] {
        assert [x] + s[1..] == s[1..] + [x];
      }
      if forall y :: y in s ==> y == x {
        assert s[0] in s;
        assert forall y :: y in s[1..] ==> y in s;
      }
    }
  }

  // ----- alignments

  /** An equal stretch; the matcher gives no empty ones. */
  function Same(i: nat, j: nat, n: nat): seq<Opcode> {
    if n == 0 then [] else [Opcode(true, i, i + n, j, j + n)]
  }

  /** From positions i and j on, the alignment leaves these blocks. */
  predicate Leaves(codes: seq<Opcode>, a: seq<Op>, b: seq<Op>, i: nat, j: nat, blocks: seq<Block>) {
    Aligns(codes, a, b, i, j) && BlocksOf(codes, a, b, i, j) == blocks
  }

  /** One more opcode in front. */
  lemma CodeThen(a: seq<Op>, b: seq<Op>, c: Opcode, codes: seq<Opcode>, blocks: seq<Block>)
    requires c.i1 <= c.i2 <= |a| && c.j1 <= c.j2 <= |b| && Leaves(codes, a, b, c.i2, c.j2, blocks)
    requires c.equal ==> a[c.i1..c.i2] == b[c.j1..c.j2]
    ensures Leaves([c] + codes, a, b, c.i1, c.j1,
                   (if c.equal then [] else [Block(a[c.i1..c.i2], b[c.j1..c.j2])]) + blocks)
  {
    assert ([c] + codes)[1..] == codes;
  }

  lemma SameThen(a: seq<Op>, b: seq<Op>, i: nat, j: nat, n: nat, codes: seq<Opcode>, blocks: seq<Block>)
    requires i + n <= |a| && j + n <= |b| && a[i..i + n] == b[j..j + n] && Leaves(codes, a, b, i + n, j + n, blocks)
    ensures Leaves(Same(i, j, n) + codes, a, b, i, j, blocks)
  {
    if n == 0 {
      assert Same(i, j, n) + codes == codes;
    } else {
      var c := Opcode(true, i, i + n, j, j + n);
      CodeThen(a, b, c, codes, blocks);
      assert Same(i, j, n) == [c];
      assert [] + blocks == blocks;
    }
  }

  lemma AtTheEnd(a: seq<Op>, b: seq<Op>)
    ensures Leaves([], a, b, |a|, |b|, [])
  {
  }

  /** From positions i and j on, n operations on one side stand for m on the other, and l more are equal. */
  function ChangeCodes(i: nat, j: nat, n: nat, m: nat, l: nat): seq<Opcode> {
    [Opcode(false, i, i + n, j, j + m)] + Same(i + n, j + m, l)
  }

  lemma ChangeLeaves(a: seq<Op>, b: seq<Op>, i: nat, j: nat, x: seq<Op>, y: seq<Op>, post: seq<Op>)
    requires i <= |a| && j <= |b| && a[i..] == x + post && b[j..] == y + post
    ensures Leaves(ChangeCodes(i, j, |x|, |y|, |post|), a, b, i, j, [Block(x, y)])
  {
    var k, l := i + |x|, j + |y|;
    Stretch(a, i, x, post);
    Stretch(b, j, y, post);
    AtTheEnd(a, b);
    SameThen(a, b, k, l, |post|, [], []);
    var same := Same(k, l, |post|);
    assert same + [] == same;
    CodeThen(a, b, Opcode(false, i, k, j, l), same, []);
  }

  lemma Stretch(a: seq<Op>, i: nat, x: seq<Op>, post: seq<Op>)
    requires i <= |a| && a[i..] == x + post
    ensures |a| == i + |x| + |post|
    ensures a[i..i + |x|] == x && a[i + |x|..i + |x| + |post|] == post
  {
    assert a[i..i + |x|] == a[i..][..|x|];
    assert a[i + |x|..] == a[i..][|x|..];
  }

  /** One change between equal stretches, as the matcher reports it. */
  function OneChange(pre: seq<Op>, x: seq<Op>, y: seq<Op>, post: seq<Op>): seq<Opcode> {
    Same(0, 0, |pre|) + ChangeCodes(|pre|, |pre|, |x|, |y|, |post|)
  }

  lemma OneChangeLeaves(a: seq<Op>, b: seq<Op>, pre: seq<Op>, x: seq<Op>, y: seq<Op>, post: seq<Op>)
    requires a == pre + x + post && b == pre + y + post
    ensures Leaves(OneChange(pre, x, y, post), a, b, 0, 0, [Block(x, y)])
  {
    var p := |pre|;
    assert a[p..] == x + post && b[p..] == y + post && a[0..p] == pre == b[0..p];
    ChangeLeaves(a, b, p, p, x, y, post);
    SameThen(a, b, 0, 0, p, ChangeCodes(p, p, |x|, |y|, |post|), [Block(x, y)]);
  }

  /** Two changes between equal stretches. */
  function TwoChanges(pre: seq<Op>, x: seq<Op>, y: seq<Op>, mid: seq<Op>, x': seq<Op>, y': seq<Op>, post: seq<Op>)
    : seq<Opcode>
  {
    var i, j := |pre| + |x|, |pre| + |y|;
    Same(0, 0, |pre|) + ([Opcode(false, |pre|, i, |pre|, j)]
    + (Same(i, j, |mid|) + ChangeCodes(i + |mid|, j + |mid|, |x'|, |y'|, |post|)))
  }

  lemma Slices(a: seq<Op>, pre: seq<Op>, x: seq<Op>, mid: seq<Op>, x': seq<Op>, post: seq<Op>)
    requires a == pre + x + mid + x' + post
    ensures
      var i, m := |pre| + |x|, |mid|;
      && i + m <= |a| && a[0..|pre|] == pre && a[|pre|..i] == x && a[i..i + m] == mid && a[i + m..] == x' + post
  {
  }

  lemma FromTheMiddle(a: seq<Op>, b: seq<Op>, i: nat, j: nat, mid: seq<Op>, x: seq<Op>, y: seq<Op>, post: seq<Op>)
    requires i + |mid| <= |a| && j + |mid| <= |b| && a[i..i + |mid|] == mid == b[j..j + |mid|]
    requires a[i + |mid|..] == x + post && b[j + |mid|..] == y + post
    ensures Leaves(Same(i, j, |mid|) + ChangeCodes(i + |mid|, j + |mid|, |x|, |y|, |post|), a, b, i, j, [Block(x, y)])
  {
    var k, l := i + |mid|, j + |mid|;
    ChangeLeaves(a, b, k, l, x, y, post);
    SameThen(a, b, i, j, |mid|, ChangeCodes(k, l, |x|, |y|, |post|), [Block(x, y)]);
  }

  lemma TwoChangesLeave(a: seq<Op>, b: seq<Op>, pre: seq<Op>, x: seq<Op>, y: seq<Op>, mid: seq<Op>,
                        x': seq<Op>, y': seq<Op>, post: seq<Op>)
    requires a == pre + x + mid + x' + post && b == pre + y + mid + y' + post
    ensures Leaves(TwoChanges(pre, x, y, mid, x', y', post), a, b, 0, 0, [Block(x, y), Block(x', y')])
  {
    var p := |pre|;
    var i, j := p + |x|, p + |y|;
    Slices(a, pre, x, mid, x', post);
    Slices(b, pre, y, mid, y', post);
    FromTheMiddle(a, b, i, j, mid, x', y', post);
    var last := Same(i, j, |mid|) + ChangeCodes(i + |mid|, j + |mid|, |x'|, |y'|, |post|);
    var c := Opcode(false, p, i, p, j);
    CodeThen(a, b, c, last, [Block(x', y')]);
    assert [Block(x, y)] + [Block(x', y')] == [Block(x, y), Block(x', y')];
    SameThen(a, b, 0, 0, p, [c] + last, [Block(x, y), Block(x', y')]);
  }

  // ----- a moved block

  /** A block moved back: deleted here, the others equal, inserted behind them. */
  function BackCodes(pre: seq<Op>, xs: seq<Op>, others: seq<Op>, ys: seq<Op>, post: seq<Op>): seq<Opcode> {
    TwoChanges(pre, xs, [], others, [], ys, post)
  }

  /** A block moved to the front: inserted here, the others equal, deleted behind them. */
  function FrontCodes(pre: seq<Op>, xs: seq<Op>, others: seq<Op>, ys: seq<Op>, post: seq<Op>): seq<Opcode> {
    TwoChanges(pre, [], ys, others, xs, [], post)
  }

  lemma BackMoves(xs: seq<Op>, ys: seq<Op>, blocks: seq<Block>)
    requires xs != [] && ys != [] && SameMultiset(xs, ys) && blocks == [Block(xs, []), Block([], ys)]
    ensures MovesOf(blocks, 2).f == [ClassifyOrdering(xs, ys)] && Remaining(blocks, MovesOf(blocks, 2).used) == []
  {
    assert !Takes(blocks[0], blocks, {}, 0) && Takes(blocks[0], blocks, {}, 1);
    assert Taker(blocks[0], blocks, {}, 1) == 1;
    assert Taker(blocks[0], blocks, {}, 0) == 1;
    assert MovesOf(blocks, 0) == Moves([], {});
    var m := MovesOf(blocks, 1);
    assert m == Moves([] + [ClassifyOrdering(xs, ys)], {} + {0} + {1});
    assert m.f == [ClassifyOrdering(xs, ys)];
    assert MovesOf(blocks, 2) == m;
    BothUsed(blocks, m.used);
  }

  lemma FrontMoves(xs: seq<Op>, ys: seq<Op>, blocks: seq<Block>)
    requires xs != [] && ys != [] && SameMultiset(xs, ys) && blocks == [Block([], ys), Block(xs, [])]
    ensures MovesOf(blocks, 2).f == [ClassifyOrdering(xs, ys)] && Remaining(blocks, MovesOf(blocks, 2).used) == []
  {
    assert MovesOf(blocks, 0) == Moves([], {});
    assert MovesOf(blocks, 1) == Moves([], {});
    assert Takes(blocks[1], blocks, {}, 0);
    assert Taker(blocks[1], blocks, {}, 0) == 0;
    var m := MovesOf(blocks, 2);
    assert m == Moves([] + [ClassifyOrdering(xs, ys)], {} + {1} + {0});
    assert m.f == [ClassifyOrdering(xs, ys)];
    BothUsed(blocks, m.used);
  }

  lemma BothUsed(blocks: seq<Block>, used: set<nat>)
    requires |blocks| == 2 && 0 in used && 1 in used
    ensures Remaining(blocks, used) == []
  {
    assert blocks[..1] == [blocks[0]] && [blocks[0]][..0] == [];
    assert Remaining([blocks[0]], used) == Remaining([], used) + [];
  }

  /** When nothing is left of the blocks the moves decide. */
  lemma MovesDecide(a: seq<Op>, b: seq<Op>, codes: seq<Opcode>, blocks: seq<Block>, x: Finding)
    requires Aligns(codes, a, b, 0, 0) && BlocksOf(codes, a, b, 0, 0) == blocks
    requires MovesOf(blocks, |blocks|).f == [x] && Remaining(blocks, MovesOf(blocks, |blocks|).used) == []
    requires x.verdict != Identical
    ensures DiffVerdict(a, b, codes) == if LastWins(Writes(a)) == LastWins(Writes(b)) then x.verdict else Different
  {
    assert BlockFindings([], Set(Signatures(a)), Set(Signatures(b))) == [];
    var f := OperationFindings(a, b, codes);
    assert f == [x] + [] == [x];
    OneVerdict(x);
  }

  lemma OneVerdict(x: Finding)
    requires x.verdict != Identical
    ensures VerdictOf([x]) == x.verdict
  {
    assert [x][0] == x;
  }

  /** What every object is sent, in order, is the same. */
  ghost predicate SameOrder(a: seq<Op>, b: seq<Op>) { forall id :: OnObject(a, id) == OnObject(b, id) }

  lemma {:induction false} OnObjectNone(ops: seq<Op>, id: (Kind, string))
    requires forall i :: 0 <= i < |ops| ==> ops[i].Identity() != id
    ensures OnObject(ops, id) == []
  {
    if |ops| > 0 {
      OnObjectNone(ops[1..], id);
    }
  }

  /** With distinct objects each object is sent at most one operation. */
  lemma {:induction false} OnObjectOnce(ops: seq<Op>, i: nat)
    requires DistinctKeys(ops) && i < |ops|
    ensures OnObject(ops, ops[i].Identity()) == [ops[i].Sig()]
  {
    if i == 0 {
      OnObjectNone(ops[1..], ops[0].Identity());
    } else {
      assert ops[1..][i - 1] == ops[i];
      OnObjectOnce(ops[1..], i - 1);
    }
  }

  lemma {:induction false} OnObjectOf(ops: seq<Op>, id: (Kind, string), s: Signature)
    ensures s in OnObject(ops, id) <==> s in Signatures(ops) && (s.kind, s.key) == id
  {
    if |ops| > 0 {
      OnObjectOf(ops[1..], id, s);
      assert Signatures(ops) == [ops[0].Sig()] + Signatures(ops[1..]);
    }
  }

  lemma SameSet(xs: seq<Op>, ys: seq<Op>)
    requires SameMultiset(xs, ys)
    ensures |xs| == |ys| && forall s :: s in Signatures(xs) <==> s in Signatures(ys)
  {
    SameAccounts(xs, ys);
    assert |multiset(Signatures(xs))| == |xs|;
    assert |multiset(Signatures(ys))| == |ys|;
  }

  lemma {:induction false} OnObjectLength(ops: seq<Op>, id: (Kind, string), s: Signature)
    requires (s.kind, s.key) == id && multiset(Signatures(ops))[s] <= 1
    requires forall t :: t in Signatures(ops) && (t.kind, t.key) == id ==> t == s
    ensures OnObject(ops, id) == if s in Signatures(ops) then [s] else []
  {
    if |ops| > 0 {
      var rest := ops[1..];
      assert Signatures(ops) == [ops[0].Sig()] + Signatures(rest);
      assert multiset(Signatures(ops)) == multiset{ops[0].Sig()} + multiset(Signatures(rest));
      assert ops[0].Sig() in Signatures(ops);
      OnObjectLength(rest, id, s);
      if ops[0].Identity() == id {
        assert ops[0].Sig() == s;
        assert multiset(Signatures(rest))[s] == 0;
        assert s !in multiset(Signatures(rest));
      }
    }
  }

  lemma {:induction false} DistinctCount(ops: seq<Op>, s: Signature)
    requires DistinctKeys(ops)
    ensures multiset(Signatures(ops))[s] <= 1
    ensures forall t :: t in Signatures(ops) && s in Signatures(ops) && (t.kind, t.key) == (s.kind, s.key) ==> t == s
  {
    if |ops| > 0 {
      var rest := ops[1..];
      DistinctCount(rest, s);
      assert Signatures(ops) == [ops[0].Sig()] + Signatures(rest);
      assert multiset(Signatures(ops)) == multiset{ops[0].Sig()} + multiset(Signatures(rest));
      forall t | t in Signatures(rest)
        ensures (t.kind, t.key) != ops[0].Identity()
      {
        var i :| 0 <= i < |rest| && Signatures(rest)[i] == t;
        assert ops[i + 1] == rest[i];
      }
    }
  }

  /** A reshuffled block of distinct objects sends each object the same. */
  lemma SameOnObject(xs: seq<Op>, ys: seq<Op>, id: (Kind, string))
    requires DistinctKeys(xs) && SameMultiset(xs, ys)
    ensures OnObject(xs, id) == OnObject(ys, id) && |OnObject(xs, id)| <= 1
  {
    SameSet(xs, ys);
    if s :| s in Signatures(xs) && (s.kind, s.key) == id {
      DistinctCount(xs, s);
      OnObjectLength(xs, id, s);
      OnObjectLength(ys, id, s);
    } else {
      NoneOf(xs, id);
      NoneOf(ys, id);
    }
  }

  lemma NoneOf(ops: seq<Op>, id: (Kind, string))
    requires forall s :: s in Signatures(ops) ==> (s.kind, s.key) != id
    ensures OnObject(ops, id) == []
  {
    forall i | 0 <= i < |ops|
      ensures ops[i].Identity() != id
    {
      assert Signatures(ops)[i] in Signatures(ops);
    }
    OnObjectNone(ops, id);
  }

  /** What the block was moved across sends the block's objects nothing but the block's own operations. */
  ghost predicate Undisturbed(xs: seq<Op>, others: seq<Op>) {
    forall i, j :: 0 <= i < |xs| && 0 <= j < |others| && others[j].Identity() == xs[i].Identity() ==>
      others[j].Sig() == xs[i].Sig()
  }

  /** All that `ops` sends the object is `s`. */
  ghost predicate SendsOnly(ops: seq<Op>, id: (Kind, string), s: Signature) {
    forall j :: 0 <= j < |ops| && ops[j].Identity() == id ==> ops[j].Sig() == s
  }

  lemma ShortSwap(x: seq<Signature>, o: seq<Signature>)
    requires |x| <= 1
    ensures x + o == o + x <==> forall s :: s in x ==> forall t :: t in o ==> t == s
  {
    if |x| == 0 {
      assert x + o == o && o + x == o;
    } else {
      assert x == [x[0]] && x[0] in x;
      Rotate(x[0], o);
    }
  }

  /** Between common operations, both orders of the block and the others send the object the same exactly when the
      others send it nothing but the block's own operation. */
  lemma OrderOfObject(pre: seq<Op>, xs: seq<Op>, others: seq<Op>, ys: seq<Op>, post: seq<Op>, id: (Kind, string))
    requires DistinctKeys(xs) && SameMultiset(xs, ys)
    ensures
      OnObject(pre + xs + others + post, id) == OnObject(pre + others + ys + post, id) <==>
        forall s :: s in OnObject(xs, id) ==> SendsOnly(others, id, s)
    ensures
      OnObject(pre + others + xs + post, id) == OnObject(pre + ys + others + post, id) <==>
        forall s :: s in OnObject(xs, id) ==> SendsOnly(others, id, s)
  {
    SameOnObject(xs, ys, id);
    FourOnObject(pre, xs, others, post, id);
    FourOnObject(pre, others, ys, post, id);
    FourOnObject(pre, others, xs, post, id);
    FourOnObject(pre, ys, others, post, id);
    var p, x, o, l := OnObject(pre, id), OnObject(xs, id), OnObject(others, id), OnObject(post, id);
    Surrounded(p, x + o, o + x, l);
    ShortSwap(x, o);
    forall s | s in x
      ensures SendsOnly(others, id, s) <==> forall t :: t in o ==> t == s
    {
      OnObjectAll(others, id, s);
    }
  }

  lemma FourOnObject(a: seq<Op>, b: seq<Op>, c: seq<Op>, d: seq<Op>, id: (Kind, string))
    ensures OnObject(a + b + c + d, id)
            == OnObject(a, id) + (OnObject(b, id) + OnObject(c, id)) + OnObject(d, id)
  {
    OnObjectAppend(a + b + c, d, id);
    OnObjectAppend(a + b, c, id);
    OnObjectAppend(a, b, id);
    Regroup(OnObject(a, id), OnObject(b, id), OnObject(c, id));
  }

  lemma Regroup<T>(a: seq<T>, b: seq<T>, c: seq<T>)
    ensures a + b + c == a + (b + c)
  {
  }

  lemma Surrounded<T>(p: seq<T>, x: seq<T>, y: seq<T>, l: seq<T>)
    requires |x| == |y|
    ensures p + x + l == p + y + l <==> x == y
  {
    assert (p + x + l)[|p|..|p| + |x|] == x;
    assert (p + y + l)[|p|..|p| + |y|] == y;
  }

  lemma MoveOrder(pre: seq<Op>, xs: seq<Op>, others: seq<Op>, ys: seq<Op>, post: seq<Op>)
    requires DistinctKeys(xs) && SameMultiset(xs, ys)
    ensures SameOrder(pre + xs + others + post, pre + others + ys + post) <==> Undisturbed(xs, others)
    ensures SameOrder(pre + others + xs + post, pre + ys + others + post) <==> Undisturbed(xs, others)
  {
    forall id
      ensures (forall s :: s in OnObject(xs, id) ==> SendsOnly(others, id, s)) <==> UndisturbedFor(xs, others, id)
    {
      SendsOnlyOwn(xs, others, id);
    }
    forall id
      ensures OnObject(pre + xs + others + post, id) == OnObject(pre + others + ys + post, id)
              <==> UndisturbedFor(xs, others, id)
      ensures OnObject(pre + others + xs + post, id) == OnObject(pre + ys + others + post, id)
              <==> UndisturbedFor(xs, others, id)
    {
      OrderOfObject(pre, xs, others, ys, post, id);
    }
    ForEach(xs, others);
  }

  /** The condition for one object. */
  ghost predicate UndisturbedFor(xs: seq<Op>, others: seq<Op>, id: (Kind, string)) {
    forall i, j :: 0 <= i < |xs| && 0 <= j < |others| && xs[i].Identity() == id == others[j].Identity() ==>
      others[j].Sig() == xs[i].Sig()
  }

  lemma ForEach(xs: seq<Op>, others: seq<Op>)
    ensures Undisturbed(xs, others) <==> forall id :: UndisturbedFor(xs, others, id)
  {
    if forall id :: UndisturbedFor(xs, others, id) {
      forall i, j | 0 <= i < |xs| && 0 <= j < |others| && others[j].Identity() == xs[i].Identity()
        ensures others[j].Sig() == xs[i].Sig()
      {
        assert UndisturbedFor(xs, others, xs[i].Identity());
      }
    }
  }

  lemma SendsOnlyOwn(xs: seq<Op>, others: seq<Op>, id: (Kind, string))
    ensures (forall s :: s in OnObject(xs, id) ==> SendsOnly(others, id, s)) <==> UndisturbedFor(xs, others, id)
  {
    if forall s :: s in OnObject(xs, id) ==> SendsOnly(others, id, s) {
      forall i, j | 0 <= i < |xs| && 0 <= j < |others| && xs[i].Identity() == id == others[j].Identity()
        ensures others[j].Sig() == xs[i].Sig()
      {
        OnObjectOf(xs, id, xs[i].Sig());
        assert Signatures(xs)[i] in Signatures(xs);
      }
    } else {
      var s :| s in OnObject(xs, id) && !SendsOnly(others, id, s);
      OnObjectOf(xs, id, s);
      var i :| 0 <= i < |xs| && Signatures(xs)[i] == s;
      assert xs[i].Identity() == id;
    }
  }

  /** A block moved across others, back or to the front, between common operations. The whole diff is judged by what the
      block holds alone: benign when its operations only read or go to different objects. A block on different objects
      keeps what every object is sent exactly when the others send these objects nothing else. */
  lemma MoveKeepsOrder(pre: seq<Op>, xs: seq<Op>, others: seq<Op>, ys: seq<Op>, post: seq<Op>)
    requires xs != [] && SameMultiset(xs, ys)
    ensures
      var a, b, codes := pre + xs + others + post, pre + others + ys + post, BackCodes(pre, xs, others, ys, post);
      && Aligns(codes, a, b, 0, 0)
      && (DiffVerdict(a, b, codes) == Benign <==>
            LastWins(Writes(a)) == LastWins(Writes(b)) && (AllCommute(xs) || DistinctKeys(xs)))
      && (DistinctKeys(xs) ==> (SameOrder(a, b) <==> Undisturbed(xs, others)))
    ensures
      var a, b, codes := pre + others + xs + post, pre + ys + others + post, FrontCodes(pre, xs, others, ys, post);
      && Aligns(codes, a, b, 0, 0)
      && (DiffVerdict(a, b, codes) == Benign <==>
            LastWins(Writes(a)) == LastWins(Writes(b)) && (AllCommute(xs) || DistinctKeys(xs)))
      && (DistinctKeys(xs) ==> (SameOrder(a, b) <==> Undisturbed(xs, others)))
  {
    SameSet(xs, ys);
    MovedBack(pre, xs, others, ys, post);
    MovedFront(pre, xs, others, ys, post);
    if DistinctKeys(xs) {
      MoveOrder(pre, xs, others, ys, post);
    }
  }

  lemma MovedBack(pre: seq<Op>, xs: seq<Op>, others: seq<Op>, ys: seq<Op>, post: seq<Op>)
    requires xs != [] && ys != [] && SameMultiset(xs, ys)
    ensures
      var a, b, codes := pre + xs + others + post, pre + others + ys + post, BackCodes(pre, xs, others, ys, post);
      && Aligns(codes, a, b, 0, 0)
      && DiffVerdict(a, b, codes)
         == if LastWins(Writes(a)) == LastWins(Writes(b)) then ClassifyOrdering(xs, ys).verdict else Different
  {
    var a, b := pre + xs + others + post, pre + others + ys + post;
    assert a == pre + xs + others + [] + post && b == pre + [] + others + ys + post;
    TwoChangesLeave(a, b, pre, xs, [], others, [], ys, post);
    var blocks := [Block(xs, []), Block([], ys)];
    BackMoves(xs, ys, blocks);
    MovesDecide(a, b, BackCodes(pre, xs, others, ys, post), blocks, ClassifyOrdering(xs, ys));
  }

  lemma MovedFront(pre: seq<Op>, xs: seq<Op>, others: seq<Op>, ys: seq<Op>, post: seq<Op>)
    requires xs != [] && ys != [] && SameMultiset(xs, ys)
    ensures
      var a, b, codes := pre + others + xs + post, pre + ys + others + post, FrontCodes(pre, xs, others, ys, post);
      && Aligns(codes, a, b, 0, 0)
      && DiffVerdict(a, b, codes)
         == if LastWins(Writes(a)) == LastWins(Writes(b)) then ClassifyOrdering(xs, ys).verdict else Different
  {
    var a, b := pre + others + xs + post, pre + ys + others + post;
    assert a == pre + [] + others + xs + post && b == pre + ys + others + [] + post;
    TwoChangesLeave(a, b, pre, [], ys, others, xs, [], post);
    var blocks := [Block([], ys), Block(xs, [])];
    FrontMoves(xs, ys, blocks);
    MovesDecide(a, b, FrontCodes(pre, xs, others, ys, post), blocks, ClassifyOrdering(xs, ys));
  }

  function Write(key: string, content: string, v: Octet): Op { Op(PropWrite, key, content, None, [v]) }

  /** Two different writes to one property, exchanged. The matcher keeps the first write, inserts the second before it
      and deletes it behind: the diff is benign, and the property ends up different. */
  lemma ExchangedWrites(key: string)
    ensures
      var p, q := Write(key, "1", 1), Write(key, "2", 2);
      var codes := [Opcode(false, 0, 0, 0, 1), Opcode(true, 0, 1, 1, 2), Opcode(false, 1, 2, 2, 2)];
      && Aligns(codes, [p, q], [q, p], 0, 0)
      && DiffVerdict([p, q], [q, p], codes) == Benign
      && FinalOn([p, q], p.Identity()) == Some(q.Sig()) && FinalOn([q, p], p.Identity()) == Some(p.Sig())
  {
    var p, q := Write(key, "1", 1), Write(key, "2", 2);
    assert [] + [p] + [q] + [] == [p, q] && [] + [q] + [p] + [] == [q, p];
    NoWrites([p, q]);
    NoWrites([q, p]);
    MoveKeepsOrder([], [q], [p], [q], []);
    assert FrontCodes([], [q], [p], [q], [])
        == [Opcode(false, 0, 0, 0, 1), Opcode(true, 0, 1, 1, 2), Opcode(false, 1, 2, 2, 2)];
    TwoOnObject(p, q);
    TwoOnObject(q, p);
  }

  lemma {:induction false} NoWrites(ops: seq<Op>)
    requires forall i :: 0 <= i < |ops| ==> !ops[i].kind.MemWrite?
    ensures Writes(ops) == []
  {
    if |ops| > 0 {
      NoWrites(ops[..|ops| - 1]);
    }
  }

  lemma OneOnObject(p: Op)
    ensures OnObject([p], p.Identity()) == [p.Sig()]
  {
    assert [p][1..] == [];
  }

  lemma TwoOnObject(p: Op, q: Op)
    requires p.Identity() == q.Identity()
    ensures OnObject([p, q], p.Identity()) == [p.Sig(), q.Sig()]
  {
    assert [p, q] == [p] + [q];
    OneOnObject(p);
    OneOnObject(q);
    OnObjectAppend([p], [q], p.Identity());
  }

  // ----- a repeated operation

  /** The last operation an object is sent. */
  function FinalOn(ops: seq<Op>, id: (Kind, string)): Option<Signature> {
    var s := OnObject(ops, id);
    if |s| == 0 then None else Some(s[|s| - 1])
  }

  predicate AllSame(rs: seq<Op>, s: Signature) { |rs| > 0 && forall i :: 0 <= i < |rs| ==> rs[i].Sig() == s }

  function RepeatedFinding(s: Signature): Finding {
    Finding(Benign, if Lifecycle(s.kind) then Cycling else Retry, NOWHERE)
  }

  /** A block alone is not moved, and nothing of it is lost. */
  lemma NothingMoved(block: Block)
    ensures MovesOf([block], 1) == Moves([], {})
    ensures Remaining([block], {}) == [block]
  {
    var blocks := [block];
    assert MovesOf(blocks, 0) == Moves([], {});
    assert !Takes(block, blocks, {}, 0);
    RemainingNone(blocks);
  }

  lemma SingleBlock(block: Block, sigsA: set<Signature>, sigsB: set<Signature>)
    ensures BlockFindings([block], sigsA, sigsB) == Classified(block.a, block.b, sigsA, sigsB)
  {
    var none: seq<Block> := [];
    assert BlockFindings(none, sigsA, sigsB) == [];
    assert [block][..0] == none;
    assert none + [block] == [block];
  }

  /** The only finding about a repeated operation is a retry. */
  lemma RepeatFinding(x: seq<Op>, rs: seq<Op>, y: seq<Op>, s: Signature)
    requires AllSame(rs, s) && s in Signatures(x + y)
    ensures Aligns(OneChange(x, [], rs, y), x + y, x + rs + y, 0, 0)
    ensures OperationFindings(x + y, x + rs + y, OneChange(x, [], rs, y)) == [RepeatedFinding(s)]
  {
    assert x + y == x + [] + y;
    OneChangeLeaves(x + y, x + rs + y, x, [], rs, y);
    NothingMoved(Block([], rs));
    RepeatClassified(rs, s, Set(Signatures(x + y)), Set(Signatures(x + rs + y)));
    SingleBlock(Block([], rs), Set(Signatures(x + y)), Set(Signatures(x + rs + y)));
  }

  lemma OmitFinding(x: seq<Op>, rs: seq<Op>, y: seq<Op>, s: Signature)
    requires AllSame(rs, s) && s in Signatures(x + y)
    ensures Aligns(OneChange(x, rs, [], y), x + rs + y, x + y, 0, 0)
    ensures OperationFindings(x + rs + y, x + y, OneChange(x, rs, [], y)) == [RepeatedFinding(s)]
  {
    assert x + y == x + [] + y;
    OneChangeLeaves(x + rs + y, x + y, x, rs, [], y);
    NothingMoved(Block(rs, []));
    RepeatClassified(rs, s, Set(Signatures(x + rs + y)), Set(Signatures(x + y)));
    SingleBlock(Block(rs, []), Set(Signatures(x + rs + y)), Set(Signatures(x + y)));
  }

  lemma RepeatClassified(rs: seq<Op>, s: Signature, sigsA: set<Signature>, sigsB: set<Signature>)
    requires AllSame(rs, s)
    ensures s in sigsA ==> Classified([], rs, sigsA, sigsB) == [RepeatedFinding(s)]
    ensures s in sigsB ==> Classified(rs, [], sigsA, sigsB) == [RepeatedFinding(s)]
  {
    assert |multiset(Signatures(rs))| == |rs| && |multiset(Signatures([]))| == 0;
    assert [] + rs == rs && rs + [] == rs && rs[0].Sig() == s;
  }

  lemma {:induction false} RepeatedOnObject(rs: seq<Op>, s: Signature)
    requires AllSame(rs, s)
    ensures |OnObject(rs, (s.kind, s.key))| > 0 && forall t :: t in OnObject(rs, (s.kind, s.key)) ==> t == s
  {
    assert rs[0].Sig() == s;
    if |rs| > 1 {
      RepeatedOnObject(rs[1..], s);
    } else {
      assert OnObject(rs[1..], (s.kind, s.key)) == [];
    }
  }

  lemma FinalOfJoin(a: seq<Op>, b: seq<Op>, id: (Kind, string))
    ensures FinalOn(a + b, id) == if OnObject(b, id) == [] then FinalOn(a, id) else FinalOn(b, id)
  {
    OnObjectAppend(a, b, id);
    if OnObject(b, id) == [] {
      assert OnObject(a, id) + [] == OnObject(a, id);
    }
  }

  /** Repeating an operation on either side is benign unless the memory differs, and leaves its object with the same
      last operation exactly when something reaches the object later, or nothing else since that operation. */
  lemma RepeatKeepsFinal(x: seq<Op>, rs: seq<Op>, y: seq<Op>, s: Signature)
    requires AllSame(rs, s) && s in Signatures(x + y)
    ensures Aligns(OneChange(x, [], rs, y), x + y, x + rs + y, 0, 0)
    ensures DiffVerdict(x + y, x + rs + y, OneChange(x, [], rs, y)) == Benign <==>
      LastWins(Writes(x + y)) == LastWins(Writes(x + rs + y))
    ensures Aligns(OneChange(x, rs, [], y), x + rs + y, x + y, 0, 0)
    ensures DiffVerdict(x + rs + y, x + y, OneChange(x, rs, [], y)) == Benign <==>
      LastWins(Writes(x + rs + y)) == LastWins(Writes(x + y))
    ensures
      var id := (s.kind, s.key);
      FinalOn(x + rs + y, id) == FinalOn(x + y, id) <==> OnObject(y, id) != [] || FinalOn(x, id) == Some(s)
  {
    RepeatFinding(x, rs, y, s);
    OmitFinding(x, rs, y, s);
    OneVerdict(RepeatedFinding(s));
    RepeatFinal(x, rs, y, s);
  }

  lemma RepeatFinal(x: seq<Op>, rs: seq<Op>, y: seq<Op>, s: Signature)
    requires AllSame(rs, s)
    ensures
      var id := (s.kind, s.key);
      FinalOn(x + rs + y, id) == FinalOn(x + y, id) <==> OnObject(y, id) != [] || FinalOn(x, id) == Some(s)
  {
    var id := (s.kind, s.key);
    RepeatedOnObject(rs, s);
    assert OnObject(rs, id)[|OnObject(rs, id)| - 1] in OnObject(rs, id);
    FinalOfJoin(x, y, id);
    FinalOfJoin(x + rs, y, id);
    FinalOfJoin(x, rs, id);
  }

  /** Two different writes to one property, and the first again: benign as a retry, and the property ends different. */
  lemma RepeatedWrite(key: string)
    ensures
      var p, q := Write(key, "1", 1), Write(key, "2", 2);
      var codes := [Opcode(true, 0, 2, 0, 2), Opcode(false, 2, 2, 2, 3)];
      && Aligns(codes, [p, q], [p, q, p], 0, 0)
      && DiffVerdict([p, q], [p, q, p], codes) == Benign
      && FinalOn([p, q], p.Identity()) == Some(q.Sig()) && FinalOn([p, q, p], p.Identity()) == Some(p.Sig())
  {
    var p, q := Write(key, "1", 1), Write(key, "2", 2);
    assert [p, q] + [] == [p, q] && [p, q] + [p] + [] == [p, q, p] && [p, q] + [p] == [p, q, p];
    assert Signatures([p, q])[0] == p.Sig();
    NoWrites([p, q]);
    NoWrites([p, q, p]);
    RepeatKeepsFinal([p, q], [p], [], p.Sig());
    assert OneChange([p, q], [], [p], []) == [Opcode(true, 0, 2, 0, 2), Opcode(false, 2, 2, 2, 3)];
    TwoOnObject(p, q);
    OneOnObject(p);
    FinalOfJoin([p, q], [p], p.Identity());
  }
}
