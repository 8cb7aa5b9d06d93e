/** The comparison of load-control records, object by object, with immediate
    repeats dropped and one unresolved object paired. */
module LoadControl {

  import opened Wrappers

  datatype Form = Property | ByMemory

  /** What is compared of a record: its form and its data. */
  datatype Sig = Sig(form: Form, data: string)

  /** A record and the load-state object it drives, None when it is not resolved. */
  datatype Record = Record(obj: Key, sig: Sig)

  type Key = Option<int>

  // ----- per object, without immediate repeats

  /** The records of one object, in order. */
  function Of(records: seq<Record>, key: Key): seq<Sig> {
    if |records| == 0 then []
    else
      var l := records[|records| - 1];
      Of(records[..|records| - 1], key) + (if l.obj == key then [l.sig] else [])
  }

  function Collapse(s: seq<Sig>): (c: seq<Sig>)
    ensures |s| > 0 ==> |c| > 0 && c[|c| - 1] == s[|s| - 1]
    ensures forall i :: 0 < i < |c| ==> c[i - 1] != c[i]
  {
    if |s| == 0 then []
    else
      var c := Collapse(s[..|s| - 1]);
      if |c| > 0 && c[|c| - 1] == s[|s| - 1] then c else c + [s[|s| - 1]]
  }

  method CollapseLoop(s: seq<Sig>) returns (out: seq<Sig>)
    ensures out == Collapse(s)
  {
    out := [];
    for i := 0 to |s|
      invariant out == Collapse(s[..i])
    {
      assert s[..i + 1][..i] == s[..i];
      if !(|out| > 0 && out[|out| - 1] == s[i]) {
        out := out + [s[i]];
      }
    }
    assert s[..|s|] == s;
  }

  function Keys(records: seq<Record>): set<Key> { set i | 0 <= i < |records| :: records[i].obj }

  // ----- the rule

  /** The ETS objects that no record of ours names. */
  function Free(ours: seq<Record>, ets: seq<Record>): set<Key> { Keys(ets) - Keys(ours) }

  /** Our unresolved records stand for the one free object. */
  predicate Pairs(ours: seq<Record>, ets: seq<Record>) { None in Keys(ours) && |Free(ours, ets)| == 1 }

  /** Our sequence for an object, after the pairing. */
  function Paired(ours: seq<Record>, ets: seq<Record>, key: Key): seq<Sig> {
    if Pairs(ours, ets) && key in Free(ours, ets) then Collapse(Of(ours, None))
    else if Pairs(ours, ets) && key == None then []
    else Collapse(Of(ours, key))
  }

  ghost predicate Agrees(ours: seq<Record>, ets: seq<Record>, key: Key) {
    Paired(ours, ets, key) == Collapse(Of(ets, key))
  }

  datatype Verdict = Identical | Differing | NotComparable

  // ----- the implementation

  type Groups = map<Key, seq<Sig>>

  function Get(g: Groups, key: Key): seq<Sig> { if key in g then g[key] else [] }

  ghost predicate Collapsed(g: Groups, records: seq<Record>, k: Key) { Get(g, k) == Collapse(Of(records, k)) }

  method Grouped(records: seq<Record>) returns (g: Groups)
    ensures g.Keys == Keys(records)
    ensures forall k :: Collapsed(g, records, k)
  {
    var raw := Split(records);
    g := map k | k in raw :: Collapse(raw[k]);
    forall k
      ensures Collapsed(g, records, k)
    {
      assert Get(raw, k) == Of(records, k);
    }
  }

  method Split(records: seq<Record>) returns (g: Groups)
    ensures g.Keys == Keys(records)
    ensures forall k :: Get(g, k) == Of(records, k)
  {
    g := map[];
    for i := 0 to |records|
      invariant g.Keys == Keys(records[..i])
      invariant forall k :: Get(g, k) == Of(records[..i], k)
    {
      var rec := records[i];
      assert records[..i + 1][..i] == records[..i];
      KeysNext(records, i);
      assert Get(g, rec.obj) == Of(records[..i], rec.obj);
      g := g[rec.obj := Get(g, rec.obj) + [rec.sig]];
      forall k
        ensures Get(g, k) == Of(records[..i + 1], k)
      {
        if k != rec.obj {
          assert Of(records[..i], k) + [] == Of(records[..i], k);
        }
      }
    }
    assert records[..|records|] == records;
  }

  lemma KeysNext(records: seq<Record>, i: nat)
    requires i < |records|
    ensures Keys(records[..i + 1]) == Keys(records[..i]) + {records[i].obj}
  {
    var a, b := records[..i + 1], records[..i];
    forall k
      ensures k in Keys(a) <==> k in Keys(b) + {records[i].obj}
    {
      if k in Keys(a) {
        var n :| 0 <= n < |a| && a[n].obj == k;
        assert n < i ==> b[n].obj == k;
      }
      if k in Keys(b) {
        var n :| 0 <= n < |b| && b[n].obj == k;
        assert a[n].obj == k;
      }
      if k == records[i].obj {
        assert a[i].obj == k;
      }
    }
  }

  lemma {:induction false} NotAKey(records: seq<Record>, k: Key)
    ensures k !in Keys(records) <==> Of(records, k) == []
  {
    if |records| > 0 {
      var n := |records| - 1;
      NotAKey(records[..n], k);
      KeysNext(records, n);
      assert records[..n + 1] == records;
    }
  }

  /** Identical exactly when, object by object, the sequences agree under the pairing. */
  ghost predicate IsVerdict(v: Verdict, ours: seq<Record>, ets: seq<Record>) {
    && (v == NotComparable <==> |ets| == 0)
    && (v == Identical <==> |ets| > 0 && forall k :: Agrees(ours, ets, k))
  }

  method Compare(ours: seq<Record>, ets: seq<Record>) returns (v: Verdict)
    ensures IsVerdict(v, ours, ets)
  {
    if |ets| == 0 {
      return NotComparable;
    }
    var mine := Grouped(ours);
    var theirs := Grouped(ets);
    var paired := PairUp(ours, ets, mine, theirs);
    var same := AllAgree(ets + ours, ours, ets, paired, theirs);
    NothingElse(ours, ets);
    v := if same then Identical else Differing;
  }

  ghost predicate IsPaired(g: Groups, ours: seq<Record>, ets: seq<Record>, k: Key) { Get(g, k) == Paired(ours, ets, k) }

  /** The unresolved object takes the place of the one free object. */
  method PairUp(ghost ours: seq<Record>, ghost ets: seq<Record>, mine: Groups, theirs: Groups) returns (paired: Groups)
    requires mine.Keys == Keys(ours) && theirs.Keys == Keys(ets) && forall k :: Collapsed(mine, ours, k)
    ensures forall k :: IsPaired(paired, ours, ets, k)
  {
    var free := theirs.Keys - mine.Keys;
    assert free == Free(ours, ets);
    if None in mine && |free| == 1 {
      Only(free);
      var k: Key :| free == {k};
      assert k in free;
      paired := (map x | x in mine && x != None :: mine[x])[k := mine[None]];
      Renamed(ours, ets, mine, paired, k);
    } else {
      paired := mine;
      NotRenamed(ours, ets, mine);
    }
  }

  lemma NotRenamed(ours: seq<Record>, ets: seq<Record>, mine: Groups)
    requires forall j :: Collapsed(mine, ours, j)
    requires !Pairs(ours, ets)
    ensures forall j :: IsPaired(mine, ours, ets, j)
  {
    forall j
      ensures IsPaired(mine, ours, ets, j)
    {
      assert Collapsed(mine, ours, j);
    }
  }

  lemma Renamed(ours: seq<Record>, ets: seq<Record>, mine: Groups, paired: Groups, k: Key)
    requires mine.Keys == Keys(ours) && forall j :: Collapsed(mine, ours, j)
    requires None in mine && Free(ours, ets) == {k} && k !in mine
    requires paired == (map x | x in mine && x != None :: mine[x])[k := mine[None]]
    ensures forall j :: IsPaired(paired, ours, ets, j)
  {
    assert Pairs(ours, ets);
    forall j
      ensures IsPaired(paired, ours, ets, j)
    {
      assert Collapsed(mine, ours, j) && Collapsed(mine, ours, None);
      assert j in Free(ours, ets) <==> j == k;
    }
  }

  method AllAgree(records: seq<Record>, ghost ours: seq<Record>, ghost ets: seq<Record>, paired: Groups, theirs: Groups)
    returns (same: bool)
    requires forall k :: IsPaired(paired, ours, ets, k)
    requires forall k :: Collapsed(theirs, ets, k)
    ensures same <==> forall j :: 0 <= j < |records| ==> Agrees(ours, ets, records[j].obj)
  {
    same := true;
    for i := 0 to |records|
      invariant same <==> forall j :: 0 <= j < i ==> Agrees(ours, ets, records[j].obj)
    {
      var key := records[i].obj;
      AgreesMeans(ours, ets, paired, theirs, key);
      if Get(paired, key) != Get(theirs, key) {
        same := false;
      }
    }
  }

  lemma AgreesMeans(ours: seq<Record>, ets: seq<Record>, paired: Groups, theirs: Groups, k: Key)
    requires IsPaired(paired, ours, ets, k) && Collapsed(theirs, ets, k)
    ensures Agrees(ours, ets, k) <==> Get(paired, k) == Get(theirs, k)
  {
  }

  lemma Only(s: set<Key>)
    requires |s| == 1
    ensures exists k :: s == {k}
  {
    var k :| k in s;
    assert |s - {k}| == 0;
    assert s == s - {k} + {k};
  }

  /** An object of neither side agrees with itself. */
  lemma NothingElse(ours: seq<Record>, ets: seq<Record>)
    ensures (forall k :: Agrees(ours, ets, k)) <==>
      forall j :: 0 <= j < |ets + ours| ==> Agrees(ours, ets, (ets + ours)[j].obj)
  {
    var records := ets + ours;
    if forall j :: 0 <= j < |records| ==> Agrees(ours, ets, records[j].obj) {
      forall k
        ensures Agrees(ours, ets, k)
      {
        NotAKey(ours, k);
        NotAKey(ets, k);
        if k in Keys(ets) {
          var n :| 0 <= n < |ets| && ets[n].obj == k;
          assert records[n].obj == k;
        } else if k in Keys(ours) {
          var n :| 0 <= n < |ours| && ours[n].obj == k;
          assert records[|ets| + n].obj == k;
        }
      }
    }
  }

  // ----- what does not change the verdict

  /** The collapsed sequence of an object is the same in both lists. */
  ghost predicate SameObject(a: seq<Record>, b: seq<Record>, k: Key) { Collapse(Of(a, k)) == Collapse(Of(b, k)) }

  lemma SameKeys(a: seq<Record>, b: seq<Record>)
    requires forall k :: SameObject(a, b, k)
    ensures Keys(a) == Keys(b)
  {
    forall k
      ensures k in Keys(a) <==> k in Keys(b)
    {
      NotAKey(a, k);
      NotAKey(b, k);
      assert SameObject(a, b, k);
    }
  }

  lemma SamePaired(a: seq<Record>, b: seq<Record>, c: seq<Record>, d: seq<Record>, k: Key)
    requires forall j :: SameObject(a, b, j)
    requires Keys(a) == Keys(b) && Keys(c) == Keys(d)
    ensures Paired(a, c, k) == Paired(b, d, k)
  {
    assert SameObject(a, b, None) && SameObject(a, b, k);
  }

  /** Only each object's own collapsed sequence matters: records of different objects may be interleaved in any way. */
  lemma InterleavingDoesNotMatter(ours: seq<Record>, ours': seq<Record>, ets: seq<Record>, ets': seq<Record>, k: Key)
    requires forall j :: SameObject(ours, ours', j)
    requires forall j :: SameObject(ets, ets', j)
    ensures Agrees(ours, ets, k) <==> Agrees(ours', ets', k)
  {
    SameKeys(ours, ours');
    SameKeys(ets, ets');
    SamePaired(ours, ours', ets, ets', k);
    assert SameObject(ets, ets', k);
  }

  lemma SomeRecord(a: seq<Record>, b: seq<Record>)
    requires forall j :: SameObject(a, b, j)
    ensures |a| == 0 <==> |b| == 0
  {
    SameKeys(a, b);
    assert |a| > 0 ==> a[0].obj in Keys(a);
    assert |b| > 0 ==> b[0].obj in Keys(b);
  }

  /** So there is one verdict for all of them. */
  lemma SameVerdict(v: Verdict, ours: seq<Record>, ets: seq<Record>, v': Verdict, ours': seq<Record>, ets': seq<Record>)
    requires forall j :: SameObject(ours, ours', j)
    requires forall j :: SameObject(ets, ets', j)
    requires IsVerdict(v, ours, ets) && IsVerdict(v', ours', ets')
    ensures v == v'
  {
    SomeRecord(ets, ets');
    forall k
      ensures Agrees(ours, ets, k) <==> Agrees(ours', ets', k)
    {
      InterleavingDoesNotMatter(ours, ours', ets, ets', k);
    }
  }

  lemma {:induction false} OfAppend(a: seq<Record>, b: seq<Record>, k: Key)
    ensures Of(a + b, k) == Of(a, k) + Of(b, k)
  {
    if |b| == 0 {
      assert a + b == a;
    } else {
      var c := b[..|b| - 1];
      OfAppend(a, c, k);
      assert (a + b)[..|a + b| - 1] == a + c;
    }
  }

  function Next(c: seq<Sig>, l: Sig): seq<Sig> { if |c| > 0 && c[|c| - 1] == l then c else c + [l] }

  lemma CollapseNext(s: seq<Sig>, l: Sig)
    ensures Collapse(s + [l]) == Next(Collapse(s), l)
  {
    assert (s + [l])[..|s|] == s;
  }

  lemma {:induction false} CollapseSuffix(a: seq<Sig>, a': seq<Sig>, b: seq<Sig>)
    requires Collapse(a) == Collapse(a')
    ensures Collapse(a + b) == Collapse(a' + b)
  {
    if |b| == 0 {
      assert a + b == a && a' + b == a';
    } else {
      var c, l := b[..|b| - 1], b[|b| - 1];
      CollapseSuffix(a, a', c);
      assert a + b == (a + c) + [l] && a' + b == (a' + c) + [l];
      CollapseNext(a + c, l);
      CollapseNext(a' + c, l);
    }
  }

  /** Nothing else is dropped: a sequence without repeats stays as it is. */
  lemma {:induction false} CollapsePlain(s: seq<Sig>)
    requires forall i :: 0 < i < |s| ==> s[i - 1] != s[i]
    ensures Collapse(s) == s
  {
    if |s| > 0 {
      CollapsePlain(s[..|s| - 1]);
      assert s[..|s| - 1] + [s[|s| - 1]] == s;
    }
  }

  lemma CollapseTwice(a: seq<Sig>, x: Sig, b: seq<Sig>)
    ensures Collapse(a + [x, x] + b) == Collapse(a + [x] + b)
  {
    assert (a + [x, x])[..|a| + 1] == a + [x];
    CollapseSuffix(a + [x, x], a + [x], b);
  }

  lemma {:induction false} OfNone(b: seq<Record>, k: Key)
    requires forall i :: 0 <= i < |b| ==> b[i].obj != k
    ensures Of(b, k) == []
  {
    if |b| > 0 {
      OfNone(b[..|b| - 1], k);
    }
  }

  lemma OneOf(x: Record, k: Key)
    ensures Of([x], k) == if x.obj == k then [x.sig] else []
  {
    assert [x][..0] == [];
    assert Of([], k) == [];
  }

  lemma PartsOf(a: seq<Record>, x: Record, b: seq<Record>, c: seq<Record>, k: Key)
    ensures Of(a + [x] + b + [x] + c, k) == Of(a, k) + Of([x], k) + Of(b, k) + Of([x], k) + Of(c, k)
    ensures Of(a + [x] + b + c, k) == Of(a, k) + Of([x], k) + Of(b, k) + Of(c, k)
  {
    OfAppend(a + [x] + b + [x], c, k);
    OfAppend(a + [x] + b, [x], k);
    OfAppend(a + [x] + b, c, k);
    OfAppend(a + [x], b, k);
    OfAppend(a, [x], k);
  }

  lemma TwoSigs(a: seq<Sig>, x: Sig)
    ensures a + [x] + [x] == a + [x, x]
  {
  }

  lemma Neutral(s: seq<Sig>)
    ensures s + [] == s
  {
  }

  /** Sending a record again before any other record of its object changes no object's sequence. */
  lemma RepeatDoesNotMatter(a: seq<Record>, x: Record, b: seq<Record>, c: seq<Record>, k: Key)
    requires forall i :: 0 <= i < |b| ==> b[i].obj != x.obj
    ensures SameObject(a + [x] + b + [x] + c, a + [x] + b + c, k)
  {
    PartsOf(a, x, b, c, k);
    OneOf(x, k);
    if k == x.obj {
      OfNone(b, k);
      Neutral(Of(a, k) + [x.sig]);
      TwoSigs(Of(a, k), x.sig);
      CollapseTwice(Of(a, k), x.sig, Of(c, k));
    } else {
      Neutral(Of(a, k));
      Neutral(Of(a, k) + Of(b, k));
    }
  }

  /** Both comparisons have the same verdict. */
  ghost predicate OneVerdict(ours: seq<Record>, ets: seq<Record>, ours': seq<Record>, ets': seq<Record>) {
    forall v: Verdict, v': Verdict :: IsVerdict(v, ours, ets) && IsVerdict(v', ours', ets') ==> v == v'
  }

  lemma SameObjectsOneVerdict(ours: seq<Record>, ets: seq<Record>, ours': seq<Record>, ets': seq<Record>)
    requires forall k :: SameObject(ours, ours', k)
    requires forall k :: SameObject(ets, ets', k)
    ensures OneVerdict(ours, ets, ours', ets')
  {
    forall v: Verdict, v': Verdict | IsVerdict(v, ours, ets) && IsVerdict(v', ours', ets')
      ensures v == v'
    {
      SameVerdict(v, ours, ets, v', ours', ets');
    }
  }

  /** Two lists of one side that no comparison can tell apart, whatever the other side is. */
  ghost predicate Interchangeable(a: seq<Record>, b: seq<Record>) {
    forall other: seq<Record> :: OneVerdict(a, other, b, other) && OneVerdict(other, a, other, b)
  }

  lemma SameObjectsInterchange(a: seq<Record>, b: seq<Record>)
    requires forall k :: SameObject(a, b, k)
    ensures Interchangeable(a, b)
  {
    forall other: seq<Record>
      ensures OneVerdict(a, other, b, other) && OneVerdict(other, a, other, b)
    {
      SameAsItself(other);
      SameObjectsOneVerdict(a, other, b, other);
      SameObjectsOneVerdict(other, a, other, b);
    }
  }

  lemma SameAsItself(a: seq<Record>)
    ensures forall k :: SameObject(a, a, k)
  {
  }

  /** Repeating a record before the next one of its object never changes the verdict, on either side. */
  lemma RepeatKeepsVerdict(a: seq<Record>, x: Record, b: seq<Record>, c: seq<Record>)
    requires forall i :: 0 <= i < |b| ==> b[i].obj != x.obj
    ensures Interchangeable(a + [x] + b + [x] + c, a + [x] + b + c)
  {
    forall k
      ensures SameObject(a + [x] + b + [x] + c, a + [x] + b + c, k)
    {
      RepeatDoesNotMatter(a, x, b, c, k);
    }
    SameObjectsInterchange(a + [x] + b + [x] + c, a + [x] + b + c);
  }

  /** Nor does exchanging two neighbouring records of different objects. */
  lemma ExchangeKeepsVerdict(a: seq<Record>, x: Record, y: Record, b: seq<Record>)
    requires x.obj != y.obj
    ensures Interchangeable(a + [x] + [y] + b, a + [y] + [x] + b)
  {
    forall k
      ensures SameObject(a + [x] + [y] + b, a + [y] + [x] + b, k)
    {
      ExchangedOf(a, x, y, b, k);
    }
    SameObjectsInterchange(a + [x] + [y] + b, a + [y] + [x] + b);
  }

  lemma ExchangedOf(a: seq<Record>, x: Record, y: Record, b: seq<Record>, k: Key)
    requires x.obj != y.obj
    ensures Of(a + [x] + [y] + b, k) == Of(a + [y] + [x] + b, k)
  {
    OfAppend(a + [x] + [y], b, k);
    OfAppend(a + [x], [y], k);
    OfAppend(a, [x], k);
    OfAppend(a + [y] + [x], b, k);
    OfAppend(a + [y], [x], k);
    OfAppend(a, [y], k);
    OneOf(x, k);
    OneOf(y, k);
    Neutral(Of(a, k));
    Neutral(Of(a, k) + [x.sig]);
    Neutral(Of(a, k) + [y.sig]);
  }

  // ----- the pairing rule

  predicate Names(records: seq<Record>, k: Key) { exists i :: 0 <= i < |records| && records[i].obj == k }

  /** k is the one object that ETS drives and none of our records names. */
  ghost predicate OnlyFree(ours: seq<Record>, ets: seq<Record>, k: Key) {
    && Names(ets, k) && !Names(ours, k)
    && forall j :: Names(ets, j) && !Names(ours, j) ==> j == k
  }

  lemma NamesKeys(records: seq<Record>, k: Key)
    ensures Names(records, k) <==> k in Keys(records)
  {
  }

  lemma FreeIs(ours: seq<Record>, ets: seq<Record>, k: Key)
    ensures OnlyFree(ours, ets, k) <==> Free(ours, ets) == {k}
  {
    forall j
      ensures Names(ets, j) && !Names(ours, j) <==> j in Free(ours, ets)
    {
      NamesKeys(ours, j);
      NamesKeys(ets, j);
    }
  }

  /** Our sequence for each object, with one free object k for our unresolved records. */
  function StandingIn(ours: seq<Record>, k: Key, j: Key): seq<Sig> {
    if j == k then Collapse(Of(ours, None)) else if j == None then [] else Collapse(Of(ours, j))
  }

  ghost predicate AgreesWith(ours: seq<Record>, ets: seq<Record>, k: Key, j: Key) {
    StandingIn(ours, k, j) == Collapse(Of(ets, j))
  }

  lemma PairedIs(ours: seq<Record>, ets: seq<Record>, k: Key, j: Key)
    requires Names(ours, None) && OnlyFree(ours, ets, k)
    ensures Agrees(ours, ets, j) <==> AgreesWith(ours, ets, k, j)
  {
    FreeIs(ours, ets, k);
    NamesKeys(ours, None);
    PairedValue(ours, ets, k, j);
  }

  lemma PairedValue(ours: seq<Record>, ets: seq<Record>, k: Key, j: Key)
    requires None in Keys(ours) && Free(ours, ets) == {k}
    ensures Paired(ours, ets, j) == StandingIn(ours, k, j)
  {
    assert |{k}| == 1;
    assert j in Free(ours, ets) <==> j == k;
  }

  /** With records of ours that are not resolved and one free object, the verdict is identical exactly when those
      records are what ETS sent to that object, ETS left none unresolved, and every other object has equal sequences. */
  lemma PairedVerdict(v: Verdict, ours: seq<Record>, ets: seq<Record>, k: Key)
    requires IsVerdict(v, ours, ets) && Names(ours, None) && OnlyFree(ours, ets, k)
    ensures v == Identical <==> forall j :: AgreesWith(ours, ets, k, j)
  {
    forall j
      ensures Agrees(ours, ets, j) <==> AgreesWith(ours, ets, k, j)
    {
      PairedIs(ours, ets, k, j);
    }
    AllAlike(ours, ets, k);
  }

  lemma AllAlike(ours: seq<Record>, ets: seq<Record>, k: Key)
    requires forall j :: Agrees(ours, ets, j) <==> AgreesWith(ours, ets, k, j)
    ensures (forall j :: Agrees(ours, ets, j)) <==> forall j :: AgreesWith(ours, ets, k, j)
  {
  }

  /** Without unresolved records, or with no free object or more than one, nothing is paired: the verdict is identical
      exactly when every object has equal sequences. */
  lemma UnpairedVerdict(v: Verdict, ours: seq<Record>, ets: seq<Record>)
    requires IsVerdict(v, ours, ets) && ets != []
    requires !Names(ours, None) || forall k :: !OnlyFree(ours, ets, k)
    ensures v == Identical <==> forall j :: SameObject(ours, ets, j)
  {
    NotPaired(ours, ets);
    forall j
      ensures Agrees(ours, ets, j) <==> SameObject(ours, ets, j)
    {
    }
    if forall j :: SameObject(ours, ets, j) {
      assert forall j :: Agrees(ours, ets, j);
    }
    if forall j :: Agrees(ours, ets, j) {
      assert forall j :: SameObject(ours, ets, j);
    }
  }

  lemma NotPaired(ours: seq<Record>, ets: seq<Record>)
    requires !Names(ours, None) || forall k :: !OnlyFree(ours, ets, k)
    ensures !Pairs(ours, ets)
  {
    NamesKeys(ours, None);
    if |Free(ours, ets)| == 1 {
      Only(Free(ours, ets));
      var k :| Free(ours, ets) == {k};
      FreeIs(ours, ets, k);
    }
  }
}
