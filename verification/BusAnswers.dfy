/** What an answer tells the caller about the bus, why the actor stops, when it
    attempts again, and what the published counters count. */
module BusAnswers {
  import opened BusActor
  import opened BusInvariants
  import opened BusProperties
  import opened Wrappers

  lemma StepOf(run: seq<Moment>, i: nat) returns (l: Label)
    requires Run(run) && i + 1 < |run|
    ensures Enabled(run[i].s, l)
    ensures run[i + 1] == Moment(Step(run[i].s, l), Extend(run[i].log, Emits(run[i].s, l)))
  {
    assert Linked(run, i);
    l :| Enabled(run[i].s, l) &&
      run[i + 1] == Moment(Step(run[i].s, l), Extend(run[i].log, Emits(run[i].s, l)));
  }

  /** The step from moment i adds this event. */
  predicate Adds(run: seq<Moment>, i: nat, e: Event)
    requires i + 1 < |run|
  {
    Happened(run[i + 1].log, e) && !Happened(run[i].log, e)
  }

  predicate InEmit(emit: Emit, e: Event) {
    match emit
    case Silent => false
    case Emit1(e1) => e == e1
    case Emit2(e1, e2) => e == e1 || e == e2
    case Emit3(e1, e2, e3) => e == e1 || e == e2 || e == e3
    case Each(ids, a) => e.Answered? && e.answer == a && e.id in ids
  }

  lemma {:induction false} HappenedAll(log: Log, ids: seq<nat>, a: Answer, e: Event)
    requires Happened(AnswerAll(log, ids, a), e)
    ensures Happened(log, e) || InEmit(Each(ids, a), e)
  {
    if ids != [] && e != Answered(ids[|ids| - 1], a) {
      HappenedAll(log, ids[..|ids| - 1], a, e);
    }
  }

  lemma NewInEmit(log: Log, emit: Emit, e: Event)
    requires Happened(Extend(log, emit), e) && !Happened(log, e)
    ensures InEmit(emit, e)
  {
    match emit
    case Each(ids, a) => HappenedAll(log, ids, a, e);
    case Emit3(e1, e2, _) =>
      assert Happened(Entry(log, e1), e) ==> e == e1;
      assert Happened(Entry(Entry(log, e1), e2), e) ==> e == e2 || e == e1;
    case _ =>
  }

  // ----- the command behind an answer

  datatype Request = Request(kind: Kind, at: nat)

  /** How and when a command was issued. */
  function RequestOf(log: Log, id: nat): Option<Request> {
    if log.NoEvents? then None
    else if log.event.Issued? && log.event.id == id then Some(Request(log.event.kind, log.event.at))
    else RequestOf(log.before, id)
  }

  /** The answers a kind of command can get. */
  predicate Suits(a: Answer, k: Kind) {
    match a
    case Receipt => k == KSend
    case Stale(_, _) => k == KSend
    case TransportFailed => k == KSend
    case CloseDone => k == KClose
    case ReconnectDone => k == KReconnect
    case ActorGone => true
  }

  predicate EventSuits(log: Log, e: Event) {
    match e
    case Transmitted(id, queuedAt, _, _) => RequestOf(log, id) == Some(Request(KSend, queuedAt))
    case Taken(id) => OfKind(log, id, KReconnect)
    case Answered(id, a) => RequestOf(log, id).Some? && Suits(a, RequestOf(log, id).value.kind)
    case _ => true
  }

  predicate OfKind(log: Log, id: nat, k: Kind) { RequestOf(log, id).Some? && RequestOf(log, id).value.kind == k }

  /** Every event of the history suits the command it is about. */
  predicate AllSuit(log: Log) {
    log.Entry? ==> AllSuit(log.before) && EventSuits(log.before, log.event)
  }

  predicate CommandKnown(log: Log, c: Command) {
    match c
    case Send(id, queuedAt) => RequestOf(log, id) == Some(Request(KSend, queuedAt))
    case Close(id) => OfKind(log, id, KClose)
    case Reconnect(id) => OfKind(log, id, KReconnect)
  }

  predicate OutcomeKnown(log: Log, o: Outcome) { o.OutReconnect? ==> OfKind(log, o.id, KReconnect) }

  /** The command the actor has in hand is of the kind it treats it as. */
  predicate HandKnown(log: Log, pc: ActorPc) {
    match pc
    case Transmitting(id) => OfKind(log, id, KSend)
    case Holding(id, queuedAt, _, _) => RequestOf(log, id) == Some(Request(KSend, queuedAt))
    case Disconnecting(id, again) => OfKind(log, id, if again then KReconnect else KClose)
    case Aborting(o) => OutcomeKnown(log, o)
    case BumpDown(o) => OutcomeKnown(log, o)
    case _ => true
  }

  predicate AllOfKind(log: Log, ids: seq<nat>, k: Kind) { forall i :: 0 <= i < |ids| ==> OfKind(log, ids[i], k) }

  predicate QueueKnown(log: Log, queue: seq<Command>) { forall i :: 0 <= i < |queue| ==> CommandKnown(log, queue[i]) }

  ghost predicate Unissued(log: Log, from: nat) { forall id: nat :: id >= from ==> RequestOf(log, id) == None }

  ghost predicate Known(s: State, log: Log) {
    && Unissued(log, s.nextId) && QueueKnown(log, s.queue) && HandKnown(log, s.actor.pc)
    && AllOfKind(log, s.actor.waiting, KReconnect) && Past(log, s.now)
  }

  ghost predicate Past(log: Log, now: nat) {
    forall id :: RequestOf(log, id).Some? ==> RequestOf(log, id).value.at <= now
  }

  predicate NoIssue(emit: Emit) {
    match emit
    case Emit1(e) => !e.Issued?
    case Emit2(e1, e2) => !e1.Issued? && !e2.Issued?
    case Emit3(e1, e2, e3) => !e1.Issued? && !e2.Issued? && !e3.Issued?
    case _ => true
  }

  lemma {:induction false} RequestsAll(log: Log, ids: seq<nat>, a: Answer, id: nat)
    ensures RequestOf(AnswerAll(log, ids, a), id) == RequestOf(log, id)
  {
    if ids != [] {
      RequestsAll(log, ids[..|ids| - 1], a, id);
    }
  }

  /** Events that are no new commands change no command's record. */
  lemma RequestsStay(log: Log, emit: Emit, id: nat)
    requires NoIssue(emit)
    ensures RequestOf(Extend(log, emit), id) == RequestOf(log, id)
  {
    match emit
    case Each(ids, a) => RequestsAll(log, ids, a, id);
    case Emit3(e1, e2, _) => assert RequestOf(Entry(Entry(log, e1), e2), id) == RequestOf(log, id);
    case _ =>
  }

  ghost predicate SameRequests(log: Log, log': Log) { forall id :: RequestOf(log', id) == RequestOf(log, id) }

  lemma KnownStays(s: State, log: Log, log': Log)
    requires Known(s, log) && SameRequests(log, log')
    ensures Known(s, log')
  {
  }

  /** A new command is known, and no other changes. */
  lemma KnownIssue(s: State, log: Log, k: Kind)
    requires EnvEnabled(s, Issue(k)) && Known(s, log)
    ensures Known(EnvStep(s, Issue(k)), Entry(log, Issued(s.nextId, k, s.now)))
  {
    var log' := Entry(log, Issued(s.nextId, k, s.now));
    assert forall id :: id != s.nextId ==> RequestOf(log', id) == RequestOf(log, id);
    assert RequestOf(log, s.nextId) == None;
  }

  lemma KnownConnect(s: State, log: Log, l: ConnectLabel)
    requires ConnectEnabled(s, l) && Known(s, log)
    ensures Known(ConnectStep(s, l), log)
  {
  }

  lemma KnownLive(s: State, log: Log, l: LiveLabel)
    requires LiveEnabled(s, l) && Known(s, log)
    ensures Known(LiveStep(s, l), log)
  {
    if l.TakeLive? {
      assert CommandKnown(log, s.queue[0]);
      assert QueueKnown(log, s.queue[1..]);
    }
  }

  lemma KnownWait(s: State, log: Log, l: WaitLabel)
    requires WaitEnabled(s, l) && Known(s, log)
    ensures Known(WaitStep(s, l), log)
  {
    if l.TakeWaiting? {
      assert CommandKnown(log, s.queue[0]);
      assert QueueKnown(log, s.queue[1..]);
    }
  }

  predicate EmitSuits(log: Log, emit: Emit) {
    match emit
    case Silent => true
    case Emit1(e) => EventSuits(log, e)
    case Emit2(e1, e2) => EventSuits(log, e1) && EventSuits(log, e2)
    case Emit3(e1, e2, e3) => EventSuits(log, e1) && EventSuits(log, e2) && EventSuits(log, e3)
    case Each(ids, a) =>
      (a == ActorGone && AllIssued(log, ids)) || (a == ReconnectDone && AllOfKind(log, ids, KReconnect))
  }

  predicate AllIssued(log: Log, ids: seq<nat>) { forall i :: 0 <= i < |ids| ==> RequestOf(log, ids[i]).Some? }

  lemma SuitsConnect(s: State, log: Log, l: ConnectLabel)
    requires ConnectEnabled(s, l) && Known(s, log)
    ensures EmitSuits(log, ConnectEmits(s, l)) && NoIssue(ConnectEmits(s, l))
  {
    forall i | 0 <= i < |s.queue|
      ensures RequestOf(log, Ids(s.queue)[i]).Some?
    {
      assert CommandKnown(log, s.queue[i]);
    }
  }

  lemma SuitsLive(s: State, log: Log, l: LiveLabel)
    requires LiveEnabled(s, l) && Known(s, log)
    ensures EmitSuits(log, LiveEmits(s, l)) && NoIssue(LiveEmits(s, l))
  {
    if l.TakeLive? {
      assert CommandKnown(log, s.queue[0]);
    }
  }

  lemma SuitsWait(s: State, log: Log, l: WaitLabel)
    requires WaitEnabled(s, l) && Known(s, log)
    ensures EmitSuits(log, WaitEmits(s, l)) && NoIssue(WaitEmits(s, l))
  {
    if l.TakeWaiting? {
      assert CommandKnown(log, s.queue[0]);
    }
  }

  lemma SuitsMore(log: Log, log': Log, e: Event)
    requires SameRequests(log, log') && EventSuits(log, e)
    ensures EventSuits(log', e)
  {
  }

  lemma {:induction false} AllSuitEach(log: Log, ids: seq<nat>, a: Answer)
    requires AllSuit(log) && EmitSuits(log, Each(ids, a))
    ensures AllSuit(AnswerAll(log, ids, a))
  {
    if ids != [] {
      var front := ids[..|ids| - 1];
      AllSuitEach(log, front, a);
      RequestsAll(log, front, a, ids[|ids| - 1]);
    }
  }

  lemma AllSuitExtend(log: Log, emit: Emit)
    requires AllSuit(log) && EmitSuits(log, emit) && NoIssue(emit)
    ensures AllSuit(Extend(log, emit))
  {
    match emit
    case Silent =>
    case Emit1(_) =>
    case Emit2(e1, e2) => SuitsMore(log, Entry(log, e1), e2);
    case Emit3(e1, e2, e3) =>
      SuitsMore(log, Entry(log, e1), e2);
      SuitsMore(log, Entry(Entry(log, e1), e2), e3);
      assert AllSuit(Entry(Entry(log, e1), e2));
    case Each(ids, a) => AllSuitEach(log, ids, a);
  }

  lemma KnownExtend(s: State, log: Log, emit: Emit)
    requires Known(s, log) && AllSuit(log) && EmitSuits(log, emit) && NoIssue(emit)
    ensures Known(s, Extend(log, emit)) && AllSuit(Extend(log, emit))
  {
    forall id
      ensures RequestOf(Extend(log, emit), id) == RequestOf(log, id)
    {
      RequestsStay(log, emit, id);
    }
    KnownStays(s, log, Extend(log, emit));
    AllSuitExtend(log, emit);
  }

  lemma KnownOther(s: State, log: Log, l: Label)
    requires Enabled(s, l) && Known(s, log)
    requires l.Forward? || l.Caller? || (l.Env? && !l.env.Issue?)
    ensures Known(Step(s, l), log) && Emits(s, l) == Silent
  {
  }

  lemma KnownStep(s: State, log: Log, l: Label)
    requires Enabled(s, l) && Known(s, log) && AllSuit(log)
    ensures Known(Step(s, l), Extend(log, Emits(s, l))) && AllSuit(Extend(log, Emits(s, l)))
  {
    match l
    case Connect(c) =>
      KnownConnect(s, log, c);
      SuitsConnect(s, log, c);
      KnownExtend(ConnectStep(s, c), log, ConnectEmits(s, c));
    case Live(v) =>
      KnownLive(s, log, v);
      SuitsLive(s, log, v);
      KnownExtend(LiveStep(s, v), log, LiveEmits(s, v));
    case Wait(w) =>
      KnownWait(s, log, w);
      SuitsWait(s, log, w);
      KnownExtend(WaitStep(s, w), log, WaitEmits(s, w));
    case Env(e) =>
      if e.Issue? {
        KnownIssueStep(s, log, e.kind);
      } else {
        KnownOther(s, log, l);
      }
    case _ => KnownOther(s, log, l);
  }

  lemma KnownIssueStep(s: State, log: Log, k: Kind)
    requires EnvEnabled(s, Issue(k)) && Known(s, log) && AllSuit(log)
    ensures
      var log' := Extend(log, EnvEmits(s, Issue(k)));
      Known(EnvStep(s, Issue(k)), log') && AllSuit(log')
  {
    KnownIssue(s, log, k);
    var one := Entry(log, Issued(s.nextId, k, s.now));
    assert AllSuit(one);
    if s.actor.pc.Stopped? {
      KnownStays(EnvStep(s, Issue(k)), one, Entry(one, Answered(s.nextId, ActorGone)));
    }
  }

  lemma {:induction false} KnownRun(run: seq<Moment>, i: nat)
    requires Run(run) && i < |run|
    ensures Known(run[i].s, run[i].log) && AllSuit(run[i].log)
  {
    if i > 0 {
      KnownRun(run, i - 1);
      var l := StepOf(run, i - 1);
      KnownStep(run[i - 1].s, run[i - 1].log, l);
    } else {
      assert RequestOf(run[0].log.before, 0) == None;
    }
  }

  /** An event about a command that was issued stays true of it. */
  lemma {:induction false} SuitsLater(log: Log, e: Event)
    requires AllSuit(log) && Happened(log, e) && OnceIssued(log)
    ensures EventSuits(log, e)
  {
    if log.event != e {
      SuitsLater(log.before, e);
    }
  }

  /** No command is issued twice. */
  predicate OnceIssued(log: Log) {
    log.Entry? ==> OnceIssued(log.before) && (log.event.Issued? ==> RequestOf(log.before, log.event.id) == None)
  }

  lemma {:induction false} OnceIssuedAll(log: Log, ids: seq<nat>, a: Answer)
    requires OnceIssued(log)
    ensures OnceIssued(AnswerAll(log, ids, a))
  {
    if ids != [] {
      OnceIssuedAll(log, ids[..|ids| - 1], a);
    }
  }

  lemma OnceIssuedStep(s: State, log: Log, l: Label)
    requires Enabled(s, l) && Known(s, log) && OnceIssued(log)
    ensures OnceIssued(Extend(log, Emits(s, l)))
  {
    match Emits(s, l)
    case Silent =>
    case Emit1(_) =>
    case Emit2(e1, _) => assert OnceIssued(Entry(log, e1));
    case Emit3(e1, e2, _) => assert OnceIssued(Entry(Entry(log, e1), e2));
    case Each(ids, a) => OnceIssuedAll(log, ids, a);
  }

  lemma {:induction false} OnceIssuedRun(run: seq<Moment>, i: nat)
    requires Run(run) && i < |run|
    ensures OnceIssued(run[i].log)
  {
    if i > 0 {
      OnceIssuedRun(run, i - 1);
      KnownRun(run, i - 1);
      var l := StepOf(run, i - 1);
      OnceIssuedStep(run[i - 1].s, run[i - 1].log, l);
    } else {
      assert OnceIssued(run[0].log.before);
    }
  }

  /** Whatever happens to a command suits how it was issued: only frames are transmitted, with the time they were issued
      at, only frames are answered with a receipt, a transport error or as stale, only a close with its completion and
      only a reconnect with its own. */
  lemma AnswersSuit(run: seq<Moment>, i: nat, e: Event)
    requires Run(run) && i < |run| && Happened(run[i].log, e)
    ensures e.Transmitted? ==> RequestOf(run[i].log, e.id) == Some(Request(KSend, e.queuedAt))
    ensures e.Answered? && (e.answer.Receipt? || e.answer.TransportFailed? || e.answer.Stale?) ==>
      OfKind(run[i].log, e.id, KSend)
    ensures e.Answered? && e.answer.CloseDone? ==> OfKind(run[i].log, e.id, KClose)
    ensures e.Answered? && e.answer.ReconnectDone? ==> OfKind(run[i].log, e.id, KReconnect)
  {
    KnownRun(run, i);
    OnceIssuedRun(run, i);
    SuitsLater(run[i].log, e);
  }

  // ----- what an answer says about the connection

  /** What an answer given by a step says about the bus before and after. */
  predicate Tells(s: State, s': State, a: Answer) {
    match a
    case Receipt => s.net.live && s'.net == s.net
    case TransportFailed => s.net.live && !s'.net.live
    case Stale(_, _) => s'.net == s.net && s'.shared == s.shared
    case CloseDone => !s'.net.live && Ending(s'.actor.pc)
    case ReconnectDone => s'.shared.watch == s'.shared.atomic == if s'.net.live then Connected else Reconnecting
    case ActorGone => s'.actor.pc.Stopped? && s'.shared.watch == s'.shared.atomic == Closed
  }

  /** The actor is on its way to its end, or there. */
  predicate Ending(pc: ActorPc) {
    match pc
    case Aborting(o) => o == OutClosed || o == OutHandlesDropped
    case BumpDown(o) => o == OutClosed || o == OutHandlesDropped
    case _ => Closing(pc)
  }

  lemma TellsStep(s: State, l: Label, id: nat, a: Answer)
    requires Enabled(s, l) && OneWriter(s) && InEmit(Emits(s, l), Answered(id, a))
    ensures Tells(s, Step(s, l), a)
    ensures a.Stale? ==> a.age == AgeOf(s, id)
  {
    match l
    case Env(_) =>
    case Forward(_) =>
    case Caller(_) =>
    case Connect(_) =>
    case Live(_) =>
    case Wait(_) =>
  }

  /** How old the frame in question is now. */
  function AgeOf(s: State, id: nat): nat {
    if s.actor.pc.Holding? && s.actor.pc.id == id then Age(s.now, s.actor.pc.queuedAt)
    else if s.queue != [] && s.queue[0].Send? && s.queue[0].id == id then Age(s.now, s.queue[0].queuedAt)
    else 0
  }

  /** An answer tells the truth about the connection: with a receipt it is up as before, with a transport error it was
      up and is lost, with a close it is gone for good, with a reconnect the published state says whether it is up, and
      a frame called stale has touched nothing and is exactly as old as the answer says. */
  lemma AnswerTellsConnection(run: seq<Moment>, i: nat, id: nat, a: Answer)
    requires Run(run) && i + 1 < |run| && Adds(run, i, Answered(id, a))
    ensures Tells(run[i].s, run[i + 1].s, a)
    ensures a.Stale? ==> RequestOf(run[i].log, id).Some? && a.age == run[i].s.now - RequestOf(run[i].log, id).value.at
  {
    InvRun(run, i, id);
    KnownRun(run, i);
    var l := StepOf(run, i);
    NewInEmit(run[i].log, Emits(run[i].s, l), Answered(id, a));
    TellsStep(run[i].s, l, id, a);
    if a.Stale? {
      StaleHasRequest(run[i].s, l, run[i].log, id, a);
    }
  }

  lemma StaleHasRequest(s: State, l: Label, log: Log, id: nat, a: Answer)
    requires Enabled(s, l) && Known(s, log) && a.Stale?
    requires InEmit(Emits(s, l), Answered(id, a))
    ensures RequestOf(log, id).Some? && AgeOf(s, id) == s.now - RequestOf(log, id).value.at
  {
    if s.queue != [] {
      assert CommandKnown(log, s.queue[0]);
    }
  }
}
