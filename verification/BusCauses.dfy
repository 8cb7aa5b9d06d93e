/** Why the actor stops, when it attempts again, in which order frames go out,
    what the link losses count, and what waiters and the forwarder conclude. */
module BusCauses {
  import opened BusActor
  import opened BusInvariants
  import opened BusProperties
  import opened BusAnswers

  // ----- why the actor stops

  predicate CloseAnswered(log: Log) {
    log.Entry? && ((log.event.Answered? && log.event.answer.CloseDone?) || CloseAnswered(log.before))
  }

  /** Nobody can command the actor any more. */
  predicate Abandoned(s: State) { !s.handles && s.queue == [] }

  predicate EndsRightly(s: State, log: Log) {
    && (Ending(s.actor.pc) ==> CloseAnswered(log) || s.actor.fatal || Abandoned(s))
    && (CloseAnswered(log) || s.actor.fatal ==> Ending(s.actor.pc))
  }

  predicate Closes(emit: Emit) {
    match emit
    case Emit1(e) => e.Answered? && e.answer.CloseDone?
    case _ => false
  }

  lemma {:induction false} CloseAnsweredAll(log: Log, ids: seq<nat>, a: Answer)
    requires !a.CloseDone?
    ensures CloseAnswered(AnswerAll(log, ids, a)) == CloseAnswered(log)
  {
    if ids != [] {
      CloseAnsweredAll(log, ids[..|ids| - 1], a);
    }
  }

  /** The environment, the forwarder and the waiters leave the actor where it is, and answer no close. */
  lemma Bystanders(s: State, l: Label)
    requires Enabled(s, l) && (l.Env? || l.Forward? || l.Caller?)
    ensures Step(s, l).actor == s.actor && !Closes(Emits(s, l)) && Emits(s, l) != Emit1(Begun) && !Emits(s, l).Emit3?
    ensures Abandoned(s) ==> Abandoned(Step(s, l))
    ensures Emits(s, l).Emit2? ==> s.actor.pc.Stopped?
  {
  }

  lemma CloseAnsweredNext(s: State, l: Label, log: Log)
    requires Enabled(s, l)
    ensures CloseAnswered(Extend(log, Emits(s, l))) <==> CloseAnswered(log) || Closes(Emits(s, l))
  {
    match Emits(s, l)
    case Each(ids, a) => CloseAnsweredAll(log, ids, a);
    case Emit2(e1, _) => assert CloseAnswered(Entry(log, e1)) == CloseAnswered(log);
    case Emit3(e1, e2, _) => assert CloseAnswered(Entry(Entry(log, e1), e2)) == CloseAnswered(log);
    case _ =>
  }

  /** Nothing turns back, and the end begins only by a close, a first connect that failed for good,
      or with nobody left. */
  predicate EndsOn(s: State, s': State, emit: Emit) {
    && (Closes(emit) || (s'.actor.fatal && !s.actor.fatal) || Ending(s.actor.pc) ==> Ending(s'.actor.pc))
    && (s.actor.fatal ==> s'.actor.fatal)
    && (Abandoned(s) ==> Abandoned(s'))
    && (Ending(s'.actor.pc) && !Ending(s.actor.pc) ==> Closes(emit) || s'.actor.fatal || Abandoned(s'))
  }

  lemma EndsConnect(s: State, l: ConnectLabel)
    requires ConnectEnabled(s, l) && OneWriter(s)
    ensures EndsOn(s, ConnectStep(s, l), ConnectEmits(s, l))
  {
  }

  lemma EndsLive(s: State, l: LiveLabel)
    requires LiveEnabled(s, l)
    ensures EndsOn(s, LiveStep(s, l), LiveEmits(s, l))
  {
  }

  lemma EndsWait(s: State, l: WaitLabel)
    requires WaitEnabled(s, l)
    ensures EndsOn(s, WaitStep(s, l), WaitEmits(s, l))
  {
  }

  lemma EndsStep(s: State, l: Label)
    requires Enabled(s, l) && OneWriter(s)
    ensures EndsOn(s, Step(s, l), Emits(s, l))
  {
    match l
    case Connect(c) => EndsConnect(s, c);
    case Live(v) => EndsLive(s, v);
    case Wait(w) => EndsWait(s, w);
    case _ => Bystanders(s, l);
  }

  /** An actor that finds its handles gone ends, and counts no loss for it. */
  lemma HandlesGoneEnds(s: State, l: Label)
    requires Enabled(s, l) && (l == Live(HandlesGoneLive) || l == Wait(HandlesGoneWaiting))
    ensures Abandoned(s) && Ending(Step(s, l).actor.pc) && Uncounted(Step(s, l)) == Uncounted(s)
    ensures Step(s, l).shared == s.shared && (l.Live? ==> !Step(s, l).net.live)
  {
  }

  /** The actor is ending exactly when a close was carried out or a first connect failed for good, unless nobody is left
      to command it; and nothing keeps it from ending then. */
  lemma {:induction false} EndsForAReason(run: seq<Moment>, i: nat)
    requires Run(run) && i < |run|
    ensures EndsRightly(run[i].s, run[i].log)
  {
    if i > 0 {
      EndsForAReason(run, i - 1);
      var l := StepOf(run, i - 1);
      CloseAnsweredNext(run[i - 1].s, l, run[i - 1].log);
      InvRun(run, i - 1, 0);
      EndsStep(run[i - 1].s, l);
    } else {
      assert !CloseAnswered(run[0].log.before);
    }
  }

  // ----- when it attempts again

  /** Since the last attempt began a wait has run out, or a reconnect request was taken. */
  predicate Due(log: Log) {
    log.Entry? && !log.event.Begun? && (log.event.Elapsed? || log.event.Taken? || Due(log.before))
  }

  /** Every attempt but the first was due. */
  predicate AllDue(log: Log) {
    log.Entry? ==> AllDue(log.before) && (log.event.Begun? ==> log.before.NoEvents? || Due(log.before))
  }

  predicate OnItsWay(pc: ActorPc) {
    match pc
    case Disconnecting(_, again) => again
    case Aborting(o) => o.OutReconnect?
    case BumpDown(o) => o.OutReconnect?
    case Store(_, follow) => follow == ConnectNow
    case Announce(_, follow) => follow == ConnectNow
    case _ => false
  }

  lemma {:induction false} DueAll(log: Log, ids: seq<nat>, a: Answer)
    requires log.Entry?
    ensures AnswerAll(log, ids, a).Entry? && Due(AnswerAll(log, ids, a)) == Due(log)
    ensures AllDue(AnswerAll(log, ids, a)) == AllDue(log)
  {
    if ids != [] {
      DueAll(log, ids[..|ids| - 1], a);
    }
  }

  predicate DueKept(s: State, log: Log) { log.Entry? && AllDue(log) && (OnItsWay(s.actor.pc) ==> Due(log)) }

  lemma DueStep(s: State, l: Label, log: Log)
    requires Enabled(s, l) && DueKept(s, log)
    ensures DueKept(Step(s, l), Extend(log, Emits(s, l)))
  {
    match Emits(s, l)
    case Each(ids, a) => DueAll(log, ids, a); DuePc(s, l);
    case Emit3(e1, e2, _) => assert AllDue(Entry(Entry(log, e1), e2)) && Due(Entry(Entry(log, e1), e2)); DuePc(s, l);
    case Emit2(e1, _) => assert AllDue(Entry(log, e1)); DuePc(s, l);
    case _ => DuePc(s, l);
  }

  predicate StartsDue(emit: Emit) {
    match emit
    case Emit1(e) => e.Taken?
    case _ => false
  }

  /** The actor sets out for an attempt only by taking a request, and begins one only where that is due. */
  predicate DueMove(pc: ActorPc, pc': ActorPc, emit: Emit) {
    && (OnItsWay(pc') ==> OnItsWay(pc) || StartsDue(emit))
    && (emit == Emit1(Begun) ==> OnItsWay(pc) && !OnItsWay(pc'))
    && (emit.Emit2? || emit.Emit3? ==> !OnItsWay(pc'))
  }

  lemma DueConnect(s: State, l: ConnectLabel)
    requires ConnectEnabled(s, l)
    ensures DueMove(s.actor.pc, ConnectStep(s, l).actor.pc, ConnectEmits(s, l))
  {
  }

  lemma DueLive(s: State, l: LiveLabel)
    requires LiveEnabled(s, l)
    ensures DueMove(s.actor.pc, LiveStep(s, l).actor.pc, LiveEmits(s, l))
  {
  }

  lemma DueWait(s: State, l: WaitLabel)
    requires WaitEnabled(s, l)
    ensures DueMove(s.actor.pc, WaitStep(s, l).actor.pc, WaitEmits(s, l))
  {
  }

  lemma DuePc(s: State, l: Label)
    requires Enabled(s, l)
    ensures DueMove(s.actor.pc, Step(s, l).actor.pc, Emits(s, l))
  {
    match l
    case Env(_) => Bystanders(s, l);
    case Forward(_) => Bystanders(s, l);
    case Caller(_) => Bystanders(s, l);
    case Connect(c) => DueConnect(s, c);
    case Live(v) => DueLive(s, v);
    case Wait(w) => DueWait(s, w);
  }

  /** The actor attempts to connect only at its start, after a wait that ran out, or on a request taken since the
      attempt before. */
  lemma {:induction false} AttemptsAreDue(run: seq<Moment>, i: nat)
    requires Run(run) && i < |run|
    ensures DueKept(run[i].s, run[i].log)
  {
    if i > 0 {
      AttemptsAreDue(run, i - 1);
      var l := StepOf(run, i - 1);
      DueStep(run[i - 1].s, l, run[i - 1].log);
    } else {
      assert AllDue(run[0].log.before);
    }
  }

  lemma WaitEndsStep(s: State, l: Label)
    requires Enabled(s, l) && WaitingOut(s.actor.pc) && !WaitingOut(Step(s, l).actor.pc)
    ensures
      var s' := Step(s, l);
      || (s'.actor.pc.Attempting? && s.now >= Deadline(s.actor.pc) && s'.actor.waiting == s.actor.waiting)
      || (s'.actor.pc.Attempting? && |s'.actor.waiting| == |s.actor.waiting| + 1)
      || Ending(s'.actor.pc)
  {
  }

  /** A wait for the next attempt ends with an attempt once the backoff has passed since it began, with an attempt for
      one more reconnect caller, or with the end of the actor. */
  lemma WaitEnds(run: seq<Moment>, i: nat) returns (w: nat)
    requires Run(run) && i + 1 < |run| && WaitingOut(run[i].s.actor.pc) && !WaitingOut(run[i + 1].s.actor.pc)
    ensures WaitsSince(run, w, i)
    ensures
      var s, s' := run[i].s, run[i + 1].s;
      || (s'.actor.pc.Attempting? && s.now >= run[w].s.now + run[w].s.actor.backoff)
      || (s'.actor.pc.Attempting? && |s'.actor.waiting| == |s.actor.waiting| + 1)
      || Ending(s'.actor.pc)
  {
    w := WaitBegan(run, i);
    var l := StepOf(run, i);
    WaitEndsStep(run[i].s, l);
  }

  // ----- the order of the frames

  /** The frames handed to the transport so far have increasing numbers, all below n. */
  predicate SentBelow(log: Log, n: nat) {
    log.Entry? ==>
      if log.event.Transmitted? then log.event.id < n && SentBelow(log.before, log.event.id)
      else SentBelow(log.before, n)
  }

  lemma {:induction false} SentBelowMore(log: Log, m: nat, n: nat)
    requires SentBelow(log, m) && m <= n
    ensures SentBelow(log, n)
  {
    if log.Entry? && !log.event.Transmitted? {
      SentBelowMore(log.before, m, n);
    }
  }

  lemma {:induction false} SentBelowAll(log: Log, ids: seq<nat>, a: Answer, n: nat)
    requires SentBelow(log, n)
    ensures SentBelow(AnswerAll(log, ids, a), n)
  {
    if ids != [] {
      SentBelowAll(log, ids[..|ids| - 1], a, n);
    }
  }

  /** No frame goes out in this step. */
  predicate SendsNothing(emit: Emit) {
    match emit
    case Emit1(e) => !e.Transmitted?
    case Emit2(e1, e2) => !e1.Transmitted? && !e2.Transmitted?
    case Emit3(e1, e2, e3) => !e1.Transmitted? && !e2.Transmitted? && !e3.Transmitted?
    case _ => true
  }

  lemma SentBelowExtend(log: Log, emit: Emit, m: nat, n: nat)
    requires SentBelow(log, m) && m <= n && SendsNothing(emit)
    ensures SentBelow(Extend(log, emit), n)
  {
    SentBelowMore(log, m, n);
    match emit
    case Each(ids, a) => SentBelowAll(log, ids, a, n);
    case Emit2(e1, _) => assert SentBelow(Entry(log, e1), n);
    case Emit3(e1, e2, _) =>
      assert SentBelow(Entry(log, e1), n);
      assert SentBelow(Entry(Entry(log, e1), e2), n);
    case _ =>
  }

  function FrontOf(q: seq<Command>, n: nat): nat { if q == [] then n else q[0].id }

  function Front(s: State): nat { FrontOf(s.queue, s.nextId) }

  predicate Appended(q: seq<Command>, q': seq<Command>, id: nat) {
    |q'| == |q| + 1 && q'[..|q|] == q && q'[|q|].id == id
  }

  /** How a step changes the queue: one more command behind, or its first taken, or nothing, or all
      dropped at the end. */
  lemma QueueMoves(s: State, l: Label)
    requires Enabled(s, l)
    ensures
      var s' := Step(s, l);
      || (s'.nextId == s.nextId && (s'.queue == s.queue || s'.queue == []))
      || (s'.nextId == s.nextId && s.queue != [] && s'.queue == s.queue[1..])
      || (s'.nextId == s.nextId + 1 && (s'.queue == s.queue || Appended(s.queue, s'.queue, s.nextId)))
  {
    match l
    case Env(_) =>
    case Forward(_) =>
    case Caller(_) =>
    case Connect(_) =>
    case Live(_) =>
    case Wait(_) =>
  }

  /** A frame that goes out is the first of the queue. */
  lemma SendsFirst(s: State, l: Label)
    requires Enabled(s, l)
    ensures SendsNothing(Emits(s, l)) ||
      (s.queue != [] && Emits(s, l).Emit1? && Emits(s, l).e.id == s.queue[0].id && Step(s, l).queue == s.queue[1..]
       && Step(s, l).nextId == s.nextId)
  {
    match l
    case Env(_) =>
    case Forward(_) =>
    case Caller(_) =>
    case Connect(_) =>
    case Live(_) =>
    case Wait(_) =>
  }

  predicate Ordered(q: seq<Command>, n: nat) {
    (forall i, j :: 0 <= i < j < |q| ==> q[i].id < q[j].id) && (forall i :: 0 <= i < |q| ==> q[i].id < n)
  }

  lemma QueueStep(s: State, l: Label)
    requires Enabled(s, l) && Ordered(s.queue, s.nextId)
    ensures Ordered(Step(s, l).queue, Step(s, l).nextId) && Front(s) <= Front(Step(s, l))
    ensures SendsNothing(Emits(s, l)) || s.queue[0].id < Front(Step(s, l))
  {
    QueueMoves(s, l);
    SendsFirst(s, l);
    OrderedMoves(s.queue, s.nextId, Step(s, l).queue, Step(s, l).nextId);
  }

  lemma OrderedMoves(q: seq<Command>, n: nat, q': seq<Command>, n': nat)
    requires Ordered(q, n)
    requires || (n' == n && (q' == q || q' == []))
             || (n' == n && q != [] && q' == q[1..])
             || (n' == n + 1 && (q' == q || Appended(q, q', n)))
    ensures Ordered(q', n')
    ensures FrontOf(q, n) <= FrontOf(q', n')
    ensures q != [] && q' == q[1..] ==> q[0].id < FrontOf(q', n')
  {
    if Appended(q, q', n) {
      assert forall i :: 0 <= i < |q| ==> q'[i] == q'[..|q|][i];
    }
  }

  /** Frames go out in the order in which they were issued. */
  lemma {:induction false} FramesInOrder(run: seq<Moment>, i: nat)
    requires Run(run) && i < |run|
    ensures Ordered(run[i].s.queue, run[i].s.nextId) && SentBelow(run[i].log, Front(run[i].s))
  {
    if i > 0 {
      FramesInOrder(run, i - 1);
      var l := StepOf(run, i - 1);
      var s, log := run[i - 1].s, run[i - 1].log;
      QueueStep(s, l);
      SendsFirst(s, l);
      if SendsNothing(Emits(s, l)) {
        SentBelowExtend(log, Emits(s, l), Front(s), Front(run[i].s));
      }
    } else {
      assert SentBelow(run[0].log.before, 0);
    }
  }

  // ----- what the link losses count

  /** From moment k on the connection is lost by an error. */
  predicate DropsAt(run: seq<Moment>, k: nat)
    requires k + 1 < |run|
  {
    run[k].s.net.live && !run[k + 1].s.net.live && run[k + 1].s.actor.pc == Aborting(OutDropped)
  }

  /** From moment k on the forwarder has seen the tunnel's link down. */
  predicate SeesLossAt(run: seq<Moment>, k: nat)
    requires k + 1 < |run|
  {
    run[k].s.fw.FwIdle? && run[k + 1].s.fw.FwBump? && !run[k].s.net.linkUp
  }

  function LossesBefore(run: seq<Moment>, i: nat): nat
    requires i < |run|
  {
    if i == 0 then 0
    else LossesBefore(run, i - 1) + One(DropsAt(run, i - 1)) + One(SeesLossAt(run, i - 1))
  }

  /** Losses seen and not yet counted. */
  function Uncounted(s: State): nat {
    One(s.actor.pc == Aborting(OutDropped) || s.actor.pc == BumpDown(OutDropped)) + One(s.fw.FwBump? && !s.fw.up)
  }

  /** The step sees a loss that is not counted before. */
  function NewLosses(s: State, s': State): nat {
    One(s.net.live && !s'.net.live && s'.actor.pc == Aborting(OutDropped))
    + One(s.fw.FwIdle? && s'.fw.FwBump? && !s.net.linkUp)
  }

  predicate Accounts(s: State, s': State) {
    s'.shared.linkLosses + Uncounted(s') == s.shared.linkLosses + Uncounted(s) + NewLosses(s, s')
  }

  lemma LossForward(s: State, l: FwLabel)
    requires FwEnabled(s, l)
    ensures Accounts(s, FwStep(s, l))
  {
  }

  lemma LossLive(s: State, l: LiveLabel)
    requires LiveEnabled(s, l) && OneWriter(s)
    ensures Accounts(s, LiveStep(s, l))
  {
  }

  lemma LossOther(s: State, l: Label)
    requires Enabled(s, l) && !l.Forward? && !l.Live? && OneWriter(s)
    ensures Accounts(s, Step(s, l))
  {
    match l
    case Env(_) =>
    case Caller(_) =>
    case Connect(_) =>
    case Wait(_) =>
  }

  lemma LossStep(s: State, l: Label)
    requires Enabled(s, l) && OneWriter(s)
    ensures Accounts(s, Step(s, l))
  {
    match l
    case Forward(f) => LossForward(s, f);
    case Live(v) => LossLive(s, v);
    case _ => LossOther(s, l);
  }

  /** The published number counts each loss once: every connection lost by an error, and every loss of the tunnel's own
      link that the forwarder has seen. */
  lemma {:induction false} LinkLossesCount(run: seq<Moment>, i: nat)
    requires Run(run) && i < |run|
    ensures run[i].s.shared.linkLosses + Uncounted(run[i].s) == LossesBefore(run, i)
  {
    if i > 0 {
      LinkLossesCount(run, i - 1);
      InvRun(run, i - 1, 0);
      var l := StepOf(run, i - 1);
      LossStep(run[i - 1].s, l);
    }
  }

  // ----- what waiters and the forwarder conclude

  lemma WaiterConcludesStep(s: State, l: Label, w: nat)
    requires Enabled(s, l) && w in s.waiters && w in Step(s, l).waiters && s.waiters[w] != Step(s, l).waiters[w]
    ensures
      match Step(s, l).waiters[w]
      case Finished(true) => s.shared.atomic == Connected
      case Finished(false) => s.shared.atomic == Closed || s.waiters[w].Blocked?
      case Blocked(_) => !Decisive(s.shared.atomic)
      case _ => true
  {
    match l
    case Caller(_) =>
    case Env(_) =>
    case Forward(_) =>
    case Connect(_) =>
    case Live(_) =>
    case Wait(_) =>
  }

  /** A waiter that ends with success saw Connected; one that ends without saw Closed or ran out of time; and one that
      goes to sleep saw neither. */
  lemma WaiterConcludes(run: seq<Moment>, i: nat, w: nat)
    requires Run(run) && i + 1 < |run| && w in run[i].s.waiters && w in run[i + 1].s.waiters
    requires run[i].s.waiters[w] != run[i + 1].s.waiters[w]
    ensures
      match run[i + 1].s.waiters[w]
      case Finished(true) => run[i].s.shared.atomic == Connected
      case Finished(false) => run[i].s.shared.atomic == Closed || run[i].s.waiters[w].Blocked?
      case Blocked(_) => !Decisive(run[i].s.shared.atomic)
      case _ => true
  {
    var l := StepOf(run, i);
    WaiterConcludesStep(run[i].s, l, w);
  }

  /** The forwarder's copy of the link is right as long as the link has not moved on. */
  predicate CopyRight(s: State) {
    match s.fw
    case FwBump(seen, up) => seen <= s.net.linkVersion && (seen == s.net.linkVersion ==> up == s.net.linkUp)
    case FwStore(seen, up) => seen <= s.net.linkVersion && (seen == s.net.linkVersion ==> up == s.net.linkUp)
    case FwAnnounce(seen, up) => seen <= s.net.linkVersion && (seen == s.net.linkVersion ==> up == s.net.linkUp)
    case _ => true
  }

  lemma CopyStep(s: State, l: Label)
    requires Enabled(s, l) && OneWriter(s) && CopyRight(s)
    ensures CopyRight(Step(s, l))
    ensures
      var s' := Step(s, l);
      s.fw.FwAnnounce? && s'.fw == FwIdle(s'.net.linkVersion) ==>
        s'.shared.atomic == s'.shared.watch == if s'.net.linkUp then Connected else Reconnecting
  {
    match l
    case Env(_) =>
    case Forward(_) =>
    case Caller(_) =>
    case Connect(_) =>
    case Live(_) =>
    case Wait(_) =>
  }

  lemma {:induction false} CopyRun(run: seq<Moment>, i: nat)
    requires Run(run) && i < |run|
    ensures CopyRight(run[i].s)
  {
    if i > 0 {
      CopyRun(run, i - 1);
      InvRun(run, i - 1, 0);
      var l := StepOf(run, i - 1);
      CopyStep(run[i - 1].s, l);
    }
  }

  /** When the forwarder has published a change and no other came meanwhile, the published state is the link's. */
  lemma ForwarderMirrors(run: seq<Moment>, i: nat)
    requires Run(run) && i + 1 < |run|
    requires run[i].s.fw.FwAnnounce? && run[i + 1].s.fw == FwIdle(run[i + 1].s.net.linkVersion)
    ensures
      var s := run[i + 1].s;
      s.shared.atomic == s.shared.watch == if s.net.linkUp then Connected else Reconnecting
  {
    CopyRun(run, i);
    InvRun(run, i, 0);
    var l := StepOf(run, i);
    CopyStep(run[i].s, l);
  }

  /** A forwarder that ends has seen every change of a link that is over, and does nothing more. */
  lemma ForwarderEnds(s: State, f: FwLabel)
    requires FwEnabled(s, FwEnd)
    ensures s.fw.seen == s.net.linkVersion && !(s.net.live && s.net.mirrored)
    ensures !FwEnabled(FwStep(s, FwEnd), f)
  {
  }

  /** A tunnel whose task has ended reports no change, until there is a new connection. */
  predicate LinkOver(s: State) { !s.net.mirrored }

  lemma LinkEnds(s: State, l: Label)
    requires Enabled(s, l)
    ensures l == Env(LinkEnd) ==> LinkOver(Step(s, l))
    ensures l.Env? && (l.env.LinkChange? || l.env.LinkEnd?) ==> s.net.live && !LinkOver(s)
    ensures LinkOver(s) && !(l.Connect? && l.connect.ConnectOk?) ==> LinkOver(Step(s, l))
  {
  }

  // ----- what the watch shows, and whom it wakes

  /** The state is Connecting until something is published, and never again. */
  predicate ConnectingFirst(s: State) {
    && (s.shared.watch == Connecting <==> s.shared.version == 0)
    && (s.shared.atomic == Connecting ==> s.shared.version == 0)
  }

  lemma ConnectingStep(s: State, l: Label)
    requires Enabled(s, l) && OneWriter(s) && ConnectingFirst(s)
    ensures ConnectingFirst(Step(s, l)) && Step(s, l).shared.version >= s.shared.version
  {
    match l
    case Env(_) =>
    case Forward(_) =>
    case Caller(_) =>
    case Connect(_) =>
    case Live(_) =>
    case Wait(_) =>
  }

  lemma {:induction false} ConnectingUntilPublished(run: seq<Moment>, i: nat)
    requires Run(run) && i < |run|
    ensures ConnectingFirst(run[i].s)
  {
    if i > 0 {
      ConnectingUntilPublished(run, i - 1);
      InvRun(run, i - 1, 0);
      var l := StepOf(run, i - 1);
      ConnectingStep(run[i - 1].s, l);
    }
  }

  /** The waiter goes on. */
  predicate Awake(pc: WaiterPc) { !pc.Blocked? && !pc.Finished? }

  /** The waiter is woken by the next step. */
  predicate WokenAt(run: seq<Moment>, i: nat, w: nat) {
    i + 1 < |run| && w in run[i].s.waiters && run[i].s.waiters[w].Blocked? && w in run[i + 1].s.waiters
    && Awake(run[i + 1].s.waiters[w])
  }

  /** What the waiter waits past is no older than the version. */
  predicate WaitsPast(s: State, w: nat, version: nat) {
    w in s.waiters && version <= s.shared.version &&
    match s.waiters[w]
    case Checking(seen) => seen >= version
    case Blocked(seen) => seen >= version
    case _ => true
  }

  lemma WaitsPastStep(s: State, l: Label, w: nat, version: nat)
    requires Enabled(s, l) && OneWriter(s) && ConnectingFirst(s) && WaitsPast(s, w, version)
    ensures WaitsPast(Step(s, l), w, version)
  {
    ConnectingStep(s, l);
    if !l.Caller? {
      OthersLeaveWaiters(s, l);
    }
  }

  lemma ConnectingAlong(run: seq<Moment>, i: nat) returns (l: Label)
    requires Run(run) && i + 1 < |run|
    ensures Enabled(run[i].s, l) && run[i + 1].s == Step(run[i].s, l)
    ensures OneWriter(run[i].s) && ConnectingFirst(run[i].s)
    ensures run[i + 1].s.shared.version >= run[i].s.shared.version
  {
    ConnectingUntilPublished(run, i);
    InvRun(run, i, 0);
    l := StepOf(run, i);
    ConnectingStep(run[i].s, l);
  }

  lemma {:induction false} WaitsPastRun(run: seq<Moment>, i: nat, k: nat, w: nat)
    requires Run(run) && WokenAt(run, i, w) && i < k < |run|
    ensures WaitsPast(run[k].s, w, run[i].s.shared.version)
    decreases k
  {
    var l := ConnectingAlong(run, k - 1);
    if k == i + 1 {
      WokenByNews(run[i].s, l, w);
    } else {
      WaitsPastRun(run, i, k - 1, w);
      WaitsPastStep(run[k - 1].s, l, w, run[i].s.shared.version);
    }
  }

  /** A woken waiter is woken again only by something published since. */
  lemma WakesNeedNews(run: seq<Moment>, i: nat, k: nat, w: nat)
    requires Run(run) && WokenAt(run, i, w) && WokenAt(run, k, w) && i < k
    ensures run[k].s.shared.version > run[i].s.shared.version
  {
    WaitsPastRun(run, i, k, w);
    InvRun(run, k, 0);
    assert WaiterSound(run[k].s.waiters[w], run[k].s);
    var l := ConnectingAlong(run, k);
    WokenByNews(run[k].s, l, w);
  }

  lemma WokenByNews(s: State, l: Label, w: nat)
    requires Enabled(s, l) && w in s.waiters && s.waiters[w].Blocked? && w in Step(s, l).waiters
    requires Awake(Step(s, l).waiters[w])
    ensures s.waiters[w].seen != s.shared.version && Step(s, l).waiters[w] == Marking
  {
    if !l.Caller? {
      OthersLeaveWaiters(s, l);
    }
  }

  lemma OthersLeaveWaiters(s: State, l: Label)
    requires Enabled(s, l) && !l.Caller?
    ensures Step(s, l).waiters == s.waiters
  {
    match l
    case Env(_) =>
    case Forward(_) =>
    case Connect(_) =>
    case Live(_) =>
    case Wait(_) =>
  }
}
