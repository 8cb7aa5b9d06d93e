/** What the bus promises its callers, over every run. */
module BusProperties {
  import opened BusActor
  import opened BusInvariants

  // ----- the connection generation

  /** No writer is about to publish Connected without a further bump. */
  predicate Unarmed(s: State) {
    && !(s.actor.pc.Store? && s.actor.pc.state == Connected)
    && !(s.fw.FwStore? && s.fw.up)
  }

  /** Within one generation the published state leaves Connected at most once,
      and does not come back. */
  predicate WithinGeneration(s: State, s': State) {
    && s.shared.generation <= s'.shared.generation
    && (s.shared.generation == s'.shared.generation ==>
          && (s.shared.atomic == Connected && s'.shared.atomic != Connected ==> Unarmed(s'))
          && (s.shared.atomic != Connected && Unarmed(s) ==> s'.shared.atomic != Connected && Unarmed(s')))
  }

  lemma GenerationStep(s: State, l: Label)
    requires Enabled(s, l) && OneWriter(s)
    ensures WithinGeneration(s, Step(s, l))
  {
    match l
    case Env(_) =>
    case Forward(_) =>
    case Caller(_) =>
    case Connect(_) =>
    case Live(_) =>
    case Wait(_) =>
  }

  lemma GenerationNext(run: seq<Moment>, i: nat)
    requires Run(run) && i + 1 < |run|
    ensures WithinGeneration(run[i].s, run[i + 1].s)
  {
    InvRun(run, i, 0);
    assert Linked(run, i);
    var m := run[i];
    var l: Label :| Enabled(m.s, l) && run[i + 1] == Moment(Step(m.s, l), Extend(m.log, Emits(m.s, l)));
    GenerationStep(m.s, l);
  }

  /** From a Connected reading at i on: the generation has moved, or the state
      was Connected throughout, or it is gone and no writer brings it back. */
  predicate Bracket(run: seq<Moment>, i: nat, k: nat)
    requires i <= k < |run|
  {
    || run[k].s.shared.generation > run[i].s.shared.generation
    || (forall x :: i <= x <= k ==>
          run[x].s.shared.atomic == Connected && run[x].s.shared.generation == run[i].s.shared.generation)
    || (run[k].s.shared.atomic != Connected && Unarmed(run[k].s))
  }

  lemma {:induction false} BracketRun(run: seq<Moment>, i: nat, k: nat)
    requires Run(run) && i <= k < |run| && run[i].s.shared.atomic == Connected
    ensures run[k].s.shared.generation >= run[i].s.shared.generation
    ensures Bracket(run, i, k)
  {
    if i < k {
      BracketRun(run, i, k - 1);
      GenerationNext(run, k - 1);
    }
  }

  /** Two Connected readings with the same generation bracket a stretch in which
      the published state was Connected and nothing bumped the generation. */
  lemma EqualGenerationsBracket(run: seq<Moment>, i: nat, j: nat)
    requires Run(run) && i <= j < |run|
    requires run[i].s.shared.atomic == Connected && run[j].s.shared.atomic == Connected
    requires run[i].s.shared.generation == run[j].s.shared.generation
    ensures forall x :: i <= x <= j ==>
      run[x].s.shared.atomic == Connected && run[x].s.shared.generation == run[i].s.shared.generation
  {
    BracketRun(run, i, j);
  }

  lemma {:induction false} GenerationGrows(run: seq<Moment>, i: nat, j: nat)
    requires Run(run) && i <= j < |run|
    ensures run[i].s.shared.generation <= run[j].s.shared.generation
  {
    if i < j {
      GenerationGrows(run, i, j - 1);
      GenerationNext(run, j - 1);
    }
  }

  /** A reading is two loads.  The bracket holds when the first reading loads
      the generation before the state and the second one after it. */
  lemma SplitReadingsBracket(run: seq<Moment>, g1: nat, s1: nat, s2: nat, g2: nat)
    requires Run(run) && g1 <= s1 <= s2 <= g2 < |run|
    requires run[s1].s.shared.atomic == Connected && run[s2].s.shared.atomic == Connected
    requires run[g1].s.shared.generation == run[g2].s.shared.generation
    ensures forall x :: s1 <= x <= s2 ==>
      run[x].s.shared.atomic == Connected && run[x].s.shared.generation == run[g1].s.shared.generation
  {
    GenerationGrows(run, g1, s1);
    GenerationGrows(run, s1, s2);
    GenerationGrows(run, s2, g2);
    EqualGenerationsBracket(run, s1, s2);
  }

  /** The connection is up, and every change of its link has been seen: the forwarder has caught up with the tunnel, or
      the tunnel reports no link changes (any more). */
  predicate Observed(s: State) {
    s.net.live && (s.fw == FwIdle(s.net.linkVersion) || (s.fw.FwOff? && !s.net.mirrored))
  }

  /** The connection was up throughout, and its link did not change. */
  predicate Unbroken(run: seq<Moment>, i: nat, j: nat)
    requires i <= j < |run|
  {
    forall x :: i <= x <= j ==> run[x].s.net.live && run[x].s.net.linkVersion == run[i].s.net.linkVersion
  }

  /** The connection is gone, and the actor's own bump is still to come. */
  predicate LossUnderWay(pc: ActorPc) { pc.Aborting? || pc.BumpDown? }

  /** What can become of an observed connection whose link is at version v, while nothing bumps the generation: it is
      still observed, or a loss or a link change is on its way to its bump. */
  predicate Since(s: State, v: nat) {
    && v <= s.net.linkVersion
    && (!s.net.live ==> LossUnderWay(s.actor.pc))
    && (s.net.live ==>
          || s.fw == FwIdle(v)
          || (s.fw.FwBump? && v < s.net.linkVersion)
          || (s.fw.FwOff? && !s.net.mirrored && s.net.linkVersion == v))
  }

  predicate KeepsSince(s: State, s': State, v: nat) {
    s'.shared.generation == s.shared.generation ==> Since(s', v)
  }

  lemma SinceStep(s: State, l: Label, v: nat)
    requires Enabled(s, l) && OneWriter(s) && Since(s, v)
    ensures KeepsSince(s, Step(s, l), v)
  {
    match l
    case Env(_) =>
    case Forward(_) =>
    case Caller(_) =>
    case Connect(_) =>
    case Live(_) =>
    case Wait(_) =>
  }

  lemma SinceNext(run: seq<Moment>, i: nat, v: nat)
    requires Run(run) && i + 1 < |run| && Since(run[i].s, v)
    ensures KeepsSince(run[i].s, run[i + 1].s, v)
  {
    InvRun(run, i, 0);
    assert Linked(run, i);
    var m := run[i];
    var l: Label :| Enabled(m.s, l) && run[i + 1] == Moment(Step(m.s, l), Extend(m.log, Emits(m.s, l)));
    SinceStep(m.s, l, v);
  }

  /** After an observed reading, while the generation stays, the connection is observed or its loss is on the way. */
  lemma {:induction false} SinceObserved(run: seq<Moment>, i: nat, j: nat)
    requires Run(run) && i <= j < |run| && Observed(run[i].s)
    requires run[i].s.shared.generation == run[j].s.shared.generation
    ensures Since(run[j].s, run[i].s.net.linkVersion)
  {
    if i < j {
      GenerationGrows(run, i, j - 1);
      GenerationGrows(run, j - 1, j);
      SinceObserved(run, i, j - 1);
      SinceNext(run, j - 1, run[i].s.net.linkVersion);
    }
  }

  /** The exact bracket about the tunnel itself: between an observed reading and a later one with the same generation
      the connection is unbroken exactly when the later reading is observed too. */
  lemma {:induction false} ObservedBracket(run: seq<Moment>, i: nat, j: nat)
    requires Run(run) && i <= j < |run| && Observed(run[i].s)
    requires run[i].s.shared.generation == run[j].s.shared.generation
    ensures Unbroken(run, i, j) <==> Observed(run[j].s)
  {
    SinceObserved(run, i, j);
    EndsDecide(run, i, j);
  }

  /** The link version never falls, and a connection comes up only with a new one. */
  predicate LinkMoves(s: State, s': State) {
    s.net.linkVersion <= s'.net.linkVersion && (s'.net.live && !s.net.live ==> s.net.linkVersion < s'.net.linkVersion)
  }

  lemma LinkStep(s: State, l: Label)
    requires Enabled(s, l)
    ensures LinkMoves(s, Step(s, l))
  {
    match l
    case Env(_) =>
    case Forward(_) =>
    case Caller(_) =>
    case Connect(_) =>
    case Live(_) =>
    case Wait(_) =>
  }

  lemma LinkNext(run: seq<Moment>, i: nat)
    requires Run(run) && i + 1 < |run|
    ensures LinkMoves(run[i].s, run[i + 1].s)
  {
    assert Linked(run, i);
    var m := run[i];
    var l: Label :| Enabled(m.s, l) && run[i + 1] == Moment(Step(m.s, l), Extend(m.log, Emits(m.s, l)));
    LinkStep(m.s, l);
  }

  lemma {:induction false} LinkGrows(run: seq<Moment>, i: nat, j: nat)
    requires Run(run) && i <= j < |run|
    ensures LinkMoves(run[i].s, run[j].s)
  {
    if i < j {
      LinkGrows(run, i, j - 1);
      LinkNext(run, j - 1);
    }
  }

  /** The link version names the connection: it is unbroken between any two moments exactly when it is up at the later
      one and its link has the version of the earlier one. */
  lemma EndsDecide(run: seq<Moment>, i: nat, j: nat)
    requires Run(run) && i <= j < |run|
    ensures Unbroken(run, i, j) <==> run[j].s.net.live && run[i].s.net.linkVersion == run[j].s.net.linkVersion
  {
    if run[j].s.net.live && run[i].s.net.linkVersion == run[j].s.net.linkVersion {
      forall x | i <= x <= j
        ensures run[x].s.net.live && run[x].s.net.linkVersion == run[i].s.net.linkVersion
      {
        LinkGrows(run, i, x);
        LinkGrows(run, x, j);
      }
    }
  }

  /** Every loss moves the generation once it is through: after an observed reading a broken connection shows in the
      generation, unless the actor or the forwarder has its bump still before it. */
  lemma LossMovesGeneration(run: seq<Moment>, i: nat, j: nat)
    requires Run(run) && i <= j < |run| && Observed(run[i].s) && !Unbroken(run, i, j)
    ensures || run[j].s.shared.generation > run[i].s.shared.generation
            || LossUnderWay(run[j].s.actor.pc)
            || run[j].s.fw.FwBump?
            || (run[j].s.fw.FwIdle? && run[j].s.fw.seen != run[j].s.net.linkVersion)
  {
    GenerationGrows(run, i, j);
    if run[j].s.shared.generation == run[i].s.shared.generation {
      SinceObserved(run, i, j);
      ObservedBracket(run, i, j);
    }
  }

  // ----- waiting for a connection

  /** No lost wake-up: a blocked waiter has an unseen version whenever the state
      it waits for is there, or a writer is between its two writes and the
      watch write that ends this brings one. */
  lemma NoLostWakeup(run: seq<Moment>, i: nat, w: nat)
    requires Run(run) && i < |run|
    requires w in run[i].s.waiters && run[i].s.waiters[w].Blocked? && Decisive(run[i].s.shared.atomic)
    ensures WaiterEnabled(run[i].s, WaiterWake(w)) || MidPublish(run[i].s)
    ensures run[i].s.actor.pc.Announce? ==> WaiterEnabled(ConnectStep(run[i].s, AnnounceStep), WaiterWake(w))
    ensures run[i].s.fw.FwAnnounce? ==> WaiterEnabled(FwStep(run[i].s, FwAnnounceStep), WaiterWake(w))
  {
    InvRun(run, i, 0);
    assert WaiterSound(run[i].s.waiters[w], run[i].s);
  }

  /** The watch and the atomic agree outside a publication. */
  lemma WatchAgrees(run: seq<Moment>, i: nat)
    requires Run(run) && i < |run| && !MidPublish(run[i].s)
    ensures run[i].s.shared.watch == run[i].s.shared.atomic
  {
    InvRun(run, i, 0);
  }

  // ----- commands

  predicate Happened(log: Log, e: Event) {
    log.Entry? && (log.event == e || Happened(log.before, e))
  }

  function TimesAnswered(log: Log, id: nat): nat { DigestOf(log, id).answers }

  function TimesTransmitted(log: Log, id: nat): nat { DigestOf(log, id).transmissions }

  lemma {:induction false} HappenedCounts(log: Log, e: Event, id: nat)
    requires Happened(log, e)
    ensures e.Answered? && e.id == id ==> DigestOf(log, id).answers >= 1
    ensures e.Transmitted? && e.id == id ==> DigestOf(log, id).transmissions >= 1
    ensures e.Answered? && e.id == id && Delivered(e.answer) ==> DigestOf(log, id).deliveries >= 1
    ensures e.Answered? && e.id == id && !Delivered(e.answer) ==>
      DigestOf(log, id).answers > DigestOf(log, id).deliveries
    ensures DigestOf(log, id).timely ==> Timely(e)
  {
    AnswersCover(log.before, id);
    if log.event != e {
      HappenedCounts(log.before, e, id);
    }
  }

  lemma {:induction false} AnswersCover(log: Log, id: nat)
    ensures DigestOf(log, id).deliveries <= DigestOf(log, id).answers
  {
    if log.Entry? {
      AnswersCover(log.before, id);
    }
  }

  /** A frame reaches the transport at most once, on a live connection and
      younger than the cutoff; every command is answered at most once, and
      exactly once by the time the actor is gone. */
  lemma SendSafety(run: seq<Moment>, i: nat, id: nat)
    requires Run(run) && i < |run|
    ensures TimesTransmitted(run[i].log, id) <= 1 && TimesAnswered(run[i].log, id) <= 1
    ensures run[i].s.actor.pc.Stopped? && id < run[i].s.nextId ==> TimesAnswered(run[i].log, id) == 1
    ensures forall queuedAt: nat, at: nat, live: bool :: Happened(run[i].log, Transmitted(id, queuedAt, at, live)) ==>
      live && queuedAt <= at < queuedAt + STALE_CUTOFF
  {
    InvRun(run, i, id);
    AnswersCover(run[i].log, id);
    forall queuedAt: nat, at: nat, live: bool | Happened(run[i].log, Transmitted(id, queuedAt, at, live))
      ensures live && queuedAt <= at < queuedAt + STALE_CUTOFF
    {
      HappenedCounts(run[i].log, Transmitted(id, queuedAt, at, live), id);
    }
  }

  /** What the answer says about the bus: a receipt or a transport error means
      the frame went out once, any other answer that it never did. */
  lemma AnswerTellsTransmission(run: seq<Moment>, i: nat, id: nat, a: Answer)
    requires Run(run) && i < |run| && Happened(run[i].log, Answered(id, a))
    ensures TimesTransmitted(run[i].log, id) == if a.Receipt? || a.TransportFailed? then 1 else 0
    ensures a.Stale? ==> a.atDeadline || a.age >= STALE_CUTOFF
  {
    InvRun(run, i, id);
    AnswersCover(run[i].log, id);
    HappenedCounts(run[i].log, Answered(id, a), id);
  }

  predicate WaitingOut(pc: ActorPc) { pc.Backoff? || pc.Holding? }

  function Deadline(pc: ActorPc): nat
    requires WaitingOut(pc)
  {
    pc.deadline
  }

  /** The wait for the next attempt that moment i is in began at moment w. */
  ghost predicate WaitsSince(run: seq<Moment>, w: nat, i: nat) {
    && 0 < w <= i < |run| && run[w - 1].s.actor.pc.Announce?
    && forall x :: w <= x <= i ==> WaitingOut(run[x].s.actor.pc)
  }

  /** A wait begins with the backoff of that moment, and keeps deadline and backoff. */
  predicate KeepsWait(s: State, s': State) {
    WaitingOut(s'.actor.pc) ==>
      && s'.actor.backoff == s.actor.backoff
      && (WaitingOut(s.actor.pc) ==> Deadline(s'.actor.pc) == Deadline(s.actor.pc))
      && (!WaitingOut(s.actor.pc) ==> s.actor.pc.Announce? && Deadline(s'.actor.pc) == s'.now + s'.actor.backoff)
  }

  /** A frame is held only when it is fresh. */
  predicate HoldsFresh(s: State, s': State) {
    s'.actor.pc.Holding? && !s.actor.pc.Holding? ==> s'.now < s'.actor.pc.queuedAt + STALE_CUTOFF
  }

  lemma ConnectKeepsWait(s: State, l: ConnectLabel)
    requires ConnectEnabled(s, l)
    ensures KeepsWait(s, ConnectStep(s, l))
  {
  }

  lemma LiveKeepsWait(s: State, l: LiveLabel)
    requires LiveEnabled(s, l)
    ensures KeepsWait(s, LiveStep(s, l))
  {
  }

  lemma WaitKeepsWait(s: State, l: WaitLabel)
    requires WaitEnabled(s, l)
    ensures KeepsWait(s, WaitStep(s, l))
  {
  }

  lemma WaitStepKeeps(s: State, l: Label)
    requires Enabled(s, l)
    ensures KeepsWait(s, Step(s, l))
  {
    match l
    case Connect(c) => ConnectKeepsWait(s, c);
    case Live(v) => LiveKeepsWait(s, v);
    case Wait(w) => WaitKeepsWait(s, w);
    case _ => assert Step(s, l).actor == s.actor;
  }

  lemma HoldStep(s: State, l: Label)
    requires Enabled(s, l)
    ensures HoldsFresh(s, Step(s, l))
  {
    match l
    case Env(_) =>
    case Forward(_) =>
    case Caller(_) =>
    case Connect(_) =>
    case Live(_) =>
    case Wait(_) =>
  }

  lemma WaitNext(run: seq<Moment>, i: nat)
    requires Run(run) && i + 1 < |run|
    ensures KeepsWait(run[i].s, run[i + 1].s) && HoldsFresh(run[i].s, run[i + 1].s)
  {
    assert Linked(run, i);
    var m := run[i];
    var l: Label :| Enabled(m.s, l) && run[i + 1] == Moment(Step(m.s, l), Extend(m.log, Emits(m.s, l)));
    WaitStepKeeps(m.s, l);
    HoldStep(m.s, l);
  }

  /** The deadline of a wait is its beginning and the backoff then. */
  lemma {:induction false} WaitBegan(run: seq<Moment>, i: nat) returns (w: nat)
    requires Run(run) && i < |run| && WaitingOut(run[i].s.actor.pc)
    ensures WaitsSince(run, w, i) && run[w].s.actor.backoff == run[i].s.actor.backoff
    ensures Deadline(run[i].s.actor.pc) == run[w].s.now + run[w].s.actor.backoff
  {
    WaitNext(run, i - 1);
    if WaitingOut(run[i - 1].s.actor.pc) {
      w := WaitBegan(run, i - 1);
    } else {
      w := i;
    }
  }

  /** A held frame can be called stale before the cutoff exactly when it was issued less than the cutoff before the wait
      that holds it ends, which is the backoff after the wait began. */
  lemma StaleBeforeCutoff(run: seq<Moment>, i: nat) returns (w: nat)
    requires Run(run) && i < |run| && run[i].s.actor.pc.Holding?
    ensures WaitsSince(run, w, i)
    ensures
      var s := run[i].s;
      var cutoff := s.actor.pc.queuedAt + STALE_CUTOFF;
      (exists ms: nat :: HeldAnswerAt(s, ms) && s.now + ms < cutoff) <==>
        run[w].s.now + run[w].s.actor.backoff < cutoff && s.now < cutoff
    ensures !run[i - 1].s.actor.pc.Holding? ==> run[i].s.now < run[i].s.actor.pc.queuedAt + STALE_CUTOFF
  {
    InvRun(run, i, 0);
    w := WaitBegan(run, i);
    WaitNext(run, i - 1);
    var s := run[i].s;
    var wait := if s.now >= s.actor.pc.deadline then 0 else s.actor.pc.deadline - s.now;
    assert s.actor.pc.deadline < s.actor.pc.staleAt && s.now < s.actor.pc.staleAt ==> HeldAnswerAt(s, wait);
  }

  /** After ms more milliseconds the held frame can be answered. */
  predicate HeldAnswerAt(s: State, ms: nat) {
    var s' := EnvStep(s, Tick(ms));
    WaitEnabled(s', HoldStale) || WaitEnabled(s', HoldElapsed)
  }

  // ----- the end

  /** `after` adds nothing to `before` but issued commands and answers from an actor that is gone. */
  predicate Quiet(before: Log, after: Log) {
    after == before ||
    (after.Entry? && (after.event.Issued? || GoneAnswer(after.event)) && Quiet(before, after.before))
  }

  predicate GoneAnswer(e: Event) { e.Answered? && e.answer == ActorGone }

  predicate QuietEmit(emit: Emit) {
    match emit
    case Silent => true
    case Emit1(e) => e.Issued? || GoneAnswer(e)
    case Emit2(e1, e2) => e1.Issued? && GoneAnswer(e2)
    case Emit3(_, _, _) => false
    case Each(_, a) => a == ActorGone
  }

  lemma {:induction false} QuietAll(before: Log, after: Log, ids: seq<nat>)
    requires Quiet(before, after)
    ensures Quiet(before, AnswerAll(after, ids, ActorGone))
  {
    if ids != [] {
      QuietAll(before, after, ids[..|ids| - 1]);
    }
  }

  lemma ClosedStep(s: State, l: Label)
    requires Enabled(s, l) && OneWriter(s) && s.shared.atomic == Closed
    ensures Step(s, l).shared.atomic == Closed && !Step(s, l).net.live
    ensures QuietEmit(Emits(s, l))
  {
    match l
    case Env(_) =>
    case Forward(_) =>
    case Caller(_) =>
    case Connect(_) =>
    case Live(_) =>
    case Wait(_) =>
  }

  lemma ClosedNext(run: seq<Moment>, i: nat, before: Log)
    requires Run(run) && i + 1 < |run| && run[i].s.shared.atomic == Closed && Quiet(before, run[i].log)
    ensures run[i + 1].s.shared.atomic == Closed && !run[i + 1].s.net.live && Quiet(before, run[i + 1].log)
  {
    InvRun(run, i, 0);
    assert Linked(run, i);
    var m := run[i];
    var l: Label :| Enabled(m.s, l) && run[i + 1] == Moment(Step(m.s, l), Extend(m.log, Emits(m.s, l)));
    ClosedStep(m.s, l);
    match Emits(m.s, l)
    case Each(ids, _) => QuietAll(before, m.log, ids);
    case Emit2(e1, _) => assert Quiet(before, Entry(m.log, e1));
    case _ =>
  }

  /** After Closed is published nothing connects, nothing is sent, and Closed stays. */
  lemma {:induction false} ClosedIsFinal(run: seq<Moment>, i: nat, j: nat)
    requires Run(run) && i <= j < |run| && run[i].s.shared.atomic == Closed
    ensures run[j].s.shared.atomic == Closed && !run[j].s.net.live
    ensures Quiet(run[i].log, run[j].log)
  {
    if i < j {
      ClosedIsFinal(run, i, j - 1);
      ClosedNext(run, j - 1, run[i].log);
    } else {
      InvRun(run, i, 0);
    }
  }

  // ----- reconnect requests and the backoff

  predicate TakenBefore(log: Log, id: nat) {
    log.Entry? && (log.event == Taken(id) || TakenBefore(log.before, id))
  }

  /** An attempt began after the request was taken. */
  predicate BegunAfter(log: Log, id: nat) {
    log.Entry? && ((log.event.Begun? && TakenBefore(log.before, id)) || BegunAfter(log.before, id))
  }

  /** That attempt is over. */
  predicate OverAfter(log: Log, id: nat) {
    log.Entry? && (((log.event.Up? || log.event.Failed?) && BegunAfter(log.before, id)) || OverAfter(log.before, id))
  }

  lemma {:induction false} PhaseMeans(log: Log, id: nat)
    ensures DigestOf(log, id).phase == Requested ==> TakenBefore(log, id)
    ensures DigestOf(log, id).phase == InAttempt ==> BegunAfter(log, id)
    ensures DigestOf(log, id).phase == AttemptOver ==> OverAfter(log, id)
  {
    if log.Entry? {
      PhaseMeans(log.before, id);
    }
  }

  predicate PrefixOf(log: Log, full: Log) {
    log == full || (full.Entry? && PrefixOf(log, full.before))
  }

  lemma {:induction false} InOrderPrefix(log: Log, full: Log, id: nat)
    requires PrefixOf(log, full) && DigestOf(full, id).inOrder
    ensures DigestOf(log, id).inOrder
  {
    if log != full {
      InOrderPrefix(log, full.before, id);
    }
  }

  /** At most one reconnect caller waits, and wherever the history holds the
      answer to one, an attempt begun after its request had finished before. */
  lemma ReconnectAnsweredAfterAttempt(run: seq<Moment>, i: nat, log: Log, id: nat)
    requires Run(run) && i < |run|
    ensures |run[i].s.actor.waiting| <= 1
    ensures PrefixOf(log, run[i].log) && log.Entry? && log.event == Answered(id, ReconnectDone) ==>
      OverAfter(log.before, id)
  {
    InvRun(run, i, id);
    if PrefixOf(log, run[i].log) && log.Entry? && log.event == Answered(id, ReconnectDone) {
      InOrderPrefix(log, run[i].log, id);
      PhaseMeans(log.before, id);
    }
  }

  function Pow2(k: nat): (r: nat)
    ensures r >= 1
  {
    if k == 0 then 1 else 2 * Pow2(k - 1)
  }

  lemma {:induction false} NthWaitIs(start: nat, k: nat)
    ensures NthWait(start, k) == if k == 0 then start else Min(start * Pow2(k), BACKOFF_MAX)
  {
    if k > 0 {
      NthWaitIs(start, k - 1);
      var x := start * Pow2(k - 1);
      assert start * Pow2(k) == 2 * x;
      if k == 1 {
        assert x == start;
      }
    }
  }

  /** The waits that ran out since the last connect or requested reconnect, and
      the failed attempts since the last connect. */
  function WaitsSinceReset(log: Log): nat { DigestOf(log, 0).waits }
  function FailuresSinceConnect(log: Log): nat { DigestOf(log, 0).failures }

  /** After k elapsed waits the next one is start * 2^k, at most 30 s. */
  lemma BackoffDoubles(run: seq<Moment>, i: nat)
    requires Run(run) && i < |run| && run[i].s.actor.start <= BACKOFF_MAX
    ensures run[i].s.actor.backoff == Min(run[i].s.actor.start * Pow2(WaitsSinceReset(run[i].log)), BACKOFF_MAX)
    ensures run[i].s.actor.pc.Announce? && ConnectStep(run[i].s, AnnounceStep).actor.pc.Backoff? ==>
      ConnectStep(run[i].s, AnnounceStep).actor.pc.deadline
      == run[i].s.now + Min(run[i].s.actor.start * Pow2(WaitsSinceReset(run[i].log)), BACKOFF_MAX)
  {
    InvRun(run, i, 0);
    NthWaitIs(run[i].s.actor.start, WaitsSinceReset(run[i].log));
  }

  lemma {:induction false} UpHappened(log: Log)
    ensures DigestOf(log, 0).up == Happened(log, Up)
    ensures DigestOf(log, 0).fatal ==> Happened(log, Failed(true))
    ensures Happened(log, Failed(true)) && !Happened(log, Up) ==> DigestOf(log, 0).fatal
  {
    if log.Entry? {
      UpHappened(log.before);
    }
  }

  /** `attempts` counts the failed attempts since the last connect; a fatal
      error stops the actor exactly in the runs that never connected. */
  lemma AttemptsAndFatalStop(run: seq<Moment>, i: nat)
    requires Run(run) && i < |run|
    ensures run[i].s.actor.attempts == Min(FailuresSinceConnect(run[i].log), ATTEMPTS_MAX)
    ensures run[i].s.actor.fatal <==> Happened(run[i].log, Failed(true)) && !Happened(run[i].log, Up)
    ensures run[i].s.actor.fatal ==> Closing(run[i].s.actor.pc) && !run[i].s.net.live
  {
    InvRun(run, i, 0);
    UpHappened(run[i].log);
  }
}
