/** What every step of the bus actor keeps: who may write, what the published
    state says about the actor, and where every command is. */
module BusInvariants {
  import opened BusActor

  // ----- one writer at a time, and what it leaves behind

  /** The actor holds an open transport exactly at these points. */
  predicate HoldsTransport(pc: ActorPc) {
    match pc
    case BumpUp => true
    case Store(_, follow) => follow == Serve
    case Announce(_, follow) => follow == Serve
    case Consuming => true
    case Transmitting(_) => true
    case Disconnecting(_, _) => true
    case _ => false
  }

  /** The forwarder may run only while the actor publishes nothing itself. */
  predicate ForwarderMayRun(pc: ActorPc) {
    pc.Consuming? || pc.Transmitting? || pc.Disconnecting? || pc.Aborting?
  }

  function FollowState(follow: Follow): BusState {
    match follow
    case Serve => Connected
    case Stop => Closed
    case _ => Reconnecting
  }

  predicate MidPublish(s: State) {
    s.actor.pc.Announce? || s.fw.FwAnnounce?
  }

  predicate OneWriter(s: State) {
    && (s.fw.FwOff? || ForwarderMayRun(s.actor.pc))
    && s.net.live == HoldsTransport(s.actor.pc)
    && (s.actor.pc.Store? || s.actor.pc.Announce? ==> s.actor.pc.state == FollowState(s.actor.pc.follow))
    && (s.actor.pc.Announce? ==> s.shared.atomic == s.actor.pc.state)
    && (s.fw.FwAnnounce? ==> s.shared.atomic == LinkBusState(s.fw.up))
    && (MidPublish(s) || s.shared.watch == s.shared.atomic)
    && (s.shared.atomic == Closed) == (s.actor.pc.Stopped? || s.actor.pc == Announce(Closed, Stop))
  }

  predicate Decisive(st: BusState) { st == Connected || st == Closed }

  /** A blocked waiter has an unseen version coming whenever the state it waits
      for is there. */
  predicate WaiterSound(w: WaiterPc, s: State) {
    match w
    case Checking(seen) => seen <= s.shared.version
    case Blocked(seen) =>
      seen <= s.shared.version && (seen == s.shared.version && Decisive(s.shared.atomic) ==> MidPublish(s))
    case _ => true
  }

  predicate WaitersSound(s: State) {
    forall w :: w in s.waiters ==> WaiterSound(s.waiters[w], s)
  }

  // ----- what a log says about one command

  datatype Phase = NotWaiting | Requested | InAttempt | AttemptOver

  /** `answers`, `deliveries`, `transmissions`: how often the command was
      answered, answered as handed to the transport, handed to the transport.
      `phase`: how far the attempt that must follow a reconnect request has come.
      `timely`, `inOrder`: every event so far obeyed the staleness rule, and the
      order of reconnect answers.  `up`, `fatal`: the bus was connected once, or
      met a fatal error before that.  `failures`, `waits`: failed attempts since
      the last connect, waits that ran out since the last connect or request. */
  datatype Digest = Digest(
    answers: nat, deliveries: nat, transmissions: nat,
    phase: Phase, timely: bool, inOrder: bool,
    up: bool, fatal: bool, failures: nat, waits: nat)

  function One(b: bool): nat { if b then 1 else 0 }

  predicate Delivered(a: Answer) { a.Receipt? || a.TransportFailed? }

  /** A frame goes out on a live connection before the cutoff; one is called
      stale past the cutoff, or when the backoff deadline comes first. */
  predicate Timely(e: Event) {
    match e
    case Transmitted(_, queuedAt, at, live) => live && queuedAt <= at < queuedAt + STALE_CUTOFF
    case Answered(_, Stale(age, atDeadline)) => atDeadline || age >= STALE_CUTOFF
    case _ => true
  }

  function Absorb(d: Digest, e: Event, id: nat): Digest {
    match e
    case Issued(_, _, _) => d
    case Begun => d.(phase := if d.phase == Requested then InAttempt else d.phase)
    case Up => d.(phase := if d.phase == InAttempt then AttemptOver else d.phase, up := true, failures := 0, waits := 0)
    case Failed(fatal) =>
      d.(phase := if d.phase == InAttempt then AttemptOver else d.phase,
         failures := d.failures + 1, fatal := d.fatal || (fatal && !d.up))
    case Elapsed => d.(waits := d.waits + 1)
    case Taken(id') => d.(phase := if id' == id then Requested else d.phase, waits := 0)
    case Transmitted(id', _, _, _) =>
      d.(transmissions := d.transmissions + One(id' == id), timely := d.timely && Timely(e))
    case Answered(id', a) =>
      d.(answers := d.answers + One(id' == id),
         deliveries := d.deliveries + One(id' == id && Delivered(a)),
         timely := d.timely && Timely(e),
         inOrder := d.inOrder && (id' == id && a.ReconnectDone? ==> d.phase == AttemptOver))
  }

  function DigestOf(log: Log, id: nat): Digest {
    if log.NoEvents? then Digest(0, 0, 0, NotWaiting, true, true, false, false, 0, 0)
    else Absorb(DigestOf(log.before, id), log.event, id)
  }

  function Among(ids: seq<nat>, id: nat): nat {
    if ids == [] then 0 else Among(ids[..|ids| - 1], id) + One(ids[|ids| - 1] == id)
  }

  /** The digest after one more step. */
  function Digested(d: Digest, emit: Emit, id: nat): Digest {
    match emit
    case Silent => d
    case Emit1(e) => Absorb(d, e, id)
    case Emit2(e1, e2) => Absorb(Absorb(d, e1, id), e2, id)
    case Emit3(e1, e2, e3) => Absorb(Absorb(Absorb(d, e1, id), e2, id), e3, id)
    case Each(ids, a) =>
      d.(answers := d.answers + Among(ids, id),
         inOrder := d.inOrder && (a.ReconnectDone? && Among(ids, id) > 0 ==> d.phase == AttemptOver))
  }

  lemma {:induction false} AnswerAllDigest(log: Log, ids: seq<nat>, a: Answer, id: nat)
    requires a.ReconnectDone? || a.ActorGone?
    ensures DigestOf(AnswerAll(log, ids, a), id) == Digested(DigestOf(log, id), Each(ids, a), id)
  {
    if ids != [] {
      AnswerAllDigest(log, ids[..|ids| - 1], a, id);
    }
  }

  lemma ExtendDigest(log: Log, emit: Emit, id: nat)
    requires emit.Each? ==> emit.answer.ReconnectDone? || emit.answer.ActorGone?
    ensures DigestOf(Extend(log, emit), id) == Digested(DigestOf(log, id), emit, id)
  {
    match emit
    case Silent =>
    case Emit1(_) =>
    case Emit2(e1, e2) => assert DigestOf(Entry(log, e1), id) == Absorb(DigestOf(log, id), e1, id);
    case Emit3(e1, e2, _) =>
      assert DigestOf(Entry(log, e1), id) == Absorb(DigestOf(log, id), e1, id);
      assert DigestOf(Entry(Entry(log, e1), e2), id) == Absorb(Absorb(DigestOf(log, id), e1, id), e2, id);
    case Each(ids, a) => AnswerAllDigest(log, ids, a, id);
  }

  lemma {:induction false} AmongJoin(a: seq<nat>, b: seq<nat>, id: nat)
    ensures Among(a + b, id) == Among(a, id) + Among(b, id)
  {
    if b == [] {
      assert a + b == a;
    } else {
      AmongJoin(a, b[..|b| - 1], id);
      assert (a + b)[..|a + b| - 1] == a + b[..|b| - 1];
    }
  }

  lemma AmongOne(x: nat, id: nat)
    ensures Among([x], id) == One(x == id)
  {
    assert [x][..0] == [];
  }

  lemma AmongTake(queue: seq<Command>, id: nat)
    requires queue != []
    ensures Among(Ids(queue), id) == One(queue[0].id == id) + Among(Ids(queue[1..]), id)
  {
    assert Ids(queue) == [queue[0].id] + Ids(queue[1..]);
    AmongJoin([queue[0].id], Ids(queue[1..]), id);
    AmongOne(queue[0].id, id);
  }

  // ----- where the commands are

  /** The command the actor has taken and not yet answered or put aside. */
  function Held(pc: ActorPc, id: nat): nat {
    match pc
    case Transmitting(id') => One(id' == id)
    case Holding(id', _, _, _) => One(id' == id)
    case Disconnecting(id', _) => One(id' == id)
    case Aborting(outcome) => One(outcome == OutReconnect(id))
    case BumpDown(outcome) => One(outcome == OutReconnect(id))
    case _ => 0
  }

  predicate WaitsFor(a: Actor, id: nat) {
    |a.waiting| == 1 && a.waiting[0] == id
  }

  /** The queue (which holds the command `queued` times), the actor's hand, the
      waiting list and the answers together hold every issued command once. */
  predicate Conserved(a: Actor, queued: nat, nextId: nat, d: Digest, id: nat) {
    && queued + Held(a.pc, id) + One(WaitsFor(a, id)) + d.answers == One(id < nextId)
    && (a.pc.Stopped? ==> queued == 0)
  }

  /** Every frame handed over is answered as such, or still with the transport. */
  predicate Sends(pc: ActorPc, d: Digest, id: nat) {
    && d.transmissions == d.deliveries + One(pc == Transmitting(id))
    && d.timely
    && (pc.Holding? ==> pc.staleAt == pc.queuedAt + STALE_CUTOFF)
  }

  function FollowPhase(follow: Follow): Phase {
    match follow
    case ConnectNow => Requested
    case StartBackoff => NotWaiting
    case _ => AttemptOver
  }

  /** The phase a waiting caller is in, by where the actor is. */
  function WaitingPhase(pc: ActorPc): Phase {
    match pc
    case Attempting => InAttempt
    case BumpUp => AttemptOver
    case Store(_, follow) => FollowPhase(follow)
    case Announce(_, follow) => FollowPhase(follow)
    case _ => NotWaiting
  }

  predicate TakenAside(pc: ActorPc, id: nat) {
    match pc
    case Disconnecting(id', again) => again && id' == id
    case Aborting(outcome) => outcome == OutReconnect(id)
    case BumpDown(outcome) => outcome == OutReconnect(id)
    case _ => false
  }

  predicate Waiting(a: Actor, d: Digest, id: nat) {
    && |a.waiting| <= 1
    && (a.waiting != [] ==> WaitingPhase(a.pc) != NotWaiting)
    && (WaitsFor(a, id) ==> d.phase == WaitingPhase(a.pc))
    && (TakenAside(a.pc, id) ==> d.phase == Requested)
    && d.inOrder
  }

  function Min(a: nat, b: nat): nat { if a <= b then a else b }

  predicate Closing(pc: ActorPc) {
    pc.Stopped? || pc == Store(Closed, Stop) || pc == Announce(Closed, Stop)
  }

  predicate Attempts(a: Actor, d: Digest) {
    && a.everConnected == d.up
    && a.fatal == d.fatal
    && (d.fatal ==> !d.up && Closing(a.pc))
    && a.attempts == Min(d.failures, ATTEMPTS_MAX)
  }

  /** The wait after k waits that ran out. */
  function NthWait(start: nat, k: nat): nat {
    if k == 0 then start else NextBackoff(NthWait(start, k - 1))
  }

  predicate Backs(a: Actor, d: Digest) {
    && a.backoff == NthWait(a.start, d.waits)
    && (HoldsTransport(a.pc) ==> a.backoff == a.start)
  }

  predicate Core(a: Actor, queued: nat, nextId: nat, d: Digest, id: nat) {
    Conserved(a, queued, nextId, d, id) && Sends(a.pc, d, id) && Waiting(a, d, id) && Attempts(a, d) && Backs(a, d)
  }

  predicate QueuedBy(queue: seq<Command>, now: nat) {
    forall c :: c in queue && c.Send? ==> c.queuedAt <= now
  }

  predicate History(s: State, d: Digest, id: nat) {
    Core(s.actor, Among(Ids(s.queue), id), s.nextId, d, id) && QueuedBy(s.queue, s.now)
  }

  // ----- every step keeps it all

  predicate Inv(s: State, d: Digest, id: nat) {
    OneWriter(s) && WaitersSound(s) && History(s, d, id)
  }

  lemma EnvKeepsHistory(s: State, l: EnvLabel, d: Digest, id: nat)
    requires EnvEnabled(s, l) && History(s, d, id)
    ensures History(EnvStep(s, l), Digested(d, EnvEmits(s, l), id), id)
  {
    if l.Issue? {
      var cmd := NewCommand(l.kind, s.nextId, s.now);
      assert Ids(s.queue + [cmd]) == Ids(s.queue) + [s.nextId];
      AmongJoin(Ids(s.queue), [s.nextId], id);
      AmongOne(s.nextId, id);
    }
  }

  lemma EnvKeeps(s: State, l: EnvLabel)
    requires EnvEnabled(s, l) && OneWriter(s) && WaitersSound(s)
    ensures OneWriter(EnvStep(s, l)) && WaitersSound(EnvStep(s, l))
  {
  }

  lemma ForwarderKeeps(s: State, l: FwLabel)
    requires FwEnabled(s, l) && OneWriter(s) && WaitersSound(s)
    ensures OneWriter(FwStep(s, l)) && WaitersSound(FwStep(s, l))
  {
  }

  lemma CallerKeeps(s: State, l: WaiterLabel)
    requires WaiterEnabled(s, l) && OneWriter(s) && WaitersSound(s)
    ensures OneWriter(WaiterStep(s, l)) && WaitersSound(WaiterStep(s, l))
  {
  }

  lemma ConnectKeepsWriter(s: State, l: ConnectLabel)
    requires ConnectEnabled(s, l) && OneWriter(s) && WaitersSound(s)
    ensures OneWriter(ConnectStep(s, l)) && WaitersSound(ConnectStep(s, l))
  {
  }

  lemma WaitKeepsWriter(s: State, l: WaitLabel)
    requires WaitEnabled(s, l) && OneWriter(s) && WaitersSound(s)
    ensures OneWriter(WaitStep(s, l)) && WaitersSound(WaitStep(s, l))
  {
  }

  lemma DownKeepsWriter(s: State)
    requires LiveEnabled(s, BumpDownStep) && OneWriter(s) && WaitersSound(s)
    ensures OneWriter(LiveStep(s, BumpDownStep)) && WaitersSound(LiveStep(s, BumpDownStep))
  {
  }

  lemma LiveKeepsWriter(s: State, l: LiveLabel)
    requires LiveEnabled(s, l) && OneWriter(s) && WaitersSound(s)
    ensures OneWriter(LiveStep(s, l)) && WaitersSound(LiveStep(s, l))
  {
    match l
    case BumpDownStep => DownKeepsWriter(s);
    case _ =>
  }

  /** What one answer to all of them does for a single waiting caller. */
  lemma AmongWaiting(a: Actor, id: nat)
    requires |a.waiting| <= 1
    ensures Among(a.waiting, id) == One(WaitsFor(a, id))
  {
    if a.waiting != [] {
      assert a.waiting == [a.waiting[0]];
      AmongOne(a.waiting[0], id);
    }
  }

  lemma AnswerKeeps(s: State, follow: Follow, queued: nat, d: Digest, id: nat)
    requires s.actor.pc == Announce(FollowState(follow), follow) && Core(s.actor, queued, s.nextId, d, id)
    requires follow != Stop
    ensures
      Core(Followed(s, follow).actor, queued, s.nextId, Digested(d, FollowEmits(s.actor, s.queue, follow), id), id)
  {
    AmongWaiting(s.actor, id);
    match follow
    case Serve =>
    case ConnectNow =>
    case AnswerThenBackoff =>
    case StartBackoff =>
  }

  /** At a stop, every command still held is answered. */
  lemma StopKeeps(s: State, d: Digest, id: nat)
    requires s.actor.pc == Announce(Closed, Stop) && History(s, d, id)
    ensures History(Followed(s, Stop), Digested(d, FollowEmits(s.actor, s.queue, Stop), id), id)
  {
    AmongWaiting(s.actor, id);
    AmongJoin(s.actor.waiting, Ids(s.queue), id);
  }

  lemma FollowKeeps(s: State, follow: Follow, d: Digest, id: nat)
    requires s.actor.pc == Announce(FollowState(follow), follow) && History(s, d, id)
    ensures History(Followed(s, follow), Digested(d, FollowEmits(s.actor, s.queue, follow), id), id)
  {
    if follow == Stop {
      StopKeeps(s, d, id);
    } else {
      AnswerKeeps(s, follow, Among(Ids(s.queue), id), d, id);
    }
  }

  lemma ConnectKeepsCore(s: State, l: ConnectLabel, queued: nat, d: Digest, id: nat)
    requires ConnectEnabled(s, l) && OneWriter(s) && Core(s.actor, queued, s.nextId, d, id)
    requires !l.AnnounceStep?
    ensures Core(ConnectStep(s, l).actor, queued, s.nextId, Digested(d, ConnectEmits(s, l), id), id)
  {
    match l
    case ConnectOk(_) =>
    case ConnectErr(_) =>
    case BumpUpStep =>
    case StoreStep =>
  }

  lemma AnnounceKeeps(s: State, d: Digest, id: nat)
    requires s.actor.pc.Announce? && OneWriter(s) && History(s, d, id)
    ensures History(Followed(Watched(s, s.actor.pc.state), s.actor.pc.follow),
                    Digested(d, FollowEmits(s.actor, s.queue, s.actor.pc.follow), id), id)
  {
    FollowKeeps(Watched(s, s.actor.pc.state), s.actor.pc.follow, d, id);
  }

  lemma ConnectKeepsHistory(s: State, l: ConnectLabel, d: Digest, id: nat)
    requires ConnectEnabled(s, l) && OneWriter(s) && History(s, d, id)
    ensures History(ConnectStep(s, l), Digested(d, ConnectEmits(s, l), id), id)
  {
    if l.AnnounceStep? {
      AnnounceKeeps(s, d, id);
    } else {
      ConnectKeepsCore(s, l, Among(Ids(s.queue), id), d, id);
    }
  }

  lemma ServedKeeps(s: State, cmd: Command, queued: nat, d: Digest, id: nat)
    requires s.actor.pc.Consuming? && s.net.live && Core(s.actor, queued + One(cmd.id == id), s.nextId, d, id)
    requires cmd.Send? ==> cmd.queuedAt <= s.now
    ensures Core(Served(s, cmd).actor, queued, s.nextId, Digested(d, ServeEmits(s, cmd), id), id)
  {
    match cmd
    case Send(_, _) =>
    case Close(_) =>
    case Reconnect(_) =>
  }

  lemma DownKeeps(s: State, queued: nat, d: Digest, id: nat)
    requires LiveEnabled(s, BumpDownStep) && Core(s.actor, queued, s.nextId, d, id)
    ensures Core(LiveStep(s, BumpDownStep).actor, queued, s.nextId, d, id)
  {
    match s.actor.pc.outcome
    case OutClosed =>
    case OutHandlesDropped =>
    case OutDropped =>
    case OutReconnect(_) =>
  }

  lemma LiveKeepsCore(s: State, l: LiveLabel, queued: nat, d: Digest, id: nat)
    requires LiveEnabled(s, l) && OneWriter(s) && Core(s.actor, queued, s.nextId, d, id)
    requires !l.TakeLive? && !l.BumpDownStep?
    ensures Core(LiveStep(s, l).actor, queued, s.nextId, Digested(d, LiveEmits(s, l), id), id)
  {
    match l
    case RecvErr =>
    case SendOk =>
    case SendErr =>
    case Disconnected =>
    case HandlesGoneLive =>
    case AbortStep =>
  }

  lemma LiveKeepsHistory(s: State, l: LiveLabel, d: Digest, id: nat)
    requires LiveEnabled(s, l) && OneWriter(s) && History(s, d, id)
    ensures History(LiveStep(s, l), Digested(d, LiveEmits(s, l), id), id)
  {
    if l.TakeLive? {
      AmongTake(s.queue, id);
      assert s.queue[0] in s.queue;
      ServedKeeps(s.(queue := s.queue[1..]), s.queue[0], Among(Ids(s.queue[1..]), id), d, id);
    } else if l.BumpDownStep? {
      DownKeeps(s, Among(Ids(s.queue), id), d, id);
    } else {
      LiveKeepsCore(s, l, Among(Ids(s.queue), id), d, id);
    }
  }

  lemma DeferredKeeps(s: State, cmd: Command, queued: nat, d: Digest, id: nat)
    requires s.actor.pc.Backoff? && Core(s.actor, queued + One(cmd.id == id), s.nextId, d, id)
    requires cmd.Send? ==> cmd.queuedAt <= s.now
    ensures Core(Deferred(s, cmd, s.actor.pc.deadline).actor, queued, s.nextId, Digested(d, DeferEmits(s, cmd), id), id)
  {
    match cmd
    case Send(_, _) =>
    case Close(_) =>
    case Reconnect(_) =>
  }

  lemma WaitKeepsCore(s: State, l: WaitLabel, queued: nat, d: Digest, id: nat)
    requires WaitEnabled(s, l) && Core(s.actor, queued, s.nextId, d, id)
    requires !l.TakeWaiting?
    ensures Core(WaitStep(s, l).actor, queued, s.nextId, Digested(d, WaitEmits(s, l), id), id)
  {
    match l
    case HandlesGoneWaiting =>
    case BackoffElapsed =>
    case HoldStale =>
    case HoldElapsed =>
  }

  lemma WaitKeepsHistory(s: State, l: WaitLabel, d: Digest, id: nat)
    requires WaitEnabled(s, l) && History(s, d, id)
    ensures History(WaitStep(s, l), Digested(d, WaitEmits(s, l), id), id)
  {
    if l.TakeWaiting? {
      AmongTake(s.queue, id);
      assert s.queue[0] in s.queue;
      DeferredKeeps(s.(queue := s.queue[1..]), s.queue[0], Among(Ids(s.queue[1..]), id), d, id);
    } else {
      WaitKeepsCore(s, l, Among(Ids(s.queue), id), d, id);
    }
  }

  lemma InvStep(s: State, l: Label, d: Digest, id: nat)
    requires Enabled(s, l) && Inv(s, d, id)
    ensures Inv(Step(s, l), Digested(d, Emits(s, l), id), id)
  {
    match l
    case Env(e) => EnvKeeps(s, e); EnvKeepsHistory(s, e, d, id);
    case Forward(f) => ForwarderKeeps(s, f);
    case Caller(c) => CallerKeeps(s, c);
    case Connect(c) => ConnectKeepsWriter(s, c); ConnectKeepsHistory(s, c, d, id);
    case Live(v) => LiveKeepsWriter(s, v); LiveKeepsHistory(s, v, d, id);
    case Wait(w) => WaitKeepsWriter(s, w); WaitKeepsHistory(s, w, d, id);
  }

  lemma InvNext(run: seq<Moment>, i: nat, id: nat)
    requires Run(run) && i + 1 < |run| && Inv(run[i].s, DigestOf(run[i].log, id), id)
    ensures Inv(run[i + 1].s, DigestOf(run[i + 1].log, id), id)
  {
    assert Linked(run, i);
    var m := run[i];
    var l: Label :| Enabled(m.s, l) && run[i + 1] == Moment(Step(m.s, l), Extend(m.log, Emits(m.s, l)));
    InvStep(m.s, l, DigestOf(m.log, id), id);
    ExtendDigest(m.log, Emits(m.s, l), id);
  }

  lemma {:induction false} InvRun(run: seq<Moment>, i: nat, id: nat)
    requires Run(run) && i < |run|
    ensures Inv(run[i].s, DigestOf(run[i].log, id), id)
  {
    if i > 0 {
      InvRun(run, i - 1, id);
      InvNext(run, i - 1, id);
    }
  }
}
