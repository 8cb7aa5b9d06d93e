/** The bus-service actor as a step relation.

    One actor task owns the transport and runs connect, consume and backoff; a
    second task, the forwarder, mirrors the tunnel's own link state; any number
    of callers wait on the watch channel.  Every step below is one stretch of
    code between two points where another task can run.  The two writes of a
    state publication, the atomic store and the watch write, are two steps.

    Memory is sequentially consistent, and aborting the forwarder takes effect
    at one of its await points, before the actor publishes again. */
module BusActor {

  datatype BusState = Connecting | Connected | Reconnecting | Closed

  /** Milliseconds. */
  const STALE_CUTOFF: nat := 2_000
  const BACKOFF_MAX: nat := 30_000
  const ATTEMPTS_MAX: nat := 0xFFFF_FFFF

  /** A command carries the identity of its reply channel. */
  datatype Command =
    | Send(id: nat, queuedAt: nat)
    | Close(id: nat)
    | Reconnect(id: nat)

  datatype Answer =
    | Receipt
    | Stale(age: nat, atDeadline: bool)
    | TransportFailed
    | CloseDone
    | ReconnectDone
    | ActorGone

  /** What ended the consumption of one connection. */
  datatype Outcome = OutClosed | OutHandlesDropped | OutDropped | OutReconnect(id: nat)

  /** What the actor does once a state has been published. */
  datatype Follow = Serve | ConnectNow | AnswerThenBackoff | StartBackoff | Stop

  datatype ActorPc =
    | Attempting
    | BumpUp
    | Store(state: BusState, follow: Follow)
    | Announce(state: BusState, follow: Follow)
    | Consuming
    | Transmitting(id: nat)
    | Disconnecting(id: nat, again: bool)
    | Aborting(outcome: Outcome)
    | BumpDown(outcome: Outcome)
    | Backoff(deadline: nat)
    | Holding(id: nat, queuedAt: nat, staleAt: nat, deadline: nat)
    | Stopped

  datatype ForwarderPc =
    | FwOff
    | FwSpawned
    | FwIdle(seen: nat)
    | FwBump(seen: nat, up: bool)
    | FwStore(seen: nat, up: bool)
    | FwAnnounce(seen: nat, up: bool)

  datatype WaiterPc =
    | Marking
    | Checking(seen: nat)
    | Blocked(seen: nat)
    | Finished(connected: bool)

  /** What a run did that a caller or the bus can observe. */
  datatype Event =
    | Issued(id: nat, kind: Kind, at: nat)
    | Begun
    | Up
    | Failed(fatal: bool)
    | Elapsed
    | Taken(id: nat)
    | Transmitted(id: nat, queuedAt: nat, at: nat, live: bool)
    | Answered(id: nat, answer: Answer)

  /** The history of a run, latest event outermost. */
  datatype Log = NoEvents | Entry(before: Log, event: Event)

  /** The events of one step. */
  datatype Emit =
    | Silent
    | Emit1(e: Event)
    | Emit2(e1: Event, e2: Event)
    | Emit3(e1: Event, e2: Event, e3: Event)
    | Each(ids: seq<nat>, answer: Answer)

  function AnswerAll(log: Log, ids: seq<nat>, a: Answer): Log {
    if ids == [] then log else Entry(AnswerAll(log, ids[..|ids| - 1], a), Answered(ids[|ids| - 1], a))
  }

  function Extend(log: Log, emit: Emit): Log {
    match emit
    case Silent => log
    case Emit1(e) => Entry(log, e)
    case Emit2(e1, e2) => Entry(Entry(log, e1), e2)
    case Emit3(e1, e2, e3) => Entry(Entry(Entry(log, e1), e2), e3)
    case Each(ids, a) => AnswerAll(log, ids, a)
  }

  /** What the handles read: the atomic, the watch and the two counters. */
  datatype Shared = Shared(atomic: BusState, watch: BusState, version: nat, generation: nat, linkLosses: nat)

  /** The actor's variables and the part of the diagnostics it keeps. */
  datatype Actor = Actor(pc: ActorPc, start: nat, backoff: nat, everConnected: bool, waiting: seq<nat>,
                         attempts: nat, fatal: bool)

  /** The connection the actor owns, and the link state its tunnel reports as long
      as the tunnel's task lives. */
  datatype Transport = Transport(live: bool, mirrored: bool, linkUp: bool, linkVersion: nat)

  datatype State = State(
    shared: Shared,
    actor: Actor,
    fw: ForwarderPc,
    net: Transport,
    queue: seq<Command>,
    now: nat,
    handles: bool,
    nextId: nat,
    waiters: map<nat, WaiterPc>)

  function Init(start: nat): State {
    State(Shared(Connecting, Connecting, 0, 0, 0),
          Actor(Attempting, start, start, false, [], 0, false),
          FwOff, Transport(false, false, false, 0), [], 0, true, 0, map[])
  }

  // ----- the environment: the clock, the handles and the tunnel

  datatype Kind = KSend | KClose | KReconnect

  datatype EnvLabel = Tick(ms: nat) | Issue(kind: Kind) | DropHandles | LinkChange(up: bool) | LinkEnd

  predicate EnvEnabled(s: State, l: EnvLabel) {
    match l
    case Tick(_) => true
    case Issue(_) => s.handles
    case DropHandles => s.handles
    case LinkChange(_) => s.net.live && s.net.mirrored
    case LinkEnd => s.net.live && s.net.mirrored
  }

  function NewCommand(kind: Kind, id: nat, now: nat): Command {
    match kind
    case KSend => Send(id, now)
    case KClose => Close(id)
    case KReconnect => Reconnect(id)
  }

  function EnvStep(s: State, l: EnvLabel): State
    requires EnvEnabled(s, l)
  {
    match l
    case Tick(ms) => s.(now := s.now + ms)
    case DropHandles => s.(handles := false)
    case LinkEnd => s.(net := s.net.(mirrored := false))
    case LinkChange(up) => s.(net := s.net.(linkUp := up, linkVersion := s.net.linkVersion + 1))
    case Issue(kind) =>
      if s.actor.pc.Stopped? then s.(nextId := s.nextId + 1)
      else s.(nextId := s.nextId + 1, queue := s.queue + [NewCommand(kind, s.nextId, s.now)])
  }

  /** A command sent to an actor that is gone fails at once. */
  function EnvEmits(s: State, l: EnvLabel): Emit {
    match l
    case Issue(kind) =>
      if s.actor.pc.Stopped? then Emit2(Issued(s.nextId, kind, s.now), Answered(s.nextId, ActorGone))
      else Emit1(Issued(s.nextId, kind, s.now))
    case _ => Silent
  }

  // ----- the actor: connecting and publishing

  datatype ConnectLabel = ConnectOk(mirrored: bool) | ConnectErr(fatal: bool) | BumpUpStep | StoreStep | AnnounceStep

  predicate ConnectEnabled(s: State, l: ConnectLabel) {
    match l
    case ConnectOk(_) => s.actor.pc.Attempting?
    case ConnectErr(_) => s.actor.pc.Attempting?
    case BumpUpStep => s.actor.pc.BumpUp?
    case StoreStep => s.actor.pc.Store?
    case AnnounceStep => s.actor.pc.Announce?
  }

  function Ids(q: seq<Command>): seq<nat> {
    seq(|q|, i requires 0 <= i < |q| => q[i].id)
  }

  function ConnectFailed(a: Actor, fatal: bool): Actor {
    var attempts := if a.attempts < ATTEMPTS_MAX then a.attempts + 1 else a.attempts;
    if fatal && !a.everConnected then
      a.(pc := Store(Closed, Stop), attempts := attempts, fatal := true)
    else
      a.(pc := Store(Reconnecting, AnswerThenBackoff), attempts := attempts)
  }

  /** The watch write, which every subscriber sees as a new version. */
  function Watched(s: State, st: BusState): State {
    s.(shared := s.shared.(watch := st, version := s.shared.version + 1))
  }

  /** What follows the watch write of a published state. */
  function Followed(s: State, follow: Follow): State {
    match follow
    case Serve =>
      s.(actor := s.actor.(pc := Consuming, waiting := []), fw := if s.net.mirrored then FwSpawned else FwOff)
    case ConnectNow => s.(actor := s.actor.(pc := Attempting))
    case AnswerThenBackoff => s.(actor := s.actor.(pc := Backoff(s.now + s.actor.backoff), waiting := []))
    case StartBackoff => s.(actor := s.actor.(pc := Backoff(s.now + s.actor.backoff)))
    case Stop => s.(actor := s.actor.(pc := Stopped, waiting := []), queue := [])
  }

  /** A stop drops every reply channel the actor still holds. */
  function FollowEmits(a: Actor, queue: seq<Command>, follow: Follow): Emit {
    match follow
    case Serve => Each(a.waiting, ReconnectDone)
    case ConnectNow => Emit1(Begun)
    case AnswerThenBackoff => Each(a.waiting, ReconnectDone)
    case StartBackoff => Silent
    case Stop => Each(a.waiting + Ids(queue), ActorGone)
  }

  function ConnectStep(s: State, l: ConnectLabel): State
    requires ConnectEnabled(s, l)
  {
    match l
    case ConnectOk(mirrored) =>
      s.(actor := s.actor.(pc := BumpUp, backoff := s.actor.start, everConnected := true, attempts := 0),
         net := Transport(true, mirrored, true, s.net.linkVersion + 1))
    case ConnectErr(fatal) => s.(actor := ConnectFailed(s.actor, fatal))
    case BumpUpStep =>
      s.(actor := s.actor.(pc := Store(Connected, Serve)),
         shared := s.shared.(generation := s.shared.generation + 1))
    case StoreStep =>
      s.(actor := s.actor.(pc := Announce(s.actor.pc.state, s.actor.pc.follow)),
         shared := s.shared.(atomic := s.actor.pc.state))
    case AnnounceStep =>
      Followed(Watched(s, s.actor.pc.state), s.actor.pc.follow)
  }

  function ConnectEmits(s: State, l: ConnectLabel): Emit
    requires ConnectEnabled(s, l)
  {
    match l
    case ConnectOk(_) => Emit1(Up)
    case ConnectErr(fatal) => Emit1(Failed(fatal))
    case AnnounceStep => FollowEmits(s.actor, s.queue, s.actor.pc.follow)
    case _ => Silent
  }

  // ----- the actor: one live connection, and its end

  datatype LiveLabel =
    | RecvErr | TakeLive | SendOk | SendErr | Disconnected | HandlesGoneLive | AbortStep | BumpDownStep

  predicate LiveEnabled(s: State, l: LiveLabel) {
    match l
    case RecvErr => s.actor.pc.Consuming?
    case TakeLive => s.actor.pc.Consuming? && s.queue != []
    case SendOk => s.actor.pc.Transmitting?
    case SendErr => s.actor.pc.Transmitting?
    case Disconnected => s.actor.pc.Disconnecting?
    case HandlesGoneLive => s.actor.pc.Consuming? && !s.handles && s.queue == []
    case AbortStep => s.actor.pc.Aborting? && (s.fw.FwOff? || s.fw.FwSpawned? || s.fw.FwIdle?)
    case BumpDownStep => s.actor.pc.BumpDown?
  }

  function At(s: State, pc: ActorPc): State {
    s.(actor := s.actor.(pc := pc))
  }

  function Lost(s: State, outcome: Outcome): State {
    s.(actor := s.actor.(pc := Aborting(outcome)), net := s.net.(live := false))
  }

  function Age(now: nat, queuedAt: nat): nat {
    if now >= queuedAt then now - queuedAt else 0
  }

  predicate TooOld(now: nat, queuedAt: nat) {
    Age(now, queuedAt) >= STALE_CUTOFF
  }

  /** The next command while a connection is live. */
  function Served(s: State, cmd: Command): State {
    match cmd
    case Send(id, queuedAt) => if TooOld(s.now, queuedAt) then s else At(s, Transmitting(id))
    case Close(id) => At(s, Disconnecting(id, false))
    case Reconnect(id) => At(s, Disconnecting(id, true))
  }

  function ServeEmits(s: State, cmd: Command): Emit {
    match cmd
    case Send(id, queuedAt) =>
      if TooOld(s.now, queuedAt) then Emit1(Answered(id, Stale(Age(s.now, queuedAt), false)))
      else Emit1(Transmitted(id, queuedAt, s.now, s.net.live))
    case Close(_) => Silent
    case Reconnect(id) => Emit1(Taken(id))
  }

  /** The connection is over: bump the generation and choose what to publish. */
  function Down(s: State, outcome: Outcome): State {
    match outcome
    case OutClosed => At(s, Store(Closed, Stop))
    case OutHandlesDropped => At(s, Store(Closed, Stop))
    case OutDropped =>
      At(s, Store(Reconnecting, StartBackoff)).(shared := s.shared.(linkLosses := s.shared.linkLosses + 1))
    case OutReconnect(id) =>
      s.(actor := s.actor.(pc := Store(Reconnecting, ConnectNow), waiting := s.actor.waiting + [id]))
  }

  function LiveStep(s: State, l: LiveLabel): State
    requires LiveEnabled(s, l)
  {
    match l
    case RecvErr => Lost(s, OutDropped)
    case TakeLive => Served(s.(queue := s.queue[1..]), s.queue[0])
    case SendOk => At(s, Consuming)
    case SendErr => Lost(s, OutDropped)
    case Disconnected => Lost(s, if s.actor.pc.again then OutReconnect(s.actor.pc.id) else OutClosed)
    case HandlesGoneLive => Lost(s, OutHandlesDropped)
    case AbortStep => At(s, BumpDown(s.actor.pc.outcome)).(fw := FwOff)
    case BumpDownStep =>
      Down(s.(shared := s.shared.(generation := s.shared.generation + 1)), s.actor.pc.outcome)
  }

  function LiveEmits(s: State, l: LiveLabel): Emit
    requires LiveEnabled(s, l)
  {
    match l
    case TakeLive => ServeEmits(s, s.queue[0])
    case SendOk => Emit1(Answered(s.actor.pc.id, Receipt))
    case SendErr => Emit1(Answered(s.actor.pc.id, TransportFailed))
    case Disconnected => if s.actor.pc.again then Silent else Emit1(Answered(s.actor.pc.id, CloseDone))
    case _ => Silent
  }

  // ----- the actor: waiting for the next attempt

  datatype WaitLabel = TakeWaiting | HandlesGoneWaiting | BackoffElapsed | HoldStale | HoldElapsed

  predicate WaitEnabled(s: State, l: WaitLabel) {
    match l
    case TakeWaiting => s.actor.pc.Backoff? && s.queue != []
    case HandlesGoneWaiting => s.actor.pc.Backoff? && !s.handles && s.queue == []
    case BackoffElapsed => s.actor.pc.Backoff? && s.now >= s.actor.pc.deadline
    case HoldStale => s.actor.pc.Holding? && s.now >= s.actor.pc.staleAt
    case HoldElapsed => s.actor.pc.Holding? && s.now >= s.actor.pc.deadline
  }

  function NextBackoff(current: nat): nat {
    if 2 * current <= BACKOFF_MAX then 2 * current else BACKOFF_MAX
  }

  /** The next command while disconnected. */
  function Deferred(s: State, cmd: Command, deadline: nat): State {
    match cmd
    case Send(id, queuedAt) =>
      if TooOld(s.now, queuedAt) then s
      else At(s, Holding(id, queuedAt, s.now + (STALE_CUTOFF - Age(s.now, queuedAt)), deadline))
    case Close(_) => At(s, Store(Closed, Stop))
    case Reconnect(id) =>
      s.(actor := s.actor.(pc := Attempting, backoff := s.actor.start, waiting := s.actor.waiting + [id]))
  }

  function DeferEmits(s: State, cmd: Command): Emit {
    match cmd
    case Send(id, queuedAt) =>
      if TooOld(s.now, queuedAt) then Emit1(Answered(id, Stale(Age(s.now, queuedAt), false))) else Silent
    case Close(id) => Emit1(Answered(id, CloseDone))
    case Reconnect(id) => Emit2(Taken(id), Begun)
  }

  /** The backoff deadline: double the backoff and attempt again. */
  function Retry(s: State): State {
    s.(actor := s.actor.(pc := Attempting, backoff := NextBackoff(s.actor.backoff)))
  }

  function WaitStep(s: State, l: WaitLabel): State
    requires WaitEnabled(s, l)
  {
    match l
    case TakeWaiting => Deferred(s.(queue := s.queue[1..]), s.queue[0], s.actor.pc.deadline)
    case HandlesGoneWaiting => At(s, Store(Closed, Stop))
    case BackoffElapsed => Retry(s)
    case HoldStale => At(s, Backoff(s.actor.pc.deadline))
    case HoldElapsed => Retry(s)
  }

  function WaitEmits(s: State, l: WaitLabel): Emit
    requires WaitEnabled(s, l)
  {
    match l
    case TakeWaiting => DeferEmits(s, s.queue[0])
    case HandlesGoneWaiting => Silent
    case BackoffElapsed => Emit2(Elapsed, Begun)
    case HoldStale => Emit1(Answered(s.actor.pc.id, Stale(Age(s.now, s.actor.pc.queuedAt), false)))
    case HoldElapsed => Emit3(Answered(s.actor.pc.id, Stale(Age(s.now, s.actor.pc.queuedAt), true)), Elapsed, Begun)
  }

  // ----- the forwarder

  datatype FwLabel = FwFirst | FwWake | FwBumpStep | FwStoreStep | FwAnnounceStep | FwEnd

  predicate FwEnabled(s: State, l: FwLabel) {
    match l
    case FwFirst => s.fw.FwSpawned?
    case FwWake => s.fw.FwIdle? && s.fw.seen != s.net.linkVersion
    case FwBumpStep => s.fw.FwBump?
    case FwStoreStep => s.fw.FwStore?
    case FwAnnounceStep => s.fw.FwAnnounce?
    case FwEnd => s.fw.FwIdle? && s.fw.seen == s.net.linkVersion && !(s.net.live && s.net.mirrored)
  }

  function LinkBusState(up: bool): BusState {
    if up then Connected else Reconnecting
  }

  function FwStep(s: State, l: FwLabel): State
    requires FwEnabled(s, l)
  {
    match l
    case FwFirst => s.(fw := FwIdle(s.net.linkVersion))
    case FwWake => s.(fw := FwBump(s.net.linkVersion, s.net.linkUp))
    case FwBumpStep =>
      s.(fw := FwStore(s.fw.seen, s.fw.up),
         shared := s.shared.(generation := s.shared.generation + 1,
                             linkLosses := if s.fw.up then s.shared.linkLosses else s.shared.linkLosses + 1))
    case FwStoreStep =>
      s.(fw := FwAnnounce(s.fw.seen, s.fw.up), shared := s.shared.(atomic := LinkBusState(s.fw.up)))
    case FwAnnounceStep =>
      Watched(s, LinkBusState(s.fw.up)).(fw := FwIdle(s.fw.seen))
    case FwEnd => s.(fw := FwOff)
  }

  // ----- callers of wait_connected

  datatype WaiterLabel =
    | WaiterStart(w: nat) | WaiterMark(w: nat) | WaiterCheck(w: nat) | WaiterWake(w: nat) | WaiterTimeout(w: nat)

  predicate WaiterEnabled(s: State, l: WaiterLabel) {
    match l
    case WaiterStart(w) => w !in s.waiters
    case WaiterMark(w) => w in s.waiters && s.waiters[w].Marking?
    case WaiterCheck(w) => w in s.waiters && s.waiters[w].Checking?
    case WaiterWake(w) => w in s.waiters && s.waiters[w].Blocked? && s.waiters[w].seen != s.shared.version
    case WaiterTimeout(w) => w in s.waiters && s.waiters[w].Blocked?
  }

  function Checked(atomic: BusState, seen: nat): WaiterPc {
    match atomic
    case Connected => Finished(true)
    case Closed => Finished(false)
    case _ => Blocked(seen)
  }

  function WaiterStep(s: State, l: WaiterLabel): State
    requires WaiterEnabled(s, l)
  {
    match l
    case WaiterStart(w) => s.(waiters := s.waiters[w := Marking])
    case WaiterMark(w) => s.(waiters := s.waiters[w := Checking(s.shared.version)])
    case WaiterCheck(w) => s.(waiters := s.waiters[w := Checked(s.shared.atomic, s.waiters[w].seen)])
    case WaiterWake(w) => s.(waiters := s.waiters[w := Marking])
    case WaiterTimeout(w) => s.(waiters := s.waiters[w := Finished(false)])
  }

  // ----- runs

  datatype Label =
    | Env(env: EnvLabel)
    | Connect(connect: ConnectLabel)
    | Live(live: LiveLabel)
    | Wait(wait: WaitLabel)
    | Forward(fw: FwLabel)
    | Caller(waiter: WaiterLabel)

  predicate Enabled(s: State, l: Label) {
    match l
    case Env(e) => EnvEnabled(s, e)
    case Connect(c) => ConnectEnabled(s, c)
    case Live(v) => LiveEnabled(s, v)
    case Wait(w) => WaitEnabled(s, w)
    case Forward(f) => FwEnabled(s, f)
    case Caller(c) => WaiterEnabled(s, c)
  }

  function Step(s: State, l: Label): State
    requires Enabled(s, l)
  {
    match l
    case Env(e) => EnvStep(s, e)
    case Connect(c) => ConnectStep(s, c)
    case Live(v) => LiveStep(s, v)
    case Wait(w) => WaitStep(s, w)
    case Forward(f) => FwStep(s, f)
    case Caller(c) => WaiterStep(s, c)
  }

  function Emits(s: State, l: Label): Emit
    requires Enabled(s, l)
  {
    match l
    case Env(e) => EnvEmits(s, e)
    case Connect(c) => ConnectEmits(s, c)
    case Live(v) => LiveEmits(s, v)
    case Wait(w) => WaitEmits(s, w)
    case _ => Silent
  }

  /** A moment of a run: the state, and everything that happened before. */
  datatype Moment = Moment(s: State, log: Log)

  ghost predicate Next(m: Moment, m': Moment) {
    exists l: Label :: Enabled(m.s, l) && m' == Moment(Step(m.s, l), Extend(m.log, Emits(m.s, l)))
  }

  ghost predicate Linked(run: seq<Moment>, i: nat) {
    i + 1 < |run| && Next(run[i], run[i + 1])
  }

  ghost predicate Run(run: seq<Moment>) {
    && |run| > 0
    && run[0] == Moment(Init(run[0].s.actor.start), Entry(NoEvents, Begun))
    && forall i: nat :: i < |run| - 1 ==> Linked(run, i)
  }
}
