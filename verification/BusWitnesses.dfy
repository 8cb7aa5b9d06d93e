/** Runs that show where the bus keeps less than its documentation says. */
module BusWitnesses {
  import opened BusActor
  import opened BusInvariants
  import opened BusProperties

  function Last(run: seq<Moment>): Moment
    requires run != []
  {
    run[|run| - 1]
  }

  function Taking(m: Moment, l: Label): Moment
    requires Enabled(m.s, l)
  {
    Moment(Step(m.s, l), Extend(m.log, Emits(m.s, l)))
  }

  function Beginning(start: nat): Moment {
    Moment(Init(start), Entry(NoEvents, Begun))
  }

  lemma Begin(start: nat) returns (run: seq<Moment>)
    ensures Run(run) && run == [Beginning(start)]
  {
    run := [Beginning(start)];
  }

  lemma Append(run: seq<Moment>, l: Label) returns (longer: seq<Moment>)
    requires Run(run) && Enabled(Last(run).s, l)
    ensures Run(longer) && longer == run + [Taking(Last(run), l)]
  {
    longer := run + [Taking(Last(run), l)];
    forall i: nat | i < |longer| - 1
      ensures Linked(longer, i)
    {
      if i < |run| - 1 {
        assert Linked(run, i);
      } else {
        assert Next(longer[i], longer[i + 1]);
      }
    }
  }

  /** The five steps from the start to a served connection. */
  lemma ConnectFirst(start: nat, mirrored: bool) returns (run: seq<Moment>)
    ensures Run(run) && |run| == 5
    ensures
      var s := Last(run).s;
      && s.shared == Shared(Connected, Connected, 1, 1, 0)
      && s.actor == Actor(Consuming, start, start, true, [], 0, false)
      && s.fw == (if mirrored then FwSpawned else FwOff)
      && s.net == Transport(true, mirrored, true, 1)
      && s.queue == [] && s.now == 0 && s.handles && s.nextId == 0 && s.waiters == map[]
  {
    run := Begin(start);
    run := Append(run, Connect(ConnectOk(mirrored)));
    run := Append(run, Connect(BumpUpStep));
    run := Append(run, Connect(StoreStep));
    run := Append(run, Connect(AnnounceStep));
  }

  /** A link lost and re-established before the forwarder's first poll moves
      neither the state nor the generation: equal readings, broken tunnel. */
  lemma UnseenLinkLoss(start: nat) returns (run: seq<Moment>)
    ensures Run(run) && |run| == 7
    ensures run[4].s.shared.atomic == Connected && run[6].s.shared.atomic == Connected
    ensures run[4].s.shared.generation == run[6].s.shared.generation
    ensures !Observed(run[4].s) && run[4].s.fw == FwSpawned && !run[5].s.net.linkUp && run[6].s.net.linkUp
  {
    run := ConnectFirst(start, true);
    run := Append(run, Env(LinkChange(false)));
    run := Append(run, Env(LinkChange(true)));
  }

  /** A connection that is lost shows neither in the state nor in the generation until the actor has bumped it: equal
      readings, observed at the first, and no connection at the second. */
  lemma LossBeforeBump(start: nat) returns (run: seq<Moment>)
    ensures Run(run) && |run| == 7
    ensures run[5].s.shared.atomic == Connected && run[6].s.shared.atomic == Connected
    ensures run[5].s.shared.generation == run[6].s.shared.generation
    ensures Observed(run[5].s) && run[6].s.fw == FwIdle(run[6].s.net.linkVersion) && !run[6].s.net.live
  {
    run := ConnectFirst(start, true);
    run := Append(run, Forward(FwFirst));
    run := Append(run, Live(RecvErr));
  }

  /** From there, losing the connection and waiting for the next attempt. */
  lemma LoseConnection(start: nat) returns (run: seq<Moment>)
    ensures Run(run) && |run| == 10 && run[4].s.shared.atomic == Connected
    ensures
      var s := Last(run).s;
      && s.shared == Shared(Reconnecting, Reconnecting, 2, 2, 1)
      && s.actor == Actor(Backoff(start), start, start, true, [], 0, false)
      && s.fw == FwOff && s.now == 0
  {
    run := ConnectFirst(start, false);
    run := Append(run, Live(RecvErr));
    run := Append(run, Live(AbortStep));
    run := Append(run, Live(BumpDownStep));
    run := Append(run, Connect(StoreStep));
    run := Append(run, Connect(AnnounceStep));
  }

  /** Both readings load the state before the generation: equal generations and
      Connected both times, yet the state was Reconnecting in between. */
  lemma StateFirstReadingsMiss(start: nat) returns (run: seq<Moment>, s1: nat, g1: nat, s2: nat, g2: nat)
    ensures Run(run) && s1 < g1 < s2 < g2 < |run|
    ensures run[s1].s.shared.atomic == Connected && run[s2].s.shared.atomic == Connected
    ensures run[g1].s.shared.generation == run[s2].s.shared.generation == run[g2].s.shared.generation
    ensures run[g1].s.shared.atomic == Reconnecting
  {
    run := LoseConnection(start);
    run := Append(run, Env(Tick(start)));
    run := Append(run, Wait(BackoffElapsed));
    run := Append(run, Connect(ConnectOk(false)));
    run := Append(run, Connect(BumpUpStep));
    run := Append(run, Connect(StoreStep));
    run := Append(run, Connect(AnnounceStep));
    s1, g1, s2, g2 := 4, 13, 14, 15;
  }

  /** The second reading loads the generation before the state: the generation of the old connection, and the state of
      the new one. */
  lemma GenerationFirstReadingsMiss(start: nat) returns (run: seq<Moment>, s1: nat, s2: nat, x: nat)
    ensures Run(run) && s1 < x < s2 < |run|
    ensures run[s1].s.shared.atomic == Connected && run[s2].s.shared.atomic == Connected
    ensures run[x].s.shared.atomic == Reconnecting
  {
    run := LoseConnection(start);
    run := Append(run, Env(Tick(start)));
    run := Append(run, Wait(BackoffElapsed));
    run := Append(run, Connect(ConnectOk(false)));
    run := Append(run, Connect(BumpUpStep));
    run := Append(run, Connect(StoreStep));
    run := Append(run, Connect(AnnounceStep));
    s1, x, s2 := 4, 9, 14;
  }

  /** Two readings that look alike. The first loads the generation at g1 and the state at s1, the second the state at s2
      and the generation at g2; each in one of the two orders. */
  predicate Alike(run: seq<Moment>, genFirst: bool, genLast: bool, g1: nat, s1: nat, s2: nat, g2: nat) {
    && g1 < |run| && s1 < |run| && s2 < |run| && g2 < |run|
    && (if genFirst then g1 <= s1 else s1 <= g1)
    && (if genLast then s2 <= g2 else g2 <= s2)
    && g1 <= s2 && g1 <= g2 && s1 <= s2 && s1 <= g2
    && run[s1].s.shared.atomic == Connected && run[s2].s.shared.atomic == Connected
    && run[g1].s.shared.generation == run[g2].s.shared.generation
  }

  ghost predicate ConnectedThroughout(run: seq<Moment>, s1: nat, s2: nat)
    requires s2 < |run|
  {
    forall x :: s1 <= x <= s2 ==> run[x].s.shared.atomic == Connected
  }

  /** In every run, alike readings bracket a stretch in which the state was Connected. */
  ghost predicate AlwaysBrackets(genFirst: bool, genLast: bool) {
    forall run: seq<Moment>, g1: nat, s1: nat, s2: nat, g2: nat ::
      Run(run) && Alike(run, genFirst, genLast, g1, s1, s2, g2) ==> ConnectedThroughout(run, s1, s2)
  }

  lemma Refutes(run: seq<Moment>, genFirst: bool, genLast: bool, g1: nat, s1: nat, s2: nat, g2: nat, x: nat)
    requires Run(run) && Alike(run, genFirst, genLast, g1, s1, s2, g2)
    requires s1 <= x <= s2 && run[x].s.shared.atomic != Connected
    ensures !AlwaysBrackets(genFirst, genLast)
  {
  }

  /** Of the four load orders exactly one brackets: generation first at the first reading, and last at the second. */
  lemma LoadOrders(genFirst: bool, genLast: bool)
    ensures AlwaysBrackets(genFirst, genLast) <==> genFirst && genLast
  {
    if genFirst && genLast {
      forall run: seq<Moment>, g1: nat, s1: nat, s2: nat, g2: nat
        | Run(run) && Alike(run, genFirst, genLast, g1, s1, s2, g2)
        ensures ConnectedThroughout(run, s1, s2)
      {
        SplitReadingsBracket(run, g1, s1, s2, g2);
      }
    } else if genFirst {
      var run, s1, s2, x := GenerationFirstReadingsMiss(0);
      Refutes(run, genFirst, genLast, s1, s1, s2, s1, x);
    } else {
      var run, s1, g1, s2, g2 := StateFirstReadingsMiss(0);
      Refutes(run, genFirst, genLast, g1, s1, s2, s2, g1);
    }
  }

  /** A frame queued while the bus waits for its next attempt is called stale
      at the backoff deadline, here at half the cutoff. */
  lemma StaleAtHalfTheCutoff() returns (run: seq<Moment>)
    ensures Run(run) && Happened(Last(run).log, Answered(0, Stale(STALE_CUTOFF / 2, true)))
  {
    run := Begin(STALE_CUTOFF / 2);
    run := Append(run, Connect(ConnectErr(false)));
    run := Append(run, Connect(StoreStep));
    run := Append(run, Connect(AnnounceStep));
    run := Append(run, Env(Issue(KSend)));
    run := Append(run, Wait(TakeWaiting));
    run := Append(run, Env(Tick(STALE_CUTOFF / 2)));
    run := Append(run, Wait(HoldElapsed));
    var log := Last(run).log;
    assert log.before.before.event == Answered(0, Stale(STALE_CUTOFF / 2, true));
    assert Happened(log.before.before, Answered(0, Stale(STALE_CUTOFF / 2, true)));
    assert Happened(log.before, Answered(0, Stale(STALE_CUTOFF / 2, true)));
  }
}
