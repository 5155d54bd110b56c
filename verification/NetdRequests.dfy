/**
 What a request, a closing connection and a look of the watchdog achieve, in terms of
 what is installed, remembered and owned; and how long an attended session keeps its
 routing.
 */
module NetdRequests {
  import opened Wrappers
  import opened Netd
  import opened NetdDeadman

  /** `session` routes with `config`: in the kernel, in the daemon's memory, and as owner. */
  predicate Routes(w: World, session: nat, config: RoutingConfig) {
    && w.installed == Some(config)
    && w.daemon.routingConfig == Some(config) && w.daemon.routingActive
    && w.daemon.activeSession == Some(session)
  }

  /** Nothing installed, remembered, active or owned. */
  predicate Cleared(w: World) {
    && w.installed == None
    && w.daemon.routingConfig == None && !w.daemon.routingActive
    && w.daemon.activeSession == None
  }

  predicate SameRouting(w: World, after: World) {
    && after.installed == w.installed
    && after.daemon.routingConfig == w.daemon.routingConfig
    && after.daemon.routingActive == w.daemon.routingActive
  }

  /** The session a request speaks for. */
  function Speaker(request: Request): Option<nat> {
    match request
    case EnableRouting(session, _) => Some(session)
    case DisableRouting(session) => Some(session)
    case Beat(session, _) => Some(session)
    case Handshake(_) => None
  }

  predicate Speaks(request: Request, connection: nat) {
    Speaker(request) == Some(connection)
  }

  /** An answer that is not a refusal is true of the world it leaves, and only a refusal leaves the routing alone. */
  lemma AnswersAreTrue(w: World, request: Request, connection: nat, claimedAt: nat, doneAt: nat, ok: bool)
    ensures var (after, response) := Serve(w, request, connection, claimedAt, doneAt, ok);
            && (request.Handshake? ==> response.Refused?)
            && (response.RoutingEnabled? ==>
                  && request.EnableRouting? && Speaks(request, connection) && request.config.Some?
                  && Routes(after, connection, request.config.value)
                  && after.daemon.lastHeartbeat == doneAt)
            && (response.RoutingDisabled? ==>
                  request.DisableRouting? && Speaks(request, connection) && Cleared(after)
                  && after.daemon.lastHeartbeat == w.daemon.lastHeartbeat)
            && (response.HeartbeatAck? ==>
                  && request.Beat? && Speaks(request, connection) && response.sequence == request.sequence
                  && w.daemon.routingActive && w.daemon.activeSession == Some(connection)
                  && SameRouting(w, after) && after.daemon.activeSession == Some(connection)
                  && after.daemon.lastHeartbeat == doneAt)
            && (response.Refused? ==> SameRouting(w, after))
  {
  }

  /** Each refusal is given exactly on its own condition, so a request that meets none is carried out. */
  lemma RefusalsAreExact(w: World, request: Request, connection: nat, claimedAt: nat, doneAt: nat, ok: bool)
    ensures var response := Serve(w, request, connection, claimedAt, doneAt, ok).1;
            var spoken := Speaks(request, connection);
            var taken := w.daemon.activeSession.Some? && w.daemon.activeSession.value != connection;
            && (response == Refused(HandshakeTwice) <==> request.Handshake?)
            && (response == Refused(NotYourSession) <==> !request.Handshake? && !spoken)
            && (response == Refused(BadConfig) <==> spoken && request.EnableRouting? && request.config.None?)
            && (response == Refused(AnotherController) <==>
                  spoken && request.EnableRouting? && request.config.Some? && taken)
            && (response == Refused(BackendFailed) <==>
                  && spoken && !ok
                  && (request.DisableRouting? || (request.EnableRouting? && request.config.Some? && !taken)))
            && (response == Refused(NotOwner) <==>
                  && spoken && request.Beat?
                  && !(w.daemon.routingActive && w.daemon.activeSession == Some(connection)))
  {
  }

  /** A refusal changes nothing, except that a session whose enable the backend refuses ends up without the slot. */
  lemma RefusalsKeepTheOwner(w: World, request: Request, connection: nat, claimedAt: nat, doneAt: nat, ok: bool)
    ensures var (after, response) := Serve(w, request, connection, claimedAt, doneAt, ok);
            response.Refused? ==>
              if response.why.BackendFailed? && request.EnableRouting?
              then after.daemon == w.daemon.(activeSession := None, lastHeartbeat := claimedAt)
              else after == w
  {
  }

  /** A clean close: the owner of active routing takes it down, and nobody else touches it. */
  lemma ClosingClearsExactlyTheOwners(w: World, connection: nat, ok: bool)
    ensures var after := Disconnect(w, connection, ok);
            if w.daemon.activeSession != Some(connection) then after == w
            else if w.daemon.routingActive then (if ok then Cleared(after) else after == w)
            else SameRouting(w, after) && after.daemon.activeSession == None
  {
  }

  /** A look at a heartbeat no older than the timeout changes nothing; a later one takes active routing down. */
  lemma LooksSpareTheFresh(w: World, now: nat, ok: bool)
    ensures var after := WatchdogTick(w, now, ok);
            if now <= w.daemon.lastHeartbeat + WATCHDOG_TIMEOUT || !w.daemon.routingActive || !ok then after == w
            else Cleared(after)
  {
  }

  // ----- what keeps routing alive

  /** `session` owns active routing, and the kernel has the settings the daemon remembers. */
  predicate Holds(w: World, session: nat) {
    && w.daemon.routingActive && w.daemon.activeSession == Some(session)
    && w.installed.Some? && w.installed == w.daemon.routingConfig
  }

  /** The session's own heartbeat, or its own enable, carried out. */
  predicate Beats(e: Timed, session: nat) {
    && e.event.Requested? && e.event.connection == session && Speaks(e.event.request, session)
    && (e.event.request.Beat?
        || (e.event.request.EnableRouting? && e.event.request.config.Some? && e.event.ok))
  }

  /** When `session` was last heard of, by the events alone. */
  function LastBeat(since: nat, events: seq<Timed>, session: nat): nat
    decreases |events|
  {
    if events == [] then since
    else if Beats(events[|events| - 1], session) then events[|events| - 1].end
    else LastBeat(since, events[..|events| - 1], session)
  }

  /**
   What takes routing from its owner: a disable carried out for anybody, the owner's
   own enable refused by the backend, the owner's clean close, a late look.
   */
  predicate Interrupts(e: Timed, session: nat, lastBeat: nat) {
    match e.event
    case Requested(request, connection, ok) =>
      && Speaks(request, connection)
      && if ok then request.DisableRouting?
         else request.EnableRouting? && request.config.Some? && connection == session
    case Disconnected(connection, ok) => connection == session && ok
    case Ticked(ok) => ok && e.start > lastBeat + WATCHDOG_TIMEOUT
  }

  lemma StepHoldsExactly(c: Clocked, e: Timed, session: nat)
    requires Holds(c.world, session)
    ensures Holds(Step(c, e).world, session) <==> !Interrupts(e, session, c.world.daemon.lastHeartbeat)
    ensures Holds(Step(c, e).world, session) ==>
              Step(c, e).world.daemon.lastHeartbeat
              == if Beats(e, session) then e.end else c.world.daemon.lastHeartbeat
  {
  }

  ghost predicate HeldThroughout(c: Clocked, events: seq<Timed>, session: nat) {
    forall n | 0 <= n <= |events| :: Holds(Run(c, events[..n]).world, session)
  }

  ghost predicate NothingInterrupts(since: nat, events: seq<Timed>, session: nat) {
    forall n | 0 <= n < |events| :: !Interrupts(events[n], session, LastBeat(since, events[..n], session))
  }

  lemma PrefixesOfLonger<T>(events: seq<T>, e: T)
    ensures forall n | 0 <= n <= |events| :: (events + [e])[..n] == events[..n]
    ensures forall n | 0 <= n < |events| :: (events + [e])[n] == events[n]
    ensures (events + [e])[..|events| + 1] == events + [e] && events[..|events|] == events
  {
  }

  lemma HeldLonger(c: Clocked, events: seq<Timed>, e: Timed, session: nat)
    ensures HeldThroughout(c, events + [e], session)
       <==> HeldThroughout(c, events, session) && Holds(Run(c, events + [e]).world, session)
  {
    PrefixesOfLonger(events, e);
    hide Run, Holds;
    var longer := events + [e];
    if HeldThroughout(c, longer, session) {
      forall n | 0 <= n <= |events| ensures Holds(Run(c, events[..n]).world, session) {
        assert longer[..n] == events[..n];
      }
      assert Holds(Run(c, longer[..|longer|]).world, session);
    }
  }

  lemma UninterruptedLonger(since: nat, events: seq<Timed>, e: Timed, session: nat)
    ensures NothingInterrupts(since, events + [e], session)
       <==> && NothingInterrupts(since, events, session)
            && !Interrupts(e, session, LastBeat(since, events, session))
  {
    PrefixesOfLonger(events, e);
    hide LastBeat, Interrupts;
    var longer := events + [e];
    if NothingInterrupts(since, longer, session) {
      forall n | 0 <= n < |events| ensures !Interrupts(events[n], session, LastBeat(since, events[..n], session)) {
        assert longer[n] == events[n] && longer[..n] == events[..n];
      }
      assert !Interrupts(longer[|events|], session, LastBeat(since, longer[..|events|], session));
    }
  }

  /**
   A session keeps its routing all through a run exactly when nothing interrupts it:
   the watchdog does so only more than the timeout after the session was last heard of.
   */
  lemma {:induction false} HeldExactlyWhileUninterrupted(c: Clocked, events: seq<Timed>, session: nat)
    requires Holds(c.world, session)
    ensures HeldThroughout(c, events, session)
       <==> NothingInterrupts(c.world.daemon.lastHeartbeat, events, session)
    ensures HeldThroughout(c, events, session) ==>
              Run(c, events).world.daemon.lastHeartbeat == LastBeat(c.world.daemon.lastHeartbeat, events, session)
    decreases |events|
  {
    if events == [] {
      assert events[..0] == [];
    } else {
      var before, e := events[..|events| - 1], events[|events| - 1];
      assert events == before + [e];
      HeldExactlyWhileUninterrupted(c, before, session);
      HeldLonger(c, before, e, session);
      UninterruptedLonger(c.world.daemon.lastHeartbeat, before, e, session);
      if HeldThroughout(c, before, session) {
        assert before[..|before|] == before;
        StepHoldsExactly(Run(c, before), e, session);
      }
      hide Holds, Interrupts, Beats, HeldThroughout, NothingInterrupts, Step;
    }
  }

  // ----- an owner that beats in time

  /** Every look comes within the timeout of some earlier sign of the session. */
  ghost predicate Attended(since: nat, events: seq<Timed>, session: nat) {
    forall k | 0 <= k < |events| && events[k].event.Ticked? ::
      || events[k].start <= since + WATCHDOG_TIMEOUT
      || exists j | 0 <= j < k :: Beats(events[j], session) && events[k].start <= events[j].end + WATCHDOG_TIMEOUT
  }

  /** Nobody disables, the session does not disconnect, and the backend refuses none of its enables. */
  ghost predicate Undisturbed(events: seq<Timed>, session: nat) {
    forall e | e in events ::
      match e.event
      case Requested(request, connection, ok) =>
        && !request.DisableRouting?
        && (request.EnableRouting? && connection == session ==> ok)
      case Disconnected(connection, _) => connection != session
      case Ticked(_) => true
  }

  /** Later signs are not earlier. */
  lemma {:induction false} LastBeatIsLatest(c: Clocked, events: seq<Timed>, session: nat, span: nat)
    requires Timely(c, events, span) && c.world.daemon.lastHeartbeat <= c.clock
    ensures var last := LastBeat(c.world.daemon.lastHeartbeat, events, session);
            && c.world.daemon.lastHeartbeat <= last <= Run(c, events).clock
            && forall j | 0 <= j < |events| && Beats(events[j], session) :: events[j].end <= last
    decreases |events|
  {
    if events == [] {
    } else {
      var before := events[..|events| - 1];
      LastBeatIsLatest(c, before, session, span);
      hide Beats, Timely;
      assert forall j | 0 <= j < |before| :: events[j] == before[j];
      assert Run(c, events).clock == events[|events| - 1].end;
    }
  }

  lemma {:induction false} PrefixIsTimely(c: Clocked, events: seq<Timed>, n: nat, span: nat)
    requires Timely(c, events, span) && n <= |events|
    ensures Timely(c, events[..n], span)
    decreases |events|
  {
    if n == |events| {
      assert events[..n] == events;
    } else {
      PrefixIsTimely(c, events[..|events| - 1], n, span);
      assert events[..|events| - 1][..n] == events[..n];
    }
  }

  /**
   In every timed run: routing whose owner is heard of at least once per timeout, and
   which nobody disables, disconnects or re-enables in vain, is there at every moment.
   */
  lemma AttendedRoutingStays(c: Clocked, events: seq<Timed>, session: nat, span: nat)
    requires Holds(c.world, session) && c.world.daemon.lastHeartbeat <= c.clock && Timely(c, events, span)
    requires Attended(c.world.daemon.lastHeartbeat, events, session) && Undisturbed(events, session)
    ensures forall n | 0 <= n <= |events| :: Holds(Run(c, events[..n]).world, session)
  {
    var since := c.world.daemon.lastHeartbeat;
    forall n | 0 <= n < |events| ensures !Interrupts(events[n], session, LastBeat(since, events[..n], session)) {
      assert events[n] in events;
      if events[n].event.Ticked? {
        PrefixIsTimely(c, events, n, span);
        LastBeatIsLatest(c, events[..n], session, span);
        hide LastBeat, Beats, Run;
        if events[n].start > since + WATCHDOG_TIMEOUT {
          var j :| 0 <= j < n && Beats(events[j], session) && events[n].start <= events[j].end + WATCHDOG_TIMEOUT;
          assert events[..n][j] == events[j];
        }
      }
    }
    HeldExactlyWhileUninterrupted(c, events, session);
  }
}
