/**
 Runs of the daemon in which requests do not overlap: the kernel always holds
 what the daemon believes it holds, and routing dies with its controller.
 */
module NetdDeadman {
  import opened Wrappers
  import opened Netd

  datatype Event =
    | Requested(request: Request, connection: nat, ok: bool)
    | Disconnected(connection: nat, ok: bool)
    | Ticked(ok: bool)

  /** An event that takes from `start` to `end`; backend calls fall in between. */
  datatype Timed = Timed(start: nat, end: nat, event: Event)

  /** A world with the time its last event ended and the instant of the watchdog's last look. */
  datatype Clocked = Clocked(world: World, clock: nat, lastTick: nat)

  /** A look that rolls back sleeps again only once the rollback is done. */
  function Step(c: Clocked, e: Timed): Clocked {
    match e.event
    case Requested(request, connection, ok) =>
      Clocked(Serve(c.world, request, connection, e.start, e.end, ok).0, e.end, c.lastTick)
    case Disconnected(connection, ok) => Clocked(Disconnect(c.world, connection, ok), e.end, c.lastTick)
    case Ticked(ok) =>
      Clocked(WatchdogTick(c.world, e.start, ok), e.end, if Expired(c.world.daemon, e.start) then e.end else e.start)
  }

  function Run(c: Clocked, events: seq<Timed>): Clocked
    decreases |events|
  {
    if events == [] then c
    else Step(Run(c, events[..|events| - 1]), events[|events| - 1])
  }

  function Boot(now: nat): Clocked {
    Clocked(World(DaemonState(None, false, now, None), None), now, now)
  }

  /**
   Time does not run backwards, no event lasts longer than `span`, and the watchdog
   looks once per period, going next when its look fell due during another event.
   */
  ghost predicate Timely(c: Clocked, events: seq<Timed>, span: nat)
    decreases |events|
  {
    events != [] ==>
      var before, e := Run(c, events[..|events| - 1]), events[|events| - 1];
      && Timely(c, events[..|events| - 1], span)
      && before.clock <= e.start <= e.end <= e.start + span
      && (e.start <= before.lastTick + WATCHDOG_PERIOD || (e.event.Ticked? && e.start == before.clock))
  }

  ghost predicate WatchdogSucceeds(events: seq<Timed>) {
    forall e | e in events :: e.event.Ticked? ==> e.event.ok
  }

  ghost predicate Agrees(w: World) {
    && w.installed == w.daemon.routingConfig
    && (w.daemon.routingActive <==> w.daemon.routingConfig.Some?)
  }

  ghost predicate OwnedOnlyWhileRouting(w: World) {
    w.daemon.activeSession.Some? ==> w.daemon.routingActive
  }

  /** With requests served one at a time the daemon never loses track of the kernel. */
  lemma {:induction false} SerialRunsAgree(now: nat, events: seq<Timed>)
    ensures Agrees(Run(Boot(now), events).world) && OwnedOnlyWhileRouting(Run(Boot(now), events).world)
    decreases |events|
  {
    if events == [] {
    } else {
      SerialRunsAgree(now, events[..|events| - 1]);
    }
  }

  /**
   Routing loses its owner, and with it every way of being kept alive by
   heartbeats, exactly when the backend refuses the owner's own second enable.
   */
  lemma OwnerLostExactlyOnFailedReenable(c: Clocked, e: Timed)
    requires c.world.daemon.routingActive && c.world.daemon.activeSession.Some?
    ensures var after := Step(c, e).world.daemon;
            after.routingActive && after.activeSession.None? <==>
              && e.event.Requested? && !e.event.ok && e.event.request.EnableRouting?
              && e.event.request.config.Some?
              && e.event.request.session == e.event.connection == c.world.daemon.activeSession.value
  {
  }

  /** Two requests of one session get there: an enable that works and one that does not. */
  lemma OwnerlessRoutingHappens(now: nat, config: RoutingConfig, session: nat)
    ensures var enable := EnableRouting(session, Some(config));
            var events := [Timed(now, now, Requested(enable, session, true)),
                           Timed(now, now, Requested(enable, session, false))];
            var end := Run(Boot(now), events).world;
            && Timely(Boot(now), events, 0)
            && end.daemon.routingActive && end.daemon.activeSession == None && end.installed == Some(config)
  {
    var enable := EnableRouting(session, Some(config));
    var first := Timed(now, now, Requested(enable, session, true));
    var second := Timed(now, now, Requested(enable, session, false));
    assert [first, second][..1] == [first] && [first][..0] == [];
    assert Run(Boot(now), []) == Boot(now);
    assert Run(Boot(now), [first]) == Step(Boot(now), first);
    assert Run(Boot(now), [first, second]) == Step(Step(Boot(now), first), second);
  }

  /** The only ways to postpone the deadline: an acceptable claim, or the owner's heartbeat. */
  ghost predicate Refreshes(w: World, e: Event) {
    match e
    case Requested(EnableRouting(session, config), connection, _) =>
      session == connection && config.Some? && w.daemon.activeSession in {None, Some(connection)}
    case Requested(Beat(session, _), connection, _) =>
      session == connection && w.daemon.routingActive && w.daemon.activeSession == Some(connection)
    case _ => false
  }

  /** A claim moves the deadline at once, a commit or a heartbeat when it is done. */
  lemma DeadlineMovesExactlyOnRefresh(c: Clocked, e: Timed)
    ensures Step(c, e).world.daemon.lastHeartbeat
         == if !Refreshes(c.world, e.event) then c.world.daemon.lastHeartbeat
            else if e.event.request.EnableRouting? && !e.event.ok then e.start else e.end
  {
  }

  ghost predicate Armed(c: Clocked, span: nat) {
    && c.lastTick <= c.clock <= c.lastTick + WATCHDOG_PERIOD + span
    && c.world.daemon.lastHeartbeat <= c.clock
    && (c.world.daemon.routingActive ==> c.lastTick <= c.world.daemon.lastHeartbeat + WATCHDOG_TIMEOUT)
  }

  lemma {:induction false} RunsStayArmed(c: Clocked, events: seq<Timed>, span: nat)
    requires Armed(c, span) && Timely(c, events, span) && WatchdogSucceeds(events)
    ensures Armed(Run(c, events), span)
    decreases |events|
  {
    if events == [] {
    } else {
      var before := events[..|events| - 1];
      assert forall e | e in before :: e in events;
      RunsStayArmed(c, before, span);
      assert events[|events| - 1] in events;
      DeadlineMovesExactlyOnRefresh(Run(c, before), events[|events| - 1]);
    }
  }

  /**
   At every look of the watchdog routing it leaves alive has had a heartbeat within
   the timeout, and at any other moment within the timeout plus one period plus the
   time of the one event a look may have had to wait for.
   */
  lemma DeadmanSwitch(now: nat, events: seq<Timed>, span: nat)
    requires events != [] && Timely(Boot(now), events, span) && WatchdogSucceeds(events)
    ensures var c := Run(Boot(now), events);
            c.world.daemon.routingActive ==>
              && c.clock <= c.world.daemon.lastHeartbeat + WATCHDOG_TIMEOUT + WATCHDOG_PERIOD + span
              && (events[|events| - 1].event.Ticked? ==>
                    events[|events| - 1].start <= c.world.daemon.lastHeartbeat + WATCHDOG_TIMEOUT)
  {
    RunsStayArmed(Boot(now), events, span);
    var before := events[..|events| - 1];
    assert forall e | e in before :: e in events;
    RunsStayArmed(Boot(now), before, span);
    assert events[|events| - 1] in events;
  }

  /** No event of the run postpones the deadline. */
  ghost predicate Silent(c: Clocked, events: seq<Timed>)
    decreases |events|
  {
    events != [] ==>
      && Silent(c, events[..|events| - 1])
      && !Refreshes(Run(c, events[..|events| - 1]).world, events[|events| - 1].event)
  }

  lemma {:induction false} SilenceFreezesDeadline(c: Clocked, events: seq<Timed>)
    requires Silent(c, events)
    ensures Run(c, events).world.daemon.lastHeartbeat == c.world.daemon.lastHeartbeat
    ensures Run(c, events).world.daemon.routingActive ==> c.world.daemon.routingActive
    decreases |events|
  {
    if events == [] {
    } else {
      SilenceFreezesDeadline(c, events[..|events| - 1]);
      DeadlineMovesExactlyOnRefresh(Run(c, events[..|events| - 1]), events[|events| - 1]);
    }
  }

  lemma {:induction false} RunsCompose(c: Clocked, first: seq<Timed>, later: seq<Timed>, span: nat)
    ensures Run(c, first + later) == Run(Run(c, first), later)
    ensures Timely(c, first + later, span) <==> Timely(c, first, span) && Timely(Run(c, first), later, span)
    decreases |later|
  {
    if later == [] {
      assert first + later == first;
    } else {
      var whole := first + later;
      assert whole[..|whole| - 1] == first + later[..|later| - 1];
      RunsCompose(c, first, later[..|later| - 1], span);
    }
  }

  /**
   Once refreshes stop, routing is off as soon as more than the timeout, one period
   and the longest event have passed, however many refused requests and heartbeats
   other sessions keep sending.
   */
  lemma SilenceEndsRouting(now: nat, history: seq<Timed>, quiet: seq<Timed>, span: nat)
    requires Timely(Boot(now), history + quiet, span) && WatchdogSucceeds(history + quiet)
    requires Silent(Run(Boot(now), history), quiet)
    requires var quietSince := Run(Boot(now), history).clock;
             Run(Boot(now), history + quiet).clock > quietSince + WATCHDOG_TIMEOUT + WATCHDOG_PERIOD + span
    ensures !Run(Boot(now), history + quiet).world.daemon.routingActive
  {
    var middle := Run(Boot(now), history);
    RunsCompose(Boot(now), history, quiet, span);
    SilenceFreezesDeadline(middle, quiet);
    assert forall e | e in history :: e in history + quiet;
    RunsStayArmed(Boot(now), history, span);
    if quiet != [] {
      DeadmanSwitch(now, history + quiet, span);
    }
  }
}
