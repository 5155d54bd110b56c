/**
 The routing daemon: the state behind its lock, one function per lock section,
 and the request handlers that string lock sections and backend calls together.
 */
module Netd {
  import opened Wrappers

  /** Milliseconds without an accepted heartbeat before routing is torn down. */
  const WATCHDOG_TIMEOUT: nat := 5000

  /** Milliseconds between two looks of the watchdog. */
  const WATCHDOG_PERIOD: nat := 1000

  datatype RoutingConfig = RoutingConfig(tproxyPort: nat, fwmark: nat, tableId: nat)

  datatype DaemonState = DaemonState(
    activeSession: Option<nat>,
    routingActive: bool,
    lastHeartbeat: nat,
    routingConfig: Option<RoutingConfig>)

  // ----- lock sections

  /** Taking the controller slot; refused while another session holds it. */
  function Claim(s: DaemonState, session: nat, now: nat): Option<DaemonState> {
    if s.activeSession.Some? && s.activeSession != Some(session) then None
    else Some(s.(activeSession := Some(session), lastHeartbeat := now))
  }

  function Release(s: DaemonState, session: nat): DaemonState {
    if s.activeSession == Some(session) then s.(activeSession := None) else s
  }

  function CommitEnable(s: DaemonState, config: RoutingConfig, now: nat): DaemonState {
    s.(routingActive := true, lastHeartbeat := now, routingConfig := Some(config))
  }

  function CommitRollback(s: DaemonState): DaemonState {
    s.(routingActive := false, routingConfig := None, activeSession := None)
  }

  predicate HeartbeatAllowed(s: DaemonState, session: nat) {
    s.routingActive && s.activeSession == Some(session)
  }

  function Heartbeat(s: DaemonState, session: nat, now: nat): Option<DaemonState> {
    if HeartbeatAllowed(s, session) then Some(s.(lastHeartbeat := now)) else None
  }

  /** Instants subtract saturating at zero. */
  predicate Expired(s: DaemonState, now: nat) {
    s.routingActive && now > s.lastHeartbeat + WATCHDOG_TIMEOUT
  }

  // ----- whole requests, one at a time

  /** A request as decoded; `config` is `None` when validation refuses the settings. */
  datatype Request =
    | EnableRouting(session: nat, config: Option<RoutingConfig>)
    | DisableRouting(session: nat)
    | Beat(session: nat, sequence: nat)
    | Handshake(version: nat)

  datatype Refusal = NotYourSession | BadConfig | AnotherController | BackendFailed | NotOwner | HandshakeTwice

  datatype Response = RoutingEnabled | RoutingDisabled | HeartbeatAck(sequence: nat) | Refused(why: Refusal)

  /** The daemon's own state next to what the backend has installed in the kernel. */
  datatype World = World(daemon: DaemonState, installed: Option<RoutingConfig>)

  /** The backend replaces or removes everything, or changes nothing and fails. */
  function Rollback(w: World, ok: bool): World {
    if ok then World(CommitRollback(w.daemon), None) else w
  }

  function Serve(w: World, request: Request, connection: nat, claimedAt: nat, doneAt: nat, ok: bool)
    : (World, Response)
  {
    match request
    case EnableRouting(session, config) =>
      if session != connection then (w, Refused(NotYourSession))
      else if config.None? then (w, Refused(BadConfig))
      else (
        match Claim(w.daemon, connection, claimedAt)
        case None => (w, Refused(AnotherController))
        case Some(claimed) =>
          if ok then (World(CommitEnable(claimed, config.value, doneAt), config), RoutingEnabled)
          else (w.(daemon := Release(claimed, connection)), Refused(BackendFailed))
      )
    case DisableRouting(session) =>
      if session != connection then (w, Refused(NotYourSession))
      else (Rollback(w, ok), if ok then RoutingDisabled else Refused(BackendFailed))
    case Beat(session, sequence) =>
      if session != connection then (w, Refused(NotYourSession))
      else (
        match Heartbeat(w.daemon, connection, doneAt)
        case None => (w, Refused(NotOwner))
        case Some(beaten) => (w.(daemon := beaten), HeartbeatAck(sequence))
      )
    case Handshake(_) => (w, Refused(HandshakeTwice))
  }

  /** The end of a connection whose stream closed cleanly. */
  function Disconnect(w: World, connection: nat, ok: bool): World {
    if w.daemon.activeSession == Some(connection) && w.daemon.routingActive then Rollback(w, ok)
    else w.(daemon := Release(w.daemon, connection))
  }

  function WatchdogTick(w: World, now: nat, ok: bool): World {
    if Expired(w.daemon, now) then Rollback(w, ok) else w
  }

  // ----- the same handlers on mutable state

  class Backend {
    var installed: Option<RoutingConfig>

    constructor ()
      ensures installed == None
    {
      installed := None;
    }

    method Enable(config: RoutingConfig, ok: bool)
      modifies this
      ensures installed == if ok then Some(config) else old(installed)
    {
      if ok {
        installed := Some(config);
      }
    }

    method Disable(ok: bool)
      modifies this
      ensures installed == if ok then None else old(installed)
    {
      if ok {
        installed := None;
      }
    }
  }

  class Daemon {
    var activeSession: Option<nat>
    var routingActive: bool
    var lastHeartbeat: nat
    var routingConfig: Option<RoutingConfig>
    const backend: Backend

    ghost function State(): DaemonState
      reads this
    {
      DaemonState(activeSession, routingActive, lastHeartbeat, routingConfig)
    }

    ghost function View(): World
      reads this, backend
    {
      World(State(), backend.installed)
    }

    constructor (now: nat, backend: Backend)
      ensures State() == DaemonState(None, false, now, None) && this.backend == backend
    {
      this.backend := backend;
      activeSession, routingActive, lastHeartbeat, routingConfig := None, false, now, None;
    }

    method ClaimController(session: nat, now: nat) returns (granted: bool)
      modifies this
      ensures granted == Claim(old(State()), session, now).Some?
      ensures State() == Claim(old(State()), session, now).GetOr(old(State()))
    {
      if activeSession.Some? && activeSession != Some(session) {
        return false;
      }
      activeSession := Some(session);
      lastHeartbeat := now;
      return true;
    }

    method ReleaseSession(session: nat)
      modifies this
      ensures State() == Release(old(State()), session)
    {
      if activeSession == Some(session) {
        activeSession := None;
      }
    }

    method RollBack(ok: bool)
      modifies this, backend
      ensures View() == Rollback(old(View()), ok)
    {
      backend.Disable(ok);
      if ok {
        routingActive := false;
        routingConfig := None;
        activeSession := None;
      }
    }

    method ProcessRequest(request: Request, connection: nat, claimedAt: nat, doneAt: nat, ok: bool)
      returns (response: Response)
      modifies this, backend
      ensures (View(), response) == Serve(old(View()), request, connection, claimedAt, doneAt, ok)
    {
      match request
      case EnableRouting(session, config) =>
        if session != connection {
          return Refused(NotYourSession);
        }
        if config.None? {
          return Refused(BadConfig);
        }
        var granted := ClaimController(connection, claimedAt);
        if !granted {
          return Refused(AnotherController);
        }
        backend.Enable(config.value, ok);
        if !ok {
          ReleaseSession(connection);
          return Refused(BackendFailed);
        }
        routingActive := true;
        lastHeartbeat := doneAt;
        routingConfig := config;
        return RoutingEnabled;
      case DisableRouting(session) =>
        if session != connection {
          return Refused(NotYourSession);
        }
        RollBack(ok);
        return if ok then RoutingDisabled else Refused(BackendFailed);
      case Beat(session, sequence) =>
        if session != connection {
          return Refused(NotYourSession);
        }
        if !(routingActive && activeSession == Some(connection)) {
          return Refused(NotOwner);
        }
        lastHeartbeat := doneAt;
        return HeartbeatAck(sequence);
      case Handshake(_) =>
        return Refused(HandshakeTwice);
    }

    method CloseConnection(connection: nat, ok: bool)
      modifies this, backend
      ensures View() == Disconnect(old(View()), connection, ok)
    {
      if activeSession == Some(connection) && routingActive {
        RollBack(ok);
      } else {
        ReleaseSession(connection);
      }
    }

    method WatchdogLooks(now: nat, ok: bool)
      modifies this, backend
      ensures View() == WatchdogTick(old(View()), now, ok)
    {
      if routingActive && now > lastHeartbeat + WATCHDOG_TIMEOUT {
        RollBack(ok);
      }
    }
  }
}
