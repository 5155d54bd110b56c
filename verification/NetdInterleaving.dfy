/**
 The daemon at the granularity of its lock: connections and the watchdog take
 turns between lock sections, and backend calls happen outside the lock.
 */
module NetdInterleaving {
  import opened Wrappers
  import opened Netd

  datatype Task = Connection(session: nat) | Watchdog

  /** Where a task stands between two of its atomic actions. */
  datatype Place =
    | Idle
    | Claimed(config: RoutingConfig)               // about to call the backend's enable
    | Enabled(config: RoutingConfig)               // about to commit the enable
    | EnableFailed                                 // about to release the claim
    | MustRollBack                                 // about to read the settings to remove
    | Disabling                                    // about to call the backend's disable
    | Disabled                                     // about to commit the rollback
    | Releasing                                    // closing without routing of its own
    | Gone

  datatype System = System(
    daemon: DaemonState,
    installed: Option<RoutingConfig>,
    places: map<Task, Place>,
    leaving: set<Task>)

  datatype Action =
    | Accept(session: nat)
    | ClaimSection(session: nat, config: RoutingConfig, now: nat)
    | CallEnable(session: nat, ok: bool)
    | CommitEnableSection(session: nat, now: nat)
    | ReleaseSection(session: nat)
    | HeartbeatSection(session: nat, now: nat)
    | AskDisable(session: nat)
    | CheckOwnership(session: nat)
    | Break(session: nat)
    | CheckDeadline(now: nat)
    | ReadSettings(task: Task)
    | CallDisable(task: Task, ok: bool)
    | CommitRollbackSection(task: Task)

  function Boot(now: nat): System {
    System(DaemonState(None, false, now, None), None, map[Watchdog := Idle], {})
  }

  ghost predicate At(s: System, t: Task, p: Place) {
    t in s.places && s.places[t] == p
  }

  ghost predicate Enabling(s: System, session: nat) {
    var t := Connection(session);
    t in s.places && (s.places[t].Claimed? || s.places[t].Enabled? || s.places[t].EnableFailed?)
  }

  ghost predicate CanTake(s: System, a: Action) {
    match a
    case Accept(session) => Connection(session) !in s.places
    case ClaimSection(session, _, _) => At(s, Connection(session), Idle)
    case CallEnable(session, _) => Connection(session) in s.places && s.places[Connection(session)].Claimed?
    case CommitEnableSection(session, _) => Connection(session) in s.places && s.places[Connection(session)].Enabled?
    case ReleaseSection(session) =>
      At(s, Connection(session), EnableFailed) || At(s, Connection(session), Releasing)
    case HeartbeatSection(session, _) => At(s, Connection(session), Idle)
    case AskDisable(session) => At(s, Connection(session), Idle)
    case CheckOwnership(session) => At(s, Connection(session), Idle)
    case Break(session) => At(s, Connection(session), Idle)
    case CheckDeadline(_) => At(s, Watchdog, Idle)
    case ReadSettings(task) => At(s, task, MustRollBack)
    case CallDisable(task, _) => At(s, task, Disabling)
    case CommitRollbackSection(task) => task in s.places && s.places[task].Disabled?
  }

  /** Where a finished rollback leaves its task: a closing connection ends with it. */
  ghost function Home(s: System, t: Task): Place {
    if t in s.leaving then Gone else Idle
  }

  ghost function Move(s: System, t: Task, p: Place): System {
    s.(places := s.places[t := p])
  }

  ghost function Take(s: System, a: Action): System
    requires CanTake(s, a)
  {
    match a
    case Accept(session) => Move(s, Connection(session), Idle)
    case ClaimSection(session, config, now) => (
      match Claim(s.daemon, session, now)
      case None => s
      case Some(claimed) => Move(s.(daemon := claimed), Connection(session), Claimed(config))
    )
    case CallEnable(session, ok) =>
      var config := s.places[Connection(session)].config;
      if ok then Move(s.(installed := Some(config)), Connection(session), Enabled(config))
      else Move(s, Connection(session), EnableFailed)
    case CommitEnableSection(session, now) =>
      var config := s.places[Connection(session)].config;
      Move(s.(daemon := CommitEnable(s.daemon, config, now)), Connection(session), Idle)
    case ReleaseSection(session) =>
      var t := Connection(session);
      Move(s.(daemon := Release(s.daemon, session)), t, if s.places[t].Releasing? then Gone else Idle)
    case HeartbeatSection(session, now) =>
      s.(daemon := Heartbeat(s.daemon, session, now).GetOr(s.daemon))
    case AskDisable(session) => Move(s, Connection(session), MustRollBack)
    case CheckOwnership(session) =>
      if HeartbeatAllowed(s.daemon, session) then
        Move(s.(leaving := s.leaving + {Connection(session)}), Connection(session), MustRollBack)
      else
        Move(s, Connection(session), Releasing)
    case Break(session) => Move(s, Connection(session), Gone)
    case CheckDeadline(now) =>
      if Expired(s.daemon, now) then Move(s, Watchdog, MustRollBack) else s
    case ReadSettings(task) => Move(s, task, Disabling)
    case CallDisable(task, ok) =>
      if ok then Move(s.(installed := None), task, Disabled) else Move(s, task, Home(s, task))
    case CommitRollbackSection(task) =>
      Move(s.(daemon := CommitRollback(s.daemon)), task, Home(s, task))
  }

  /** The states a run of actions goes through. */
  ghost predicate Trace(states: seq<System>, actions: seq<Action>) {
    && |states| == |actions| + 1
    && forall i | 0 <= i < |actions| :: CanTake(states[i], actions[i]) && states[i + 1] == Take(states[i], actions[i])
  }

  ghost predicate Boots(states: seq<System>, actions: seq<Action>, now: nat) {
    Trace(states, actions) && states[0] == Boot(now)
  }

  // ----- what every interleaving keeps

  ghost predicate Remembered(s: System) {
    s.daemon.routingActive <==> s.daemon.routingConfig.Some?
  }

  ghost predicate Owned(s: System) {
    s.daemon.activeSession.Some? ==> s.daemon.routingActive || Enabling(s, s.daemon.activeSession.value)
  }

  lemma TakeKeepsRemembered(s: System, a: Action)
    requires Remembered(s) && CanTake(s, a)
    ensures Remembered(Take(s, a))
  {
  }

  lemma TakeKeepsOwned(s: System, a: Action)
    requires Owned(s) && CanTake(s, a)
    ensures Owned(Take(s, a))
  {
  }

  lemma {:induction false} RunsKeepOwnership(states: seq<System>, actions: seq<Action>, now: nat, n: nat)
    requires Boots(states, actions, now) && n < |states|
    ensures Remembered(states[n]) && Owned(states[n])
  {
    if n > 0 {
      RunsKeepOwnership(states, actions, now, n - 1);
      TakeKeepsRemembered(states[n - 1], actions[n - 1]);
      TakeKeepsOwned(states[n - 1], actions[n - 1]);
      hide CanTake, Take, Remembered, Owned;
      assert states[n - 1 + 1] == Take(states[n - 1], actions[n - 1]);
    }
  }

  /**
   Over every interleaving, at every moment: routing is active exactly when
   settings are remembered, and a session owns the controller only while routing
   is active or its own enable is still in flight.
   */
  lemma OwnershipNeverSticks(states: seq<System>, actions: seq<Action>, now: nat, n: nat)
    requires Boots(states, actions, now) && n < |states|
    ensures states[n].daemon.routingActive <==> states[n].daemon.routingConfig.Some?
    ensures forall session :: states[n].daemon.activeSession == Some(session) ==>
              states[n].daemon.routingActive || Enabling(states[n], session)
  {
    RunsKeepOwnership(states, actions, now, n);
  }

  // ----- the deadman switch under every interleaving

  /** The action writes the heartbeat instant. */
  ghost predicate Refreshes(s: System, a: Action) {
    match a
    case ClaimSection(session, _, now) => Claim(s.daemon, session, now).Some?
    case CommitEnableSection(_, _) => true
    case HeartbeatSection(session, _) => HeartbeatAllowed(s.daemon, session)
    case _ => false
  }

  lemma TakeWithoutRefresh(s: System, a: Action)
    requires CanTake(s, a) && !Refreshes(s, a)
    ensures Take(s, a).daemon.lastHeartbeat == s.daemon.lastHeartbeat
    ensures Take(s, a).daemon.routingActive ==> s.daemon.routingActive && !a.CommitRollbackSection?
  {
  }

  ghost predicate SilentFrom(states: seq<System>, actions: seq<Action>, from: nat)
    requires Trace(states, actions)
  {
    forall i | from <= i < |actions| :: !Refreshes(states[i], actions[i])
  }

  lemma {:induction false} SilenceFreezes(states: seq<System>, actions: seq<Action>, from: nat, m: nat, n: nat)
    requires Trace(states, actions) && SilentFrom(states, actions, from) && from <= m <= n < |states|
    ensures states[n].daemon.lastHeartbeat == states[m].daemon.lastHeartbeat
    ensures states[n].daemon.routingActive ==>
              states[m].daemon.routingActive && forall i | m <= i < n :: !actions[i].CommitRollbackSection?
    decreases n
  {
    if m < n {
      hide CanTake, Take, Refreshes;
      SilenceFreezes(states, actions, from, m, n - 1);
      TakeWithoutRefresh(states[n - 1], actions[n - 1]);
      assert states[n - 1 + 1] == Take(states[n - 1], actions[n - 1]);
    }
  }

  /**
   Once nothing refreshes the deadline, whatever overlaps with whatever: a look of
   the watchdog past the deadline finds routing off or goes to roll it back, and
   from that rollback's commit on, or anybody else's, routing stays off.
   */
  lemma SilenceEndsRoutingAnyway(states: seq<System>, actions: seq<Action>, from: nat, look: nat, n: nat)
    requires Trace(states, actions) && SilentFrom(states, actions, from) && from <= look < |actions| && n < |states|
    requires actions[look].CheckDeadline?
    requires actions[look].now > states[from].daemon.lastHeartbeat + WATCHDOG_TIMEOUT
    ensures !states[look].daemon.routingActive || At(states[look + 1], Watchdog, MustRollBack)
    ensures !states[look].daemon.routingActive && look <= n ==> !states[n].daemon.routingActive
    ensures forall commit | from <= commit < n && actions[commit].CommitRollbackSection? ::
              !states[n].daemon.routingActive
  {
    SilenceFreezes(states, actions, from, from, look);
    if look <= n {
      SilenceFreezes(states, actions, from, look, n);
    }
    if from <= n {
      SilenceFreezes(states, actions, from, from, n);
    }
    assert states[look + 1] == Take(states[look], actions[look]);
  }

  // ----- nothing else ends routing

  /** A look changes nothing unless it finds active routing whose heartbeat is older than the timeout. */
  lemma LooksSpareTheFresh(s: System, now: nat)
    requires CanTake(s, CheckDeadline(now))
    ensures Take(s, CheckDeadline(now))
         == if !s.daemon.routingActive || now <= s.daemon.lastHeartbeat + WATCHDOG_TIMEOUT then s
            else Move(s, Watchdog, MustRollBack)
  {
  }

  ghost predicate RollingBack(s: System, t: Task) {
    t in s.places && (s.places[t].MustRollBack? || s.places[t].Disabling? || s.places[t].Disabled?)
  }

  /** Why a task starts to roll back: a late look, a request, or the owner of active routing closing. */
  ghost predicate Reason(s: System, a: Action, t: Task) {
    match a
    case CheckDeadline(now) =>
      t == Watchdog && s.daemon.routingActive && now > s.daemon.lastHeartbeat + WATCHDOG_TIMEOUT
    case AskDisable(session) => t == Connection(session)
    case CheckOwnership(session) =>
      t == Connection(session) && s.daemon.routingActive && s.daemon.activeSession == Some(session)
    case _ => false
  }

  lemma RollbacksStartForAReason(s: System, a: Action, t: Task)
    requires CanTake(s, a) && RollingBack(Take(s, a), t)
    ensures RollingBack(s, t) || Reason(s, a, t)
  {
  }

  lemma OnlyRollbacksEndRouting(s: System, a: Action)
    requires CanTake(s, a)
    ensures s.daemon.routingActive && !Take(s, a).daemon.routingActive ==>
              a.CommitRollbackSection? && RollingBack(s, a.task)
  {
  }

  lemma {:induction false} RollbackHadAReason(states: seq<System>, actions: seq<Action>, now: nat, t: Task, n: nat)
    returns (j: nat)
    requires Boots(states, actions, now) && n < |states| && RollingBack(states[n], t)
    ensures j < n && Reason(states[j], actions[j], t) && forall m | j < m <= n :: RollingBack(states[m], t)
    decreases n
  {
    assert n != 0;
    assert states[n - 1 + 1] == Take(states[n - 1], actions[n - 1]);
    RollbacksStartForAReason(states[n - 1], actions[n - 1], t);
    hide CanTake, Take, RollingBack, Reason;
    if RollingBack(states[n - 1], t) {
      j := RollbackHadAReason(states, actions, now, t, n - 1);
    } else {
      j := n - 1;
    }
  }

  /**
   Whatever overlaps with whatever, active routing ends only in the commit of a
   rollback, and the task that commits went to it, and has been at it since, because a
   look found the heartbeat too old, because its session asked for it, or because its
   session owned active routing and closed.
   */
  lemma {:induction false} RoutingEndsForAReason(states: seq<System>, actions: seq<Action>, now: nat, m: nat, n: nat)
    returns (j: nat, k: nat)
    requires Boots(states, actions, now) && m < n < |states|
    requires states[m].daemon.routingActive && !states[n].daemon.routingActive
    ensures m <= k < n && j < k && actions[k].CommitRollbackSection? && states[k].daemon.routingActive
    ensures Reason(states[j], actions[j], actions[k].task)
    ensures forall i | j < i <= k :: RollingBack(states[i], actions[k].task)
    decreases n
  {
    hide CanTake, Take, RollingBack, Reason;
    if states[n - 1].daemon.routingActive {
      k := n - 1;
      assert states[k + 1] == Take(states[k], actions[k]);
      OnlyRollbacksEndRouting(states[k], actions[k]);
      j := RollbackHadAReason(states, actions, now, actions[k].task, k);
    } else {
      j, k := RoutingEndsForAReason(states, actions, now, m, n - 1);
    }
  }
}
