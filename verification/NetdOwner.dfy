/**
 How active routing comes to be without an owner: nobody's heartbeat can then keep
 it alive, and it lasts until somebody claims it or a rollback takes it down.
 */
module NetdOwner {
  import opened Wrappers
  import opened Netd
  import opened NetdInterleaving
  import opened NetdWindows

  ghost predicate Ownerless(s: System) {
    s.daemon.routingActive && s.daemon.activeSession.None?
  }

  /** The owner gives up its slot while routing stays. */
  ghost predicate GivesUp(s: System, a: Action) {
    a.ReleaseSection? && s.daemon.routingActive && s.daemon.activeSession == Some(a.session)
  }

  /** An enable is committed although the slot it was claimed in has been emptied. */
  ghost predicate CommitsUnowned(s: System, a: Action) {
    a.CommitEnableSection? && s.daemon.activeSession.None?
  }

  /** What ends it. */
  predicate Settles(a: Action) {
    a.ClaimSection? || a.CommitRollbackSection?
  }

  lemma StepsToOwnerless(s: System, a: Action)
    requires CanTake(s, a)
    ensures Ownerless(Take(s, a)) <==> GivesUp(s, a) || CommitsUnowned(s, a) || (Ownerless(s) && !Settles(a))
  {
  }

  ghost predicate Orphans(s: System, a: Action) {
    GivesUp(s, a) || CommitsUnowned(s, a)
  }

  /** The owner was lost at `i`, and nothing has settled it before `n`. */
  ghost predicate OrphanedAt(states: seq<System>, actions: seq<Action>, i: nat, n: nat)
    requires Trace(states, actions)
  {
    i < n <= |actions| && Orphans(states[i], actions[i]) && forall m | i < m < n :: !Settles(actions[m])
  }

  lemma {:induction false} OrphanedBy(states: seq<System>, actions: seq<Action>, now: nat, n: nat) returns (i: nat)
    requires Boots(states, actions, now) && n < |states| && Ownerless(states[n])
    ensures OrphanedAt(states, actions, i, n)
  {
    assert n != 0;
    StepsToOwnerless(states[n - 1], actions[n - 1]);
    assert states[n - 1 + 1] == Take(states[n - 1], actions[n - 1]);
    hide CanTake, Take, Settles, Orphans, Ownerless;
    if Orphans(states[n - 1], actions[n - 1]) {
      i := n - 1;
    } else {
      i := OrphanedBy(states, actions, now, n - 1);
    }
  }

  lemma {:induction false} OrphansStay(states: seq<System>, actions: seq<Action>, i: nat, n: nat)
    requires Trace(states, actions) && OrphanedAt(states, actions, i, n)
    ensures Ownerless(states[n])
    decreases n
  {
    StepsToOwnerless(states[n - 1], actions[n - 1]);
    assert states[n - 1 + 1] == Take(states[n - 1], actions[n - 1]);
    hide CanTake, Take, Settles, Ownerless;
    if i < n - 1 {
      OrphansStay(states, actions, i, n - 1);
    }
  }

  /**
   Under every interleaving, at every moment: routing is active without an owner
   exactly when its owner gave up the slot under it, or an enable was committed into
   an emptied slot, and nobody has claimed it and no rollback has been committed since.
   */
  lemma OwnerlessExactly(states: seq<System>, actions: seq<Action>, now: nat, n: nat)
    requires Boots(states, actions, now) && n < |states|
    ensures Ownerless(states[n]) <==> exists i :: OrphanedAt(states, actions, i, n)
  {
    hide CanTake, Take, Ownerless, OrphanedAt;
    if Ownerless(states[n]) {
      var i := OrphanedBy(states, actions, now, n);
    } else if exists i :: OrphanedAt(states, actions, i, n) {
      var i :| OrphanedAt(states, actions, i, n);
      OrphansStay(states, actions, i, n);
    }
  }

  // ----- what the two ways amount to, in actions

  /** While its request lasts a session keeps the slot it was granted, unless a rollback empties it. */
  lemma SlotIsKept(s: System, a: Action, session: nat)
    requires CanTake(s, a) && Enabling(s, session) && s.daemon.activeSession == Some(session)
    ensures Take(s, a).daemon.activeSession == Some(session)
         || a.CommitRollbackSection? || (a.ReleaseSection? && a.session == session)
  {
  }

  lemma RequestsBeginWithAClaim(s: System, a: Action, session: nat)
    requires CanTake(s, a) && Enabling(Take(s, a), session)
    ensures Enabling(s, session) || (a.ClaimSection? && a.session == session)
    ensures !Enabling(s, session) ==> Take(s, a).daemon.activeSession == Some(session)
    ensures Enabling(s, session) ==> !a.ClaimSection? || a.session != session
    ensures Enabling(s, session) ==> !a.ReleaseSection? || a.session != session
  {
  }

  /** The claim `c` of the request session has at `n`, and the slot since. */
  lemma {:induction false} ClaimedSince(states: seq<System>, actions: seq<Action>, now: nat, session: nat, n: nat)
    returns (c: nat)
    requires Boots(states, actions, now) && n < |states| && Enabling(states[n], session)
    ensures c < n && actions[c].ClaimSection? && actions[c].session == session
    ensures forall m | c < m <= n :: Enabling(states[m], session)
    ensures states[n].daemon.activeSession == Some(session)
         || exists r :: c < r < n && actions[r].CommitRollbackSection?
  {
    assert n != 0;
    var s, a := states[n - 1], actions[n - 1];
    assert states[n - 1 + 1] == Take(s, a);
    RequestsBeginWithAClaim(s, a, session);
    if Enabling(s, session) && s.daemon.activeSession == Some(session) {
      SlotIsKept(s, a, session);
    }
    hide CanTake, Take, Enabling;
    if !Enabling(s, session) {
      c := n - 1;
    } else {
      c := ClaimedSince(states, actions, now, session, n - 1);
    }
  }

  /** An enable is committed unowned only when a rollback was committed between its claim and its commit. */
  lemma UnownedCommitFollowsARollback(states: seq<System>, actions: seq<Action>, now: nat, i: nat)
    returns (c: nat, r: nat)
    requires Boots(states, actions, now) && i < |actions| && CommitsUnowned(states[i], actions[i])
    ensures c < r < i && actions[c].ClaimSection? && actions[c].session == actions[i].session
    ensures actions[r].CommitRollbackSection?
    ensures forall m | c < m <= i :: Enabling(states[m], actions[i].session)
  {
    c := ClaimedSince(states, actions, now, actions[i].session, i);
    r :| c < r < i && actions[r].CommitRollbackSection?;
  }

  /** A closing connection that skips the rollback owns nothing. */
  ghost predicate ClosersDoNotOwn(s: System) {
    forall session: nat :: At(s, Connection(session), Releasing) ==> s.daemon.activeSession != Some(session)
  }

  lemma TakeKeepsClosers(s: System, a: Action)
    requires CanTake(s, a) && Owned(s) && ClosersDoNotOwn(s)
    ensures ClosersDoNotOwn(Take(s, a))
  {
  }

  lemma {:induction false} RunsKeepClosers(states: seq<System>, actions: seq<Action>, now: nat, n: nat)
    requires Boots(states, actions, now) && n < |states|
    ensures ClosersDoNotOwn(states[n])
  {
    if n == 0 {
    } else {
      hide CanTake, Take, ClosersDoNotOwn;
      RunsKeepClosers(states, actions, now, n - 1);
      RunsKeepOwnership(states, actions, now, n - 1);
      TakeKeepsClosers(states[n - 1], actions[n - 1]);
      assert states[n - 1 + 1] == Take(states[n - 1], actions[n - 1]);
    }
  }

  lemma FailuresComeFromCalls(s: System, a: Action, session: nat)
    requires CanTake(s, a) && At(Take(s, a), Connection(session), EnableFailed)
    ensures At(s, Connection(session), EnableFailed) || a == CallEnable(session, false)
  {
  }

  lemma {:induction false} FailedAt(states: seq<System>, actions: seq<Action>, now: nat, session: nat, n: nat)
    returns (f: nat)
    requires Boots(states, actions, now) && n < |states| && At(states[n], Connection(session), EnableFailed)
    ensures f < n && actions[f] == CallEnable(session, false)
    ensures forall m | f < m <= n :: At(states[m], Connection(session), EnableFailed)
  {
    assert n != 0;
    FailuresComeFromCalls(states[n - 1], actions[n - 1], session);
    assert states[n - 1 + 1] == Take(states[n - 1], actions[n - 1]);
    hide CanTake, Take, At;
    if At(states[n - 1], Connection(session), EnableFailed) {
      f := FailedAt(states, actions, now, session, n - 1);
    } else {
      f := n - 1;
    }
  }

  /** An owner gives up active routing only because the backend has just refused its own further enable. */
  lemma GivingUpFollowsAFailedEnable(states: seq<System>, actions: seq<Action>, now: nat, i: nat) returns (f: nat)
    requires Boots(states, actions, now) && i < |actions| && GivesUp(states[i], actions[i])
    ensures f < i && actions[f] == CallEnable(actions[i].session, false)
    ensures forall m | f < m <= i :: At(states[m], Connection(actions[i].session), EnableFailed)
  {
    RunsKeepClosers(states, actions, now, i);
    f := FailedAt(states, actions, now, actions[i].session, i);
  }

  // ----- one run for each way

  /** The backend refuses the owner's second enable. */
  lemma OwnerGivesUp(config: RoutingConfig) returns (states: seq<System>, actions: seq<Action>)
    ensures Boots(states, actions, 0) && |actions| > 0
    ensures GivesUp(states[|actions| - 1], actions[|actions| - 1])
    ensures forall t | t in states[|actions|].places :: states[|actions|].places[t] == Idle
    ensures Ownerless(states[|actions|])
    ensures states[|actions|].installed == states[|actions|].daemon.routingConfig == Some(config)
  {
    states, actions := [Boot(0)], [];
    states, actions := ExtendBy(states, actions, Accept(1));
    states, actions := ExtendByEnable(states, actions, 1, config, 0);
    states, actions := ExtendBy(states, actions, ClaimSection(1, config, 0));
    states, actions := ExtendBy(states, actions, CallEnable(1, false));
    states, actions := ExtendBy(states, actions, ReleaseSection(1));
  }

  /** No backend call fails: another session's rollback is committed between a claim and its commit. */
  lemma RollbackEmptiesTheSlot(config: RoutingConfig) returns (states: seq<System>, actions: seq<Action>)
    ensures Boots(states, actions, 0) && |actions| > 0
    ensures forall a | a in actions :: (a.CallEnable? || a.CallDisable?) ==> a.ok
    ensures CommitsUnowned(states[|actions| - 1], actions[|actions| - 1])
    ensures forall t | t in states[|actions|].places :: states[|actions|].places[t] == Idle
    ensures Ownerless(states[|actions|])
    ensures states[|actions|].installed == states[|actions|].daemon.routingConfig == Some(config)
  {
    states, actions := [Boot(0)], [];
    states, actions := ExtendBy(states, actions, Accept(1));
    states, actions := ExtendBy(states, actions, ClaimSection(1, config, 0));
    assert states[2].places == map[Watchdog := Idle, Connection(1) := Claimed(config)];
    hide CanTake, Take;
    states, actions := ExtendByDisable(states, actions, 2);
    states, actions := ExtendByLateEnable(states, actions, 1, 2, config);
  }

  /** The rollback is committed, and only then the claimed enable is carried out. */
  lemma ExtendByLateEnable(states: seq<System>, actions: seq<Action>, session: nat, other: nat, config: RoutingConfig)
    returns (longer: seq<System>, more: seq<Action>)
    requires Trace(states, actions) && session != other && Connection(other) !in states[|actions|].leaving
    requires At(states[|actions|], Connection(session), Claimed(config))
    requires At(states[|actions|], Connection(other), Disabled)
    ensures Trace(longer, more) && longer[0] == states[0]
    ensures more == actions + [CommitRollbackSection(Connection(other)), CallEnable(session, true),
                               CommitEnableSection(session, 1)]
    ensures CommitsUnowned(longer[|more| - 1], more[|more| - 1])
    ensures longer[|more|] == states[|actions|].(installed := Some(config),
              daemon := DaemonState(None, true, 1, Some(config)),
              places := states[|actions|].places[Connection(session) := Idle][Connection(other) := Idle])
  {
    longer, more := ExtendBy(states, actions, CommitRollbackSection(Connection(other)));
    longer, more := ExtendBy(longer, more, CallEnable(session, true));
    longer, more := ExtendBy(longer, more, CommitEnableSection(session, 1));
    assert longer[|more|].places
        == states[|actions|].places[Connection(session) := Idle][Connection(other) := Idle];
  }

  lemma ExtendBy(states: seq<System>, actions: seq<Action>, a: Action)
    returns (longer: seq<System>, more: seq<Action>)
    requires Trace(states, actions) && CanTake(states[|actions|], a)
    ensures Trace(longer, more) && longer[0] == states[0] && more == actions + [a]
    ensures longer == states + [Take(states[|actions|], a)]
  {
    longer, more := states + [Take(states[|actions|], a)], actions + [a];
    Extend(states, actions, a);
    hide CanTake, Take;
  }
}
