/**
 When a degraded controller has an active node after all, and when a manual switch
 is overridden: the exact interleavings, and runs that reach them.
 */
module WatchdogFlag {
  import opened Wrappers
  import opened Shortlist
  import opened Watchdog
  import opened WatchdogEvidence
  import opened WatchdogShared
  import opened WatchdogWitness

  predicate NamesNode(a: Turn) {
    a.Activate? || a.Forget?
  }

  predicate SetsFlag(a: Turn) {
    a.Clear? || a.Raise?
  }

  ghost predicate LastNaming(actions: seq<Turn>, i: nat) {
    i < |actions| && NamesNode(actions[i]) && forall m | i < m < |actions| :: !NamesNode(actions[m])
  }

  ghost predicate LastFlag(actions: seq<Turn>, i: nat) {
    i < |actions| && SetsFlag(actions[i]) && forall m | i < m < |actions| :: !SetsFlag(actions[m])
  }

  ghost predicate AtRest(s: System) {
    forall t :: PlaceOf(s, t) == Free
  }

  // ----- one action

  lemma OnlyNamingsName(s: System, judge: Judge, a: Turn)
    requires CanTake(s, a)
    ensures var after := Take(s, judge, a).controller.active;
            && (!NamesNode(a) ==> after == s.controller.active)
            && (NamesNode(a) ==> (after.Some? <==> a.Activate?))
  {
  }

  lemma OnlyFlagsFlag(s: System, judge: Judge, a: Turn)
    requires CanTake(s, a)
    ensures Take(s, judge, a).controller.degraded == if SetsFlag(a) then a.Raise? else s.controller.degraded
  {
  }

  predicate Unfinished(p: Place) {
    p.Activated? || p.Stamped?
  }

  /** A switch that has named its node is unfinished until it clears the flag. */
  lemma SwitchesFinishByClearing(s: System, judge: Judge, a: Turn, t: Thread)
    requires CanTake(s, a) && (s.phase != Resting ==> PlaceOf(s, Dog) == Free)
    ensures a == Activate(t, a.now) ==> Unfinished(PlaceOf(Take(s, judge, a), t))
    ensures Unfinished(PlaceOf(s, t)) && a != Clear(t, a.now) ==> Unfinished(PlaceOf(Take(s, judge, a), t))
  {
  }

  /** The flag is raised by a thread that has forgotten the node just before. */
  lemma RaisersForgot(s: System, judge: Judge, a: Turn, t: Thread)
    requires CanTake(s, a)
    ensures a == Raise(t, a.now) ==> PlaceOf(s, t) == Forgotten
    ensures PlaceOf(Take(s, judge, a), t) == Forgotten ==> a == Forget(t, a.now) || PlaceOf(s, t) == Forgotten
    ensures PlaceOf(Take(s, judge, a), t) == Forgotten ==> a != Raise(t, a.now)
  {
  }

  // ----- runs

  lemma {:induction false} NamedAfter(states: seq<System>, actions: seq<Turn>, judge: Judge, i: nat, n: nat)
    requires Trace(states, actions, judge)
    requires i < n <= |actions| && NamesNode(actions[i])
    requires forall m | i < m < n :: !NamesNode(actions[m])
    ensures states[n].controller.active.Some? <==> actions[i].Activate?
    decreases n
  {
    hide CanTake, Take, NamesNode;
    OnlyNamingsName(states[n - 1], judge, actions[n - 1]);
    assert states[n - 1 + 1] == Take(states[n - 1], judge, actions[n - 1]);
    if i < n - 1 {
      NamedAfter(states, actions, judge, i, n - 1);
    }
  }

  lemma {:induction false} FlaggedAfter(states: seq<System>, actions: seq<Turn>, judge: Judge, i: nat, n: nat)
    requires Trace(states, actions, judge) && i < n <= |actions| && SetsFlag(actions[i])
    requires forall m | i < m < n :: !SetsFlag(actions[m])
    ensures states[n].controller.degraded <==> actions[i].Raise?
    decreases n
  {
    hide CanTake, Take, SetsFlag;
    OnlyFlagsFlag(states[n - 1], judge, actions[n - 1]);
    assert states[n - 1 + 1] == Take(states[n - 1], judge, actions[n - 1]);
    if i < n - 1 {
      FlaggedAfter(states, actions, judge, i, n - 1);
    }
  }

  /** What is set was set by some action, and there is a last one. */
  lemma {:induction false} NodeWasNamed(states: seq<System>, actions: seq<Turn>, judge: Judge, start: nat, n: nat)
    returns (i: nat)
    requires Boots(states, actions, judge, start)
    requires n < |states| && states[n].controller.active.Some?
    ensures i < n && actions[i].Activate? && forall m | i < m < n :: !NamesNode(actions[m])
    decreases n
  {
    assert n != 0;
    OnlyNamingsName(states[n - 1], judge, actions[n - 1]);
    assert states[n - 1 + 1] == Take(states[n - 1], judge, actions[n - 1]);
    hide CanTake, Take;
    if NamesNode(actions[n - 1]) {
      i := n - 1;
    } else {
      i := NodeWasNamed(states, actions, judge, start, n - 1);
    }
  }

  lemma {:induction false} FlagWasRaised(states: seq<System>, actions: seq<Turn>, judge: Judge, start: nat, n: nat)
    returns (i: nat)
    requires Boots(states, actions, judge, start)
    requires n < |states| && states[n].controller.degraded
    ensures i < n && actions[i].Raise? && forall m | i < m < n :: !SetsFlag(actions[m])
    decreases n
  {
    assert n != 0;
    OnlyFlagsFlag(states[n - 1], judge, actions[n - 1]);
    assert states[n - 1 + 1] == Take(states[n - 1], judge, actions[n - 1]);
    hide CanTake, Take;
    if SetsFlag(actions[n - 1]) {
      i := n - 1;
    } else {
      i := FlagWasRaised(states, actions, judge, start, n - 1);
    }
  }

  /** Either the switch that activated at `i` has cleared the flag before `n`, or it is still at it. */
  lemma {:induction false} ClearedOrUnfinished(states: seq<System>, actions: seq<Turn>, judge: Judge, start: nat,
                                               i: nat, n: nat) returns (j: nat)
    requires Boots(states, actions, judge, start)
    requires i < n < |states| && actions[i].Activate?
    ensures || Unfinished(PlaceOf(states[n], actions[i].thread))
            || (i < j < n && actions[j] == Clear(actions[i].thread, actions[j].now))
    decreases n
  {
    var t := actions[i].thread;
    j := 0;
    hide CanTake, Take, Unfinished, PlaceOf, Boot;
    DogIsFreeMeanwhile(states, actions, judge, start, n - 1);
    SwitchesFinishByClearing(states[n - 1], judge, actions[n - 1], t);
    assert states[n - 1 + 1] == Take(states[n - 1], judge, actions[n - 1]);
    if i < n - 1 {
      j := ClearedOrUnfinished(states, actions, judge, start, i, n - 1);
      if Unfinished(PlaceOf(states[n - 1], t)) && actions[n - 1] == Clear(t, actions[n - 1].now) {
        j := n - 1;
      }
    }
  }

  /** Before the flag is raised, the same thread forgets the node. */
  lemma {:induction false} ForgotBefore(states: seq<System>, actions: seq<Turn>, judge: Judge, start: nat,
                                        t: Thread, n: nat) returns (d: nat)
    requires Boots(states, actions, judge, start)
    requires n < |states| && PlaceOf(states[n], t) == Forgotten
    ensures d < n && actions[d] == Forget(t, actions[d].now)
    ensures forall m | d < m < n :: actions[m] != Raise(t, actions[m].now)
    decreases n
  {
    hide CanTake, Take;
    assert n != 0;
    RaisersForgot(states[n - 1], judge, actions[n - 1], t);
    assert states[n - 1 + 1] == Take(states[n - 1], judge, actions[n - 1]);
    if actions[n - 1] == Forget(t, actions[n - 1].now) {
      d := n - 1;
    } else {
      d := ForgotBefore(states, actions, judge, start, t, n - 1);
    }
  }

  /**
   A degrade forgets the node at `d` and raises the flag at `e`; in between, another
   thread's whole switch names a node at `i` and clears the flag at `j`; and nothing
   names a node or sets the flag afterwards.
   */
  ghost predicate SwitchedInside(actions: seq<Turn>, d: nat, i: nat, j: nat, e: nat) {
    && d < i < j < e < |actions|
    && actions[d].Forget? && actions[e] == Raise(actions[d].thread, actions[e].now)
    && (forall m | d < m < e :: actions[m] != Raise(actions[d].thread, actions[m].now))
    && actions[i].Activate? && actions[j] == Clear(actions[i].thread, actions[j].now)
    && LastNaming(actions, i) && LastFlag(actions, e)
  }

  lemma SwitchIsInside(states: seq<System>, actions: seq<Turn>, judge: Judge, start: nat)
    returns (d: nat, i: nat, j: nat, e: nat)
    requires Boots(states, actions, judge, start) && AtRest(states[|actions|])
    requires states[|actions|].controller.degraded && states[|actions|].controller.active.Some?
    ensures SwitchedInside(actions, d, i, j, e)
  {
    hide CanTake, Take;
    i := NodeWasNamed(states, actions, judge, start, |actions|);
    e := FlagWasRaised(states, actions, judge, start, |actions|);
    RaisersForgot(states[e], judge, actions[e], actions[e].thread);
    d := ForgotBefore(states, actions, judge, start, actions[e].thread, e);
    j := ClearedOrUnfinished(states, actions, judge, start, i, |actions|);
  }

  /**
   At rest, a degraded controller has an active node exactly when a whole switch fell
   between the two writes of the last degrade, and was the last to name a node.
   */
  lemma DegradedWithANodeExactly(states: seq<System>, actions: seq<Turn>, judge: Judge, start: nat)
    requires Boots(states, actions, judge, start) && AtRest(states[|actions|])
    ensures states[|actions|].controller.degraded && states[|actions|].controller.active.Some? <==>
            exists d, i, j, e :: SwitchedInside(actions, d, i, j, e)
  {
    if states[|actions|].controller.degraded && states[|actions|].controller.active.Some? {
      var d, i, j, e := SwitchIsInside(states, actions, judge, start);
    } else if exists d, i, j, e :: SwitchedInside(actions, d, i, j, e) {
      var d, i, j, e :| SwitchedInside(actions, d, i, j, e);
      hide CanTake, Take;
      NamedAfter(states, actions, judge, i, |actions|);
      FlaggedAfter(states, actions, judge, e, |actions|);
    }
  }

  // ----- runs that get there

  lemma Extend(states: seq<System>, actions: seq<Turn>, judge: Judge, a: Turn)
    returns (longer: seq<System>, more: seq<Turn>)
    requires Trace(states, actions, judge) && CanTake(states[|actions|], a)
    ensures Trace(longer, more, judge) && more == actions + [a]
    ensures longer == states + [Take(states[|actions|], judge, a)]
  {
    longer, more := states + [Take(states[|actions|], judge, a)], actions + [a];
    hide CanTake, Take;
  }

  /** A user's whole switch, nobody in between. */
  lemma ExtendBySwitch(states: seq<System>, actions: seq<Turn>, judge: Judge, user: nat, node: Node, at: nat)
    returns (longer: seq<System>, more: seq<Turn>)
    requires Trace(states, actions, judge)
    requires states[|actions|].clock <= at && Unlocked(states[|actions|])
    requires PlaceOf(states[|actions|], User(user)) == Free
    ensures Trace(longer, more, judge) && longer[0] == states[0] && |more| == |actions| + 4
    ensures more[..|actions|] == actions && more[|actions| + 2] == StampIt(User(user), at)
    ensures var s := states[|actions|];
            longer[|more|] == s.(controller := Controller(Some(node), false, s.controller.lastAuto, Some(at)),
                                 core := Some(node), places := s.places[User(user) := Free], clock := at)
  {
    var t := User(user);
    longer, more := Extend(states, actions, judge, Enter(user, node, at));
    longer, more := Extend(longer, more, judge, Activate(t, at));
    longer, more := Extend(longer, more, judge, StampIt(t, at));
    longer, more := Extend(longer, more, judge, Clear(t, at));
    assert longer[|more|].places == states[|actions|].places[t := Free];
  }

  /** The four reads of a cycle, nobody in between. */
  lemma ExtendByReads(states: seq<System>, actions: seq<Turn>, judge: Judge, env: Env, at: nat)
    returns (longer: seq<System>, more: seq<Turn>)
    requires Trace(states, actions, judge)
    requires env.startedAt == env.probedAt == at && states[|actions|].clock <= at
    requires states[|actions|].phase == Resting && PlaceOf(states[|actions|], Dog) == Free
    ensures Trace(longer, more, judge) && longer[0] == states[0] && |more| == |actions| + 4
    ensures more[..|actions|] == actions && more[|actions| + 2] == ReadManual(at)
    ensures var s := states[|actions|];
            longer[|more|] == s.(phase := Ready(env, s.controller, judge(s.controller, s.status, env)),
                                 clock := at)
  {
    longer, more := Extend(states, actions, judge, ReadActive(env, at));
    longer, more := Extend(longer, more, judge, ReadFlag(at));
    longer, more := Extend(longer, more, judge, ReadManual(at));
    longer, more := Extend(longer, more, judge, ReadAuto(at));
  }

  lemma ExtendByIdleAct(states: seq<System>, actions: seq<Turn>, judge: Judge, at: nat)
    returns (longer: seq<System>, more: seq<Turn>)
    requires Trace(states, actions, judge)
    requires var s := states[|actions|];
             && s.phase.Ready? && s.phase.env.switchedAt <= at && s.clock <= at && PlaceOf(s, Dog) == Free
             && !Acts(s.phase.decision)
    ensures Trace(longer, more, judge) && longer[0] == states[0]
    ensures var s := states[|actions|];
            longer[|more|] == s.(phase := Resting, status := s.phase.decision.world.status, clock := at)
  {
    longer, more := Extend(states, actions, judge, Act(at));
  }

  /** `k` cycles in which the active node's probe fails, too few to act on. */
  lemma {:induction false} ExtendByFailures(states: seq<System>, actions: seq<Turn>, config: Config, node: Node,
                                            at: nat, k: nat)
    returns (longer: seq<System>, more: seq<Turn>)
    requires Trace(states, actions, Verdicts(config))
    requires var s := states[|actions|];
             && s.clock <= at && s.phase == Resting && PlaceOf(s, Dog) == Free
             && s.controller.active.Some? && !s.controller.degraded && s.status.failures + k < config.requiredFailures
             && LongSince(s.controller.lastManual, at, config.manualWindow)
    ensures Trace(longer, more, Verdicts(config)) && longer[0] == states[0]
    ensures var s, t := states[|actions|], longer[|more|];
            t == s.(status := t.status, clock := t.clock) && t.status.failures == s.status.failures + k && t.clock <= at
    decreases k
  {
    longer, more := states, actions;
    if k == 0 {
    } else {
      var judge, env, s := Verdicts(config), Blackout(node, at), states[|actions|];
      longer, more := ExtendByReads(longer, more, judge, env, at);
      TooFewFailures(World(s.controller, s.status), config, node, at);
      hide Cycle, Verdicts, CanTake, Take;
      longer, more := ExtendByIdleAct(longer, more, judge, at);
      longer, more := ExtendByFailures(longer, more, config, node, at, k - 1);
    }
  }

  lemma TooFewFailures(w: World, config: Config, node: Node, at: nat)
    requires !w.controller.degraded && w.controller.active.Some?
    requires w.status.failures + 1 < config.requiredFailures
    requires LongSince(w.controller.lastManual, at, config.manualWindow)
    ensures var o := Cycle(w, config, Blackout(node, at));
            !Acts(o) && o.world.status.failures == w.status.failures + 1
  {
    CalmCycles(w, config, Blackout(node, at));
    hide Cycle;
  }

  /** A cycle about to give up on a node the user chose a whole courtesy window ago, whatever is configured. */
  lemma ReadyToDegrade(config: Config, active: Node)
    returns (states: seq<System>, actions: seq<Turn>)
    ensures Boots(states, actions, Verdicts(config), 0) && |actions| >= 2
    ensures actions[|actions| - 2] == ReadManual(config.manualWindow)
    ensures var s, at := states[|actions|], config.manualWindow;
            && s.phase.Ready? && s.phase.env.switchedAt == at && s.clock == at
            && s.places == map[User(0) := Free] && s.controller == Controller(Some(active), false, None, Some(0))
            && s.phase.decision.degradeCalled && s.phase.decision.switchedTo.None?
  {
    var judge, at := Verdicts(config), config.manualWindow;
    states, actions := [Boot(0)], [];
    states, actions := ExtendBySwitch(states, actions, judge, 0, active, 0);
    hide Cycle, Verdicts, CanTake, Take;
    if config.requiredFailures > 0 {
      states, actions := ExtendByFailures(states, actions, config, active, at, config.requiredFailures - 1);
    }
    var s := states[|actions|];
    BlackoutIsReadAs(World(s.controller, s.status), config, active, at);
    states, actions := ExtendByReads(states, actions, judge, Blackout(active, at), at);
    VerdictOf(s.controller, s.status, Blackout(active, at), config);
  }

  lemma VerdictOf(seen: Controller, status: Status, env: Env, config: Config)
    ensures Verdicts(config)(seen, status, env) == Cycle(World(seen, status), config, env)
  {
    hide Cycle;
  }

  lemma BlackoutIsReadAs(w: World, config: Config, node: Node, at: nat)
    requires w.controller.active.Some? && !w.controller.degraded && w.status.failures + 1 >= config.requiredFailures
    requires w.controller.lastManual == Some(0) && w.controller.lastAuto == None && at == config.manualWindow
    ensures Cycle(w, config, Blackout(node, at)).degradeCalled
    ensures Cycle(w, config, Blackout(node, at)).switchedTo.None?
  {
    assert Escalates(w, config, Blackout(node, at));
    hide Cycle;
    BlackoutDegrades(w, config, node, at);
  }

  lemma ExtendByDecision(states: seq<System>, actions: seq<Turn>, judge: Judge, at: nat)
    returns (longer: seq<System>, more: seq<Turn>)
    requires Trace(states, actions, judge)
    requires var s := states[|actions|];
             && s.phase.Ready? && s.phase.env.switchedAt <= at && s.clock <= at && PlaceOf(s, Dog) == Free
             && Unlocked(s) && s.phase.decision.degradeCalled && s.phase.decision.switchedTo.None?
    ensures Trace(longer, more, judge) && more == actions + [Act(at)]
    ensures var s := states[|actions|];
            longer == states + [s.(phase := Resting, status := s.phase.decision.world.status,
                                   core := None, places := s.places[Dog := Degrading], clock := at)]
  {
    longer, more := Extend(states, actions, judge, Act(at));
  }

  lemma ExtendByForget(states: seq<System>, actions: seq<Turn>, judge: Judge, at: nat)
    returns (longer: seq<System>, more: seq<Turn>)
    requires Trace(states, actions, judge)
    requires PlaceOf(states[|actions|], Dog) == Degrading && states[|actions|].clock <= at
    ensures Trace(longer, more, judge) && more == actions + [Forget(Dog, at)]
    ensures var s := states[|actions|];
            longer == states + [s.(controller := s.controller.(active := None),
                                   places := s.places[Dog := Forgotten], clock := at)]
  {
    longer, more := Extend(states, actions, judge, Forget(Dog, at));
  }

  lemma ExtendByRaise(states: seq<System>, actions: seq<Turn>, judge: Judge, at: nat)
    returns (longer: seq<System>, more: seq<Turn>)
    requires Trace(states, actions, judge)
    requires PlaceOf(states[|actions|], Dog) == Forgotten && states[|actions|].clock <= at
    ensures Trace(longer, more, judge) && more == actions + [Raise(Dog, at)]
    ensures var s := states[|actions|];
            longer == states + [s.(controller := s.controller.(degraded := true),
                                   places := s.places[Dog := Free], clock := at)]
  {
    longer, more := Extend(states, actions, judge, Raise(Dog, at));
  }

  /** The user switches while the cycle is between reading the stamp (at `r`) and acting. */
  lemma SwitchedMeanwhile(config: Config, active: Node, chosen: Node)
    returns (states: seq<System>, actions: seq<Turn>, r: nat)
    ensures Boots(states, actions, Verdicts(config), 0) && r + 6 == |actions|
    ensures actions[r].ReadManual? && actions[r + 4] == StampIt(User(0), config.manualWindow)
    ensures var s, at := states[|actions|], config.manualWindow;
            && Intervenes(s) && s.phase.Ready? && s.phase.decision.degradeCalled && s.phase.decision.switchedTo.None?
            && s.controller == Controller(Some(chosen), false, None, Some(at)) && s.places == map[User(0) := Free]
            && s.phase.env.switchedAt == at && s.clock == at
  {
    var judge := Verdicts(config);
    states, actions := ReadyToDegrade(config, active);
    var sofar := actions;
    r := |sofar| - 2;
    hide Verdicts;
    states, actions := ExtendBySwitch(states, actions, judge, 0, chosen, config.manualWindow);
    assert actions[r] == actions[..|sofar|][r] == sofar[r];
    assert map[User(0) := Free][User(0) := Free] == map[User(0) := Free];
  }

  /**
   The window is real: whatever is configured, a switch the user makes after the
   cycle has read the stamp can be undone at the very same instant.
   */
  lemma ManualSwitchOverridden(config: Config, active: Node, chosen: Node)
    returns (states: seq<System>, actions: seq<Turn>, r: nat)
    ensures Boots(states, actions, Verdicts(config), 0) && |actions| == r + 9 && AtRest(states[r + 9])
    ensures actions[r].ReadManual? && ByHand(actions[r + 4]) && actions[r + 6].Act? && Intervenes(states[r + 6])
    ensures actions[r + 4].now == actions[r + 6].now && states[r + 6].controller.active == Some(chosen)
    ensures states[r + 9].controller.active.None? && states[r + 9].controller.degraded
  {
    var judge, at := Verdicts(config), config.manualWindow;
    states, actions, r := SwitchedMeanwhile(config, active, chosen);
    hide Intervenes, Verdicts;
    states, actions := ExtendByDecision(states, actions, judge, at);
    hide Take, CanTake;
    states, actions := ExtendByForget(states, actions, judge, at);
    states, actions := ExtendByRaise(states, actions, judge, at);
  }

  /** A switch between the two writes of a degrade leaves a degraded controller with an active node. */
  lemma DegradedWithANodeHappens(config: Config, active: Node, chosen: Node)
    returns (states: seq<System>, actions: seq<Turn>)
    ensures Boots(states, actions, Verdicts(config), 0) && AtRest(states[|actions|])
    ensures states[|actions|].controller.degraded && states[|actions|].controller.active == Some(chosen)
  {
    var judge, at := Verdicts(config), config.manualWindow;
    states, actions := ReadyToDegrade(config, active);
    hide Verdicts;
    states, actions := ExtendByDecision(states, actions, judge, at);
    hide Take, CanTake;
    states, actions := ExtendByForget(states, actions, judge, at);
    states, actions := ExtendBySwitch(states, actions, judge, 0, chosen, at);
    states, actions := ExtendByRaise(states, actions, judge, at);
  }
}
