/**
 The controller as its threads share it. The watchdog reads the active node, the
 flag and the two stamps one after the other and acts later; a switch does its
 writes under the supervisor's lock, but a stop and a degrade do theirs after
 letting go of it, and readers take no lock at all.
 */
module WatchdogShared {
  import opened Wrappers
  import opened Shortlist
  import opened Watchdog
  import opened WatchdogEvidence

  datatype Thread = Dog | User(id: nat)

  /** Where a thread stands inside a switch, a stop or a degrade. */
  datatype Place =
    | Free
    | Entered(node: Node)     // core reloaded, lock held, about to name the node
    | Activated               // lock held, about to stamp
    | Stamped                 // lock held, about to clear the flag
    | Stopping                // core stopped, about to forget the node
    | Degrading               // core stopped, about to forget the node on the way to direct
    | Forgotten               // about to raise the flag

  /** What the current cycle has read so far. */
  datatype Phase =
    | Resting
    | SawActive(env: Env, active: Option<Node>)
    | SawFlag(env: Env, active: Option<Node>, degraded: bool)
    | SawManual(env: Env, active: Option<Node>, degraded: bool, lastManual: Option<nat>)
    | Ready(env: Env, seen: Controller, decision: Outcome)

  /** `core` is the node whose configuration the core process was last given, while there is one. */
  datatype System = System(
    controller: Controller,
    core: Option<Node>,
    places: map<Thread, Place>,
    phase: Phase,
    status: Status,
    clock: nat)

  datatype Turn =
    | ReadActive(env: Env, now: nat)
    | ReadFlag(now: nat)
    | ReadManual(now: nat)
    | ReadAuto(now: nat)
    | Act(now: nat)
    | Enter(user: nat, node: Node, now: nat)
    | Halt(user: nat, now: nat)
    | Activate(thread: Thread, now: nat)
    | StampIt(thread: Thread, now: nat)
    | Clear(thread: Thread, now: nat)
    | Forget(thread: Thread, now: nat)
    | Raise(thread: Thread, now: nat)
    | NoteManual(now: nat)
    | NoteAuto(now: nat)

  function Boot(now: nat): System {
    System(Controller(None, false, None, None), None, map[], Resting, Status(0, [], 0, map[]), now)
  }

  function PlaceOf(s: System, t: Thread): Place {
    if t in s.places then s.places[t] else Free
  }

  predicate InSwitch(p: Place) {
    p.Entered? || p.Activated? || p.Stamped?
  }

  ghost predicate Unlocked(s: System) {
    forall t | t in s.places :: !InSwitch(s.places[t])
  }

  /** How a cycle decides on what it has read; the interleavings are the same whatever it decides. */
  type Judge = (Controller, Status, Env) -> Outcome

  /** The watchdog's own way of deciding. */
  ghost function Verdicts(config: Config): Judge {
    (seen: Controller, status: Status, env: Env) => Cycle(World(seen, status), config, env)
  }

  predicate Acts(o: Outcome) {
    o.switchedTo.Some? || o.degradeCalled
  }

  ghost predicate CanTake(s: System, a: Turn) {
    && s.clock <= a.now
    && match a
       case ReadActive(env, _) => s.phase == Resting && PlaceOf(s, Dog) == Free
       case ReadFlag(_) => s.phase.SawActive?
       case ReadManual(now) => s.phase.SawFlag? && now == s.phase.env.startedAt
       case ReadAuto(now) => s.phase.SawManual? && now == s.phase.env.probedAt
       case Act(now) =>
         && s.phase.Ready? && s.phase.env.switchedAt <= now && PlaceOf(s, Dog) == Free
         && (Acts(s.phase.decision) ==> Unlocked(s))
       case Enter(user, _, _) => PlaceOf(s, User(user)) == Free && Unlocked(s)
       case Halt(user, _) => PlaceOf(s, User(user)) == Free && Unlocked(s)
       case Activate(t, _) => PlaceOf(s, t).Entered?
       case StampIt(t, _) => PlaceOf(s, t).Activated?
       case Clear(t, _) => PlaceOf(s, t).Stamped?
       case Forget(t, _) => PlaceOf(s, t).Stopping? || PlaceOf(s, t).Degrading?
       case Raise(t, _) => PlaceOf(s, t).Forgotten?
       case NoteManual(_) => true
       case NoteAuto(_) => true
  }

  ghost function Move(s: System, t: Thread, p: Place): System {
    s.(places := s.places[t := p])
  }

  /** The node to switch to is the one the decision's own world has active. */
  ghost function ActOn(s: System): System
    requires s.phase.Ready?
  {
    var o := s.phase.decision;
    var rested := s.(phase := Resting, status := o.world.status);
    if o.switchedTo.Some? && o.world.controller.active.Some? then
      Move(rested.(core := o.world.controller.active), Dog, Entered(o.world.controller.active.value))
    else if o.degradeCalled then Move(rested.(core := None), Dog, Degrading)
    else rested
  }

  ghost function Take(s: System, judge: Judge, a: Turn): System
    requires CanTake(s, a)
  {
    var c, ph := s.controller, s.phase;
    var next :=
      match a
      case ReadActive(env, _) => s.(phase := SawActive(env, c.active))
      case ReadFlag(_) => s.(phase := SawFlag(ph.env, ph.active, c.degraded))
      case ReadManual(_) => s.(phase := SawManual(ph.env, ph.active, ph.degraded, c.lastManual))
      case ReadAuto(_) =>
        var seen := Controller(ph.active, ph.degraded, c.lastAuto, ph.lastManual);
        s.(phase := Ready(ph.env, seen, judge(seen, s.status, ph.env)))
      case Act(_) => ActOn(s)
      case Enter(user, node, _) => Move(s.(core := Some(node)), User(user), Entered(node))
      case Halt(user, _) => Move(s.(core := None), User(user), Stopping)
      case Activate(t, _) => Move(s.(controller := c.(active := Some(PlaceOf(s, t).node))), t, Activated)
      case StampIt(t, now) =>
        Move(s.(controller := if t == Dog then c.(lastAuto := Some(now)) else c.(lastManual := Some(now))), t, Stamped)
      case Clear(t, _) => Move(s.(controller := c.(degraded := false)), t, Free)
      case Forget(t, _) =>
        Move(s.(controller := c.(active := None)), t, if PlaceOf(s, t).Degrading? then Forgotten else Free)
      case Raise(t, _) => Move(s.(controller := c.(degraded := true)), t, Free)
      case NoteManual(now) => s.(controller := c.(lastManual := Some(now)))
      case NoteAuto(now) => s.(controller := c.(lastAuto := Some(now)));
    next.(clock := a.now)
  }

  ghost predicate Trace(states: seq<System>, actions: seq<Turn>, judge: Judge)
  {
    && |states| == |actions| + 1
    && forall i | 0 <= i < |actions| ::
         CanTake(states[i], actions[i]) && states[i + 1] == Take(states[i], judge, actions[i])
  }

  ghost predicate Boots(states: seq<System>, actions: seq<Turn>, judge: Judge, start: nat)
  {
    Trace(states, actions, judge) && states[0] == Boot(start)
  }

  // ----- pacing

  /** The cycle is about to switch away from a failed node or to give up on it. */
  predicate Intervenes(s: System) {
    s.phase.Ready? && (s.phase.decision.action.Switched? || s.phase.decision.degradeCalled)
  }

  /** A decision is the cycle's on what was read, and nothing of the cycle's own has changed since. */
  ghost predicate Decided(s: System, judge: Judge) {
    s.phase.Ready? ==> s.phase.decision == judge(s.phase.seen, s.status, s.phase.env)
  }

  lemma TakeKeepsDecided(s: System, judge: Judge, a: Turn)
    requires Decided(s, judge) && CanTake(s, a)
    ensures Decided(Take(s, judge, a), judge)
  {
  }

  lemma {:induction false} RunsStayDecided(states: seq<System>, actions: seq<Turn>, judge: Judge, start: nat, n: nat)
    requires Boots(states, actions, judge, start) && n < |states|
    ensures Decided(states[n], judge)
  {
    if n == 0 {
    } else {
      hide CanTake, Take, Decided;
      RunsStayDecided(states, actions, judge, start, n - 1);
      TakeKeepsDecided(states[n - 1], judge, actions[n - 1]);
      assert states[n - 1 + 1] == Take(states[n - 1], judge, actions[n - 1]);
    }
  }

  predicate ByHand(a: Turn) {
    a.NoteManual? || (a.StampIt? && a.thread.User?)
  }

  predicate ByTheDog(a: Turn) {
    a.StampIt? && a.thread == Dog
  }

  ghost predicate Timely(s: System) {
    && (s.controller.lastManual.Some? ==> s.controller.lastManual.value <= s.clock)
    && (s.controller.lastAuto.Some? ==> s.controller.lastAuto.value <= s.clock)
    && (s.phase != Resting ==> PlaceOf(s, Dog) == Free)
  }

  lemma TakeKeepsTimely(s: System, judge: Judge, a: Turn)
    requires Timely(s) && CanTake(s, a)
    ensures Timely(Take(s, judge, a))
  {
  }

  lemma {:induction false} RunsStayTimely(states: seq<System>, actions: seq<Turn>, judge: Judge, start: nat, n: nat)
    requires Boots(states, actions, judge, start) && n < |states|
    ensures Timely(states[n])
  {
    if n == 0 {
    } else {
      RunsStayTimely(states, actions, judge, start, n - 1);
      TakeKeepsTimely(states[n - 1], judge, actions[n - 1]);
      hide CanTake, Take, Timely;
      assert states[n - 1 + 1] == Take(states[n - 1], judge, actions[n - 1]);
    }
  }

  lemma DogIsFreeMeanwhile(states: seq<System>, actions: seq<Turn>, judge: Judge, start: nat, n: nat)
    requires Boots(states, actions, judge, start) && n < |states|
    ensures states[n].phase != Resting ==> PlaceOf(states[n], Dog) == Free
  {
    RunsStayTimely(states, actions, judge, start, n);
  }

  lemma StampsMoveUp(s: System, judge: Judge, a: Turn)
    requires Timely(s) && CanTake(s, a)
    ensures var after := Take(s, judge, a).controller;
            && (after.lastManual == if ByHand(a) then Some(a.now) else s.controller.lastManual)
            && (ByTheDog(a) ==> after.lastAuto == Some(a.now))
            && (s.controller.lastAuto.Some? ==>
                  after.lastAuto.Some? && s.controller.lastAuto.value <= after.lastAuto.value)
    ensures s.clock <= a.now == Take(s, judge, a).clock
  {
  }

  /** A stamp is never older than any stamping that came before. */
  lemma {:induction false} StampsRemember(states: seq<System>, actions: seq<Turn>, judge: Judge, start: nat,
                                          m: nat, n: nat)
    requires Boots(states, actions, judge, start) && m < n < |states|
    ensures actions[m].now <= states[n].clock
    ensures ByHand(actions[m]) ==>
              states[n].controller.lastManual.Some? && actions[m].now <= states[n].controller.lastManual.value
    ensures ByTheDog(actions[m]) ==>
              states[n].controller.lastAuto.Some? && actions[m].now <= states[n].controller.lastAuto.value
    decreases n
  {
    hide CanTake, Take, Timely, ByHand, ByTheDog, Boot;
    RunsStayTimely(states, actions, judge, start, n - 1);
    StampsMoveUp(states[n - 1], judge, actions[n - 1]);
    assert states[n - 1 + 1] == Take(states[n - 1], judge, actions[n - 1]);
    if m < n - 1 {
      StampsRemember(states, actions, judge, start, m, n - 1);
    }
  }

  lemma PhasesComeFromReads(s: System, judge: Judge, a: Turn)
    requires CanTake(s, a)
    ensures var next := Take(s, judge, a).phase;
            && (next.Ready? && !a.ReadAuto? ==> next == s.phase)
            && (next.SawManual? && !a.ReadManual? ==> next == s.phase)
            && (a.ReadAuto? ==>
                  && next.Ready? && s.phase.SawManual? && next.env == s.phase.env && a.now == next.env.probedAt
                  && next.seen.lastAuto == s.controller.lastAuto && next.seen.lastManual == s.phase.lastManual)
            && (a.ReadManual? ==>
                  && next.SawManual? && a.now == next.env.startedAt && next.lastManual == s.controller.lastManual)
            && (a.ReadManual? ==> !s.phase.SawManual? && !s.phase.Ready?)
            && (ByTheDog(a) ==> PlaceOf(s, Dog) != Free)
  {
  }

  /** Where the manual stamp a cycle goes by was read. */
  lemma {:induction false} ManualWasRead(states: seq<System>, actions: seq<Turn>, judge: Judge, start: nat, n: nat)
    returns (r: nat)
    requires Boots(states, actions, judge, start) && n < |states| && states[n].phase.SawManual?
    ensures r < n && actions[r].ReadManual? && actions[r].now == states[n].phase.env.startedAt
    ensures states[n].phase.lastManual == states[r].controller.lastManual
    ensures forall k | r < k < n :: !actions[k].ReadManual?
    decreases n
  {
    assert n != 0;
    PhasesComeFromReads(states[n - 1], judge, actions[n - 1]);
    assert states[n - 1 + 1] == Take(states[n - 1], judge, actions[n - 1]);
    hide CanTake, Take;
    if actions[n - 1].ReadManual? {
      r := n - 1;
    } else {
      r := ManualWasRead(states, actions, judge, start, n - 1);
    }
  }

  lemma {:induction false} AutoWasRead(states: seq<System>, actions: seq<Turn>, judge: Judge, start: nat, n: nat)
    returns (r: nat, q: nat)
    requires Boots(states, actions, judge, start) && n < |states| && states[n].phase.Ready?
    ensures r < q < n && actions[r].ReadManual? && actions[r].now == states[n].phase.env.startedAt
    ensures states[n].phase.seen.lastManual == states[r].controller.lastManual
    ensures forall k | r < k < n :: !actions[k].ReadManual?
    ensures actions[q].ReadAuto? && actions[q].now == states[n].phase.env.probedAt
    ensures states[n].phase.seen.lastAuto == states[q].controller.lastAuto
    ensures forall k | q <= k < n :: !ByTheDog(actions[k])
    decreases n
  {
    hide CanTake, Take, PlaceOf, ByTheDog;
    assert n != 0;
    PhasesComeFromReads(states[n - 1], judge, actions[n - 1]);
    RunsStayTimely(states, actions, judge, start, n - 1);
    assert states[n - 1 + 1] == Take(states[n - 1], judge, actions[n - 1]);
    if actions[n - 1].ReadAuto? {
      q := n - 1;
      r := ManualWasRead(states, actions, judge, start, n - 1);
    } else {
      r, q := AutoWasRead(states, actions, judge, start, n - 1);
    }
  }

  /** Whoever decides so intervenes only on stamps that were old enough when they were read. */
  ghost predicate Cautious(judge: Judge, config: Config) {
    forall seen, status, env :: Heeds(judge(seen, status, env), seen, env, config)
  }

  predicate Heeds(o: Outcome, seen: Controller, env: Env, config: Config) {
    o.action.Switched? || o.degradeCalled ==>
      && LongSince(seen.lastManual, env.startedAt, config.manualWindow)
      && LongSince(seen.lastAuto, env.probedAt, config.cooldown)
  }

  lemma CyclesHeedStamps(seen: Controller, status: Status, env: Env, config: Config)
    ensures Heeds(Cycle(World(seen, status), config, env), seen, env, config)
  {
    ActsOnlyWhenEscalating(World(seen, status), config, env);
    hide Cycle, Escalate;
  }

  /** The watchdog decides so. */
  lemma VerdictsAreCautious(config: Config)
    ensures Cautious(Verdicts(config), config)
  {
    forall seen, status, env ensures Heeds(Verdicts(config)(seen, status, env), seen, env, config) {
      CyclesHeedStamps(seen, status, env, config);
      assert Verdicts(config)(seen, status, env) == Cycle(World(seen, status), config, env);
    }
  }

  /**
   Under every interleaving: an intervention keeps the cooldown from every earlier
   switch of the watchdog, and the courtesy window from every manual stamp that was
   there when the cycle read it. What can be overridden is exactly what is stamped
   between that read and the act. This holds of any cautious way of deciding, and
   the watchdog's is one.
   */
  lemma InterventionsRespectWhatTheyRead(states: seq<System>, actions: seq<Turn>, judge: Judge, config: Config,
                                         start: nat, n: nat)
    returns (r: nat)
    requires Boots(states, actions, judge, start) && Cautious(judge, config)
    requires n < |actions| && actions[n].Act?
    ensures r < n && actions[r].ReadManual? && forall k | r < k < n :: !actions[k].ReadManual?
    ensures Intervenes(states[n]) ==>
              && (forall m | 0 <= m < n && ByHand(actions[m]) ::
                    actions[n].now < actions[m].now + config.manualWindow ==> r < m)
              && (forall m | 0 <= m < n && ByTheDog(actions[m]) :: actions[n].now >= actions[m].now + config.cooldown)
  {
    var q;
    r, q := AutoWasRead(states, actions, judge, start, n);
    if !Intervenes(states[n]) {
      return;
    }
    RunsStayDecided(states, actions, judge, start, n);
    var s := states[n];
    assert Heeds(judge(s.phase.seen, s.status, s.phase.env), s.phase.seen, s.phase.env, config);
    assert states[n].phase.env.switchedAt <= actions[n].now;
    hide CanTake, Take, Intervenes, ByHand, ByTheDog, Cautious;
    ReadsDoNotStamp(actions[r]);
    forall m | 0 <= m < n && ByHand(actions[m])
      ensures actions[n].now < actions[m].now + config.manualWindow ==> r < m
    {
      assert m != r;
      if m < r {
        StampsRemember(states, actions, judge, start, m, r);
      }
    }
    forall m | 0 <= m < n && ByTheDog(actions[m]) ensures actions[n].now >= actions[m].now + config.cooldown {
      if m < q {
        StampsRemember(states, actions, judge, start, m, q);
      }
    }
  }

  lemma ReadsDoNotStamp(a: Turn)
    requires a.ReadManual?
    ensures !ByHand(a)
  {
  }
}
