/**
 The watchdog on a real tunnel: every switch it tries, every switch and stop of the
 user and every degrade is carried out on the controller and its core.
 */
module WatchdogSession {
  import opened Wrappers
  import opened Shortlist
  import opened Supervisor
  import Session
  import opened Watchdog
  import opened WatchdogEvidence
  import opened WatchdogRuns

  /** How configurations are made and judged; fixed for a run. */
  datatype Core = Core(compile: Session.Compiler, accepts: Rendered -> bool)

  /** How the foreign calls of one event turn out, by the catalog index that is tried. */
  datatype Fate = Fate(luck: nat -> Luck, netd: nat -> Option<bool>)

  // ----- which switches a cycle tries

  function HealAttempts(scores: seq<Score>, env: Env): seq<nat> {
    if scores == [] then []
    else if !scores[0].passes || env.confirm(scores[0].nodeIndex) != Some(true) then HealAttempts(scores[1..], env)
    else [scores[0].nodeIndex]
         + if env.switchWorks(scores[0].nodeIndex) then [] else HealAttempts(scores[1..], env)
  }

  function EscalateAttempts(w: World, config: Config, env: Env, active: Node): seq<nat>
  {
    if env.catalog.None? || env.rescore.None? then []
    else
      var found := FirstConfirmed(Contenders(w, config, env, active).1, env);
      if found.Some? then [found.value] else []
  }

  function AdoptAttempts(w: World, config: Config, env: Env): seq<nat>
  {
    if env.catalog.None? || env.catalog.value == [] || env.rescore.None? then []
    else
      var ranked := Candidates(w, config, env);
      if ranked == [] then [] else [ranked[0].nodeIndex]
  }

  ghost function Attempts(w: World, config: Config, env: Env): seq<nat>
  {
    if w.controller.degraded then HealAttempts(Rescored(config, env).GetOr([]), env)
    else if w.controller.active.None? then if config.adoptOnIdle then AdoptAttempts(w, config, env) else []
    else if Escalates(w, config, env) then
      EscalateAttempts(w.(status := w.status.(failures := w.status.failures + 1)), config, env,
                       w.controller.active.value)
    else []
  }

  /** Attempts stop at the first that works, and only name catalog entries. */
  ghost predicate Tells(attempts: seq<nat>, env: Env, switchedTo: Option<nat>) {
    && (forall k | 0 <= k < |attempts| :: env.catalog.Some? && attempts[k] < |env.catalog.value|)
    && (forall k | 0 <= k < |attempts| - 1 :: !env.switchWorks(attempts[k]))
    && switchedTo == if attempts != [] && env.switchWorks(attempts[|attempts| - 1])
                     then Some(attempts[|attempts| - 1]) else None
  }

  lemma {:induction false} HealAttemptsTell(scores: seq<Score>, env: Env)
    requires env.catalog.Some? && forall s | s in scores :: s.nodeIndex < |env.catalog.value|
    ensures Tells(HealAttempts(scores, env), env, FirstHealing(scores, env))
  {
    if scores == [] {
    } else {
      assert scores[0] in scores && forall s | s in scores[1..] :: s in scores;
      HealAttemptsTell(scores[1..], env);
      var rest := HealAttempts(scores[1..], env);
      if scores[0].passes && env.confirm(scores[0].nodeIndex) == Some(true) && !env.switchWorks(scores[0].nodeIndex) {
        var attempts := [scores[0].nodeIndex] + rest;
        assert forall k | 0 < k < |attempts| :: attempts[k] == rest[k - 1];
      }
    }
  }

  lemma HealTells(w: World, config: Config, env: Env)
    ensures Tells(HealAttempts(Rescored(config, env).GetOr([]), env), env, Heal(w, config, env).switchedTo)
  {
    var rescored := Rescored(config, env);
    if rescored.Some? {
      forall s | s in rescored.value ensures s.nodeIndex < |env.catalog.value| {
        PassingScoresWereScattered(config, env, s);
      }
      HealAttemptsTell(rescored.value, env);
      hide Rescored, FirstHealing, HealAttempts;
    }
  }

  lemma EscalateTells(w: World, config: Config, env: Env, active: Node)
    ensures Tells(EscalateAttempts(w, config, env, active), env, Escalate(w, config, env, active).switchedTo)
  {
    hide Contenders, FirstConfirmed, Scattered, SwitchText, SwitchTo;
    if env.catalog.Some? && env.rescore.Some? && FirstConfirmed(Contenders(w, config, env, active).1, env).Some? {
      ConfirmedContender(w, config, env, active);
    }
  }

  lemma AdoptTells(w: World, config: Config, env: Env)
    ensures Tells(AdoptAttempts(w, config, env), env, Adopt(w, config, env).switchedTo)
  {
    hide Candidates, Scattered, AdoptedTracks, Rescored, SwitchText, SwitchTo;
    if env.catalog.Some? && env.rescore.Some? && env.catalog.value != [] {
      CandidatesAreScattered(w, config, env);
    }
  }

  lemma AttemptsTell(w: World, config: Config, env: Env)
    ensures Tells(Attempts(w, config, env), env, Cycle(w, config, env).switchedTo)
    ensures Cycle(w, config, env).degradeCalled ==> Cycle(w, config, env).switchedTo.None?
  {
    hide Cycle, Heal, Adopt, Escalate, Escalates, Rescored, HealAttempts, AdoptAttempts, EscalateAttempts, Tells;
    CyclesAreGrounded(w, config, env);
    if w.controller.degraded || w.controller.active.None? {
      CyclesWithoutWork(w, config, env);
      HealTells(w, config, env);
      AdoptTells(w, config, env);
      NoAttempts(env);
    } else if Escalates(w, config, env) {
      ActsOnlyWhenEscalating(w, config, env);
      EscalateTells(w.(status := w.status.(failures := w.status.failures + 1)), config, env, w.controller.active.value);
    } else {
      CalmCycles(w, config, env);
      NoAttempts(env);
    }
  }

  lemma NoAttempts(env: Env)
    ensures Tells([], env, None)
  {
  }

  // ----- the same on the tunnel

  function Try(t: Session.Tunnel, node: Node, index: nat, core: Core, fate: Fate)
    : (Session.Tunnel, Result<string, Session.Failure>)
  {
    Session.SwitchNode(t, node, core.compile, core.accepts, fate.luck(index), fate.netd(index))
  }

  function TryAll(t: Session.Tunnel, attempts: seq<nat>, nodes: seq<Node>, core: Core, fate: Fate): Session.Tunnel
    requires forall k | 0 <= k < |attempts| :: attempts[k] < |nodes|
    decreases |attempts|
  {
    if attempts == [] then t
    else TryAll(Try(t, nodes[attempts[0]], attempts[0], core, fate).0, attempts[1..], nodes, core, fate)
  }

  /** Each attempt turns out on the tunnel as the cycle saw it turn out. */
  ghost predicate AsSeen(t: Session.Tunnel, attempts: seq<nat>, nodes: seq<Node>, env: Env, core: Core, fate: Fate)
    requires forall k | 0 <= k < |attempts| :: attempts[k] < |nodes|
    decreases |attempts|
  {
    attempts != [] ==>
      var (after, result) := Try(t, nodes[attempts[0]], attempts[0], core, fate);
      && (result.Ok? <==> env.switchWorks(attempts[0]))
      && AsSeen(after, attempts[1..], nodes, env, core, fate)
  }

  ghost predicate NeverRefused(attempts: seq<nat>, fate: Fate) {
    forall k | 0 <= k < |attempts| :: fate.netd(attempts[k]) != Some(false)
  }

  /** The watchdog's view of the controller is the tunnel's own. */
  ghost predicate Mirrors(c: Controller, t: Session.Tunnel) {
    c.active == t.active && c.degraded == t.degraded
  }

  lemma {:induction false} TryAllMoves(t: Session.Tunnel, attempts: seq<nat>, nodes: seq<Node>, env: Env, core: Core,
                                       fate: Fate)
    requires forall k | 0 <= k < |attempts| :: attempts[k] < |nodes|
    requires forall k | 0 <= k < |attempts| - 1 :: !env.switchWorks(attempts[k])
    requires AsSeen(t, attempts, nodes, env, core, fate)
    ensures var after := TryAll(t, attempts, nodes, core, fate);
            if attempts != [] && env.switchWorks(attempts[|attempts| - 1])
            then after.active == Some(nodes[attempts[|attempts| - 1]]) && !after.degraded
            else after.active == t.active && after.degraded == t.degraded
    decreases |attempts|
  {
    if attempts == [] {
    } else {
      var rest := attempts[1..];
      var (after, result) := Try(t, nodes[attempts[0]], attempts[0], core, fate);
      TryAllMoves(after, rest, nodes, env, core, fate);
      hide Session.SwitchNode;
      TryMoves(t, nodes[attempts[0]], attempts[0], core, fate);
      if rest != [] {
        assert rest[|rest| - 1] == attempts[|attempts| - 1];
      }
    }
  }

  lemma TryMoves(t: Session.Tunnel, node: Node, index: nat, core: Core, fate: Fate)
    ensures var (after, result) := Try(t, node, index, core, fate);
            if result.Ok? then after.active == Some(node) && !after.degraded
            else after.active == t.active && after.degraded == t.degraded
  {
    hide Apply;
  }

  lemma {:induction false} TryAllStaysSound(t: Session.Tunnel, attempts: seq<nat>, nodes: seq<Node>, core: Core,
                                            fate: Fate)
    requires forall k | 0 <= k < |attempts| :: attempts[k] < |nodes|
    requires Session.Sound(t, core.compile, core.accepts) && NeverRefused(attempts, fate)
    ensures Session.Sound(TryAll(t, attempts, nodes, core, fate), core.compile, core.accepts)
    decreases |attempts|
  {
    if attempts == [] {
    } else {
      var i := attempts[0];
      Session.OneSwitch(t, nodes[i], core.compile, core.accepts, fate.luck(i), fate.netd(i));
      hide Session.SwitchNode, Session.Sound;
      TryAllStaysSound(Try(t, nodes[i], i, core, fate).0, attempts[1..], nodes, core, fate);
    }
  }

  // ----- runs of both

  datatype Linked = Linked(event: Event, fate: Fate)

  datatype Joint = Joint(watchdog: Clocked, tunnel: Session.Tunnel)

  /**
   The event can happen, and turns out on the tunnel as the watchdog or the user saw
   it. That attempts name catalog entries is no condition: `AttemptsTell` has it.
   */
  ghost predicate Happens(j: Joint, config: Config, core: Core, l: Linked)
  {
    && Possible(j.watchdog, l.event)
    && match l.event
       case Cycled(env) =>
         var attempts := Attempts(j.watchdog.world, config, env);
         && (forall k | 0 <= k < |attempts| :: env.catalog.Some? && attempts[k] < |env.catalog.value|)
         && (attempts != [] ==> AsSeen(j.tunnel, attempts, Nodes(env.catalog.value), env, core, l.fate))
       case SwitchedByHand(node, _) => Try(j.tunnel, node, 0, core, l.fate).1.Ok?
       case SwitchFailed(node, _) => Try(j.tunnel, node, 0, core, l.fate).1.Err?
       case _ => true
  }

  ghost function TunnelAfterCycle(j: Joint, config: Config, core: Core, env: Env, fate: Fate): Session.Tunnel
    requires Happens(j, config, core, Linked(Cycled(env), fate))
  {
    var attempts := Attempts(j.watchdog.world, config, env);
    var tried := if attempts == [] then j.tunnel else TryAll(j.tunnel, attempts, Nodes(env.catalog.value), core, fate);
    if Cycle(j.watchdog.world, config, env).degradeCalled then Session.DegradeToDirect(tried) else tried
  }

  ghost function JointStep(j: Joint, config: Config, core: Core, l: Linked): Joint
    requires Happens(j, config, core, l)
  {
    var tunnel :=
      match l.event
      case Cycled(env) => TunnelAfterCycle(j, config, core, env, l.fate)
      case SwitchedByHand(node, _) => Try(j.tunnel, node, 0, core, l.fate).0
      case SwitchFailed(node, _) => Try(j.tunnel, node, 0, core, l.fate).0
      case SettingsChanged(settings, _) => j.tunnel.(settings := settings)
      case Stopped(_) => Session.StopTunnel(j.tunnel)
      case StampedManual(_) => j.tunnel
      case StampedAuto(_) => j.tunnel;
    Joint(Step(j.watchdog, config, l.event), tunnel)
  }

  ghost function JointRun(j: Joint, config: Config, core: Core, run: seq<Linked>): Option<Joint>
    decreases |run|
  {
    if run == [] then Some(j)
    else
      var before := JointRun(j, config, core, run[..|run| - 1]);
      if before.Some? && Happens(before.value, config, core, run[|run| - 1])
      then Some(JointStep(before.value, config, core, run[|run| - 1])) else None
  }

  /** No daemon refuses to route, in whatever the event tries. */
  ghost predicate RoutesAlways(fate: Fate) {
    forall i :: fate.netd(i) != Some(false)
  }

  lemma CycleMirrors(j: Joint, config: Config, core: Core, env: Env, fate: Fate)
    requires Happens(j, config, core, Linked(Cycled(env), fate))
    requires Mirrors(j.watchdog.world.controller, j.tunnel)
    ensures Mirrors(Cycle(j.watchdog.world, config, env).world.controller, TunnelAfterCycle(j, config, core, env, fate))
  {
    var w := j.watchdog.world;
    var attempts := Attempts(w, config, env);
    AttemptsTell(w, config, env);
    CyclesAreGrounded(w, config, env);
    hide Cycle, Attempts, Scattered, TryAll, AsSeen;
    if attempts != [] {
      TryAllMoves(j.tunnel, attempts, Nodes(env.catalog.value), env, core, fate);
    }
  }

  lemma CycleStaysSound(j: Joint, config: Config, core: Core, env: Env, fate: Fate)
    requires Happens(j, config, core, Linked(Cycled(env), fate)) && RoutesAlways(fate)
    requires Session.Sound(j.tunnel, core.compile, core.accepts)
    ensures Session.Sound(TunnelAfterCycle(j, config, core, env, fate), core.compile, core.accepts)
  {
    var attempts := Attempts(j.watchdog.world, config, env);
    hide Cycle, Attempts, TryAll, AsSeen, Try;
    if attempts != [] {
      var first := attempts[0];
      assert env.catalog.Some?;
      TryAllStaysSound(j.tunnel, attempts, Nodes(env.catalog.value), core, fate);
    }
  }

  lemma JointStepMirrors(j: Joint, config: Config, core: Core, l: Linked)
    requires Happens(j, config, core, l) && Mirrors(j.watchdog.world.controller, j.tunnel)
    ensures Mirrors(JointStep(j, config, core, l).watchdog.world.controller, JointStep(j, config, core, l).tunnel)
  {
    hide Cycle, TunnelAfterCycle, Session.SwitchNode, Attempts;
    match l.event
    case Cycled(env) => CycleMirrors(j, config, core, env, l.fate);
    case SwitchedByHand(node, _) => TryMoves(j.tunnel, node, 0, core, l.fate);
    case SwitchFailed(node, _) => TryMoves(j.tunnel, node, 0, core, l.fate);
    case _ =>
  }

  lemma JointStepStaysSound(j: Joint, config: Config, core: Core, l: Linked)
    requires Happens(j, config, core, l) && RoutesAlways(l.fate)
    requires Session.Sound(j.tunnel, core.compile, core.accepts)
    ensures Session.Sound(JointStep(j, config, core, l).tunnel, core.compile, core.accepts)
  {
    hide Cycle, TunnelAfterCycle, Session.SwitchNode, Attempts;
    match l.event
    case Cycled(env) => CycleStaysSound(j, config, core, env, l.fate);
    case SwitchedByHand(node, _) =>
      Session.OneSwitch(j.tunnel, node, core.compile, core.accepts, l.fate.luck(0), l.fate.netd(0));
    case SwitchFailed(node, _) =>
      Session.OneSwitch(j.tunnel, node, core.compile, core.accepts, l.fate.luck(0), l.fate.netd(0));
    case _ =>
  }

  function Start(now: nat, settings: nat, file: Option<Rendered>): Joint {
    Joint(Boot(now), Session.Tunnel(None, false, settings, settings, State(file, None)))
  }

  /**
   In every run of cycles, manual switches, stops and settings changes, whatever
   probes, core and daemon do: the active node and the degraded flag the watchdog
   goes by are the controller's.
   */
  lemma {:induction false} WatchdogMirrorsTheTunnel(now: nat, settings: nat, file: Option<Rendered>, config: Config,
                                                    core: Core, run: seq<Linked>)
    requires JointRun(Start(now, settings, file), config, core, run).Some?
    ensures var j := JointRun(Start(now, settings, file), config, core, run).value;
            Mirrors(j.watchdog.world.controller, j.tunnel)
    decreases |run|
  {
    if run == [] {
    } else {
      var last := |run| - 1;
      WatchdogMirrorsTheTunnel(now, settings, file, config, core, run[..last]);
      hide Happens, JointStep, Mirrors;
      JointStepMirrors(JointRun(Start(now, settings, file), config, core, run[..last]).value, config, core, run[last]);
    }
  }

  /**
   And while no daemon refuses to route, whatever the watchdog did by itself: a node
   is active exactly when the core runs that node's accepted configuration, and a
   degraded controller has none.
   */
  lemma {:induction false} WatchdogKeepsTheTunnelSound(now: nat, settings: nat, file: Option<Rendered>, config: Config,
                                                       core: Core, run: seq<Linked>)
    requires JointRun(Start(now, settings, file), config, core, run).Some?
    requires forall l | l in run :: RoutesAlways(l.fate)
    ensures Session.Sound(JointRun(Start(now, settings, file), config, core, run).value.tunnel,
                          core.compile, core.accepts)
    decreases |run|
  {
    if run == [] {
    } else {
      var last := |run| - 1;
      assert run[last] in run && forall l | l in run[..last] :: l in run;
      WatchdogKeepsTheTunnelSound(now, settings, file, config, core, run[..last]);
      hide Happens, JointStep, RoutesAlways, Session.Sound;
      var before := JointRun(Start(now, settings, file), config, core, run[..last]).value;
      JointStepStaysSound(before, config, core, run[last]);
    }
  }
}
