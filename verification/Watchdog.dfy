/**
 One cycle of the egress watchdog. Everything a cycle can observe of the world
 is an `Env`; what it does to the controller and its own status is `Cycle`.
 */
module Watchdog {
  import opened Wrappers
  import opened Shortlist
  import opened Selection

  datatype Controller = Controller(
    active: Option<Node>,
    degraded: bool,
    lastAuto: Option<nat>,
    lastManual: Option<nat>)

  datatype Status = Status(
    failures: nat,
    shortlist: seq<Score>,
    cyclesSinceRescore: nat,
    tracks: Tracks)

  datatype World = World(controller: Controller, status: Status)

  datatype Config = Config(
    requiredFailures: nat,
    manualWindow: nat,
    cooldown: nat,
    rescoreCycles: nat,
    tunnelFloor: Option<nat>,
    adoptOnIdle: bool,
    limits: Limits,
    select: SelectConfig)

  /**
   What one cycle meets: the catalog, the sweep and trials of its rescore, the
   probes and switches it may try (by catalog index), the tunnel's grade, the
   quiet-hours clock, and the instants it reads. `None` is a failed call.
   */
  datatype Observed = Observed(
    catalog: Option<seq<(nat, Node)>>,
    rescore: Option<Rescore>,
    activeProbe: Option<bool>,
    tunnelGrade: Option<nat>,
    quietHours: bool,
    confirm: nat -> Option<bool>,
    switchWorks: nat -> bool,
    startedAt: nat,
    probedAt: nat,
    rankedAt: nat,
    switchedAt: nat)

  /** Instants come in the order they are read in, and a sweep has at most one row per catalog entry. */
  predicate Plausible(o: Observed) {
    && o.startedAt <= o.probedAt <= o.rankedAt <= o.switchedAt
    && (o.catalog.Some? && o.rescore.Some? ==> |o.rescore.value.sweep| <= |o.catalog.value|)
  }

  type Env = o: Observed | Plausible(o)
    witness Observed(None, None, None, None, false, _ => None, _ => false, 0, 0, 0, 0)

  datatype Action =
    | Healthy
    | Inspecting(failures: nat)
    | Rearmed(shortlist: nat)
    | Switched(text: string)
    | Adopted(text: string)
    | Unconfirmed
    | Degraded
    | Healed(text: string)
    | ManualWindow
    | Cooldown
    | Idle
    | Error

  /** The result of a cycle, with the switch and the degrade call it made, if any. */
  datatype Outcome = Outcome(world: World, action: Action, switchedTo: Option<nat>, degradeCalled: bool)

  function Ids(catalog: seq<(nat, Node)>): (r: seq<nat>)
    ensures |r| == |catalog|
  {
    seq(|catalog|, k requires 0 <= k < |catalog| => catalog[k].0)
  }

  function Nodes(catalog: seq<(nat, Node)>): (r: seq<Node>)
    ensures |r| == |catalog|
  {
    seq(|catalog|, k requires 0 <= k < |catalog| => catalog[k].1)
  }

  // ----- effects on the controller

  function SwitchText(node: Node): string {
    "switched to " + node.name
  }

  function SwitchTo(c: Controller, node: Node, automatic: bool, at: nat): Controller {
    Controller(Some(node), false,
               if automatic then Some(at) else c.lastAuto,
               if automatic then c.lastManual else Some(at))
  }

  function DegradeToDirect(c: Controller): Controller {
    c.(active := None, degraded := true)
  }

  // ----- the shortlist hook

  /** The shortlist of this cycle, when both the catalog and the rescore answered. */
  function Rescored(config: Config, env: Env): Option<seq<Score>>
  {
    if env.catalog.None? || env.rescore.None? then None
    else Some(TieredShortlist(Nodes(env.catalog.value), env.rescore.value, config.limits))
  }

  function Without(scores: seq<Score>, name: string): seq<Score> {
    if scores == [] then []
    else (if scores[0].name == name then [] else [scores[0]]) + Without(scores[1..], name)
  }

  // ----- walking candidates

  /** The first ranked candidate that passes a second probe. */
  function FirstConfirmed(ranked: seq<RankedNode>, env: Env): Option<nat> {
    if ranked == [] then None
    else if env.confirm(ranked[0].nodeIndex) == Some(true) then Some(ranked[0].nodeIndex)
    else FirstConfirmed(ranked[1..], env)
  }

  predicate Heals(score: Score, env: Env) {
    score.passes && env.confirm(score.nodeIndex) == Some(true) && env.switchWorks(score.nodeIndex)
  }

  /** The first passing score that survives a second probe and the switch itself. */
  function FirstHealing(scores: seq<Score>, env: Env): Option<nat> {
    if scores == [] then None
    else if Heals(scores[0], env) then Some(scores[0].nodeIndex)
    else FirstHealing(scores[1..], env)
  }

  // ----- the branches of a cycle

  function Stay(w: World, action: Action): Outcome {
    Outcome(w, action, None, false)
  }

  function SwitchOutcome(w: World, node: Node, index: nat, at: nat, action: Action): Outcome {
    Outcome(World(SwitchTo(w.controller, node, true, at), w.status.(failures := 0)), action, Some(index), false)
  }

  /** The candidates escalation may switch to, cheapest first, with the folded status. */
  function Contenders(w: World, config: Config, env: Env, active: Node): (World, seq<RankedNode>)
    requires env.catalog.Some? && env.rescore.Some?
  {
    var ids := Ids(env.catalog.value);
    var shortlist := Without(Rescored(config, env).value, active.name);
    var tracks := ObserveRound(w.status.tracks, ids, shortlist, config.select.alpha, env.rankedAt);
    (w.(status := w.status.(tracks := tracks, shortlist := shortlist)),
     RankWorkingNodes(shortlist, tracks, ids, config.select, env.rankedAt))
  }

  function Escalate(w: World, config: Config, env: Env, active: Node): Outcome
  {
    if env.catalog.None? || env.rescore.None? then Stay(w, Error)
    else
      var (folded, ranked) := Contenders(w, config, env, active);
      match FirstConfirmed(ranked, env)
      case Some(index) =>
        if index < |env.catalog.value| && env.switchWorks(index) then
          var node := env.catalog.value[index].1;
          SwitchOutcome(folded, node, index, env.switchedAt, Switched(SwitchText(node)))
        else
          Stay(folded, Error)
      case None =>
        if ranked != [] then Stay(folded, Unconfirmed)
        else Outcome(World(DegradeToDirect(folded.controller), folded.status.(failures := 0)), Degraded, None, true)
  }

  function Heal(w: World, config: Config, env: Env): Outcome
  {
    match Rescored(config, env)
    case None => Stay(w, Degraded)
    case Some(shortlist) =>
      var shown := w.(status := w.status.(shortlist := shortlist));
      match FirstHealing(shortlist, env)
      case Some(index) =>
        if index < |env.catalog.value| then
          var node := env.catalog.value[index].1;
          SwitchOutcome(shown, node, index, env.switchedAt, Healed(SwitchText(node)))
        else
          Stay(shown, Degraded)
      case None => Stay(shown, Degraded)
  }

  function AdoptedTracks(w: World, config: Config, env: Env): Tracks
    requires env.catalog.Some? && env.rescore.Some?
  {
    ObserveRound(w.status.tracks, Ids(env.catalog.value), Rescored(config, env).value, config.select.alpha,
                 env.rankedAt)
  }

  /** What there is to adopt, cheapest first. */
  function Candidates(w: World, config: Config, env: Env): seq<RankedNode>
    requires env.catalog.Some? && env.rescore.Some?
  {
    RankWorkingNodes(Rescored(config, env).value, AdoptedTracks(w, config, env), Ids(env.catalog.value),
                     config.select, env.rankedAt)
  }

  function Adopt(w: World, config: Config, env: Env): Outcome
  {
    if env.catalog.None? || env.catalog.value == [] || env.rescore.None? then Stay(w, Idle)
    else
      var folded := w.(status := w.status.(tracks := AdoptedTracks(w, config, env),
                                           shortlist := Rescored(config, env).value));
      var ranked := Candidates(w, config, env);
      if ranked == [] then Stay(folded, Degraded)
      else
        var index := ranked[0].nodeIndex;
        if index < |env.catalog.value| && env.switchWorks(index) then
          var node := env.catalog.value[index].1;
          SwitchOutcome(folded, node, index, env.switchedAt, Adopted(SwitchText(node)))
        else
          Stay(folded, Error)
  }

  predicate Younger(since: Option<nat>, now: nat, window: nat) {
    since.Some? && (if since.value <= now then now - since.value else 0) < window
  }

  /** Missing telemetry, or a missing floor, is not evidence of trouble. */
  predicate TunnelConfirmsTrouble(config: Config, env: Env) {
    config.tunnelFloor.Some? && env.tunnelGrade.Some? && env.tunnelGrade.value < config.tunnelFloor.value
  }

  function PassedProbe(w: World, config: Config, env: Env): Outcome
  {
    var cycles := w.status.cyclesSinceRescore + 1;
    var counted := w.(status := w.status.(failures := 0, cyclesSinceRescore := cycles));
    if (config.rescoreCycles > 0 && cycles >= config.rescoreCycles) || env.quietHours then
      match Rescored(config, env)
      case None => Stay(counted, Healthy)
      case Some(shortlist) =>
        Stay(counted.(status := counted.status.(shortlist := shortlist, cyclesSinceRescore := 0)),
             Rearmed(|shortlist|))
    else
      Stay(counted, Healthy)
  }

  function FailedProbe(w: World, config: Config, env: Env, active: Node): Outcome
  {
    var failures := w.status.failures + 1;
    var counted := w.(status := w.status.(failures := failures));
    var required := if TunnelConfirmsTrouble(config, env) then 1 else config.requiredFailures;
    if failures < required then
      Stay(counted.(status := counted.status.(shortlist := Rescored(config, env).GetOr(w.status.shortlist))),
           Inspecting(failures))
    else if Younger(w.controller.lastAuto, env.probedAt, config.cooldown) then Stay(counted, Cooldown)
    else Escalate(counted, config, env, active)
  }

  function Cycle(w: World, config: Config, env: Env): Outcome
  {
    if w.controller.degraded then Heal(w, config, env)
    else
      match w.controller.active
      case None =>
        if config.adoptOnIdle then Adopt(w, config, env)
        else Stay(w.(status := w.status.(shortlist := [])), Idle)
      case Some(active) =>
        if Younger(w.controller.lastManual, env.startedAt, config.manualWindow) then Stay(w, ManualWindow)
        else if env.activeProbe == Some(true) then PassedProbe(w, config, env)
        else FailedProbe(w, config, env, active)
  }

  // ----- candidates are always in the catalog

  lemma {:induction false} WithoutMembers(scores: seq<Score>, name: string, s: Score)
    ensures s in Without(scores, name) <==> s in scores && s.name != name
  {
    if scores == [] {
    } else {
      WithoutMembers(scores[1..], name, s);
      assert s in scores <==> s == scores[0] || s in scores[1..];
      assert s in Without(scores, name) <==>
             (s == scores[0] && scores[0].name != name) || s in Without(scores[1..], name);
    }
  }

  lemma {:induction false} FirstConfirmedFacts(ranked: seq<RankedNode>, env: Env)
    ensures var found := FirstConfirmed(ranked, env);
            match found
            case None => forall e | e in ranked :: env.confirm(e.nodeIndex) != Some(true)
            case Some(index) =>
              exists k :: && 0 <= k < |ranked| && ranked[k].nodeIndex == index
                          && env.confirm(index) == Some(true)
                          && forall j | 0 <= j < k :: env.confirm(ranked[j].nodeIndex) != Some(true)
  {
    if ranked != [] && env.confirm(ranked[0].nodeIndex) != Some(true) {
      FirstConfirmedFacts(ranked[1..], env);
      var found := FirstConfirmed(ranked, env);
      if found.Some? {
        var k :| && 0 <= k < |ranked[1..]| && ranked[1..][k].nodeIndex == found.value
                 && env.confirm(found.value) == Some(true)
                 && forall j | 0 <= j < k :: env.confirm(ranked[1..][j].nodeIndex) != Some(true);
        assert ranked[k + 1].nodeIndex == found.value;
        forall j | 0 <= j < k + 1 ensures env.confirm(ranked[j].nodeIndex) != Some(true) {
          if 0 < j { assert ranked[j] == ranked[1..][j - 1]; }
        }
      }
    }
  }

  lemma {:induction false} FirstHealingFacts(scores: seq<Score>, env: Env)
    ensures var found := FirstHealing(scores, env);
            match found
            case None => forall s | s in scores :: !Heals(s, env)
            case Some(index) =>
              exists k :: && 0 <= k < |scores| && scores[k].nodeIndex == index && Heals(scores[k], env)
                          && forall j | 0 <= j < k :: !Heals(scores[j], env)
  {
    if scores != [] && !Heals(scores[0], env) {
      FirstHealingFacts(scores[1..], env);
      var found := FirstHealing(scores, env);
      if found.Some? {
        var k :| && 0 <= k < |scores[1..]| && scores[1..][k].nodeIndex == found.value && Heals(scores[1..][k], env)
                 && forall j | 0 <= j < k :: !Heals(scores[1..][j], env);
        assert scores[k + 1].nodeIndex == found.value && Heals(scores[k + 1], env);
        forall j | 0 <= j < k + 1 ensures !Heals(scores[j], env) {
          if 0 < j { assert scores[j] == scores[1..][j - 1]; }
        }
      }
    }
  }
}
