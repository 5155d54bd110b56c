/** The watchdog as the program runs it: fields updated step by step, candidates walked in loops. */
module WatchdogMachine {
  import opened Wrappers
  import opened Shortlist
  import opened Selection
  import opened Watchdog
  import opened WatchdogEvidence

  class EgressWatchdog {
    const config: Config
    const selector: AutoSelector
    var active: Option<Node>
    var degraded: bool
    var lastAuto: Option<nat>
    var lastManual: Option<nat>
    var failures: nat
    var shortlist: seq<Score>
    var cyclesSinceRescore: nat

    ghost predicate Valid() {
      selector.config == config.select
    }

    ghost function View(): World
      reads this, selector
    {
      World(Controller(active, degraded, lastAuto, lastManual),
            Status(failures, shortlist, cyclesSinceRescore, selector.tracks))
    }

    constructor (config: Config)
      ensures Valid() && fresh(selector) && this.config == config
      ensures View() == World(Controller(None, false, None, None), Status(0, [], 0, map[]))
    {
      this.config := config;
      selector := new AutoSelector(config.select);
      active, degraded, lastAuto, lastManual := None, false, None, None;
      failures, shortlist, cyclesSinceRescore := 0, [], 0;
    }

    method SwitchNode(node: Node, automatic: bool, at: nat)
      modifies this
      ensures View() == old(View()).(controller := SwitchTo(old(View()).controller, node, automatic, at))
    {
      active := Some(node);
      if automatic {
        lastAuto := Some(at);
      } else {
        lastManual := Some(at);
      }
      degraded := false;
    }

    /** Refreshes the shortlist when the catalog and the sweep answer. */
    method RefreshShortlist(env: Env) returns (length: Option<nat>)
      modifies this
      ensures View() == old(View()).(status := old(View()).status.(
                          shortlist := Rescored(config, env).GetOr(old(View()).status.shortlist)))
      ensures length == match Rescored(config, env)
                        case None => None
                        case Some(s) => Some(|s|)
    {
      if env.catalog.None? || env.rescore.None? {
        return None;
      }
      shortlist := TieredShortlist(Nodes(env.catalog.value), env.rescore.value, config.limits);
      return Some(|shortlist|);
    }

    method EscalateFrom(node: Node, env: Env) returns (action: Action)
      requires Valid()
      modifies this, selector
      ensures View() == Escalate(old(View()), config, env, node).world
      ensures action == Escalate(old(View()), config, env, node).action
    {
      ghost var before := View();
      if env.catalog.None? || env.rescore.None? {
        return Error;
      }
      var ids := Ids(env.catalog.value);
      var scores := TieredShortlist(Nodes(env.catalog.value), env.rescore.value, config.limits);
      scores := Without(scores, node.name);
      selector.FoldRound(ids, scores, env.rankedAt);
      shortlist := scores;
      var ranked := RankWorkingNodes(scores, selector.tracks, ids, config.select, env.rankedAt);
      assert (View(), ranked) == Contenders(before, config, env, node);
      LookupsStayInBounds(before, config, env, node);
      hide Contenders, RankWorkingNodes, Without, TieredShortlist;
      for k := 0 to |ranked|
        invariant FirstConfirmed(ranked, env) == FirstConfirmed(ranked[k..], env)
        invariant (View(), ranked) == Contenders(before, config, env, node)
      {
        var index := ranked[k].nodeIndex;
        assert ranked[k..][1..] == ranked[k + 1..];
        if env.confirm(index) == Some(true) {
          assert ranked[k] in ranked;
          if !env.switchWorks(index) {
            return Error;
          }
          var candidate := env.catalog.value[index].1;
          SwitchNode(candidate, true, env.switchedAt);
          failures := 0;
          return Switched(SwitchText(candidate));
        }
      }
      if ranked != [] {
        return Unconfirmed;
      }
      active, degraded := None, true;
      failures := 0;
      return Degraded;
    }

    method HealOrStayDegraded(env: Env) returns (action: Action)
      modifies this
      ensures View() == Heal(old(View()), config, env).world
      ensures action == Heal(old(View()), config, env).action
    {
      ghost var before := View();
      if env.catalog.None? || env.rescore.None? {
        return Degraded;
      }
      var scores := TieredShortlist(Nodes(env.catalog.value), env.rescore.value, config.limits);
      shortlist := scores;
      for k := 0 to |scores|
        invariant FirstHealing(scores, env) == FirstHealing(scores[k..], env)
        invariant View() == before.(status := before.status.(shortlist := scores))
      {
        var score := scores[k];
        assert scores[k..][1..] == scores[k + 1..];
        if score.passes && env.confirm(score.nodeIndex) == Some(true) && env.switchWorks(score.nodeIndex) {
          PassingScoresWereScattered(config, env, score);
          var candidate := env.catalog.value[score.nodeIndex].1;
          SwitchNode(candidate, true, env.switchedAt);
          failures := 0;
          return Healed(SwitchText(candidate));
        }
      }
      return Degraded;
    }

    method AutoAdopt(env: Env) returns (action: Action)
      requires Valid()
      modifies this, selector
      ensures View() == Adopt(old(View()), config, env).world
      ensures action == Adopt(old(View()), config, env).action
    {
      if env.catalog.None? || env.catalog.value == [] || env.rescore.None? {
        return Idle;
      }
      var ids := Ids(env.catalog.value);
      var scores := TieredShortlist(Nodes(env.catalog.value), env.rescore.value, config.limits);
      selector.FoldRound(ids, scores, env.rankedAt);
      shortlist := scores;
      var ranked := RankWorkingNodes(scores, selector.tracks, ids, config.select, env.rankedAt);
      if ranked == [] {
        return Degraded;
      }
      var index := ranked[0].nodeIndex;
      assert ranked[0] in ranked;
      RankedAreScattered(config, env, scores, selector.tracks, ranked[0]);
      if !env.switchWorks(index) {
        return Error;
      }
      var candidate := env.catalog.value[index].1;
      SwitchNode(candidate, true, env.switchedAt);
      failures := 0;
      return Adopted(SwitchText(candidate));
    }

    method AfterPassedProbe(env: Env) returns (action: Action)
      modifies this
      ensures View() == PassedProbe(old(View()), config, env).world
      ensures action == PassedProbe(old(View()), config, env).action
    {
      failures := 0;
      cyclesSinceRescore := cyclesSinceRescore + 1;
      if (config.rescoreCycles > 0 && cyclesSinceRescore >= config.rescoreCycles) || env.quietHours {
        var length := RefreshShortlist(env);
        if length.Some? {
          cyclesSinceRescore := 0;
          return Rearmed(length.value);
        }
      }
      return Healthy;
    }

    method AfterFailedProbe(node: Node, env: Env) returns (action: Action)
      requires Valid()
      modifies this, selector
      ensures View() == FailedProbe(old(View()), config, env, node).world
      ensures action == FailedProbe(old(View()), config, env, node).action
    {
      hide Escalate, Rescored;
      failures := failures + 1;
      var required := if TunnelConfirmsTrouble(config, env) then 1 else config.requiredFailures;
      if failures < required {
        var _ := RefreshShortlist(env);
        return Inspecting(failures);
      }
      if Younger(lastAuto, env.probedAt, config.cooldown) {
        return Cooldown;
      }
      action := EscalateFrom(node, env);
    }

    method RunCycle(env: Env) returns (action: Action)
      requires Valid()
      modifies this, selector
      ensures View() == Cycle(old(View()), config, env).world
      ensures action == Cycle(old(View()), config, env).action
    {
      if degraded {
        action := HealOrStayDegraded(env);
      } else if active.None? {
        if config.adoptOnIdle {
          action := AutoAdopt(env);
        } else {
          shortlist := [];
          action := Idle;
        }
      } else if Younger(lastManual, env.startedAt, config.manualWindow) {
        action := ManualWindow;
      } else if env.activeProbe == Some(true) {
        action := AfterPassedProbe(env);
      } else {
        action := AfterFailedProbe(active.value, env);
      }
    }
  }
}
