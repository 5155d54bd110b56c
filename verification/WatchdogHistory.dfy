/** What the watchdog remembers of each node over a whole run, and what that does to costs. */
module WatchdogHistory {
  import opened ScatterReport
  import opened Shortlist
  import opened Selection
  import opened Watchdog
  import opened WatchdogEvidence
  import opened WatchdogRuns

  /** The scores a cycle folds into the tracks: an escalation's without the failed node, or an adoption's. */
  ghost function Folded(w: World, config: Config, env: Env): seq<Score>
  {
    if w.controller.degraded || env.catalog.None? || env.rescore.None? then []
    else if w.controller.active.None? then
      if config.adoptOnIdle && env.catalog.value != [] then Rescored(config, env).value else []
    else if Escalates(w, config, env) then Without(Rescored(config, env).value, w.controller.active.value.name)
    else []
  }

  lemma EscalateFolds(w: World, config: Config, env: Env, active: Node)
    ensures Escalate(w, config, env, active).world.status.tracks
         == if env.catalog.None? || env.rescore.None? then w.status.tracks
            else ObserveRound(w.status.tracks, Ids(env.catalog.value),
                              Without(Rescored(config, env).value, active.name), config.select.alpha, env.rankedAt)
  {
    hide ObserveRound, RankWorkingNodes, Without, Rescored, FirstConfirmed;
  }

  lemma AdoptFolds(w: World, config: Config, env: Env)
    ensures Adopt(w, config, env).world.status.tracks
         == if env.catalog.None? || env.catalog.value == [] || env.rescore.None? then w.status.tracks
            else ObserveRound(w.status.tracks, Ids(env.catalog.value), Rescored(config, env).value,
                              config.select.alpha, env.rankedAt)
  {
    hide ObserveRound, Candidates, Rescored;
  }

  lemma HealFolds(w: World, config: Config, env: Env)
    ensures Heal(w, config, env).world.status.tracks == w.status.tracks
  {
    hide Rescored, FirstHealing;
  }

  lemma CycleFolds(w: World, config: Config, env: Env)
    ensures Cycle(w, config, env).world.status.tracks
         == if env.catalog.None? then w.status.tracks
            else ObserveRound(w.status.tracks, Ids(env.catalog.value), Folded(w, config, env),
                              config.select.alpha, env.rankedAt)
  {
    hide Cycle, Heal, Escalate, Adopt, Rescored, Without, Ids;
    if w.controller.degraded || w.controller.active.None? {
      CyclesWithoutWork(w, config, env);
      HealFolds(w, config, env);
      AdoptFolds(w, config, env);
    } else {
      EscalationFolds(w, config, env);
    }
  }

  lemma EscalationFolds(w: World, config: Config, env: Env)
    requires !w.controller.degraded && w.controller.active.Some?
    ensures Cycle(w, config, env).world.status.tracks
         == if !Escalates(w, config, env) || env.catalog.None? || env.rescore.None? then w.status.tracks
            else ObserveRound(w.status.tracks, Ids(env.catalog.value),
                              Without(Rescored(config, env).value, w.controller.active.value.name),
                              config.select.alpha, env.rankedAt)
  {
    hide Cycle, Escalate, Rescored, Without, Ids, ObserveRound, Escalates;
    if Escalates(w, config, env) {
      ActsOnlyWhenEscalating(w, config, env);
      EscalateFolds(w.(status := w.status.(failures := w.status.failures + 1)), config, env, w.controller.active.value);
    } else {
      CalmCycles(w, config, env);
    }
  }

  /** What one event tells about a node. */
  ghost function EventAbout(c: Clocked, config: Config, e: Event, id: nat): seq<Observation>
    requires Possible(c, e)
  {
    if e.Cycled? && e.env.catalog.Some?
    then RoundAbout(Ids(e.env.catalog.value), Folded(c.world, config, e.env), e.env.rankedAt, id)
    else []
  }

  ghost function HistoryAbout(c: Clocked, config: Config, events: seq<Event>, id: nat): seq<Observation>
    requires Runs(c, config, events)
    decreases |events|
  {
    if events == [] then []
    else
      var last := |events| - 1;
      HistoryAbout(c, config, events[..last], id)
      + EventAbout(After(c, config, events[..last]), config, events[last], id)
  }

  lemma StepExtendsHistories(c: Clocked, config: Config, e: Event, id: nat, history: seq<Observation>)
    requires Possible(c, e)
    requires TrackFor(c.world.status.tracks, id) == TrackAfter(history, config.select.alpha)
    ensures TrackFor(Step(c, config, e).world.status.tracks, id)
         == TrackAfter(history + EventAbout(c, config, e, id), config.select.alpha)
  {
    hide Cycle, Folded, TrackAfter;
    assert history + [] == history;
    if e.Cycled? {
      CycleFolds(c.world, config, e.env);
      if e.env.catalog.Some? {
        RoundExtendsHistories(c.world.status.tracks, Ids(e.env.catalog.value), Folded(c.world, config, e.env),
                              config.select.alpha, e.env.rankedAt, id, history);
      }
    }
  }

  /**
   In every run, whatever is remembered of a node is the track of what the run's
   rounds said about it, in order: nothing is lost, mixed up or counted twice.
   */
  lemma {:induction false} TracksAreHistories(now: nat, config: Config, events: seq<Event>, id: nat)
    requires Runs(Boot(now), config, events)
    ensures TrackFor(After(Boot(now), config, events).world.status.tracks, id)
         == TrackAfter(HistoryAbout(Boot(now), config, events, id), config.select.alpha)
    decreases |events|
  {
    if events == [] {
    } else {
      var last := |events| - 1;
      TracksAreHistories(now, config, events[..last], id);
      hide Step, TrackAfter, EventAbout;
      StepExtendsHistories(After(Boot(now), config, events[..last]), config, events[last], id,
                           HistoryAbout(Boot(now), config, events[..last], id));
    }
  }

  // ----- costs in a run

  /** Trials report counts as the scatter pool makes them. */
  ghost predicate TrialsTallied(env: Env) {
    env.rescore.Some? ==>
      forall k | 0 <= k < |env.rescore.value.trials| ::
        env.rescore.value.trials[k].Some? ==> Tallied(env.rescore.value.trials[k].value)
  }

  lemma FinalistsAreTallied(nodes: seq<Node>, r: Rescore, limits: Limits, k: nat)
    requires Fits(nodes, r) && k < |FinalistScores(nodes, r, limits)|
    requires forall t | 0 <= t < |r.trials| :: r.trials[t].Some? ==> Tallied(r.trials[t].value)
    ensures FinalistScores(nodes, r, limits)[k].verified <= FinalistScores(nodes, r, limits)[k].total
  {
    hide Finalists;
  }

  lemma ScoresAreTallied(config: Config, env: Env, s: Score)
    requires env.catalog.Some? && env.rescore.Some? && TrialsTallied(env)
    requires s in Rescored(config, env).value
    ensures s.verified <= s.total
  {
    var nodes := Nodes(env.catalog.value);
    ShortlistIsTheBest(nodes, env.rescore.value, config.limits);
    var all := FinalistScores(nodes, env.rescore.value, config.limits);
    assert s in all;
    hide Rescored, TieredShortlist, FinalistScores, Tallied;
    var k :| 0 <= k < |all| && all[k] == s;
    FinalistsAreTallied(nodes, env.rescore.value, config.limits, k);
  }

  /** Every contender of every escalation of every run is charged within the stated range. */
  lemma CostsStayInRange(now: nat, config: Config, events: seq<Event>, env: Env, active: Node, e: RankedNode)
    requires Runs(Boot(now), config, events) && Sane(config.select)
    requires env.catalog.Some? && env.rescore.Some? && TrialsTallied(env)
    requires e in Contenders(After(Boot(now), config, events).world, config, env, active).1
    ensures var c := config.select;
            0.0 <= e.cost <= 4.0 * c.wLatency + 4.0 * c.wSpread + c.wQuorum + 4.0 * c.wFailure
  {
    var w := After(Boot(now), config, events).world;
    var ids, select := Ids(env.catalog.value), config.select;
    var scores := Without(Rescored(config, env).value, active.name);
    var tracks := ObserveRound(w.status.tracks, ids, scores, select.alpha, env.rankedAt);
    assert e in RankWorkingNodes(scores, tracks, ids, select, env.rankedAt);
    hide After, Contenders, Rescored, Without, ObserveRound, RankWorkingNodes, SelectionCost, Sane;
    RankingIsTheGateInCostOrder(scores, tracks, ids, select, env.rankedAt);
    var s :| s in scores && s.passes && RankOf(s, tracks, ids, select, env.rankedAt) == e;
    WithoutMembers(Rescored(config, env).value, active.name, s);
    ScoresAreTallied(config, env, s);
    PassingScoresWereScattered(config, env, s);
    var id := ids[s.nodeIndex];
    TracksAreHistories(now, config, events, id);
    var history := HistoryAbout(Boot(now), config, events, id);
    RoundExtendsHistories(w.status.tracks, ids, scores, select.alpha, env.rankedAt, id, history);
    CostIsBounded(s, history + RoundAbout(ids, scores, env.rankedAt, id), select, env.rankedAt);
  }
}
