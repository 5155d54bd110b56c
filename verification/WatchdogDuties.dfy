/**
 What a cycle does in each situation, both ways round: which action it reports, whom it
 picks, and how often it rescores. Candidates are scores of this cycle's own shortlist,
 and costs are by the tracks the cycle leaves behind.
 */
module WatchdogDuties {
  import opened Wrappers
  import opened Sorting
  import opened Shortlist
  import opened Selection
  import opened Watchdog
  import opened WatchdogEvidence
  import opened WatchdogRuns

  predicate Answered(env: Env) {
    env.catalog.Some? && env.rescore.Some?
  }

  // ----- a cycle that keeps watching

  /** The cycle probes its active node, and the probe passes. */
  predicate Passes(w: World, config: Config, env: Env) {
    && !w.controller.degraded && w.controller.active.Some?
    && LongSince(w.controller.lastManual, env.startedAt, config.manualWindow)
    && env.activeProbe == Some(true)
  }

  /** A rescore is due in quiet hours, or when the passed probes since the last one fill the cadence. */
  predicate RescoreDue(w: World, config: Config, env: Env) {
    env.quietHours || 0 < config.rescoreCycles <= w.status.cyclesSinceRescore + 1
  }

  /** A cycle rearms exactly on a passed probe with a rescore due and answered; that alone resets the cadence. */
  lemma RearmsExactly(w: World, config: Config, env: Env)
    ensures var o := Cycle(w, config, env);
            && (o.action.Rearmed? <==> Passes(w, config, env) && RescoreDue(w, config, env) && Answered(env))
            && (o.action.Healthy? <==> Passes(w, config, env) && !(RescoreDue(w, config, env) && Answered(env)))
            && o.world.status.cyclesSinceRescore
                 == (if o.action.Rearmed? then 0
                     else w.status.cyclesSinceRescore + if o.action.Healthy? then 1 else 0)
            && (o.action.Rearmed? ==>
                  && Rescored(config, env) == Some(o.world.status.shortlist)
                  && o.action.shortlist == |o.world.status.shortlist|)
            && (o.action.Healthy? ==> o.world.status.shortlist == w.status.shortlist)
            && (o.action.Rearmed? || o.action.Healthy? ==>
                  && o.world.controller == w.controller && o.world.status.failures == 0
                  && o.world.status.tracks == w.status.tracks)
  {
    hide Heal, Adopt, Escalate;
    if w.controller.degraded || w.controller.active.None? {
      CyclesWithoutWork(w, config, env);
      HealingIsNotWatching(w, config, env);
      AdoptingIsNotWatching(w, config, env);
      hide Cycle;
    } else if Escalates(w, config, env) {
      ActsOnlyWhenEscalating(w, config, env);
      var counted := w.(status := w.status.(failures := w.status.failures + 1));
      EscalatingIsNotWatching(counted, config, env, w.controller.active.value);
      hide Cycle;
    } else {
      hide Rescored;
    }
  }

  lemma HealingIsNotWatching(w: World, config: Config, env: Env)
    ensures var o := Heal(w, config, env);
            && (o.action.Healed? || o.action.Degraded?)
            && o.world.status.cyclesSinceRescore == w.status.cyclesSinceRescore
  {
    hide Rescored, FirstHealing;
  }

  lemma AdoptingIsNotWatching(w: World, config: Config, env: Env)
    ensures var o := Adopt(w, config, env);
            && (o.action.Adopted? || o.action.Degraded? || o.action.Idle? || o.action.Error?)
            && o.world.status.cyclesSinceRescore == w.status.cyclesSinceRescore
  {
    hide Rescored, Candidates, AdoptedTracks;
  }

  lemma EscalatingIsNotWatching(w: World, config: Config, env: Env, active: Node)
    ensures var o := Escalate(w, config, env, active);
            && (o.action.Switched? || o.action.Degraded? || o.action.Unconfirmed? || o.action.Error?)
            && o.world.status.cyclesSinceRescore == w.status.cyclesSinceRescore
  {
    hide Rescored, Without, ObserveRound, RankWorkingNodes, FirstConfirmed;
  }

  /**
   What becomes of a failed probe: with a grade below the floor the first failure is
   enough, otherwise the required number has to come together; and then the cooldown
   decides between resting and escalating.
   */
  lemma FailuresWaitExactly(w: World, config: Config, env: Env)
    requires !w.controller.degraded && w.controller.active.Some?
    requires LongSince(w.controller.lastManual, env.startedAt, config.manualWindow)
    requires env.activeProbe != Some(true)
    ensures var o := Cycle(w, config, env);
            var sick := && config.tunnelFloor.Some? && env.tunnelGrade.Some?
                        && env.tunnelGrade.value < config.tunnelFloor.value;
            var enough := sick || w.status.failures + 1 >= config.requiredFailures;
            && (o.action.Inspecting? <==> !enough)
            && (o.action.Inspecting? ==>
                  && o.action.failures == w.status.failures + 1
                  && o.world.status.shortlist
                       == (if Answered(env) then Rescored(config, env).value else w.status.shortlist))
            && (o.action.Cooldown? <==> enough && !LongSince(w.controller.lastAuto, env.probedAt, config.cooldown))
            && (!o.action.Inspecting? && !o.action.Cooldown? <==> Escalates(w, config, env))
            && (o.action.Inspecting? || o.action.Cooldown? ==>
                  && o.world.controller == w.controller && o.world.status.tracks == w.status.tracks
                  && o.world.status.failures == w.status.failures + 1)
  {
    if Escalates(w, config, env) {
      ActsOnlyWhenEscalating(w, config, env);
      var counted := w.(status := w.status.(failures := w.status.failures + 1));
      EscalatingIsNotWatching(counted, config, env, w.controller.active.value);
      hide Cycle, Escalate;
    } else {
      hide Escalate, Rescored;
    }
  }

  /** The courtesy window stops a cycle that would otherwise probe its node, and nothing else does. */
  lemma CourtesyStopsExactly(w: World, config: Config, env: Env)
    ensures var o := Cycle(w, config, env);
            && (o.action.ManualWindow? <==>
                  && !w.controller.degraded && w.controller.active.Some?
                  && !LongSince(w.controller.lastManual, env.startedAt, config.manualWindow))
            && (o.action.ManualWindow? ==> o.world == w)
  {
    if w.controller.degraded || w.controller.active.None? {
      CyclesWithoutWork(w, config, env);
      HealingIsNotWatching(w, config, env);
      AdoptingIsNotWatching(w, config, env);
      hide Cycle, Heal, Adopt;
    } else if Escalates(w, config, env) {
      ActsOnlyWhenEscalating(w, config, env);
      var counted := w.(status := w.status.(failures := w.status.failures + 1));
      EscalatingIsNotWatching(counted, config, env, w.controller.active.value);
      hide Cycle, Escalate;
    } else {
      hide Escalate, Heal, Adopt, Rescored;
    }
  }

  // ----- whom a cycle picks

  function CostOf(s: Score, tracks: Tracks, config: Config, env: Env): real
    requires env.catalog.Some?
  {
    SelectionCost(s, TrackOf(tracks, Ids(env.catalog.value), s.nodeIndex), config.select, env.rankedAt)
  }

  /** A cheapest of a pool of scores; of equally cheap ones the first in the catalog. */
  ghost predicate Cheapest(s: Score, pool: set<Score>, tracks: Tracks, config: Config, env: Env)
    requires env.catalog.Some?
  {
    && s in pool
    && forall t | t in pool ::
         || CostOf(s, tracks, config, env) < CostOf(t, tracks, config, env)
         || (CostOf(s, tracks, config, env) == CostOf(t, tracks, config, env) && s.nodeIndex <= t.nodeIndex)
  }

  ghost function Passing(config: Config, env: Env): set<Score> {
    if Answered(env) then set s | s in Rescored(config, env).value && s.passes else {}
  }

  /** Who may take over from the failed node: whoever passed and is not its namesake. */
  ghost function Contending(config: Config, env: Env, active: Node): set<Score> {
    set s | s in Passing(config, env) && s.name != active.name
  }

  ghost function Confirmed(config: Config, env: Env, active: Node): set<Score> {
    set s | s in Contending(config, env, active) && env.confirm(s.nodeIndex) == Some(true)
  }

  function EntryOf(s: Score, tracks: Tracks, config: Config, env: Env): RankedNode
    requires env.catalog.Some?
  {
    RankedNode(s.nodeIndex, CostOf(s, tracks, config, env))
  }

  /** `ranked` is the pool in cost order. */
  ghost predicate Ranks(ranked: seq<RankedNode>, pool: set<Score>, tracks: Tracks, config: Config, env: Env)
    requires env.catalog.Some?
  {
    && SortedBy(CheaperAtMost, ranked)
    && (forall s | s in pool :: EntryOf(s, tracks, config, env) in ranked)
    && (forall e | e in ranked :: exists s :: s in pool && EntryOf(s, tracks, config, env) == e)
  }

  lemma RankingRanks(scores: seq<Score>, pool: set<Score>, tracks: Tracks, config: Config, env: Env)
    requires env.catalog.Some? && forall s :: s in pool <==> s in scores && s.passes
    ensures Ranks(RankWorkingNodes(scores, tracks, Ids(env.catalog.value), config.select, env.rankedAt),
                  pool, tracks, config, env)
  {
    var ids := Ids(env.catalog.value);
    var ranked := RankWorkingNodes(scores, tracks, ids, config.select, env.rankedAt);
    RankingIsTheGateInCostOrder(scores, tracks, ids, config.select, env.rankedAt);
    hide RankWorkingNodes, SelectionCost, SortedBy;
    forall e | e in ranked ensures exists s :: s in pool && EntryOf(s, tracks, config, env) == e {
      var s :| s in scores && s.passes && RankOf(s, tracks, ids, config.select, env.rankedAt) == e;
      assert s in pool && EntryOf(s, tracks, config, env) == e;
    }
    forall s | s in pool ensures EntryOf(s, tracks, config, env) in ranked {
      assert RankOf(s, tracks, ids, config.select, env.rankedAt) in ranked;
    }
  }

  /** In such a ranking the first entry of somebody acceptable is a cheapest acceptable one's. */
  lemma FirstAcceptableIsCheapest(ranked: seq<RankedNode>, pool: set<Score>, good: set<Score>, tracks: Tracks,
                                  config: Config, env: Env, k: nat, s: Score)
    requires env.catalog.Some? && Ranks(ranked, pool, tracks, config, env) && good <= pool && k < |ranked|
    requires s in good && EntryOf(s, tracks, config, env) == ranked[k]
    requires forall j, t | 0 <= j < k && t in good :: EntryOf(t, tracks, config, env) != ranked[j]
    ensures Cheapest(s, good, tracks, config, env)
  {
    hide CostOf;
    forall t | t in good
      ensures || CostOf(s, tracks, config, env) < CostOf(t, tracks, config, env)
              || (CostOf(s, tracks, config, env) == CostOf(t, tracks, config, env) && s.nodeIndex <= t.nodeIndex)
    {
      var j :| 0 <= j < |ranked| && ranked[j] == EntryOf(t, tracks, config, env);
      assert k == j || CheaperAtMost(ranked[k], ranked[j]);
    }
  }

  lemma ContendersRank(w: World, config: Config, env: Env, active: Node)
    requires Answered(env)
    ensures var (folded, ranked) := Contenders(w, config, env, active);
            Ranks(ranked, Contending(config, env, active), folded.status.tracks, config, env)
  {
    var folded := Contenders(w, config, env, active).0;
    var scores := folded.status.shortlist;
    forall s ensures s in Contending(config, env, active) <==> s in scores && s.passes {
      WithoutMembers(Rescored(config, env).value, active.name, s);
    }
    hide Ranks, RankWorkingNodes, Rescored, Without, ObserveRound, Contending;
    RankingRanks(scores, Contending(config, env, active), folded.status.tracks, config, env);
  }

  /** The first confirmed in the ranking is the cheapest confirmed contender. */
  lemma FirstConfirmedIsCheapest(w: World, config: Config, env: Env, active: Node)
    requires Answered(env)
    ensures var (folded, ranked) := Contenders(w, config, env, active);
            var found := FirstConfirmed(ranked, env);
            && (found.None? <==> Confirmed(config, env, active) == {})
            && (found.Some? ==>
                  exists s :: && Cheapest(s, Confirmed(config, env, active), folded.status.tracks, config, env)
                              && s.nodeIndex == found.value)
            && (ranked == [] <==> Contending(config, env, active) == {})
  {
    var (folded, ranked) := Contenders(w, config, env, active);
    var tracks, pool, good := folded.status.tracks, Contending(config, env, active), Confirmed(config, env, active);
    FirstConfirmedFacts(ranked, env);
    ContendersRank(w, config, env, active);
    hide Contenders, Contending, CostOf, FirstConfirmed, Cheapest, SortedBy;
    if FirstConfirmed(ranked, env).Some? {
      var found := FirstConfirmed(ranked, env).value;
      var k :| && 0 <= k < |ranked| && ranked[k].nodeIndex == found && env.confirm(found) == Some(true)
               && forall j | 0 <= j < k :: env.confirm(ranked[j].nodeIndex) != Some(true);
      assert ranked[k] in ranked;
      var s :| s in pool && EntryOf(s, tracks, config, env) == ranked[k];
      assert s in good;
      FirstAcceptableIsCheapest(ranked, pool, good, tracks, config, env, k, s);
    } else {
      forall s | s in pool ensures env.confirm(s.nodeIndex) != Some(true) {
        assert EntryOf(s, tracks, config, env) in ranked;
      }
    }
    if ranked != [] {
      assert ranked[0] in ranked;
    }
  }

  /**
   How an escalation ends: in an error without catalog or rescore; in a degrade exactly
   when nobody contends; unconfirmed exactly when nobody who contends is confirmed;
   and otherwise it tries to switch to the cheapest confirmed contender, and to no other.
   */
  lemma EscalationsEndExactly(w: World, config: Config, env: Env)
    requires Escalates(w, config, env)
    ensures var active, o := w.controller.active.value, Cycle(w, config, env);
            var pool, tracks := Confirmed(config, env, active), o.world.status.tracks;
            && (!Answered(env) ==> o.action.Error?)
            && (o.action.Degraded? <==> Answered(env) && Contending(config, env, active) == {})
            && (o.action.Unconfirmed? <==> Answered(env) && Contending(config, env, active) != {} && pool == {})
            && (o.action.Switched? || (o.action.Error? && Answered(env)) <==> Answered(env) && pool != {})
            && (Answered(env) && pool != {} ==>
                  exists s :: && Cheapest(s, pool, tracks, config, env)
                              && (o.action.Switched? <==> env.switchWorks(s.nodeIndex))
                              && (o.action.Switched? ==> o.switchedTo == Some(s.nodeIndex)))
  {
    var active := w.controller.active.value;
    var counted := w.(status := w.status.(failures := w.status.failures + 1));
    ActsOnlyWhenEscalating(w, config, env);
    hide Cycle, Escalates;
    if Answered(env) {
      FirstConfirmedIsCheapest(counted, config, env, active);
      LookupsStayInBounds(counted, config, env, active);
      var ranked := Contenders(counted, config, env, active).1;
      FirstConfirmedFacts(ranked, env);
      FirstConfirmedStays(counted, config, env, active);
      hide Contenders, Cheapest, FirstConfirmed, Contending;
    }
  }

  /** What an escalation makes of its ranking. */
  lemma FirstConfirmedStays(w: World, config: Config, env: Env, active: Node)
    requires Answered(env)
    ensures var (folded, ranked) := Contenders(w, config, env, active);
            var found, o := FirstConfirmed(ranked, env), Escalate(w, config, env, active);
            && o.world.status.tracks == folded.status.tracks
            && (found.Some? ==>
                  && found.value < |env.catalog.value|
                  && (if env.switchWorks(found.value) then o.action.Switched? && o.switchedTo == found
                      else o.action.Error?))
            && (found.None? ==> if ranked != [] then o.action.Unconfirmed? else o.action.Degraded?)
  {
    var ranked := Contenders(w, config, env, active).1;
    if FirstConfirmed(ranked, env).Some? {
      ConfirmedContender(w, config, env, active);
    }
    hide Contenders, FirstConfirmed, SwitchText;
  }

  /** Who can bring a degraded controller back: passed, confirmed, and the switch works. */
  ghost function Healing(config: Config, env: Env): set<Score> {
    set s | s in Passing(config, env) && env.confirm(s.nodeIndex) == Some(true) && env.switchWorks(s.nodeIndex)
  }

  lemma HealersAreScores(config: Config, env: Env)
    requires Answered(env)
    ensures forall s :: s in Healing(config, env) <==> s in Rescored(config, env).value && Heals(s, env)
    ensures SortedBy(RankedAtMost, Rescored(config, env).value)
    ensures forall s | s in Rescored(config, env).value :: s.nodeIndex < |env.catalog.value|
  {
    ShortlistIsTheBest(Nodes(env.catalog.value), env.rescore.value, config.limits);
    hide TieredShortlist, FinalistScores, RankedAtMost, SortedBy;
  }

  ghost predicate RanksBest(s: Score, pool: set<Score>) {
    s in pool && forall t | t in pool && t != s :: RankedAtMost(s, t)
  }

  lemma FirstInOrderRanksBest(scores: seq<Score>, pool: set<Score>, env: Env, k: nat)
    requires SortedBy(RankedAtMost, scores) && k < |scores| && Heals(scores[k], env)
    requires forall j | 0 <= j < k :: !Heals(scores[j], env)
    requires forall s :: s in pool <==> s in scores && Heals(s, env)
    ensures RanksBest(scores[k], pool)
  {
    hide RankedAtMost, Heals;
    forall t | t in pool && t != scores[k] ensures RankedAtMost(scores[k], t) {
      var j :| 0 <= j < |scores| && scores[j] == t;
    }
  }

  /** The first to heal ranks at least as well as everybody else who could. */
  lemma FirstHealingRanksBest(config: Config, env: Env)
    requires Answered(env)
    ensures var found := FirstHealing(Rescored(config, env).value, env);
            && (found.None? <==> Healing(config, env) == {})
            && (found.Some? ==>
                  && found.value < |env.catalog.value|
                  && exists s :: RanksBest(s, Healing(config, env)) && s.nodeIndex == found.value)
  {
    var scores := Rescored(config, env).value;
    FirstHealingFacts(scores, env);
    HealersAreScores(config, env);
    hide Rescored, FirstHealing, RankedAtMost, Healing, Heals, SortedBy, RanksBest;
    var found := FirstHealing(scores, env);
    if found.Some? {
      var k :| && 0 <= k < |scores| && scores[k].nodeIndex == found.value && Heals(scores[k], env)
               && forall j | 0 <= j < k :: !Heals(scores[j], env);
      assert scores[k] in scores;
      FirstInOrderRanksBest(scores, Healing(config, env), env, k);
    }
  }

  /** A degraded cycle heals exactly when somebody can, taking the one who ranks best. */
  lemma HealsExactly(w: World, config: Config, env: Env)
    requires w.controller.degraded
    ensures var o, pool := Cycle(w, config, env), Healing(config, env);
            && (o.action.Healed? <==> pool != {}) && (o.action.Degraded? <==> pool == {})
            && (o.action.Healed? ==>
                  exists s :: RanksBest(s, pool) && o.switchedTo == Some(s.nodeIndex))
            && (o.action.Degraded? ==> o.world.controller == w.controller && o.switchedTo.None?)
            && o.world.status.shortlist == if Answered(env) then Rescored(config, env).value else w.status.shortlist
  {
    CyclesWithoutWork(w, config, env);
    hide Cycle;
    if Answered(env) {
      FirstHealingRanksBest(config, env);
      assert Rescored(config, env).Some?;
      hide Rescored, FirstHealing, RanksBest, Healing, SwitchText;
    }
  }

  /** The head of the ranking is the cheapest of everybody who passed. */
  lemma FirstRankedIsCheapest(w: World, config: Config, env: Env)
    requires Answered(env)
    ensures var ranked := Candidates(w, config, env);
            && (ranked == [] <==> Passing(config, env) == {})
            && (ranked != [] ==>
                  exists s :: && Cheapest(s, Passing(config, env), AdoptedTracks(w, config, env), config, env)
                              && s.nodeIndex == ranked[0].nodeIndex)
  {
    var tracks, ranked, pool := AdoptedTracks(w, config, env), Candidates(w, config, env), Passing(config, env);
    forall s ensures s in pool <==> s in Rescored(config, env).value && s.passes {}
    RankingRanks(Rescored(config, env).value, pool, tracks, config, env);
    hide Candidates, Rescored, AdoptedTracks, CostOf, Passing, Cheapest, SortedBy;
    if ranked != [] {
      assert ranked[0] in ranked;
      var s :| s in pool && EntryOf(s, tracks, config, env) == ranked[0];
      FirstAcceptableIsCheapest(ranked, pool, pool, tracks, config, env, 0, s);
    }
  }

  /** An idle cycle that adopts tries the cheapest of everybody who passed; without a choice it stays idle. */
  lemma AdoptsExactly(w: World, config: Config, env: Env)
    requires !w.controller.degraded && w.controller.active.None?
    ensures var o := Cycle(w, config, env);
            var choice := config.adoptOnIdle && Answered(env) && env.catalog.value != [];
            && (o.action.Idle? <==> !choice)
            && (o.action.Degraded? <==> choice && Passing(config, env) == {})
            && (choice && Passing(config, env) != {} ==>
                  exists s :: && Cheapest(s, Passing(config, env), o.world.status.tracks, config, env)
                              && (if env.switchWorks(s.nodeIndex)
                                  then o.action.Adopted? && o.switchedTo == Some(s.nodeIndex)
                                  else o.action.Error? && o.switchedTo.None?))
            && (!o.action.Adopted? ==> o.world.controller == w.controller)
  {
    CyclesWithoutWork(w, config, env);
    hide Cycle;
    if config.adoptOnIdle && Answered(env) && env.catalog.value != [] {
      FirstRankedIsCheapest(w, config, env);
      CandidatesAreScattered(w, config, env);
      hide Candidates, AdoptedTracks, Cheapest, Passing, Scattered, Rescored, SwitchText;
    }
  }

  // ----- how often a run rescores

  /** Passed probes since the last rescore they led to. */
  ghost function PassedSinceRearm(c: Clocked, config: Config, events: seq<Event>): nat
    requires Runs(c, config, events)
    decreases |events|
  {
    if events == [] then 0
    else
      var last := |events| - 1;
      var before, e := After(c, config, events[..last]), events[last];
      if !e.Cycled? then PassedSinceRearm(c, config, events[..last])
      else if Cycle(before.world, config, e.env).action.Rearmed? then 0
      else PassedSinceRearm(c, config, events[..last]) + if Passes(before.world, config, e.env) then 1 else 0
  }

  ghost predicate AlwaysAnswered(events: seq<Event>) {
    forall e | e in events :: e.Cycled? ==> Answered(e.env)
  }

  /**
   In every run the cadence counter is the number of passed probes since the last
   rescore; with a cadence configured, and catalog and sweep answering, it never
   reaches it, so every stretch of that many passed probes has a rescore in it.
   */
  lemma {:induction false} RescoresAreNeverOverdue(now: nat, config: Config, events: seq<Event>)
    requires Runs(Boot(now), config, events)
    ensures After(Boot(now), config, events).world.status.cyclesSinceRescore
         == PassedSinceRearm(Boot(now), config, events)
    ensures config.rescoreCycles > 0 && AlwaysAnswered(events) ==>
              PassedSinceRearm(Boot(now), config, events) < config.rescoreCycles
    decreases |events|
  {
    if events == [] {
    } else {
      var last := |events| - 1;
      RescoresAreNeverOverdue(now, config, events[..last]);
      assert AlwaysAnswered(events) ==> AlwaysAnswered(events[..last]);
      assert events[last] in events;
      if events[last].Cycled? {
        RearmsExactly(After(Boot(now), config, events[..last]).world, config, events[last].env);
        hide Cycle;
      }
    }
  }
}
