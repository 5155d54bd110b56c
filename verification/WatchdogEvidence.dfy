/** What a cycle must have seen before it changes the active node or gives up on it. */
module WatchdogEvidence {
  import opened Wrappers
  import opened Sorting
  import opened ScatterReport
  import opened Shortlist
  import opened Selection
  import opened Watchdog

  /** The node's own trial of this cycle reached the quorum. */
  ghost predicate Scattered(config: Config, env: Env, index: nat)
    requires env.catalog.Some? && env.rescore.Some?
  {
    var chosen := Finalists(Nodes(env.catalog.value), env.rescore.value, config.limits);
    exists k :: && 0 <= k < |chosen| && chosen[k] == index
                && TrialPassed(Get(env.rescore.value.trials, k), config.limits.minVerified)
  }

  predicate TrialPassed(trial: Option<Report>, minVerified: nat) {
    trial.Some? && trial.value.quorumVerified >= minVerified
  }

  lemma PassingScoresWereScattered(config: Config, env: Env, s: Score)
    requires env.catalog.Some? && env.rescore.Some?
    requires s in Rescored(config, env).value
    ensures s.nodeIndex < |env.catalog.value| && s.name == env.catalog.value[s.nodeIndex].1.name
    ensures s.passes ==> Scattered(config, env, s.nodeIndex)
  {
    var nodes := Nodes(env.catalog.value);
    ShortlistIsTheBest(nodes, env.rescore.value, config.limits);
    var all := FinalistScores(nodes, env.rescore.value, config.limits);
    assert s in all;
    hide Rescored, TieredShortlist, SortedBy, RankedAtMost;
    var k :| 0 <= k < |all| && all[k] == s;
    assert Finalists(nodes, env.rescore.value, config.limits)[k] == s.nodeIndex;
  }

  lemma RankedAreScattered(config: Config, env: Env, scores: seq<Score>, tracks: Tracks, e: RankedNode)
    requires env.catalog.Some? && env.rescore.Some?
    requires forall s | s in scores :: s in Rescored(config, env).value
    requires e in RankWorkingNodes(scores, tracks, Ids(env.catalog.value), config.select, env.rankedAt)
    ensures e.nodeIndex < |env.catalog.value| && Scattered(config, env, e.nodeIndex)
    ensures exists s :: s in scores && s.passes && s.nodeIndex == e.nodeIndex
  {
    var ids := Ids(env.catalog.value);
    RankingIsTheGateInCostOrder(scores, tracks, ids, config.select, env.rankedAt);
    var s :| s in scores && s.passes && RankOf(s, tracks, ids, config.select, env.rankedAt) == e;
    PassingScoresWereScattered(config, env, s);
  }

  predicate MakesActive(a: Action) {
    a.Switched? || a.Healed? || a.Adopted?
  }

  /** The outcome of a branch of the cycle rests on this cycle's own evidence. */
  ghost predicate Grounded(before: Controller, config: Config, env: Env, o: Outcome)
  {
    && (o.switchedTo.Some? <==> MakesActive(o.action))
    && (o.switchedTo.Some? ==>
          && env.catalog.Some? && env.rescore.Some?
          && var i := o.switchedTo.value;
             && i < |env.catalog.value|
             && Scattered(config, env, i)
             && env.switchWorks(i)
             && (!o.action.Adopted? ==> env.confirm(i) == Some(true))
             && o.world.controller == SwitchTo(before, env.catalog.value[i].1, true, env.switchedAt)
             && o.world.status.failures == 0
             && !o.degradeCalled)
    && (o.degradeCalled ==> o.action.Degraded? && o.world.controller == DegradeToDirect(before))
    && (o.switchedTo.None? && !o.degradeCalled ==> o.world.controller == before)
  }

  /** The candidate an escalation settles on passed both checks and is not the failed node. */
  lemma ConfirmedContender(w: World, config: Config, env: Env, active: Node)
    requires env.catalog.Some? && env.rescore.Some?
    requires FirstConfirmed(Contenders(w, config, env, active).1, env).Some?
    ensures var i := FirstConfirmed(Contenders(w, config, env, active).1, env).value;
            && i < |env.catalog.value| && Scattered(config, env, i) && env.confirm(i) == Some(true)
            && env.catalog.value[i].1.name != active.name
  {
    var (folded, ranked) := Contenders(w, config, env, active);
    FirstConfirmedFacts(ranked, env);
    var found := FirstConfirmed(ranked, env);
    var k :| 0 <= k < |ranked| && ranked[k].nodeIndex == found.value && env.confirm(found.value) == Some(true);
    var scores := folded.status.shortlist;
    forall s | s in scores ensures s in Rescored(config, env).value && s.name != active.name {
      WithoutMembers(Rescored(config, env).value, active.name, s);
    }
    assert ranked[k] in ranked;
    RankedAreScattered(config, env, scores, folded.status.tracks, ranked[k]);
    var s :| s in scores && s.passes && s.nodeIndex == ranked[k].nodeIndex;
    PassingScoresWereScattered(config, env, s);
  }

  lemma FoldingLeavesTheController(w: World, config: Config, env: Env, active: Node)
    requires env.catalog.Some? && env.rescore.Some?
    ensures Contenders(w, config, env, active).0.controller == w.controller
  {
  }

  lemma StayingIsGrounded(before: Controller, config: Config, env: Env, w: World, action: Action)
    requires w.controller == before && !MakesActive(action)
    ensures Grounded(before, config, env, Stay(w, action))
  {
  }

  lemma SwitchingIsGrounded(before: Controller, config: Config, env: Env, w: World, i: nat, action: Action)
    requires env.catalog.Some? && env.rescore.Some? && i < |env.catalog.value| && Scattered(config, env, i)
    requires w.controller == before && env.switchWorks(i) && MakesActive(action)
    requires action.Adopted? || env.confirm(i) == Some(true)
    ensures Grounded(before, config, env, SwitchOutcome(w, env.catalog.value[i].1, i, env.switchedAt, action))
  {
    hide Scattered;
  }

  lemma DegradingIsGrounded(before: Controller, config: Config, env: Env, w: World, status: Status)
    requires w.controller == before
    ensures Grounded(before, config, env, Outcome(World(DegradeToDirect(w.controller), status), Degraded, None, true))
  {
  }

  lemma EscalateIsGrounded(w: World, config: Config, env: Env, active: Node)
    ensures Grounded(w.controller, config, env, Escalate(w, config, env, active))
    ensures Escalate(w, config, env, active).action.Switched? ==>
              && env.catalog.Some? && Escalate(w, config, env, active).switchedTo.Some?
              && Escalate(w, config, env, active).switchedTo.value < |env.catalog.value|
              && env.catalog.value[Escalate(w, config, env, active).switchedTo.value].1.name != active.name
  {
    if env.catalog.None? || env.rescore.None? {
      StayingIsGrounded(w.controller, config, env, w, Error);
      hide Grounded, Contenders, FirstConfirmed;
    } else {
      FoldingLeavesTheController(w, config, env, active);
      hide Grounded, Contenders, FirstConfirmed, Scattered, SwitchText, DegradeToDirect;
      var (folded, ranked) := Contenders(w, config, env, active);
      StayingIsGrounded(w.controller, config, env, folded, Error);
      StayingIsGrounded(w.controller, config, env, folded, Unconfirmed);
      DegradingIsGrounded(w.controller, config, env, folded, folded.status.(failures := 0));
      if FirstConfirmed(ranked, env).Some? {
        ConfirmedContender(w, config, env, active);
        var i := FirstConfirmed(ranked, env).value;
        if env.switchWorks(i) {
          SwitchingIsGrounded(w.controller, config, env, folded, i, Switched(SwitchText(env.catalog.value[i].1)));
        }
      }
    }
  }

  lemma HealIsGrounded(w: World, config: Config, env: Env)
    ensures Grounded(w.controller, config, env, Heal(w, config, env))
    ensures !Heal(w, config, env).action.Switched?
  {
    var rescored := Rescored(config, env);
    if rescored.Some? {
      FirstHealingFacts(rescored.value, env);
      var found := FirstHealing(rescored.value, env);
      if found.Some? {
        var k :| && 0 <= k < |rescored.value| && rescored.value[k].nodeIndex == found.value
                 && Heals(rescored.value[k], env);
        PassingScoresWereScattered(config, env, rescored.value[k]);
      }
    }
  }

  /** The candidate an adoption takes passed its trial. */
  lemma CandidatesAreScattered(w: World, config: Config, env: Env)
    requires env.catalog.Some? && env.rescore.Some?
    ensures var ranked := Candidates(w, config, env);
            ranked != [] ==>
              ranked[0].nodeIndex < |env.catalog.value| && Scattered(config, env, ranked[0].nodeIndex)
  {
    var ranked := Candidates(w, config, env);
    if ranked != [] {
      assert ranked[0] in ranked;
      RankedAreScattered(config, env, Rescored(config, env).value, AdoptedTracks(w, config, env), ranked[0]);
    }
  }

  lemma AdoptIsGrounded(w: World, config: Config, env: Env)
    ensures Grounded(w.controller, config, env, Adopt(w, config, env))
    ensures !Adopt(w, config, env).action.Switched?
  {
    hide Candidates, AdoptedTracks, Scattered, Rescored, SwitchText;
    if env.catalog.Some? && env.rescore.Some? {
      CandidatesAreScattered(w, config, env);
    }
  }

  /**
   Whatever a cycle meets: it makes a node active only on a quorum trial of that
   node in the same cycle, and, unless it adopts from idle, on a second probe as
   well; it leaves the controller alone otherwise.
   */
  lemma CyclesAreGrounded(w: World, config: Config, env: Env)
    ensures Grounded(w.controller, config, env, Cycle(w, config, env))
    ensures Cycle(w, config, env).action.Switched? ==>
              && w.controller.active.Some?
              && env.catalog.value[Cycle(w, config, env).switchedTo.value].1.name != w.controller.active.value.name
  {
    hide Escalate, Heal, Adopt, Scattered, Rescored;
    if w.controller.degraded {
      HealIsGrounded(w, config, env);
    } else if w.controller.active.None? {
      AdoptIsGrounded(w, config, env);
    } else {
      var counted := w.(status := w.status.(failures := w.status.failures + 1));
      EscalateIsGrounded(counted, config, env, w.controller.active.value);
    }
  }

  /** Every candidate is addressed inside the catalog, so no lookup can fail. */
  lemma LookupsStayInBounds(w: World, config: Config, env: Env, active: Node)
    requires env.catalog.Some? && env.rescore.Some?
    ensures forall e | e in Contenders(w, config, env, active).1 :: e.nodeIndex < |env.catalog.value|
    ensures forall s | s in Rescored(config, env).value :: s.nodeIndex < |env.catalog.value|
  {
    var (folded, ranked) := Contenders(w, config, env, active);
    forall s | s in Rescored(config, env).value ensures s.nodeIndex < |env.catalog.value| {
      PassingScoresWereScattered(config, env, s);
    }
    forall e | e in ranked ensures e.nodeIndex < |env.catalog.value| {
      forall s | s in folded.status.shortlist ensures s in Rescored(config, env).value {
        WithoutMembers(Rescored(config, env).value, active.name, s);
      }
      RankedAreScattered(config, env, folded.status.shortlist, folded.status.tracks, e);
    }
  }

  /** Every contender ranked ahead of the one switched to failed its second probe. */
  lemma SwitchedToTheFirstConfirmed(w: World, config: Config, env: Env, active: Node, e: RankedNode)
    requires Escalate(w, config, env, active).action.Switched?
    requires e in Contenders(w, config, env, active).1
    requires env.confirm(e.nodeIndex) == Some(true)
    ensures exists chosen :: && chosen in Contenders(w, config, env, active).1
                             && chosen.nodeIndex == Escalate(w, config, env, active).switchedTo.value
                             && CheaperAtMost(chosen, e)
  {
    var (folded, ranked) := Contenders(w, config, env, active);
    FirstConfirmedFacts(ranked, env);
    var index := FirstConfirmed(ranked, env).value;
    var k :| && 0 <= k < |ranked| && ranked[k].nodeIndex == index
             && forall j | 0 <= j < k :: env.confirm(ranked[j].nodeIndex) != Some(true);
    var j :| 0 <= j < |ranked| && ranked[j] == e;
    RankingIsTheGateInCostOrder(folded.status.shortlist, folded.status.tracks, Ids(env.catalog.value),
                                config.select, env.rankedAt);
    assert k == j || CheaperAtMost(ranked[k], ranked[j]);
    assert ranked[k] in ranked;
  }

  // ----- when adoption gives up

  /** There was a catalog to adopt from, its rescore answered, and nobody reached the quorum. */
  predicate NobodyToAdopt(config: Config, env: Env) {
    && env.catalog.Some? && env.catalog.value != [] && env.rescore.Some?
    && forall s | s in Rescored(config, env).value :: !s.passes
  }

  /** Adoption reports a degrade exactly when nobody can be adopted, and then leaves the controller as it was. */
  lemma AdoptReportsDegradedExactly(w: World, config: Config, env: Env)
    ensures Adopt(w, config, env).action.Degraded? <==> NobodyToAdopt(config, env)
    ensures Adopt(w, config, env).action.Degraded? ==>
              && Adopt(w, config, env).world.controller == w.controller
              && !Adopt(w, config, env).degradeCalled && Adopt(w, config, env).switchedTo.None?
  {
    if env.catalog.Some? && env.rescore.Some? {
      RankingIsTheGateInCostOrder(Rescored(config, env).value, AdoptedTracks(w, config, env), Ids(env.catalog.value),
                                  config.select, env.rankedAt);
    }
    hide AdoptedTracks, Rescored, RankWorkingNodes, SortedBy;
  }

  /**
   A cycle reports a degrade and leaves the controller not degraded exactly when it
   had nothing active, was to adopt, and nobody could be adopted: the hook was not
   called, so nothing was torn down and nothing will heal.
   */
  lemma DegradedInNameOnlyExactly(w: World, config: Config, env: Env)
    ensures Cycle(w, config, env).action.Degraded? && !Cycle(w, config, env).world.controller.degraded <==>
            && !w.controller.degraded && w.controller.active.None?
            && config.adoptOnIdle && NobodyToAdopt(config, env)
    ensures Cycle(w, config, env).action.Degraded? && !Cycle(w, config, env).world.controller.degraded ==>
            Cycle(w, config, env).world.controller == w.controller && !Cycle(w, config, env).degradeCalled
  {
    CyclesAreGrounded(w, config, env);
    hide Cycle, Heal, Adopt, Escalate, NobodyToAdopt, Scattered;
    if w.controller.degraded || w.controller.active.None? {
      CyclesWithoutWork(w, config, env);
      AdoptReportsDegradedExactly(w, config, env);
    } else if Escalates(w, config, env) {
      ActsOnlyWhenEscalating(w, config, env);
      EscalationsReportWhatTheyDo(w.(status := w.status.(failures := w.status.failures + 1)), config, env,
                                  w.controller.active.value);
    } else {
      CalmCyclesDoNotDegrade(w, config, env);
    }
  }

  lemma EscalationsReportWhatTheyDo(w: World, config: Config, env: Env, active: Node)
    ensures Escalate(w, config, env, active).action.Degraded? ==> Escalate(w, config, env, active).degradeCalled
  {
    hide Contenders, FirstConfirmed;
  }

  lemma CalmCyclesDoNotDegrade(w: World, config: Config, env: Env)
    requires !w.controller.degraded && w.controller.active.Some? && !Escalates(w, config, env)
    ensures !Cycle(w, config, env).action.Degraded?
  {
    hide Heal, Adopt, Escalate, Rescored;
  }

  // ----- when a cycle escalates

  /** At least the window lies between a stamp, if there is one, and now. */
  predicate LongSince(stamp: Option<nat>, now: nat, window: nat) {
    stamp.None? || window == 0 || stamp.value + window <= now
  }

  ghost predicate Escalates(w: World, config: Config, env: Env) {
    && !w.controller.degraded && w.controller.active.Some?
    && LongSince(w.controller.lastManual, env.startedAt, config.manualWindow)
    && env.activeProbe != Some(true)
    && (|| w.status.failures + 1 >= config.requiredFailures
        || (config.tunnelFloor.Some? && env.tunnelGrade.Some? && env.tunnelGrade.value < config.tunnelFloor.value))
    && LongSince(w.controller.lastAuto, env.probedAt, config.cooldown)
  }

  /**
   A cycle with an active node acts on it exactly when it escalates: when the
   failures have reached the required count, or telemetry of that very cycle is
   present and below a configured floor.
   */
  lemma ActsOnlyWhenEscalating(w: World, config: Config, env: Env)
    ensures Cycle(w, config, env).action.Switched? || Cycle(w, config, env).degradeCalled ==>
              Escalates(w, config, env)
    ensures Escalates(w, config, env) ==>
              Cycle(w, config, env) == Escalate(w.(status := w.status.(failures := w.status.failures + 1)),
                                                config, env, w.controller.active.value)
    ensures Escalates(w, config, env) && env.tunnelGrade.None? ==>
              w.status.failures + 1 >= config.requiredFailures
  {
    if w.controller.degraded || w.controller.active.None? {
      CyclesWithoutWork(w, config, env);
      HealsAndAdoptsNeverIntervene(w, config, env);
      hide Cycle, Heal, Adopt;
    } else {
      hide Heal, Adopt, Escalate, Rescored;
    }
  }

  lemma HealsAndAdoptsNeverIntervene(w: World, config: Config, env: Env)
    ensures !Heal(w, config, env).action.Switched? && !Heal(w, config, env).degradeCalled
    ensures !Adopt(w, config, env).action.Switched? && !Adopt(w, config, env).degradeCalled
  {
    hide Rescored, FirstHealing, Candidates, AdoptedTracks;
  }

  /** Without an active node to look after, a cycle heals, adopts or rests. */
  lemma CyclesWithoutWork(w: World, config: Config, env: Env)
    ensures w.controller.degraded ==> Cycle(w, config, env) == Heal(w, config, env)
    ensures !w.controller.degraded && w.controller.active.None? ==>
              Cycle(w, config, env) == if config.adoptOnIdle then Adopt(w, config, env)
                                       else Stay(w.(status := w.status.(shortlist := [])), Idle)
  {
    hide Heal, Adopt, PassedProbe, FailedProbe;
  }

  /** A cycle that finds an active node and does not escalate only counts. */
  lemma CalmCycles(w: World, config: Config, env: Env)
    requires !w.controller.degraded && w.controller.active.Some? && !Escalates(w, config, env)
    ensures var o := Cycle(w, config, env);
            && o.switchedTo.None? && !o.degradeCalled
            && o.world.controller == w.controller && o.world.status.tracks == w.status.tracks
            && o.world.status.failures ==
                 if !LongSince(w.controller.lastManual, env.startedAt, config.manualWindow) then w.status.failures
                 else if env.activeProbe == Some(true) then 0
                 else w.status.failures + 1
  {
    hide Heal, Adopt, Escalate, Rescored;
  }

  /** The cut shortlist still holds somebody to switch to. */
  predicate Replaceable(scores: seq<Score>, active: Node) {
    exists s :: s in scores && s.passes && s.name != active.name
  }

  lemma DegradesExactlyWhenAlone(w: World, config: Config, env: Env)
    requires Escalates(w, config, env) && env.catalog.Some? && env.rescore.Some?
    ensures Cycle(w, config, env).degradeCalled <==>
            !Replaceable(Rescored(config, env).value, w.controller.active.value)
  {
    var active := w.controller.active.value;
    var counted := w.(status := w.status.(failures := w.status.failures + 1));
    ActsOnlyWhenEscalating(w, config, env);
    var (folded, ranked) := Contenders(counted, config, env, active);
    var scores := folded.status.shortlist;
    RankingIsTheGateInCostOrder(scores, folded.status.tracks, Ids(env.catalog.value), config.select, env.rankedAt);
    FirstConfirmedFacts(ranked, env);
    forall s ensures s in scores <==> s in Rescored(config, env).value && s.name != active.name {
      WithoutMembers(Rescored(config, env).value, active.name, s);
    }
  }

  /**
   An escalation drops to direct although some finalist with another name
   reached the quorum exactly when the cut to `rescoreLimit` kept nothing but
   finalists sharing the failed node's name.
   */
  lemma DegradesTooEarlyExactly(w: World, config: Config, env: Env)
    requires Escalates(w, config, env) && env.catalog.Some? && env.rescore.Some?
    ensures var active := w.controller.active.value;
            var all := FinalistScores(Nodes(env.catalog.value), env.rescore.value, config.limits);
            var kept := Rescored(config, env).value;
            && (Cycle(w, config, env).degradeCalled && Replaceable(all, active) <==>
                  && Replaceable(all, active)
                  && |kept| == config.limits.rescoreLimit
                  && forall s | s in kept :: s.name == active.name)
            && (Cycle(w, config, env).degradeCalled && Replaceable(all, active) ==>
                  config.limits.rescoreLimit < config.limits.finalists)
  {
    var active := w.controller.active.value;
    var nodes := Nodes(env.catalog.value);
    var all := FinalistScores(nodes, env.rescore.value, config.limits);
    var kept := Rescored(config, env).value;
    ShortlistIsTheBest(nodes, env.rescore.value, config.limits);
    DegradesExactlyWhenAlone(w, config, env);
    if Cycle(w, config, env).degradeCalled && Replaceable(all, active) {
      var t :| t in all && t.passes && t.name != active.name;
      assert t !in kept;
      forall s | s in kept ensures s.name == active.name {
        assert RankedAtMost(s, t);
        assert s.passes;
      }
      DroppedMeansFull(nodes, env.rescore.value, config.limits, t);
    }
  }

  /** A finalist can only be dropped when the limit is below the number of finalists. */
  lemma DroppedMeansFull(nodes: seq<Node>, r: Rescore, limits: Limits, t: Score)
    requires Fits(nodes, r)
    requires t in FinalistScores(nodes, r, limits) && t !in TieredShortlist(nodes, r, limits)
    ensures limits.rescoreLimit < limits.finalists
  {
    if nodes == [] {
      EmptyCatalogHasNoFinalists(nodes, r, limits);
    } else {
      var all := FinalistScores(nodes, r, limits);
      SortMember(t, all, RankedAtMost);
      FinalistsAreTheTop(r.sweep, limits.finalists);
    }
  }

  /** With a limit no smaller than the number of finalists, giving up means no finalist could take over. */
  lemma DegradesExactlyWhenNoFinalistPasses(w: World, config: Config, env: Env)
    requires Escalates(w, config, env) && env.catalog.Some? && env.rescore.Some?
    requires config.limits.finalists <= config.limits.rescoreLimit
    ensures Cycle(w, config, env).degradeCalled <==>
            !Replaceable(FinalistScores(Nodes(env.catalog.value), env.rescore.value, config.limits),
                         w.controller.active.value)
  {
    DegradesExactlyWhenAlone(w, config, env);
    DegradesTooEarlyExactly(w, config, env);
    ShortlistIsTheBest(Nodes(env.catalog.value), env.rescore.value, config.limits);
  }
}
