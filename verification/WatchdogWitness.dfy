/** Inputs on which the watchdog does what its documentation says it does not. */
module WatchdogWitness {
  import opened Wrappers
  import opened ScatterReport
  import opened Median
  import opened Sorting
  import opened Shortlist
  import opened Watchdog
  import opened WatchdogEvidence

  // ----- everything is dead

  /** One node in the catalog, proven dead by the sweep, and the active node's probe fails. */
  function Blackout(node: Node, now: nat): Env {
    Observed(Some([(1, node)]), Some(Rescore([CheapOutcome(None, true)], [])), Some(false), None, false,
             _ => None, _ => false, now, now, now, now)
  }

  lemma NobodyScores(config: Config, node: Node, now: nat)
    ensures Rescored(config, Blackout(node, now)) == Some([])
  {
    var env := Blackout(node, now);
    var nodes, r := Nodes(env.catalog.value), env.rescore.value;
    FinalistsAreTheTop(r.sweep, config.limits.finalists);
    assert LiveBelow(r.sweep, 0) == [];
    assert LiveBelow(r.sweep, 1) == [];
    assert |FinalistScores(nodes, r, config.limits)| == 0;
  }

  /** With nothing active an auto-adopting cycle then reports a degrade, and the controller is as it was. */
  lemma DegradedInNameOnlyHappens(w: World, config: Config, node: Node, now: nat)
    requires !w.controller.degraded && w.controller.active.None? && config.adoptOnIdle
    ensures Cycle(w, config, Blackout(node, now)).action.Degraded?
    ensures Cycle(w, config, Blackout(node, now)).world.controller == w.controller
    ensures !Cycle(w, config, Blackout(node, now)).degradeCalled
  {
    NobodyScores(config, node, now);
    DegradedInNameOnlyExactly(w, config, Blackout(node, now));
    hide Cycle, Rescored;
  }

  /** A cycle that escalates then degrades for real, whatever is configured. */
  lemma BlackoutDegrades(w: World, config: Config, node: Node, now: nat)
    requires Escalates(w, config, Blackout(node, now))
    ensures Cycle(w, config, Blackout(node, now)).degradeCalled
    ensures Cycle(w, config, Blackout(node, now)).switchedTo.None?
  {
    NobodyScores(config, node, now);
    DegradesExactlyWhenAlone(w, config, Blackout(node, now));
    CyclesAreGrounded(w, config, Blackout(node, now));
    hide Cycle, Rescored, Scattered;
  }

  // ----- the failed node's namesakes take every slot

  function Operators(n: nat, ms: nat): (checks: seq<Check>)
    ensures |checks| == n
  {
    seq(n, _ => Check("operator", true, ms))
  }

  /** A trial in which each of `n` operators answered after `ms`. */
  function Answered(n: nat, ms: nat): Report {
    Report(Operators(n, ms), n, n, n, true)
  }

  /** How slow the node at a position is: the last one is slower than the rest. */
  function Pace(i: nat, slots: nat): nat {
    if i < slots then 10 else 20
  }

  /**
   As many nodes of the failed one's name as there are slots, and one more node. They
   all pass their trials, the last one more slowly; the active node's probe fails.
   */
  function Crowd(active: Node, other: Node, limits: Limits, now: nat): Env {
    var slots := limits.rescoreLimit;
    Observed(Some(seq(slots + 1, i => (i, if i < slots then active else other))),
             Some(Rescore(seq(slots + 1, _ => CheapOutcome(Some(10), false)),
                          seq(slots + 1, i requires 0 <= i => Some(Answered(limits.minVerified + 1, Pace(i, slots)))))),
             Some(false), None, false, _ => Some(true), _ => true, now, now, now, now)
  }

  lemma {:induction false} AllAreLive(sweep: seq<CheapOutcome>, n: nat)
    requires n <= |sweep| && forall i | 0 <= i < |sweep| :: !sweep[i].dead
    ensures |LiveBelow(sweep, n)| == n
  {
    if n == 0 {
    } else {
      AllAreLive(sweep, n - 1);
    }
  }

  lemma {:induction false} RoomBelow(chosen: seq<nat>, i: nat)
    requires i < |chosen| && forall a, b | 0 <= a < b < |chosen| :: Before(chosen[a], chosen[b])
    ensures i <= chosen[i]
  {
    if i == 0 {
    } else {
      RoomBelow(chosen, i - 1);
      assert Before(chosen[i - 1], chosen[i]);
    }
  }

  lemma {:induction false} RoomAbove(chosen: seq<nat>, i: nat, n: nat)
    requires i < |chosen| && forall a, b | 0 <= a < b < |chosen| :: Before(chosen[a], chosen[b])
    requires forall a | 0 <= a < |chosen| :: chosen[a] < n
    ensures chosen[i] + (|chosen| - i) <= n
    decreases |chosen| - i
  {
    if i == |chosen| - 1 {
    } else {
      RoomAbove(chosen, i + 1, n);
      assert Before(chosen[i], chosen[i + 1]);
    }
  }

  /** A sweep that finds everybody live, with room for all, promotes everybody. */
  lemma EverybodyIsFinalist(sweep: seq<CheapOutcome>, finalists: nat)
    requires |sweep| <= finalists && forall i | 0 <= i < |sweep| :: !sweep[i].dead
    ensures |SelectFinalists(sweep, finalists)| == |sweep|
    ensures forall i | 0 <= i < |sweep| :: SelectFinalists(sweep, finalists)[i] == i
  {
    var chosen := SelectFinalists(sweep, finalists);
    FinalistsAreTheTop(sweep, finalists);
    AllAreLive(sweep, |sweep|);
    hide SelectFinalists, LiveBelow, Outranks;
    forall i | 0 <= i < |sweep| ensures chosen[i] == i {
      RoomBelow(chosen, i);
      RoomAbove(chosen, i, |sweep|);
    }
  }

  lemma {:induction false} AllWithin(n: nat, ms: nat)
    ensures VerifiedLatencies(Operators(n, ms)) == seq(n, _ => ms)
    ensures CountWithin(seq(n, _ => ms), ms, ms) == n
  {
    if n == 0 {
    } else {
      AllWithin(n - 1, ms);
      assert Operators(n, ms)[1..] == Operators(n - 1, ms);
      assert seq<nat>(n, _ => ms)[1..] == seq<nat>(n - 1, _ => ms);
      assert seq<nat>(n, _ => ms) == [ms] + seq<nat>(n - 1, _ => ms);
    }
  }

  lemma MedianOfEqualAnswers(n: nat, ms: nat)
    requires 0 < n && ms <= U64_MAX
    ensures MedianOfVerified(Answered(n, ms).checks).0 == Some(ms)
  {
    AllWithin(n, ms);
    MinorityCannotMoveMedian(Operators(n, ms), ms, ms);
    hide MedianOfVerified, CountWithin, VerifiedLatencies;
  }

  lemma CrowdScore(active: Node, other: Node, limits: Limits, now: nat, i: nat)
    requires limits.rescoreLimit < limits.finalists && i <= limits.rescoreLimit
    ensures var env := Crowd(active, other, limits, now);
            var all := FinalistScores(Nodes(env.catalog.value), env.rescore.value, limits);
            && |all| == limits.rescoreLimit + 1
            && all[i].passes && all[i].median == Some(Pace(i, limits.rescoreLimit)) && all[i].nodeIndex == i
            && all[i].name == if i < limits.rescoreLimit then active.name else other.name
  {
    var env := Crowd(active, other, limits, now);
    EverybodyIsFinalist(env.rescore.value.sweep, limits.finalists);
    MedianOfEqualAnswers(limits.minVerified + 1, Pace(i, limits.rescoreLimit));
    hide MedianOfVerified, SelectFinalists;
  }

  lemma {:induction false} DistinctFits<T>(s: seq<T>, t: seq<T>)
    requires Distinct(s) && forall x | x in s :: x in t
    ensures |s| <= |t|
    decreases |s|
  {
    if s == [] {
    } else {
      assert s[0] in s && s[0] in t;
      var k :| 0 <= k < |t| && t[k] == s[0];
      var rest := t[..k] + t[k + 1..];
      forall x | x in s[1..] ensures x in rest {
        var i :| 0 <= i < |s[1..]| && s[1..][i] == x;
        assert s[0] != s[i + 1];
        assert x in t && x != t[k];
        assert t == t[..k] + [t[k]] + t[k + 1..];
      }
      DistinctFits(s[1..], rest);
    }
  }

  /** One score too many, the last one the slowest: the cut drops the last one. */
  lemma TheSlowestIsCut(all: seq<Score>, kept: seq<Score>, slots: nat)
    requires |all| == slots + 1 && Distinct(all) && |kept| <= slots
    requires forall i | 0 <= i < |all| :: all[i].passes && all[i].median == Some(Pace(i, slots))
    requires forall s | s in kept :: s in all
    requires forall s, t | s in kept && t in all && t !in kept :: RankedAtMost(s, t)
    ensures all[slots] !in kept
  {
    forall i | 0 <= i < slots ensures !RankedAtMost(all[slots], all[i]) {
      assert all[i].median == Some(10) && all[slots].median == Some(20);
    }
    if all[slots] in kept {
      if forall x | x in all :: x in kept {
        DistinctFits(all, kept);
        assert false;
      }
      var x :| x in all && x !in kept;
      var i :| 0 <= i < |all| && all[i] == x;
      assert false;
    }
  }

  /** All passed, all but the last of the failed node's name, the last one slowest. */
  ghost predicate Crowded(all: seq<Score>, slots: nat, active: Node) {
    && |all| == slots + 1
    && (forall i | 0 <= i < |all| :: all[i].passes && all[i].median == Some(Pace(i, slots)))
    && (forall i | 0 <= i < slots :: all[i].name == active.name)
    && all[slots].name != active.name
  }

  lemma CrowdIsCrowded(active: Node, other: Node, limits: Limits, now: nat)
    requires limits.rescoreLimit < limits.finalists && active.name != other.name
    ensures var env := Crowd(active, other, limits, now);
            Crowded(FinalistScores(Nodes(env.catalog.value), env.rescore.value, limits), limits.rescoreLimit, active)
  {
    var env := Crowd(active, other, limits, now);
    var all := FinalistScores(Nodes(env.catalog.value), env.rescore.value, limits);
    hide FinalistScores, Crowd, Nodes, Pace;
    CrowdScore(active, other, limits, now, limits.rescoreLimit);
    forall i | 0 <= i < |all|
      ensures all[i].passes && all[i].median == Some(Pace(i, limits.rescoreLimit))
      ensures i < limits.rescoreLimit ==> all[i].name == active.name
    {
      CrowdScore(active, other, limits, now, i);
    }
  }

  lemma CutLeavesNamesakes(nodes: seq<Node>, r: Rescore, limits: Limits, active: Node)
    requires Fits(nodes, r) && nodes != []
    requires Crowded(FinalistScores(nodes, r, limits), limits.rescoreLimit, active)
    ensures var kept := TieredShortlist(nodes, r, limits);
            |kept| == limits.rescoreLimit && forall s | s in kept :: s.name == active.name
    ensures Replaceable(FinalistScores(nodes, r, limits), active)
  {
    var slots, all, kept := limits.rescoreLimit, FinalistScores(nodes, r, limits), TieredShortlist(nodes, r, limits);
    assert |kept| <= slots;
    ShortlistIsTheBest(nodes, r, limits);
    ScoresDistinct(nodes, r, limits);
    hide FinalistScores, TieredShortlist, RankedAtMost, SortedBy, Distinct, Crowded, Replaceable;
    WithoutTheSlowest(all, kept, slots, active);
  }

  lemma WithoutTheSlowest(all: seq<Score>, kept: seq<Score>, slots: nat, active: Node)
    requires Crowded(all, slots, active) && Distinct(all)
    requires |kept| <= slots && (|kept| == slots || forall s | s in all :: s in kept)
    requires forall s | s in kept :: s in all
    requires forall s, t | s in kept && t in all && t !in kept :: RankedAtMost(s, t)
    ensures |kept| == slots && (forall s | s in kept :: s.name == active.name) && Replaceable(all, active)
  {
    TheSlowestIsCut(all, kept, slots);
    hide RankedAtMost, Distinct;
    assert all[slots] in all;
    forall s | s in kept ensures s.name == active.name {
      var i :| 0 <= i < |all| && all[i] == s;
    }
  }

  lemma NamesakesFillTheSlots(config: Config, active: Node, other: Node, now: nat)
    requires config.limits.rescoreLimit < config.limits.finalists && active.name != other.name
    ensures var env := Crowd(active, other, config.limits, now);
            var all := FinalistScores(Nodes(env.catalog.value), env.rescore.value, config.limits);
            && |Rescored(config, env).value| == config.limits.rescoreLimit
            && (forall s | s in Rescored(config, env).value :: s.name == active.name)
            && Replaceable(all, active)
  {
    var env := Crowd(active, other, config.limits, now);
    var nodes, r := Nodes(env.catalog.value), env.rescore.value;
    assert nodes != [] && Rescored(config, env).value == TieredShortlist(nodes, r, config.limits);
    hide Crowd, Rescored, TieredShortlist, FinalistScores, Crowded, Nodes, Replaceable;
    CrowdIsCrowded(active, other, config.limits, now);
    CutLeavesNamesakes(nodes, r, config.limits, active);
  }

  lemma CrowdEscalates(w: World, config: Config, active: Node, other: Node, now: nat)
    requires w.status.failures + 1 >= config.requiredFailures
    requires w.controller.active.Some? && !w.controller.degraded
    requires LongSince(w.controller.lastManual, now, config.manualWindow)
    requires LongSince(w.controller.lastAuto, now, config.cooldown)
    ensures var env := Crowd(active, other, config.limits, now);
            Escalates(w, config, env) && env.catalog.Some? && env.rescore.Some?
  {
    hide LongSince;
  }

  /** An escalation that drops to direct although a finalist of another name passed its trial. */
  ghost predicate DegradesTooEarly(w: World, config: Config, env: Env) {
    && Escalates(w, config, env) && env.catalog.Some? && env.rescore.Some?
    && Cycle(w, config, env).degradeCalled
    && Replaceable(FinalistScores(Nodes(env.catalog.value), env.rescore.value, config.limits),
                   w.controller.active.value)
  }

  /**
   Whatever the limits, as long as there are fewer slots than finalists: the failed
   node's own flicker of life, and its namesakes', take every slot, and escalation
   drops to direct past a node that passed.
   */
  lemma DegradesTooEarlyHappens(w: World, config: Config, active: Node, other: Node, now: nat)
    requires config.limits.rescoreLimit < config.limits.finalists && active.name != other.name
    requires w.status.failures + 1 >= config.requiredFailures
    requires w.controller.active == Some(active) && !w.controller.degraded
    requires LongSince(w.controller.lastManual, now, config.manualWindow)
    requires LongSince(w.controller.lastAuto, now, config.cooldown)
    ensures DegradesTooEarly(w, config, Crowd(active, other, config.limits, now))
  {
    var env := Crowd(active, other, config.limits, now);
    CrowdEscalates(w, config, active, other, now);
    NamesakesFillTheSlots(config, active, other, now);
    hide Cycle, Crowd, Escalates, Rescored, FinalistScores, Nodes, Replaceable, LongSince;
    DegradesTooEarlyExactly(w, config, env);
  }

  /** A configuration can degrade too early exactly when it has fewer rescore slots than finalists. */
  lemma TooEarlyIsPossibleExactly(config: Config)
    ensures (exists w, env :: DegradesTooEarly(w, config, env)) <==>
            config.limits.rescoreLimit < config.limits.finalists
  {
    if config.limits.rescoreLimit < config.limits.finalists {
      var active, other := Node("a", 0), Node("b", 0);
      var w := World(Controller(Some(active), false, None, None), Status(config.requiredFailures, [], 0, map[]));
      hide Cycle, Crowd, DegradesTooEarly;
      DegradesTooEarlyHappens(w, config, active, other, 0);
    } else if exists w, env :: DegradesTooEarly(w, config, env) {
      var w, env :| DegradesTooEarly(w, config, env);
      hide Cycle, Rescored, FinalistScores, Replaceable, Escalates;
      DegradesTooEarlyExactly(w, config, env);
      assert false;
    }
  }
}
