/**
 Whole runs of the watchdog next to a user who switches, stops and stamps the
 tunnel by hand: pacing of interventions, and what the failure counter counts.
 */
module WatchdogRuns {
  import opened Wrappers
  import opened Shortlist
  import opened Selection
  import opened Watchdog
  import opened WatchdogEvidence

  datatype Event =
    | Cycled(env: Env)
    | SwitchedByHand(node: Node, at: nat)
    | SwitchFailed(node: Node, at: nat)
    | SettingsChanged(settings: nat, at: nat)
    | StampedManual(at: nat)
    | StampedAuto(at: nat)
    | Stopped(at: nat)

  /** The world with the instant of its latest event. */
  datatype Clocked = Clocked(world: World, clock: nat)

  function StartOf(e: Event): nat {
    match e
    case Cycled(env) => env.startedAt
    case SwitchedByHand(_, at) => at
    case SwitchFailed(_, at) => at
    case SettingsChanged(_, at) => at
    case StampedManual(at) => at
    case StampedAuto(at) => at
    case Stopped(at) => at
  }

  function EndOf(e: Event): nat {
    if e.Cycled? then e.env.switchedAt else StartOf(e)
  }

  ghost predicate Possible(c: Clocked, e: Event) {
    c.clock <= StartOf(e)
  }

  function Step(c: Clocked, config: Config, e: Event): Clocked
    requires Possible(c, e)
  {
    var w := c.world;
    var next :=
      match e
      case Cycled(env) => Cycle(w, config, env).world
      case SwitchedByHand(node, at) => w.(controller := SwitchTo(w.controller, node, false, at))
      case SwitchFailed(_, _) => w
      case SettingsChanged(_, _) => w
      case StampedManual(at) => w.(controller := w.controller.(lastManual := Some(at)))
      case StampedAuto(at) => w.(controller := w.controller.(lastAuto := Some(at)))
      case Stopped(_) => w.(controller := w.controller.(active := None));
    Clocked(next, EndOf(e))
  }

  function Boot(now: nat): Clocked {
    Clocked(World(Controller(None, false, None, None), Status(0, [], 0, map[])), now)
  }

  ghost predicate Runs(c: Clocked, config: Config, events: seq<Event>)
    decreases |events|, 0
  {
    events != [] ==>
      var last := |events| - 1;
      Runs(c, config, events[..last]) && Possible(After(c, config, events[..last]), events[last])
  }

  ghost function After(c: Clocked, config: Config, events: seq<Event>): Clocked
    requires Runs(c, config, events)
    decreases |events|, 1
  {
    if events == [] then c
    else
      var last := |events| - 1;
      Step(After(c, config, events[..last]), config, events[last])
  }

  // ----- pacing

  datatype Kind = ByWatchdog | ByHand | Intervention

  datatype Mark = Mark(at: nat, kind: Kind)

  /**
   What one event adds to the record. An intervention (a switch by escalation,
   or its degrade) is recorded ahead of the automatic switch it also is.
   */
  ghost function Marks(c: Clocked, config: Config, e: Event): seq<Mark>
    requires Possible(c, e)
  {
    match e
    case Cycled(env) =>
      var o := Cycle(c.world, config, env);
      (if o.action.Switched? || o.degradeCalled then [Mark(env.switchedAt, Intervention)] else [])
      + (if o.switchedTo.Some? then [Mark(env.switchedAt, ByWatchdog)] else [])
    case SwitchedByHand(_, at) => [Mark(at, ByHand)]
    case StampedManual(at) => [Mark(at, ByHand)]
    case _ => []
  }

  ghost function Record(c: Clocked, config: Config, events: seq<Event>): seq<Mark>
    requires Runs(c, config, events)
    decreases |events|
  {
    if events == [] then []
    else
      var last := |events| - 1;
      Record(c, config, events[..last]) + Marks(After(c, config, events[..last]), config, events[last])
  }

  /** An intervention keeps its distance from everything recorded before it. */
  ghost predicate KeepsDistance(earlier: Mark, later: Mark, config: Config) {
    later.kind == Intervention ==>
      && (earlier.kind == ByWatchdog ==> later.at >= earlier.at + config.cooldown)
      && (earlier.kind == ByHand ==> later.at >= earlier.at + config.manualWindow)
  }

  ghost predicate Paced(record: seq<Mark>, config: Config) {
    forall i, j | 0 <= i < j < |record| :: KeepsDistance(record[i], record[j], config)
  }

  /** The controller's stamps are no older than the record says. */
  ghost predicate Stamped(c: Clocked, record: seq<Mark>) {
    && (c.world.controller.lastAuto.Some? ==> c.world.controller.lastAuto.value <= c.clock)
    && (c.world.controller.lastManual.Some? ==> c.world.controller.lastManual.value <= c.clock)
    && forall i | 0 <= i < |record| ::
         && (record[i].kind == ByWatchdog ==>
               c.world.controller.lastAuto.Some? && record[i].at <= c.world.controller.lastAuto.value)
         && (record[i].kind == ByHand ==>
               c.world.controller.lastManual.Some? && record[i].at <= c.world.controller.lastManual.value)
  }

  lemma PacedAppends(record: seq<Mark>, m: Mark, config: Config)
    requires Paced(record, config) && forall i | 0 <= i < |record| :: KeepsDistance(record[i], m, config)
    ensures Paced(record + [m], config)
  {
    hide KeepsDistance;
  }

  /** A cycle that intervenes has read both stamps and found them old enough. */
  lemma InterventionKeepsDistance(c: Clocked, config: Config, env: Env, record: seq<Mark>)
    requires Possible(c, Cycled(env)) && Stamped(c, record)
    requires Cycle(c.world, config, env).action.Switched? || Cycle(c.world, config, env).degradeCalled
    ensures forall i | 0 <= i < |record| :: KeepsDistance(record[i], Mark(env.switchedAt, Intervention), config)
  {
    ActsOnlyWhenEscalating(c.world, config, env);
    hide Cycle, Escalate;
  }

  lemma CycleStamps(c: Clocked, config: Config, env: Env, record: seq<Mark>)
    requires Possible(c, Cycled(env)) && Stamped(c, record)
    ensures var o := Cycle(c.world, config, env);
            var after := Step(c, config, Cycled(env));
            && Stamped(after, record)
            && (o.switchedTo.Some? ==> after.world.controller.lastAuto == Some(env.switchedAt))
  {
    CyclesAreGrounded(c.world, config, env);
    hide Cycle, Scattered;
  }

  /** What the cycle itself adds to the record is covered by the stamps it leaves. */
  lemma CycleStampsItsSwitch(c: Clocked, config: Config, env: Env, record: seq<Mark>)
    requires Possible(c, Cycled(env)) && Stamped(c, record)
    ensures Stamped(Step(c, config, Cycled(env)), record + Marks(c, config, Cycled(env)))
  {
    CycleStamps(c, config, env, record);
    hide Cycle, Step;
  }

  lemma CycleIsPaced(c: Clocked, config: Config, env: Env, record: seq<Mark>)
    requires Possible(c, Cycled(env)) && Stamped(c, record) && Paced(record, config)
    ensures Stamped(Step(c, config, Cycled(env)), record + Marks(c, config, Cycled(env)))
    ensures Paced(record + Marks(c, config, Cycled(env)), config)
  {
    var o := Cycle(c.world, config, env);
    var acts, switches := Mark(env.switchedAt, Intervention), Mark(env.switchedAt, ByWatchdog);
    CycleStamps(c, config, env, record);
    CycleStampsItsSwitch(c, config, env, record);
    hide Cycle, Step, Stamped, KeepsDistance, Paced;
    var first, rest := record, Marks(c, config, Cycled(env));
    if o.action.Switched? || o.degradeCalled {
      InterventionKeepsDistance(c, config, env, record);
      PacedAppends(record, acts, config);
      first := record + [acts];
    }
    if o.switchedTo.Some? {
      PacedAppends(first, switches, config);
      assert record + rest == first + [switches];
    } else {
      assert record + rest == first;
    }
  }

  lemma StepIsPaced(c: Clocked, config: Config, e: Event, record: seq<Mark>)
    requires Possible(c, e) && Stamped(c, record) && Paced(record, config)
    ensures Stamped(Step(c, config, e), record + Marks(c, config, e))
    ensures Paced(record + Marks(c, config, e), config)
  {
    if e.Cycled? {
      CycleIsPaced(c, config, e.env, record);
    } else if e.SwitchedByHand? || e.StampedManual? {
      PacedAppends(record, Mark(e.at, ByHand), config);
      assert Marks(c, config, e) == [Mark(e.at, ByHand)];
    } else {
      assert record + Marks(c, config, e) == record;
    }
  }

  /**
   In every run, however its probes, trials and clocks turn out, an intervention
   comes no sooner than the cooldown after any earlier automatic switch and no
   sooner than the courtesy window after any earlier manual one.
   */
  lemma {:induction false} InterventionsArePaced(now: nat, config: Config, events: seq<Event>)
    requires Runs(Boot(now), config, events)
    ensures Paced(Record(Boot(now), config, events), config)
    ensures Stamped(After(Boot(now), config, events), Record(Boot(now), config, events))
    decreases |events|
  {
    if events == [] {
    } else {
      var last := |events| - 1;
      InterventionsArePaced(now, config, events[..last]);
      hide Step, Marks, Paced, Stamped;
      StepIsPaced(After(Boot(now), config, events[..last]), config, events[last],
                  Record(Boot(now), config, events[..last]));
    }
  }

  // ----- the failure counter

  datatype Sign = ProbeFailed | ProbePassed | Cleared

  /** Whether the cycle probes the active node at all. */
  ghost predicate ProbesActive(w: World, config: Config, env: Env) {
    && !w.controller.degraded && w.controller.active.Some?
    && LongSince(w.controller.lastManual, env.startedAt, config.manualWindow)
  }

  /** The counter-relevant happenings of one event, in order. */
  ghost function Signs(c: Clocked, config: Config, e: Event): seq<Sign>
    requires Possible(c, e)
  {
    match e
    case Cycled(env) =>
      var o := Cycle(c.world, config, env);
      (if ProbesActive(c.world, config, env)
       then [if env.activeProbe == Some(true) then ProbePassed else ProbeFailed] else [])
      + (if o.switchedTo.Some? || o.degradeCalled then [Cleared] else [])
    case _ => []
  }

  ghost function Story(c: Clocked, config: Config, events: seq<Event>): seq<Sign>
    requires Runs(c, config, events)
    decreases |events|
  {
    if events == [] then []
    else
      var last := |events| - 1;
      Story(c, config, events[..last]) + Signs(After(c, config, events[..last]), config, events[last])
  }

  /** Failed probes at the end of a story, back to the last passed probe or reset. */
  function Trailing(story: seq<Sign>): nat {
    if story == [] || !story[|story| - 1].ProbeFailed? then 0
    else 1 + Trailing(story[..|story| - 1])
  }

  lemma TrailingStep(story: seq<Sign>, s: Sign)
    ensures Trailing(story + [s]) == if s.ProbeFailed? then Trailing(story) + 1 else 0
  {
    assert (story + [s])[..|story|] == story;
  }

  lemma HealCounts(w: World, config: Config, env: Env)
    ensures !Heal(w, config, env).degradeCalled
    ensures Heal(w, config, env).switchedTo.None? ==>
              Heal(w, config, env).world.status.failures == w.status.failures
  {
    hide Rescored, FirstHealing;
  }

  lemma AdoptCounts(w: World, config: Config, env: Env)
    ensures !Adopt(w, config, env).degradeCalled
    ensures Adopt(w, config, env).switchedTo.None? ==>
              Adopt(w, config, env).world.status.failures == w.status.failures
  {
    hide Rescored, AdoptedTracks, Candidates;
  }

  lemma EscalateCounts(w: World, config: Config, env: Env, active: Node)
    ensures var o := Escalate(w, config, env, active);
            o.world.status.failures == if o.switchedTo.Some? || o.degradeCalled then 0 else w.status.failures
  {
    hide Rescored, Without, ObserveRound, RankWorkingNodes, FirstConfirmed;
  }

  lemma EscalationProbes(w: World, config: Config, env: Env)
    requires Escalates(w, config, env)
    ensures ProbesActive(w, config, env) && env.activeProbe != Some(true)
  {
  }

  lemma CounterStep(w: World, config: Config, env: Env)
    ensures var o := Cycle(w, config, env);
            o.world.status.failures ==
              if o.switchedTo.Some? || o.degradeCalled then 0
              else if !ProbesActive(w, config, env) then w.status.failures
              else if env.activeProbe == Some(true) then 0
              else w.status.failures + 1
  {
    hide Cycle, Heal, Adopt, Escalate, Escalates;
    CyclesAreGrounded(w, config, env);
    if w.controller.degraded || w.controller.active.None? {
      CyclesWithoutWork(w, config, env);
      HealCounts(w, config, env);
      AdoptCounts(w, config, env);
    } else if Escalates(w, config, env) {
      ActsOnlyWhenEscalating(w, config, env);
      var counted := w.(status := w.status.(failures := w.status.failures + 1));
      EscalateCounts(counted, config, env, w.controller.active.value);
      EscalationProbes(w, config, env);
    } else {
      CalmCycles(w, config, env);
    }
  }

  lemma StepCounts(c: Clocked, config: Config, e: Event, story: seq<Sign>)
    requires Possible(c, e) && c.world.status.failures == Trailing(story)
    ensures Step(c, config, e).world.status.failures == Trailing(story + Signs(c, config, e))
  {
    var signs := Signs(c, config, e);
    if e.Cycled? {
      CounterStep(c.world, config, e.env);
    }
    hide Cycle, Trailing, ProbesActive;
    if |signs| == 1 {
      TrailingStep(story, signs[0]);
      assert signs == [signs[0]];
    } else if |signs| == 2 {
      TrailingStep(story + [signs[0]], signs[1]);
      assert story + signs == (story + [signs[0]]) + [signs[1]];
    } else {
      assert story + signs == story;
    }
  }

  /**
   In every run the counter is the number of failed probes of the active node
   since the last one that passed or the last switch or degrade by the watchdog;
   nothing the user does touches it.
   */
  lemma {:induction false} CounterCountsFailures(now: nat, config: Config, events: seq<Event>)
    requires Runs(Boot(now), config, events)
    ensures After(Boot(now), config, events).world.status.failures == Trailing(Story(Boot(now), config, events))
    decreases |events|
  {
    if events == [] {
    } else {
      var last := |events| - 1;
      CounterCountsFailures(now, config, events[..last]);
      hide Step, Signs, Trailing;
      StepCounts(After(Boot(now), config, events[..last]), config, events[last],
                 Story(Boot(now), config, events[..last]));
    }
  }

  /**
   In every run, a switch or degrade by escalation was preceded by the required
   number of failed probes in a row, this cycle's included, unless telemetry of
   the same cycle put the tunnel below the configured floor.
   */
  lemma EscalationsAreEarned(now: nat, config: Config, events: seq<Event>, env: Env)
    requires Runs(Boot(now), config, events)
    ensures var o := Cycle(After(Boot(now), config, events).world, config, env);
            o.action.Switched? || o.degradeCalled ==>
              || Trailing(Story(Boot(now), config, events) + [ProbeFailed]) >= config.requiredFailures
              || (config.tunnelFloor.Some? && env.tunnelGrade.Some?
                  && env.tunnelGrade.value < config.tunnelFloor.value)
  {
    CounterCountsFailures(now, config, events);
    ActsOnlyWhenEscalating(After(Boot(now), config, events).world, config, env);
    TrailingStep(Story(Boot(now), config, events), ProbeFailed);
  }

  /**
   In every run, whenever a cycle reports a degrade no node is active afterwards; the
   controller's flag is left down exactly when the cycle found nobody to adopt.
   */
  lemma ReportedDegrades(now: nat, config: Config, events: seq<Event>, env: Env)
    requires Runs(Boot(now), config, events)
    ensures var w := After(Boot(now), config, events).world;
            var o := Cycle(w, config, env);
            o.action.Degraded? ==>
              && o.world.controller.active.None?
              && (!o.world.controller.degraded <==>
                    && !w.controller.degraded && w.controller.active.None?
                    && config.adoptOnIdle && NobodyToAdopt(config, env))
  {
    var w := After(Boot(now), config, events).world;
    DegradedMeansNoNode(now, config, events);
    DegradedInNameOnlyExactly(w, config, env);
    CyclesAreGrounded(w, config, env);
    hide Cycle, NobodyToAdopt, Scattered, After;
  }

  /** In every run a degraded controller has no active node. */
  lemma {:induction false} DegradedMeansNoNode(now: nat, config: Config, events: seq<Event>)
    requires Runs(Boot(now), config, events)
    ensures var c := After(Boot(now), config, events).world.controller; c.degraded ==> c.active.None?
    decreases |events|
  {
    if events == [] {
    } else {
      var last := |events| - 1;
      DegradedMeansNoNode(now, config, events[..last]);
      if events[last].Cycled? {
        CyclesAreGrounded(After(Boot(now), config, events[..last]).world, config, events[last].env);
      }
      hide Cycle;
    }
  }
}
