/**
 The background projection of the node list. The UI thread queues views, a worker
 coalesces them, projects the newest over the store it finds and sends the result
 back through a bounded channel, and a UI tick installs the last result if its
 store is still the one being served. Store publications come from other threads
 at any moment. A store's identity is the position it was published at.
 */
module Projection {
  import opened Wrappers
  import opened Sorting
  import opened DenseStore
  import opened Query

  /** `view` is bookkeeping for the claims; the program keeps the store and the indices. */
  datatype Projected = Projected(view: View, version: nat, indices: seq<nat>)

  /** Where the worker thread stands between two channel or snapshot operations. */
  datatype Worker =
    | Waiting
    | Holding(view: View)
    | Settled(view: View)
    | Loaded(view: View, version: nat)
    | Sending(result: Projected)

  /**
   Mid-tick, the UI thread holds the last result it has drained so far; once it has
   seen the channel empty it goes on to look at the store, while results may arrive.
   */
  datatype Ui = Resting | Collecting(latest: Projected) | Drained(latest: Projected)

  datatype Pipeline = Pipeline(
    desired: View,
    requests: seq<View>,
    worker: Worker,
    results: seq<Projected>,
    ui: Ui,
    installed: Projected,
    stores: seq<Store>,
    arenas: seq<Arena>,
    asked: bool)          // a view was queued since the last store publication
  {
    predicate Serves(version: nat) {
      version + 1 == |stores|
    }

    predicate Served() {
      stores != [] && arenas != []
    }

    predicate Idle() {
      requests == [] && worker == Waiting && results == [] && ui == Resting
    }
  }

  const CAPACITY := 4

  datatype Event =
    | Refresh(view: View)
    | PublishStore(store: Store)
    | PublishArena(arena: Arena)
    | Receive | Coalesce | Settle | Load | Project | Send
    | Begin | Take | SeeEmpty | Finish

  ghost predicate WellFormed(s: Store) {
    SameLengths(s) && |s.offsets| == |s.ids| + 1 && DistinctIdColumn(s)
  }

  ghost predicate Enabled(s: Pipeline, e: Event) {
    match e
    case Refresh(_) => s.ui == Resting
    case PublishStore(store) => WellFormed(store)
    case PublishArena(_) => true
    case Receive => s.worker == Waiting && s.requests != []
    case Coalesce => s.worker.Holding? && s.requests != []
    case Settle => s.worker.Holding? && s.requests == []
    case Load => s.worker.Settled? && s.Served()
    case Project =>
      s.Served() && s.worker.Loaded? && s.worker.version < |s.stores| && WellFormed(s.stores[s.worker.version])
    case Send => s.worker.Sending? && |s.results| < CAPACITY
    case Begin => s.ui == Resting && s.results != []
    case Take => s.ui.Collecting? && s.results != []
    case SeeEmpty => s.ui.Collecting? && s.results == []
    case Finish => s.ui.Drained?
  }

  function Finished(s: Pipeline, latest: Projected): Pipeline {
    if s.Serves(latest.version) then s.(ui := Resting, installed := latest)
    else s.(ui := Resting, requests := s.requests + [s.desired], asked := true)
  }

  ghost function Step(s: Pipeline, e: Event, lower: string -> string): Pipeline
    requires Enabled(s, e)
  {
    match e
    case Refresh(view) => s.(desired := view, requests := s.requests + [view], asked := true)
    case PublishStore(store) => s.(stores := s.stores + [store], asked := false)
    case PublishArena(arena) => s.(arenas := s.arenas + [arena])
    case Receive => s.(worker := Holding(s.requests[0]), requests := s.requests[1..])
    case Coalesce => s.(worker := Holding(s.requests[0]), requests := s.requests[1..])
    case Settle => s.(worker := Settled(s.worker.view))
    case Load => s.(worker := Loaded(s.worker.view, |s.stores| - 1))
    case Project =>
      var metrics := s.arenas[|s.arenas| - 1];
      var indices := QueryWithMetrics(s.stores[s.worker.version], metrics, s.worker.view, lower);
      s.(worker := Sending(Projected(s.worker.view, s.worker.version, indices)))
    case Send => s.(worker := Waiting, results := s.results + [s.worker.result])
    case Begin => s.(ui := Collecting(s.results[0]), results := s.results[1..])
    case Take => s.(ui := Collecting(s.results[0]), results := s.results[1..])
    case SeeEmpty => s.(ui := Drained(s.ui.latest))
    case Finish => Finished(s, s.ui.latest)
  }

  /** The state after `events`, or nothing where one of them was not possible. */
  ghost function Run(s: Pipeline, events: seq<Event>, lower: string -> string): Option<Pipeline>
    decreases |events|
  {
    if events == [] then Some(s)
    else
      var before := Run(s, events[..|events| - 1], lower);
      if before.Some? && Enabled(before.value, events[|events| - 1])
      then Some(Step(before.value, events[|events| - 1], lower))
      else None
  }

  // ----- what every step keeps

  /** A view on its way, with the store it was projected over once that is settled. */
  datatype Item = Item(view: View, version: Option<nat>)

  function ItemOf(p: Projected): Item {
    Item(p.view, Some(p.version))
  }

  /** The newest item: the queue behind the worker behind the results behind the tick. */
  function Newest(s: Pipeline): Item {
    if s.requests != [] then Item(s.requests[|s.requests| - 1], None)
    else match s.worker
      case Holding(view) => Item(view, None)
      case Settled(view) => Item(view, None)
      case Loaded(view, version) => Item(view, Some(version))
      case Sending(result) => ItemOf(result)
      case Waiting =>
        if s.results != [] then ItemOf(s.results[|s.results| - 1])
        else if !s.ui.Resting? then ItemOf(s.ui.latest)
        else ItemOf(s.installed)
  }

  predicate Current(s: Pipeline) {
    Newest(s).version.None? || s.Serves(Newest(s).version.value)
  }

  /** A result is a real query of its own store, for its own view, over readings that were published. */
  ghost predicate Genuine(p: Projected, stores: seq<Store>, arenas: seq<Arena>, lower: string -> string) {
    && p.version < |stores| && WellFormed(stores[p.version])
    && exists k :: 0 <= k < |arenas| && p.indices == QueryWithMetrics(stores[p.version], arenas[k], p.view, lower)
  }

  ghost predicate AllGenuine(s: Pipeline, lower: string -> string) {
    && s.Served()
    && Genuine(s.installed, s.stores, s.arenas, lower)
    && (forall k | 0 <= k < |s.results| :: Genuine(s.results[k], s.stores, s.arenas, lower))
    && (s.worker.Sending? ==> Genuine(s.worker.result, s.stores, s.arenas, lower))
    && (!s.ui.Resting? ==> Genuine(s.ui.latest, s.stores, s.arenas, lower))
    && (s.worker.Loaded? ==> s.worker.version < |s.stores|)
    && (forall v | 0 <= v < |s.stores| :: WellFormed(s.stores[v]))
  }

  ghost predicate Inv(s: Pipeline, lower: string -> string) {
    && AllGenuine(s, lower)
    && Newest(s).view == s.desired
    && (s.asked ==> Current(s))
  }

  lemma GenuineCarriesOver(p: Projected, stores: seq<Store>, arenas: seq<Arena>, later: seq<Store>,
                           laterArenas: seq<Arena>, lower: string -> string)
    requires Genuine(p, stores, arenas, lower) && stores <= later && arenas <= laterArenas
    ensures Genuine(p, later, laterArenas, lower)
  {
    var k :| 0 <= k < |arenas| && p.indices == QueryWithMetrics(stores[p.version], arenas[k], p.view, lower);
    assert later[p.version] == stores[p.version] && laterArenas[k] == arenas[k];
  }

  /** Publications only add stores and arenas. */
  lemma PublishKeepsGenuine(s: Pipeline, t: Pipeline, lower: string -> string)
    requires AllGenuine(s, lower) && s.stores <= t.stores && s.arenas <= t.arenas
    requires t == s.(stores := t.stores, arenas := t.arenas, asked := t.asked)
    requires forall v | |s.stores| <= v < |t.stores| :: WellFormed(t.stores[v])
    ensures AllGenuine(t, lower)
  {
    hide WellFormed, Genuine;
    GenuineCarriesOver(s.installed, s.stores, s.arenas, t.stores, t.arenas, lower);
    forall k | 0 <= k < |s.results| ensures Genuine(s.results[k], t.stores, t.arenas, lower) {
      GenuineCarriesOver(s.results[k], s.stores, s.arenas, t.stores, t.arenas, lower);
    }
    if s.worker.Sending? { GenuineCarriesOver(s.worker.result, s.stores, s.arenas, t.stores, t.arenas, lower); }
    if !s.ui.Resting? { GenuineCarriesOver(s.ui.latest, s.stores, s.arenas, t.stores, t.arenas, lower); }
  }

  lemma ProjectIsGenuine(s: Pipeline, lower: string -> string)
    requires Enabled(s, Project)
    ensures Genuine(Step(s, Project, lower).worker.result, s.stores, s.arenas, lower)
  {
    assert s.arenas[|s.arenas| - 1] == s.arenas[|s.arenas| - 1];
  }

  lemma StepKeepsGenuine(s: Pipeline, e: Event, lower: string -> string)
    requires AllGenuine(s, lower) && Enabled(s, e)
    ensures AllGenuine(Step(s, e, lower), lower)
  {
    hide Genuine, WellFormed, QueryWithMetrics;
    match e
    case PublishStore(store) => PublishKeepsGenuine(s, Step(s, e, lower), lower);
    case PublishArena(arena) => PublishKeepsGenuine(s, Step(s, e, lower), lower);
    case Project => ProjectIsGenuine(s, lower);
    case _ =>
  }

  /** A step that only moves items along keeps the newest one, or binds it to the served store. */
  ghost predicate Moves(s: Pipeline, t: Pipeline) {
    && t.desired == s.desired && t.stores == s.stores && t.asked == s.asked
    && Newest(t).view == Newest(s).view
    && (Newest(t).version == Newest(s).version || Current(t))
  }

  lemma DequeueMoves(s: Pipeline)
    requires s.requests != [] && (s.worker == Waiting || s.worker.Holding?)
    ensures Moves(s, s.(worker := Holding(s.requests[0]), requests := s.requests[1..]))
  {
  }

  lemma WorkerMoves(s: Pipeline, e: Event, lower: string -> string)
    requires Enabled(s, e) && (e.Settle? || e.Load? || e.Project? || e.Send?)
    ensures Moves(s, Step(s, e, lower))
  {
    hide QueryWithMetrics, WellFormed;
  }

  lemma TakeMoves(s: Pipeline)
    requires s.results != []
    ensures Moves(s, s.(ui := Collecting(s.results[0]), results := s.results[1..]))
  {
  }

  lemma StepKeepsNewest(s: Pipeline, e: Event, lower: string -> string)
    requires Newest(s).view == s.desired && Enabled(s, e)
    ensures Newest(Step(s, e, lower)).view == Step(s, e, lower).desired
    ensures !e.PublishStore? && Current(s) ==> Current(Step(s, e, lower))
  {
    hide QueryWithMetrics, WellFormed;
    match e
    case Receive => DequeueMoves(s); hide Newest;
    case Coalesce => DequeueMoves(s); hide Newest;
    case Settle => WorkerMoves(s, e, lower); hide Newest, Step;
    case Load => WorkerMoves(s, e, lower); hide Newest, Step;
    case Project => WorkerMoves(s, e, lower); hide Newest, Step;
    case Send => WorkerMoves(s, e, lower); hide Newest, Step;
    case SeeEmpty =>
    case Begin => TakeMoves(s); hide Newest;
    case Take => TakeMoves(s); hide Newest;
    case _ =>
  }

  /** Queueing a view is what makes the newest item current again. */
  lemma StepKeepsAsked(s: Pipeline, e: Event, lower: string -> string)
    requires Enabled(s, e) && Newest(s).view == s.desired && (s.asked ==> Current(s))
    ensures Step(s, e, lower).asked ==> Current(Step(s, e, lower))
  {
    StepKeepsNewest(s, e, lower);
    hide QueryWithMetrics, WellFormed;
  }

  /** Right after construction: the view's projection of the served store is installed. */
  ghost predicate Starts(s: Pipeline, lower: string -> string) {
    && |s.stores| == 1 && |s.arenas| == 1 && WellFormed(s.stores[0]) && s.Idle()
    && s.installed == Projected(s.desired, 0, QueryWithMetrics(s.stores[0], s.arenas[0], s.desired, lower))
  }

  lemma {:induction false} RunsKeepInv(first: Pipeline, events: seq<Event>, lower: string -> string)
    requires Starts(first, lower) && Run(first, events, lower).Some?
    ensures Inv(Run(first, events, lower).value, lower)
    decreases |events|
  {
    if events != [] {
      var last := |events| - 1;
      RunsKeepInv(first, events[..last], lower);
      var before := Run(first, events[..last], lower).value;
      StepKeepsGenuine(before, events[last], lower);
      StepKeepsNewest(before, events[last], lower);
      StepKeepsAsked(before, events[last], lower);
      hide Step, Enabled, Newest, AllGenuine, Current;
    } else {
      assert first.installed.indices == QueryWithMetrics(first.stores[0], first.arenas[0], first.desired, lower);
    }
  }

  /**
   No interleaving loses the latest request: the newest item carries the desired
   view, and an idle pipeline shows it, over the served store unless a store came
   after the last request.
   */
  lemma LatestRequestIsNeverLost(first: Pipeline, events: seq<Event>, lower: string -> string)
    requires Starts(first, lower) && Run(first, events, lower).Some?
    ensures var s := Run(first, events, lower).value;
            && Newest(s).view == s.desired
            && (s.Idle() ==> s.installed.view == s.desired && (s.asked ==> s.Serves(s.installed.version)))
  {
    RunsKeepInv(first, events, lower);
    hide Run;
  }

  /**
   What is installed always answers its own view over its own store: exactly the
   accepted rows, once each, in the strict order of readings that were published.
   */
  lemma InstalledAnswersItsView(first: Pipeline, events: seq<Event>, lower: string -> string)
    requires Starts(first, lower) && Run(first, events, lower).Some?
    ensures var s := Run(first, events, lower).value;
            var p := s.installed;
            && p.version < |s.stores| && WellFormed(s.stores[p.version])
            && Distinct(p.indices)
            && (forall i: nat :: i in p.indices <==>
                 i < |s.stores[p.version].ids| && Accepts(s.stores[p.version], p.view, lower, i))
            && exists arena :: arena in s.arenas && InOrderOf(s.stores[p.version], p.view, arena, p.indices)
  {
    RunsKeepInv(first, events, lower);
    var s := Run(first, events, lower).value;
    GenuineAnswers(s.installed, s.stores, s.arenas, lower);
  }

  ghost predicate InOrderOf(store: Store, view: View, arena: Arena, rows: seq<nat>)
    requires SameLengths(store)
  {
    StrictlyOrdered(store, view.sort, ColumnOr(arena.latencies, UNTESTED), ColumnOr(arena.healths, 0), rows)
  }

  lemma GenuineAnswers(p: Projected, stores: seq<Store>, arenas: seq<Arena>, lower: string -> string)
    requires Genuine(p, stores, arenas, lower)
    ensures Distinct(p.indices)
    ensures ListsAccepted(stores[p.version], p.view, lower, p.indices)
    ensures exists arena :: arena in arenas && InOrderOf(stores[p.version], p.view, arena, p.indices)
  {
    var store := stores[p.version];
    var k :| 0 <= k < |arenas| && p.indices == QueryWithMetrics(store, arenas[k], p.view, lower);
    var latency, health := ColumnOr(arenas[k].latencies, UNTESTED), ColumnOr(arenas[k].healths, 0);
    QueryIsTheSortedFilter(store, p.view, lower, latency, health, p.indices);
    AnswerIsSorted(store, p.view, lower, latency, health, p.indices);
    AcceptedDistinct(store, p.view, lower, |store.ids|);
    PermutationDistinct(AcceptedBelow(store, p.view, lower, |store.ids|), p.indices);
    assert arenas[k] in arenas && InOrderOf(store, p.view, arenas[k], p.indices);
  }

  // ----- the pipeline drains

  predicate Internal(e: Event) {
    !e.Refresh? && !e.PublishStore? && !e.PublishArena?
  }

  /** What an outdated result still costs: the tick that rejects it queues one more view. */
  function Debt(s: Pipeline, version: nat): nat {
    if s.Serves(version) then 0 else 8
  }

  function Backlog(s: Pipeline, results: seq<Projected>): nat {
    if results == [] then 0 else 3 + Debt(s, results[0].version) + Backlog(s, results[1..])
  }

  function Work(s: Pipeline): nat {
    8 * |s.requests| + Backlog(s, s.results)
    + (match s.worker
       case Waiting => 0
       case Holding(_) => 7
       case Settled(_) => 6
       case Loaded(_, version) => 5 + Debt(s, version)
       case Sending(result) => 4 + Debt(s, result.version))
    + (match s.ui
       case Resting => 0
       case Collecting(latest) => 2 + Debt(s, latest.version)
       case Drained(latest) => 1 + Debt(s, latest.version))
  }

  lemma {:induction false} BacklogGrows(s: Pipeline, results: seq<Projected>, p: Projected)
    ensures Backlog(s, results + [p]) == Backlog(s, results) + 3 + Debt(s, p.version)
  {
    if results == [] {
    } else {
      BacklogGrows(s, results[1..], p);
      assert (results + [p])[1..] == results[1..] + [p];
    }
  }

  lemma {:induction false} BacklogDepends(s: Pipeline, t: Pipeline, results: seq<Projected>)
    requires |s.stores| == |t.stores|
    ensures Backlog(s, results) == Backlog(t, results)
  {
    if results == [] {
    } else {
      BacklogDepends(s, t, results[1..]);
    }
  }

  lemma StepsSpend(s: Pipeline, e: Event, lower: string -> string)
    requires Enabled(s, e) && Internal(e)
    ensures Work(Step(s, e, lower)) < Work(s)
  {
    if e.Begin? || e.Take? || e.SeeEmpty? || e.Finish? {
      TicksSpend(s, e, lower);
    } else {
      WorkerSpends(s, e, lower);
    }
  }

  lemma WorkerSpends(s: Pipeline, e: Event, lower: string -> string)
    requires Enabled(s, e) && Internal(e) && !e.Begin? && !e.Take? && !e.SeeEmpty? && !e.Finish?
    ensures Work(Step(s, e, lower)) < Work(s)
  {
    hide QueryWithMetrics, WellFormed;
    var after := Step(s, e, lower);
    BacklogDepends(s, after, after.results);
    if e.Send? {
      BacklogGrows(s, s.results, s.worker.result);
    }
    hide Backlog;
  }

  lemma TicksSpend(s: Pipeline, e: Event, lower: string -> string)
    requires Enabled(s, e) && (e.Begin? || e.Take? || e.SeeEmpty? || e.Finish?)
    ensures Work(Step(s, e, lower)) < Work(s)
  {
    var after := Step(s, e, lower);
    BacklogDepends(s, after, after.results);
  }

  /** Nobody waits for ever: while anything is in the pipeline some thread can move. */
  lemma SomeStepIsEnabled(s: Pipeline, lower: string -> string)
    requires AllGenuine(s, lower) && !s.Idle()
    ensures exists e :: Internal(e) && Enabled(s, e)
  {
    hide QueryWithMetrics, WellFormed, Genuine;
    var e :=
      if s.ui.Drained? then Finish
      else if s.ui.Collecting? then (if s.results == [] then SeeEmpty else Take)
      else if s.results != [] then Begin
      else match s.worker
        case Waiting => Receive
        case Holding(_) => if s.requests == [] then Settle else Coalesce
        case Settled(_) => Load
        case Loaded(_, _) => Project
        case Sending(_) => Send;
    assert Enabled(s, e);
  }

  ghost predicate Quiet(events: seq<Event>) {
    forall k | 0 <= k < |events| :: Internal(events[k])
  }

  lemma DrainKeeps(s: Pipeline, e: Event, lower: string -> string)
    requires Enabled(s, e) && Internal(e)
    ensures Step(s, e, lower).Idle() ==> Current(Step(s, e, lower))
    ensures Step(s, e, lower).desired == s.desired && Step(s, e, lower).stores == s.stores
  {
    hide QueryWithMetrics, WellFormed;
  }

  lemma {:induction false} QuietRuns(s: Pipeline, events: seq<Event>, lower: string -> string)
    requires Inv(s, lower) && Quiet(events) && Run(s, events, lower).Some?
    ensures Inv(Run(s, events, lower).value, lower)
    ensures |events| + Work(Run(s, events, lower).value) <= Work(s)
    ensures Run(s, events, lower).value.desired == s.desired && Run(s, events, lower).value.stores == s.stores
    ensures events != [] && Run(s, events, lower).value.Idle() ==> Current(Run(s, events, lower).value)
    decreases |events|
  {
    if events == [] {
    } else {
      var last := |events| - 1;
      QuietRuns(s, events[..last], lower);
      var before := Run(s, events[..last], lower).value;
      StepKeepsGenuine(before, events[last], lower);
      StepKeepsNewest(before, events[last], lower);
      StepKeepsAsked(before, events[last], lower);
      StepsSpend(before, events[last], lower);
      DrainKeeps(before, events[last], lower);
      hide Step, Enabled, Newest, AllGenuine, Current, Work;
    }
  }

  /**
   Left alone, a busy pipeline stops after a bounded number of steps, whichever
   thread moves when, and what it then shows is the desired view over the store
   being served.
   */
  lemma EveryDrainEnds(s: Pipeline, events: seq<Event>, lower: string -> string)
    requires Inv(s, lower) && !s.Idle() && Quiet(events) && Run(s, events, lower).Some?
    ensures |events| <= Work(s)
    ensures var t := Run(s, events, lower).value;
            (forall e | Internal(e) :: !Enabled(t, e)) ==>
              t.Idle() && t.installed.view == s.desired && t.installed.version + 1 == |s.stores|
  {
    QuietRuns(s, events, lower);
    var t := Run(s, events, lower).value;
    hide Run, Work, Enabled, AllGenuine;
    if !t.Idle() {
      SomeStepIsEnabled(t, lower);
    }
  }
}
