/**
 The two-tier shortlist: a cheap sweep of the whole catalog promotes the
 fastest nodes not known to be dead, and only those earn a full trial.
 */
module Shortlist {
  import opened Wrappers
  import opened Sorting
  import opened ScatterReport
  import opened Median

  datatype Node = Node(name: string, payload: nat)

  /** One row of the sweep; its position is the node's catalog index. */
  datatype CheapOutcome = CheapOutcome(latency: Option<nat>, dead: bool)

  datatype Score = Score(
    nodeIndex: nat,
    name: string,
    verified: nat,
    total: nat,
    passes: bool,
    median: Option<nat>,
    spread: Option<nat>)

  const UNMEASURED: nat := 0xFFFF

  // ----- finalists

  function SweepKey(o: CheapOutcome): nat {
    o.latency.GetOr(UNMEASURED)
  }

  function FasterIn(outcomes: seq<CheapOutcome>): (nat, nat) -> bool {
    (i: nat, j: nat) => i < |outcomes| && j < |outcomes| && SweepKey(outcomes[i]) <= SweepKey(outcomes[j])
  }

  predicate Before(x: nat, y: nat) {
    x < y
  }

  function LiveBelow(outcomes: seq<CheapOutcome>, n: nat): (r: seq<nat>)
    requires n <= |outcomes|
    ensures forall i: nat :: i in r <==> i < n && !outcomes[i].dead
    ensures forall a, b | 0 <= a < b < |r| :: Before(r[a], r[b])
  {
    if n == 0 then []
    else if outcomes[n - 1].dead then LiveBelow(outcomes, n - 1)
    else
      var low := LiveBelow(outcomes, n - 1);
      assert forall a | 0 <= a < |low| :: low[a] in low;
      low + [n - 1]
  }

  function Truncate<T>(s: seq<T>, limit: nat): (r: seq<T>)
    ensures |r| <= |s| && r == s[..|r|] && |r| <= limit && (|r| < limit ==> r == s)
  {
    if |s| <= limit then s else s[..limit]
  }

  /** The live nodes, fastest first. */
  function SweepOrder(outcomes: seq<CheapOutcome>): seq<nat> {
    Sort(LiveBelow(outcomes, |outcomes|), FasterIn(outcomes))
  }

  function SelectFinalists(outcomes: seq<CheapOutcome>, finalists: nat): seq<nat> {
    Sort(Truncate(SweepOrder(outcomes), finalists), AtMost)
  }

  /** `i` was swept faster than `j`; equal readings go to the earlier node. */
  predicate Outranks(outcomes: seq<CheapOutcome>, i: nat, j: nat)
    requires i < |outcomes| && j < |outcomes|
  {
    || SweepKey(outcomes[i]) < SweepKey(outcomes[j])
    || (SweepKey(outcomes[i]) == SweepKey(outcomes[j]) && i < j)
  }

  lemma SweepOrderFacts(outcomes: seq<CheapOutcome>)
    ensures Distinct(SweepOrder(outcomes))
    ensures |SweepOrder(outcomes)| == |LiveBelow(outcomes, |outcomes|)|
    ensures forall i: nat :: i in SweepOrder(outcomes) <==> i < |outcomes| && !outcomes[i].dead
    ensures forall a, b | 0 <= a < b < |SweepOrder(outcomes)| ::
              LexBy(FasterIn(outcomes), Before, SweepOrder(outcomes)[a], SweepOrder(outcomes)[b])
  {
    var live: seq<nat> := LiveBelow(outcomes, |outcomes|);
    assert forall a, b | 0 <= a < b < |live| :: Before(live[a], live[b]);
    SortStable(live, FasterIn(outcomes), Before);
    SortPermutes(live, FasterIn(outcomes));
    PermutationDistinct(live, SweepOrder(outcomes));
    forall i: nat ensures i in SweepOrder(outcomes) <==> i < |outcomes| && !outcomes[i].dead {
      SortMember(i, live, FasterIn(outcomes));
    }
  }

  lemma ChosenInCatalogOrder(top: seq<nat>)
    requires Distinct(top)
    ensures forall a, b | 0 <= a < b < |top| :: Before(Sort(top, AtMost)[a], Sort(top, AtMost)[b])
  {
    var chosen: seq<nat> := Sort(top, AtMost);
    SortSorts(top, AtMost);
    SortPermutes(top, AtMost);
    PermutationDistinct(top, chosen);
    forall a, b | 0 <= a < b < |chosen| ensures Before(chosen[a], chosen[b]) {
      assert AtMost(chosen[a], chosen[b]) && chosen[a] != chosen[b];
    }
  }

  lemma ChosenOutranksOthers(outcomes: seq<CheapOutcome>, finalists: nat, c: nat, u: nat)
    requires c in SelectFinalists(outcomes, finalists)
    requires u !in SelectFinalists(outcomes, finalists) && u < |outcomes| && !outcomes[u].dead
    ensures c < |outcomes| && Outranks(outcomes, c, u)
  {
    var order: seq<nat> := SweepOrder(outcomes);
    var top: seq<nat> := Truncate(order, finalists);
    SweepOrderFacts(outcomes);
    SortMember(c, top, AtMost);
    SortMember(u, top, AtMost);
    var a :| 0 <= a < |top| && top[a] == c;
    var b :| 0 <= b < |order| && order[b] == u;
    assert order[a] == c && c in order;
    assert forall k | 0 <= k < |top| :: order[k] == top[k];
    assert LexBy(FasterIn(outcomes), Before, order[a], order[b]);
  }

  /**
   The finalists are the true top of the sweep, in catalog order: none is dead,
   none is left out while a slot is free, and no live node left out outranks
   one that was promoted.
   */
  lemma FinalistsAreTheTop(outcomes: seq<CheapOutcome>, finalists: nat)
    ensures var chosen := SelectFinalists(outcomes, finalists);
            && (forall a, b | 0 <= a < b < |chosen| :: Before(chosen[a], chosen[b]))
            && (forall a | 0 <= a < |chosen| :: chosen[a] < |outcomes| && !outcomes[chosen[a]].dead)
            && |chosen| == |Truncate(LiveBelow(outcomes, |outcomes|), finalists)|
            && (forall c: nat, u: nat | c in chosen && u !in chosen && u < |outcomes| && !outcomes[u].dead ::
                  c < |outcomes| && Outranks(outcomes, c, u))
  {
    var order: seq<nat> := SweepOrder(outcomes);
    var top: seq<nat> := Truncate(order, finalists);
    var chosen: seq<nat> := SelectFinalists(outcomes, finalists);
    SweepOrderFacts(outcomes);
    ChosenInCatalogOrder(top);
    forall a | 0 <= a < |chosen| ensures chosen[a] < |outcomes| && !outcomes[chosen[a]].dead {
      SortMember(chosen[a], top, AtMost);
      assert chosen[a] in order;
    }
    forall c: nat, u: nat | c in chosen && u !in chosen && u < |outcomes| && !outcomes[u].dead
      ensures c < |outcomes| && Outranks(outcomes, c, u)
    {
      ChosenOutranksOthers(outcomes, finalists, c, u);
    }
  }

  /**
   So a live node is left out only for nodes swept at least as fast; one without a
   reading is promoted ahead of it only if its own reading is the sentinel's or worse.
   */
  lemma FinalistsAreTheFastest(outcomes: seq<CheapOutcome>, finalists: nat, c: nat, u: nat)
    requires c in SelectFinalists(outcomes, finalists)
    requires u !in SelectFinalists(outcomes, finalists) && u < |outcomes| && !outcomes[u].dead
    ensures c < |outcomes|
    ensures var chosen, left := outcomes[c].latency, outcomes[u].latency;
            && (chosen.Some? && left.Some? ==>
                  chosen.value < left.value || (chosen.value == left.value && c < u))
            && (chosen.None? && left.None? ==> c < u)
            && (chosen.None? && left.Some? ==> UNMEASURED <= left.value)
            && (chosen.Some? && left.None? ==> chosen.value <= UNMEASURED)
  {
    ChosenOutranksOthers(outcomes, finalists, c, u);
  }

  // ----- ranking the trials

  /** No measurement sorts behind every measurement. */
  predicate MedianAtMost(a: Option<nat>, b: Option<nat>) {
    b.None? || (a.Some? && a.value <= b.value)
  }

  /** Passing first, then faster, then more verified checks, then catalog order. */
  predicate RankedAtMost(a: Score, b: Score) {
    if a.passes != b.passes then a.passes
    else if a.median != b.median then MedianAtMost(a.median, b.median)
    else if a.verified != b.verified then a.verified > b.verified
    else a.nodeIndex <= b.nodeIndex
  }

  function ScoreOf(nodes: seq<Node>, index: nat, trial: Option<Report>, minVerified: nat): Score
    requires index < |nodes|
  {
    match trial
    case None => Score(index, nodes[index].name, 0, 0, false, None, None)
    case Some(r) =>
      var (median, spread) := MedianOfVerified(r.checks);
      Score(index, nodes[index].name, r.verified, r.total, r.quorumVerified >= minVerified, median, spread)
  }

  function Get<T>(s: seq<Option<T>>, i: nat): Option<T> {
    if i < |s| then s[i] else None
  }

  /** A score for every finalist; a trial that did not boot leaves no report. */
  function ScoreFinalists(nodes: seq<Node>, finalists: seq<nat>, trials: seq<Option<Report>>, minVerified: nat)
    : (r: seq<Score>)
    requires forall k | 0 <= k < |finalists| :: finalists[k] < |nodes|
    ensures |r| == |finalists|
    ensures forall k | 0 <= k < |r| :: r[k] == ScoreOf(nodes, finalists[k], Get(trials, k), minVerified)
  {
    seq(|finalists|, k requires 0 <= k < |finalists| => ScoreOf(nodes, finalists[k], Get(trials, k), minVerified))
  }

  /** Everything a rescore may observe of the network. */
  datatype Rescore = Rescore(sweep: seq<CheapOutcome>, trials: seq<Option<Report>>)

  datatype Limits = Limits(finalists: nat, rescoreLimit: nat, minVerified: nat)

  /** A sweep yields at most one row per node. */
  predicate Fits(nodes: seq<Node>, r: Rescore) {
    |r.sweep| <= |nodes|
  }

  function Finalists(nodes: seq<Node>, r: Rescore, limits: Limits): (chosen: seq<nat>)
    requires Fits(nodes, r)
    ensures forall k | 0 <= k < |chosen| :: chosen[k] < |nodes|
  {
    FinalistsAreTheTop(r.sweep, limits.finalists);
    SelectFinalists(r.sweep, limits.finalists)
  }

  function FinalistScores(nodes: seq<Node>, r: Rescore, limits: Limits): seq<Score>
    requires Fits(nodes, r)
  {
    ScoreFinalists(nodes, Finalists(nodes, r, limits), r.trials, limits.minVerified)
  }

  function TieredShortlist(nodes: seq<Node>, r: Rescore, limits: Limits): seq<Score>
    requires Fits(nodes, r)
  {
    if nodes == [] then []
    else Truncate(Sort(FinalistScores(nodes, r, limits), RankedAtMost), limits.rescoreLimit)
  }

  lemma RankedIsAnOrder(scores: seq<Score>)
    ensures TotalPreorderOn(RankedAtMost, scores)
  {
  }

  lemma EmptyCatalogHasNoFinalists(nodes: seq<Node>, r: Rescore, limits: Limits)
    requires Fits(nodes, r) && nodes == []
    ensures FinalistScores(nodes, r, limits) == []
  {
    FinalistsAreTheTop(r.sweep, limits.finalists);
  }

  /** What cutting a sorted list of distinct elements keeps. */
  lemma CutKeepsTheBest<T>(all: seq<T>, le: (T, T) -> bool, limit: nat)
    requires TotalPreorderOn(le, all) && Distinct(all)
    ensures var kept := Truncate(Sort(all, le), limit);
            && (forall s | s in kept :: s in all)
            && Distinct(kept) && SortedBy(le, kept)
            && (forall s, t | s in kept && t in all && t !in kept :: le(s, t))
            && (|kept| == limit || forall s | s in all :: s in kept)
            && |kept| <= |all|
  {
    var sorted := Sort(all, le);
    var kept := Truncate(sorted, limit);
    SortSorts(all, le);
    SortPermutes(all, le);
    PermutationDistinct(all, sorted);
    forall s | s in kept ensures s in all {
      SortMember(s, all, le);
    }
    forall s, t | s in kept && t in all && t !in kept ensures le(s, t) {
      SortMember(t, all, le);
      var a :| 0 <= a < |kept| && kept[a] == s;
      var b :| 0 <= b < |sorted| && sorted[b] == t;
      assert forall k | 0 <= k < |kept| :: kept[k] == sorted[k];
    }
    if |kept| < limit {
      forall s | s in all ensures s in kept {
        SortMember(s, all, le);
      }
    }
  }

  /**
   The shortlist holds distinct finalists under their own name and in bounds of
   the catalog, in ranking order; a score is missing only when the list is full,
   and then everything kept ranks at least as well.
   */
  lemma ShortlistIsTheBest(nodes: seq<Node>, r: Rescore, limits: Limits)
    requires Fits(nodes, r)
    ensures var all, kept := FinalistScores(nodes, r, limits), TieredShortlist(nodes, r, limits);
            && (forall s | s in kept :: s in all && s.nodeIndex < |nodes| && s.name == nodes[s.nodeIndex].name)
            && (forall a, b | 0 <= a < b < |kept| :: kept[a].nodeIndex != kept[b].nodeIndex)
            && SortedBy(RankedAtMost, kept)
            && (forall s, t | s in kept && t in all && t !in kept :: RankedAtMost(s, t))
            && (|kept| == limits.rescoreLimit || forall s | s in all :: s in kept)
            && |kept| <= limits.finalists
  {
    if nodes == [] {
      EmptyCatalogHasNoFinalists(nodes, r, limits);
      return;
    }
    var all := FinalistScores(nodes, r, limits);
    var kept := TieredShortlist(nodes, r, limits);
    RankedIsAnOrder(all);
    ScoresDistinct(nodes, r, limits);
    CutKeepsTheBest(all, RankedAtMost, limits.rescoreLimit);
    FinalistsAreTheTop(r.sweep, limits.finalists);
    ScoresNamed(nodes, r, limits);
    forall a, b | 0 <= a < b < |kept| ensures kept[a].nodeIndex != kept[b].nodeIndex {
      assert kept[a] in all && kept[b] in all && kept[a] != kept[b];
    }
  }

  predicate FasterMedian(a: Option<nat>, b: Option<nat>) {
    a.Some? && (b.None? || a.value < b.value)
  }

  /** Passed and the other did not; else faster, where no measurement is slowest; else more verified; else earlier. */
  predicate RanksAhead(a: Score, b: Score) {
    || (a.passes && !b.passes)
    || (a.passes == b.passes && FasterMedian(a.median, b.median))
    || (a.passes == b.passes && a.median == b.median && a.verified > b.verified)
    || (a.passes == b.passes && a.median == b.median && a.verified == b.verified && a.nodeIndex < b.nodeIndex)
  }

  lemma RankingReads(a: Score, b: Score)
    ensures a.nodeIndex != b.nodeIndex ==> (RankedAtMost(a, b) <==> RanksAhead(a, b))
    ensures a.nodeIndex != b.nodeIndex ==> (RanksAhead(a, b) <==> !RanksAhead(b, a))
  {
  }

  /** Whoever stands higher in the shortlist ranks ahead, and whoever is in it ranks ahead of whoever was cut. */
  lemma ShortlistReadsInOrder(nodes: seq<Node>, r: Rescore, limits: Limits)
    requires Fits(nodes, r)
    ensures var all, kept := FinalistScores(nodes, r, limits), TieredShortlist(nodes, r, limits);
            && (forall a, b | 0 <= a < b < |kept| :: RanksAhead(kept[a], kept[b]))
            && (forall s, t | s in kept && t in all && t !in kept :: RanksAhead(s, t))
  {
    var all, kept := FinalistScores(nodes, r, limits), TieredShortlist(nodes, r, limits);
    ShortlistIsTheBest(nodes, r, limits);
    ScoresDistinct(nodes, r, limits);
    hide FinalistScores, TieredShortlist, RankedAtMost, RanksAhead;
    forall a, b | 0 <= a < b < |kept| ensures RanksAhead(kept[a], kept[b]) {
      assert RankedAtMost(kept[a], kept[b]);
      RankingReads(kept[a], kept[b]);
    }
    forall s, t | s in kept && t in all && t !in kept ensures RanksAhead(s, t) {
      RankingReads(s, t);
    }
  }

  /** A score reports its own finalist's trial, and a trial that did not boot as one without checks. */
  predicate Reports(s: Score, trial: Option<Report>, minVerified: nat) {
    match trial
    case None => s.verified == 0 == s.total && !s.passes && s.median.None? && s.spread.None?
    case Some(r) =>
      && s.verified == r.verified && s.total == r.total
      && (s.passes <==> minVerified <= r.quorumVerified)
      && (s.median, s.spread) == MedianOfVerified(r.checks)
  }

  lemma ScoresReportTheirTrials(nodes: seq<Node>, r: Rescore, limits: Limits, s: Score) returns (k: nat)
    requires Fits(nodes, r) && s in TieredShortlist(nodes, r, limits)
    ensures k < |SelectFinalists(r.sweep, limits.finalists)|
    ensures SelectFinalists(r.sweep, limits.finalists)[k] == s.nodeIndex
    ensures Reports(s, if k < |r.trials| then r.trials[k] else None, limits.minVerified)
  {
    ShortlistIsTheBest(nodes, r, limits);
    var all := FinalistScores(nodes, r, limits);
    hide TieredShortlist, SortedBy, RankedAtMost, MedianOfVerified;
    k :| 0 <= k < |all| && all[k] == s;
  }

  lemma ScoresNamed(nodes: seq<Node>, r: Rescore, limits: Limits)
    requires Fits(nodes, r)
    ensures forall s | s in FinalistScores(nodes, r, limits) ::
              s.nodeIndex < |nodes| && s.name == nodes[s.nodeIndex].name
  {
  }

  lemma ScoresDistinct(nodes: seq<Node>, r: Rescore, limits: Limits)
    requires Fits(nodes, r)
    ensures var all := FinalistScores(nodes, r, limits);
            && Distinct(all)
            && forall s, t | s in all && t in all && s.nodeIndex == t.nodeIndex :: s == t
  {
    FinalistsAreTheTop(r.sweep, limits.finalists);
    var chosen := Finalists(nodes, r, limits);
    var all := FinalistScores(nodes, r, limits);
    forall a | 0 <= a < |all| ensures all[a].nodeIndex == chosen[a] {}
    hide FinalistScores, Finalists, SelectFinalists;
    IndexedApart(all, chosen);
  }

  lemma IndexedApart(all: seq<Score>, chosen: seq<nat>)
    requires |all| == |chosen| && forall a | 0 <= a < |all| :: all[a].nodeIndex == chosen[a]
    requires forall a, b | 0 <= a < b < |chosen| :: Before(chosen[a], chosen[b])
    ensures Distinct(all)
    ensures forall s, t | s in all && t in all && s.nodeIndex == t.nodeIndex :: s == t
  {
    forall a, b | 0 <= a < b < |all| ensures all[a] != all[b] {
      assert Before(chosen[a], chosen[b]);
    }
    forall s, t | s in all && t in all && s.nodeIndex == t.nodeIndex ensures s == t {
      var a :| 0 <= a < |all| && all[a] == s;
      var b :| 0 <= b < |all| && all[b] == t;
      assert !Before(chosen[a], chosen[b]) && !Before(chosen[b], chosen[a]);
    }
  }
}
