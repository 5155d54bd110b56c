/**
 Auto-selection: the reputation a node accumulates, the cost it is charged, and
 the order verified nodes are tried in. Reals stand for the program's floats.
 */
module Selection {
  import opened Wrappers
  import opened Sorting
  import opened Shortlist

  datatype Track = Track(
    latency: Option<real>,
    spread: Option<real>,
    failureWeight: real,
    lastFailure: Option<nat>,
    consecutiveFailures: nat,
    samples: nat)

  const FRESH := Track(None, None, 0.0, None, 0, 0)

  const U32_MAX: nat := 0xFFFF_FFFF

  /** `decay` is the share of a failure left after so many milliseconds. */
  datatype SelectParameters = SelectParameters(
    wLatency: real,
    wSpread: real,
    wQuorum: real,
    wFailure: real,
    latencyScale: real,
    switchMargin: real,
    alpha: real,
    decay: nat -> real)

  /** Latencies are measured against the scale, so it cannot be zero. */
  type SelectConfig = p: SelectParameters | p.latencyScale != 0.0
    witness SelectParameters(0.0, 0.0, 0.0, 0.0, 1.0, 0.0, 0.0, _ => 1.0)

  ghost predicate Sane(config: SelectConfig) {
    && 0.0 <= config.wLatency && 0.0 <= config.wSpread && 0.0 <= config.wQuorum && 0.0 <= config.wFailure
    && 0.0 < config.latencyScale
    && (forall t :: 0.0 < config.decay(t) <= 1.0)
    && (forall t, u | t <= u :: config.decay(u) <= config.decay(t))
  }

  function Clamp(x: real, lo: real, hi: real): real {
    if x < lo then lo else if x > hi then hi else x
  }

  function CountUp(n: nat): nat {
    if n < U32_MAX then n + 1 else n
  }

  function Smooth(previous: Option<real>, sample: real, alpha: real): real {
    match previous
    case None => sample
    case Some(p) => alpha * sample + (1.0 - alpha) * p
  }

  /** A success halves the outstanding failure weight, it does not clear it. */
  function RecordSuccess(t: Track, median: real, spread: real, alpha: real): Track {
    var a := Clamp(alpha, 0.0, 1.0);
    Track(Some(Smooth(t.latency, median, a)), Some(Smooth(t.spread, spread, a)),
          t.failureWeight * 0.5, t.lastFailure, 0, CountUp(t.samples))
  }

  function RecordFailure(t: Track, now: nat): Track {
    t.(consecutiveFailures := CountUp(t.consecutiveFailures),
       failureWeight := if t.failureWeight + 1.0 <= 4.0 then t.failureWeight + 1.0 else 4.0,
       lastFailure := Some(now))
  }

  function DecayedFailure(t: Track, config: SelectConfig, now: nat): real {
    match t.lastFailure
    case None => 0.0
    case Some(last) => t.failureWeight * config.decay(if last <= now then now - last else 0)
  }

  // ----- one node's history

  datatype Observation = Verified(median: real, spread: real) | Failed(now: nat)

  function Observe(t: Track, o: Observation, alpha: real): Track {
    match o
    case Verified(median, spread) => RecordSuccess(t, median, spread, alpha)
    case Failed(now) => RecordFailure(t, now)
  }

  function TrackAfter(history: seq<Observation>, alpha: real): Track {
    if history == [] then FRESH
    else Observe(TrackAfter(history[..|history| - 1], alpha), history[|history| - 1], alpha)
  }

  function Medians(history: seq<Observation>): seq<real> {
    if history == [] then []
    else
      var last := history[|history| - 1];
      Medians(history[..|history| - 1]) + if last.Verified? then [last.median] else []
  }

  function Spreads(history: seq<Observation>): seq<real> {
    if history == [] then []
    else
      var last := history[|history| - 1];
      Spreads(history[..|history| - 1]) + if last.Verified? then [last.spread] else []
  }

  /** Multiplication under a name, so that sums of products stay sums of terms in proofs. */
  function Times(x: real, y: real): real {
    x * y
  }

  function Power(x: real, n: nat): real {
    if n == 0 then 1.0 else x * Power(x, n - 1)
  }

  /** The share of sample `i` out of `n`: the first sample absorbs what is left over. */
  function Share(n: nat, i: nat, a: real): real
    requires i < n
  {
    (if i == 0 then 1.0 else a) * Power(1.0 - a, n - 1 - i)
  }

  function Shares(n: nat, k: nat, a: real): real
    requires k <= n
  {
    if k == 0 then 0.0 else Shares(n, k - 1, a) + Share(n, k - 1, a)
  }

  /** The first `k` terms of the weighted sum of `s`, weighted for `n` samples. */
  function Weighted(s: seq<real>, n: nat, k: nat, a: real): real
    requires k <= n && k <= |s|
  {
    if k == 0 then 0.0 else Weighted(s, n, k - 1, a) + Times(Share(n, k - 1, a), s[k - 1])
  }

  /** Scaling a sum and the weight of its next term scales the longer sum. */
  lemma ScaleStep(c: real, sum: real, sum': real, w: real, w': real, x: real, total: real, total': real)
    requires sum' == Times(c, sum) && w' == Times(c, w)
    requires total == sum + Times(w, x) && total' == sum' + Times(w', x)
    ensures total' == Times(c, total)
  {
    assert w' * x == (c * w) * x == c * (w * x);
    assert c * total == c * sum + c * (w * x);
  }

  lemma ShareAges(n: nat, i: nat, a: real)
    requires i < n
    ensures Share(n + 1, i, a) == Times(1.0 - a, Share(n, i, a))
  {
    var c, p := if i == 0 then 1.0 else a, Power(1.0 - a, n - 1 - i);
    assert Power(1.0 - a, n - i) == (1.0 - a) * p;
    assert c * ((1.0 - a) * p) == (1.0 - a) * (c * p);
  }

  lemma {:induction false} AgeingScales(s: seq<real>, n: nat, k: nat, a: real)
    requires k <= n && k <= |s|
    ensures Weighted(s, n + 1, k, a) == Times(1.0 - a, Weighted(s, n, k, a))
    ensures Shares(n + 1, k, a) == Times(1.0 - a, Shares(n, k, a))
  {
    if k == 0 {
      assert Times(1.0 - a, 0.0) == 0.0;
    } else {
      AgeingScales(s, n, k - 1, a);
      ShareAges(n, k - 1, a);
      assert Times(Share(n, k - 1, a), 1.0) == Share(n, k - 1, a);
      assert Times(Share(n + 1, k - 1, a), 1.0) == Share(n + 1, k - 1, a);
      hide Share, Times;
      ScaleStep(1.0 - a, Weighted(s, n, k - 1, a), Weighted(s, n + 1, k - 1, a),
                Share(n, k - 1, a), Share(n + 1, k - 1, a), s[k - 1],
                Weighted(s, n, k, a), Weighted(s, n + 1, k, a));
      ScaleStep(1.0 - a, Shares(n, k - 1, a), Shares(n + 1, k - 1, a),
                Share(n, k - 1, a), Share(n + 1, k - 1, a), 1.0,
                Shares(n, k, a), Shares(n + 1, k, a));
    }
  }

  lemma {:induction false} WeightedPrefix(s: seq<real>, t: seq<real>, n: nat, k: nat, a: real)
    requires k <= n && k <= |s| && k <= |t| && s[..k] == t[..k]
    ensures Weighted(s, n, k, a) == Weighted(t, n, k, a)
  {
    if k == 0 {
    } else {
      assert s[..k - 1] == s[..k][..k - 1] && t[..k - 1] == t[..k][..k - 1];
      assert s[k - 1] == s[..k][k - 1] && t[k - 1] == t[..k][k - 1];
      WeightedPrefix(s, t, n, k - 1, a);
    }
  }

  lemma {:induction false} SharesAddToOne(n: nat, a: real)
    requires 0 < n
    ensures Shares(n, n, a) == 1.0
  {
    if n == 1 {
      assert Shares(1, 1, a) == Shares(1, 0, a) + Share(1, 0, a);
    } else {
      SharesAddToOne(n - 1, a);
      AgeingScales(seq(n - 1, _ => 0.0), n - 1, n - 1, a);
      assert Share(n, n - 1, a) == a;
    }
  }

  lemma NewestShare(n: nat, a: real)
    ensures Share(n + 1, n, a) == if n == 0 then 1.0 else a
  {
    assert Power(1.0 - a, 0) == 1.0;
  }

  lemma SmoothSplits(p: real, x: real, a: real)
    ensures Smooth(Some(p), x, a) == Times(1.0 - a, p) + Times(a, x)
  {
  }

  /** Smoothing one more sample adds it to the explicit weighted sum. */
  lemma SmoothingIsWeighted(s: seq<real>, x: real, a: real)
    ensures var previous := if s == [] then None else Some(Weighted(s, |s|, |s|, a));
            Smooth(previous, x, a) == Weighted(s + [x], |s| + 1, |s| + 1, a)
  {
    var n := |s|;
    WeightedPrefix(s, s + [x], n + 1, n, a);
    AgeingScales(s, n, n, a);
    assert Weighted(s + [x], n + 1, n + 1, a) == Weighted(s + [x], n + 1, n, a) + Times(Share(n + 1, n, a), x);
    NewestShare(n, a);
    if n == 0 {
      assert Weighted(s + [x], 1, 0, a) == 0.0;
      assert Times(1.0, x) == x;
    } else {
      hide Weighted, Share, Smooth, Times;
      SmoothSplits(Weighted(s, n, n, a), x, a);
    }
  }

  /**
   After any history the smoothed readings are the explicit weighted sums of the
   verified samples, newest weighing most, with shares that add to one.
   */
  lemma {:induction false} EwmaIsTheWeightedSum(history: seq<Observation>, alpha: real)
    ensures var a, t := Clamp(alpha, 0.0, 1.0), TrackAfter(history, alpha);
            var m, d := Medians(history), Spreads(history);
            && t.latency == (if m == [] then None else Some(Weighted(m, |m|, |m|, a)))
            && t.spread == (if d == [] then None else Some(Weighted(d, |d|, |d|, a)))
            && |m| == |d|
            && (m != [] ==> Shares(|m|, |m|, a) == 1.0)
    decreases |history|
  {
    var a := Clamp(alpha, 0.0, 1.0);
    if history == [] {
    } else {
      var before := history[..|history| - 1];
      EwmaIsTheWeightedSum(before, alpha);
      var last := history[|history| - 1];
      if last.Verified? {
        SmoothingIsWeighted(Medians(before), last.median, a);
        SmoothingIsWeighted(Spreads(before), last.spread, a);
        assert Medians(history) == Medians(before) + [last.median];
        assert Spreads(history) == Spreads(before) + [last.spread];
      } else {
        assert Medians(history) == Medians(before) && Spreads(history) == Spreads(before);
      }
    }
    if Medians(history) != [] {
      SharesAddToOne(|Medians(history)|, a);
    }
  }

  lemma ProductInUnit(x: real, y: real)
    requires 0.0 <= x <= 1.0 && 0.0 <= y <= 1.0
    ensures 0.0 <= x * y <= 1.0
  {
    ScaleKeepsOrder(x, y, 1.0);
    assert x * 1.0 == x;
    assert x * y <= x;
  }

  lemma {:induction false} PowerInUnit(x: real, n: nat)
    requires 0.0 <= x <= 1.0
    ensures 0.0 <= Power(x, n) <= 1.0
  {
    if n == 0 {
    } else {
      PowerInUnit(x, n - 1);
      ProductInUnit(x, Power(x, n - 1));
    }
  }

  lemma SplitSum(c: real, x: real, y: real)
    ensures Times(c, x + y) == Times(c, x) + Times(y, c)
  {
  }

  lemma AddTermBetween(before: real, after: real, sum: real, total: real, w: real, x: real, lo: real, hi: real)
    requires after == before + w && total == sum + Times(w, x)
    requires 0.0 <= w && lo <= x <= hi && Times(lo, before) <= sum <= Times(hi, before)
    ensures Times(lo, after) <= total <= Times(hi, after)
  {
    ScaleKeepsOrder(w, lo, x);
    ScaleKeepsOrder(w, x, hi);
    assert Times(w, lo) <= Times(w, x) <= Times(w, hi);
    SplitSum(lo, before, w);
    SplitSum(hi, before, w);
  }

  lemma ShareNotNegative(n: nat, i: nat, a: real)
    requires i < n && 0.0 <= a <= 1.0
    ensures 0.0 <= Share(n, i, a)
  {
    PowerInUnit(1.0 - a, n - 1 - i);
    ScaleKeepsOrder(a, 0.0, Power(1.0 - a, n - 1 - i));
  }

  lemma {:induction false} WeightedBetween(s: seq<real>, n: nat, k: nat, a: real, lo: real, hi: real)
    requires k <= n && k <= |s| && 0.0 <= a <= 1.0
    requires forall x | x in s :: lo <= x <= hi
    ensures Times(lo, Shares(n, k, a)) <= Weighted(s, n, k, a) <= Times(hi, Shares(n, k, a))
  {
    if k == 0 {
      assert Times(lo, 0.0) == 0.0 == Times(hi, 0.0);
    } else {
      WeightedBetween(s, n, k - 1, a, lo, hi);
      ShareNotNegative(n, k - 1, a);
      assert s[k - 1] in s;
      hide Share, Power, Times;
      AddTermBetween(Shares(n, k - 1, a), Shares(n, k, a), Weighted(s, n, k - 1, a), Weighted(s, n, k, a),
                     Share(n, k - 1, a), s[k - 1], lo, hi);
    }
  }

  lemma ScaleKeepsOrder(w: real, x: real, y: real)
    requires 0.0 <= w && x <= y
    ensures w * x <= w * y
  {
  }

  /** The smoothed latency and spread never leave the range of the samples they smoothed. */
  lemma EwmaStaysAmongSamples(history: seq<Observation>, alpha: real, lo: real, hi: real, calm: real, wild: real)
    requires Medians(history) != []
    requires forall x | x in Medians(history) :: lo <= x <= hi
    requires forall x | x in Spreads(history) :: calm <= x <= wild
    ensures var t := TrackAfter(history, alpha);
            && t.latency.Some? && lo <= t.latency.value <= hi
            && t.spread.Some? && calm <= t.spread.value <= wild
  {
    var m, d, a := Medians(history), Spreads(history), Clamp(alpha, 0.0, 1.0);
    EwmaIsTheWeightedSum(history, alpha);
    WeightedBetween(m, |m|, |m|, a, lo, hi);
    WeightedBetween(d, |d|, |d|, a, calm, wild);
    hide TrackAfter, Weighted, Shares, Medians, Spreads;
    assert Times(lo, 1.0) == lo && Times(hi, 1.0) == hi;
    assert Times(calm, 1.0) == calm && Times(wild, 1.0) == wild;
  }

  /** Verified samples after the latest failure, if there was a failure. */
  function SuccessesSinceFailure(history: seq<Observation>): Option<nat> {
    if history == [] then None
    else if history[|history| - 1].Failed? then Some(0)
    else
      match SuccessesSinceFailure(history[..|history| - 1])
      case None => None
      case Some(k) => Some(k + 1)
  }

  /**
   The failure weight stays in [0, 4]; it is zero before any failure and at
   least 2^-k after k successes since the last one, so successes ease a failure
   but never erase it.
   */
  lemma {:induction false} FailuresFadeSlowly(history: seq<Observation>, alpha: real)
    ensures var t := TrackAfter(history, alpha);
            && 0.0 <= t.failureWeight <= 4.0
            && (t.lastFailure.None? <==> SuccessesSinceFailure(history).None?)
            && match SuccessesSinceFailure(history)
               case None => t.failureWeight == 0.0
               case Some(k) => Power(0.5, k) <= t.failureWeight
    decreases |history|
  {
    if history == [] {
    } else {
      FailuresFadeSlowly(history[..|history| - 1], alpha);
    }
  }

  // ----- cost

  datatype Terms = Terms(latency: real, spread: real, disagreement: real, failure: real)

  function Millis(d: Option<nat>, missing: real): real {
    match d
    case None => missing
    case Some(ms) => ms as real
  }

  function TermsOf(score: Score, track: Track, config: SelectConfig, now: nat): Terms
  {
    var latency := track.latency.GetOr(Millis(score.median, config.latencyScale * 2.0));
    var spread := track.spread.GetOr(Millis(score.spread, 0.0));
    Terms(
      Clamp(latency / config.latencyScale, 0.0, 4.0),
      Clamp(spread / config.latencyScale, 0.0, 4.0),
      if score.total == 0 then 1.0 else 1.0 - score.verified as real / score.total as real,
      DecayedFailure(track, config, now))
  }

  function Charge(t: Terms, config: SelectConfig): real {
    config.wLatency * t.latency + config.wSpread * t.spread
    + config.wQuorum * t.disagreement + config.wFailure * t.failure
  }

  function SelectionCost(score: Score, track: Track, config: SelectConfig, now: nat): real
  {
    Charge(TermsOf(score, track, config, now), config)
  }

  ghost predicate NoWorse(a: Terms, b: Terms) {
    a.latency <= b.latency && a.spread <= b.spread && a.disagreement <= b.disagreement && a.failure <= b.failure
  }

  lemma ChargeIsMonotone(a: Terms, b: Terms, config: SelectConfig)
    requires Sane(config) && NoWorse(a, b)
    ensures Charge(a, config) <= Charge(b, config)
  {
    ScaleKeepsOrder(config.wLatency, a.latency, b.latency);
    ScaleKeepsOrder(config.wSpread, a.spread, b.spread);
    ScaleKeepsOrder(config.wQuorum, a.disagreement, b.disagreement);
    ScaleKeepsOrder(config.wFailure, a.failure, b.failure);
  }

  lemma FractionInUnit(verified: nat, total: nat)
    requires verified <= total && 0 < total
    ensures 0.0 <= verified as real / total as real <= 1.0
  {
  }

  lemma DecayIsBounded(track: Track, config: SelectConfig, now: nat)
    requires Sane(config) && 0.0 <= track.failureWeight <= 4.0
    ensures 0.0 <= DecayedFailure(track, config, now) <= 4.0
  {
    if track.lastFailure.Some? {
      var elapsed := if track.lastFailure.value <= now then now - track.lastFailure.value else 0;
      var share := config.decay(elapsed);
      assert 0.0 < share <= 1.0;
      ScaleKeepsOrder(track.failureWeight, share, 1.0);
      assert track.failureWeight * 1.0 == track.failureWeight;
      assert 0.0 <= track.failureWeight * share <= track.failureWeight;
      assert DecayedFailure(track, config, now) == track.failureWeight * share;
    }
  }

  lemma TermsAreBounded(score: Score, track: Track, config: SelectConfig, now: nat)
    requires Sane(config) && score.verified <= score.total && 0.0 <= track.failureWeight <= 4.0
    ensures NoWorse(Terms(0.0, 0.0, 0.0, 0.0), TermsOf(score, track, config, now))
    ensures NoWorse(TermsOf(score, track, config, now), Terms(4.0, 4.0, 1.0, 4.0))
  {
    DecayIsBounded(track, config, now);
    hide DecayedFailure, Millis;
    if score.total != 0 {
      FractionInUnit(score.verified, score.total);
    }
  }

  /** No history and no measurement can push a cost out of its stated range. */
  lemma CostIsBounded(score: Score, history: seq<Observation>, config: SelectConfig, now: nat)
    requires Sane(config) && score.verified <= score.total
    ensures var cost := SelectionCost(score, TrackAfter(history, config.alpha), config, now);
            0.0 <= cost <= 4.0 * config.wLatency + 4.0 * config.wSpread + config.wQuorum + 4.0 * config.wFailure
  {
    var track := TrackAfter(history, config.alpha);
    FailuresFadeSlowly(history, config.alpha);
    TermsAreBounded(score, track, config, now);
    ChargeIsMonotone(Terms(0.0, 0.0, 0.0, 0.0), TermsOf(score, track, config, now), config);
    ChargeIsMonotone(TermsOf(score, track, config, now), Terms(4.0, 4.0, 1.0, 4.0), config);
  }

  // ----- ranking

  datatype RankedNode = RankedNode(nodeIndex: nat, cost: real)

  type Tracks = map<nat, Track>

  function TrackOf(tracks: Tracks, ids: seq<nat>, nodeIndex: nat): Track {
    if nodeIndex < |ids| && ids[nodeIndex] in tracks then tracks[ids[nodeIndex]] else FRESH
  }

  function RankOf(score: Score, tracks: Tracks, ids: seq<nat>, config: SelectConfig, now: nat): RankedNode
  {
    RankedNode(score.nodeIndex, SelectionCost(score, TrackOf(tracks, ids, score.nodeIndex), config, now))
  }

  predicate CheaperAtMost(a: RankedNode, b: RankedNode) {
    a.cost < b.cost || (a.cost == b.cost && a.nodeIndex <= b.nodeIndex)
  }

  /** The hard gate: only scores that passed their quorum are charged at all. */
  function Eligible(scores: seq<Score>, tracks: Tracks, ids: seq<nat>, config: SelectConfig, now: nat)
    : seq<RankedNode>
  {
    if scores == [] then []
    else
      (if scores[0].passes then [RankOf(scores[0], tracks, ids, config, now)] else [])
      + Eligible(scores[1..], tracks, ids, config, now)
  }

  function RankWorkingNodes(scores: seq<Score>, tracks: Tracks, ids: seq<nat>, config: SelectConfig, now: nat)
    : seq<RankedNode>
  {
    Sort(Eligible(scores, tracks, ids, config, now), CheaperAtMost)
  }

  lemma {:induction false} EligibleArePassing(scores: seq<Score>, tracks: Tracks, ids: seq<nat>,
                                              config: SelectConfig, now: nat, e: RankedNode)
    ensures e in Eligible(scores, tracks, ids, config, now) <==>
            exists s :: s in scores && s.passes && RankOf(s, tracks, ids, config, now) == e
  {
    if scores == [] {
    } else {
      EligibleArePassing(scores[1..], tracks, ids, config, now, e);
      var head := if scores[0].passes then [RankOf(scores[0], tracks, ids, config, now)] else [];
      assert e in Eligible(scores, tracks, ids, config, now) <==>
             e in head || e in Eligible(scores[1..], tracks, ids, config, now);
      if s :| s in scores && s.passes && RankOf(s, tracks, ids, config, now) == e {
        assert s == scores[0] || s in scores[1..];
      }
      if e in head {
        assert scores[0] in scores;
      }
    }
  }

  /**
   Exactly the passing scores are ranked, each at its own catalog index and
   cost, cheapest first and the earlier node first among equals.
   */
  lemma RankingIsTheGateInCostOrder(scores: seq<Score>, tracks: Tracks, ids: seq<nat>,
                                    config: SelectConfig, now: nat)
    ensures var ranked := RankWorkingNodes(scores, tracks, ids, config, now);
            && (forall e :: e in ranked <==>
                  exists s :: s in scores && s.passes && RankOf(s, tracks, ids, config, now) == e)
            && SortedBy(CheaperAtMost, ranked)
            && (ranked == [] <==> forall s | s in scores :: !s.passes)
  {
    var eligible := Eligible(scores, tracks, ids, config, now);
    var ranked := RankWorkingNodes(scores, tracks, ids, config, now);
    SortSorts(eligible, CheaperAtMost);
    forall e ensures e in ranked <==>
        exists s :: s in scores && s.passes && RankOf(s, tracks, ids, config, now) == e
    {
      SortMember(e, eligible, CheaperAtMost);
      EligibleArePassing(scores, tracks, ids, config, now, e);
    }
    if ranked != [] {
      assert ranked[0] in ranked;
    } else {
      forall s | s in scores ensures !s.passes {
        assert RankOf(s, tracks, ids, config, now) !in ranked;
      }
    }
  }

  /** A candidate no worse in any term is behind another only at equal cost. */
  lemma NoWorseIsNotBehind(scores: seq<Score>, tracks: Tracks, ids: seq<nat>, config: SelectConfig, now: nat,
                           a: Score, b: Score, i: nat, j: nat)
    requires Sane(config) && a in scores && b in scores && a.passes && b.passes
    ensures var ranked := RankWorkingNodes(scores, tracks, ids, config, now);
            var first, second := RankOf(a, tracks, ids, config, now), RankOf(b, tracks, ids, config, now);
            && NoWorse(TermsOf(a, TrackOf(tracks, ids, a.nodeIndex), config, now),
                       TermsOf(b, TrackOf(tracks, ids, b.nodeIndex), config, now))
            && j < i < |ranked| && ranked[i] == first && ranked[j] == second ==>
              first.cost == second.cost && b.nodeIndex <= a.nodeIndex
  {
    RankingIsTheGateInCostOrder(scores, tracks, ids, config, now);
    var x := TermsOf(a, TrackOf(tracks, ids, a.nodeIndex), config, now);
    var y := TermsOf(b, TrackOf(tracks, ids, b.nodeIndex), config, now);
    if NoWorse(x, y) {
      ChargeIsMonotone(x, y, config);
    }
  }

  // ----- a round of scores

  function TrackFor(tracks: Tracks, id: nat): Track {
    if id in tracks then tracks[id] else FRESH
  }

  function ObservationOf(score: Score, now: nat): Observation {
    if score.passes then Verified(Millis(score.median, 0.0), Millis(score.spread, 0.0)) else Failed(now)
  }

  /** A score is folded into the node its catalog index names, never its position. */
  function ObserveScore(tracks: Tracks, ids: seq<nat>, score: Score, alpha: real, now: nat): Tracks {
    if score.nodeIndex >= |ids| then tracks
    else
      var id := ids[score.nodeIndex];
      tracks[id := Observe(TrackFor(tracks, id), ObservationOf(score, now), alpha)]
  }

  function ObserveRound(tracks: Tracks, ids: seq<nat>, scores: seq<Score>, alpha: real, now: nat): Tracks {
    if scores == [] then tracks
    else
      var last := |scores| - 1;
      ObserveScore(ObserveRound(tracks, ids, scores[..last], alpha, now), ids, scores[last], alpha, now)
  }

  /** What a round has to say about one node, in the order it says it. */
  function RoundAbout(ids: seq<nat>, scores: seq<Score>, now: nat, id: nat): seq<Observation> {
    if scores == [] then []
    else
      var last := scores[|scores| - 1];
      RoundAbout(ids, scores[..|scores| - 1], now, id)
      + if last.nodeIndex < |ids| && ids[last.nodeIndex] == id then [ObservationOf(last, now)] else []
  }

  lemma HistoryGrows(history: seq<Observation>, o: Observation, alpha: real)
    ensures TrackAfter(history + [o], alpha) == Observe(TrackAfter(history, alpha), o, alpha)
  {
    assert (history + [o])[..|history|] == history;
  }

  /** A round extends the history of every node by what it says about it: tracks are nothing but histories. */
  lemma {:induction false} RoundExtendsHistories(tracks: Tracks, ids: seq<nat>, scores: seq<Score>, alpha: real,
                                                 now: nat, id: nat, history: seq<Observation>)
    requires TrackFor(tracks, id) == TrackAfter(history, alpha)
    ensures TrackFor(ObserveRound(tracks, ids, scores, alpha, now), id)
         == TrackAfter(history + RoundAbout(ids, scores, now, id), alpha)
    decreases |scores|
  {
    if scores == [] {
      assert history + [] == history;
    } else {
      var before, last := scores[..|scores| - 1], scores[|scores| - 1];
      RoundExtendsHistories(tracks, ids, before, alpha, now, id, history);
      var told := history + RoundAbout(ids, before, now, id);
      hide TrackAfter, Observe, ObservationOf;
      if last.nodeIndex < |ids| && ids[last.nodeIndex] == id {
        HistoryGrows(told, ObservationOf(last, now), alpha);
        assert told + [ObservationOf(last, now)] == history + RoundAbout(ids, scores, now, id);
      } else {
        assert history + RoundAbout(ids, scores, now, id) == told;
      }
    }
  }

  ghost predicate About(s: Score, ids: seq<nat>, id: nat) {
    s.nodeIndex < |ids| && ids[s.nodeIndex] == id
  }

  lemma {:induction false} RoundLeavesOthers(tracks: Tracks, ids: seq<nat>, scores: seq<Score>, alpha: real, now: nat,
                                             id: nat)
    requires forall k | 0 <= k < |scores| :: !About(scores[k], ids, id)
    ensures TrackFor(ObserveRound(tracks, ids, scores, alpha, now), id) == TrackFor(tracks, id)
    decreases |scores|
  {
    if scores == [] {
    } else {
      RoundLeavesOthers(tracks, ids, scores[..|scores| - 1], alpha, now, id);
      assert !About(scores[|scores| - 1], ids, id);
      hide Observe, ObservationOf;
    }
  }

  lemma {:induction false} RoundTouchesAt(tracks: Tracks, ids: seq<nat>, scores: seq<Score>, alpha: real, now: nat,
                                          id: nat, k: nat)
    requires k < |scores| && About(scores[k], ids, id)
    requires forall j | 0 <= j < |scores| && j != k :: !About(scores[j], ids, id)
    ensures TrackFor(ObserveRound(tracks, ids, scores, alpha, now), id)
         == Observe(TrackFor(tracks, id), ObservationOf(scores[k], now), alpha)
    decreases |scores|
  {
    var before := scores[..|scores| - 1];
    hide Observe, ObservationOf;
    if k == |scores| - 1 {
      RoundLeavesOthers(tracks, ids, before, alpha, now, id);
    } else {
      RoundTouchesAt(tracks, ids, before, alpha, now, id, k);
      assert !About(scores[|scores| - 1], ids, id);
    }
  }

  /** A round touches every scored node once and no other. */
  lemma RoundTouchesScoredNodes(tracks: Tracks, ids: seq<nat>, scores: seq<Score>, alpha: real, now: nat, id: nat)
    requires Distinct(ids)
    requires forall a, b | 0 <= a < b < |scores| :: scores[a].nodeIndex != scores[b].nodeIndex
    ensures (forall s | s in scores :: !About(s, ids, id)) ==>
              TrackFor(ObserveRound(tracks, ids, scores, alpha, now), id) == TrackFor(tracks, id)
    ensures forall s | s in scores && About(s, ids, id) ::
              TrackFor(ObserveRound(tracks, ids, scores, alpha, now), id)
              == Observe(TrackFor(tracks, id), ObservationOf(s, now), alpha)
  {
    hide ObserveRound, TrackFor, Observe, ObservationOf;
    if forall s | s in scores :: !About(s, ids, id) {
      RoundLeavesOthers(tracks, ids, scores, alpha, now, id);
    }
    forall s | s in scores && About(s, ids, id)
      ensures TrackFor(ObserveRound(tracks, ids, scores, alpha, now), id)
           == Observe(TrackFor(tracks, id), ObservationOf(s, now), alpha)
    {
      var k :| 0 <= k < |scores| && scores[k] == s;
      RoundTouchesAt(tracks, ids, scores, alpha, now, id, k);
    }
  }

  class AutoSelector {
    const config: SelectConfig
    var tracks: Tracks

    constructor (config: SelectConfig)
      ensures this.config == config && tracks == map[]
    {
      this.config := config;
      tracks := map[];
    }

    method ObserveVerified(id: nat, median: real, spread: real)
      modifies this
      ensures tracks == old(tracks)[id := Observe(TrackFor(old(tracks), id), Verified(median, spread), config.alpha)]
    {
      tracks := tracks[id := RecordSuccess(TrackFor(tracks, id), median, spread, config.alpha)];
    }

    method ObserveFailed(id: nat, now: nat)
      modifies this
      ensures tracks == old(tracks)[id := Observe(TrackFor(old(tracks), id), Failed(now), config.alpha)]
    {
      tracks := tracks[id := RecordFailure(TrackFor(tracks, id), now)];
    }

    method FoldRound(ids: seq<nat>, scores: seq<Score>, now: nat)
      modifies this
      ensures tracks == ObserveRound(old(tracks), ids, scores, config.alpha, now)
    {
      for k := 0 to |scores|
        invariant tracks == ObserveRound(old(tracks), ids, scores[..k], config.alpha, now)
      {
        var score := scores[k];
        assert scores[..k + 1][..k] == scores[..k];
        if score.nodeIndex < |ids| {
          if score.passes {
            ObserveVerified(ids[score.nodeIndex], Millis(score.median, 0.0), Millis(score.spread, 0.0));
          } else {
            ObserveFailed(ids[score.nodeIndex], now);
          }
        }
      }
      assert scores[..|scores|] == scores;
    }
  }
}
