/**
 What a selection cost charges for, read off scores and tracks: agreement, latency,
 spread and failures, each against a node that differs in nothing else.
 */
module SelectionCharges {
  import opened Wrappers
  import opened Sorting
  import opened Shortlist
  import opened Selection

  lemma TimesSplits(w: real, x: real, y: real)
    ensures Times(w, x) - Times(w, y) == Times(w, x - y)
  {
  }

  lemma PositiveProduct(w: real, d: real)
    requires 0.0 < w && 0.0 < d
    ensures 0.0 < Times(w, d)
  {
  }

  lemma TimesKeepsOrder(w: real, x: real, y: real)
    requires 0.0 <= w && x <= y
    ensures Times(w, x) <= Times(w, y)
    ensures 0.0 < w && x < y ==> Times(w, x) < Times(w, y)
  {
    ScaleKeepsOrder(w, x, y);
    if 0.0 < w && x < y {
      PositiveProduct(w, y - x);
      TimesSplits(w, y, x);
    }
  }

  lemma QuotientKeepsOrder(x: real, y: real, scale: real)
    requires 0.0 < scale && x <= y
    ensures x / scale <= y / scale
    ensures x < y ==> x / scale < y / scale
  {
  }

  lemma ChargeByTerms(t: Terms, config: SelectConfig)
    ensures Charge(t, config)
         == Times(config.wLatency, t.latency) + Times(config.wSpread, t.spread)
            + Times(config.wQuorum, t.disagreement) + Times(config.wFailure, t.failure)
  {
  }

  // ----- agreement

  lemma DisagreementFalls(a: nat, b: nat, total: nat)
    requires 0 < total
    ensures (1.0 - a as real / total as real) - (1.0 - b as real / total as real) == (b - a) as real / total as real
  {
  }

  /** Each verified check more saves the quorum weight's share of one check. */
  lemma AgreementSaves(score: Score, more: nat, track: Track, config: SelectConfig, now: nat)
    requires 0 < score.total
    ensures SelectionCost(score, track, config, now) - SelectionCost(score.(verified := more), track, config, now)
         == Times(config.wQuorum, (more - score.verified) as real / score.total as real)
  {
    var x := TermsOf(score, track, config, now);
    var y := TermsOf(score.(verified := more), track, config, now);
    ChargeByTerms(x, config);
    ChargeByTerms(y, config);
    DisagreementFalls(score.verified, more, score.total);
    TimesSplits(config.wQuorum, x.disagreement, y.disagreement);
    hide Times, Charge, DecayedFailure, Millis, Clamp;
  }

  /** So of two nodes that differ in it alone, the one with more verified checks never costs more. */
  lemma MoreAgreementNeverCostsMore(score: Score, more: nat, track: Track, config: SelectConfig, now: nat)
    requires Sane(config) && 0 < score.total && score.verified <= more
    ensures SelectionCost(score.(verified := more), track, config, now) <= SelectionCost(score, track, config, now)
    ensures 0.0 < config.wQuorum && score.verified < more ==>
              SelectionCost(score.(verified := more), track, config, now) < SelectionCost(score, track, config, now)
  {
    AgreementSaves(score, more, track, config, now);
    QuotientKeepsOrder(0.0, (more - score.verified) as real, score.total as real);
    TimesKeepsOrder(config.wQuorum, 0.0, (more - score.verified) as real / score.total as real);
    hide SelectionCost;
    assert Times(config.wQuorum, 0.0) == 0.0;
  }

  /** No check at all is charged like a trial in which none verified. */
  lemma NoChecksAreNoAgreement(score: Score, checks: nat, track: Track, config: SelectConfig, now: nat)
    requires 0 < checks
    ensures SelectionCost(score.(total := 0), track, config, now)
         == SelectionCost(score.(verified := 0, total := checks), track, config, now)
  {
    hide DecayedFailure, Charge;
  }

  /** Full agreement at once, no history: such a node costs nothing, so everything else is an extra. */
  lemma FlawlessCostsNothing(score: Score, config: SelectConfig, now: nat)
    requires 0 < score.total == score.verified && score.median == Some(0) && score.spread == Some(0)
    ensures SelectionCost(score, FRESH, config, now) == 0.0
  {
  }

  // ----- readings

  lemma ClampKeepsOrder(x: real, y: real)
    requires x <= y
    ensures Clamp(x, 0.0, 4.0) <= Clamp(y, 0.0, 4.0)
    ensures x < y && 0.0 <= x < 4.0 ==> Clamp(x, 0.0, 4.0) < Clamp(y, 0.0, 4.0)
  {
  }

  lemma ScaledKeepsOrder(x: real, y: real, scale: real)
    requires 0.0 < scale && 0.0 <= x <= y
    ensures Clamp(x / scale, 0.0, 4.0) <= Clamp(y / scale, 0.0, 4.0)
    ensures x < y && x < 4.0 * scale ==> Clamp(x / scale, 0.0, 4.0) < Clamp(y / scale, 0.0, 4.0)
  {
    QuotientKeepsOrder(x, y, scale);
    QuotientKeepsOrder(0.0, x, scale);
    if x < 4.0 * scale {
      QuotientKeepsOrder(x, 4.0 * scale, scale);
      assert 4.0 * scale / scale == 4.0;
    }
    ClampKeepsOrder(x / scale, y / scale);
  }

  lemma LatencyCharge(a: Terms, b: Terms, config: SelectConfig)
    requires Sane(config) && b == a.(latency := b.latency) && a.latency <= b.latency
    ensures Charge(a, config) <= Charge(b, config)
    ensures 0.0 < config.wLatency && a.latency < b.latency ==> Charge(a, config) < Charge(b, config)
  {
    ChargeByTerms(a, config);
    ChargeByTerms(b, config);
    TimesKeepsOrder(config.wLatency, a.latency, b.latency);
    hide Times, Charge;
  }

  lemma SpreadCharge(a: Terms, b: Terms, config: SelectConfig)
    requires Sane(config) && b == a.(spread := b.spread) && a.spread <= b.spread
    ensures Charge(a, config) <= Charge(b, config)
    ensures 0.0 < config.wSpread && a.spread < b.spread ==> Charge(a, config) < Charge(b, config)
  {
    ChargeByTerms(a, config);
    ChargeByTerms(b, config);
    TimesKeepsOrder(config.wSpread, a.spread, b.spread);
    hide Times, Charge;
  }

  /** A node without history is charged for its trial's median: a slower one never less, up to four scales. */
  lemma SlowerCostsMore(score: Score, slower: nat, track: Track, config: SelectConfig, now: nat)
    requires Sane(config) && track.latency.None? && score.median.Some? && score.median.value <= slower
    ensures SelectionCost(score, track, config, now)
         <= SelectionCost(score.(median := Some(slower)), track, config, now)
    ensures && 0.0 < config.wLatency && score.median.value < slower
            && score.median.value as real < 4.0 * config.latencyScale ==>
              SelectionCost(score, track, config, now)
              < SelectionCost(score.(median := Some(slower)), track, config, now)
  {
    var x := TermsOf(score, track, config, now);
    var y := TermsOf(score.(median := Some(slower)), track, config, now);
    ScaledKeepsOrder(score.median.value as real, slower as real, config.latencyScale);
    hide Clamp, DecayedFailure, Charge;
    LatencyCharge(x, y, config);
  }

  /** Likewise for the spread. */
  lemma UnsteadierCostsMore(score: Score, wider: nat, track: Track, config: SelectConfig, now: nat)
    requires Sane(config) && track.spread.None? && score.spread.Some? && score.spread.value <= wider
    ensures SelectionCost(score, track, config, now)
         <= SelectionCost(score.(spread := Some(wider)), track, config, now)
    ensures && 0.0 < config.wSpread && score.spread.value < wider
            && score.spread.value as real < 4.0 * config.latencyScale ==>
              SelectionCost(score, track, config, now)
              < SelectionCost(score.(spread := Some(wider)), track, config, now)
  {
    var x := TermsOf(score, track, config, now);
    var y := TermsOf(score.(spread := Some(wider)), track, config, now);
    ScaledKeepsOrder(score.spread.value as real, wider as real, config.latencyScale);
    hide Clamp, DecayedFailure, Charge;
    SpreadCharge(x, y, config);
  }

  /** A trial that measured nothing counts as one of twice the scale, and without spread. */
  lemma MissingReadings(score: Score, twice: nat, track: Track, config: SelectConfig, now: nat)
    ensures twice as real == 2.0 * config.latencyScale ==>
              SelectionCost(score.(median := None), track, config, now)
              == SelectionCost(score.(median := Some(twice)), track, config, now)
    ensures SelectionCost(score.(spread := None), track, config, now)
         == SelectionCost(score.(spread := Some(0)), track, config, now)
  {
    hide Clamp, DecayedFailure, Charge;
  }

  /**
   With history the smoothed readings decide, and the trial's own do not matter; a
   slower or less steady smoothed one never costs less.
   */
  lemma HistoryDecides(score: Score, median: Option<nat>, spread: Option<nat>, track: Track, slower: real, wider: real,
                       config: SelectConfig, now: nat)
    requires Sane(config) && track.latency.Some? && track.spread.Some?
    requires 0.0 <= track.latency.value <= slower && 0.0 <= track.spread.value <= wider
    ensures SelectionCost(score.(median := median, spread := spread), track, config, now)
         == SelectionCost(score, track, config, now)
    ensures SelectionCost(score, track, config, now)
         <= SelectionCost(score, track.(latency := Some(slower)), config, now)
    ensures SelectionCost(score, track, config, now)
         <= SelectionCost(score, track.(spread := Some(wider)), config, now)
    ensures && 0.0 < config.wLatency && track.latency.value < slower
            && track.latency.value < 4.0 * config.latencyScale ==>
              SelectionCost(score, track, config, now)
              < SelectionCost(score, track.(latency := Some(slower)), config, now)
  {
    var x := TermsOf(score, track, config, now);
    var y, z := TermsOf(score, track.(latency := Some(slower)), config, now),
                TermsOf(score, track.(spread := Some(wider)), config, now);
    ScaledKeepsOrder(track.latency.value, slower, config.latencyScale);
    ScaledKeepsOrder(track.spread.value, wider, config.latencyScale);
    assert TermsOf(score.(median := median, spread := spread), track, config, now) == x;
    hide Clamp, Charge;
    LatencyCharge(x, y, config);
    SpreadCharge(x, z, config);
  }

  // ----- failures

  /** What is outstanding of past failures is charged on top, faded by the time since the last one. */
  lemma FailuresAreExtra(score: Score, track: Track, last: nat, config: SelectConfig, now: nat)
    requires last <= now
    ensures SelectionCost(score, track.(lastFailure := Some(last)), config, now)
         == SelectionCost(score, track.(lastFailure := None), config, now)
            + Times(config.wFailure, Times(track.failureWeight, config.decay(now - last)))
  {
    var x := TermsOf(score, track.(lastFailure := None), config, now);
    var y := TermsOf(score, track.(lastFailure := Some(last)), config, now);
    ChargeByTerms(x, config);
    ChargeByTerms(y, config);
    assert Times(config.wFailure, 0.0) == 0.0;
    hide Times, Charge, Clamp;
  }

  /** What failures of two weights and ages add, compared. */
  lemma ExtrasKeepOrder(w: real, light: real, heavy: real, early: real, late: real)
    requires 0.0 <= w && 0.0 <= light <= heavy && 0.0 < early <= late
    ensures 0.0 <= Times(w, Times(light, early)) <= Times(w, Times(heavy, late))
    ensures 0.0 < w && light < heavy ==> Times(w, Times(light, early)) < Times(w, Times(heavy, early))
  {
    TimesKeepsOrder(early, 0.0, light);
    TimesKeepsOrder(early, light, heavy);
    TimesKeepsOrder(heavy, early, late);
    assert Times(light, early) == Times(early, light) && Times(heavy, early) == Times(early, heavy);
    assert Times(early, 0.0) == 0.0 == Times(w, 0.0);
    hide Times;
    TimesKeepsOrder(w, 0.0, Times(light, early));
    TimesKeepsOrder(w, Times(light, early), Times(heavy, late));
    TimesKeepsOrder(w, Times(light, early), Times(heavy, early));
  }

  /** A heavier or a more recent failure never costs less, and neither does any failure at all. */
  lemma WorseFailuresCostMore(score: Score, track: Track, heavier: real, last: nat, later: nat, config: SelectConfig,
                              now: nat)
    requires Sane(config) && 0.0 <= track.failureWeight <= heavier && last <= later <= now
    ensures SelectionCost(score, track.(lastFailure := Some(last)), config, now)
         <= SelectionCost(score, track.(failureWeight := heavier, lastFailure := Some(later)), config, now)
    ensures SelectionCost(score, track.(lastFailure := None), config, now)
         <= SelectionCost(score, track.(lastFailure := Some(last)), config, now)
    ensures 0.0 < config.wFailure && track.failureWeight < heavier ==>
              SelectionCost(score, track.(lastFailure := Some(last)), config, now)
              < SelectionCost(score, track.(failureWeight := heavier, lastFailure := Some(last)), config, now)
  {
    var worse := track.(failureWeight := heavier);
    FailuresAreExtra(score, track, last, config, now);
    FailuresAreExtra(score, worse, later, config, now);
    FailuresAreExtra(score, worse, last, config, now);
    WeightAloneIsFree(score, track, heavier, config, now);
    ExtrasKeepOrder(config.wFailure, track.failureWeight, heavier, config.decay(now - last), config.decay(now - later));
    hide SelectionCost, Times;
  }

  lemma WeightAloneIsFree(score: Score, track: Track, heavier: real, config: SelectConfig, now: nat)
    ensures SelectionCost(score, track.(failureWeight := heavier, lastFailure := None), config, now)
         == SelectionCost(score, track.(lastFailure := None), config, now)
  {
    hide Clamp, Charge;
  }

  // ----- and in the ranking

  /** A smoothed reading against a smoothed one, or a fresh one against a fresh one. */
  predicate ReadsNoWorse(smoothed: Option<real>, trial: Option<nat>, smoothed': Option<real>, trial': Option<nat>) {
    || (smoothed.Some? && smoothed'.Some? && smoothed.value <= smoothed'.value)
    || (smoothed.None? && smoothed'.None? && trial.Some? && trial'.Some? && trial.value <= trial'.value)
  }

  /** At least the same share of the checks verified. */
  predicate AgreesNoLess(a: Score, b: Score) {
    0 < a.total && (b.total == 0 || b.verified * a.total <= a.verified * b.total)
  }

  /** No failure on record, or no heavier and no more recent ones. */
  predicate FailedNoMore(s: Track, t: Track) {
    && 0.0 <= s.failureWeight && 0.0 <= t.failureWeight
    && (s.lastFailure.None?
        || (t.lastFailure.Some? && s.failureWeight <= t.failureWeight && s.lastFailure.value <= t.lastFailure.value))
  }

  predicate NotWorse(a: Score, s: Track, b: Score, t: Track) {
    && ReadsNoWorse(s.latency, a.median, t.latency, b.median)
    && ReadsNoWorse(s.spread, a.spread, t.spread, b.spread)
    && AgreesNoLess(a, b) && FailedNoMore(s, t)
  }

  lemma SharesKeepOrder(a: nat, n: nat, b: nat, m: nat)
    requires 0 < n && 0 < m && b * n <= a * m
    ensures b as real / m as real <= a as real / n as real
  {
    var x, y := a as real / n as real, b as real / m as real;
    assert Times(x, n as real) == a as real && Times(y, m as real) == b as real;
    assert (b * n) as real == Times(b as real, n as real) && (a * m) as real == Times(a as real, m as real);
    assert Times(Times(y, m as real), n as real) == Times(Times(m as real, n as real), y);
    assert Times(Times(x, n as real), m as real) == Times(Times(m as real, n as real), x);
    if x < y {
      PositiveProduct(m as real, n as real);
      TimesKeepsOrder(Times(m as real, n as real), x, y);
    }
  }

  lemma LessFailureIsCharged(s: Track, t: Track, config: SelectConfig, now: nat)
    requires Sane(config) && FailedNoMore(s, t)
    ensures DecayedFailure(s, config, now) <= DecayedFailure(t, config, now)
  {
    if t.lastFailure.Some? {
      var late := config.decay(if t.lastFailure.value <= now then now - t.lastFailure.value else 0);
      ExtrasKeepOrder(1.0, 0.0, t.failureWeight, late, late);
      assert Times(0.0, late) == 0.0 && Times(1.0, Times(t.failureWeight, late)) == DecayedFailure(t, config, now);
      if s.lastFailure.Some? {
        var early := config.decay(if s.lastFailure.value <= now then now - s.lastFailure.value else 0);
        ExtrasKeepOrder(1.0, s.failureWeight, t.failureWeight, early, late);
        assert Times(1.0, Times(s.failureWeight, early)) == DecayedFailure(s, config, now);
      }
    }
  }

  lemma ReadingIsCharged(smoothed: Option<real>, trial: Option<nat>, smoothed': Option<real>, trial': Option<nat>,
                         missing: real, scale: real)
    requires 0.0 < scale && ReadsNoWorse(smoothed, trial, smoothed', trial')
    ensures Clamp(smoothed.GetOr(Millis(trial, missing)) / scale, 0.0, 4.0)
         <= Clamp(smoothed'.GetOr(Millis(trial', missing)) / scale, 0.0, 4.0)
  {
    var x, y := smoothed.GetOr(Millis(trial, missing)), smoothed'.GetOr(Millis(trial', missing));
    QuotientKeepsOrder(x, y, scale);
    ClampKeepsOrder(x / scale, y / scale);
  }

  /** A node that is observably no worse than another costs no more, and is behind it only at equal cost, by index. */
  lemma NotWorseIsNotBehind(scores: seq<Score>, tracks: Tracks, ids: seq<nat>, config: SelectConfig, now: nat,
                            a: Score, b: Score, i: nat, j: nat)
    requires Sane(config) && a in scores && b in scores && a.passes && b.passes
    requires NotWorse(a, TrackOf(tracks, ids, a.nodeIndex), b, TrackOf(tracks, ids, b.nodeIndex))
    ensures var ranked := RankWorkingNodes(scores, tracks, ids, config, now);
            var first, second := RankOf(a, tracks, ids, config, now), RankOf(b, tracks, ids, config, now);
            && first.cost <= second.cost
            && (j < i < |ranked| && ranked[i] == first && ranked[j] == second ==>
                  first.cost == second.cost && b.nodeIndex <= a.nodeIndex)
  {
    var s, t := TrackOf(tracks, ids, a.nodeIndex), TrackOf(tracks, ids, b.nodeIndex);
    ReadingIsCharged(s.latency, a.median, t.latency, b.median, config.latencyScale * 2.0, config.latencyScale);
    ReadingIsCharged(s.spread, a.spread, t.spread, b.spread, 0.0, config.latencyScale);
    LessFailureIsCharged(s, t, config, now);
    if b.total != 0 {
      SharesKeepOrder(a.verified, a.total, b.verified, b.total);
    } else {
      QuotientKeepsOrder(0.0, a.verified as real, a.total as real);
    }
    hide Clamp, DecayedFailure, Millis;
    ChargeIsMonotone(TermsOf(a, s, config, now), TermsOf(b, t, config, now), config);
    NoWorseIsNotBehind(scores, tracks, ids, config, now, a, b, i, j);
  }

  // ----- what a history leaves behind

  /** Successes on end halve what failures have left, each time. */
  lemma {:induction false} SuccessesHalve(history: seq<Observation>, later: seq<Observation>, alpha: real)
    requires forall o | o in later :: o.Verified?
    ensures var t, u := TrackAfter(history, alpha), TrackAfter(history + later, alpha);
            && u.failureWeight == Times(Power(0.5, |later|), t.failureWeight)
            && u.lastFailure == t.lastFailure
            && (later != [] ==> u.consecutiveFailures == 0)
    decreases |later|
  {
    if later == [] {
      assert history + later == history;
      assert Times(1.0, TrackAfter(history, alpha).failureWeight) == TrackAfter(history, alpha).failureWeight;
    } else {
      var before, last := later[..|later| - 1], later[|later| - 1];
      assert last in later && forall o | o in before :: o in later;
      SuccessesHalve(history, before, alpha);
      assert history + later == (history + before) + [last];
      HistoryGrows(history + before, last, alpha);
      HalfAgain(TrackAfter(history, alpha).failureWeight, Power(0.5, |before|));
      assert Power(0.5, |later|) == 0.5 * Power(0.5, |before|);
      hide TrackAfter, Power, Smooth, Times;
    }
  }

  lemma HalfAgain(weight: real, share: real)
    ensures Times(share, weight) * 0.5 == Times(0.5 * share, weight)
  {
  }

  /** A failure adds one to the weight, up to four, and is remembered; the smoothed readings stay. */
  lemma FailuresAddUp(history: seq<Observation>, at: nat, alpha: real)
    ensures var t, u := TrackAfter(history, alpha), TrackAfter(history + [Failed(at)], alpha);
            && u.failureWeight == (if t.failureWeight >= 3.0 then 4.0 else t.failureWeight + 1.0)
            && u.lastFailure == Some(at)
            && u.latency == t.latency && u.spread == t.spread && u.samples == t.samples
  {
    HistoryGrows(history, Failed(at), alpha);
    hide TrackAfter;
  }

  function CountVerified(history: seq<Observation>): nat {
    if history == [] then 0
    else CountVerified(history[..|history| - 1]) + if history[|history| - 1].Verified? then 1 else 0
  }

  /** Failures since the last success. */
  function Streak(history: seq<Observation>): nat {
    if history == [] || history[|history| - 1].Verified? then 0
    else 1 + Streak(history[..|history| - 1])
  }

  function Capped32(n: nat): nat {
    if n <= U32_MAX then n else U32_MAX
  }

  /** The two 32-bit counters count successes and failures in a row, and stop at their limit. */
  lemma {:induction false} CountersCount(history: seq<Observation>, alpha: real)
    ensures TrackAfter(history, alpha).samples == Capped32(CountVerified(history))
    ensures TrackAfter(history, alpha).consecutiveFailures == Capped32(Streak(history))
    decreases |history|
  {
    if history == [] {
    } else {
      CountersCount(history[..|history| - 1], alpha);
      hide Smooth;
    }
  }

  /** In a round a passing score counts as a success with its readings, any other as a failure. */
  lemma RoundJudgesByTheGate(tracks: Tracks, ids: seq<nat>, scores: seq<Score>, alpha: real, now: nat, id: nat,
                             s: Score)
    requires Distinct(ids)
    requires forall a, b | 0 <= a < b < |scores| :: scores[a].nodeIndex != scores[b].nodeIndex
    requires s in scores && About(s, ids, id)
    ensures var t, u := TrackFor(tracks, id), TrackFor(ObserveRound(tracks, ids, scores, alpha, now), id);
            if s.passes then
              && u.consecutiveFailures == 0 && u.lastFailure == t.lastFailure
              && u.failureWeight == t.failureWeight / 2.0
              && (t.latency.None? && s.median.Some? ==> u.latency == Some(s.median.value as real))
              && (t.spread.None? && s.spread.Some? ==> u.spread == Some(s.spread.value as real))
            else
              && u.lastFailure == Some(now) && u.consecutiveFailures > 0
              && u.latency == t.latency && u.spread == t.spread
  {
    RoundTouchesScoredNodes(tracks, ids, scores, alpha, now, id);
    hide ObserveRound, TrackFor;
  }
}
