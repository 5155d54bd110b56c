/** The latency summary of a trial: a median and the median deviation around it. */
module Median {
  import opened Wrappers
  import opened Sequences
  import opened Sorting
  import opened ScatterReport

  const U64_MAX: nat := 0xFFFF_FFFF_FFFF_FFFF

  predicate AtMost(x: nat, y: nat) {
    x <= y
  }

  function VerifiedLatencies(checks: seq<Check>): seq<nat> {
    if checks == [] then []
    else (if checks[0].verified then [checks[0].latencyMs] else []) + VerifiedLatencies(checks[1..])
  }

  function AbsDiff(x: nat, y: nat): nat {
    if x <= y then y - x else x - y
  }

  function Deviations(s: seq<nat>, from: nat): (r: seq<nat>)
    ensures |r| == |s|
  {
    if s == [] then [] else [AbsDiff(s[0], from)] + Deviations(s[1..], from)
  }

  /** Milliseconds are carried as 64-bit values. */
  function Saturate(ms: nat): (r: nat)
    ensures r <= ms && r <= U64_MAX && (r == ms || r == U64_MAX)
  {
    if ms <= U64_MAX then ms else U64_MAX
  }

  /** The element in the middle of the sorted values, the upper one of two. */
  function Middle(s: seq<nat>): nat
    requires s != []
  {
    Sort(s, AtMost)[|s| / 2]
  }

  /** Median and spread, absent when nothing verified. */
  function MedianOfVerified(checks: seq<Check>): (Option<nat>, Option<nat>) {
    var latencies := Sort(VerifiedLatencies(checks), AtMost);
    if latencies == [] then (None, None)
    else
      var median := latencies[|latencies| / 2];
      (Some(Saturate(median)), Some(Saturate(Middle(Deviations(latencies, median)))))
  }

  // ----- robustness

  predicate Within(x: nat, lo: nat, hi: nat) {
    lo <= x <= hi
  }

  function CountWithin(s: seq<nat>, lo: nat, hi: nat): (n: nat)
    ensures n <= |s|
  {
    if s == [] then 0 else CountWithin(s[1..], lo, hi) + if Within(s[0], lo, hi) then 1 else 0
  }

  lemma {:induction false} CountInsert(x: nat, s: seq<nat>, lo: nat, hi: nat)
    ensures CountWithin(Insert(x, s, AtMost), lo, hi)
         == CountWithin(s, lo, hi) + if Within(x, lo, hi) then 1 else 0
  {
    if s == [] {
    } else {
      if AtMost(x, s[0]) {
        assert ([x] + s)[1..] == s;
      } else {
        CountInsert(x, s[1..], lo, hi);
        assert Insert(x, s, AtMost)[1..] == Insert(x, s[1..], AtMost);
      }
    }
  }

  lemma {:induction false} CountSort(s: seq<nat>, lo: nat, hi: nat)
    ensures CountWithin(Sort(s, AtMost), lo, hi) == CountWithin(s, lo, hi)
  {
    if s == [] {
    } else {
      CountSort(s[1..], lo, hi);
      CountInsert(s[0], Sort(s[1..], AtMost), lo, hi);
    }
  }

  lemma {:induction false} CountSplit(s: seq<nat>, k: nat, lo: nat, hi: nat)
    requires k <= |s|
    ensures CountWithin(s, lo, hi) == CountWithin(s[..k], lo, hi) + CountWithin(s[k..], lo, hi)
  {
    if k == 0 {
    } else {
      CountSplit(s[1..], k - 1, lo, hi);
      assert s[..k][1..] == s[1..][..k - 1];
      assert s[k..] == s[1..][k - 1..];
    }
  }

  lemma {:induction false} CountNone(s: seq<nat>, lo: nat, hi: nat)
    requires forall x | x in s :: !Within(x, lo, hi)
    ensures CountWithin(s, lo, hi) == 0
  {
    if s == [] {
    } else {
      CountNone(s[1..], lo, hi);
    }
  }

  lemma LowMiddleLeavesMinority(t: seq<nat>, m: nat, lo: nat, hi: nat)
    requires SortedBy(AtMost, t) && m < |t| && t[m] < lo
    ensures CountWithin(t, lo, hi) < |t| - m
  {
    CountSplit(t, m + 1, lo, hi);
    forall x | x in t[..m + 1] ensures !Within(x, lo, hi) {
      var i :| 0 <= i <= m && t[i] == x;
      assert i == m || AtMost(t[i], t[m]);
    }
    CountNone(t[..m + 1], lo, hi);
    hide CountWithin;
  }

  lemma HighMiddleLeavesMinority(t: seq<nat>, m: nat, lo: nat, hi: nat)
    requires SortedBy(AtMost, t) && m < |t| && hi < t[m]
    ensures CountWithin(t, lo, hi) <= m
  {
    CountSplit(t, m, lo, hi);
    forall x | x in t[m..] ensures !Within(x, lo, hi) {
      var i :| m <= i < |t| && t[i] == x;
      assert i == m || AtMost(t[m], t[i]);
    }
    CountNone(t[m..], lo, hi);
    hide CountWithin;
  }

  /** A majority inside an interval pins the middle element inside it. */
  lemma MajorityHoldsMiddle(s: seq<nat>, lo: nat, hi: nat)
    requires 2 * CountWithin(s, lo, hi) > |s|
    ensures s != [] && Within(Middle(s), lo, hi)
  {
    var t := Sort(s, AtMost);
    CountSort(s, lo, hi);
    SortSorts(s, AtMost);
    hide Sort, CountWithin, SortedBy;
    var m := |t| / 2;
    if t[m] < lo {
      LowMiddleLeavesMinority(t, m, lo, hi);
    } else if hi < t[m] {
      HighMiddleLeavesMinority(t, m, lo, hi);
    }
  }

  lemma {:induction false} CloseDeviations(s: seq<nat>, from: nat, lo: nat, hi: nat)
    requires Within(from, lo, hi)
    ensures CountWithin(s, lo, hi) <= CountWithin(Deviations(s, from), 0, hi - lo)
  {
    if s == [] {
    } else {
      CloseDeviations(s[1..], from, lo, hi);
    }
  }

  /**
   If more than half of the verified latencies lie in an interval, so does the
   reported median, and the reported spread is at most the interval's width:
   no minority of slow or fast operators can move either.
   */
  lemma MinorityCannotMoveMedian(checks: seq<Check>, lo: nat, hi: nat)
    requires lo <= hi <= U64_MAX
    requires 2 * CountWithin(VerifiedLatencies(checks), lo, hi) > |VerifiedLatencies(checks)|
    ensures var (median, spread) := MedianOfVerified(checks);
            median.Some? && spread.Some? && Within(median.value, lo, hi) && spread.value <= hi - lo
  {
    var s := VerifiedLatencies(checks);
    MajorityHoldsMiddle(s, lo, hi);
    var t := Sort(s, AtMost);
    CountSort(s, lo, hi);
    CloseDeviations(t, Middle(s), lo, hi);
    MajorityHoldsMiddle(Deviations(t, Middle(s)), 0, hi - lo);
  }

  // ----- the exact values

  lemma {:induction false} CountAll(s: seq<nat>, lo: nat, hi: nat)
    requires forall x | x in s :: Within(x, lo, hi)
    ensures CountWithin(s, lo, hi) == |s|
  {
    if s == [] {
    } else {
      CountAll(s[1..], lo, hi);
    }
  }

  lemma {:induction false} CountWidens(s: seq<nat>, lo: nat, hi: nat, lo': nat, hi': nat)
    requires lo' <= lo && hi <= hi'
    ensures CountWithin(s, lo, hi) <= CountWithin(s, lo', hi')
  {
    if s == [] {
    } else {
      CountWidens(s[1..], lo, hi, lo', hi');
    }
  }

  /** More than half of the values are at most `v`, and at most half of them are less. */
  predicate IsMiddle(s: seq<nat>, v: nat) {
    2 * CountWithin(s, 0, v) > |s| && (v > 0 ==> 2 * CountWithin(s, 0, v - 1) <= |s|)
  }

  lemma MiddleIsMiddle(s: seq<nat>)
    requires s != []
    ensures IsMiddle(s, Middle(s))
  {
    var t, v := Sort(s, AtMost), Middle(s);
    var m := |t| / 2;
    SortSorts(s, AtMost);
    CountSort(s, 0, v);
    CountSplit(t, m + 1, 0, v);
    forall x | x in t[..m + 1] ensures Within(x, 0, v) {
      var i :| 0 <= i <= m && t[i] == x;
      assert i == m || AtMost(t[i], t[m]);
    }
    CountAll(t[..m + 1], 0, v);
    if v > 0 {
      CountSort(s, 0, v - 1);
      HighMiddleLeavesMinority(t, m, 0, v - 1);
    }
    hide CountWithin, Sort, SortedBy;
  }

  /** There is only one such value, in the list or out of it. */
  lemma MiddleIsUnique(s: seq<nat>, u: nat, v: nat)
    requires IsMiddle(s, u) && IsMiddle(s, v)
    ensures u == v
  {
    if u < v {
      CountWidens(s, 0, u, 0, v - 1);
    } else if v < u {
      CountWidens(s, 0, v, 0, u - 1);
    }
  }

  function Minus(x: nat, y: nat): nat {
    if y <= x then x - y else 0
  }

  /** Deviations up to `d` are values no further than `d` from the centre. */
  lemma {:induction false} DeviationsCount(s: seq<nat>, from: nat, d: nat)
    ensures CountWithin(Deviations(s, from), 0, d) == CountWithin(s, Minus(from, d), from + d)
  {
    if s == [] {
    } else {
      DeviationsCount(s[1..], from, d);
      assert Deviations(s, from)[1..] == Deviations(s[1..], from);
    }
  }

  /** More than half of the values lie within `d` of `m`, and at most half of them within less. */
  predicate IsSpread(s: seq<nat>, m: nat, d: nat) {
    && 2 * CountWithin(s, Minus(m, d), m + d) > |s|
    && (d > 0 ==> 2 * CountWithin(s, Minus(m, d - 1), m + (d - 1)) <= |s|)
  }

  lemma SpreadIsMiddle(s: seq<nat>, m: nat, d: nat)
    ensures IsSpread(s, m, d) <==> IsMiddle(Deviations(Sort(s, AtMost), m), d)
  {
    var t := Sort(s, AtMost);
    DeviationsCount(t, m, d);
    CountSort(s, Minus(m, d), m + d);
    if d > 0 {
      DeviationsCount(t, m, d - 1);
      CountSort(s, Minus(m, d - 1), m + (d - 1));
    }
  }

  /**
   The reported median is the one value that halves the verified latencies, the upper
   one of two, and the spread the one distance from it that halves them again, up to
   64 bits; there always are such values.
   */
  lemma MedianAndSpreadExactly(checks: seq<Check>) returns (m: nat, d: nat)
    requires VerifiedLatencies(checks) != []
    ensures var s := VerifiedLatencies(checks);
            && IsMiddle(s, m) && IsSpread(s, m, d)
            && (forall m', d' | IsMiddle(s, m') && IsSpread(s, m', d') :: m' == m && d' == d)
            && MedianOfVerified(checks) == (Some(Saturate(m)), Some(Saturate(d)))
  {
    var s := VerifiedLatencies(checks);
    var t := Sort(s, AtMost);
    m := Middle(s);
    d := Middle(Deviations(t, m));
    MiddleIsMiddle(s);
    MiddleIsMiddle(Deviations(t, m));
    SpreadIsMiddle(s, m, d);
    hide Sort, IsMiddle, IsSpread;
    forall m', d' | IsMiddle(s, m') && IsSpread(s, m', d') ensures m' == m && d' == d {
      MiddleIsUnique(s, m', m);
      SpreadIsMiddle(s, m, d');
      MiddleIsUnique(Deviations(t, m), d', d);
    }
  }

  /** There is one latency for every check the report counts as verified. */
  lemma {:induction false} EveryVerifiedCheckCounts(checks: seq<Check>)
    ensures |VerifiedLatencies(checks)| == CountVerified(checks)
    decreases |checks|
  {
    if checks == [] {
    } else {
      var before, last := checks[..|checks| - 1], checks[|checks| - 1];
      EveryVerifiedCheckCounts(before);
      LatenciesAppend(before, [last]);
      assert checks == before + [last];
    }
  }

  lemma NothingVerifiedExactly(checks: seq<Check>)
    ensures MedianOfVerified(checks).0.None? <==> forall c | c in checks :: !c.verified
    ensures MedianOfVerified(checks).0.None? <==> MedianOfVerified(checks).1.None?
  {
    LatenciesEmpty(checks);
  }

  lemma {:induction false} LatenciesEmpty(checks: seq<Check>)
    ensures VerifiedLatencies(checks) == [] <==> forall c | c in checks :: !c.verified
  {
    if checks == [] {
    } else {
      LatenciesEmpty(checks[1..]);
      assert checks[0] in checks;
      assert forall c | c in checks :: c == checks[0] || c in checks[1..];
    }
  }

  // ----- independence of check order

  function HeadLatency(c: Check): seq<nat> {
    if c.verified then [c.latencyMs] else []
  }

  lemma FirstLatency(s: seq<Check>)
    requires s != []
    ensures VerifiedLatencies(s) == HeadLatency(s[0]) + VerifiedLatencies(s[1..])
  {
  }

  lemma {:induction false} LatenciesAppend(s: seq<Check>, t: seq<Check>)
    ensures VerifiedLatencies(s + t) == VerifiedLatencies(s) + VerifiedLatencies(t)
  {
    if s == [] {
      ConcatNothing(t);
      ConcatNothing(VerifiedLatencies(t));
    } else {
      hide VerifiedLatencies, HeadLatency;
      LatenciesAppend(s[1..], t);
      FirstLatency(s);
      FirstLatency(s + t);
      ConcatTail(s, t);
      ConcatAssociates(HeadLatency(s[0]), VerifiedLatencies(s[1..]), VerifiedLatencies(t));
    }
  }

  lemma MiddleMovesOut(x: seq<nat>, y: seq<nat>, z: seq<nat>)
    ensures multiset((x + y) + z) == multiset(x + z) + multiset(y)
  {
  }

  lemma LatenciesSplit(t: seq<Check>, j: nat)
    requires j < |t|
    ensures multiset(VerifiedLatencies(t))
         == multiset(VerifiedLatencies(t[..j] + t[j + 1..])) + multiset(VerifiedLatencies([t[j]]))
  {
    hide VerifiedLatencies;
    var front, mid, back := t[..j], [t[j]], t[j + 1..];
    assert t == (front + mid) + back;
    LatenciesAppend(front + mid, back);
    LatenciesAppend(front, mid);
    LatenciesAppend(front, back);
    MiddleMovesOut(VerifiedLatencies(front), VerifiedLatencies(mid), VerifiedLatencies(back));
  }

  lemma {:induction false} LatenciesPermute(s: seq<Check>, t: seq<Check>)
    requires multiset(s) == multiset(t)
    ensures multiset(VerifiedLatencies(s)) == multiset(VerifiedLatencies(t))
    decreases |s|
  {
    if s == [] {
      assert |multiset(t)| == 0;
    } else {
      SameElements(s, t);
      assert s[0] in t;
      var j :| 0 <= j < |t| && t[j] == s[0];
      RemoveOccurrence(s, t, j);
      LatenciesPermute(s[1..], t[..j] + t[j + 1..]);
      LatenciesSplit(s, 0);
      LatenciesSplit(t, j);
      assert s[..0] + s[1..] == s[1..];
    }
  }

  /** The order in which the checks came in does not matter. */
  lemma MedianForgetsOrder(s: seq<Check>, t: seq<Check>)
    requires multiset(s) == multiset(t)
    ensures MedianOfVerified(s) == MedianOfVerified(t)
  {
    LatenciesPermute(s, t);
    SortForgetsOrder(VerifiedLatencies(s), VerifiedLatencies(t), AtMost);
  }
}
