/** What one egress trial checks, and how its checks fold into a verdict. */
module ScatterReport {
  import opened Wrappers
  import opened Generator
  import Sampler

  datatype Target = Target(tag: string, quorum: bool)

  datatype Check = Check(tag: string, verified: bool, latencyMs: nat)

  /** A check together with the position of its target. */
  type Reply = (nat, Check)

  datatype Report = Report(
    checks: seq<Check>,
    verified: nat,
    total: nat,
    quorumVerified: nat,
    passes: bool)

  function CountVerified(checks: seq<Check>): nat {
    if checks == [] then 0
    else CountVerified(checks[..|checks| - 1]) + if checks[|checks| - 1].verified then 1 else 0
  }

  function CountQuorum(work: seq<Target>, checks: seq<Check>): nat
    requires |checks| <= |work|
  {
    if checks == [] then 0
    else
      var last := |checks| - 1;
      CountQuorum(work, checks[..last]) + if work[last].quorum && checks[last].verified then 1 else 0
  }

  function Outcomes(n: nat, outcome: nat -> Check): (checks: seq<Check>)
    ensures |checks| == n && forall i: nat | i < n :: checks[i] == outcome(i)
  {
    seq(n, i requires 0 <= i => outcome(i))
  }

  /** The report of checking the targets one after the other. */
  function Sequential(work: seq<Target>, outcome: nat -> Check, minVerified: nat): Report {
    var checks := Outcomes(|work|, outcome);
    var quorumVerified := CountQuorum(work, checks);
    Report(checks, CountVerified(checks), |work|, quorumVerified, quorumVerified >= minVerified)
  }

  lemma {:induction false} VerifiedAreCounted(checks: seq<Check>)
    ensures CountVerified(checks) <= |checks|
    decreases |checks|
  {
    if checks == [] {
    } else {
      VerifiedAreCounted(checks[..|checks| - 1]);
    }
  }

  lemma {:induction false} QuorumIsVerified(work: seq<Target>, checks: seq<Check>)
    requires |checks| <= |work|
    ensures CountQuorum(work, checks) <= CountVerified(checks)
    decreases |checks|
  {
    if checks == [] {
    } else {
      QuorumIsVerified(work, checks[..|checks| - 1]);
    }
  }

  /** The counts of a report are nested: quorum within verified within checked. */
  predicate Tallied(r: Report) {
    r.quorumVerified <= r.verified <= r.total
  }

  lemma ReportsAreTallied(work: seq<Target>, outcome: nat -> Check, minVerified: nat)
    ensures Tallied(Sequential(work, outcome, minVerified))
  {
    VerifiedAreCounted(Outcomes(|work|, outcome));
    QuorumIsVerified(work, Outcomes(|work|, outcome));
  }

  ghost predicate CoversOnce(replies: seq<Reply>, n: nat) {
    && (forall k | 0 <= k < |replies| :: replies[k].0 < n)
    && (forall j, k | 0 <= j < k < |replies| :: replies[j].0 != replies[k].0)
    && (forall i | 0 <= i < n :: Answered(replies, i))
  }

  ghost predicate Answered(replies: seq<Reply>, i: nat) {
    exists k :: 0 <= k < |replies| && replies[k].0 == i
  }

  ghost predicate Consistent(replies: seq<Reply>, outcome: nat -> Check) {
    forall k | 0 <= k < |replies| :: replies[k].1 == outcome(replies[k].0)
  }

  /** Replies land in their own slot whatever order they come in. */
  method FillSlots(n: nat, replies: seq<Reply>, ghost outcome: nat -> Check) returns (slots: seq<Option<Check>>)
    requires CoversOnce(replies, n) && Consistent(replies, outcome)
    ensures |slots| == n && forall i | 0 <= i < n :: slots[i] == Some(outcome(i))
  {
    var ordered := new Option<Check>[n](_ => None);
    for k := 0 to |replies|
      invariant forall j | 0 <= j < k :: ordered[replies[j].0] == Some(replies[j].1)
    {
      ordered[replies[k].0] := Some(replies[k].1);
    }
    forall i | 0 <= i < n ensures ordered[i] == Some(outcome(i)) {
      assert Answered(replies, i);
      var k :| 0 <= k < |replies| && replies[k].0 == i;
      assert ordered[replies[k].0] == Some(replies[k].1);
    }
    return ordered[..];
  }

  /** The collecting side arrives at the report of the sequential trial. */
  method Collect(work: seq<Target>, replies: seq<Reply>, minVerified: nat, ghost outcome: nat -> Check)
    returns (report: Report)
    requires CoversOnce(replies, |work|) && Consistent(replies, outcome)
    ensures report == Sequential(work, outcome, minVerified)
  {
    var slots := FillSlots(|work|, replies, outcome);
    ghost var expected := Outcomes(|work|, outcome);
    var checks: seq<Check> := [];
    var verified, quorumVerified := 0, 0;
    for i := 0 to |work|
      invariant checks == expected[..i]
      invariant verified == CountVerified(checks) && quorumVerified == CountQuorum(work, checks)
    {
      var check := slots[i].value;
      assert (checks + [check])[..i] == checks;
      checks := checks + [check];
      if check.verified {
        verified := verified + 1;
      }
      if work[i].quorum && check.verified {
        quorumVerified := quorumVerified + 1;
      }
    }
    assert checks == expected;
    report := Report(checks, verified, |work|, quorumVerified, quorumVerified >= minVerified);
  }

  // ----- the verdict belongs to the operators

  /** Every operator, followed by a random sample of the real sites. */
  function SampleTargets(operators: seq<Target>, realSites: seq<Target>, realCount: nat, seed: Word): seq<Target> {
    Sampler.SampleIsDistinct(|realSites|, realCount, seed);
    var picked := Sampler.Sample(|realSites|, realCount, seed);
    operators + seq(|picked|, i requires 0 <= i < |picked| => realSites[picked[i]])
  }

  lemma {:induction false} NoiseNeverCounts(work: seq<Target>, checks: seq<Check>, operators: nat)
    requires operators <= |checks| <= |work|
    requires forall i | 0 <= i < |work| :: work[i].quorum <==> i < operators
    ensures CountQuorum(work, checks) == CountVerified(checks[..operators])
    decreases |checks|
  {
    if checks == [] {
    } else {
      var last := |checks| - 1;
      if last < operators {
        assert checks[..operators] == checks;
        NoiseFree(work, checks);
      } else {
        NoiseNeverCounts(work, checks[..last], operators);
        assert checks[..last][..operators] == checks[..operators];
      }
    }
  }

  lemma {:induction false} NoiseFree(work: seq<Target>, checks: seq<Check>)
    requires |checks| <= |work| && forall i | 0 <= i < |checks| :: work[i].quorum
    ensures CountQuorum(work, checks) == CountVerified(checks)
    decreases |checks|
  {
    if checks == [] {
    } else {
      NoiseFree(work, checks[..|checks| - 1]);
    }
  }

  /**
   Which real sites were sampled, and how they answered, cannot change a
   verdict: it only counts verified operators.
   */
  lemma VerdictIsTheOperators(operators: seq<Target>, realSites: seq<Target>, realCount: nat, seed: Word,
                              outcome: nat -> Check, minVerified: nat)
    requires forall t | t in operators :: t.quorum
    requires forall t | t in realSites :: !t.quorum
    ensures var work := SampleTargets(operators, realSites, realCount, seed);
            Sequential(work, outcome, minVerified).passes <==>
              CountVerified(Outcomes(|operators|, outcome)) >= minVerified
  {
    var work := SampleTargets(operators, realSites, realCount, seed);
    var checks := Outcomes(|work|, outcome);
    forall i | 0 <= i < |work| ensures work[i].quorum <==> i < |operators| {
      if i < |operators| {
        assert work[i] == operators[i] && operators[i] in operators;
      } else {
        Sampler.SampleIsDistinct(|realSites|, realCount, seed);
        var picked := Sampler.Sample(|realSites|, realCount, seed);
        assert work[i] == realSites[picked[i - |operators|]];
      }
    }
    NoiseNeverCounts(work, checks, |operators|);
    assert checks[..|operators|] == Outcomes(|operators|, outcome);
  }
}
