/**
 The worker threads of one scatter: an atomic counter hands out positions, a
 channel carries the replies, and one collector receives them.
 */
module ScatterPool {
  import opened ScatterReport

  datatype Worker =
    | Fetching
    | Checking(index: nat)
    | Sending(index: nat, check: Check)
    | Finished

  /**
   `checked` records every check made; `sent` every reply put on the channel,
   of which the collector has taken the first `received`.
   */
  datatype Pool = Pool(
    work: seq<Target>,
    counter: nat,
    workers: seq<Worker>,
    checked: seq<Reply>,
    sent: seq<Reply>,
    received: nat,
    receiving: bool)

  datatype Action =
    | Fetch(worker: nat)
    | Probe(worker: nat, check: Check)
    | Send(worker: nat)
    | Receive
    | HangUp

  /** At least one worker, at most one per target, never more than allowed. */
  function WorkerCount(targets: nat, maxConcurrency: nat): (n: nat)
    requires 1 <= maxConcurrency
    ensures 1 <= n <= maxConcurrency && n <= targets + 1
  {
    if targets < 1 then 1 else if targets < maxConcurrency then targets else maxConcurrency
  }

  function Start(work: seq<Target>, maxConcurrency: nat): Pool
    requires 1 <= maxConcurrency
  {
    Pool(work, 0, seq(WorkerCount(|work|, maxConcurrency), _ => Fetching), [], [], 0, true)
  }

  predicate CanTake(p: Pool, a: Action) {
    match a
    case Fetch(w) => w < |p.workers| && p.workers[w].Fetching?
    case Probe(w, check) =>
      w < |p.workers| && p.workers[w].Checking? && p.workers[w].index < |p.work|
      && check.tag == p.work[p.workers[w].index].tag
    case Send(w) => w < |p.workers| && p.workers[w].Sending?
    case Receive => p.receiving && p.received < |p.sent|
    case HangUp =>
      p.receiving && p.received == |p.sent| && forall w | 0 <= w < |p.workers| :: p.workers[w].Finished?
  }

  function Take(p: Pool, a: Action): Pool
    requires CanTake(p, a)
  {
    match a
    case Fetch(w) =>
      var next := if p.counter >= |p.work| then Finished else Checking(p.counter);
      p.(counter := p.counter + 1, workers := p.workers[w := next])
    case Probe(w, check) =>
      var i := p.workers[w].index;
      p.(checked := p.checked + [(i, check)], workers := p.workers[w := Sending(i, check)])
    case Send(w) =>
      if p.receiving then
        p.(sent := p.sent + [(p.workers[w].index, p.workers[w].check)], workers := p.workers[w := Fetching])
      else
        p.(workers := p.workers[w := Finished])
    case Receive => p.(received := p.received + 1)
    case HangUp => p.(receiving := false)
  }

  ghost predicate IsRun(p: Pool, actions: seq<Action>, end: Pool)
    decreases |actions|
  {
    if actions == [] then end == p
    else CanTake(p, actions[0]) && IsRun(Take(p, actions[0]), actions[1..], end)
  }

  // ----- the invariant

  predicate Holds(w: Worker, i: nat) {
    (w.Checking? || w.Sending?) && w.index == i
  }

  ghost predicate Carried(p: Pool, i: nat) {
    exists w :: 0 <= w < |p.workers| && Holds(p.workers[w], i)
  }

  function CountFinished(workers: seq<Worker>): nat {
    if workers == [] then 0
    else CountFinished(workers[1..]) + if workers[0].Finished? then 1 else 0
  }

  ghost predicate IndicesDistinct(replies: seq<Reply>) {
    forall j, k | 0 <= j < k < |replies| :: replies[j].0 != replies[k].0
  }

  /** Nothing is drawn twice. */
  ghost predicate DrawnOnce(p: Pool) {
    && (forall w, i: nat | 0 <= w < |p.workers| && Holds(p.workers[w], i) :: i < p.counter && i < |p.work|)
    && (forall w, v, i: nat | 0 <= w < v < |p.workers| && Holds(p.workers[w], i) :: !Holds(p.workers[v], i))
    && (forall k | 0 <= k < |p.sent| :: p.sent[k].0 < p.counter && p.sent[k].0 < |p.work|)
    && IndicesDistinct(p.sent)
    && (forall w, k | 0 <= w < |p.workers| && 0 <= k < |p.sent| :: !Holds(p.workers[w], p.sent[k].0))
  }

  /** Nothing drawn is lost. */
  ghost predicate NothingLost(p: Pool) {
    forall i: nat | i < p.counter && i < |p.work| :: Answered(p.sent, i) || Carried(p, i)
  }

  /** Replies are exactly the checks made, one per position. */
  ghost predicate CheckedOnce(p: Pool) {
    && (forall k | 0 <= k < |p.checked| :: p.checked[k].0 < p.counter && p.checked[k].0 < |p.work|)
    && (forall k | 0 <= k < |p.checked| ::
          p.checked[k].0 < |p.work| ==> p.checked[k].1.tag == p.work[p.checked[k].0].tag)
    && IndicesDistinct(p.checked)
    && (forall w, k | 0 <= w < |p.workers| && 0 <= k < |p.checked| && p.workers[w].Checking? ::
          p.workers[w].index != p.checked[k].0)
    && (forall w | 0 <= w < |p.workers| && p.workers[w].Sending? ::
          (p.workers[w].index, p.workers[w].check) in p.checked)
    && (forall k | 0 <= k < |p.sent| :: p.sent[k] in p.checked)
  }

  ghost predicate Counted(p: Pool) {
    && 1 <= |p.workers|
    && p.received <= |p.sent|
    && CountFinished(p.workers) == (if p.counter <= |p.work| then 0 else p.counter - |p.work|)
    && (!p.receiving ==> p.received == |p.sent| && forall w | 0 <= w < |p.workers| :: p.workers[w].Finished?)
  }

  ghost predicate Inv(p: Pool) {
    DrawnOnce(p) && NothingLost(p) && CheckedOnce(p) && Counted(p)
  }

  lemma {:induction false} CountAfterUpdate(workers: seq<Worker>, w: nat, next: Worker)
    requires w < |workers|
    ensures CountFinished(workers[w := next])
         == CountFinished(workers) - (if workers[w].Finished? then 1 else 0) + (if next.Finished? then 1 else 0)
  {
    if w == 0 {
      assert workers[w := next][1..] == workers[1..];
    } else {
      assert workers[w := next][1..] == workers[1..][w - 1 := next];
      CountAfterUpdate(workers[1..], w - 1, next);
    }
  }

  lemma {:induction false} CountBounds(workers: seq<Worker>)
    ensures CountFinished(workers) <= |workers|
    ensures CountFinished(workers) == |workers| <==> forall w | 0 <= w < |workers| :: workers[w].Finished?
    ensures (forall w | 0 <= w < |workers| :: !workers[w].Finished?) ==> CountFinished(workers) == 0
  {
    if workers == [] {
    } else {
      CountBounds(workers[1..]);
      assert forall w | 0 < w < |workers| :: workers[w] == workers[1..][w - 1];
      assert forall w | 0 <= w < |workers[1..]| :: workers[1..][w] == workers[w + 1];
    }
  }

  lemma StartIsInv(work: seq<Target>, maxConcurrency: nat)
    requires 1 <= maxConcurrency
    ensures Inv(Start(work, maxConcurrency))
  {
    CountBounds(Start(work, maxConcurrency).workers);
  }

  lemma TakeKeepsDrawnOnce(p: Pool, a: Action)
    requires Inv(p) && CanTake(p, a)
    ensures DrawnOnce(Take(p, a))
  {
    var q := Take(p, a);
    if a.Fetch? || a.Probe? || a.Send? {
      var w := a.worker;
      forall v, i: nat | 0 <= v < |q.workers| && Holds(q.workers[v], i)
        ensures Holds(p.workers[v], i) || (a.Fetch? && v == w && i == p.counter < |p.work|)
      {
      }
      if a.Send? && p.receiving {
        assert Holds(p.workers[w], p.workers[w].index);
        assert !Holds(q.workers[w], p.workers[w].index);
      }
    }
  }

  lemma TakeKeepsCheckedOnce(p: Pool, a: Action)
    requires Inv(p) && CanTake(p, a)
    ensures CheckedOnce(Take(p, a))
  {
    if a.Probe? {
      var w := a.worker;
      var reply := (p.workers[w].index, a.check);
      assert Take(p, a).checked[|p.checked|] == reply;
      assert Holds(p.workers[w], reply.0);
    }
  }

  lemma TakeKeepsNothingLost(p: Pool, a: Action)
    requires Inv(p) && CanTake(p, a)
    ensures NothingLost(Take(p, a))
  {
    var q := Take(p, a);
    forall i: nat | i < q.counter && i < |q.work| ensures Answered(q.sent, i) || Carried(q, i) {
      if a.Fetch? && i == p.counter {
        assert Holds(q.workers[a.worker], i);
      } else if Answered(p.sent, i) {
        var k :| 0 <= k < |p.sent| && p.sent[k].0 == i;
        assert q.sent[k].0 == i;
      } else {
        assert Carried(p, i);
        var w :| 0 <= w < |p.workers| && Holds(p.workers[w], i);
        if a.Send? && a.worker == w && p.receiving {
          assert q.sent[|p.sent|].0 == i;
        } else {
          assert Holds(q.workers[w], i);
        }
      }
    }
  }

  lemma TakeKeepsCounted(p: Pool, a: Action)
    requires Inv(p) && CanTake(p, a)
    ensures Counted(Take(p, a))
  {
    if a.Fetch? || a.Probe? || a.Send? {
      CountAfterUpdate(p.workers, a.worker, Take(p, a).workers[a.worker]);
    }
  }

  lemma {:induction false} RunsKeepInv(p: Pool, actions: seq<Action>, end: Pool)
    requires Inv(p) && IsRun(p, actions, end)
    ensures Inv(end) && end.work == p.work && |end.workers| == |p.workers|
    decreases |actions|
  {
    if actions == [] {
    } else {
      var a := actions[0];
      TakeKeepsDrawnOnce(p, a);
      TakeKeepsNothingLost(p, a);
      TakeKeepsCheckedOnce(p, a);
      TakeKeepsCounted(p, a);
      RunsKeepInv(Take(p, a), actions[1..], end);
    }
  }

  // ----- what a finished scatter has done

  /**
   Whatever the interleaving, a finished scatter has checked every target once
   and received each target's own check, so no slot is left empty; the counter
   has overshot by one per worker.
   */
  lemma FinishedScatterIsComplete(work: seq<Target>, maxConcurrency: nat, actions: seq<Action>, end: Pool)
    requires 1 <= maxConcurrency && IsRun(Start(work, maxConcurrency), actions, end) && !end.receiving
    ensures CoversOnce(end.sent, |work|) && CoversOnce(end.checked, |work|)
    ensures forall reply | reply in end.sent :: reply in end.checked
    ensures end.received == |end.sent|
    ensures end.counter == |work| + |end.workers|
    ensures forall k | 0 <= k < |end.sent| && end.sent[k].0 < |work| :: end.sent[k].1.tag == work[end.sent[k].0].tag
  {
    StartIsInv(work, maxConcurrency);
    RunsKeepInv(Start(work, maxConcurrency), actions, end);
    CountBounds(end.workers);
    forall i | 0 <= i < |work| ensures Answered(end.sent, i) && Answered(end.checked, i) {
      assert !Carried(end, i);
      assert Answered(end.sent, i);
      var k :| 0 <= k < |end.sent| && end.sent[k].0 == i;
      assert end.sent[k] in end.checked;
      var j :| 0 <= j < |end.checked| && end.checked[j] == end.sent[k];
      assert end.checked[j].0 == i;
    }
    forall k | 0 <= k < |end.sent| && end.sent[k].0 < |work| ensures end.sent[k].1.tag == work[end.sent[k].0].tag {
      assert end.sent[k] in end.checked;
    }
  }

  /** The concurrent report is the sequential one of the same outcomes. */
  method ReportOf(work: seq<Target>, maxConcurrency: nat, minVerified: nat,
                  ghost actions: seq<Action>, end: Pool, ghost outcome: nat -> Check)
    returns (report: Report)
    requires 1 <= maxConcurrency && IsRun(Start(work, maxConcurrency), actions, end) && !end.receiving
    requires Consistent(end.checked, outcome)
    ensures report == Sequential(work, outcome, minVerified)
  {
    FinishedScatterIsComplete(work, maxConcurrency, actions, end);
    forall k | 0 <= k < |end.sent| ensures end.sent[k].1 == outcome(end.sent[k].0) {
      assert end.sent[k] in end.checked;
    }
    report := Collect(work, end.sent, minVerified, outcome);
  }

  /** Some outcome function explains the checks of any finished scatter. */
  lemma OutcomesExist(work: seq<Target>, maxConcurrency: nat, actions: seq<Action>, end: Pool)
    returns (outcome: nat -> Check)
    requires 1 <= maxConcurrency && IsRun(Start(work, maxConcurrency), actions, end) && !end.receiving
    ensures Consistent(end.checked, outcome)
  {
    FinishedScatterIsComplete(work, maxConcurrency, actions, end);
    hide IsRun;
    outcome := Tabulated(end.checked);
  }

  /** Replies about different positions make up one table of outcomes. */
  lemma Tabulated(replies: seq<Reply>) returns (outcome: nat -> Check)
    requires forall j, k | 0 <= j < k < |replies| :: replies[j].0 != replies[k].0
    ensures Consistent(replies, outcome)
  {
    var table := map k | 0 <= k < |replies| :: replies[k].0 := replies[k].1;
    outcome := i => if i in table then table[i] else Check("", false, 0);
  }

  // ----- every scatter finishes

  function Weight(w: Worker): nat {
    match w
    case Fetching => 1
    case Checking(_) => 4
    case Sending(_, _) => 3
    case Finished => 0
  }

  function TotalWeight(workers: seq<Worker>): nat {
    if workers == [] then 0 else TotalWeight(workers[1..]) + Weight(workers[0])
  }

  lemma {:induction false} WeightAfterUpdate(workers: seq<Worker>, w: nat, next: Worker)
    requires w < |workers|
    ensures TotalWeight(workers[w := next]) == TotalWeight(workers) - Weight(workers[w]) + Weight(next)
  {
    if w == 0 {
      assert workers[w := next][1..] == workers[1..];
    } else {
      assert workers[w := next][1..] == workers[1..][w - 1 := next];
      WeightAfterUpdate(workers[1..], w - 1, next);
    }
  }

  /** Work left: every action spends some of it. */
  function Remaining(p: Pool): int {
    4 * (if p.counter < |p.work| then |p.work| - p.counter else 0)
    + TotalWeight(p.workers) + (|p.sent| - p.received) + (if p.receiving then 1 else 0)
  }

  lemma ActionsSpend(p: Pool, a: Action)
    requires CanTake(p, a)
    ensures Remaining(Take(p, a)) < Remaining(p)
  {
    if a.Fetch? || a.Probe? || a.Send? {
      WeightAfterUpdate(p.workers, a.worker, Take(p, a).workers[a.worker]);
    }
  }

  lemma {:induction false} RunsAreShort(p: Pool, actions: seq<Action>, end: Pool)
    requires Inv(p) && IsRun(p, actions, end)
    ensures |actions| <= Remaining(p) - Remaining(end) && 0 <= Remaining(end)
    decreases |actions|
  {
    if actions == [] {
    } else {
      var a := actions[0];
      TakeKeepsDrawnOnce(p, a);
      TakeKeepsNothingLost(p, a);
      TakeKeepsCheckedOnce(p, a);
      TakeKeepsCounted(p, a);
      ActionsSpend(p, a);
      RunsAreShort(Take(p, a), actions[1..], end);
    }
  }

  lemma {:induction false} StartWeight(n: nat)
    ensures TotalWeight(seq(n, _ => Fetching)) == n
  {
    if n == 0 {
    } else {
      assert seq(n, _ => Fetching)[1..] == seq(n - 1, _ => Fetching);
      StartWeight(n - 1);
    }
  }

  /**
   No scatter runs forever and none gets stuck: the number of actions is bounded
   up front, and until the collector hangs up some action is always possible.
   */
  lemma EveryScatterFinishes(work: seq<Target>, maxConcurrency: nat, actions: seq<Action>, end: Pool)
    requires 1 <= maxConcurrency && IsRun(Start(work, maxConcurrency), actions, end)
    ensures |actions| <= 4 * |work| + |end.workers| + 1
    ensures end.receiving <==> exists a :: CanTake(end, a)
  {
    var start := Start(work, maxConcurrency);
    StartIsInv(work, maxConcurrency);
    RunsKeepInv(start, actions, end);
    RunsAreShort(start, actions, end);
    StartWeight(|start.workers|);
    assert start.workers == seq(|start.workers|, _ => Fetching);
    if end.receiving {
      if end.received < |end.sent| {
        assert CanTake(end, Receive);
      } else if w :| 0 <= w < |end.workers| && !end.workers[w].Finished? {
        match end.workers[w]
        case Fetching => assert CanTake(end, Fetch(w));
        case Checking(i) =>
          assert Holds(end.workers[w], i);
          assert CanTake(end, Probe(w, Check(end.work[i].tag, false, 0)));
        case Sending(_, _) => assert CanTake(end, Send(w));
      } else {
        assert CanTake(end, HangUp);
      }
    }
  }
}
