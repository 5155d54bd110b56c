/**
 Whether the node the controller names is the one the core runs. Both a switch and a
 stop first work on the core under the lock and name or forget the node afterwards;
 a stop has let go of the lock by then.
 */
module WatchdogCore {
  import opened Wrappers
  import opened Shortlist
  import opened Watchdog
  import opened WatchdogShared
  import opened WatchdogFlag

  predicate StartsCore(s: System, a: Turn) {
    || a.Enter?
    || (a.Act? && s.phase.Ready? && s.phase.decision.switchedTo.Some?
        && s.phase.decision.world.controller.active.Some?)
  }

  predicate StopsCore(s: System, a: Turn) {
    a.Halt? || (a.Act? && s.phase.Ready? && s.phase.decision.degradeCalled && !StartsCore(s, a))
  }

  predicate MovesCore(s: System, a: Turn) {
    StartsCore(s, a) || StopsCore(s, a)
  }

  function Doer(a: Turn): Thread {
    match a
    case Enter(user, _, _) => User(user)
    case Halt(user, _) => User(user)
    case _ => Dog
  }

  predicate Stopped(p: Place) {
    p.Stopping? || p.Degrading?
  }

  // ----- what every interleaving keeps

  ghost predicate EnteredRuns(s: System) {
    forall t | PlaceOf(s, t).Entered? :: s.core == Some(PlaceOf(s, t).node)
  }

  /** Short of a naming to come, a named node is the one the core runs. */
  ghost predicate NamedRuns(s: System) {
    || s.controller.active == s.core || s.controller.active.None?
    || exists t :: PlaceOf(s, t).Entered? || Stopped(PlaceOf(s, t))
  }

  /** The core is moved only while nobody is in a switch. */
  lemma MovesNeedTheLock(s: System, a: Turn, t: Thread)
    requires CanTake(s, a) && MovesCore(s, a)
    ensures !InSwitch(PlaceOf(s, t))
  {
  }

  lemma EnteredByStarting(s: System, judge: Judge, a: Turn, t: Thread)
    requires CanTake(s, a) && PlaceOf(Take(s, judge, a), t).Entered?
    ensures StartsCore(s, a) ==>
              || Take(s, judge, a).core == Some(PlaceOf(Take(s, judge, a), t).node)
              || PlaceOf(s, t) == PlaceOf(Take(s, judge, a), t)
    ensures !StartsCore(s, a) ==> PlaceOf(s, t) == PlaceOf(Take(s, judge, a), t)
    ensures !MovesCore(s, a) ==> Take(s, judge, a).core == s.core
  {
  }

  lemma TakeKeepsEnteredRuns(s: System, judge: Judge, a: Turn)
    requires CanTake(s, a) && EnteredRuns(s)
    ensures EnteredRuns(Take(s, judge, a))
  {
    var after := Take(s, judge, a);
    forall t | PlaceOf(after, t).Entered? ensures after.core == Some(PlaceOf(after, t).node) {
      EnteredByStarting(s, judge, a, t);
      if MovesCore(s, a) {
        MovesNeedTheLock(s, a, t);
      }
      hide Take, CanTake;
    }
  }

  lemma TakeKeepsNamedRuns(s: System, judge: Judge, a: Turn)
    requires CanTake(s, a) && EnteredRuns(s) && NamedRuns(s)
    ensures NamedRuns(Take(s, judge, a))
  {
    var after := Take(s, judge, a);
    if MovesCore(s, a) {
      assert PlaceOf(after, Doer(a)).Entered? || Stopped(PlaceOf(after, Doer(a)));
    } else if exists t :: PlaceOf(s, t).Entered? || Stopped(PlaceOf(s, t)) {
      var t :| PlaceOf(s, t).Entered? || Stopped(PlaceOf(s, t));
      assert a == Activate(t, a.now) || a == Forget(t, a.now) || PlaceOf(after, t) == PlaceOf(s, t);
    }
  }

  ghost predicate InStep(s: System) {
    EnteredRuns(s) && NamedRuns(s)
  }

  lemma {:induction false} RunsStayInStep(states: seq<System>, actions: seq<Turn>, judge: Judge, start: nat, n: nat)
    requires Boots(states, actions, judge, start) && n < |states|
    ensures InStep(states[n])
  {
    if n == 0 {
    } else {
      hide CanTake, Take, EnteredRuns, NamedRuns;
      RunsStayInStep(states, actions, judge, start, n - 1);
      TakeKeepsEnteredRuns(states[n - 1], judge, actions[n - 1]);
      TakeKeepsNamedRuns(states[n - 1], judge, actions[n - 1]);
      assert states[n - 1 + 1] == Take(states[n - 1], judge, actions[n - 1]);
    }
  }

  // ----- one action

  lemma OnlyMovesMoveTheCore(s: System, judge: Judge, a: Turn)
    requires CanTake(s, a)
    ensures StartsCore(s, a) ==> Take(s, judge, a).core.Some?
    ensures StopsCore(s, a) ==> Take(s, judge, a).core.None?
    ensures !MovesCore(s, a) ==> Take(s, judge, a).core == s.core
    ensures MovesCore(s, a) ==> !NamesNode(a)
  {
  }

  lemma SwitchesGoOnToName(s: System, judge: Judge, a: Turn, t: Thread)
    requires CanTake(s, a)
    ensures StartsCore(s, a) && Doer(a) == t ==> PlaceOf(Take(s, judge, a), t).Entered?
    ensures PlaceOf(s, t).Entered? && a != Activate(t, a.now) ==> PlaceOf(Take(s, judge, a), t).Entered?
  {
  }

  lemma ForgettersStopped(s: System, judge: Judge, a: Turn, t: Thread)
    requires CanTake(s, a)
    ensures a == Forget(t, a.now) ==> Stopped(PlaceOf(s, t))
    ensures Stopped(PlaceOf(Take(s, judge, a), t)) ==>
              Stopped(PlaceOf(s, t)) || (StopsCore(s, a) && Doer(a) == t)
    ensures Stopped(PlaceOf(Take(s, judge, a), t)) ==> a != Forget(t, a.now)
  {
  }

  // ----- runs

  ghost predicate LastMove(states: seq<System>, actions: seq<Turn>, judge: Judge, i: nat)
    requires Trace(states, actions, judge)
  {
    && i < |actions| && MovesCore(states[i], actions[i])
    && forall m | i < m < |actions| :: !MovesCore(states[m], actions[m])
  }

  lemma {:induction false} CoreAfter(states: seq<System>, actions: seq<Turn>, judge: Judge, i: nat, n: nat)
    requires Trace(states, actions, judge) && i < n <= |actions| && MovesCore(states[i], actions[i])
    requires forall m | i < m < n :: !MovesCore(states[m], actions[m])
    ensures states[n].core.Some? <==> StartsCore(states[i], actions[i])
    decreases n
  {
    OnlyMovesMoveTheCore(states[n - 1], judge, actions[n - 1]);
    assert states[n - 1 + 1] == Take(states[n - 1], judge, actions[n - 1]);
    hide CanTake, Take, StartsCore, StopsCore;
    if i < n - 1 {
      CoreAfter(states, actions, judge, i, n - 1);
    }
  }

  lemma {:induction false} CoreWasStarted(states: seq<System>, actions: seq<Turn>, judge: Judge, start: nat, n: nat)
    returns (i: nat)
    requires Boots(states, actions, judge, start) && n < |states| && states[n].core.Some?
    ensures i < n && StartsCore(states[i], actions[i]) && forall m | i < m < n :: !MovesCore(states[m], actions[m])
    decreases n
  {
    assert n != 0;
    OnlyMovesMoveTheCore(states[n - 1], judge, actions[n - 1]);
    assert states[n - 1 + 1] == Take(states[n - 1], judge, actions[n - 1]);
    hide CanTake, Take, StartsCore, StopsCore;
    if MovesCore(states[n - 1], actions[n - 1]) {
      i := n - 1;
    } else {
      i := CoreWasStarted(states, actions, judge, start, n - 1);
    }
  }

  /** Either the switch begun at `i` has named its node before `n`, or it is still about to. */
  lemma {:induction false} NamedOrEntered(states: seq<System>, actions: seq<Turn>, judge: Judge, i: nat, n: nat)
    returns (j: nat)
    requires Trace(states, actions, judge) && i < n < |states| && StartsCore(states[i], actions[i])
    ensures || PlaceOf(states[n], Doer(actions[i])).Entered?
            || (i < j < n && actions[j] == Activate(Doer(actions[i]), actions[j].now))
    decreases n
  {
    var t := Doer(actions[i]);
    j := 0;
    SwitchesGoOnToName(states[n - 1], judge, actions[n - 1], t);
    assert states[n - 1 + 1] == Take(states[n - 1], judge, actions[n - 1]);
    hide CanTake, Take, StartsCore, PlaceOf, Doer;
    if i < n - 1 {
      j := NamedOrEntered(states, actions, judge, i, n - 1);
      if PlaceOf(states[n - 1], t).Entered? && actions[n - 1] == Activate(t, actions[n - 1].now) {
        j := n - 1;
      }
    }
  }

  lemma {:induction false} StoppedBefore(states: seq<System>, actions: seq<Turn>, judge: Judge, start: nat,
                                         t: Thread, n: nat) returns (k: nat)
    requires Boots(states, actions, judge, start) && n < |states| && Stopped(PlaceOf(states[n], t))
    ensures k < n && StopsCore(states[k], actions[k]) && Doer(actions[k]) == t
    ensures forall m | k < m < n :: actions[m] != Forget(t, actions[m].now)
    decreases n
  {
    assert n != 0;
    ForgettersStopped(states[n - 1], judge, actions[n - 1], t);
    assert states[n - 1 + 1] == Take(states[n - 1], judge, actions[n - 1]);
    hide CanTake, Take, StopsCore, PlaceOf, Doer, Stopped;
    if StopsCore(states[n - 1], actions[n - 1]) && Doer(actions[n - 1]) == t {
      k := n - 1;
    } else {
      k := StoppedBefore(states, actions, judge, start, t, n - 1);
    }
  }

  lemma {:induction false} LastNamingFrom(actions: seq<Turn>, j: nat, n: nat) returns (l: nat)
    requires j < n <= |actions| && NamesNode(actions[j])
    ensures j <= l < n && NamesNode(actions[l]) && forall m | l < m < n :: !NamesNode(actions[m])
    decreases n
  {
    if NamesNode(actions[n - 1]) {
      l := n - 1;
    } else {
      l := LastNamingFrom(actions, j, n - 1);
    }
  }

  /**
   A thread stops the core at `k` and forgets the node at `l`, the last naming of all;
   in between, another thread's switch starts the core at `i`, the last to touch it,
   and names its node at `j`.
   */
  ghost predicate StopSpans(states: seq<System>, actions: seq<Turn>, judge: Judge, k: nat, i: nat, j: nat, l: nat)
    requires Trace(states, actions, judge)
  {
    && k < i < j < l < |actions|
    && StopsCore(states[k], actions[k]) && actions[l] == Forget(Doer(actions[k]), actions[l].now)
    && (forall m | k < m < l :: actions[m] != Forget(Doer(actions[k]), actions[m].now))
    && StartsCore(states[i], actions[i]) && actions[j] == Activate(Doer(actions[i]), actions[j].now)
    && LastMove(states, actions, judge, i) && LastNaming(actions, l)
  }

  lemma StopIsSpanning(states: seq<System>, actions: seq<Turn>, judge: Judge, start: nat)
    returns (k: nat, i: nat, j: nat, l: nat)
    requires Boots(states, actions, judge, start) && AtRest(states[|actions|])
    requires states[|actions|].controller.active.None? && states[|actions|].core.Some?
    ensures StopSpans(states, actions, judge, k, i, j, l)
  {
    hide CanTake, Take, StartsCore, StopsCore, Doer;
    var n := |actions|;
    i := CoreWasStarted(states, actions, judge, start, n);
    j := NamedOrEntered(states, actions, judge, i, n);
    l := LastNamingFrom(actions, j, n);
    NamedAfter(states, actions, judge, l, n);
    ForgettersStopped(states[l], judge, actions[l], actions[l].thread);
    k := StoppedBefore(states, actions, judge, start, actions[l].thread, l);
    StartsOrStops(states[i], actions[i]);
    OnlyMovesMoveTheCore(states[l], judge, actions[l]);
    assert MovesCore(states[k], actions[k]) && k <= i && k != i;
  }

  lemma StartsOrStops(s: System, a: Turn)
    ensures !(StartsCore(s, a) && StopsCore(s, a))
  {
  }

  /**
   Under every interleaving of cycles, switches, stops and degrades, at rest: the
   controller names what the core runs, and otherwise names nothing while the core
   runs; it is so exactly when a whole switch fell between a stop of the core and the
   forgetting that belongs to it, and that forgetting was the last naming.
   */
  lemma CoreRunsUnnamedExactly(states: seq<System>, actions: seq<Turn>, judge: Judge, start: nat)
    requires Boots(states, actions, judge, start) && AtRest(states[|actions|])
    ensures states[|actions|].controller.active != states[|actions|].core <==>
            exists k, i, j, l :: StopSpans(states, actions, judge, k, i, j, l)
    ensures states[|actions|].controller.active != states[|actions|].core ==>
            states[|actions|].controller.active.None?
  {
    var n := |actions|;
    RunsStayInStep(states, actions, judge, start, n);
    hide CanTake, Take, EnteredRuns, StopSpans;
    if states[n].controller.active != states[n].core {
      var k, i, j, l := StopIsSpanning(states, actions, judge, start);
    } else if exists k, i, j, l :: StopSpans(states, actions, judge, k, i, j, l) {
      var k, i, j, l :| StopSpans(states, actions, judge, k, i, j, l);
      SpanningUnnames(states, actions, judge, k, i, j, l);
    }
  }

  lemma SpanningUnnames(states: seq<System>, actions: seq<Turn>, judge: Judge, k: nat, i: nat, j: nat, l: nat)
    requires Trace(states, actions, judge) && StopSpans(states, actions, judge, k, i, j, l)
    ensures states[|actions|].controller.active.None? && states[|actions|].core.Some?
  {
    hide CanTake, Take, StartsCore, StopsCore, Doer;
    CoreAfter(states, actions, judge, i, |actions|);
    NamedAfter(states, actions, judge, l, |actions|);
  }

  /** A run that gets there: one user's stop, with another's switch before it forgets the node. */
  lemma CoreRunsUnnamedHappens(judge: Judge, chosen: Node, at: nat) returns (states: seq<System>, actions: seq<Turn>)
    ensures Boots(states, actions, judge, at) && AtRest(states[|actions|])
    ensures states[|actions|].controller.active.None? && states[|actions|].core == Some(chosen)
  {
    states, actions := [Boot(at)], [];
    states, actions := Extend(states, actions, judge, Halt(1, at));
    states, actions := ExtendBySwitch(states, actions, judge, 0, chosen, at);
    states, actions := Extend(states, actions, judge, Forget(User(1), at));
  }
}
