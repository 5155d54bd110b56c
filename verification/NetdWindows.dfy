/**
 Whether the kernel holds what the daemon remembers. A backend call that takes
 effect opens a window which the same task's commit closes, and windows of
 different tasks may overlap.
 */
module NetdWindows {
  import opened Wrappers
  import opened Netd
  import opened NetdInterleaving

  predicate Opens(a: Action) {
    (a.CallEnable? || a.CallDisable?) && a.ok
  }

  predicate Closes(a: Action) {
    a.CommitEnableSection? || a.CommitRollbackSection?
  }

  function TaskOf(a: Action): Task {
    match a
    case CheckDeadline(_) => Watchdog
    case ReadSettings(task) => task
    case CallDisable(task, _) => task
    case CommitRollbackSection(task) => task
    case _ => Connection(a.session)
  }

  /** What the backend call leaves installed. */
  ghost function Left(s: System, a: Action): Option<RoutingConfig>
    requires CanTake(s, a) && Opens(a)
  {
    if a.CallEnable? then Some(s.places[Connection(a.session)].config) else None
  }

  /** A backend call of this task took effect and its commit is still to come. */
  ghost predicate Uncommitted(s: System, t: Task) {
    t in s.places && (s.places[t].Enabled? || s.places[t].Disabled?)
  }

  /** What that commit will make the daemon remember. */
  ghost function Due(s: System, t: Task): Option<RoutingConfig>
    requires Uncommitted(s, t)
  {
    if s.places[t].Enabled? then Some(s.places[t].config) else None
  }

  ghost predicate AtRest(s: System) {
    forall t :: !Uncommitted(s, t)
  }

  /** The window opened by action `i` is not closed by any action before `n`. */
  ghost predicate Pending(actions: seq<Action>, i: nat, n: nat) {
    && i < n <= |actions| && Opens(actions[i])
    && forall m | i < m < n && Closes(actions[m]) :: TaskOf(actions[m]) != TaskOf(actions[i])
  }

  /** Action `j` closes the window that action `i` opened. */
  ghost predicate Window(actions: seq<Action>, i: nat, j: nat) {
    j < |actions| && Pending(actions, i, j) && Closes(actions[j]) && TaskOf(actions[j]) == TaskOf(actions[i])
  }

  ghost predicate LastOpening(actions: seq<Action>, i: nat) {
    i < |actions| && Opens(actions[i]) && forall m | i < m < |actions| :: !Opens(actions[m])
  }

  ghost predicate LastClosing(actions: seq<Action>, l: nat) {
    l < |actions| && Closes(actions[l]) && forall m | l < m < |actions| :: !Closes(actions[m])
  }

  // ----- one action

  lemma WindowsStayOpen(s: System, a: Action, t: Task)
    requires CanTake(s, a) && Uncommitted(s, t) && !(Closes(a) && TaskOf(a) == t)
    ensures Uncommitted(Take(s, a), t) && Due(Take(s, a), t) == Due(s, t)
    ensures !(Opens(a) && TaskOf(a) == t)
  {
  }

  lemma OnlyOpeningsOpen(s: System, a: Action, t: Task)
    requires CanTake(s, a)
    ensures Opens(a) && TaskOf(a) == t ==> Uncommitted(Take(s, a), t) && Due(Take(s, a), t) == Left(s, a)
    ensures Closes(a) && TaskOf(a) == t ==> Uncommitted(s, t) && !Uncommitted(Take(s, a), t)
    ensures Uncommitted(Take(s, a), t) ==> Uncommitted(s, t) || (Opens(a) && TaskOf(a) == t)
  {
  }

  lemma OnlyOpeningsInstall(s: System, a: Action)
    requires CanTake(s, a)
    ensures Take(s, a).installed == if Opens(a) then Left(s, a) else s.installed
  {
  }

  lemma OnlyClosingsAreRemembered(s: System, a: Action)
    requires CanTake(s, a)
    ensures Closes(a) ==> Uncommitted(s, TaskOf(a))
    ensures Take(s, a).daemon.routingConfig
         == if Closes(a) then Due(s, TaskOf(a)) else s.daemon.routingConfig
  {
  }

  // ----- runs

  /** A pending window shows in its task, with the settings its call left. */
  lemma {:induction false} PendingShows(states: seq<System>, actions: seq<Action>, i: nat, n: nat)
    requires Trace(states, actions) && Pending(actions, i, n)
    ensures Uncommitted(states[n], TaskOf(actions[i]))
    ensures Due(states[n], TaskOf(actions[i])) == Left(states[i], actions[i])
    decreases n
  {
    var t := TaskOf(actions[i]);
    if n == i + 1 {
      OnlyOpeningsOpen(states[i], actions[i], t);
    } else {
      PendingShows(states, actions, i, n - 1);
      hide CanTake, Take, Opens, Closes, TaskOf, Uncommitted, Due, Left;
      WindowsStayOpen(states[n - 1], actions[n - 1], t);
      assert states[n - 1 + 1] == Take(states[n - 1], actions[n - 1]);
    }
  }

  /** Whatever shows in a task was opened by an action of the run. */
  lemma {:induction false} OpenedBy(states: seq<System>, actions: seq<Action>, now: nat, t: Task, n: nat)
    returns (i: nat)
    requires Boots(states, actions, now) && n < |states| && Uncommitted(states[n], t)
    ensures Pending(actions, i, n) && TaskOf(actions[i]) == t
    decreases n
  {
    assert n != 0;
    OnlyOpeningsOpen(states[n - 1], actions[n - 1], t);
    assert states[n - 1 + 1] == Take(states[n - 1], actions[n - 1]);
    hide CanTake, Take, Opens, Closes, TaskOf, Uncommitted;
    if Opens(actions[n - 1]) && TaskOf(actions[n - 1]) == t {
      i := n - 1;
    } else {
      i := OpenedBy(states, actions, now, t, n - 1);
    }
  }

  /** A task has one window at a time. */
  lemma OneWindowEach(states: seq<System>, actions: seq<Action>, k: nat, i: nat, n: nat)
    requires Trace(states, actions) && k < i && Pending(actions, k, n) && Pending(actions, i, n)
    ensures TaskOf(actions[k]) != TaskOf(actions[i])
  {
    PendingShows(states, actions, k, i);
    hide CanTake, Take, Opens, Closes, TaskOf, Uncommitted;
    if TaskOf(actions[k]) == TaskOf(actions[i]) {
      WindowsStayOpen(states[i], actions[i], TaskOf(actions[i]));
      assert false;
    }
  }

  lemma {:induction false} InstalledAfter(states: seq<System>, actions: seq<Action>, i: nat, n: nat)
    requires Trace(states, actions) && i < n <= |actions| && Opens(actions[i])
    requires forall m | i < m < n :: !Opens(actions[m])
    ensures states[n].installed == Left(states[i], actions[i])
    decreases n
  {
    hide CanTake, Take, Opens, Left;
    OnlyOpeningsInstall(states[n - 1], actions[n - 1]);
    assert states[n - 1 + 1] == Take(states[n - 1], actions[n - 1]);
    if n - 1 != i {
      InstalledAfter(states, actions, i, n - 1);
    }
  }

  lemma {:induction false} NothingInstalled(states: seq<System>, actions: seq<Action>, n: nat)
    requires Trace(states, actions) && n <= |actions| && forall m | 0 <= m < n :: !Opens(actions[m])
    ensures states[n].installed == states[0].installed
  {
    if n == 0 {
    } else {
      hide CanTake, Take, Opens, Left;
      NothingInstalled(states, actions, n - 1);
      OnlyOpeningsInstall(states[n - 1], actions[n - 1]);
      assert states[n - 1 + 1] == Take(states[n - 1], actions[n - 1]);
    }
  }

  lemma {:induction false} RememberedAfter(states: seq<System>, actions: seq<Action>, k: nat, l: nat, n: nat)
    requires Trace(states, actions) && Window(actions, k, l) && l < n <= |actions|
    requires forall m | l < m < n :: !Closes(actions[m])
    ensures states[n].daemon.routingConfig == Left(states[k], actions[k])
    decreases n
  {
    hide CanTake, Take, Opens, Closes, Left, TaskOf, Uncommitted, Due;
    OnlyClosingsAreRemembered(states[n - 1], actions[n - 1]);
    assert states[n - 1 + 1] == Take(states[n - 1], actions[n - 1]);
    if n - 1 == l {
      PendingShows(states, actions, k, l);
    } else {
      RememberedAfter(states, actions, k, l, n - 1);
    }
  }

  lemma {:induction false} NothingRemembered(states: seq<System>, actions: seq<Action>, n: nat)
    requires Trace(states, actions) && n <= |actions| && forall m | 0 <= m < n :: !Closes(actions[m])
    ensures states[n].daemon.routingConfig == states[0].daemon.routingConfig
  {
    if n == 0 {
    } else {
      hide CanTake, Take, Closes, Due;
      NothingRemembered(states, actions, n - 1);
      OnlyClosingsAreRemembered(states[n - 1], actions[n - 1]);
      assert states[n - 1 + 1] == Take(states[n - 1], actions[n - 1]);
    }
  }

  lemma {:induction false} FindLastOpening(actions: seq<Action>, n: nat) returns (i: int)
    requires n <= |actions|
    ensures -1 <= i < n && (i >= 0 ==> Opens(actions[i])) && forall m | i < m < n :: !Opens(actions[m])
  {
    if n == 0 || Opens(actions[n - 1]) {
      i := n - 1;
    } else {
      i := FindLastOpening(actions, n - 1);
    }
  }

  lemma {:induction false} FindLastClosing(actions: seq<Action>, n: nat) returns (l: int)
    requires n <= |actions|
    ensures -1 <= l < n && (l >= 0 ==> Closes(actions[l])) && forall m | l < m < n :: !Closes(actions[m])
  {
    if n == 0 || Closes(actions[n - 1]) {
      l := n - 1;
    } else {
      l := FindLastClosing(actions, n - 1);
    }
  }

  lemma ClosingHasAWindow(states: seq<System>, actions: seq<Action>, now: nat, l: nat) returns (k: nat)
    requires Boots(states, actions, now) && l < |actions| && Closes(actions[l])
    ensures Window(actions, k, l)
  {
    OnlyOpeningsOpen(states[l], actions[l], TaskOf(actions[l]));
    hide CanTake, Take, Opens, Closes, TaskOf, Uncommitted;
    k := OpenedBy(states, actions, now, TaskOf(actions[l]), l);
  }

  /** At rest every opened window has been closed. */
  lemma OpeningIsClosed(states: seq<System>, actions: seq<Action>, i: nat) returns (j: nat)
    requires Trace(states, actions) && AtRest(states[|actions|]) && i < |actions| && Opens(actions[i])
    ensures Window(actions, i, j)
  {
    hide CanTake, Take, Opens, Closes, TaskOf;
    if Pending(actions, i, |actions|) {
      PendingShows(states, actions, i, |actions|);
      assert false;
    }
    var m :| i < m < |actions| && Closes(actions[m]) && TaskOf(actions[m]) == TaskOf(actions[i]);
    j := FirstClosing(actions, i, m);
  }

  lemma {:induction false} FirstClosing(actions: seq<Action>, i: nat, m: nat) returns (j: nat)
    requires i < m < |actions| && Opens(actions[i])
    requires Closes(actions[m]) && TaskOf(actions[m]) == TaskOf(actions[i])
    ensures Window(actions, i, j)
    decreases m
  {
    if Pending(actions, i, m) {
      j := m;
    } else {
      var earlier :| i < earlier < m && Closes(actions[earlier]) && TaskOf(actions[earlier]) == TaskOf(actions[i]);
      j := FirstClosing(actions, i, earlier);
    }
  }

  // ----- agreement

  /**
   The window `i`-`j` is that of the last effective backend call. Its commit
   overtook the older window `k`-`l`, which committed last of all and had left
   different settings.
   */
  ghost predicate Overtaken(states: seq<System>, actions: seq<Action>, i: nat, j: nat, k: nat, l: nat)
    requires Trace(states, actions)
  {
    && LastOpening(actions, i) && Window(actions, i, j)
    && LastClosing(actions, l) && Window(actions, k, l)
    && k < i && j < l
    && Left(states[k], actions[k]) != Left(states[i], actions[i])
  }

  lemma OvertakenDisagrees(states: seq<System>, actions: seq<Action>, i: nat, j: nat, k: nat, l: nat)
    requires Trace(states, actions) && Overtaken(states, actions, i, j, k, l)
    ensures states[|actions|].installed != states[|actions|].daemon.routingConfig
  {
    hide CanTake, Take, Opens, Closes, TaskOf, Left;
    InstalledAfter(states, actions, i, |actions|);
    RememberedAfter(states, actions, k, l, |actions|);
  }

  lemma DisagreementIsOvertaken(states: seq<System>, actions: seq<Action>, now: nat)
    returns (i: nat, j: nat, k: nat, l: nat)
    requires Boots(states, actions, now) && AtRest(states[|actions|])
    requires states[|actions|].installed != states[|actions|].daemon.routingConfig
    ensures Overtaken(states, actions, i, j, k, l)
  {
    hide CanTake, Take, Opens, Closes, TaskOf, Left, AtRest;
    var opening := FindLastOpening(actions, |actions|);
    var closing := FindLastClosing(actions, |actions|);
    if closing < 0 {
      NothingRemembered(states, actions, |actions|);
      if opening < 0 {
        NothingInstalled(states, actions, |actions|);
        assert false;
      }
      j := OpeningIsClosed(states, actions, opening);
      assert false;
    }
    l := closing;
    k := ClosingHasAWindow(states, actions, now, l);
    RememberedAfter(states, actions, k, l, |actions|);
    i := opening;
    InstalledAfter(states, actions, i, |actions|);
    j := OpeningIsClosed(states, actions, i);
    assert k < i && j <= l;
    if j == l {
      OneWindowEach(states, actions, k, i, l);
      assert false;
    }
  }

  /** At rest the kernel and the daemon disagree exactly when an overtaken window left other settings. */
  lemma DisagreesExactlyWhenOvertaken(states: seq<System>, actions: seq<Action>, now: nat)
    requires Boots(states, actions, now) && AtRest(states[|actions|])
    ensures states[|actions|].installed != states[|actions|].daemon.routingConfig <==>
            exists i, j, k, l :: Overtaken(states, actions, i, j, k, l)
  {
    hide Overtaken;
    if states[|actions|].installed != states[|actions|].daemon.routingConfig {
      var i, j, k, l := DisagreementIsOvertaken(states, actions, now);
    } else if exists i, j, k, l :: Overtaken(states, actions, i, j, k, l) {
      var i, j, k, l :| Overtaken(states, actions, i, j, k, l);
      OvertakenDisagrees(states, actions, i, j, k, l);
    }
  }

  /** No commit closes a window while the window of an older call is still open. */
  ghost predicate InOrder(actions: seq<Action>) {
    forall i, j, k | Window(actions, i, j) && k < i :: !Pending(actions, k, j)
  }

  /** Commits in the order of their calls keep the kernel and the daemon in agreement. */
  lemma InOrderCommitsAgree(states: seq<System>, actions: seq<Action>, now: nat)
    requires Boots(states, actions, now) && AtRest(states[|actions|]) && InOrder(actions)
    ensures states[|actions|].installed == states[|actions|].daemon.routingConfig
  {
    if states[|actions|].installed != states[|actions|].daemon.routingConfig {
      var i, j, k, l := DisagreementIsOvertaken(states, actions, now);
      assert Pending(actions, k, j);
      assert false;
    }
  }

  ghost predicate Exclusive(s: System) {
    forall t, u | Uncommitted(s, t) && Uncommitted(s, u) :: t == u
  }

  /** Windows that never overlap close in order, so they agree as well. */
  lemma ExclusiveWindowsAreInOrder(states: seq<System>, actions: seq<Action>)
    requires Trace(states, actions) && forall n | 0 <= n < |states| :: Exclusive(states[n])
    ensures InOrder(actions)
  {
    hide CanTake, Take, Opens, Closes, TaskOf, Left, Uncommitted;
    forall i: nat, j: nat, k: nat | Window(actions, i, j) && k < i ensures !Pending(actions, k, j) {
      assert Exclusive(states[j]);
      if Pending(actions, k, j) {
        PendingShows(states, actions, k, j);
        PendingShows(states, actions, i, j);
        OneWindowEach(states, actions, k, i, j);
        assert false;
      }
    }
  }

  lemma ExclusiveWindowsAgree(states: seq<System>, actions: seq<Action>, now: nat)
    requires Boots(states, actions, now) && AtRest(states[|actions|])
    requires forall n | 0 <= n < |states| :: Exclusive(states[n])
    ensures states[|actions|].installed == states[|actions|].daemon.routingConfig
  {
    ExclusiveWindowsAreInOrder(states, actions);
    InOrderCommitsAgree(states, actions, now);
  }

  // ----- a run that loses agreement

  lemma Extend(states: seq<System>, actions: seq<Action>, a: Action)
    requires Trace(states, actions) && CanTake(states[|actions|], a)
    ensures Trace(states + [Take(states[|actions|], a)], actions + [a])
  {
    hide CanTake, Take;
  }

  /** One session enables without interruption. */
  lemma ExtendByEnable(states: seq<System>, actions: seq<Action>, session: nat, config: RoutingConfig, now: nat)
    returns (longer: seq<System>, more: seq<Action>)
    requires Trace(states, actions) && At(states[|actions|], Connection(session), Idle)
    requires states[|actions|].daemon.activeSession in {None, Some(session)}
    ensures Trace(longer, more) && longer[0] == states[0]
    ensures longer[|more|] == states[|actions|].(daemon := DaemonState(Some(session), true, now, Some(config)),
                                                 installed := Some(config))
  {
    var s := states[|actions|];
    var claim, call, commit :=
      ClaimSection(session, config, now), CallEnable(session, true), CommitEnableSection(session, now);
    Extend(states, actions, claim);
    longer, more := states + [Take(s, claim)], actions + [claim];
    Extend(longer, more, call);
    longer, more := longer + [Take(longer[|more|], call)], more + [call];
    Extend(longer, more, commit);
    longer, more := longer + [Take(longer[|more|], commit)], more + [commit];
    assert longer[|more|].places == s.places;
  }

  /** A session asks for a rollback and gets as far as the backend call. */
  lemma ExtendByDisable(states: seq<System>, actions: seq<Action>, session: nat)
    returns (longer: seq<System>, more: seq<Action>)
    requires Trace(states, actions) && Connection(session) !in states[|actions|].places
    ensures Trace(longer, more) && longer[0] == states[0]
    ensures more == actions + [Accept(session), AskDisable(session), ReadSettings(Connection(session)),
                               CallDisable(Connection(session), true)]
    ensures longer[|more|] == states[|actions|].(installed := None,
                                places := states[|actions|].places[Connection(session) := Disabled])
  {
    var s, task := states[|actions|], Connection(session);
    Extend(states, actions, Accept(session));
    longer, more := states + [Take(s, Accept(session))], actions + [Accept(session)];
    Extend(longer, more, AskDisable(session));
    longer, more := longer + [Take(longer[|more|], AskDisable(session))], more + [AskDisable(session)];
    Extend(longer, more, ReadSettings(task));
    longer, more := longer + [Take(longer[|more|], ReadSettings(task))], more + [ReadSettings(task)];
    Extend(longer, more, CallDisable(task, true));
    longer, more := longer + [Take(longer[|more|], CallDisable(task, true))], more + [CallDisable(task, true)];
    assert longer[|more|].places == s.places[task := Disabled];
  }

  /**
   Agreement can be lost for good. Another session disables, the owner enables
   again before that rollback commits, and the late commit then forgets the rules
   the kernel has just received. Nothing is in flight any more, and the watchdog
   sees no active routing to take down.
   */
  lemma OverlappingWindowsDisagree(first: RoutingConfig, second: RoutingConfig)
    returns (states: seq<System>, actions: seq<Action>)
    ensures Boots(states, actions, 0)
    ensures forall t | t in states[|actions|].places :: states[|actions|].places[t] == Idle
    ensures states[|actions|].installed == Some(second) && states[|actions|].daemon.routingConfig == None
    ensures forall now :: !Expired(states[|actions|].daemon, now)
  {
    states, actions := [Boot(0)], [];
    Extend(states, actions, Accept(1));
    states, actions := states + [Take(Boot(0), Accept(1))], actions + [Accept(1)];
    states, actions := ExtendByEnable(states, actions, 1, first, 0);
    states, actions := ExtendByDisable(states, actions, 2);
    states, actions := ExtendByEnable(states, actions, 1, second, 1);
    var late := CommitRollbackSection(Connection(2));
    Extend(states, actions, late);
    states, actions := states + [Take(states[|actions|], late)], actions + [late];
  }
}
