/**
 The published layers as two threads share them: one publishes metrics, copying the
 arena, resolving ids against the store and putting its copy back; the other replaces
 the store and puts a fresh arena in place afterwards. An arena's home is the number
 of the store it was shaped after.
 */
module SnapshotRace {
  import opened Wrappers
  import opened DenseStore
  import opened Snapshot

  datatype Publisher = Off | Copied(arena: Arena, home: nat) | Written(arena: Arena, home: nat)

  datatype Shared = Shared(
    stores: seq<Store>,
    metrics: Arena,
    home: nat,
    publisher: Publisher,
    replacing: bool)
  {
    function Latest(): int {
      |stores| - 1
    }
  }

  datatype Act =
    | CopyArena
    | WriteUpdates(updates: seq<MetricUpdate>)
    | PutBack
    | StoreNew(store: Store)
    | PutFresh

  ghost predicate Fine(s: Shared) {
    && s.stores != [] && (forall v | 0 <= v < |s.stores| :: Indexed(s.stores[v]))
    && s.home < |s.stores| && Sized(s.metrics, |s.stores[s.home].ids|)
    && (!s.publisher.Off? ==>
          s.publisher.home < |s.stores| && Sized(s.publisher.arena, |s.stores[s.publisher.home].ids|))
    && (s.replacing ==> s.home < s.Latest() && (!s.publisher.Off? ==> s.publisher.home < s.Latest()))
  }

  ghost predicate CanAct(s: Shared, a: Act) {
    match a
    case CopyArena => s.publisher.Off?
    case WriteUpdates(_) =>
      s.publisher.Copied? && s.stores != [] && Sized(s.publisher.arena, |s.publisher.arena.latencies|)
    case PutBack => s.publisher.Written?
    case StoreNew(store) => !s.replacing && Indexed(store)
    case PutFresh => s.replacing && s.stores != []
  }

  ghost function Do(s: Shared, a: Act): Shared
    requires CanAct(s, a)
  {
    match a
    case CopyArena => s.(publisher := Copied(s.metrics, s.home))
    case WriteUpdates(updates) =>
      s.(publisher := Written(PublishAll(s.stores[|s.stores| - 1], s.publisher.arena, updates), s.publisher.home))
    case PutBack => s.(metrics := s.publisher.arena, home := s.publisher.home, publisher := Off)
    case StoreNew(store) => s.(stores := s.stores + [store], replacing := true)
    case PutFresh => s.(metrics := FromStore(s.stores[|s.stores| - 1]), home := |s.stores| - 1, replacing := false)
  }

  ghost predicate Course(states: seq<Shared>, acts: seq<Act>) {
    && |states| == |acts| + 1
    && forall i | 0 <= i < |acts| :: CanAct(states[i], acts[i]) && states[i + 1] == Do(states[i], acts[i])
  }

  /** A store and the arena made from it, nobody at work. */
  ghost predicate Opens(s: Shared) {
    && |s.stores| == 1 && Indexed(s.stores[0])
    && s.metrics == FromStore(s.stores[0]) && s.home == 0 && s.publisher == Off && !s.replacing
  }

  ghost predicate AtRest(s: Shared) {
    s.publisher == Off && !s.replacing
  }

  lemma DoKeepsFine(s: Shared, a: Act)
    requires CanAct(s, a) && Fine(s)
    ensures Fine(Do(s, a))
  {
    var after := Do(s, a);
    forall v | 0 <= v < |s.stores| ensures after.stores[v] == s.stores[v] {
    }
    hide Indexed;
  }

  lemma {:induction false} CoursesStayFine(states: seq<Shared>, acts: seq<Act>, n: nat)
    requires Course(states, acts) && Opens(states[0]) && n < |states|
    ensures Fine(states[n])
  {
    if n == 0 {
    } else {
      hide CanAct, Do, Fine;
      CoursesStayFine(states, acts, n - 1);
      DoKeepsFine(states[n - 1], acts[n - 1]);
      assert states[n - 1 + 1] == Do(states[n - 1], acts[n - 1]);
    }
  }

  // ----- whose arena is in place

  lemma StoresOnlyGrow(s: Shared, a: Act)
    requires CanAct(s, a)
    ensures |s.stores| <= |Do(s, a).stores|
    ensures !a.StoreNew? ==> Do(s, a).stores == s.stores
  {
  }

  lemma {:induction false} FewerStoresBefore(states: seq<Shared>, acts: seq<Act>, m: nat, n: nat)
    requires Course(states, acts) && m <= n < |states|
    ensures |states[m].stores| <= |states[n].stores|
    decreases n
  {
    if m == n {
    } else {
      hide CanAct, Do;
      FewerStoresBefore(states, acts, m, n - 1);
      StoresOnlyGrow(states[n - 1], acts[n - 1]);
      assert states[n - 1 + 1] == Do(states[n - 1], acts[n - 1]);
    }
  }

  /** While a replacement is under way it was begun, and no later store was published since. */
  lemma {:induction false} BegunAt(states: seq<Shared>, acts: seq<Act>, n: nat) returns (i: nat)
    requires Course(states, acts) && Opens(states[0]) && n < |states| && states[n].replacing
    ensures i < n && acts[i].StoreNew? && |states[i].stores| == |states[n].stores| - 1
    ensures forall m | i < m <= n :: states[m].replacing && |states[m].stores| == |states[n].stores|
    decreases n
  {
    assert n != 0;
    assert states[n - 1 + 1] == Do(states[n - 1], acts[n - 1]);
    if states[n - 1].replacing {
      i := BegunAt(states, acts, n - 1);
    } else {
      i := n - 1;
    }
  }

  /** Until a replacement puts its arena in place, no arena is shaped after its store. */
  lemma OlderHomes(states: seq<Shared>, acts: seq<Act>, g: nat, j: nat)
    requires Course(states, acts) && Opens(states[0]) && g <= j < |acts| && acts[j].PutFresh?
    ensures states[g].home < states[j].Latest()
    ensures !states[g].publisher.Off? ==> states[g].publisher.home < states[j].Latest()
  {
    CoursesStayFine(states, acts, g);
    var i := BegunAt(states, acts, j);
    if g <= i {
      FewerStoresBefore(states, acts, g, i);
    }
  }

  /** A publication that copies the arena at `g` and puts its copy back at `p`. */
  ghost predicate Publication(acts: seq<Act>, g: nat, p: nat) {
    g < p < |acts| && acts[g].CopyArena? && acts[p].PutBack? && forall m | g < m < p :: !acts[m].PutBack?
  }

  ghost predicate LastFresh(acts: seq<Act>, j: nat) {
    j < |acts| && acts[j].PutFresh? && forall m | j < m < |acts| :: !acts[m].PutFresh?
  }

  /** The publication has the last fresh arena, put in place at `j`, between its copying and its putting back. */
  ghost predicate Straddles(acts: seq<Act>, g: nat, j: nat, p: nat) {
    LastFresh(acts, j) && Publication(acts, g, p) && g < j < p
  }

  lemma {:induction false} CopiedAt(states: seq<Shared>, acts: seq<Act>, n: nat) returns (g: nat)
    requires Course(states, acts) && Opens(states[0]) && n < |states| && !states[n].publisher.Off?
    ensures g < n && acts[g].CopyArena? && states[n].publisher.home == states[g].home
    ensures forall m | g < m < n :: !acts[m].PutBack? && !acts[m].CopyArena?
    decreases n
  {
    assert n != 0;
    assert states[n - 1 + 1] == Do(states[n - 1], acts[n - 1]);
    if acts[n - 1].CopyArena? {
      g := n - 1;
    } else {
      g := CopiedAt(states, acts, n - 1);
    }
  }

  /** No replacement is put in place between `j` and `n`. */
  ghost predicate NoneFresh(acts: seq<Act>, j: nat, n: nat) {
    j < n <= |acts| && acts[j].PutFresh? && forall m | j < m < n :: !acts[m].PutFresh?
  }

  lemma HomeSteps(s: Shared, a: Act)
    requires CanAct(s, a) && !a.PutFresh?
    ensures Do(s, a).home == if a.PutBack? then s.publisher.home else s.home
    ensures a.PutBack? ==> !s.publisher.Off?
  {
  }

  /** After the last fresh arena its home stays, or a publication that straddles it has put an older one back. */
  lemma {:induction false} HomeOrStraddled(states: seq<Shared>, acts: seq<Act>, j: nat, n: nat) returns (g: nat, p: nat)
    requires Course(states, acts) && Opens(states[0]) && NoneFresh(acts, j, n)
    ensures states[n].home == states[j].Latest() || (Publication(acts, g, p) && g < j < p < n)
    decreases n
  {
    g, p := 0, 0;
    assert states[n - 1 + 1] == Do(states[n - 1], acts[n - 1]);
    if n - 1 == j {
    } else {
      HomeSteps(states[n - 1], acts[n - 1]);
      hide CanAct, Do, Opens;
      g, p := HomeOrStraddled(states, acts, j, n - 1);
      if states[n - 1].home == states[j].Latest() && acts[n - 1].PutBack? {
        var c := CopiedAt(states, acts, n - 1);
        if c < j {
          g, p := c, n - 1;
        } else {
          HomeWas(states, acts, j, c, n - 1);
        }
      }
    }
  }

  /** With no putting back between, the home does not change. */
  lemma {:induction false} HomeWas(states: seq<Shared>, acts: seq<Act>, j: nat, c: nat, n: nat)
    requires Course(states, acts) && NoneFresh(acts, j, n) && j < c <= n
    requires forall m | c < m < n :: !acts[m].PutBack?
    requires c < n ==> !acts[c].PutBack?
    ensures states[n].home == states[c].home
    decreases n
  {
    if c == n {
    } else {
      HomeSteps(states[n - 1], acts[n - 1]);
      assert states[n - 1 + 1] == Do(states[n - 1], acts[n - 1]);
      hide CanAct, Do;
      HomeWas(states, acts, j, c, n - 1);
    }
  }

  /** Once a straddling publication has put its copy back, every arena descends from that copy. */
  lemma {:induction false} StraddledStays(states: seq<Shared>, acts: seq<Act>, g: nat, j: nat, p: nat, n: nat)
    requires Course(states, acts) && Opens(states[0]) && NoneFresh(acts, j, n)
    requires Publication(acts, g, p) && g < j < p < n
    ensures states[n].home < states[j].Latest()
    ensures !states[n].publisher.Off? ==> states[n].publisher.home < states[j].Latest()
    decreases n
  {
    assert states[n - 1 + 1] == Do(states[n - 1], acts[n - 1]);
    if n - 1 == p {
      var c := CopiedAt(states, acts, p);
      assert c == g by { OnePublicationAtATime(states, acts, g, c, p); }
      OlderHomes(states, acts, g, j);
    } else {
      StraddledStays(states, acts, g, j, p, n - 1);
    }
  }

  lemma OnePublicationAtATime(states: seq<Shared>, acts: seq<Act>, g: nat, c: nat, p: nat)
    requires Course(states, acts) && Publication(acts, g, p) && c < p && acts[c].CopyArena?
    requires forall m | c < m < p :: !acts[m].PutBack? && !acts[m].CopyArena?
    ensures c == g
  {
    if g < c {
      StaysBusy(states, acts, g, c);
      assert false;
    }
  }

  lemma {:induction false} StaysBusy(states: seq<Shared>, acts: seq<Act>, g: nat, n: nat)
    requires Course(states, acts) && g < n < |states| && acts[g].CopyArena?
    requires forall m | g < m < n :: !acts[m].PutBack?
    ensures !states[n].publisher.Off?
    decreases n
  {
    assert states[n - 1 + 1] == Do(states[n - 1], acts[n - 1]);
    if n - 1 == g {
    } else {
      StaysBusy(states, acts, g, n - 1);
    }
  }

  lemma {:induction false} FindLastFresh(acts: seq<Act>, n: nat) returns (j: int)
    requires n <= |acts|
    ensures -1 <= j < n && (j >= 0 ==> acts[j].PutFresh?) && forall m | j < m < n :: !acts[m].PutFresh?
  {
    if n == 0 || acts[n - 1].PutFresh? {
      j := n - 1;
    } else {
      j := FindLastFresh(acts, n - 1);
    }
  }

  /** At rest the store in place is the one of the last fresh arena. */
  lemma {:induction false} LatestIsFresh(states: seq<Shared>, acts: seq<Act>, j: int, n: nat)
    requires Course(states, acts) && Opens(states[0]) && -1 <= j < n <= |acts|
    requires (j >= 0 ==> acts[j].PutFresh?) && forall m | j < m < n :: !acts[m].PutFresh?
    ensures !states[n].replacing ==> states[n].Latest() == if j >= 0 then states[j].Latest() else 0
    ensures !states[n].replacing ==> forall m | j < m < n :: !acts[m].StoreNew?
    decreases n
  {
    if n == 0 {
    } else {
      assert states[n - 1 + 1] == Do(states[n - 1], acts[n - 1]);
      if j < n - 1 {
        LatestIsFresh(states, acts, j, n - 1);
      }
    }
  }

  lemma {:induction false} FirstHome(states: seq<Shared>, acts: seq<Act>, n: nat)
    requires Course(states, acts) && Opens(states[0]) && n < |states| && forall m | 0 <= m < n :: !acts[m].PutFresh?
    ensures states[n].home == 0 && (!states[n].publisher.Off? ==> states[n].publisher.home == 0)
  {
    if n == 0 {
    } else {
      FirstHome(states, acts, n - 1);
      assert states[n - 1 + 1] == Do(states[n - 1], acts[n - 1]);
    }
  }

  /**
   Under every interleaving of the two threads, at rest: the arena in place is shaped
   after another store than the one being served exactly when a publication copied the
   arena before the last replacement put its own in place, and put its copy back after.
   */
  lemma MisalignedExactlyWhenStraddled(states: seq<Shared>, acts: seq<Act>)
    requires Course(states, acts) && Opens(states[0]) && AtRest(states[|acts|])
    ensures states[|acts|].home != states[|acts|].Latest() <==> exists g, j, p :: Straddles(acts, g, j, p)
  {
    var n := |acts|;
    if n == 0 {
      return;
    }
    var j := FindLastFresh(acts, n);
    LatestIsFresh(states, acts, j, n);
    hide CanAct, Do, Opens;
    if j < 0 {
      FirstHome(states, acts, n);
    } else {
      var g, p := HomeOrStraddled(states, acts, j, n);
      if states[n].home != states[n].Latest() {
        assert Straddles(acts, g, j, p);
      }
      forall h, f, q | Straddles(acts, h, f, q) ensures states[n].home != states[n].Latest() {
        assert f == j;
        StraddledStays(states, acts, h, j, q, n);
      }
    }
  }

  /** An arena at home is aligned with the store, so it reads as the cards of that store. */
  lemma AtHomeIsAligned(states: seq<Shared>, acts: seq<Act>, n: nat)
    requires Course(states, acts) && Opens(states[0]) && n < |states|
    ensures states[n].stores != []
    ensures var s := states[n];
            s.home == s.Latest() ==> Aligned(Snap(s.stores[|s.stores| - 1], s.metrics))
  {
    CoursesStayFine(states, acts, n);
    hide Indexed;
  }

  // ----- what it does to the list

  lemma Extend(states: seq<Shared>, acts: seq<Act>, a: Act) returns (longer: seq<Shared>, more: seq<Act>)
    requires Course(states, acts) && CanAct(states[|acts|], a)
    ensures Course(longer, more) && longer[0] == states[0] && more == acts + [a]
    ensures longer == states + [Do(states[|acts|], a)]
  {
    longer, more := states + [Do(states[|acts|], a)], acts + [a];
    hide CanAct, Do;
  }

  lemma OneRow(row: HotNodeRow, lower: string -> string)
    ensures var s := Build([row], lower);
            && Indexed(s) && s.ids == [row.id] && |s.latencies| == |s.healths| == 1 && s.index == map[row.id := 0]
  {
    BuildStep([row], 0, lower);
    assert [row][..1] == [row] && [row][..0] == [];
    assert Build([row], lower) == Pushed(EMPTY, row, lower);
  }

  /** One update written into a copy of a one-row arena. */
  lemma OneUpdate(s: Store, a: Arena, u: MetricUpdate)
    requires Sized(a, 1) && s.index == map[u.id := 0]
    ensures PublishAll(s, a, [u]) == Arena([u.latency], [Capped(u.health)], [u.verified])
  {
    assert [u][..0] == [] && PublishAll(s, a, []) == a;
    assert PublishAll(s, a, [u]) == Publish(s, a, u);
    assert a.latencies[0 := u.latency] == [u.latency];
    assert a.healths[0 := Capped(u.health)] == [Capped(u.health)];
    assert a.verified[0 := u.verified] == [u.verified];
  }

  /**
   A straddling publication: a reading verified for one node ends up, still marked as
   verified, on the node that has taken its place in the new store.
   */
  lemma AnothersReadingIsShown(former: HotNodeRow, other: HotNodeRow, u: MetricUpdate, lower: string -> string)
    returns (states: seq<Shared>, acts: seq<Act>)
    requires u.id == former.id && former.id != other.id
    ensures Course(states, acts) && Opens(states[0]) && AtRest(states[|acts|])
    ensures exists g, j, p :: Straddles(acts, g, j, p)
    ensures var s := states[|acts|];
            && s.stores == [Build([former], lower), Build([other], lower)] && s.home == 0
            && var snap := Snap(s.stores[1], s.metrics);
               && Aligned(snap) && other.id in View(snap)
               && View(snap)[other.id].live == Reading(u.latency, Capped(u.health), u.verified)
  {
    OneRow(former, lower);
    OneRow(other, lower);
    var was, next := Build([former], lower), Build([other], lower);
    hide Build;
    OneUpdate(was, FromStore(was), u);
    hide PublishAll;
    states, acts := [Shared([was], FromStore(was), 0, Off, false)], [];
    states, acts := Extend(states, acts, CopyArena);
    states, acts := Extend(states, acts, WriteUpdates([u]));
    states, acts := Extend(states, acts, StoreNew(next));
    states, acts := Extend(states, acts, PutFresh);
    states, acts := Extend(states, acts, PutBack);
    assert Straddles(acts, 0, 3, 4);
  }
}
