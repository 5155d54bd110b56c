/**
 The two published layers, a cold store and a hot metric arena, against one plain
 map from node id to a card. Published stores and arenas are never written again,
 so they are values; an update clones, edits the clone and publishes it.
 */
module Snapshot {
  import opened Wrappers
  import opened DenseStore

  datatype Snap = Snap(store: Store, metrics: Arena)

  datatype MetricUpdate = MetricUpdate(id: U32, latency: U16, health: U8, verified: bool)

  ghost predicate Indexed(s: Store) {
    SameLengths(s) && IndexesLast(s.index, s.ids) && |s.offsets| == |s.ids| + 1
  }

  predicate Sized(a: Arena, n: nat) {
    |a.latencies| == |a.healths| == |a.verified| == n
  }

  ghost predicate Aligned(s: Snap) {
    Indexed(s.store) && Sized(s.metrics, |s.store.ids|)
  }

  /** One update: the id is resolved against the store, the arena is written. */
  function Publish(s: Store, a: Arena, u: MetricUpdate): (r: Arena)
    requires Sized(a, |a.latencies|)
    ensures Sized(r, |a.latencies|)
  {
    var found := IndexOf(s, u.id);
    if found.Some? then ApplyUpdate(a, found.value, u.latency, u.health, u.verified) else a
  }

  function PublishAll(s: Store, a: Arena, updates: seq<MetricUpdate>): (r: Arena)
    requires Sized(a, |a.latencies|)
    ensures Sized(r, |a.latencies|)
    decreases |updates|
  {
    if updates == [] then a
    else Publish(s, PublishAll(s, a, updates[..|updates| - 1]), updates[|updates| - 1])
  }

  function UpdateAll(s: Store, updates: seq<MetricUpdate>): (r: Store)
    requires Indexed(s)
    ensures Indexed(r) && r.ids == s.ids && r.index == s.index
    decreases |updates|
  {
    if updates == [] then s
    else
      var u := updates[|updates| - 1];
      UpdateMetrics(UpdateAll(s, updates[..|updates| - 1]), u.id, u.latency, u.health)
  }

  datatype Event =
    | Replace(rows: seq<HotNodeRow>)
    | Published(updates: seq<MetricUpdate>)
    | Batch(updates: seq<MetricUpdate>)

  function Served(s: Store): Snap {
    Snap(s, FromStore(s))
  }

  function Apply(s: Snap, e: Event, lower: string -> string): Snap
    requires Aligned(s)
  {
    match e
    case Replace(rows) => Served(Build(rows, lower))
    case Published(updates) => s.(metrics := PublishAll(s.store, s.metrics, updates))
    case Batch(updates) => Served(UpdateAll(s.store, updates))
  }

  lemma ApplyKeepsAligned(s: Snap, e: Event, lower: string -> string)
    requires Aligned(s)
    ensures Aligned(Apply(s, e, lower))
  {
    if e.Replace? {
      BuildRepresents(e.rows, lower);
    }
  }

  function Run(first: seq<HotNodeRow>, events: seq<Event>, lower: string -> string): (s: Snap)
    ensures Aligned(s)
    decreases |events|
  {
    if events == [] then
      BuildRepresents(first, lower);
      Served(Build(first, lower))
    else
      var before := Run(first, events[..|events| - 1], lower);
      ApplyKeepsAligned(before, events[|events| - 1], lower);
      Apply(before, events[|events| - 1], lower)
  }

  // ----- the plain map

  datatype Reading = Reading(latency: U16, health: U8, verified: bool)

  datatype Card = Card(country: Country, name: string, protocol: ProtocolKind, sources: seq<U16>,
                       base: Reading, live: Reading)

  type Catalog = map<U32, Card>

  function CardOf(row: HotNodeRow): Card {
    var base := Reading(row.latency, Capped(row.health), false);
    Card(row.country, row.name, row.protocol, row.sources, base, base)
  }

  function Listed(rows: seq<HotNodeRow>): Catalog
    decreases |rows|
  {
    if rows == [] then map[]
    else Listed(rows[..|rows| - 1])[rows[|rows| - 1].id := CardOf(rows[|rows| - 1])]
  }

  function Touch(model: Catalog, u: MetricUpdate): Catalog {
    if u.id in model then
      model[u.id := model[u.id].(live := Reading(u.latency, Capped(u.health), u.verified))]
    else model
  }

  function TouchAll(model: Catalog, updates: seq<MetricUpdate>): Catalog
    decreases |updates|
  {
    if updates == [] then model
    else Touch(TouchAll(model, updates[..|updates| - 1]), updates[|updates| - 1])
  }

  function Rebase(model: Catalog, u: MetricUpdate): Catalog {
    if u.id in model then
      model[u.id := model[u.id].(base := Reading(u.latency, Capped(u.health), false))]
    else model
  }

  function RebaseAll(model: Catalog, updates: seq<MetricUpdate>): Catalog
    decreases |updates|
  {
    if updates == [] then model
    else Rebase(RebaseAll(model, updates[..|updates| - 1]), updates[|updates| - 1])
  }

  function Reset(model: Catalog): (r: Catalog)
    ensures r.Keys == model.Keys
    ensures forall id | id in r :: r[id] == model[id].(live := model[id].base)
  {
    map id | id in model :: model[id].(live := model[id].base)
  }

  function ModelApply(model: Catalog, e: Event): Catalog {
    match e
    case Replace(rows) => Listed(rows)
    case Published(updates) => TouchAll(model, updates)
    case Batch(updates) => Reset(RebaseAll(model, updates))
  }

  function ModelRun(first: seq<HotNodeRow>, events: seq<Event>): Catalog
    decreases |events|
  {
    if events == [] then Listed(first)
    else ModelApply(ModelRun(first, events[..|events| - 1]), events[|events| - 1])
  }

  // ----- reading the layers back as the plain map

  function CardAt(s: Snap, i: nat): Card
    requires Indexed(s.store) && Sized(s.metrics, |s.store.ids|) && i < |s.store.ids|
  {
    Card(s.store.countries[i], s.store.names[i], s.store.protocols[i],
         SourcesAt(s.store, i).GetOr([]),
         Reading(s.store.latencies[i], s.store.healths[i], false),
         Reading(s.metrics.latencies[i], s.metrics.healths[i], s.metrics.verified[i]))
  }

  function View(s: Snap): (r: Catalog)
    requires Aligned(s)
    ensures r.Keys == s.store.index.Keys
    ensures forall id | id in r :: s.store.index[id] < |s.store.ids| && r[id] == CardAt(s, s.store.index[id])
  {
    map id | id in s.store.index :: CardAt(s, s.store.index[id])
  }

  ghost predicate Fits(rows: seq<HotNodeRow>) {
    |Packed(rows)| < WRAP
  }

  lemma {:induction false} ListedIsTheIndex(rows: seq<HotNodeRow>, lower: string -> string)
    ensures Listed(rows).Keys == Build(rows, lower).index.Keys
    ensures |Build(rows, lower).ids| == |rows|
    ensures forall id | id in Listed(rows) ::
              Build(rows, lower).index[id] < |rows| && Listed(rows)[id] == CardOf(rows[Build(rows, lower).index[id]])
    decreases |rows|
  {
    if rows == [] {
    } else {
      ListedIsTheIndex(rows[..|rows| - 1], lower);
    }
  }

  lemma ServedCard(s: Store, rows: seq<HotNodeRow>, lower: string -> string, i: nat)
    requires Represents(s, rows, lower) && i < |rows| && SourcesAt(s, i) == Some(rows[i].sources)
    ensures CardAt(Served(s), i) == CardOf(rows[i])
  {
    assert RowAgrees(s, i, rows[i], lower);
  }

  lemma ServedIsAligned(s: Store, rows: seq<HotNodeRow>, lower: string -> string)
    requires Represents(s, rows, lower)
    ensures Aligned(Served(s))
  {
    hide RowAgrees, Capped, Packed;
  }

  lemma ReadsBackAt(s: Store, rows: seq<HotNodeRow>, lower: string -> string, id: U32)
    requires Represents(s, rows, lower) && Aligned(Served(s)) && id in s.index && s.index[id] < |rows|
    requires SourcesAt(s, s.index[id]) == Some(rows[s.index[id]].sources)
    ensures View(Served(s))[id] == CardOf(rows[s.index[id]])
  {
    ServedCard(s, rows, lower, s.index[id]);
    hide CardAt, CardOf, SourcesAt, RowAgrees;
  }

  lemma AgreeingMaps<K, V>(a: map<K, V>, b: map<K, V>)
    requires a.Keys == b.Keys && forall k | k in a.Keys :: a[k] == b[k]
    ensures a == b
  {
  }

  lemma ReadsBack(s: Store, rows: seq<HotNodeRow>, lower: string -> string, listed: Catalog)
    requires Represents(s, rows, lower)
    requires forall i: nat | i < |rows| :: SourcesAt(s, i) == Some(rows[i].sources)
    requires listed.Keys == s.index.Keys
    requires forall id | id in listed :: s.index[id] < |rows| && listed[id] == CardOf(rows[s.index[id]])
    ensures Aligned(Served(s)) && View(Served(s)) == listed
  {
    ServedIsAligned(s, rows, lower);
    var view := View(Served(s));
    assert view.Keys == listed.Keys;
    hide *;
    forall id | id in listed.Keys ensures view[id] == listed[id] {
      ReadsBackAt(s, rows, lower, id);
    }
    AgreeingMaps(view, listed);
  }

  /** A served store reads back as its rows, the last of each id. */
  lemma ServedIsListed(rows: seq<HotNodeRow>, lower: string -> string)
    requires Fits(rows)
    ensures Aligned(Served(Build(rows, lower)))
    ensures View(Served(Build(rows, lower))) == Listed(rows)
  {
    BuildRepresents(rows, lower);
    ListedIsTheIndex(rows, lower);
    SourcesReadBackExactlyBelowWrap(rows, lower);
    hide Build, Listed, CardAt, CardOf, Represents, SourcesAt, IndexesLast, SameLengths, View, Aligned;
    ReadsBack(Build(rows, lower), rows, lower, Listed(rows));
  }

  /** Writing one position changes one id's card, because ids sit at different positions. */
  lemma PublishedCard(s: Snap, u: MetricUpdate, id: U32)
    requires Aligned(s) && id in s.store.index
    ensures CardAt(s.(metrics := Publish(s.store, s.metrics, u)), s.store.index[id])
         == if id != u.id then CardAt(s, s.store.index[id])
            else CardAt(s, s.store.index[id]).(live := Reading(u.latency, Capped(u.health), u.verified))
  {
    if id != u.id && u.id in s.store.index {
      assert s.store.index[id] != s.store.index[u.id];
    }
  }

  lemma PublishIsTouch(s: Snap, u: MetricUpdate)
    requires Aligned(s)
    ensures View(s.(metrics := Publish(s.store, s.metrics, u))) == Touch(View(s), u)
  {
    var after := s.(metrics := Publish(s.store, s.metrics, u));
    hide CardAt, Publish;
    forall id | id in s.store.index ensures View(after)[id] == Touch(View(s), u)[id] {
      PublishedCard(s, u, id);
    }
  }

  lemma {:induction false} PublishAllIsTouchAll(s: Snap, updates: seq<MetricUpdate>)
    requires Aligned(s)
    ensures View(s.(metrics := PublishAll(s.store, s.metrics, updates))) == TouchAll(View(s), updates)
    decreases |updates|
  {
    if updates == [] {
    } else {
      var last := |updates| - 1;
      PublishAllIsTouchAll(s, updates[..last]);
      PublishIsTouch(s.(metrics := PublishAll(s.store, s.metrics, updates[..last])), updates[last]);
      hide View, Touch, Publish;
    }
  }

  lemma UpdatedCard(s: Snap, u: MetricUpdate, id: U32)
    requires Aligned(s) && id in s.store.index
    ensures CardAt(s.(store := UpdateMetrics(s.store, u.id, u.latency, u.health)), s.store.index[id])
         == if id != u.id then CardAt(s, s.store.index[id])
            else CardAt(s, s.store.index[id]).(base := Reading(u.latency, Capped(u.health), false))
  {
    if id != u.id && u.id in s.store.index {
      assert s.store.index[id] != s.store.index[u.id];
    }
  }

  lemma UpdateIsRebase(s: Snap, u: MetricUpdate)
    requires Aligned(s)
    ensures Aligned(s.(store := UpdateMetrics(s.store, u.id, u.latency, u.health)))
    ensures View(s.(store := UpdateMetrics(s.store, u.id, u.latency, u.health))) == Rebase(View(s), u)
  {
    var after := s.(store := UpdateMetrics(s.store, u.id, u.latency, u.health));
    assert Aligned(after) && after.store.index == s.store.index;
    hide CardAt, UpdateMetrics;
    forall id | id in s.store.index ensures View(after)[id] == Rebase(View(s), u)[id] {
      UpdatedCard(s, u, id);
    }
  }

  lemma {:induction false} UpdateAllIsRebaseAll(s: Snap, updates: seq<MetricUpdate>)
    requires Aligned(s)
    ensures View(s.(store := UpdateAll(s.store, updates))) == RebaseAll(View(s), updates)
    decreases |updates|
  {
    if updates == [] {
    } else {
      var last := |updates| - 1;
      UpdateAllIsRebaseAll(s, updates[..last]);
      UpdateIsRebase(s.(store := UpdateAll(s.store, updates[..last])), updates[last]);
      hide View, Rebase, UpdateMetrics;
    }
  }

  lemma ServedResets(s: Snap)
    requires Aligned(s)
    ensures View(Served(s.store)) == Reset(View(s))
  {
  }

  lemma ApplyIsModelApply(s: Snap, e: Event, lower: string -> string)
    requires Aligned(s) && (e.Replace? ==> Fits(e.rows))
    ensures Aligned(Apply(s, e, lower))
    ensures View(Apply(s, e, lower)) == ModelApply(View(s), e)
  {
    ApplyKeepsAligned(s, e, lower);
    match e
    case Replace(rows) => ServedIsListed(rows, lower);
    case Published(updates) => PublishAllIsTouchAll(s, updates);
    case Batch(updates) =>
      UpdateAllIsRebaseAll(s, updates);
      ServedResets(s.(store := UpdateAll(s.store, updates)));
  }

  ghost predicate AllFit(first: seq<HotNodeRow>, events: seq<Event>) {
    Fits(first) && forall e | e in events && e.Replace? :: Fits(e.rows)
  }

  /** After every run the layers together are the plain map, sources and metrics included. */
  lemma {:induction false} RunsAreThePlainMap(first: seq<HotNodeRow>, events: seq<Event>, lower: string -> string)
    requires AllFit(first, events)
    ensures View(Run(first, events, lower)) == ModelRun(first, events)
    decreases |events|
  {
    if events == [] {
      ServedIsListed(first, lower);
    } else {
      var last := |events| - 1;
      assert forall e | e in events[..last] :: e in events;
      assert events[last] in events;
      hide View, Apply, ModelApply, Aligned, Fits;
      RunsAreThePlainMap(first, events[..last], lower);
      ApplyIsModelApply(Run(first, events[..last], lower), events[last], lower);
    }
  }

  // ----- whose reading is shown

  /** The last update to `id` in a batch. */
  function LastUpdate(updates: seq<MetricUpdate>, id: U32): Option<MetricUpdate>
    decreases |updates|
  {
    if updates == [] then None
    else if updates[|updates| - 1].id == id then Some(updates[|updates| - 1])
    else LastUpdate(updates[..|updates| - 1], id)
  }

  /** Reading a history backwards: the last published update since anything else happened. */
  function LastWord(events: seq<Event>, id: U32): Option<MetricUpdate>
    decreases |events|
  {
    if events == [] then None
    else
      var e := events[|events| - 1];
      if !e.Published? then None
      else if LastUpdate(e.updates, id).Some? then LastUpdate(e.updates, id)
      else LastWord(events[..|events| - 1], id)
  }

  function Shown(base: Reading, word: Option<MetricUpdate>): Reading {
    match word
    case None => base
    case Some(u) => Reading(u.latency, Capped(u.health), u.verified)
  }

  lemma {:induction false} TouchAllShows(model: Catalog, updates: seq<MetricUpdate>, id: U32)
    requires id in model
    ensures id in TouchAll(model, updates)
    ensures TouchAll(model, updates)[id] == model[id].(live := Shown(model[id].live, LastUpdate(updates, id)))
    decreases |updates|
  {
    if updates == [] {
    } else {
      TouchAllShows(model, updates[..|updates| - 1], id);
    }
  }

  lemma {:induction false} TouchAllKeys(model: Catalog, updates: seq<MetricUpdate>)
    ensures TouchAll(model, updates).Keys == model.Keys
    decreases |updates|
  {
    if updates == [] {
    } else {
      TouchAllKeys(model, updates[..|updates| - 1]);
    }
  }

  lemma {:induction false} ListedIsUnverified(rows: seq<HotNodeRow>, id: U32)
    requires id in Listed(rows)
    ensures Listed(rows)[id].live == Listed(rows)[id].base && !Listed(rows)[id].base.verified
    decreases |rows|
  {
    if id != rows[|rows| - 1].id {
      ListedIsUnverified(rows[..|rows| - 1], id);
    }
  }

  lemma {:induction false} RebaseKeepsBaseUnverified(model: Catalog, updates: seq<MetricUpdate>, id: U32)
    requires id in model ==> !model[id].base.verified
    ensures id in RebaseAll(model, updates) <==> id in model
    ensures id in model ==> !RebaseAll(model, updates)[id].base.verified
    decreases |updates|
  {
    if updates == [] {
    } else {
      RebaseKeepsBaseUnverified(model, updates[..|updates| - 1], id);
    }
  }

  /**
   A card shows the last update published since the last replacement or batch,
   and otherwise its unverified baseline: a batch drops what was published.
   */
  lemma {:induction false} LiveIsTheLastWord(first: seq<HotNodeRow>, events: seq<Event>, id: U32)
    requires id in ModelRun(first, events)
    ensures var card := ModelRun(first, events)[id];
            && !card.base.verified
            && card.live == Shown(card.base, LastWord(events, id))
            && (card.live.verified <==> LastWord(events, id).Some? && LastWord(events, id).value.verified)
    decreases |events|
  {
    if events == [] {
      ListedIsUnverified(first, id);
    } else {
      var before := ModelRun(first, events[..|events| - 1]);
      match events[|events| - 1]
      case Replace(rows) => ListedIsUnverified(rows, id);
      case Published(updates) =>
        TouchAllKeys(before, updates);
        LiveIsTheLastWord(first, events[..|events| - 1], id);
        TouchAllShows(before, updates, id);
      case Batch(updates) =>
        RebaseAllKeys(before, updates);
        LiveIsTheLastWord(first, events[..|events| - 1], id);
        RebaseKeepsBaseUnverified(before, updates, id);
    }
  }

  lemma {:induction false} RebaseAllKeys(model: Catalog, updates: seq<MetricUpdate>)
    ensures RebaseAll(model, updates).Keys == model.Keys
    decreases |updates|
  {
    if updates == [] {
    } else {
      RebaseAllKeys(model, updates[..|updates| - 1]);
    }
  }

  // ----- the published layers

  class StoreSnapshot {
    var store: Store
    var metrics: Arena

    ghost function Layers(): Snap
      reads this
    {
      Snap(store, metrics)
    }

    constructor (first: Store)
      requires Indexed(first)
      ensures Layers() == Served(first) && Aligned(Layers())
    {
      store, metrics := first, FromStore(first);
    }

    method ReplaceStore(replacement: Store)
      requires Indexed(replacement)
      modifies this
      ensures Layers() == Served(replacement) && Aligned(Layers())
    {
      store := replacement;
      metrics := FromStore(replacement);
    }

    /** Copy, write each known id in order, swap. */
    method PublishMetrics(updates: seq<MetricUpdate>)
      requires Aligned(Layers())
      modifies `metrics
      ensures metrics == PublishAll(store, old(metrics), updates)
      ensures Aligned(Layers()) && View(Layers()) == TouchAll(old(View(Layers())), updates)
    {
      var replacement := metrics;
      for k := 0 to |updates|
        invariant Sized(replacement, |store.ids|)
        invariant replacement == PublishAll(store, metrics, updates[..k])
      {
        var u := updates[k];
        assert updates[..k + 1][..k] == updates[..k];
        var found := IndexOf(store, u.id);
        if found.Some? {
          replacement := ApplyUpdate(replacement, found.value, u.latency, u.health, u.verified);
        }
      }
      assert updates[..|updates|] == updates;
      PublishAllIsTouchAll(Layers(), updates);
      metrics := replacement;
    }

    /** Copy the whole store, write the batch, and serve the copy with a fresh arena. */
    method UpdateMetricsBatch(updates: seq<MetricUpdate>)
      requires Aligned(Layers())
      modifies this
      ensures Layers() == Served(UpdateAll(old(store), updates))
      ensures Aligned(Layers()) && View(Layers()) == Reset(RebaseAll(old(View(Layers())), updates))
    {
      var replacement := store;
      for k := 0 to |updates|
        invariant Indexed(replacement) && replacement == UpdateAll(store, updates[..k])
        invariant Layers() == old(Layers())
      {
        var u := updates[k];
        assert updates[..k + 1][..k] == updates[..k];
        replacement := UpdateMetrics(replacement, u.id, u.latency, u.health);
      }
      assert updates[..|updates|] == updates;
      UpdateAllIsRebaseAll(Layers(), updates);
      ServedResets(Layers().(store := replacement));
      ReplaceStore(replacement);
    }
  }
}
