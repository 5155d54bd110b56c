/**
 The catalog end to end: whatever was replaced, published or batched, the list a
 view shows is decided by the plain map alone.
 */
module CatalogView {
  import opened DenseStore
  import Snapshot
  import opened Query

  function KeysOf(id: U32, card: Snapshot.Card): Keys {
    Keys(card.live.latency, card.live.health, card.country, card.name, id)
  }

  predicate CardAccepted(card: Snapshot.Card, view: View, lower: string -> string) {
    && (view.sub.Some? ==> view.sub.value in card.sources)
    && (view.country.Some? ==> card.country == view.country.value)
    && Contains(lower(card.name), lower(view.search))
  }

  /** `ids` lists the accepted cards of the map, in the order of their keys. */
  ghost predicate Lists(model: Snapshot.Catalog, view: View, lower: string -> string, ids: seq<U32>) {
    && (forall k | 0 <= k < |ids| :: ids[k] in model)
    && (forall id :: id in ids <==> id in model && CardAccepted(model[id], view, lower))
    && (forall p, q | 0 <= p < q < |ids| ::
          Earlier(view.sort, KeysOf(ids[p], model[ids[p]]), KeysOf(ids[q], model[ids[q]])))
  }

  /** Ids are not repeated and the search column holds the lowered names. */
  ghost predicate Searchable(s: Store, lower: string -> string) {
    && Snapshot.Indexed(s) && DistinctIdColumn(s)
    && forall i | 0 <= i < |s.ids| :: s.lowered[i] == lower(s.names[i])
  }

  lemma BuiltIsSearchable(rows: seq<HotNodeRow>, lower: string -> string)
    requires DistinctIds(rows)
    ensures Searchable(Build(rows, lower), lower)
  {
    BuildRepresents(rows, lower);
    var s := Build(rows, lower);
    hide Build;
    forall i, j | 0 <= i < j < |s.ids| ensures s.ids[i] != s.ids[j] {
      assert RowAgrees(s, i, rows[i], lower) && RowAgrees(s, j, rows[j], lower);
    }
    forall i | 0 <= i < |s.ids| ensures s.lowered[i] == lower(s.names[i]) {
      assert RowAgrees(s, i, rows[i], lower);
    }
  }

  lemma {:induction false} BatchKeepsSearchable(s: Store, updates: seq<Snapshot.MetricUpdate>, lower: string -> string)
    requires Searchable(s, lower)
    ensures Searchable(Snapshot.UpdateAll(s, updates), lower)
    decreases |updates|
  {
    if updates == [] {
    } else {
      BatchKeepsSearchable(s, updates[..|updates| - 1], lower);
    }
  }

  ghost predicate AllDistinct(first: seq<HotNodeRow>, events: seq<Snapshot.Event>) {
    DistinctIds(first) && forall e | e in events && e.Replace? :: DistinctIds(e.rows)
  }

  lemma {:induction false} RunsStaySearchable(first: seq<HotNodeRow>, events: seq<Snapshot.Event>,
                                              lower: string -> string)
    requires AllDistinct(first, events)
    ensures Searchable(Snapshot.Run(first, events, lower).store, lower)
    decreases |events|
  {
    if events == [] {
      BuiltIsSearchable(first, lower);
    } else {
      var last := |events| - 1;
      assert forall e | e in events[..last] :: e in events;
      RunsStaySearchable(first, events[..last], lower);
      assert events[last] in events;
      hide Searchable;
      match events[last]
      case Replace(rows) => BuiltIsSearchable(rows, lower);
      case Published(_) =>
      case Batch(updates) => BatchKeepsSearchable(Snapshot.Run(first, events[..last], lower).store, updates, lower);
    }
  }

  /** The card of the id at a position is the one the map holds for it. */
  lemma CardOfPosition(s: Snapshot.Snap, lower: string -> string, i: nat)
    requires Snapshot.Aligned(s) && Searchable(s.store, lower) && i < |s.store.ids|
    ensures s.store.ids[i] in Snapshot.View(s)
    ensures Snapshot.View(s)[s.store.ids[i]] == Snapshot.CardAt(s, i)
  {
    assert s.store.index[s.store.ids[i]] == i;
  }

  lemma AcceptsTheCard(s: Snapshot.Snap, view: View, lower: string -> string, i: nat)
    requires Snapshot.Aligned(s) && Searchable(s.store, lower) && i < |s.store.ids|
    ensures Accepts(s.store, view, lower, i) <==> CardAccepted(Snapshot.CardAt(s, i), view, lower)
  {
    if lower(view.search) == "" {
      assert OccursAt(lower(s.store.names[i]), lower(view.search), 0);
    }
  }

  function LiveLatency(s: Snapshot.Snap): nat -> U16 {
    ColumnOr(s.metrics.latencies, UNTESTED)
  }

  function LiveHealth(s: Snapshot.Snap): nat -> U8 {
    ColumnOr(s.metrics.healths, 0)
  }

  function IdsAt(s: Store, rows: seq<nat>): (ids: seq<U32>)
    requires forall k | 0 <= k < |rows| :: rows[k] < |s.ids|
    ensures |ids| == |rows| && forall k | 0 <= k < |rows| :: ids[k] == s.ids[rows[k]]
  {
    seq(|rows|, k requires 0 <= k < |rows| => s.ids[rows[k]])
  }

  lemma MembersAreAccepted(s: Snapshot.Snap, view: View, lower: string -> string, rows: seq<nat>, id: U32)
    requires Snapshot.Aligned(s) && Searchable(s.store, lower)
    requires Answers(s.store, view, lower, LiveLatency(s), LiveHealth(s), rows)
    ensures id in IdsAt(s.store, rows) <==>
            id in Snapshot.View(s) && CardAccepted(Snapshot.View(s)[id], view, lower)
  {
    assert forall k | 0 <= k < |rows| :: rows[k] < |s.store.ids|;
    hide CardAccepted, Accepts, Snapshot.CardAt, StrictlyOrdered;
    if id in IdsAt(s.store, rows) {
      var k :| 0 <= k < |rows| && IdsAt(s.store, rows)[k] == id;
      assert rows[k] in rows;
      AcceptsTheCard(s, view, lower, rows[k]);
      CardOfPosition(s, lower, rows[k]);
    }
    if id in Snapshot.View(s) && CardAccepted(Snapshot.View(s)[id], view, lower) {
      var i := s.store.index[id];
      AcceptsTheCard(s, view, lower, i);
      CardOfPosition(s, lower, i);
      var k :| 0 <= k < |rows| && rows[k] == i;
      assert IdsAt(s.store, rows)[k] == id;
    }
  }

  lemma AnswerListsTheCards(s: Snapshot.Snap, view: View, lower: string -> string, rows: seq<nat>)
    requires Snapshot.Aligned(s) && Searchable(s.store, lower)
    requires Answers(s.store, view, lower, LiveLatency(s), LiveHealth(s), rows)
    ensures Lists(Snapshot.View(s), view, lower, IdsAt(s.store, rows))
  {
    var model, ids := Snapshot.View(s), IdsAt(s.store, rows);
    hide CardAccepted, Accepts, ListsAccepted, Compare, Earlier;
    forall id ensures id in ids <==> id in model && CardAccepted(model[id], view, lower) {
      MembersAreAccepted(s, view, lower, rows, id);
    }
    forall k | 0 <= k < |ids| ensures ids[k] in model {
      assert ids[k] in ids;
    }
    forall p, q | 0 <= p < q < |ids|
      ensures Earlier(view.sort, KeysOf(ids[p], model[ids[p]]), KeysOf(ids[q], model[ids[q]]))
    {
      CardOfPosition(s, lower, rows[p]);
      CardOfPosition(s, lower, rows[q]);
      CompareReads(s.store, view.sort, LiveLatency(s), LiveHealth(s), rows[p], rows[q]);
    }
  }

  /**
   After any run of replacements, publications and batches, the live query lists
   exactly the cards of the plain map that the view accepts, in the order of their live
   readings, countries or names, whichever the view asks for.
   */
  lemma ListIsDecidedByThePlainMap(first: seq<HotNodeRow>, events: seq<Snapshot.Event>, view: View,
                                   lower: string -> string)
    requires Snapshot.AllFit(first, events) && AllDistinct(first, events)
    ensures var s := Snapshot.Run(first, events, lower);
            var rows := QueryWithMetrics(s.store, s.metrics, view, lower);
            && (forall k | 0 <= k < |rows| :: rows[k] < |s.store.ids|)
            && Lists(Snapshot.ModelRun(first, events), view, lower, IdsAt(s.store, rows))
  {
    var s := Snapshot.Run(first, events, lower);
    Snapshot.RunsAreThePlainMap(first, events, lower);
    RunsStaySearchable(first, events, lower);
    hide Snapshot.Run, Snapshot.ModelRun, Lists;
    var rows := QueryWithMetrics(s.store, s.metrics, view, lower);
    QueryIsTheSortedFilter(s.store, view, lower, LiveLatency(s), LiveHealth(s), rows);
    AnswerListsTheCards(s, view, lower, rows);
  }
}
