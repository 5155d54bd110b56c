/**
 Building the dense store from the catalog tables, and what a subscription filter then
 shows. The two queries are relations: any listing of the nodes by id, and any listing
 of the links, that agrees with the tables.
 */
module Hydration {
  import opened Wrappers
  import opened DenseStore
  import Repository
  import Snapshot
  import opened Query
  import CatalogView

  datatype NodeRow = NodeRow(id: nat, hash: Repository.Hash)

  datatype SourceRow = SourceRow(node: nat, sub: nat)

  /** The columns a node's payload determines. */
  datatype Meta = Meta(country: Country, name: string, protocol: ProtocolKind)

  /** What diagnostics hold for a node, or the defaults for a node without any. */
  datatype Diagnosis = Diagnosis(latency: U16, health: U8)

  datatype Facts = Facts(meta: Repository.Hash -> Meta, diagnosis: nat -> Diagnosis, lower: string -> string)

  /** The subscriptions linked to a node, in the order of the listing. */
  function SubsOf(links: seq<SourceRow>, id: nat): seq<nat>
    decreases |links|
  {
    if links == [] then []
    else
      var last := links[|links| - 1];
      SubsOf(links[..|links| - 1], id) + if last.node == id then [last.sub] else []
  }

  /** Ids and subscription ids fit their columns; otherwise reading a row fails. */
  predicate Readable(rows: seq<NodeRow>, links: seq<SourceRow>) {
    && (forall k | 0 <= k < |rows| :: rows[k].id < WRAP)
    && (forall k | 0 <= k < |links| :: links[k].node < WRAP && links[k].sub < 0x1_0000)
  }

  predicate Ascending(rows: seq<NodeRow>) {
    forall i, j | 0 <= i < j < |rows| :: rows[i].id < rows[j].id
  }

  lemma {:induction false} SubsFit(links: seq<SourceRow>, id: nat)
    requires forall k | 0 <= k < |links| :: links[k].sub < 0x1_0000
    ensures forall k | 0 <= k < |SubsOf(links, id)| :: SubsOf(links, id)[k] < 0x1_0000
    decreases |links|
  {
    if links == [] {
    } else {
      SubsFit(links[..|links| - 1], id);
    }
  }

  function Narrowed(subs: seq<nat>): (r: seq<U16>)
    requires forall k | 0 <= k < |subs| :: subs[k] < 0x1_0000
    ensures |r| == |subs| && forall k | 0 <= k < |subs| :: r[k] == subs[k]
  {
    seq(|subs|, k requires 0 <= k < |subs| => subs[k])
  }

  function HotRow(row: NodeRow, links: seq<SourceRow>, facts: Facts): HotNodeRow
    requires row.id < WRAP && forall k | 0 <= k < |links| :: links[k].sub < 0x1_0000
  {
    SubsFit(links, row.id);
    var m, d := facts.meta(row.hash), facts.diagnosis(row.id);
    HotNodeRow(row.id, m.country, d.latency, d.health, m.name, m.protocol, Narrowed(SubsOf(links, row.id)))
  }

  function HotRows(rows: seq<NodeRow>, links: seq<SourceRow>, facts: Facts): (hot: seq<HotNodeRow>)
    requires Readable(rows, links)
    ensures |hot| == |rows| && forall k | 0 <= k < |rows| :: hot[k] == HotRow(rows[k], links, facts)
  {
    seq(|rows|, k requires 0 <= k < |rows| => HotRow(rows[k], links, facts))
  }

  function Healths(rows: seq<HotNodeRow>): (r: seq<U8>)
    ensures |r| == |rows| && forall k | 0 <= k < |rows| :: r[k] == rows[k].health
  {
    seq(|rows|, k requires 0 <= k < |rows| => rows[k].health)
  }

  /** The store of the rows, except that health scores are taken over without a cap. */
  function Hydrated(rows: seq<HotNodeRow>, lower: string -> string): Store {
    Build(rows, lower).(healths := Healths(rows))
  }

  lemma AppendSource(links: seq<SourceRow>, m: nat, id: nat)
    requires m < |links|
    ensures SubsOf(links[..m + 1], id) == SubsOf(links[..m], id) + if links[m].node == id then [links[m].sub] else []
  {
    assert links[..m + 1][..m] == links[..m];
  }

  /** What the link loop has collected so far. */
  ghost predicate Collected(sources: seq<seq<U16>>, rows: seq<NodeRow>, links: seq<SourceRow>) {
    && |sources| == |rows|
    && forall i | 0 <= i < |rows| :: sources[i] == SubsOf(links, rows[i].id)
  }

  lemma CollectOne(sources: seq<seq<U16>>, rows: seq<NodeRow>, links: seq<SourceRow>, m: nat, at: nat, sub: U16)
    requires m < |links| && Ascending(rows) && Collected(sources, rows, links[..m])
    requires at < |rows| && rows[at].id == links[m].node && sub == links[m].sub
    ensures Collected(sources[at := sources[at] + [sub]], rows, links[..m + 1])
  {
    var after := sources[at := sources[at] + [sub]];
    forall i | 0 <= i < |rows| ensures after[i] == SubsOf(links[..m + 1], rows[i].id) {
      AppendSource(links, m, rows[i].id);
      assert i < at ==> rows[i].id < rows[at].id;
      assert at < i ==> rows[at].id < rows[i].id;
    }
  }

  lemma CollectNone(sources: seq<seq<U16>>, rows: seq<NodeRow>, links: seq<SourceRow>, m: nat)
    requires m < |links| && Collected(sources, rows, links[..m])
    requires forall i | 0 <= i < |rows| :: rows[i].id != links[m].node
    ensures Collected(sources, rows, links[..m + 1])
  {
    forall i | 0 <= i < |rows| ensures sources[i] == SubsOf(links[..m + 1], rows[i].id) {
      AppendSource(links, m, rows[i].id);
    }
  }

  /** The node rows first, column by column. */
  method ReadNodes(rows: seq<NodeRow>, facts: Facts) returns (columns: Option<Store>)
    requires Ascending(rows)
    ensures columns.None? <==> exists k :: 0 <= k < |rows| && rows[k].id >= WRAP
    ensures columns.Some? ==> Readable(rows, []) && columns.value == Hydrated(HotRows(rows, [], facts), facts.lower)
  {
    var s := EMPTY;
    hide HotRow, HotRows, Hydrated, Readable;
    assert Readable(rows[..0], []) && s == Hydrated(HotRows(rows[..0], [], facts), facts.lower) by {
      NoNodes(rows[..0], facts);
    }
    for k := 0 to |rows|
      invariant forall i | 0 <= i < k :: rows[i].id < WRAP
      invariant Readable(rows[..k], [])
      invariant s == Hydrated(HotRows(rows[..k], [], facts), facts.lower)
    {
      var row := rows[k];
      if row.id >= WRAP {
        return None;
      }
      NodeStep(rows, k, facts);
      var m, d := facts.meta(row.hash), facts.diagnosis(row.id);
      var at := |s.ids|;
      s := Store(s.ids + [row.id], s.countries + [m.country], s.latencies + [d.latency], s.healths + [d.health],
                 s.protocols + [m.protocol], s.names + [m.name], s.lowered + [facts.lower(m.name)],
                 s.offsets + [0], [], s.index[row.id := at]);
    }
    assert rows[..|rows|] == rows;
    columns := Some(s);
  }

  lemma NoNodes(rows: seq<NodeRow>, facts: Facts)
    requires rows == []
    ensures Readable(rows, []) && Hydrated(HotRows(rows, [], facts), facts.lower) == EMPTY
  {
  }

  lemma NodeStep(rows: seq<NodeRow>, k: nat, facts: Facts)
    requires k < |rows| && Readable(rows[..k], []) && rows[k].id < WRAP
    ensures Readable(rows[..k + 1], [])
    ensures var s := Hydrated(HotRows(rows[..k], [], facts), facts.lower);
            var id, m, d := rows[k].id, facts.meta(rows[k].hash), facts.diagnosis(rows[k].id);
            Hydrated(HotRows(rows[..k + 1], [], facts), facts.lower)
            == Store(s.ids + [id], s.countries + [m.country], s.latencies + [d.latency], s.healths + [d.health],
                     s.protocols + [m.protocol], s.names + [m.name], s.lowered + [facts.lower(m.name)],
                     s.offsets + [0], [], s.index[id := |s.ids|])
  {
    var hot, next := HotRows(rows[..k], [], facts), HotRows(rows[..k + 1], [], facts);
    assert next == hot + [HotRow(rows[k], [], facts)];
    assert next[..|next| - 1] == hot;
    NoSources(hot, facts.lower);
  }

  lemma {:induction false} NoSources(rows: seq<HotNodeRow>, lower: string -> string)
    requires forall k | 0 <= k < |rows| :: rows[k].sources == []
    ensures Build(rows, lower).packed == []
    decreases |rows|
  {
    if rows == [] {
    } else {
      NoSources(rows[..|rows| - 1], lower);
    }
  }

  /** Then the links, each to the position its node id is indexed at; links to unknown nodes are skipped. */
  method ReadLinks(rows: seq<NodeRow>, links: seq<SourceRow>, index: map<U32, nat>)
    returns (sources: Option<seq<seq<U16>>>)
    requires Ascending(rows) && (forall i | 0 <= i < |rows| :: rows[i].id in index && index[rows[i].id] == i)
    requires forall id | id in index :: index[id] < |rows| && rows[index[id]].id == id
    ensures sources.None? <==> exists k :: 0 <= k < |links| && (links[k].node >= WRAP || links[k].sub >= 0x1_0000)
    ensures sources.Some? ==> Collected(sources.value, rows, links)
  {
    var collected: seq<seq<U16>> := seq(|rows|, _ => []);
    assert links[..0] == [];
    for m := 0 to |links|
      invariant Collected(collected, rows, links[..m])
      invariant forall k | 0 <= k < m :: links[k].node < WRAP && links[k].sub < 0x1_0000
    {
      if links[m].node >= WRAP || links[m].sub >= 0x1_0000 {
        return None;
      }
      var node: U32, sub: U16 := links[m].node, links[m].sub;
      if node in index {
        var at := index[node];
        CollectOne(collected, rows, links, m, at, sub);
        collected := collected[at := collected[at] + [sub]];
      } else {
        CollectNone(collected, rows, links, m);
      }
    }
    assert links[..|links|] == links;
    sources := Some(collected);
  }

  /** Last, the subscription ids of all rows end to end behind their offsets. */
  method Pack(sources: seq<seq<U16>>, ghost rows: seq<HotNodeRow>, ghost lower: string -> string)
    returns (offsets: seq<U32>, packed: seq<U16>)
    requires |sources| == |rows| && forall k | 0 <= k < |rows| :: sources[k] == rows[k].sources
    ensures offsets == Build(rows, lower).offsets && packed == Build(rows, lower).packed
  {
    offsets, packed := [0], [];
    for k := 0 to |sources|
      invariant offsets == Build(rows[..k], lower).offsets && packed == Build(rows[..k], lower).packed
    {
      BuildStep(rows, k, lower);
      packed := packed + sources[k];
      offsets := offsets + [|packed| % WRAP];
    }
    assert rows[..|rows|] == rows;
  }

  /** The whole reading: refused exactly when some id does not fit its column. */
  method HydrateFromDb(rows: seq<NodeRow>, links: seq<SourceRow>, facts: Facts) returns (store: Option<Store>)
    requires Ascending(rows)
    ensures store.None? <==> !Readable(rows, links)
    ensures store.Some? ==> store.value == Hydrated(HotRows(rows, links, facts), facts.lower)
  {
    var columns := ReadNodes(rows, facts);
    if columns.None? {
      return None;
    }
    var s := columns.value;
    PositionsByIndex(rows, facts);
    var sources := ReadLinks(rows, links, s.index);
    if sources.None? {
      return None;
    }
    assert Readable(rows, links);
    ghost var hot := HotRows(rows, links, facts);
    SourcesOfRows(sources.value, rows, links, facts);
    var offsets, packed := Pack(sources.value, hot, facts.lower);
    SourcesDoNotMoveColumns(HotRows(rows, [], facts), hot, facts.lower);
    store := Some(s.(offsets := offsets, packed := packed));
  }

  lemma PositionsByIndex(rows: seq<NodeRow>, facts: Facts)
    requires Readable(rows, []) && Ascending(rows)
    ensures var index := Hydrated(HotRows(rows, [], facts), facts.lower).index;
            && (forall i | 0 <= i < |rows| :: rows[i].id in index && index[rows[i].id] == i)
            && (forall id | id in index :: index[id] < |rows| && rows[index[id]].id == id)
  {
    var hot := HotRows(rows, [], facts);
    var s := Build(hot, facts.lower);
    BuildRepresents(hot, facts.lower);
    hide Build;
    forall i | 0 <= i < |rows| ensures s.ids[i] == rows[i].id {
      assert RowAgrees(s, i, hot[i], facts.lower);
    }
    forall i | 0 <= i < |rows| ensures rows[i].id in s.index && s.index[rows[i].id] == i {
      assert s.ids[i] in s.index;
      var at := s.index[s.ids[i]];
      assert s.ids[at] == rows[at].id == rows[i].id;
    }
  }

  lemma SourcesOfRows(sources: seq<seq<U16>>, rows: seq<NodeRow>, links: seq<SourceRow>, facts: Facts)
    requires Readable(rows, links) && Collected(sources, rows, links)
    ensures var hot := HotRows(rows, links, facts);
            forall k | 0 <= k < |rows| :: sources[k] == hot[k].sources
  {
    var hot := HotRows(rows, links, facts);
    forall k | 0 <= k < |rows| ensures sources[k] == hot[k].sources {
      SubsFit(links, rows[k].id);
      assert hot[k].sources == Narrowed(SubsOf(links, rows[k].id));
    }
  }

  /** Rows that differ in their sources only have the same columns and index. */
  lemma {:induction false} SourcesDoNotMoveColumns(a: seq<HotNodeRow>, b: seq<HotNodeRow>, lower: string -> string)
    requires |a| == |b| && forall k | 0 <= k < |a| :: b[k] == a[k].(sources := b[k].sources)
    ensures var x, y := Hydrated(a, lower), Hydrated(b, lower);
            y == x.(offsets := y.offsets, packed := y.packed)
    decreases |a|
  {
    if a == [] {
    } else {
      SourcesDoNotMoveColumns(a[..|a| - 1], b[..|b| - 1], lower);
      assert Healths(a) == Healths(b);
    }
  }

  // ----- against the tables

  /** `ORDER BY` the primary key, and exactly the rows there are. */
  ghost predicate ListsNodes(db: Repository.Db, rows: seq<NodeRow>) {
    && Ascending(rows)
    && forall id, h :: NodeRow(id, h) in rows <==> h in db.nodes && db.nodes[h] == id
  }

  ghost predicate ListsLinks(db: Repository.Db, links: seq<SourceRow>) {
    forall id, sub :: SourceRow(id, sub) in links <==> sub in db.sources && id in db.sources[sub]
  }

  lemma {:induction false} SubsMember(links: seq<SourceRow>, id: nat, sub: nat)
    ensures sub in SubsOf(links, id) <==> SourceRow(id, sub) in links
    decreases |links|
  {
    if links == [] {
    } else {
      var last := links[|links| - 1];
      SubsMember(links[..|links| - 1], id, sub);
      assert links == links[..|links| - 1] + [last];
    }
  }

  lemma HotIdsAreDistinct(rows: seq<NodeRow>, links: seq<SourceRow>, facts: Facts)
    requires Readable(rows, links) && Ascending(rows)
    ensures DistinctIds(HotRows(rows, links, facts))
  {
    var hot := HotRows(rows, links, facts);
    hide HotRows;
    forall i, j | 0 <= i < j < |hot| ensures hot[i].id != hot[j].id {
      assert hot[i] == HotRow(rows[i], links, facts) && hot[j] == HotRow(rows[j], links, facts);
      assert rows[i].id < rows[j].id;
    }
  }

  /** Taking scores over without a cap is building from the rows exactly when no score is above it. */
  lemma UncappedIsBuilt(hot: seq<HotNodeRow>, lower: string -> string)
    ensures Hydrated(hot, lower) == Build(hot, lower) <==> forall k | 0 <= k < |hot| :: hot[k].health <= 100
  {
    BuildRepresents(hot, lower);
    var s := Build(hot, lower);
    hide Build;
    forall k | 0 <= k < |hot| ensures s.healths[k] == Capped(hot[k].health) {
      assert RowAgrees(s, k, hot[k], lower);
    }
    if forall k | 0 <= k < |hot| :: hot[k].health <= 100 {
      assert Healths(hot) == s.healths;
    } else {
      var k :| 0 <= k < |hot| && hot[k].health > 100;
      assert Healths(hot)[k] != s.healths[k];
    }
  }

  /** Scores of at most 100 make it the very store that is built from the rows, and no id repeats. */
  lemma HydratedIsBuilt(rows: seq<NodeRow>, links: seq<SourceRow>, facts: Facts)
    requires Readable(rows, links) && Ascending(rows)
    ensures var hot := HotRows(rows, links, facts);
            && DistinctIds(hot)
            && (Hydrated(hot, facts.lower) == Build(hot, facts.lower) <==>
                  forall k | 0 <= k < |rows| :: facts.diagnosis(rows[k].id).health <= 100)
  {
    var hot := HotRows(rows, links, facts);
    HotIdsAreDistinct(rows, links, facts);
    UncappedIsBuilt(hot, facts.lower);
    forall k | 0 <= k < |rows| ensures hot[k].health == facts.diagnosis(rows[k].id).health {}
    hide Hydrated, Build, HotRows, HotRow;
  }

  /** A row carries a subscription exactly when that subscription last reported the row's hash. */
  lemma SourcesAreReports(db: Repository.Db, rows: seq<NodeRow>, links: seq<SourceRow>, facts: Facts, i: nat, sub: nat)
    requires Repository.Valid(db) && ListsNodes(db, rows) && ListsLinks(db, links) && Readable(rows, links)
    requires i < |rows|
    ensures sub in HotRows(rows, links, facts)[i].sources <==>
            sub in Repository.View(db) && rows[i].hash in Repository.View(db)[sub].hashes
  {
    var row := rows[i];
    assert row in rows && row == NodeRow(row.id, row.hash);
    SubsMember(links, row.id, sub);
    SubsFit(links, row.id);
    var subs, narrow := SubsOf(links, row.id), HotRows(rows, links, facts)[i].sources;
    assert narrow == Narrowed(subs);
    if sub in subs {
      var k :| 0 <= k < |subs| && subs[k] == sub;
      assert narrow[k] == sub;
    }
    assert sub in narrow <==> sub in subs;
    assert sub in subs <==> sub in db.sources && row.id in db.sources[sub];
  }

  // ----- from syncs to the live list

  ghost predicate MetricsOnly(events: seq<Snapshot.Event>) {
    forall e | e in events :: !e.Replace?
  }

  lemma {:induction false} RebaseKeepsSources(model: Snapshot.Catalog, updates: seq<Snapshot.MetricUpdate>, id: U32)
    requires id in model
    ensures id in Snapshot.RebaseAll(model, updates)
    ensures Snapshot.RebaseAll(model, updates)[id].sources == model[id].sources
    decreases |updates|
  {
    if updates == [] {
    } else {
      RebaseKeepsSources(model, updates[..|updates| - 1], id);
    }
  }

  /** Publications and batches move readings about, never nodes or their subscriptions. */
  lemma {:induction false} MetricsKeepSources(first: seq<HotNodeRow>, events: seq<Snapshot.Event>, id: U32)
    requires MetricsOnly(events)
    ensures id in Snapshot.ModelRun(first, events) <==> id in Snapshot.Listed(first)
    ensures id in Snapshot.Listed(first) ==>
              Snapshot.ModelRun(first, events)[id].sources == Snapshot.Listed(first)[id].sources
    decreases |events|
  {
    if events == [] {
    } else {
      var before, e := Snapshot.ModelRun(first, events[..|events| - 1]), events[|events| - 1];
      assert e in events && forall d | d in events[..|events| - 1] :: d in events;
      MetricsKeepSources(first, events[..|events| - 1], id);
      if e.Published? {
        Snapshot.TouchAllKeys(before, e.updates);
        if id in before { Snapshot.TouchAllShows(before, e.updates, id); }
      } else {
        Snapshot.RebaseAllKeys(before, e.updates);
        if id in before { RebaseKeepsSources(before, e.updates, id); }
      }
      hide Snapshot.ModelRun, Snapshot.TouchAll, Snapshot.RebaseAll;
    }
  }

  /** With ids that do not repeat the map holds each row under its own id. */
  lemma {:induction false} ListedByRow(rows: seq<HotNodeRow>, k: nat)
    requires DistinctIds(rows) && k < |rows|
    ensures rows[k].id in Snapshot.Listed(rows) && Snapshot.Listed(rows)[rows[k].id] == Snapshot.CardOf(rows[k])
    decreases |rows|
  {
    if k == |rows| - 1 {
    } else {
      ListedByRow(rows[..|rows| - 1], k);
      assert rows[k].id != rows[|rows| - 1].id;
    }
  }

  lemma {:induction false} ListedHasARow(rows: seq<HotNodeRow>, id: U32) returns (k: nat)
    requires id in Snapshot.Listed(rows)
    ensures k < |rows| && rows[k].id == id
    decreases |rows|
  {
    if rows[|rows| - 1].id == id {
      k := |rows| - 1;
    } else {
      k := ListedHasARow(rows[..|rows| - 1], id);
    }
  }

  lemma EmptySearchAccepts(card: Snapshot.Card, sub: U16, sort: SortCriteria, lower: string -> string)
    requires lower("") == ""
    ensures CatalogView.CardAccepted(card, View("", None, Some(sub), sort), lower) <==> sub in card.sources
  {
    assert OccursAt(lower(card.name), "", 0);
  }

  /** The accepted ids of a subscription are the ids of the nodes it reported. */
  lemma AcceptedIsReported(db: Repository.Db, rows: seq<NodeRow>, links: seq<SourceRow>, facts: Facts,
                           events: seq<Snapshot.Event>, sub: U16, sort: SortCriteria, id: U32)
    requires Repository.Valid(db) && ListsNodes(db, rows) && ListsLinks(db, links) && Readable(rows, links)
    requires MetricsOnly(events) && facts.lower("") == ""
    ensures var model := Snapshot.ModelRun(HotRows(rows, links, facts), events);
            id in model && CatalogView.CardAccepted(model[id], View("", None, Some(sub), sort), facts.lower) <==>
              && sub in Repository.View(db)
              && exists h :: h in Repository.View(db)[sub].hashes && h in db.nodes && db.nodes[h] == id
  {
    var hot := HotRows(rows, links, facts);
    var model := Snapshot.ModelRun(hot, events);
    HydratedIsBuilt(rows, links, facts);
    MetricsKeepSources(hot, events, id);
    hide Snapshot.ModelRun, Repository.View, HotRows, Hydrated, CatalogView.CardAccepted, Repository.Valid;
    if id in model {
      EmptySearchAccepts(model[id], sub, sort, facts.lower);
      var k := ListedHasARow(hot, id);
      ListedByRow(hot, k);
      SourcesAreReports(db, rows, links, facts, k, sub);
      assert rows[k] in rows && rows[k] == NodeRow(id, rows[k].hash);
      forall h | h in db.nodes && db.nodes[h] == id ensures h == rows[k].hash {
        assert NodeRow(id, h) in rows;
        var m :| 0 <= m < |rows| && rows[m] == NodeRow(id, h);
      }
    } else {
      forall h | h in db.nodes && db.nodes[h] == id ensures false {
        assert NodeRow(id, h) in rows;
        var m :| 0 <= m < |rows| && rows[m] == NodeRow(id, h);
        ListedByRow(hot, m);
      }
    }
  }

  /** While no store is replaced, the live list names the accepted ids of the rows it started from. */
  lemma ListedAreAccepted(first: seq<HotNodeRow>, events: seq<Snapshot.Event>, view: View, lower: string -> string,
                          id: U32)
    requires MetricsOnly(events) && DistinctIds(first) && |Packed(first)| < WRAP
    ensures var s := Snapshot.Run(first, events, lower);
            var list := QueryWithMetrics(s.store, s.metrics, view, lower);
            && (forall k | 0 <= k < |list| :: list[k] < |s.store.ids|)
            && (id in CatalogView.IdsAt(s.store, list) <==>
                  id in Snapshot.ModelRun(first, events)
                  && CatalogView.CardAccepted(Snapshot.ModelRun(first, events)[id], view, lower))
  {
    assert forall e | e in events && e.Replace? :: false;
    CatalogView.ListIsDecidedByThePlainMap(first, events, view, lower);
    hide QueryWithMetrics, Snapshot.ModelRun, CatalogView.CardAccepted, Packed, DistinctIds;
  }

  /**
   The catalog from end to end: after any run of syncs, a hydration of the tables and
   any metrics published or batched since, the live list of a subscription names
   exactly the nodes of its last accepted report, in the order of their readings.
   */
  lemma LiveListIsTheLastReport(requests: seq<Repository.Request>, unused: Repository.Allocator, rows: seq<NodeRow>,
                                links: seq<SourceRow>, facts: Facts, events: seq<Snapshot.Event>, sub: U16,
                                sort: SortCriteria, id: U32)
    requires Repository.Allocates(unused) && MetricsOnly(events) && facts.lower("") == ""
    requires ListsNodes(Repository.Run(Repository.EMPTY, requests, unused), rows)
    requires ListsLinks(Repository.Run(Repository.EMPTY, requests, unused), links)
    requires Readable(rows, links) && |Packed(HotRows(rows, links, facts))| < WRAP
    requires forall k | 0 <= k < |rows| :: facts.diagnosis(rows[k].id).health <= 100
    ensures Snapshot.Run(HotRows(rows, links, facts), [], facts.lower)
         == Snapshot.Served(Hydrated(HotRows(rows, links, facts), facts.lower))
    ensures var db := Repository.Run(Repository.EMPTY, requests, unused);
            var s := Snapshot.Run(HotRows(rows, links, facts), events, facts.lower);
            var list := QueryWithMetrics(s.store, s.metrics, View("", None, Some(sub), sort), facts.lower);
            && (forall k | 0 <= k < |list| :: list[k] < |s.store.ids|)
            && (id in CatalogView.IdsAt(s.store, list) <==>
                  && sub in Repository.ModelRun(requests)
                  && exists h :: h in Repository.ModelRun(requests)[sub].hashes && h in db.nodes && db.nodes[h] == id)
  {
    var db, hot := Repository.Run(Repository.EMPTY, requests, unused), HotRows(rows, links, facts);
    Repository.RunsRefineTheMap(requests, unused);
    HydratedIsBuilt(rows, links, facts);
    AcceptedIsReported(db, rows, links, facts, events, sub, sort, id);
    hide *;
    ListedAreAccepted(hot, events, View("", None, Some(sub), sort), facts.lower, id);
  }
}
