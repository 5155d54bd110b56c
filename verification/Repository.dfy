/**
 The catalog tables and the sync of one subscription into them. A node is known
 by its canonical hash; the database picks any unused id for a new one.
 */
module Repository {
  import opened Wrappers

  type Hash = nat
  type NodeId = nat
  type SubId = nat

  /**
   The nodes table by its unique hash, the links by subscription, the
   subscriptions' uuids, and the diagnostics rows.
   */
  datatype Db = Db(
    nodes: map<Hash, NodeId>,
    sources: map<SubId, set<NodeId>>,
    subscriptions: map<SubId, string>,
    diagnostics: set<NodeId>)

  datatype Refusal = EmptySnapshot | UuidTaken

  datatype SyncResult = SyncResult(inserted: nat, linked: nat, removed: nat)

  type Allocator = set<NodeId> -> NodeId

  ghost predicate Allocates(unused: Allocator) {
    forall used :: unused(used) !in used
  }

  function Hashes(report: seq<Hash>): (r: set<Hash>)
    ensures forall h :: h in r <==> h in report
  {
    set h | h in report
  }

  /** Every reported hash gets a row; a hash that has one keeps it. */
  function Intern(nodes: map<Hash, NodeId>, report: seq<Hash>, unused: Allocator): map<Hash, NodeId> {
    if report == [] then nodes
    else
      var last := |report| - 1;
      var before := Intern(nodes, report[..last], unused);
      if report[last] in before then before else before[report[last] := unused(before.Values)]
  }

  lemma InternStep(nodes: map<Hash, NodeId>, report: seq<Hash>, k: nat, unused: Allocator)
    requires k < |report|
    ensures var before := Intern(nodes, report[..k], unused);
            Intern(nodes, report[..k + 1], unused)
            == if report[k] in before then before else before[report[k] := unused(before.Values)]
    ensures Hashes(report[..k + 1]) == Hashes(report[..k]) + {report[k]}
  {
    assert report[..k + 1][..k] == report[..k];
    assert report[..k + 1] == report[..k] + [report[k]];
  }

  lemma {:induction false} InternKeys(nodes: map<Hash, NodeId>, report: seq<Hash>, unused: Allocator)
    ensures Intern(nodes, report, unused).Keys == nodes.Keys + Hashes(report)
    ensures forall h | h in nodes :: Intern(nodes, report, unused)[h] == nodes[h]
    decreases |report|
  {
    if report == [] {
    } else {
      var last := |report| - 1;
      InternKeys(nodes, report[..last], unused);
      assert report == report[..last] + [report[last]];
    }
  }

  function IdsOf(nodes: map<Hash, NodeId>, hashes: set<Hash>): (r: set<NodeId>)
    requires hashes <= nodes.Keys
    ensures forall h | h in hashes :: nodes[h] in r
    ensures forall id | id in r :: exists h :: h in hashes && nodes[h] == id
  {
    set h | h in hashes :: nodes[h]
  }

  predicate Referenced(id: NodeId, sources: map<SubId, set<NodeId>>) {
    exists sub :: sub in sources && id in sources[sub]
  }

  function Collect(nodes: map<Hash, NodeId>, sources: map<SubId, set<NodeId>>): (r: map<Hash, NodeId>)
    ensures forall h :: h in r <==> h in nodes && Referenced(nodes[h], sources)
    ensures forall h | h in r :: r[h] == nodes[h]
  {
    map h | h in nodes && Referenced(nodes[h], sources) :: nodes[h]
  }

  predicate UuidConflict(db: Db, sub: SubId, uuid: string) {
    exists other :: other in db.subscriptions && other != sub && db.subscriptions[other] == uuid
  }

  /** The tables once `sub` is linked to `hashes` instead, with orphans collected. */
  function Relink(db: Db, interned: map<Hash, NodeId>, sub: SubId, uuid: string, hashes: set<Hash>): Db
    requires hashes <= interned.Keys
  {
    var sources := db.sources[sub := IdsOf(interned, hashes)];
    var nodes := Collect(interned, sources);
    Db(nodes, sources, db.subscriptions[sub := uuid], interned.Values * nodes.Values)
  }

  /** One transaction: refused as a whole or applied as a whole. */
  function Sync(db: Db, sub: SubId, uuid: string, report: seq<Hash>, allowEmpty: bool, unused: Allocator)
    : (Db, Result<SyncResult, Refusal>)
  {
    if report == [] && !allowEmpty then (db, Err(EmptySnapshot))
    else if UuidConflict(db, sub, uuid) then (db, Err(UuidTaken))
    else
      InternKeys(db.nodes, report, unused);
      var interned := Intern(db.nodes, report, unused);
      var after := Relink(db, interned, sub, uuid, Hashes(report));
      CollectShrinks(interned, after.sources);
      InternGrows(db.nodes, report, unused);
      (after, Ok(SyncResult(|interned| - |db.nodes|, |Hashes(report)|, |interned| - |after.nodes|)))
  }

  lemma AcceptedSync(db: Db, sub: SubId, uuid: string, report: seq<Hash>, allowEmpty: bool, unused: Allocator)
    requires (report != [] || allowEmpty) && !UuidConflict(db, sub, uuid)
    ensures Hashes(report) <= Intern(db.nodes, report, unused).Keys
    ensures var interned := Intern(db.nodes, report, unused);
            var (after, result) := Sync(db, sub, uuid, report, allowEmpty, unused);
            && after == Relink(db, interned, sub, uuid, Hashes(report))
            && result.Ok?
            && result.value.inserted == |interned| - |db.nodes|
            && result.value.linked == |Hashes(report)|
            && result.value.removed == |interned| - |after.nodes|
  {
    InternKeys(db.nodes, report, unused);
  }

  lemma CollectShrinks(nodes: map<Hash, NodeId>, sources: map<SubId, set<NodeId>>)
    ensures |Collect(nodes, sources)| <= |nodes|
  {
    SubsetSize(Collect(nodes, sources).Keys, nodes.Keys);
  }

  lemma InternGrows(nodes: map<Hash, NodeId>, report: seq<Hash>, unused: Allocator)
    ensures |nodes| <= |Intern(nodes, report, unused)|
  {
    InternKeys(nodes, report, unused);
    SubsetSize(nodes.Keys, Intern(nodes, report, unused).Keys);
  }

  lemma {:induction false} SubsetSize<T>(a: set<T>, b: set<T>)
    requires a <= b
    ensures |a| <= |b|
    decreases a
  {
    if x :| x in a {
      SubsetSize(a - {x}, b - {x});
    }
  }

  // ----- the catalog as a map from subscriptions to hashes

  ghost predicate Injective(nodes: map<Hash, NodeId>) {
    forall g, h | g in nodes && h in nodes && nodes[g] == nodes[h] :: g == h
  }

  ghost predicate UuidsUnique(subscriptions: map<SubId, string>) {
    forall s, t | s in subscriptions && t in subscriptions && subscriptions[s] == subscriptions[t] :: s == t
  }

  /** Ids are primary keys, links join existing rows, every node is linked and has diagnostics. */
  ghost predicate Valid(db: Db) {
    && Injective(db.nodes)
    && db.sources.Keys == db.subscriptions.Keys
    && (forall sub | sub in db.sources :: db.sources[sub] <= db.nodes.Values)
    && (forall h | h in db.nodes :: Referenced(db.nodes[h], db.sources))
    && db.diagnostics == db.nodes.Values
    && UuidsUnique(db.subscriptions)
  }

  /** What the catalog amounts to: each subscription's uuid and hashes. */
  datatype Entry = Entry(uuid: string, hashes: set<Hash>)

  /** The hashes behind a set of ids. */
  function HashesOf(nodes: map<Hash, NodeId>, ids: set<NodeId>): (r: set<Hash>)
    ensures forall h :: h in r <==> h in nodes && nodes[h] in ids
  {
    set h | h in nodes && nodes[h] in ids
  }

  function View(db: Db): map<SubId, Entry>
    requires db.sources.Keys == db.subscriptions.Keys
  {
    map sub | sub in db.subscriptions :: Entry(db.subscriptions[sub], HashesOf(db.nodes, db.sources[sub]))
  }

  lemma {:induction false} InternInjective(nodes: map<Hash, NodeId>, report: seq<Hash>, unused: Allocator)
    requires Allocates(unused) && Injective(nodes)
    ensures Injective(Intern(nodes, report, unused))
    decreases |report|
  {
    if report == [] {
    } else {
      var last := |report| - 1;
      InternInjective(nodes, report[..last], unused);
      var before := Intern(nodes, report[..last], unused);
      var id := unused(before.Values);
      assert id !in before.Values;
      AddKeepsInjective(before, report[last], id);
    }
  }

  lemma AddKeepsInjective(nodes: map<Hash, NodeId>, hash: Hash, id: NodeId)
    requires Injective(nodes) && id !in nodes.Values
    ensures Injective(nodes[hash := id])
  {
    var r := nodes[hash := id];
    forall g, h | g in r && h in r && r[g] == r[h] ensures g == h {
      if g != hash { assert nodes[g] in nodes.Values; }
      if h != hash { assert nodes[h] in nodes.Values; }
    }
  }

  /** The hashes behind linked ids are the same in a catalog that only grew. */
  lemma GrowthKeepsHashes(nodes: map<Hash, NodeId>, grown: map<Hash, NodeId>, ids: set<NodeId>)
    requires Injective(grown) && nodes.Keys <= grown.Keys && forall h | h in nodes :: grown[h] == nodes[h]
    requires ids <= nodes.Values
    ensures HashesOf(grown, ids) == HashesOf(nodes, ids)
  {
    forall h | h in HashesOf(grown, ids) ensures h in HashesOf(nodes, ids) {
      assert grown[h] in nodes.Values;
      var g :| g in nodes && nodes[g] == grown[h];
      assert grown[g] == grown[h];
    }
  }

  lemma HashesOfIds(nodes: map<Hash, NodeId>, hashes: set<Hash>)
    requires Injective(nodes) && hashes <= nodes.Keys
    ensures HashesOf(nodes, IdsOf(nodes, hashes)) == hashes
  {
    forall h | h in HashesOf(nodes, IdsOf(nodes, hashes)) ensures h in hashes {
      var g :| g in hashes && nodes[g] == nodes[h];
    }
  }

  /** Collecting orphans never touches a linked row. */
  lemma CollectKeepsLinked(nodes: map<Hash, NodeId>, sources: map<SubId, set<NodeId>>, sub: SubId)
    requires sub in sources
    ensures HashesOf(Collect(nodes, sources), sources[sub]) == HashesOf(nodes, sources[sub])
  {
    forall h | h in HashesOf(nodes, sources[sub]) ensures h in Collect(nodes, sources) {
      assert Referenced(nodes[h], sources);
    }
  }

  lemma CollectKeepsIds(nodes: map<Hash, NodeId>, sources: map<SubId, set<NodeId>>, sub: SubId)
    requires sub in sources && sources[sub] <= nodes.Values
    ensures sources[sub] <= Collect(nodes, sources).Values
  {
    forall id | id in sources[sub] ensures id in Collect(nodes, sources).Values {
      var h :| h in nodes && nodes[h] == id;
      assert Referenced(nodes[h], sources);
      assert Collect(nodes, sources)[h] == id;
    }
  }

  lemma GrowthKeepsValues(nodes: map<Hash, NodeId>, grown: map<Hash, NodeId>)
    requires nodes.Keys <= grown.Keys && forall h | h in nodes :: grown[h] == nodes[h]
    ensures nodes.Values <= grown.Values
  {
    forall id | id in nodes.Values ensures id in grown.Values {
      var h :| h in nodes && nodes[h] == id;
      assert grown[h] == id;
    }
  }

  /** `interned` is the nodes table with rows for `hashes` as well. */
  ghost predicate Grown(nodes: map<Hash, NodeId>, interned: map<Hash, NodeId>, hashes: set<Hash>) {
    && interned.Keys == nodes.Keys + hashes
    && (forall h | h in nodes :: interned[h] == nodes[h])
    && Injective(interned)
  }

  lemma InternGrown(nodes: map<Hash, NodeId>, report: seq<Hash>, unused: Allocator)
    requires Allocates(unused) && Injective(nodes)
    ensures Grown(nodes, Intern(nodes, report, unused), Hashes(report))
  {
    InternKeys(nodes, report, unused);
    InternInjective(nodes, report, unused);
  }

  lemma RelinkKeepsLinks(db: Db, interned: map<Hash, NodeId>, sub: SubId, uuid: string, hashes: set<Hash>,
                         other: SubId)
    requires Valid(db) && Grown(db.nodes, interned, hashes)
    requires other in Relink(db, interned, sub, uuid, hashes).sources
    ensures Relink(db, interned, sub, uuid, hashes).sources[other]
         <= Relink(db, interned, sub, uuid, hashes).nodes.Values
  {
    var after := Relink(db, interned, sub, uuid, hashes);
    GrowthKeepsValues(db.nodes, interned);
    if other == sub {
      forall id | id in after.sources[sub] ensures id in interned.Values {
        var h :| h in hashes && interned[h] == id;
      }
    }
    CollectKeepsIds(interned, after.sources, other);
  }

  lemma CollectKeepsInjective(nodes: map<Hash, NodeId>, sources: map<SubId, set<NodeId>>)
    requires Injective(nodes)
    ensures Injective(Collect(nodes, sources)) && Collect(nodes, sources).Values <= nodes.Values
  {
    var r := Collect(nodes, sources);
    forall id | id in r.Values ensures id in nodes.Values {
      var h :| h in r && r[h] == id;
      assert nodes[h] == id;
    }
  }

  lemma UpsertKeepsUuidsUnique(db: Db, sub: SubId, uuid: string)
    requires UuidsUnique(db.subscriptions) && !UuidConflict(db, sub, uuid)
    ensures UuidsUnique(db.subscriptions[sub := uuid])
  {
  }

  lemma RelinkKeepsValid(db: Db, interned: map<Hash, NodeId>, sub: SubId, uuid: string, hashes: set<Hash>)
    requires Valid(db) && Grown(db.nodes, interned, hashes) && !UuidConflict(db, sub, uuid)
    ensures Valid(Relink(db, interned, sub, uuid, hashes))
  {
    var after := Relink(db, interned, sub, uuid, hashes);
    CollectKeepsInjective(interned, after.sources);
    UpsertKeepsUuidsUnique(db, sub, uuid);
    forall other | other in after.sources ensures after.sources[other] <= after.nodes.Values {
      RelinkKeepsLinks(db, interned, sub, uuid, hashes, other);
    }
  }

  lemma SyncKeepsValid(db: Db, sub: SubId, uuid: string, report: seq<Hash>, allowEmpty: bool, unused: Allocator)
    requires Valid(db) && Allocates(unused)
    ensures Valid(Sync(db, sub, uuid, report, allowEmpty, unused).0)
  {
    InternGrown(db.nodes, report, unused);
    hide Valid, Grown;
    if Sync(db, sub, uuid, report, allowEmpty, unused).1.Ok? {
      RelinkKeepsValid(db, Intern(db.nodes, report, unused), sub, uuid, Hashes(report));
    }
  }

  /** A refused sync, whatever the reason, changes nothing at all. */
  lemma RefusalChangesNothing(db: Db, sub: SubId, uuid: string, report: seq<Hash>, allowEmpty: bool,
                              unused: Allocator)
    ensures var (after, result) := Sync(db, sub, uuid, report, allowEmpty, unused);
            && (result.Err? ==> after == db)
            && (result.Err? <==> (report == [] && !allowEmpty) || UuidConflict(db, sub, uuid))
  {
  }

  lemma LinkedAfterRelink(db: Db, interned: map<Hash, NodeId>, sub: SubId, uuid: string, hashes: set<Hash>,
                          other: SubId)
    requires Valid(db) && Grown(db.nodes, interned, hashes)
    requires other in Relink(db, interned, sub, uuid, hashes).sources
    ensures HashesOf(Relink(db, interned, sub, uuid, hashes).nodes,
                     Relink(db, interned, sub, uuid, hashes).sources[other])
         == if other == sub then hashes else HashesOf(db.nodes, db.sources[other])
  {
    CollectKeepsLinked(interned, Relink(db, interned, sub, uuid, hashes).sources, other);
    if other == sub {
      HashesOfIds(interned, hashes);
    } else {
      GrowthKeepsHashes(db.nodes, interned, db.sources[other]);
    }
  }

  lemma RelinkView(db: Db, interned: map<Hash, NodeId>, sub: SubId, uuid: string, hashes: set<Hash>)
    requires Valid(db) && Grown(db.nodes, interned, hashes)
    ensures Relink(db, interned, sub, uuid, hashes).sources.Keys
         == Relink(db, interned, sub, uuid, hashes).subscriptions.Keys
    ensures View(Relink(db, interned, sub, uuid, hashes)) == View(db)[sub := Entry(uuid, hashes)]
    ensures hashes <= Relink(db, interned, sub, uuid, hashes).nodes.Keys
  {
    var after := Relink(db, interned, sub, uuid, hashes);
    forall other | other in after.subscriptions
      ensures View(after)[other] == View(db)[sub := Entry(uuid, hashes)][other]
    {
      LinkedAfterRelink(db, interned, sub, uuid, hashes, other);
    }
    LinkedAfterRelink(db, interned, sub, uuid, hashes, sub);
  }

  lemma SizesAddUp(known: set<Hash>, reported: set<Hash>, kept: set<Hash>)
    requires reported <= kept <= known + reported
    ensures |known + reported| == |known| + |reported - known|
    ensures |known + reported| == |kept| + |known - kept|
  {
    assert known + reported == known + (reported - known);
    assert known + reported == kept + (known - kept);
  }

  lemma RelinkAccounts(db: Db, interned: map<Hash, NodeId>, sub: SubId, uuid: string, hashes: set<Hash>)
    requires Valid(db) && Grown(db.nodes, interned, hashes)
    ensures var nodes := Relink(db, interned, sub, uuid, hashes).nodes;
            && (forall h | h in db.nodes && h in nodes :: nodes[h] == db.nodes[h])
            && |interned| == |db.nodes| + |hashes - db.nodes.Keys|
            && |interned| == |nodes| + |db.nodes.Keys - nodes.Keys|
  {
    var after := Relink(db, interned, sub, uuid, hashes);
    RelinkView(db, interned, sub, uuid, hashes);
    SizesAddUp(db.nodes.Keys, hashes, after.nodes.Keys);
    assert |interned| == |interned.Keys| && |db.nodes| == |db.nodes.Keys| && |after.nodes| == |after.nodes.Keys|;
  }

  lemma RelinkReplaces(db: Db, interned: map<Hash, NodeId>, sub: SubId, uuid: string, hashes: set<Hash>,
                       after: Db, counts: SyncResult)
    requires Valid(db) && Grown(db.nodes, interned, hashes) && hashes <= interned.Keys
    requires after == Relink(db, interned, sub, uuid, hashes)
    requires counts.inserted == |interned| - |db.nodes| && counts.removed == |interned| - |after.nodes|
    ensures after.sources.Keys == after.subscriptions.Keys && db.sources.Keys == db.subscriptions.Keys
    ensures View(after) == View(db)[sub := Entry(uuid, hashes)]
    ensures forall h | h in db.nodes && h in after.nodes :: after.nodes[h] == db.nodes[h]
    ensures |after.nodes| == |db.nodes| + counts.inserted - counts.removed
    ensures counts.inserted == |hashes - db.nodes.Keys|
    ensures counts.removed == |db.nodes.Keys - after.nodes.Keys|
  {
    RelinkView(db, interned, sub, uuid, hashes);
    RelinkAccounts(db, interned, sub, uuid, hashes);
    hide Grown, View, Relink;
  }

  /**
   An accepted sync replaces exactly one subscription's hashes: its links become
   the report, every other subscription keeps its own, ids persist for hashes
   that stay, and the counts it returns account for the catalog's new size.
   */
  lemma SyncReplacesOneSubscription(db: Db, sub: SubId, uuid: string, report: seq<Hash>, allowEmpty: bool,
                                    unused: Allocator)
    requires Valid(db) && Allocates(unused)
    requires (report != [] || allowEmpty) && !UuidConflict(db, sub, uuid)
    ensures var (after, result) := Sync(db, sub, uuid, report, allowEmpty, unused);
            && result.Ok?
            && after.sources.Keys == after.subscriptions.Keys
            && View(after) == View(db)[sub := Entry(uuid, Hashes(report))]
            && (forall h | h in db.nodes && h in after.nodes :: after.nodes[h] == db.nodes[h])
            && |after.nodes| == |db.nodes| + result.value.inserted - result.value.removed
            && result.value.inserted == |Hashes(report) - db.nodes.Keys|
            && result.value.removed == |db.nodes.Keys - after.nodes.Keys|
            && result.value.linked == |Hashes(report)|
  {
    InternGrown(db.nodes, report, unused);
    AcceptedSync(db, sub, uuid, report, allowEmpty, unused);
    var synced := Sync(db, sub, uuid, report, allowEmpty, unused);
    var interned := Intern(db.nodes, report, unused);
    hide *;
    RelinkReplaces(db, interned, sub, uuid, Hashes(report), synced.0, synced.1.value);
  }

  /** In a valid catalog the nodes are exactly the union of what the subscriptions report. */
  lemma CatalogIsTheUnion(db: Db, h: Hash)
    requires Valid(db)
    ensures h in db.nodes <==> exists sub :: sub in View(db) && h in View(db)[sub].hashes
  {
    if h in db.nodes {
      var sub :| sub in db.sources && db.nodes[h] in db.sources[sub];
      assert h in View(db)[sub].hashes;
    }
  }

  // ----- runs of syncs

  datatype Request = Request(sub: SubId, uuid: string, report: seq<Hash>, allowEmpty: bool)

  function Run(db: Db, requests: seq<Request>, unused: Allocator): Db
    decreases |requests|
  {
    if requests == [] then db
    else
      var last := |requests| - 1;
      var r := requests[last];
      Sync(Run(db, requests[..last], unused), r.sub, r.uuid, r.report, r.allowEmpty, unused).0
  }

  predicate Clashes(model: map<SubId, Entry>, r: Request) {
    exists other :: other in model && other != r.sub && model[other].uuid == r.uuid
  }

  /** The same sync on a plain map from subscriptions to their last accepted report. */
  function ModelSync(model: map<SubId, Entry>, r: Request): map<SubId, Entry> {
    if r.report == [] && !r.allowEmpty then model
    else if Clashes(model, r) then model
    else model[r.sub := Entry(r.uuid, Hashes(r.report))]
  }

  function ModelRun(requests: seq<Request>): map<SubId, Entry>
    decreases |requests|
  {
    if requests == [] then map[]
    else ModelSync(ModelRun(requests[..|requests| - 1]), requests[|requests| - 1])
  }

  const EMPTY := Db(map[], map[], map[], {})

  lemma SyncRefinesModel(db: Db, r: Request, unused: Allocator)
    requires Valid(db) && Allocates(unused)
    ensures Valid(Sync(db, r.sub, r.uuid, r.report, r.allowEmpty, unused).0)
    ensures View(Sync(db, r.sub, r.uuid, r.report, r.allowEmpty, unused).0) == ModelSync(View(db), r)
  {
    SyncKeepsValid(db, r.sub, r.uuid, r.report, r.allowEmpty, unused);
    RefusalChangesNothing(db, r.sub, r.uuid, r.report, r.allowEmpty, unused);
    ConflictsShow(db, r);
    var (after, result) := Sync(db, r.sub, r.uuid, r.report, r.allowEmpty, unused);
    assert after.sources.Keys == after.subscriptions.Keys;
    hide Sync, View, UuidConflict, Clashes, Valid, Hashes;
    if result.Ok? {
      SyncReplacesOneSubscription(db, r.sub, r.uuid, r.report, r.allowEmpty, unused);
    }
  }

  /** After any run of syncs the tables are the plain map, with exact links and no orphan. */
  lemma {:induction false} RunsRefineTheMap(requests: seq<Request>, unused: Allocator)
    requires Allocates(unused)
    ensures Valid(Run(EMPTY, requests, unused))
    ensures View(Run(EMPTY, requests, unused)) == ModelRun(requests)
    decreases |requests|
  {
    if requests == [] {
    } else {
      var last := |requests| - 1;
      RunsRefineTheMap(requests[..last], unused);
      SyncRefinesModel(Run(EMPTY, requests[..last], unused), requests[last], unused);
      hide Sync, View, ModelSync;
    }
  }

  lemma ConflictsShow(db: Db, r: Request)
    requires db.sources.Keys == db.subscriptions.Keys
    ensures UuidConflict(db, r.sub, r.uuid) <==> Clashes(View(db), r)
  {
    if UuidConflict(db, r.sub, r.uuid) {
      var other :| other in db.subscriptions && other != r.sub && db.subscriptions[other] == r.uuid;
      assert View(db)[other].uuid == r.uuid;
    }
  }

  // ----- the tables updated row by row

  class NodeRepository {
    var nodes: map<Hash, NodeId>
    var sources: map<SubId, set<NodeId>>
    var subscriptions: map<SubId, string>
    var diagnostics: set<NodeId>

    ghost function Tables(): Db
      reads this
    {
      Db(nodes, sources, subscriptions, diagnostics)
    }

    constructor ()
      ensures Tables() == EMPTY
    {
      nodes, sources, subscriptions, diagnostics := map[], map[], map[], {};
    }

    /** Insert unless the hash is there, look the id up, and make sure of its diagnostics row. */
    method EnsureNode(hash: Hash, unused: Allocator) returns (inserted: bool, id: NodeId)
      requires diagnostics == nodes.Values
      modifies `nodes, `diagnostics
      ensures nodes == if hash in old(nodes) then old(nodes) else old(nodes)[hash := unused(old(nodes).Values)]
      ensures inserted <==> hash !in old(nodes)
      ensures id == nodes[hash]
      ensures diagnostics == nodes.Values
      ensures |nodes| == |old(nodes)| + if inserted then 1 else 0
    {
      inserted := hash !in nodes;
      ghost var before := nodes;
      if inserted {
        nodes := nodes[hash := unused(nodes.Values)];
      }
      id := nodes[hash];
      diagnostics := diagnostics + {id};
      InsertedRow(before, nodes, hash);
    }

    /** Inserts what is missing, skipping repeats within the report. */
    method EnsureNodes(report: seq<Hash>, unused: Allocator) returns (inserted: nat, linked: set<NodeId>)
      requires diagnostics == nodes.Values
      modifies `nodes, `diagnostics
      ensures nodes == Intern(old(nodes), report, unused)
      ensures Hashes(report) <= nodes.Keys && linked == IdsOf(nodes, Hashes(report))
      ensures diagnostics == nodes.Values
      ensures |nodes| == |old(nodes)| + inserted
    {
      var seen: set<Hash> := {};
      inserted, linked := 0, {};
      assert report[..0] == [];
      hide Intern;
      for k := 0 to |report|
        invariant nodes == Intern(old(nodes), report[..k], unused)
        invariant seen == Hashes(report[..k]) <= nodes.Keys && linked == IdsOf(nodes, seen)
        invariant diagnostics == nodes.Values
        invariant |nodes| == |old(nodes)| + inserted
      {
        var hash := report[k];
        InternStep(old(nodes), report, k, unused);
        if hash !in seen {
          ghost var before := nodes;
          var added, id := EnsureNode(hash, unused);
          LinkedGrows(before, nodes, seen, hash);
          seen := seen + {hash};
          linked := linked + {id};
          inserted := inserted + if added then 1 else 0;
        }
      }
      assert report[..|report|] == report;
    }

    /** Swaps the subscription's links and deletes every node no subscription links to. */
    method ReplaceLinks(sub: SubId, linked: set<NodeId>) returns (removed: nat)
      requires diagnostics == nodes.Values
      modifies `sources, `nodes, `diagnostics
      ensures sources == old(sources)[sub := linked]
      ensures nodes == Collect(old(nodes), sources)
      ensures diagnostics == old(nodes).Values * nodes.Values
      ensures |old(nodes)| == |nodes| + removed
    {
      sources := sources[sub := linked];
      var kept := Collect(nodes, sources);
      CollectShrinks(nodes, sources);
      removed := |nodes| - |kept|;
      nodes := kept;
      diagnostics := diagnostics * nodes.Values;
    }

    method UuidIsTaken(sub: SubId, uuid: string) returns (taken: bool)
      ensures taken <==> UuidConflict(Tables(), sub, uuid)
    {
      taken := exists other | other in subscriptions :: other != sub && subscriptions[other] == uuid;
    }

    /** The statements of the transaction in turn. */
    method Transact(sub: SubId, uuid: string, report: seq<Hash>, unused: Allocator) returns (counts: SyncResult)
      requires Valid(Tables()) && Allocates(unused)
      modifies this
      ensures Synced(old(Tables()), sub, uuid, report, unused, Tables(), counts)
    {
      ghost var db := Tables();
      InternGrown(db.nodes, report, unused);
      assert diagnostics == nodes.Values;
      hide Intern, Valid, Grown, Relink, Collect, IdsOf, Hashes, Allocates, Injective, Synced;
      subscriptions := subscriptions[sub := uuid];
      var inserted, linked := EnsureNodes(report, unused);
      ghost var interned := nodes;
      var removed := ReplaceLinks(sub, linked);
      counts := SyncResult(inserted, |linked|, removed);
      TransactedAs(db, interned, sub, uuid, report, unused, linked, Tables(), counts);
    }

    /** A refusal leaves every table alone. */
    method SyncSubscription(sub: SubId, uuid: string, report: seq<Hash>, allowEmpty: bool, unused: Allocator)
      returns (result: Result<SyncResult, Refusal>)
      requires Valid(Tables()) && Allocates(unused)
      modifies this
      ensures (Tables(), result) == Sync(old(Tables()), sub, uuid, report, allowEmpty, unused)
    {
      ghost var db := Tables();
      RefusedSync(db, sub, uuid, report, allowEmpty, unused);
      hide Sync, Valid, UuidConflict, Synced;
      if report == [] && !allowEmpty {
        return Err(EmptySnapshot);
      }
      var taken := UuidIsTaken(sub, uuid);
      if taken {
        return Err(UuidTaken);
      }
      var counts := Transact(sub, uuid, report, unused);
      SyncedAs(db, sub, uuid, report, allowEmpty, unused, Tables(), counts);
      result := Ok(counts);
    }
  }

  /** The state and the counts an accepted sync leaves. */
  ghost predicate Synced(db: Db, sub: SubId, uuid: string, report: seq<Hash>, unused: Allocator, after: Db,
                         counts: SyncResult)
  {
    var interned := Intern(db.nodes, report, unused);
    && Hashes(report) <= interned.Keys
    && after == Relink(db, interned, sub, uuid, Hashes(report))
    && counts.linked == |Hashes(report)|
    && |interned| == |db.nodes| + counts.inserted == |after.nodes| + counts.removed
  }

  lemma RelinkedTables(db: Db, interned: map<Hash, NodeId>, sub: SubId, uuid: string, hashes: set<Hash>,
                       linked: set<NodeId>, after: Db)
    requires Grown(db.nodes, interned, hashes) && linked == IdsOf(interned, hashes)
    requires after.sources == db.sources[sub := linked] && after.nodes == Collect(interned, after.sources)
    requires after.subscriptions == db.subscriptions[sub := uuid]
    requires after.diagnostics == interned.Values * after.nodes.Values
    ensures after == Relink(db, interned, sub, uuid, hashes)
    ensures |linked| == |hashes|
  {
    IdCount(interned, hashes);
  }

  lemma TransactedAs(db: Db, interned: map<Hash, NodeId>, sub: SubId, uuid: string, report: seq<Hash>,
                     unused: Allocator, linked: set<NodeId>, after: Db, counts: SyncResult)
    requires interned == Intern(db.nodes, report, unused) && Grown(db.nodes, interned, Hashes(report))
    requires linked == IdsOf(interned, Hashes(report))
    requires after.sources == db.sources[sub := linked] && after.nodes == Collect(interned, after.sources)
    requires after.subscriptions == db.subscriptions[sub := uuid]
    requires after.diagnostics == interned.Values * after.nodes.Values
    requires counts.linked == |linked| && |interned| == |db.nodes| + counts.inserted == |after.nodes| + counts.removed
    ensures Synced(db, sub, uuid, report, unused, after, counts)
  {
    assert Hashes(report) <= interned.Keys;
    RelinkedTables(db, interned, sub, uuid, Hashes(report), linked, after);
    hide Intern, Grown, Relink, Collect, IdsOf, Hashes;
  }

  lemma SyncedAs(db: Db, sub: SubId, uuid: string, report: seq<Hash>, allowEmpty: bool, unused: Allocator,
                 after: Db, counts: SyncResult)
    requires (report != [] || allowEmpty) && !UuidConflict(db, sub, uuid)
    requires Synced(db, sub, uuid, report, unused, after, counts)
    ensures Sync(db, sub, uuid, report, allowEmpty, unused) == (after, Ok(counts))
  {
    AcceptedSync(db, sub, uuid, report, allowEmpty, unused);
    var synced := Sync(db, sub, uuid, report, allowEmpty, unused);
    hide Sync, Intern, Relink, UuidConflict, Hashes, Collect;
    assert synced.0 == after;
    assert synced.1.value == counts;
  }

  lemma RefusedSync(db: Db, sub: SubId, uuid: string, report: seq<Hash>, allowEmpty: bool, unused: Allocator)
    ensures report == [] && !allowEmpty ==>
            Sync(db, sub, uuid, report, allowEmpty, unused) == (db, Err(EmptySnapshot))
    ensures (report != [] || allowEmpty) && UuidConflict(db, sub, uuid) ==>
            Sync(db, sub, uuid, report, allowEmpty, unused) == (db, Err(UuidTaken))
  {
  }

  lemma InsertedRow(before: map<Hash, NodeId>, nodes: map<Hash, NodeId>, hash: Hash)
    requires hash in nodes && nodes == before[hash := nodes[hash]] && (hash in before ==> nodes == before)
    ensures nodes.Values == before.Values + {nodes[hash]}
    ensures |nodes| == |before| + if hash in before then 0 else 1
  {
    assert nodes.Keys == before.Keys + {hash};
    assert |nodes| == |nodes.Keys| && |before| == |before.Keys|;
    forall id | id in before.Values ensures id in nodes.Values {
      var h :| h in before && before[h] == id;
      assert nodes[h] == id;
    }
    assert nodes[hash] in nodes.Values;
    forall id | id in nodes.Values ensures id in before.Values + {nodes[hash]} {
      var h :| h in nodes && nodes[h] == id;
      assert h != hash ==> before[h] == id;
    }
  }

  lemma LinkedGrows(before: map<Hash, NodeId>, nodes: map<Hash, NodeId>, seen: set<Hash>, hash: Hash)
    requires hash in nodes && nodes == before[hash := nodes[hash]] && (hash in before ==> nodes == before)
    requires seen <= before.Keys && hash !in seen
    ensures IdsOf(nodes, seen + {hash}) == IdsOf(before, seen) + {nodes[hash]}
  {
  }

  /** Distinct hashes have distinct ids, so there is a link per reported hash. */
  lemma {:induction false} IdCount(nodes: map<Hash, NodeId>, hashes: set<Hash>)
    requires Injective(nodes) && hashes <= nodes.Keys
    ensures |IdsOf(nodes, hashes)| == |hashes|
    decreases hashes
  {
    if h :| h in hashes {
      IdCount(nodes, hashes - {h});
      assert IdsOf(nodes, hashes) == IdsOf(nodes, hashes - {h}) + {nodes[h]};
      assert nodes[h] !in IdsOf(nodes, hashes - {h});
    }
  }
}
