/**
 The structure-of-arrays node store: one column per field, the subscription ids
 of all rows packed end to end behind 32-bit offsets, and a map from node id to
 column position.
 */
module DenseStore {
  import opened Wrappers

  type U8 = n: nat | n < 0x100
  type U16 = n: nat | n < 0x1_0000
  type U32 = n: nat | n < WRAP

  const WRAP := 0x1_0000_0000

  type Country = s: string | |s| == 2 witness "UN"

  datatype ProtocolKind = Vless | Vmess | Trojan | Shadowsocks | Hysteria2 | Tuic | WireGuard

  datatype HotNodeRow = HotNodeRow(
    id: U32,
    country: Country,
    latency: U16,
    health: U8,
    name: string,
    protocol: ProtocolKind,
    sources: seq<U16>)

  datatype Store = Store(
    ids: seq<U32>,
    countries: seq<Country>,
    latencies: seq<U16>,
    healths: seq<U8>,
    protocols: seq<ProtocolKind>,
    names: seq<string>,
    lowered: seq<string>,
    offsets: seq<U32>,
    packed: seq<U16>,
    index: map<U32, nat>)

  const EMPTY := Store([], [], [], [], [], [], [], [0], [], map[])

  function Capped(health: U8): (r: U8)
    ensures r <= 100 && r <= health && (r == health || r == 100)
  {
    if health < 100 then health else 100
  }

  /** One row pushed onto every column. The offset is cast to 32 bits. */
  function Pushed(s: Store, row: HotNodeRow, lower: string -> string): Store {
    Store(s.ids + [row.id], s.countries + [row.country], s.latencies + [row.latency],
          s.healths + [Capped(row.health)], s.protocols + [row.protocol],
          s.names + [row.name], s.lowered + [lower(row.name)],
          s.offsets + [|s.packed + row.sources| % WRAP], s.packed + row.sources,
          s.index[row.id := |s.ids|])
  }

  function Build(rows: seq<HotNodeRow>, lower: string -> string): Store
    decreases |rows|
  {
    if rows == [] then EMPTY
    else Pushed(Build(rows[..|rows| - 1], lower), rows[|rows| - 1], lower)
  }

  lemma BuildStep(rows: seq<HotNodeRow>, k: nat, lower: string -> string)
    requires k < |rows|
    ensures Build(rows[..k + 1], lower) == Pushed(Build(rows[..k], lower), rows[k], lower)
  {
    assert rows[..k + 1][..k] == rows[..k];
  }

  method FromHotRows(rows: seq<HotNodeRow>, lower: string -> string) returns (store: Store)
    ensures store == Build(rows, lower)
    ensures Represents(store, rows, lower)
  {
    var ids: seq<U32>, countries: seq<Country>, latencies: seq<U16>, healths: seq<U8> := [], [], [], [];
    var protocols: seq<ProtocolKind>, names: seq<string>, lowered: seq<string> := [], [], [];
    var offsets: seq<U32>, packed: seq<U16>, index: map<U32, nat> := [0], [], map[];
    for k := 0 to |rows|
      invariant Store(ids, countries, latencies, healths, protocols, names, lowered, offsets, packed, index)
             == Build(rows[..k], lower)
    {
      BuildStep(rows, k, lower);
      var row := rows[k];
      var at := |ids|;
      ids := ids + [row.id];
      countries := countries + [row.country];
      latencies := latencies + [row.latency];
      healths := healths + [Capped(row.health)];
      protocols := protocols + [row.protocol];
      lowered := lowered + [lower(row.name)];
      names := names + [row.name];
      index := index[ids[at] := at];
      packed := packed + row.sources;
      offsets := offsets + [|packed| % WRAP];
    }
    assert rows[..|rows|] == rows;
    store := Store(ids, countries, latencies, healths, protocols, names, lowered, offsets, packed, index);
    BuildRepresents(rows, lower);
  }

  // ----- what the columns amount to

  function Packed(rows: seq<HotNodeRow>): seq<U16>
    decreases |rows|
  {
    if rows == [] then [] else Packed(rows[..|rows| - 1]) + rows[|rows| - 1].sources
  }

  ghost predicate SameLengths(s: Store) {
    |s.countries| == |s.latencies| == |s.healths| == |s.protocols| == |s.names| == |s.lowered| == |s.ids|
  }

  ghost predicate RowAgrees(s: Store, i: nat, row: HotNodeRow, lower: string -> string)
    requires SameLengths(s) && i < |s.ids|
  {
    && s.ids[i] == row.id && s.countries[i] == row.country && s.latencies[i] == row.latency
    && s.healths[i] == Capped(row.health) && s.protocols[i] == row.protocol
    && s.names[i] == row.name && s.lowered[i] == lower(row.name)
  }

  /** A repeated id is found at its last row. */
  ghost predicate IndexesLast(index: map<U32, nat>, ids: seq<U32>) {
    && (forall i | 0 <= i < |ids| :: ids[i] in index && i <= index[ids[i]])
    && (forall id | id in index :: index[id] < |ids| && ids[index[id]] == id)
  }

  ghost predicate Represents(s: Store, rows: seq<HotNodeRow>, lower: string -> string) {
    && SameLengths(s) && |s.ids| == |rows|
    && (forall i: nat | i < |rows| :: RowAgrees(s, i, rows[i], lower))
    && IndexesLast(s.index, s.ids)
    && s.packed == Packed(rows)
    && |s.offsets| == |rows| + 1
    && (forall i | 0 <= i <= |rows| :: s.offsets[i] == |Packed(rows[..i])| % WRAP)
  }

  lemma PushKeepsIndex(index: map<U32, nat>, ids: seq<U32>, id: U32)
    requires IndexesLast(index, ids)
    ensures IndexesLast(index[id := |ids|], ids + [id])
  {
  }

  lemma PushKeepsOffsets(s: Store, rows: seq<HotNodeRow>, row: HotNodeRow, lower: string -> string, i: nat)
    requires |s.offsets| == |rows| + 1 && s.packed == Packed(rows)
    requires forall i | 0 <= i <= |rows| :: s.offsets[i] == |Packed(rows[..i])| % WRAP
    requires i <= |rows| + 1
    ensures Pushed(s, row, lower).offsets[i] == |Packed((rows + [row])[..i])| % WRAP
  {
    if i <= |rows| {
      assert (rows + [row])[..i] == rows[..i];
    } else {
      assert (rows + [row])[..i] == rows + [row];
      assert (rows + [row])[..|rows|] == rows;
    }
  }

  lemma PushRepresents(s: Store, rows: seq<HotNodeRow>, row: HotNodeRow, lower: string -> string)
    requires Represents(s, rows, lower)
    ensures Represents(Pushed(s, row, lower), rows + [row], lower)
  {
    var after := Pushed(s, row, lower);
    assert SameLengths(after);
    forall i: nat | i < |rows| + 1 ensures RowAgrees(after, i, (rows + [row])[i], lower) {
      assert i < |rows| ==> RowAgrees(s, i, rows[i], lower);
    }
    PushKeepsIndex(s.index, s.ids, row.id);
    forall i: nat | i <= |rows| + 1 ensures after.offsets[i] == |Packed((rows + [row])[..i])| % WRAP {
      PushKeepsOffsets(s, rows, row, lower, i);
    }
    assert (rows + [row])[..|rows|] == rows;
  }

  lemma {:induction false} BuildRepresents(rows: seq<HotNodeRow>, lower: string -> string)
    ensures Represents(Build(rows, lower), rows, lower)
    decreases |rows|
  {
    if rows == [] {
    } else {
      var last := |rows| - 1;
      assert rows[..last] + [rows[last]] == rows;
      hide Represents, Pushed;
      BuildRepresents(rows[..last], lower);
      PushRepresents(Build(rows[..last], lower), rows[..last], rows[last], lower);
    }
  }

  // ----- lookups

  function IndexOf(s: Store, id: U32): Option<nat> {
    if id in s.index then Some(s.index[id]) else None
  }

  ghost predicate DistinctIds(rows: seq<HotNodeRow>) {
    forall i, j | 0 <= i < j < |rows| :: rows[i].id != rows[j].id
  }

  /** The last row of an id is found, and an id without a row is not. */
  lemma LookupFindsTheLastRow(rows: seq<HotNodeRow>, lower: string -> string, id: U32, i: nat)
    ensures IndexOf(Build(rows, lower), id) == Some(i) <==>
            i < |rows| && rows[i].id == id && forall j | i < j < |rows| :: rows[j].id != id
  {
    BuildRepresents(rows, lower);
    var s := Build(rows, lower);
    hide Build;
    if i < |rows| { assert RowAgrees(s, i, rows[i], lower); }
    if id in s.index {
      assert RowAgrees(s, s.index[id], rows[s.index[id]], lower);
      forall j | s.index[id] < j < |rows| ensures rows[j].id != id {
        assert RowAgrees(s, j, rows[j], lower);
      }
    }
  }

  /** Looking up and reading the id column are inverse exactly when no id repeats. */
  lemma LookupInvertsExactlyWhenDistinct(rows: seq<HotNodeRow>, lower: string -> string)
    ensures DistinctIds(rows) <==>
            forall i: nat | i < |rows| :: IndexOf(Build(rows, lower), rows[i].id) == Some(i)
  {
    forall i: nat | i < |rows|
      ensures IndexOf(Build(rows, lower), rows[i].id) == Some(i)
         <==> forall j | i < j < |rows| :: rows[j].id != rows[i].id
    {
      LookupFindsTheLastRow(rows, lower, rows[i].id, i);
    }
    hide Build;
    if forall i: nat | i < |rows| :: IndexOf(Build(rows, lower), rows[i].id) == Some(i) {
      forall i, j | 0 <= i < j < |rows| ensures rows[i].id != rows[j].id {
        assert IndexOf(Build(rows, lower), rows[i].id) == Some(i);
      }
    }
  }

  /** The slice `has_source` searches; `None` where slicing would panic. */
  function SourcesAt(s: Store, i: nat): Option<seq<U16>>
    requires i + 1 < |s.offsets|
  {
    var start, end := s.offsets[i], s.offsets[i + 1];
    if start <= end <= |s.packed| then Some(s.packed[start..end]) else None
  }

  predicate HasSource(s: Store, i: nat, sub: U16)
    requires i + 1 < |s.offsets|
  {
    SourcesAt(s, i).Some? && sub in SourcesAt(s, i).value
  }

  lemma {:induction false} PackedSlice(rows: seq<HotNodeRow>, i: nat)
    requires i < |rows|
    ensures |Packed(rows[..i + 1])| == |Packed(rows[..i])| + |rows[i].sources|
    ensures |Packed(rows[..i + 1])| <= |Packed(rows)|
    ensures Packed(rows)[|Packed(rows[..i])|..|Packed(rows[..i + 1])|] == rows[i].sources
    decreases |rows|
  {
    var last := |rows| - 1;
    if i == last {
      assert rows[..i + 1] == rows;
    } else {
      PackedSlice(rows[..last], i);
      assert rows[..last][..i + 1] == rows[..i + 1] && rows[..last][..i] == rows[..i];
    }
  }

  lemma OffsetBelowWrap(s: Store, rows: seq<HotNodeRow>, lower: string -> string, i: nat)
    requires Represents(s, rows, lower) && i <= |rows| && |Packed(rows[..i])| < WRAP
    ensures s.offsets[i] == |Packed(rows[..i])| && s.packed == Packed(rows)
  {
  }

  lemma SliceBelowWrap(s: Store, rows: seq<HotNodeRow>, lower: string -> string, i: nat)
    requires Represents(s, rows, lower) && i < |rows| && |Packed(rows[..i + 1])| < WRAP
    ensures SourcesAt(s, i) == Some(rows[i].sources)
  {
    PackedSlice(rows, i);
    OffsetBelowWrap(s, rows, lower, i);
    OffsetBelowWrap(s, rows, lower, i + 1);
    hide Represents, Packed;
  }

  lemma {:induction false} FirstWrapped(rows: seq<HotNodeRow>, k: nat) returns (i: nat)
    requires k <= |rows| && |Packed(rows[..k])| >= WRAP
    ensures i < k && |Packed(rows[..i])| < WRAP <= |Packed(rows[..i + 1])|
  {
    assert k != 0 by { assert rows[..0] == []; }
    if |Packed(rows[..k - 1])| < WRAP {
      i := k - 1;
    } else {
      i := FirstWrapped(rows, k - 1);
    }
  }

  /** Where the packed list outgrows 32 bits, the row it happens in reads back wrong. */
  lemma WrappedSlice(s: Store, rows: seq<HotNodeRow>, lower: string -> string, i: nat)
    requires Represents(s, rows, lower) && i < |rows|
    requires |Packed(rows[..i])| < WRAP <= |Packed(rows[..i + 1])|
    ensures SourcesAt(s, i) != Some(rows[i].sources)
  {
    PackedSlice(rows, i);
    OffsetBelowWrap(s, rows, lower, i);
    assert s.offsets[i + 1] == |Packed(rows[..i + 1])| % WRAP < WRAP;
    assert SourcesAt(s, i).Some? ==> |SourcesAt(s, i).value| + s.offsets[i] == s.offsets[i + 1];
  }

  /** Every row reads back its own subscriptions exactly when their total fits the offsets. */
  lemma SourcesReadBackExactlyBelowWrap(rows: seq<HotNodeRow>, lower: string -> string)
    ensures |Build(rows, lower).offsets| == |rows| + 1
    ensures (forall i: nat | i < |rows| :: SourcesAt(Build(rows, lower), i) == Some(rows[i].sources))
       <==> |Packed(rows)| < WRAP
  {
    var s := Build(rows, lower);
    BuildRepresents(rows, lower);
    hide Build;
    assert rows[..|rows|] == rows;
    if |Packed(rows)| < WRAP {
      forall i: nat | i < |rows| ensures SourcesAt(s, i) == Some(rows[i].sources) {
        PackedSlice(rows, i);
        SliceBelowWrap(s, rows, lower, i);
      }
    } else {
      var i := FirstWrapped(rows, |rows|);
      WrappedSlice(s, rows, lower, i);
    }
  }

  /** A row with 2^32 subscriptions reads back as having none. */
  lemma WrappedRowLosesItsSources(row: HotNodeRow, lower: string -> string, sub: U16)
    requires |row.sources| == WRAP && sub in row.sources
    ensures |Build([row], lower).offsets| == 2
    ensures SourcesAt(Build([row], lower), 0) == Some([]) && !HasSource(Build([row], lower), 0, sub)
  {
    BuildStep([row], 0, lower);
    assert [row][..1] == [row] && [row][..0] == [];
    assert Build([row], lower) == Pushed(EMPTY, row, lower);
  }

  // ----- metrics

  function UpdateMetrics(s: Store, id: U32, latency: U16, health: U8): Store
    requires SameLengths(s) && IndexesLast(s.index, s.ids)
  {
    if id in s.index then
      s.(latencies := s.latencies[s.index[id] := latency], healths := s.healths[s.index[id] := Capped(health)])
    else s
  }

  /** The hot columns, aligned with a store by position. */
  datatype Arena = Arena(latencies: seq<U16>, healths: seq<U8>, verified: seq<bool>)

  function FromStore(s: Store): Arena {
    Arena(s.latencies, s.healths, seq(|s.ids|, _ => false))
  }

  /** A position outside the arena is ignored. */
  function ApplyUpdate(a: Arena, i: nat, latency: U16, health: U8, verified: bool): Arena
    requires |a.healths| == |a.latencies| == |a.verified|
  {
    if i >= |a.latencies| then a
    else Arena(a.latencies[i := latency], a.healths[i := Capped(health)], a.verified[i := verified])
  }
}
