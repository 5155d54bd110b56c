/** Filtering and ordering the dense store into the list of rows a view shows. */
module Query {
  import opened Wrappers
  import opened Sorting
  import opened DenseStore

  const UNTESTED: U16 := 0xffff

  datatype SortCriteria = LatencyAsc | LatencyDesc | CountryAsc | NameAsc | HealthScoreDesc

  datatype View = View(search: string, country: Option<Country>, sub: Option<U16>, sort: SortCriteria)

  datatype Ordering = Less | Equal | Greater

  function Flip(o: Ordering): Ordering {
    match o
    case Less => Greater
    case Equal => Equal
    case Greater => Less
  }

  /** Ties of the first comparison are settled by the second. */
  function ThenBy(first: Ordering, second: Ordering): Ordering {
    if first == Equal then second else first
  }

  function CompareNat(a: nat, b: nat): Ordering {
    if a < b then Less else if a == b then Equal else Greater
  }

  function CompareText(a: string, b: string): Ordering {
    if a == [] then if b == [] then Equal else Less
    else if b == [] then Greater
    else if a[0] != b[0] then if a[0] < b[0] then Less else Greater
    else CompareText(a[1..], b[1..])
  }

  /** Untested readings compare above tested ones. */
  function LatencyOrder(left: U16, right: U16): Ordering {
    if left == UNTESTED && right == UNTESTED then Equal
    else if left == UNTESTED then Greater
    else if right == UNTESTED then Less
    else CompareNat(left, right)
  }

  /** The sentinel is the largest reading, so its special cases change nothing. */
  lemma SentinelNeedsNoCases(left: U16, right: U16)
    ensures LatencyOrder(left, right) == CompareNat(left, right)
  {
  }

  function KeyCompare(s: Store, sort: SortCriteria, latency: nat -> U16, health: nat -> U8, a: nat, b: nat): Ordering
    requires SameLengths(s) && a < |s.ids| && b < |s.ids|
  {
    match sort
    case LatencyAsc => LatencyOrder(latency(a), latency(b))
    case LatencyDesc => LatencyOrder(latency(b), latency(a))
    case CountryAsc => CompareText(s.countries[a], s.countries[b])
    case NameAsc => CompareText(s.names[a], s.names[b])
    case HealthScoreDesc => CompareNat(health(b), health(a))
  }

  function Compare(s: Store, sort: SortCriteria, latency: nat -> U16, health: nat -> U8, a: nat, b: nat): Ordering
    requires SameLengths(s) && a < |s.ids| && b < |s.ids|
  {
    ThenBy(KeyCompare(s, sort, latency, health, a, b), CompareNat(s.ids[a], s.ids[b]))
  }

  predicate OccursAt(text: string, part: string, i: nat) {
    i + |part| <= |text| && text[i..i + |part|] == part
  }

  predicate Contains(text: string, part: string) {
    exists i: nat | i <= |text| :: OccursAt(text, part, i)
  }

  predicate Accepts(s: Store, view: View, lower: string -> string, i: nat)
    requires SameLengths(s) && |s.offsets| == |s.ids| + 1 && i < |s.ids|
  {
    && (view.sub.Some? ==> HasSource(s, i, view.sub.value))
    && (view.country.Some? ==> s.countries[i] == view.country.value)
    && (lower(view.search) == "" || Contains(s.lowered[i], lower(view.search)))
  }

  function AcceptedBelow(s: Store, view: View, lower: string -> string, n: nat): (r: seq<nat>)
    requires SameLengths(s) && |s.offsets| == |s.ids| + 1 && n <= |s.ids|
    ensures forall k | 0 <= k < |r| :: r[k] < n
  {
    if n == 0 then []
    else AcceptedBelow(s, view, lower, n - 1) + if Accepts(s, view, lower, n - 1) then [n - 1] else []
  }

  function NotAfter(s: Store, sort: SortCriteria, latency: nat -> U16, health: nat -> U8): (nat, nat) -> bool
    requires SameLengths(s)
  {
    (a: nat, b: nat) => a < |s.ids| && b < |s.ids| && Compare(s, sort, latency, health, a, b) != Greater
  }

  function RunQuery(s: Store, view: View, lower: string -> string, latency: nat -> U16, health: nat -> U8): seq<nat>
    requires SameLengths(s) && |s.offsets| == |s.ids| + 1
  {
    Sort(AcceptedBelow(s, view, lower, |s.ids|), NotAfter(s, view.sort, latency, health))
  }

  function ColumnOr<T>(column: seq<T>, missing: T): nat -> T {
    (i: nat) => if i < |column| then column[i] else missing
  }

  /** The store's own readings; a position outside its columns is never asked for. */
  function StoreQuery(s: Store, view: View, lower: string -> string): seq<nat>
    requires SameLengths(s) && |s.offsets| == |s.ids| + 1
  {
    RunQuery(s, view, lower, ColumnOr(s.latencies, 0), ColumnOr(s.healths, 0))
  }

  /** The arena's readings; a position it lacks reads as untested and unhealthy. */
  function QueryWithMetrics(s: Store, metrics: Arena, view: View, lower: string -> string): seq<nat>
    requires SameLengths(s) && |s.offsets| == |s.ids| + 1
  {
    RunQuery(s, view, lower, ColumnOr(metrics.latencies, UNTESTED), ColumnOr(metrics.healths, 0))
  }

  // ----- what the comparison says

  /** `a` ends where `b` goes on, or has the smaller character where they first differ. */
  ghost predicate Precedes(a: string, b: string) {
    exists k: nat | k <= |a| && k < |b| :: a[..k] == b[..k] && (k == |a| || a[k] < b[k])
  }

  lemma SamePrefixSameFirst(a: string, b: string)
    ensures forall k | 0 < k <= |a| && k <= |b| && a[..k] == b[..k] :: a[0] == b[0]
  {
    forall k | 0 < k <= |a| && k <= |b| && a[..k] == b[..k] ensures a[0] == b[0] {
      assert a[..k][0] == b[..k][0];
    }
  }

  lemma {:induction false} TextOrder(a: string, b: string)
    ensures CompareText(a, b) == Less <==> Precedes(a, b)
    decreases |a|
  {
    if a == [] || b == [] || a[0] != b[0] {
      assert a[..0] == b[..0];
      SamePrefixSameFirst(a, b);
    } else {
      TextOrder(a[1..], b[1..]);
      if Precedes(a[1..], b[1..]) {
        var k: nat :| && k <= |a[1..]| && k < |b[1..]| && a[1..][..k] == b[1..][..k]
                      && (k == |a[1..]| || a[1..][k] < b[1..][k]);
        assert a[..k + 1] == [a[0]] + a[1..][..k] && b[..k + 1] == [b[0]] + b[1..][..k];
      }
      if Precedes(a, b) {
        var k: nat :| k <= |a| && k < |b| && a[..k] == b[..k] && (k == |a| || a[k] < b[k]);
        assert k > 0;
        assert a[1..][..k - 1] == a[..k][1..] && b[1..][..k - 1] == b[..k][1..];
      }
    }
  }

  /** What a row is sorted by. */
  datatype Keys = Keys(latency: U16, health: U8, country: string, name: string, id: U32)

  /** Low latency, early country or name, or high health comes first, as the view asks; then the lower id. */
  ghost predicate Earlier(sort: SortCriteria, a: Keys, b: Keys) {
    match sort
    case LatencyAsc => a.latency < b.latency || (a.latency == b.latency && a.id < b.id)
    case LatencyDesc => b.latency < a.latency || (a.latency == b.latency && a.id < b.id)
    case CountryAsc => Precedes(a.country, b.country) || (a.country == b.country && a.id < b.id)
    case NameAsc => Precedes(a.name, b.name) || (a.name == b.name && a.id < b.id)
    case HealthScoreDesc => b.health < a.health || (a.health == b.health && a.id < b.id)
  }

  function KeysAt(s: Store, latency: nat -> U16, health: nat -> U8, i: nat): Keys
    requires SameLengths(s) && i < |s.ids|
  {
    Keys(latency(i), health(i), s.countries[i], s.names[i], s.ids[i])
  }

  lemma CompareReads(s: Store, sort: SortCriteria, latency: nat -> U16, health: nat -> U8, a: nat, b: nat)
    requires SameLengths(s) && a < |s.ids| && b < |s.ids|
    ensures Compare(s, sort, latency, health, a, b) == Less
       <==> Earlier(sort, KeysAt(s, latency, health, a), KeysAt(s, latency, health, b))
  {
    match sort
    case LatencyAsc => SentinelNeedsNoCases(latency(a), latency(b));
    case LatencyDesc => SentinelNeedsNoCases(latency(b), latency(a));
    case CountryAsc =>
      TextOrder(s.countries[a], s.countries[b]);
      TextLaws(s.countries[a], s.countries[b], s.countries[a]);
    case NameAsc =>
      TextOrder(s.names[a], s.names[b]);
      TextLaws(s.names[a], s.names[b], s.names[a]);
    case HealthScoreDesc =>
  }

  /** The search term stands somewhere in the text, anything before and after it. */
  lemma ContainsAnywhere(text: string, part: string)
    ensures Contains(text, part) <==> exists before, after :: text == before + part + after
  {
    if i: nat :| i <= |text| && OccursAt(text, part, i) {
      assert text == text[..i] + part + text[i + |part|..];
    }
    if before, after :| text == before + part + after {
      assert OccursAt(text, part, |before|);
    }
  }

  // ----- the comparison is a total order

  /** How three comparisons of a total order fit together. */
  predicate Composes(ab: Ordering, bc: Ordering, ac: Ordering) {
    && (ab != Greater && bc != Greater ==> ac == ThenBy(ab, bc))
    && (ab != Less && bc != Less ==> ac == ThenBy(ab, bc))
  }

  lemma {:induction false} TextLaws(a: string, b: string, c: string)
    ensures CompareText(b, a) == Flip(CompareText(a, b))
    ensures CompareText(a, b) == Equal <==> a == b
    ensures Composes(CompareText(a, b), CompareText(b, c), CompareText(a, c))
    decreases |a| + |b| + |c|
  {
    if a != [] && b != [] && c != [] {
      TextLaws(a[1..], b[1..], c[1..]);
      assert a == [a[0]] + a[1..] && b == [b[0]] + b[1..];
    } else if a != [] && b != [] {
      TextLaws(a[1..], b[1..], c);
      assert a == [a[0]] + a[1..] && b == [b[0]] + b[1..];
    }
  }

  lemma KeyLaws(s: Store, sort: SortCriteria, latency: nat -> U16, health: nat -> U8, a: nat, b: nat, c: nat)
    requires SameLengths(s) && a < |s.ids| && b < |s.ids| && c < |s.ids|
    ensures KeyCompare(s, sort, latency, health, b, a) == Flip(KeyCompare(s, sort, latency, health, a, b))
    ensures Composes(KeyCompare(s, sort, latency, health, a, b), KeyCompare(s, sort, latency, health, b, c),
                     KeyCompare(s, sort, latency, health, a, c))
  {
    match sort
    case CountryAsc => TextLaws(s.countries[a], s.countries[b], s.countries[c]);
    case NameAsc => TextLaws(s.names[a], s.names[b], s.names[c]);
    case LatencyAsc =>
    case LatencyDesc =>
    case HealthScoreDesc =>
  }

  lemma CompareLaws(s: Store, sort: SortCriteria, latency: nat -> U16, health: nat -> U8, a: nat, b: nat, c: nat)
    requires SameLengths(s) && a < |s.ids| && b < |s.ids| && c < |s.ids|
    ensures Compare(s, sort, latency, health, b, a) == Flip(Compare(s, sort, latency, health, a, b))
    ensures Compare(s, sort, latency, health, a, b) == Equal ==> s.ids[a] == s.ids[b]
    ensures Composes(Compare(s, sort, latency, health, a, b), Compare(s, sort, latency, health, b, c),
                     Compare(s, sort, latency, health, a, c))
  {
    KeyLaws(s, sort, latency, health, a, b, c);
    hide KeyCompare;
  }

  ghost predicate DistinctIdColumn(s: Store) {
    forall i, j | 0 <= i < j < |s.ids| :: s.ids[i] != s.ids[j]
  }

  lemma NotAfterIsAnOrder(s: Store, sort: SortCriteria, latency: nat -> U16, health: nat -> U8, rows: seq<nat>)
    requires SameLengths(s) && forall k | 0 <= k < |rows| :: rows[k] < |s.ids|
    ensures TotalPreorderOn(NotAfter(s, sort, latency, health), rows)
    ensures DistinctIdColumn(s) ==> AntisymmetricOn(NotAfter(s, sort, latency, health), rows)
  {
    var le := NotAfter(s, sort, latency, health);
    forall a, b | a in rows && b in rows ensures le(a, b) || le(b, a) {
      CompareLaws(s, sort, latency, health, a, b, a);
    }
    forall a, b, c | a in rows && b in rows && c in rows && le(a, b) && le(b, c) ensures le(a, c) {
      CompareLaws(s, sort, latency, health, a, b, c);
    }
    if DistinctIdColumn(s) {
      forall a, b | a in rows && b in rows && le(a, b) && le(b, a) ensures a == b {
        CompareLaws(s, sort, latency, health, a, b, a);
      }
    }
  }

  // ----- what a query returns

  lemma {:induction false} AcceptedMembers(s: Store, view: View, lower: string -> string, n: nat, i: nat)
    requires SameLengths(s) && |s.offsets| == |s.ids| + 1 && n <= |s.ids|
    ensures i in AcceptedBelow(s, view, lower, n) <==> i < n && Accepts(s, view, lower, i)
  {
    if n == 0 {
    } else {
      AcceptedMembers(s, view, lower, n - 1, i);
    }
  }

  lemma {:induction false} AcceptedDistinct(s: Store, view: View, lower: string -> string, n: nat)
    requires SameLengths(s) && |s.offsets| == |s.ids| + 1 && n <= |s.ids|
    ensures Distinct(AcceptedBelow(s, view, lower, n))
  {
    if n == 0 {
    } else {
      AcceptedDistinct(s, view, lower, n - 1);
    }
  }

  lemma DistinctSameElements<T>(s: seq<T>, t: seq<T>)
    requires Distinct(s) && Distinct(t) && forall x :: x in s <==> x in t
    ensures multiset(s) == multiset(t)
  {
    DistinctCounts(s);
    DistinctCounts(t);
    forall x ensures multiset(s)[x] == multiset(t)[x] {
      if x !in s {
        assert x !in multiset(s) && x !in multiset(t);
      }
    }
  }

  ghost predicate ListsAccepted(s: Store, view: View, lower: string -> string, rows: seq<nat>)
    requires SameLengths(s) && |s.offsets| == |s.ids| + 1
  {
    forall i: nat :: i in rows <==> i < |s.ids| && Accepts(s, view, lower, i)
  }

  ghost predicate StrictlyOrdered(s: Store, sort: SortCriteria, latency: nat -> U16, health: nat -> U8, rows: seq<nat>)
    requires SameLengths(s)
  {
    && (forall p | 0 <= p < |rows| :: rows[p] < |s.ids|)
    && (forall p, q | 0 <= p < q < |rows| :: Compare(s, sort, latency, health, rows[p], rows[q]) == Less)
  }

  /** `rows` lists what the filter accepts, in strictly increasing order. */
  ghost predicate Answers(s: Store, view: View, lower: string -> string, latency: nat -> U16, health: nat -> U8,
                          rows: seq<nat>)
    requires SameLengths(s) && |s.offsets| == |s.ids| + 1
  {
    ListsAccepted(s, view, lower, rows) && StrictlyOrdered(s, view.sort, latency, health, rows)
  }

  lemma AnswerIsSorted(s: Store, view: View, lower: string -> string, latency: nat -> U16, health: nat -> U8,
                       rows: seq<nat>)
    requires SameLengths(s) && |s.offsets| == |s.ids| + 1
    requires Answers(s, view, lower, latency, health, rows)
    ensures multiset(rows) == multiset(AcceptedBelow(s, view, lower, |s.ids|))
    ensures SortedBy(NotAfter(s, view.sort, latency, health), rows)
  {
    var all := AcceptedBelow(s, view, lower, |s.ids|);
    forall p, q | 0 <= p < q < |rows| ensures rows[p] != rows[q] {
      CompareLaws(s, view.sort, latency, health, rows[p], rows[q], rows[p]);
    }
    AcceptedDistinct(s, view, lower, |s.ids|);
    forall i: nat ensures i in rows <==> i in all {
      AcceptedMembers(s, view, lower, |s.ids|, i);
    }
    DistinctSameElements(rows, all);
  }

  lemma SortedIsAnswer(s: Store, view: View, lower: string -> string, latency: nat -> U16, health: nat -> U8,
                       rows: seq<nat>)
    requires SameLengths(s) && |s.offsets| == |s.ids| + 1 && DistinctIdColumn(s)
    requires multiset(rows) == multiset(AcceptedBelow(s, view, lower, |s.ids|))
    requires SortedBy(NotAfter(s, view.sort, latency, health), rows)
    ensures Answers(s, view, lower, latency, health, rows)
  {
    var all := AcceptedBelow(s, view, lower, |s.ids|);
    SameElements(rows, all);
    AcceptedDistinct(s, view, lower, |s.ids|);
    PermutationDistinct(all, rows);
    forall i: nat ensures i in rows <==> i < |s.ids| && Accepts(s, view, lower, i) {
      AcceptedMembers(s, view, lower, |s.ids|, i);
    }
    forall p | 0 <= p < |rows| ensures rows[p] < |s.ids| {
      assert rows[p] in rows;
    }
    forall p, q | 0 <= p < q < |rows| ensures Compare(s, view.sort, latency, health, rows[p], rows[q]) == Less {
      assert NotAfter(s, view.sort, latency, health)(rows[p], rows[q]);
      CompareLaws(s, view.sort, latency, health, rows[p], rows[q], rows[p]);
      assert s.ids[rows[p]] != s.ids[rows[q]];
    }
  }

  /** A query returns the one list of accepted rows in strictly increasing order. */
  lemma QueryIsTheSortedFilter(s: Store, view: View, lower: string -> string, latency: nat -> U16, health: nat -> U8,
                               rows: seq<nat>)
    requires SameLengths(s) && |s.offsets| == |s.ids| + 1 && DistinctIdColumn(s)
    ensures rows == RunQuery(s, view, lower, latency, health) <==> Answers(s, view, lower, latency, health, rows)
  {
    var all := AcceptedBelow(s, view, lower, |s.ids|);
    NotAfterIsAnOrder(s, view.sort, latency, health, all);
    SortIsTheSortedArrangement(all, rows, NotAfter(s, view.sort, latency, health));
    hide Answers, SortedBy, NotAfter, TotalPreorderOn, AntisymmetricOn;
    if rows == RunQuery(s, view, lower, latency, health) {
      SortedIsAnswer(s, view, lower, latency, health, rows);
    }
    if Answers(s, view, lower, latency, health, rows) {
      AnswerIsSorted(s, view, lower, latency, health, rows);
    }
  }

  /** A row stands above another exactly when its keys say so. */
  lemma QueryReadsInOrder(s: Store, view: View, lower: string -> string, latency: nat -> U16, health: nat -> U8,
                          p: nat, q: nat)
    requires SameLengths(s) && |s.offsets| == |s.ids| + 1 && DistinctIdColumn(s)
    requires p < |RunQuery(s, view, lower, latency, health)| && q < |RunQuery(s, view, lower, latency, health)|
    ensures var rows := RunQuery(s, view, lower, latency, health);
            && rows[p] < |s.ids| && rows[q] < |s.ids|
            && (p < q <==> Earlier(view.sort, KeysAt(s, latency, health, rows[p]), KeysAt(s, latency, health, rows[q])))
  {
    var rows := RunQuery(s, view, lower, latency, health);
    QueryIsTheSortedFilter(s, view, lower, latency, health, rows);
    assert StrictlyOrdered(s, view.sort, latency, health, rows);
    CompareReads(s, view.sort, latency, health, rows[p], rows[q]);
    CompareLaws(s, view.sort, latency, health, rows[p], rows[q], rows[p]);
    hide RunQuery, Compare, Earlier, ListsAccepted;
  }

  /** What a row has to satisfy, said of the row. */
  predicate RowAccepted(row: HotNodeRow, view: View, lower: string -> string) {
    && (view.sub.Some? ==> view.sub.value in row.sources)
    && (view.country.Some? ==> row.country == view.country.value)
    && Contains(lower(row.name), lower(view.search))
  }

  lemma RowFilter(s: Store, row: HotNodeRow, view: View, lower: string -> string, i: nat)
    requires SameLengths(s) && i < |s.ids| && |s.offsets| == |s.ids| + 1
    requires RowAgrees(s, i, row, lower) && SourcesAt(s, i) == Some(row.sources)
    ensures Accepts(s, view, lower, i) <==> RowAccepted(row, view, lower)
  {
    if lower(view.search) == "" {
      assert OccursAt(lower(row.name), lower(view.search), 0);
    }
  }

  /** On a store built from rows the filter is the row filter, for every subscription and search. */
  lemma FilterIsTheRowFilter(rows: seq<HotNodeRow>, view: View, lower: string -> string, i: nat)
    requires i < |rows| && |Packed(rows)| < WRAP
    ensures Represents(Build(rows, lower), rows, lower)
    ensures Accepts(Build(rows, lower), view, lower, i) <==> RowAccepted(rows[i], view, lower)
  {
    BuildRepresents(rows, lower);
    SourcesReadBackExactlyBelowWrap(rows, lower);
    RowFilter(Build(rows, lower), rows[i], view, lower, i);
    hide Accepts, RowAccepted, Build;
  }

  lemma SameReadingsCompare(s: Store, sort: SortCriteria, latency: nat -> U16, health: nat -> U8,
                            latency': nat -> U16, health': nat -> U8, a: nat, b: nat)
    requires SameLengths(s) && a < |s.ids| && b < |s.ids|
    requires latency(a) == latency'(a) && health(a) == health'(a)
    requires latency(b) == latency'(b) && health(b) == health'(b)
    ensures Compare(s, sort, latency, health, a, b) == Compare(s, sort, latency', health', a, b)
  {
  }

  /** Two sets of readings that agree on the store's rows give one answer. */
  lemma ReadingsDecide(s: Store, view: View, lower: string -> string,
                       latency: nat -> U16, health: nat -> U8, latency': nat -> U16, health': nat -> U8)
    requires SameLengths(s) && |s.offsets| == |s.ids| + 1 && DistinctIdColumn(s)
    requires forall i | 0 <= i < |s.ids| :: latency(i) == latency'(i) && health(i) == health'(i)
    ensures RunQuery(s, view, lower, latency, health) == RunQuery(s, view, lower, latency', health')
  {
    var rows := RunQuery(s, view, lower, latency, health);
    QueryIsTheSortedFilter(s, view, lower, latency, health, rows);
    QueryIsTheSortedFilter(s, view, lower, latency', health', rows);
    hide RunQuery, Accepts, ListsAccepted, Compare;
    assert Answers(s, view, lower, latency, health, rows);
    forall p, q | 0 <= p < q < |rows| ensures Compare(s, view.sort, latency', health', rows[p], rows[q]) == Less {
      assert Compare(s, view.sort, latency, health, rows[p], rows[q]) == Less;
      SameReadingsCompare(s, view.sort, latency, health, latency', health', rows[p], rows[q]);
    }
  }

  /** The same store with the arena's readings as its own. */
  function Rebased(s: Store, metrics: Arena): Store {
    s.(latencies := metrics.latencies, healths := metrics.healths)
  }

  lemma AcceptsCarriesOver(s: Store, t: Store, view: View, lower: string -> string, i: nat)
    requires SameLengths(s) && |s.offsets| == |s.ids| + 1 && SameLengths(t) && i < |s.ids|
    requires t == s.(latencies := t.latencies, healths := t.healths)
    ensures Accepts(t, view, lower, i) == Accepts(s, view, lower, i)
  {
  }

  lemma AnswersCarryOver(s: Store, t: Store, view: View, lower: string -> string,
                         latency: nat -> U16, health: nat -> U8, rows: seq<nat>)
    requires SameLengths(s) && |s.offsets| == |s.ids| + 1 && SameLengths(t)
    requires t == s.(latencies := t.latencies, healths := t.healths)
    requires Answers(s, view, lower, latency, health, rows)
    ensures Answers(t, view, lower, latency, health, rows)
  {
    hide Accepts;
    forall i: nat ensures i in rows <==> i < |t.ids| && Accepts(t, view, lower, i) {
      if i < |s.ids| {
        AcceptsCarriesOver(s, t, view, lower, i);
      }
    }
    OrderCarriesOver(s, t, view.sort, latency, health, rows);
  }

  lemma OrderCarriesOver(s: Store, t: Store, sort: SortCriteria, latency: nat -> U16, health: nat -> U8, rows: seq<nat>)
    requires SameLengths(s) && SameLengths(t) && t == s.(latencies := t.latencies, healths := t.healths)
    requires StrictlyOrdered(s, sort, latency, health, rows)
    ensures StrictlyOrdered(t, sort, latency, health, rows)
  {
    forall p, q | 0 <= p < q < |rows| ensures Compare(t, sort, latency, health, rows[p], rows[q]) == Less {
      assert Compare(s, sort, latency, health, rows[p], rows[q]) == Less;
    }
  }

  /**
   Ordering by live readings is ordering a store that holds them: nothing else
   differs between the two entry points.
   */
  lemma LiveQueryIsAStoreQuery(s: Store, metrics: Arena, view: View, lower: string -> string)
    requires SameLengths(s) && |s.offsets| == |s.ids| + 1 && DistinctIdColumn(s)
    requires |metrics.latencies| == |metrics.healths| == |s.ids|
    ensures QueryWithMetrics(s, metrics, view, lower) == StoreQuery(Rebased(s, metrics), view, lower)
  {
    var t := Rebased(s, metrics);
    var rows := QueryWithMetrics(s, metrics, view, lower);
    var latency, health := ColumnOr(metrics.latencies, UNTESTED), ColumnOr(metrics.healths, 0);
    QueryIsTheSortedFilter(s, view, lower, latency, health, rows);
    AnswersCarryOver(s, t, view, lower, latency, health, rows);
    QueryIsTheSortedFilter(t, view, lower, latency, health, rows);
    ReadingsDecide(t, view, lower, latency, health, ColumnOr(t.latencies, 0), ColumnOr(t.healths, 0));
  }

  /** On a fresh arena the live query is the plain one. */
  lemma FreshArenaChangesNothing(s: Store, view: View, lower: string -> string)
    requires SameLengths(s) && |s.offsets| == |s.ids| + 1 && DistinctIdColumn(s)
    ensures QueryWithMetrics(s, FromStore(s), view, lower) == StoreQuery(s, view, lower)
  {
    LiveQueryIsAStoreQuery(s, FromStore(s), view, lower);
    assert Rebased(s, FromStore(s)) == s;
  }

  /** Descending latency lists every untested row before any tested one; ascending, after. */
  lemma UntestedRowsComeTogether(s: Store, view: View, lower: string -> string, latency: nat -> U16, health: nat -> U8,
                                 p: nat, q: nat)
    requires SameLengths(s) && |s.offsets| == |s.ids| + 1 && DistinctIdColumn(s)
    requires view.sort == LatencyAsc || view.sort == LatencyDesc
    requires p < |RunQuery(s, view, lower, latency, health)| && q < |RunQuery(s, view, lower, latency, health)|
    requires latency(RunQuery(s, view, lower, latency, health)[p]) == UNTESTED
    requires latency(RunQuery(s, view, lower, latency, health)[q]) != UNTESTED
    ensures view.sort == LatencyDesc <==> p < q
  {
    QueryIsTheSortedFilter(s, view, lower, latency, health, RunQuery(s, view, lower, latency, health));
    hide RunQuery;
    var rows := RunQuery(s, view, lower, latency, health);
    if p < q {
      assert Compare(s, view.sort, latency, health, rows[p], rows[q]) == Less;
    } else {
      assert Compare(s, view.sort, latency, health, rows[q], rows[p]) == Less;
    }
  }
}
