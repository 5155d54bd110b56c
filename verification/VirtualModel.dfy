/** The UI thread's half of the projection pipeline, and its map from node ids to rows. */
module VirtualModel {
  import opened Wrappers
  import opened Sorting
  import opened DenseStore
  import opened Query
  import opened Projection

  /** Rows by node id, filled in row order; an index outside the store is skipped. */
  function Reverse(store: Store, indices: seq<nat>): map<U32, nat>
    decreases |indices|
  {
    if indices == [] then map[]
    else
      var row := |indices| - 1;
      var before := Reverse(store, indices[..row]);
      if indices[row] >= |store.ids| then before else before[store.ids[indices[row]] := row]
  }

  lemma ReverseStep(store: Store, indices: seq<nat>, row: nat)
    requires row < |indices|
    ensures Reverse(store, indices[..row + 1])
         == if indices[row] >= |store.ids| then Reverse(store, indices[..row])
            else Reverse(store, indices[..row])[store.ids[indices[row]] := row]
  {
    assert indices[..row + 1][..row] == indices[..row];
  }

  /** The map and the rows are exact inverses. */
  lemma {:induction false} ReverseIsTheInverse(store: Store, indices: seq<nat>, id: U32, row: nat)
    requires DistinctIdColumn(store) && Distinct(indices)
    requires forall k | 0 <= k < |indices| :: indices[k] < |store.ids|
    ensures id in Reverse(store, indices) && Reverse(store, indices)[id] == row
       <==> row < |indices| && store.ids[indices[row]] == id
    decreases |indices|
  {
    if indices == [] {
    } else {
      var last := |indices| - 1;
      ReverseIsTheInverse(store, indices[..last], id, row);
      if row < last {
        assert indices[row] != indices[last];
        assert store.ids[indices[row]] != store.ids[indices[last]];
      }
    }
  }

  /** In every run, the row map of what is installed is its exact inverse. */
  lemma InstalledRowsInvert(first: Pipeline, events: seq<Event>, lower: string -> string, id: U32, row: nat)
    requires Starts(first, lower) && Run(first, events, lower).Some?
    ensures var s := Run(first, events, lower).value;
            var p := s.installed;
            && p.version < |s.stores|
            && (forall k | 0 <= k < |p.indices| :: p.indices[k] < |s.stores[p.version].ids|)
            && (id in Reverse(s.stores[p.version], p.indices) && Reverse(s.stores[p.version], p.indices)[id] == row
                <==> row < |p.indices| && s.stores[p.version].ids[p.indices[row]] == id)
  {
    InstalledAnswersItsView(first, events, lower);
    var s := Run(first, events, lower).value;
    hide Run, Accepts;
    forall k | 0 <= k < |s.installed.indices|
      ensures s.installed.indices[k] < |s.stores[s.installed.version].ids|
    {
      assert s.installed.indices[k] in s.installed.indices;
    }
    ReverseIsTheInverse(s.stores[s.installed.version], s.installed.indices, id, row);
  }

  /** A whole tick: drain, keep the last, install it or ask again. */
  function Ticked(s: Pipeline): Pipeline {
    if s.results == [] then s
    else Finished(s.(results := []), s.results[|s.results| - 1])
  }

  /** The takes of one tick, in events. */
  function Drain(k: nat): seq<Event> {
    if k == 0 then [Begin] else Drain(k - 1) + [Take]
  }

  lemma RunOneMore(s: Pipeline, events: seq<Event>, t: Pipeline, e: Event, lower: string -> string)
    requires Run(s, events, lower) == Some(t) && Enabled(t, e)
    ensures Run(s, events + [e], lower) == Some(Step(t, e, lower))
  {
    assert (events + [e])[..|events|] == events;
    hide Step, Enabled;
  }

  lemma {:induction false} DrainRuns(s: Pipeline, k: nat, lower: string -> string)
    requires s.ui == Resting && k < |s.results|
    ensures Run(s, Drain(k), lower) == Some(s.(ui := Collecting(s.results[k]), results := s.results[k + 1..]))
  {
    if k == 0 {
      assert Run(s, [], lower) == Some(s);
      assert [] + [Begin] == [Begin];
      hide Run;
      RunOneMore(s, [], s, Begin, lower);
    } else {
      DrainRuns(s, k - 1, lower);
      assert s.results[k..][1..] == s.results[k + 1..];
      hide Run;
      RunOneMore(s, Drain(k - 1), s.(ui := Collecting(s.results[k - 1]), results := s.results[k..]), Take, lower);
    }
  }

  /** A tick nothing interleaves with is a run of the pipeline's own steps. */
  lemma TickIsARun(s: Pipeline, lower: string -> string)
    requires s.ui == Resting && s.results != []
    ensures Run(s, Drain(|s.results| - 1) + [SeeEmpty] + [Finish], lower) == Some(Ticked(s))
  {
    hide Run, Drain;
    var takes, last := Drain(|s.results| - 1), s.results[|s.results| - 1];
    assert s.results[|s.results|..] == [];
    DrainRuns(s, |s.results| - 1, lower);
    RunOneMore(s, takes, s.(ui := Collecting(last), results := []), SeeEmpty, lower);
    RunOneMore(s, takes + [SeeEmpty], s.(ui := Drained(last), results := []), Finish, lower);
  }

  class VirtualNodeModel {
    var desired: View
    var requests: seq<View>
    var results: seq<Projected>
    var projection: Projected
    var reverse: map<U32, nat>
    var stores: seq<Store>

    ghost predicate Valid()
      reads this
    {
      && projection.version < |stores|
      && (forall k | 0 <= k < |results| :: results[k].version < |stores|)
      && reverse == Reverse(stores[projection.version], projection.indices)
    }

    /** The fields are the UI's part of the pipeline `s`. */
    ghost predicate Shows(s: Pipeline)
      reads this
    {
      && desired == s.desired && requests == s.requests && results == s.results
      && projection == s.installed && stores == s.stores
    }

    constructor (store: Store, metrics: Arena, view: View, lower: string -> string)
      requires WellFormed(store)
      ensures Valid()
      ensures var installed := Projected(view, 0, QueryWithMetrics(store, metrics, view, lower));
              var s := Pipeline(view, [], Waiting, [], Resting, installed, [store], [metrics], true);
              Starts(s, lower) && Shows(s)
    {
      desired, requests, results, stores := view, [], [], [store];
      projection := Projected(view, 0, QueryWithMetrics(store, metrics, view, lower));
      new;
      RebuildReverse();
    }

    method RebuildReverse()
      requires projection.version < |stores|
      modifies `reverse
      ensures reverse == Reverse(stores[projection.version], projection.indices)
    {
      var store, indices := stores[projection.version], projection.indices;
      var rebuilt: map<U32, nat> := map[];
      for row := 0 to |indices|
        invariant rebuilt == Reverse(store, indices[..row])
      {
        ReverseStep(store, indices, row);
        var at := indices[row];
        if at >= |store.ids| {
          continue;
        }
        rebuilt := rebuilt[store.ids[at] := row];
      }
      assert indices[..|indices|] == indices;
      reverse := rebuilt;
    }

    method RequestLatest()
      modifies `requests
      ensures requests == old(requests) + [desired]
    {
      requests := requests + [desired];
    }

    method RefreshView(view: View, ghost s: Pipeline, ghost lower: string -> string)
      requires Valid() && Shows(s) && s.ui == Resting
      modifies `desired, `requests
      ensures Valid() && Shows(Step(s, Refresh(view), lower))
    {
      desired := view;
      RequestLatest();
    }

    /** One tick. True when rows were replaced. */
    method ApplyCompletedProjection(ghost s: Pipeline) returns (reset: bool)
      requires Valid() && Shows(s)
      modifies `results, `requests, `projection, `reverse
      ensures Valid() && Shows(Ticked(s))
      ensures reset <==> s.results != [] && s.Serves(s.results[|s.results| - 1].version)
      ensures !reset ==> projection == old(projection) && reverse == old(reverse)
    {
      var latest: Option<Projected> := None;
      ghost var k: nat := 0;
      while results != []
        invariant k <= |s.results| && results == s.results[k..]
        invariant latest == if k == 0 then None else Some(s.results[k - 1])
        invariant requests == s.requests && projection == old(projection) && reverse == old(reverse)
        decreases |results|
      {
        latest := Some(results[0]);
        results := results[1..];
        k := k + 1;
      }
      if latest.None? {
        return false;
      }
      if latest.value.version + 1 != |stores| {
        RequestLatest();
        return false;
      }
      projection := latest.value;
      RebuildReverse();
      return true;
    }
  }
}
