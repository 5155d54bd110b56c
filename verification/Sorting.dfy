/**
 The stable sort every ranking step of the program relies on, specified by
 insertion. A comparator only has to be a total preorder on the elements that
 are actually sorted, because several comparators index other vectors.
 */
module Sorting {

  ghost predicate TotalPreorderOn<T>(le: (T, T) -> bool, s: seq<T>) {
    && (forall x, y | x in s && y in s :: le(x, y) || le(y, x))
    && (forall x, y, z | x in s && y in s && z in s && le(x, y) && le(y, z) :: le(x, z))
  }

  ghost predicate AntisymmetricOn<T>(le: (T, T) -> bool, s: seq<T>) {
    forall x, y | x in s && y in s && le(x, y) && le(y, x) :: x == y
  }

  ghost predicate SortedBy<T>(le: (T, T) -> bool, s: seq<T>) {
    forall i, j | 0 <= i < j < |s| :: le(s[i], s[j])
  }

  ghost predicate Distinct<T>(s: seq<T>) {
    forall i, j | 0 <= i < j < |s| :: s[i] != s[j]
  }

  /** Puts `x` in front of the first element it does not exceed. */
  function Insert<T>(x: T, s: seq<T>, le: (T, T) -> bool): (r: seq<T>)
    ensures |r| == |s| + 1
  {
    if s == [] then [x]
    else if le(x, s[0]) then [x] + s
    else [s[0]] + Insert(x, s[1..], le)
  }

  function Sort<T>(s: seq<T>, le: (T, T) -> bool): (r: seq<T>)
    ensures |r| == |s|
  {
    if s == [] then [] else Insert(s[0], Sort(s[1..], le), le)
  }

  lemma {:induction false} InsertPermutes<T>(x: T, s: seq<T>, le: (T, T) -> bool)
    ensures multiset(Insert(x, s, le)) == multiset(s) + multiset{x}
  {
    if s == [] {
    } else {
      assert s == [s[0]] + s[1..];
      if !le(x, s[0]) {
        InsertPermutes(x, s[1..], le);
      }
    }
  }

  lemma {:induction false} SortPermutes<T>(s: seq<T>, le: (T, T) -> bool)
    ensures multiset(Sort(s, le)) == multiset(s)
  {
    if s == [] {
    } else {
      SortPermutes(s[1..], le);
      InsertPermutes(s[0], Sort(s[1..], le), le);
      assert s == [s[0]] + s[1..];
    }
  }

  lemma SameElements<T>(s: seq<T>, t: seq<T>)
    requires multiset(s) == multiset(t)
    ensures forall x :: x in s <==> x in t
  {
    forall x ensures x in s <==> x in t {
      assert x in s <==> x in multiset(s);
      assert x in t <==> x in multiset(t);
    }
  }

  lemma SortMember<T>(x: T, s: seq<T>, le: (T, T) -> bool)
    ensures x in Sort(s, le) <==> x in s
  {
    SortPermutes(s, le);
    assert x in s <==> x in multiset(s);
    assert x in Sort(s, le) <==> x in multiset(Sort(s, le));
  }

  lemma SortMembers<T>(s: seq<T>, le: (T, T) -> bool)
    ensures forall x :: x in Sort(s, le) <==> x in s
  {
    SortPermutes(s, le);
    SameElements(Sort(s, le), s);
  }

  lemma {:induction false} InsertKeepsSorted<T>(x: T, s: seq<T>, le: (T, T) -> bool)
    requires TotalPreorderOn(le, [x] + s) && SortedBy(le, s)
    ensures SortedBy(le, Insert(x, s, le))
  {
    if s == [] {
    } else {
      forall y | y in s ensures y in [x] + s {}
      assert x in [x] + s;
      if le(x, s[0]) {
        forall j | 0 <= j < |s| ensures le(x, s[j]) {
          assert s[0] in s && s[j] in s;
        }
      } else {
        forall y | y in [x] + s[1..] ensures y in [x] + s {
          assert y == x || y in s[1..];
        }
        InsertKeepsSorted(x, s[1..], le);
        var rest := Insert(x, s[1..], le);
        InsertPermutes(x, s[1..], le);
        forall j | 0 <= j < |rest| ensures le(s[0], rest[j]) {
          assert rest[j] in multiset(rest);
          assert rest[j] == x || rest[j] in s[1..];
          assert s[0] in s;
        }
      }
    }
  }

  /** The result is in order whenever the comparator is one. */
  lemma {:induction false} SortSorts<T>(s: seq<T>, le: (T, T) -> bool)
    requires TotalPreorderOn(le, s)
    ensures SortedBy(le, Sort(s, le))
  {
    if s == [] {
    } else {
      forall y | y in s[1..] ensures y in s {}
      SortSorts(s[1..], le);
      var rest := Sort(s[1..], le);
      SortMembers(s[1..], le);
      forall y | y in [s[0]] + rest ensures y in s {
        SortMember(y, s[1..], le);
      }
      InsertKeepsSorted(s[0], rest, le);
    }
  }

  lemma SortedHeadsAgree<T>(s: seq<T>, t: seq<T>, le: (T, T) -> bool)
    requires s != [] && t != [] && s[0] in t && t[0] in s
    requires SortedBy(le, s) && SortedBy(le, t) && AntisymmetricOn(le, s)
    ensures s[0] == t[0]
  {
    var i :| 0 <= i < |s| && s[i] == t[0];
    var j :| 0 <= j < |t| && t[j] == s[0];
    if 0 < i && 0 < j {
      assert le(s[0], s[i]) && le(t[0], t[j]);
    }
  }

  lemma TailMultiset<T>(s: seq<T>)
    requires s != []
    ensures multiset(s) == multiset{s[0]} + multiset(s[1..])
  {
    assert s == [s[0]] + s[1..];
  }

  lemma TailSorted<T>(s: seq<T>, le: (T, T) -> bool)
    requires s != [] && SortedBy(le, s) && AntisymmetricOn(le, s)
    ensures SortedBy(le, s[1..]) && AntisymmetricOn(le, s[1..])
  {
    forall i, j | 0 <= i < j < |s[1..]| ensures le(s[1..][i], s[1..][j]) {
      assert le(s[i + 1], s[j + 1]);
    }
    assert forall x | x in s[1..] :: x in s;
  }

  lemma TailsAgree<T>(s: seq<T>, t: seq<T>)
    requires multiset(s) == multiset(t) && s != [] && t != [] && s[0] == t[0]
    ensures multiset(s[1..]) == multiset(t[1..])
  {
    TailMultiset(s);
    TailMultiset(t);
    assert multiset(s[1..]) == multiset(s) - multiset{s[0]};
    assert multiset(t[1..]) == multiset(t) - multiset{t[0]};
  }

  /** A sorted arrangement is unique once the comparator separates elements. */
  lemma {:induction false} SortedUnique<T>(s: seq<T>, t: seq<T>, le: (T, T) -> bool)
    requires multiset(s) == multiset(t)
    requires SortedBy(le, s) && SortedBy(le, t)
    requires AntisymmetricOn(le, s) && AntisymmetricOn(le, t)
    ensures s == t
    decreases |s|
  {
    assert |s| == |multiset(s)| && |t| == |multiset(t)|;
    if s == [] {
    } else {
      SameElements(s, t);
      SortedHeadsAgree(s, t, le);
      TailsAgree(s, t);
      TailSorted(s, le);
      TailSorted(t, le);
      hide SortedBy, AntisymmetricOn;
      SortedUnique(s[1..], t[1..], le);
      assert s == [s[0]] + s[1..] && t == [t[0]] + t[1..];
    }
  }

  lemma OrderTransfers<T>(s: seq<T>, t: seq<T>, le: (T, T) -> bool)
    requires multiset(s) == multiset(t)
    ensures TotalPreorderOn(le, s) ==> TotalPreorderOn(le, t)
    ensures AntisymmetricOn(le, s) ==> AntisymmetricOn(le, t)
  {
    SameElements(s, t);
  }

  /** The sorted arrangement is the only one, so any correct sort finds it. */
  lemma SortIsTheSortedArrangement<T>(s: seq<T>, t: seq<T>, le: (T, T) -> bool)
    requires TotalPreorderOn(le, s) && AntisymmetricOn(le, s)
    ensures t == Sort(s, le) <==> multiset(t) == multiset(s) && SortedBy(le, t)
  {
    SortSorts(s, le);
    SortPermutes(s, le);
    OrderTransfers(s, Sort(s, le), le);
    if multiset(t) == multiset(s) && SortedBy(le, t) {
      OrderTransfers(s, t, le);
      SortedUnique(t, Sort(s, le), le);
    }
  }

  /** Sorting forgets the order its input came in. */
  lemma SortForgetsOrder<T>(s: seq<T>, t: seq<T>, le: (T, T) -> bool)
    requires multiset(s) == multiset(t)
    requires TotalPreorderOn(le, s) && AntisymmetricOn(le, s)
    ensures Sort(s, le) == Sort(t, le)
  {
    OrderTransfers(s, t, le);
    SortSorts(t, le);
    SortPermutes(t, le);
    SortIsTheSortedArrangement(s, Sort(t, le), le);
  }

  ghost predicate LexBy<T>(le: (T, T) -> bool, first: (T, T) -> bool, x: T, y: T) {
    le(x, y) && (le(y, x) ==> first(x, y))
  }

  /** Stability: elements the comparator ties stay in their incoming order. */
  lemma {:induction false} SortStable<T>(s: seq<T>, le: (T, T) -> bool, first: (T, T) -> bool)
    requires TotalPreorderOn(le, s) && SortedBy(first, s)
    ensures forall i, j | 0 <= i < j < |s| :: LexBy(le, first, Sort(s, le)[i], Sort(s, le)[j])
  {
    if s == [] {
    } else {
      forall y | y in s[1..] ensures y in s {}
      SortStable(s[1..], le, first);
      var rest := Sort(s[1..], le);
      SortMembers(s[1..], le);
      forall y | y in rest ensures first(s[0], y) {
        SortMember(y, s[1..], le);
      }
      forall y | y in [s[0]] + rest ensures y in s {
        SortMember(y, s[1..], le);
      }
      InsertStable(s[0], rest, le, first);
    }
  }

  lemma {:induction false} InsertStable<T>(x: T, s: seq<T>, le: (T, T) -> bool, first: (T, T) -> bool)
    requires TotalPreorderOn(le, [x] + s)
    requires forall y | y in s :: first(x, y)
    requires forall i, j | 0 <= i < j < |s| :: LexBy(le, first, s[i], s[j])
    ensures forall i, j | 0 <= i < j < |s| + 1 ::
              LexBy(le, first, Insert(x, s, le)[i], Insert(x, s, le)[j])
  {
    if s == [] {
    } else {
      forall y | y in s ensures y in [x] + s {}
      assert x in [x] + s;
      if le(x, s[0]) {
        forall j | 0 <= j < |s| ensures LexBy(le, first, x, s[j]) {
          assert s[0] in s && s[j] in s;
        }
      } else {
        forall y | y in [x] + s[1..] ensures y in [x] + s {
          assert y == x || y in s[1..];
        }
        InsertStable(x, s[1..], le, first);
        var rest := Insert(x, s[1..], le);
        InsertPermutes(x, s[1..], le);
        forall j | 0 <= j < |rest| ensures LexBy(le, first, s[0], rest[j]) {
          assert rest[j] in multiset(rest);
          assert rest[j] == x || rest[j] in s[1..];
          assert s[0] in s;
        }
      }
    }
  }

  lemma CountTwice<T>(t: seq<T>, i: nat, j: nat)
    requires i < j < |t| && t[i] == t[j]
    ensures multiset(t)[t[i]] >= 2
  {
    assert t == t[..i] + [t[i]] + t[i+1..j] + [t[j]] + t[j+1..];
  }

  lemma PermutationDistinct<T>(s: seq<T>, t: seq<T>)
    requires multiset(s) == multiset(t) && Distinct(s)
    ensures Distinct(t)
  {
    DistinctCounts(s);
    SameElements(s, t);
    forall i, j | 0 <= i < j < |t| ensures t[i] != t[j] {
      if t[i] == t[j] {
        CountTwice(t, i, j);
        assert false;
      }
    }
  }

  lemma {:induction false} DistinctCounts<T>(s: seq<T>)
    requires Distinct(s)
    ensures forall x | x in s :: multiset(s)[x] == 1
  {
    if s == [] {
    } else {
      DistinctCounts(s[1..]);
      assert s == [s[0]] + s[1..];
      forall x | x in s ensures multiset(s)[x] == 1 {
        if x == s[0] {
          assert x !in s[1..];
        } else {
          assert x in s[1..];
        }
      }
    }
  }

  lemma RemoveOccurrence<T>(s: seq<T>, t: seq<T>, j: nat)
    requires multiset(s) == multiset(t) && s != [] && j < |t| && t[j] == s[0]
    ensures multiset(s[1..]) == multiset(t[..j] + t[j + 1..])
  {
    assert t == t[..j] + [t[j]] + t[j + 1..];
    TailMultiset(s);
    assert multiset(t) == multiset(t[..j] + t[j + 1..]) + multiset{t[j]};
    assert multiset(s[1..]) == multiset(s) - multiset{s[0]};
  }
}
