/**
 The decision auto mode takes on a ranking, and why its margin keeps the tunnel
 from flapping between nodes that are about as good as each other.
 */
module SwitchMargin {
  import opened Wrappers
  import opened Sorting
  import opened Selection

  datatype Decision =
    | NoVerifiedNode
    | Adopted(nodeIndex: nat, cost: real)
    | Kept(nodeIndex: nat)
    | Switch(nodeIndex: nat, cost: real)

  function Find(ranked: seq<RankedNode>, nodeIndex: nat): (r: Option<RankedNode>)
    ensures r.None? <==> forall e | e in ranked :: e.nodeIndex != nodeIndex
    ensures r.Some? ==> r.value in ranked && r.value.nodeIndex == nodeIndex
  {
    if ranked == [] then None
    else if ranked[0].nodeIndex == nodeIndex then Some(ranked[0])
    else Find(ranked[1..], nodeIndex)
  }

  predicate ShouldSwitch(challenger: RankedNode, incumbent: RankedNode, margin: real) {
    challenger.cost + margin < incumbent.cost
  }

  function Decide(ranked: seq<RankedNode>, incumbent: Option<nat>, margin: real): Decision {
    if ranked == [] then NoVerifiedNode
    else
      var best := ranked[0];
      match incumbent
      case None => Adopted(best.nodeIndex, best.cost)
      case Some(index) =>
        match Find(ranked, index)
        case None => Switch(best.nodeIndex, best.cost)
        case Some(current) =>
          if ShouldSwitch(best, current, margin) then Switch(best.nodeIndex, best.cost) else Kept(index)
  }

  /**
   On a ranking in cost order a decision names a cheapest verified node, and a
   verified incumbent is kept exactly when nothing beats it by the margin.
   */
  lemma DecisionIsDecisive(ranked: seq<RankedNode>, incumbent: nat, current: RankedNode, margin: real)
    requires SortedBy(CheaperAtMost, ranked) && 0.0 <= margin
    requires Find(ranked, incumbent) == Some(current)
    ensures Decide(ranked, Some(incumbent), margin).Kept? <==>
            forall e | e in ranked :: current.cost <= e.cost + margin
    ensures Decide(ranked, Some(incumbent), margin).Switch? ==>
              exists e :: && e in ranked && e.nodeIndex == Decide(ranked, Some(incumbent), margin).nodeIndex
                          && forall f | f in ranked :: e.cost <= f.cost
  {
    assert ranked != [] by {
      assert current in ranked;
    }
    var best := ranked[0];
    assert best in ranked;
    forall f | f in ranked ensures best.cost <= f.cost {
      var k :| 0 <= k < |ranked| && ranked[k] == f;
      assert k == 0 || CheaperAtMost(ranked[0], ranked[k]);
    }
  }

  ghost predicate IsCheapest(e: RankedNode, ranked: seq<RankedNode>) {
    e in ranked && forall f | f in ranked :: e.cost <= f.cost
  }

  /**
   With nothing ranked there is no decision; with no incumbent a cheapest node is
   adopted, and an incumbent that is not ranked any more is replaced by one outright.
   */
  lemma UnrankedIncumbentIsReplaced(ranked: seq<RankedNode>, incumbent: Option<nat>, margin: real)
    requires SortedBy(CheaperAtMost, ranked)
    requires incumbent.Some? ==> forall e | e in ranked :: e.nodeIndex != incumbent.value
    ensures var d := Decide(ranked, incumbent, margin);
            && (ranked == [] <==> d.NoVerifiedNode?)
            && (ranked != [] ==>
                  && (if incumbent.None? then d.Adopted? else d.Switch?)
                  && exists e :: IsCheapest(e, ranked) && e.nodeIndex == d.nodeIndex && e.cost == d.cost)
  {
    if ranked != [] {
      forall f | f in ranked ensures ranked[0].cost <= f.cost {
        var k :| 0 <= k < |ranked| && ranked[k] == f;
        assert k == 0 || CheaperAtMost(ranked[0], ranked[k]);
      }
      assert IsCheapest(ranked[0], ranked);
    }
  }

  // ----- runs of rounds in which every node stays verified

  function Next(incumbent: nat, ranked: seq<RankedNode>, margin: real): nat {
    var d := Decide(ranked, Some(incumbent), margin);
    if d.Switch? then d.nodeIndex else incumbent
  }

  /** The incumbent after each round, starting with the first one. */
  function Incumbent(first: nat, rounds: seq<seq<RankedNode>>, margin: real, k: nat): nat
    requires k <= |rounds|
  {
    if k == 0 then first
    else Next(Incumbent(first, rounds, margin, k - 1), rounds[k - 1], margin)
  }

  function Switches(first: nat, rounds: seq<seq<RankedNode>>, margin: real, k: nat): nat
    requires k <= |rounds|
  {
    if k == 0 then 0
    else Switches(first, rounds, margin, k - 1)
         + if Decide(rounds[k - 1], Some(Incumbent(first, rounds, margin, k - 1)), margin).Switch? then 1 else 0
  }

  /** Every node is ranked in every round, within `w` of its nominal cost. */
  ghost predicate Steady(rounds: seq<seq<RankedNode>>, nodes: nat, nominal: nat -> real, w: real) {
    && (forall r | r in rounds :: forall e | e in r ::
          e.nodeIndex < nodes && nominal(e.nodeIndex) - w <= e.cost <= nominal(e.nodeIndex) + w)
    && (forall r | r in rounds :: forall i: nat | i < nodes :: Find(r, i).Some?)
  }

  /** One round: a switch lowers the nominal cost by more than what noise can fake. */
  lemma SwitchLowersNominal(incumbent: nat, ranked: seq<RankedNode>, margin: real,
                            nodes: nat, nominal: nat -> real, w: real)
    requires Steady([ranked], nodes, nominal, w) && incumbent < nodes
    ensures Next(incumbent, ranked, margin) < nodes
    ensures Decide(ranked, Some(incumbent), margin).Switch? ==>
              nominal(Next(incumbent, ranked, margin)) < nominal(incumbent) - (margin - 2.0 * w)
  {
    assert ranked in [ranked];
    var current := Find(ranked, incumbent).value;
    assert current in ranked;
    assert ranked[0] in ranked;
  }

  /** One round of a run: no switch and no change, or a switch that pays. */
  lemma RoundPays(first: nat, rounds: seq<seq<RankedNode>>, margin: real,
                  nodes: nat, nominal: nat -> real, w: real, k: nat)
    requires Steady(rounds, nodes, nominal, w) && 0 < k <= |rounds|
    requires Incumbent(first, rounds, margin, k - 1) < nodes
    ensures Incumbent(first, rounds, margin, k) < nodes
    ensures if Switches(first, rounds, margin, k) == Switches(first, rounds, margin, k - 1)
            then Incumbent(first, rounds, margin, k) == Incumbent(first, rounds, margin, k - 1)
            else && Switches(first, rounds, margin, k) == Switches(first, rounds, margin, k - 1) + 1
                 && nominal(Incumbent(first, rounds, margin, k))
                    < nominal(Incumbent(first, rounds, margin, k - 1)) - (margin - 2.0 * w)
  {
    assert rounds[k - 1] in rounds;
    SwitchLowersNominal(Incumbent(first, rounds, margin, k - 1), rounds[k - 1], margin, nodes, nominal, w);
  }

  /** So many switches, each worth more than `gap`, fit into `fall`. */
  ghost predicate Paid(made: int, gap: real, fall: real) {
    && 0 <= made
    && made as real * gap <= fall
    && (made > 0 ==> 0.0 < fall && made as real * gap < fall)
  }

  lemma NothingPaid(gap: real)
    ensures Paid(0, gap, 0.0)
  {
  }

  lemma PayOnce(made: int, gap: real, fall: real, drop: real)
    requires Paid(made, gap, fall) && 0.0 <= gap < drop
    ensures Paid(made + 1, gap, fall + drop)
  {
    assert (made + 1) as real * gap == made as real * gap + gap;
  }

  /**
   Each switch strictly lowers the incumbent's nominal cost, so the total fall
   pays for every switch made.
   */
  lemma {:induction false} SwitchesPayInNominal(first: nat, rounds: seq<seq<RankedNode>>, margin: real,
                                               nodes: nat, nominal: nat -> real, w: real, j: nat, k: nat)
    requires Steady(rounds, nodes, nominal, w) && first < nodes && j <= k <= |rounds| && 2.0 * w <= margin
    ensures Incumbent(first, rounds, margin, j) < nodes && Incumbent(first, rounds, margin, k) < nodes
    ensures var made := Switches(first, rounds, margin, k) - Switches(first, rounds, margin, j);
            && 0 <= made
            && Paid(made, margin - 2.0 * w,
                    nominal(Incumbent(first, rounds, margin, j)) - nominal(Incumbent(first, rounds, margin, k)))
            && (made == 0 ==> Incumbent(first, rounds, margin, j) == Incumbent(first, rounds, margin, k))
    decreases k
  {
    NothingPaid(margin - 2.0 * w);
    if k == 0 {
      hide Steady, Paid;
    } else {
      hide Steady, Paid, Incumbent, Switches;
      SwitchesPayInNominal(first, rounds, margin, nodes, nominal, w, if j < k then j else k - 1, k - 1);
      RoundPays(first, rounds, margin, nodes, nominal, w, k);
      if j < k && Switches(first, rounds, margin, k) != Switches(first, rounds, margin, k - 1) {
        PayOnce(Switches(first, rounds, margin, k - 1) - Switches(first, rounds, margin, j), margin - 2.0 * w,
                nominal(Incumbent(first, rounds, margin, j)) - nominal(Incumbent(first, rounds, margin, k - 1)),
                nominal(Incumbent(first, rounds, margin, k - 1)) - nominal(Incumbent(first, rounds, margin, k)));
      }
    }
  }

  /** A node that was left is never taken up again. */
  lemma NeverReturns(first: nat, rounds: seq<seq<RankedNode>>, margin: real,
                     nodes: nat, nominal: nat -> real, w: real, i: nat, j: nat, k: nat)
    requires Steady(rounds, nodes, nominal, w) && first < nodes && i <= j <= k <= |rounds| && 2.0 * w <= margin
    requires Incumbent(first, rounds, margin, i) != Incumbent(first, rounds, margin, j)
    ensures Incumbent(first, rounds, margin, k) != Incumbent(first, rounds, margin, i)
  {
    SwitchesPayInNominal(first, rounds, margin, nodes, nominal, w, i, j);
    SwitchesPayInNominal(first, rounds, margin, nodes, nominal, w, j, k);
  }

  /** With room to spare in the margin, the range of nominal costs bounds the switches ever made. */
  lemma SwitchesAreBounded(first: nat, rounds: seq<seq<RankedNode>>, margin: real,
                           nodes: nat, nominal: nat -> real, w: real, range: real)
    requires Steady(rounds, nodes, nominal, w) && first < nodes && 2.0 * w < margin
    requires forall i: nat, j: nat | i < nodes && j < nodes :: nominal(i) - nominal(j) <= range
    ensures Switches(first, rounds, margin, |rounds|) as real * (margin - 2.0 * w) <= range
  {
    SwitchesPayInNominal(first, rounds, margin, nodes, nominal, w, 0, |rounds|);
  }

  /**
   Two nodes of the same nominal cost `c`, each in turn read at its luckiest while
   the other is read at its worst.
   */
  function Seesaw(c: real, w: real): seq<seq<RankedNode>> {
    [[RankedNode(1, c - w), RankedNode(0, c + w)], [RankedNode(0, c - w), RankedNode(1, c + w)]]
  }

  /** The bound is sharp: two equal nodes can be made to flap exactly when noise can outweigh the margin. */
  lemma MarginIsSharp(margin: real, c: real, w: real)
    requires 0.0 <= w <= c
    ensures Steady(Seesaw(c, w), 2, _ => c, w)
    ensures forall r | r in Seesaw(c, w) :: forall e | e in r :: 0.0 <= e.cost
    ensures Incumbent(0, Seesaw(c, w), margin, 1) == 1 && Incumbent(0, Seesaw(c, w), margin, 2) == 0 <==>
            margin < 2.0 * w
  {
    var rounds := Seesaw(c, w);
    assert forall r | r in rounds :: r == rounds[0] || r == rounds[1];
    assert Find(rounds[0], 1) == Some(rounds[0][0]) && Find(rounds[1], 0) == Some(rounds[1][0]);
    assert rounds[0][1..] == [RankedNode(0, c + w)] && rounds[1][1..] == [RankedNode(1, c + w)];
    assert Find(rounds[0], 0) == Some(rounds[0][1]) && Find(rounds[1], 1) == Some(rounds[1][1]);
    assert Incumbent(0, rounds, margin, 1) == Next(0, rounds[0], margin);
    if margin < 2.0 * w {
      assert Incumbent(0, rounds, margin, 2) == Next(1, rounds[1], margin);
    }
  }
}
