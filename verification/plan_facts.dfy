/** Consequences of the constraint system: what a feasible Phase-1 assignment
    must look like, which plans are feasible, how region occupancy and
    diversity behave, and how Phase 1 hands its solution to Phase 2. */
module PlanFacts {
  import opened Seqs
  import opened Placement

  /** A plan judged on its ops alone, node by node and in aggregate: the
      reference definition that `Phase1Feasible` of the completed assignment
      is shown equivalent to. */
  predicate Admissible(nodes: seq<Node>, ops: seq<int>)
    requires |nodes| > 0
  {
    && |ops| == |nodes|
    && (forall i :: 0 <= i < |nodes| ==>
          && -1 <= ops[i] <= 1
          && 0 <= nodes[i].replicaCount + ops[i] <= UpperBound(nodes)
          && Holding(nodes[i]) + ops[i] >= 0)
    && Sum(ops) == 0
    && CountOf(ops, 1) + CountOf(ops, -1) <= 2
  }

  /** Given legality at every node, no region's post-plan sum is negative. */
  lemma {:induction false} RegionSumNonNegative(nodes: seq<Node>, ops: seq<int>, r: string)
    requires |ops| == |nodes|
    requires forall i :: 0 <= i < |nodes| ==> Holding(nodes[i]) + ops[i] >= 0
    ensures RegionSum(nodes, ops, r) >= 0
  {
    if |nodes| > 0 {
      assert forall i :: 0 <= i < |nodes[1..]| ==> nodes[1..][i] == nodes[i + 1] && ops[1..][i] == ops[i + 1];
      RegionSumNonNegative(nodes[1..], ops[1..], r);
    }
  }

  /** A member that holds the range after the plan makes its region's sum positive. */
  lemma {:induction false} RegionSumPositive(nodes: seq<Node>, ops: seq<int>, r: string, i: int)
    requires |ops| == |nodes| && 0 <= i < |nodes|
    requires forall j :: 0 <= j < |nodes| ==> Holding(nodes[j]) + ops[j] >= 0
    requires nodes[i].region == r && Holding(nodes[i]) + ops[i] > 0
    ensures RegionSum(nodes, ops, r) > 0
  {
    assert forall j :: 0 <= j < |nodes[1..]| ==> nodes[1..][j] == nodes[j + 1] && ops[1..][j] == ops[j + 1];
    if i == 0 {
      RegionSumNonNegative(nodes[1..], ops[1..], r);
    } else {
      RegionSumPositive(nodes[1..], ops[1..], r, i - 1);
    }
  }

  /** Without any member holding the range after the plan, a region's sum is zero. */
  lemma {:induction false} RegionSumZero(nodes: seq<Node>, ops: seq<int>, r: string)
    requires |ops| == |nodes|
    requires forall j :: 0 <= j < |nodes| && nodes[j].region == r ==> Holding(nodes[j]) + ops[j] == 0
    ensures RegionSum(nodes, ops, r) == 0
  {
    if |nodes| > 0 {
      assert forall j :: 0 <= j < |nodes[1..]| ==> nodes[1..][j] == nodes[j + 1] && ops[1..][j] == ops[j + 1];
      RegionSumZero(nodes[1..], ops[1..], r);
    }
  }

  /** A member holding the range after the plan makes its region occupied. */
  lemma OccupiedByMember(nodes: seq<Node>, a: Assignment, k: int, i: int)
    requires |nodes| > 0 && Phase1Feasible(nodes, a) && 0 <= k < |Regions| && 0 <= i < |nodes|
    requires nodes[i].region == Regions[k] && Holding(nodes[i]) + a.ops[i] > 0
    ensures a.occupied[k]
  {
    OccupiedIffMemberHolds(nodes, a, k);
  }

  /** In a feasible assignment a region is occupied exactly when one of its
      members holds the range after the plan. */
  lemma OccupiedIffMemberHolds(nodes: seq<Node>, a: Assignment, k: int)
    requires |nodes| > 0 && Phase1Feasible(nodes, a) && 0 <= k < |Regions|
    ensures a.occupied[k] <==>
      exists i :: 0 <= i < |nodes| && nodes[i].region == Regions[k] && Holding(nodes[i]) + a.ops[i] > 0
  {
    OccupancyForced(nodes, a);
    forall j | 0 <= j < |nodes| ensures Holding(nodes[j]) + a.ops[j] >= 0 {
      assert NodeConstraints(nodes[j], a.ops[j], a.moved[j], a.after[j], UpperBound(nodes));
    }
    if exists i :: 0 <= i < |nodes| && nodes[i].region == Regions[k] && Holding(nodes[i]) + a.ops[i] > 0 {
      var i :| 0 <= i < |nodes| && nodes[i].region == Regions[k] && Holding(nodes[i]) + a.ops[i] > 0;
      RegionSumPositive(nodes, a.ops, Regions[k], i);
    } else {
      RegionSumZero(nodes, a.ops, Regions[k]);
    }
  }

  /** A node outside region `r` does not enter the sum of `r`, whatever it
      holds and whatever its op is. */
  lemma {:induction false} RegionSumIgnoresOutsider(
    nodes: seq<Node>, ops: seq<int>, i: int, n': Node, v: int, r: string)
    requires |ops| == |nodes| && 0 <= i < |nodes|
    requires nodes[i].region != r && n'.region != r
    ensures RegionSum(nodes[i := n'], ops[i := v], r) == RegionSum(nodes, ops, r)
  {
    if i == 0 {
      assert nodes[i := n'][1..] == nodes[1..];
      assert ops[i := v][1..] == ops[1..];
    } else {
      assert nodes[i := n'][1..] == nodes[1..][i - 1 := n'];
      assert ops[i := v][1..] == ops[1..][i - 1 := v];
      RegionSumIgnoresOutsider(nodes[1..], ops[1..], i - 1, n', v, r);
    }
  }

  /** A node whose region is not among `Regions` contributes to no region sum,
      so neither its range holding nor its op changes occupancy or diversity. */
  lemma UnlistedRegionIgnored(nodes: seq<Node>, ops: seq<int>, i: int, n': Node, v: int)
    requires |ops| == |nodes| && 0 <= i < |nodes|
    requires nodes[i].region !in Regions && n'.region == nodes[i].region
    ensures forall k :: 0 <= k < |Regions| ==>
      RegionSum(nodes[i := n'], ops[i := v], Regions[k]) == RegionSum(nodes, ops, Regions[k])
    ensures Completion(nodes[i := n'], ops[i := v]).occupied == Completion(nodes, ops).occupied
    ensures Diversity(Completion(nodes[i := n'], ops[i := v])) == Diversity(Completion(nodes, ops))
  {
    forall k | 0 <= k < |Regions|
      ensures RegionSum(nodes[i := n'], ops[i := v], Regions[k]) == RegionSum(nodes, ops, Regions[k])
    {
      RegionSumIgnoresOutsider(nodes, ops, i, n', v, Regions[k]);
    }
  }

  /** In a feasible assignment every node variable is forced by its op: the
      op is a unit step, `moved` marks exactly the non-zero ops, and the
      post-plan load is the initial load plus the op, within [0, UpperBound]. */
  lemma NodeVariablesForced(nodes: seq<Node>, a: Assignment)
    requires |nodes| > 0 && Phase1Feasible(nodes, a)
    ensures forall i :: 0 <= i < |nodes| ==>
      -1 <= a.ops[i] <= 1 && (a.moved[i] <==> a.ops[i] != 0)
    ensures forall i :: 0 <= i < |nodes| ==>
      a.after[i] == nodes[i].replicaCount + a.ops[i] && 0 <= a.after[i] <= UpperBound(nodes)
  {
    var ub := UpperBound(nodes);
    forall i | 0 <= i < |nodes|
      ensures -1 <= a.ops[i] <= 1 && (a.moved[i] <==> a.ops[i] != 0)
      ensures a.after[i] == nodes[i].replicaCount + a.ops[i] && 0 <= a.after[i] <= ub
    {
      assert NodeConstraints(nodes[i], a.ops[i], a.moved[i], a.after[i], ub);
    }
  }

  /** In a feasible assignment no region sum is negative, a region is occupied
      exactly when its sum is positive, and diversity lies in [0, |Regions|]. */
  lemma OccupancyForced(nodes: seq<Node>, a: Assignment)
    requires |nodes| > 0 && Phase1Feasible(nodes, a)
    ensures forall k :: 0 <= k < |Regions| ==>
      RegionSum(nodes, a.ops, Regions[k]) >= 0
      && (a.occupied[k] <==> RegionSum(nodes, a.ops, Regions[k]) > 0)
    ensures 0 <= Diversity(a) <= |Regions|
  {
    forall i | 0 <= i < |nodes| ensures Holding(nodes[i]) + a.ops[i] >= 0 {
      assert NodeConstraints(nodes[i], a.ops[i], a.moved[i], a.after[i], UpperBound(nodes));
    }
    forall k | 0 <= k < |Regions|
      ensures RegionSum(nodes, a.ops, Regions[k]) >= 0
      ensures a.occupied[k] <==> RegionSum(nodes, a.ops, Regions[k]) > 0
    {
      RegionSumNonNegative(nodes, a.ops, Regions[k]);
      assert OccupancyLink(RegionSum(nodes, a.ops, Regions[k]), a.occupied[k]);
    }
  }

  /** A feasible assignment is the completion of its own ops. */
  lemma FeasibleIsCompletion(nodes: seq<Node>, a: Assignment)
    requires |nodes| > 0 && Phase1Feasible(nodes, a)
    ensures a == Completion(nodes, a.ops)
  {
    var c := Completion(nodes, a.ops);
    NodeVariablesForced(nodes, a);
    OccupancyForced(nodes, a);
    assert a.moved == c.moved;
    assert a.after == c.after;
    assert a.occupied == c.occupied;
  }

  /** The completed assignment is feasible exactly when the ops are admissible. */
  lemma CompletionFeasibleIff(nodes: seq<Node>, ops: seq<int>)
    requires |nodes| > 0 && |ops| == |nodes|
    ensures Phase1Feasible(nodes, Completion(nodes, ops)) <==> Admissible(nodes, ops)
  {
    var a := Completion(nodes, ops);
    if Admissible(nodes, ops) {
      CountTrueOfNonZero(ops, a.moved);
      forall k | 0 <= k < |Regions|
        ensures OccupancyLink(RegionSum(nodes, ops, Regions[k]), a.occupied[k])
      {
        RegionSumNonNegative(nodes, ops, Regions[k]);
      }
    }
    if Phase1Feasible(nodes, a) {
      assert UnitSteps(ops);
      CountTrueOfNonZero(ops, a.moved);
    }
  }

  /** Unit steps summing to zero with at most two non-zero entries form
      either the no-op plan or a single add/remove pair. */
  lemma OpsShape(ops: seq<int>)
    requires UnitSteps(ops) && Sum(ops) == 0
    requires CountOf(ops, 1) + CountOf(ops, -1) <= 2
    ensures ops == NoopPlan(|ops|)
         || exists add: nat, rem: nat :: add < |ops| && rem < |ops| && add != rem
              && ops == MovePlan(|ops|, add, rem)
  {
    SumOfUnitSteps(ops);
    if CountOf(ops, 1) == 0 {
      CountOfAbsent(ops, 1);
      CountOfAbsent(ops, -1);
      assert ops == NoopPlan(|ops|);
    } else {
      var add := IndexOf(ops, 1);
      var rem := IndexOf(ops, -1);
      forall k | 0 <= k < |ops| && k != add && k != rem ensures ops[k] == 0 {
        if ops[k] == 1 {
          CountOfTwo(ops, 1, k, add);
        } else if ops[k] == -1 {
          CountOfTwo(ops, -1, k, rem);
        }
      }
      assert ops == MovePlan(|ops|, add, rem);
    }
  }

  /** A feasible plan is either the no-op plan or exactly one add plus one remove. */
  lemma PlanShape(nodes: seq<Node>, a: Assignment)
    requires |nodes| > 0 && Phase1Feasible(nodes, a)
    ensures a.ops == NoopPlan(|nodes|)
         || exists add: nat, rem: nat :: add < |nodes| && rem < |nodes| && add != rem
              && a.ops == MovePlan(|nodes|, add, rem)
  {
    CompletionFeasibleIff(nodes, a.ops);
    FeasibleIsCompletion(nodes, a);
    OpsShape(a.ops);
  }

  /** The no-op plan is feasible exactly when no initial load is negative. */
  lemma NoopFeasibleIff(nodes: seq<Node>)
    requires |nodes| > 0
    ensures Phase1Feasible(nodes, Completion(nodes, NoopPlan(|nodes|))) <==> NonNegativeLoads(nodes)
  {
    var ops := NoopPlan(|nodes|);
    CountOfNone(ops, 1);
    CountOfNone(ops, -1);
    SumOfUnitSteps(ops);
    CompletionFeasibleIff(nodes, ops);
  }

  /** Phase 1 is never infeasible: with non-negative loads the no-op plan
      satisfies every Phase-1 constraint. */
  lemma Phase1AlwaysFeasible(nodes: seq<Node>)
    requires |nodes| > 0 && NonNegativeLoads(nodes)
    ensures exists a :: Phase1Feasible(nodes, a)
  {
    NoopFeasibleIff(nodes);
    assert Phase1Feasible(nodes, Completion(nodes, NoopPlan(|nodes|)));
  }

  /** The pair plan (add on `add`, remove from `rem`) counts one of each. */
  lemma MovePlanCounts(n: nat, add: nat, rem: nat)
    requires add < n && rem < n && add != rem
    ensures UnitSteps(MovePlan(n, add, rem))
    ensures CountOf(MovePlan(n, add, rem), 1) == 1
    ensures CountOf(MovePlan(n, add, rem), -1) == 1
    ensures Sum(MovePlan(n, add, rem)) == 0
  {
    var z := NoopPlan(n);
    CountOfNone(z, 1);
    CountOfNone(z, -1);
    assert MovePlan(n, add, rem) == z[add := 1][rem := -1];
    CountOfUpdate(z, add, 1, 1);
    CountOfUpdate(z, add, 1, -1);
    CountOfUpdate(z[add := 1], rem, -1, 1);
    CountOfUpdate(z[add := 1], rem, -1, -1);
    SumOfUnitSteps(MovePlan(n, add, rem));
  }

  /** A pair plan is feasible exactly when the removing node holds the range
      and keeps a non-negative load, the adding node stays within the largest
      initial load, and every untouched node has a non-negative load. */
  lemma MovePlanFeasibleIff(nodes: seq<Node>, add: nat, rem: nat)
    requires add < |nodes| && rem < |nodes| && add != rem
    ensures Phase1Feasible(nodes, Completion(nodes, MovePlan(|nodes|, add, rem)))
        <==> && nodes[rem].hasRange
             && nodes[rem].replicaCount >= 1
             && -1 <= nodes[add].replicaCount < UpperBound(nodes)
             && (forall k :: 0 <= k < |nodes| && k != add && k != rem ==> nodes[k].replicaCount >= 0)
  {
    MovePlanCounts(|nodes|, add, rem);
    CompletionFeasibleIff(nodes, MovePlan(|nodes|, add, rem));
  }

  /** A node already at the largest initial load never receives an add. */
  lemma NoAddAtUpperBound(nodes: seq<Node>, a: Assignment, i: int)
    requires |nodes| > 0 && Phase1Feasible(nodes, a) && 0 <= i < |nodes|
    requires nodes[i].replicaCount == UpperBound(nodes)
    ensures a.ops[i] <= 0
  {
  }

  /** A node without the range never receives a remove. */
  lemma NoRemoveWithoutRange(nodes: seq<Node>, a: Assignment, i: int)
    requires |nodes| > 0 && Phase1Feasible(nodes, a) && 0 <= i < |nodes|
    requires !nodes[i].hasRange
    ensures a.ops[i] >= 0
  {
  }

  /** When every node has the same load no add fits under the load bound, so
      the no-op plan is the only feasible plan. */
  lemma EqualLoadsOnlyNoop(nodes: seq<Node>, a: Assignment)
    requires |nodes| > 0 && Phase1Feasible(nodes, a)
    requires forall i :: 0 <= i < |nodes| ==> nodes[i].replicaCount == nodes[0].replicaCount
    ensures a.ops == NoopPlan(|nodes|)
    ensures a == Completion(nodes, NoopPlan(|nodes|))
  {
    PlanShape(nodes, a);
    FeasibleIsCompletion(nodes, a);
  }

  /** A node without the range sitting at the largest initial load keeps that
      load, and of two nodes at load `low` or less at most one is raised, so
      every Phase-2 solution has spread at least `UpperBound - low`. */
  lemma SpreadLowerBound(nodes: seq<Node>, d: int, t: Phase2Solution, h: int, l1: int, l2: int, low: int)
    requires |nodes| > 0 && Phase2Feasible(nodes, d, t)
    requires 0 <= h < |nodes| && !nodes[h].hasRange && nodes[h].replicaCount == UpperBound(nodes)
    requires 0 <= l1 < |nodes| && 0 <= l2 < |nodes| && l1 != l2
    requires nodes[l1].replicaCount <= low && nodes[l2].replicaCount <= low
    ensures Spread(t) >= UpperBound(nodes) - low
  {
    var a := t.vars;
    NodeVariablesForced(nodes, a);
    NoAddAtUpperBound(nodes, a, h);
    NoRemoveWithoutRange(nodes, a, h);
    assert a.after[h] == UpperBound(nodes);
    PlanShape(nodes, a);
    assert a.after[l1] <= low || a.after[l2] <= low;
  }

  /** The legality constraint only bounds `Holding + op` from below: a node
      that already holds the range can be given a second replica. */
  lemma LegalityAdmitsSecondReplica() returns (nodes: seq<Node>, a: Assignment)
    ensures |nodes| > 0 && Phase1Feasible(nodes, a)
    ensures nodes[0].hasRange && Holding(nodes[0]) + a.ops[0] == 2
  {
    nodes := [Node(true, 1, "us-west-1a"), Node(true, 2, "us-west-1a")];
    a := Completion(nodes, MovePlan(2, 0, 1));
    MovePlanFeasibleIff(nodes, 0, 1);
  }

  /** The Phase-1 solution, extended with the max and min of its loads, is
      feasible for Phase 2 at its own diversity: the warm-start hint always
      names a feasible point. */
  lemma HintIsPhase2Feasible(nodes: seq<Node>, a: Assignment)
    requires |nodes| > 0 && Phase1Feasible(nodes, a)
    ensures Phase2Feasible(nodes, Diversity(a), Extend(a))
  {
  }

  /** A Phase-2 solution is forced by its ops, and its spread lies between 0
      and the largest initial load. */
  lemma Phase2Determined(nodes: seq<Node>, d: int, s: Phase2Solution)
    requires |nodes| > 0 && Phase2Feasible(nodes, d, s)
    ensures s == Extend(Completion(nodes, s.vars.ops))
    ensures 0 <= Spread(s) <= UpperBound(nodes)
  {
    FeasibleIsCompletion(nodes, s.vars);
  }
}
