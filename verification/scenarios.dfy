/** The nine-node instance the program plans for: three nodes per region,
    range replicas on two nodes of us-west-1a and one of us-west-1b, none in
    us-west-1c. Its lexicographic optimum is pinned down here: diversity 3
    (move a replica into us-west-1c) and spread 4. */
module Scenarios {
  import opened Seqs
  import opened Placement
  import opened PlanFacts
  import opened Pipeline

  /** The instance: node by node, as the program lists it. */
  predicate IsMainInstance(nodes: seq<Node>)
  {
    && |nodes| == 9
    && nodes[0] == Node(true, 6, "us-west-1a")
    && nodes[1] == Node(false, 2, "us-west-1a")
    && nodes[2] == Node(true, 2, "us-west-1a")
    && nodes[3] == Node(true, 6, "us-west-1b")
    && nodes[4] == Node(false, 6, "us-west-1b")
    && nodes[5] == Node(false, 3, "us-west-1b")
    && nodes[6] == Node(false, 3, "us-west-1c")
    && nodes[7] == Node(false, 3, "us-west-1c")
    && nodes[8] == Node(false, 3, "us-west-1c")
  }

  /** The largest initial load of the instance is 6. */
  lemma MainUpperBound(nodes: seq<Node>)
    requires IsMainInstance(nodes)
    ensures UpperBound(nodes) == 6
  {
    var ub := UpperBound(nodes);
    assert nodes[0].replicaCount <= ub;
    var i :| 0 <= i < 9 && nodes[i].replicaCount == ub;
    assert nodes[i].replicaCount <= 6;
  }

  /** Moving the replica of node 0 to node 6 is feasible. */
  lemma MainPlanFeasible(nodes: seq<Node>)
    requires IsMainInstance(nodes)
    ensures Phase1Feasible(nodes, Completion(nodes, MovePlan(9, 6, 0)))
  {
    MainUpperBound(nodes);
    assert forall k :: 0 <= k < 9 ==> nodes[k].replicaCount >= 0;
    MovePlanFeasibleIff(nodes, 6, 0);
  }

  /** The move reaches every region: node 2 keeps us-west-1a, node 3 keeps
      us-west-1b and node 6 takes us-west-1c. */
  lemma MainPlanDiversity(nodes: seq<Node>)
    requires IsMainInstance(nodes)
    ensures Diversity(Completion(nodes, MovePlan(9, 6, 0))) == 3
  {
    var ops := MovePlan(9, 6, 0);
    var a := Completion(nodes, ops);
    assert forall j :: 0 <= j < 9 ==> Holding(nodes[j]) + ops[j] >= 0;
    assert nodes[2].region == Regions[0] && nodes[3].region == Regions[1] && nodes[6].region == Regions[2];
    RegionSumPositive(nodes, ops, Regions[0], 2);
    RegionSumPositive(nodes, ops, Regions[1], 3);
    RegionSumPositive(nodes, ops, Regions[2], 6);
    assert a.occupied[0] && a.occupied[1] && a.occupied[2];
    CountTrueAll(a.occupied);
  }

  /** Loads after the move are [5, 2, 2, 6, 6, 3, 4, 3, 3]: spread 6 - 2. */
  lemma MainPlanSpread(nodes: seq<Node>)
    requires IsMainInstance(nodes)
    ensures Spread(Extend(Completion(nodes, MovePlan(9, 6, 0)))) == 4
  {
    var ops := MovePlan(9, 6, 0);
    var a := Completion(nodes, ops);
    assert forall k :: 0 <= k < 9 ==> 2 <= a.after[k] <= 6;
    assert a.after[3] == 6 && a.after[1] == 2;
  }

  /** Every plan for the instance of diversity 3 keeps node 4 at load 6 (it can
      neither receive nor give a replica) and leaves node 1 or node 2 at load
      2 or less, so its spread is at least 4. */
  lemma MainSpreadLowerBound(nodes: seq<Node>, t: Phase2Solution)
    requires IsMainInstance(nodes) && Phase2Feasible(nodes, 3, t)
    ensures Spread(t) >= 4
  {
    MainUpperBound(nodes);
    SpreadLowerBound(nodes, 3, t, 4, 1, 2, 2);
  }

  /** The move is lexicographically optimal: no feasible plan beats
      diversity 3, and no plan of diversity 3 beats spread 4. */
  lemma MainPlanLexOptimal(nodes: seq<Node>)
    requires IsMainInstance(nodes)
    ensures LexOptimal(nodes, Extend(Completion(nodes, MovePlan(9, 6, 0))))
  {
    var w := Completion(nodes, MovePlan(9, 6, 0));
    MainPlanFeasible(nodes);
    MainPlanDiversity(nodes);
    MainPlanSpread(nodes);
    forall b | Phase1Feasible(nodes, b) ensures Diversity(b) <= Diversity(w) {
      OccupancyForced(nodes, b);
    }
    HintIsPhase2Feasible(nodes, w);
    forall t | Phase2Feasible(nodes, 3, t) ensures 4 <= Spread(t) {
      MainSpreadLowerBound(nodes, t);
    }
  }

  /** Any lexicographically optimal plan for the instance has diversity 3
      and spread 4: the run's target on it. */
  lemma MainOptimumValues(nodes: seq<Node>, s: Phase2Solution)
    requires IsMainInstance(nodes) && LexOptimal(nodes, s)
    ensures Diversity(s.vars) == 3 && Spread(s) == 4
  {
    var w := Completion(nodes, MovePlan(9, 6, 0));
    MainPlanFeasible(nodes);
    MainPlanDiversity(nodes);
    MainPlanSpread(nodes);
    assert Diversity(w) <= Diversity(s.vars);
    OccupancyForced(nodes, s.vars);
    HintIsPhase2Feasible(nodes, w);
    assert Spread(s) <= Spread(Extend(w));
    MainSpreadLowerBound(nodes, s);
  }
}
