/** The placement model of one planning run: the nodes, the fixed region list,
    the decision variables the constraint builder declares, every constraint it
    posts, and the two objectives (diversity, then spread). A candidate solution
    is a full assignment of the decision variables; the predicates below say
    whether the constraint system accepts it. */
module Placement {
  import opened Seqs

  /** One storage node: whether it holds a replica of the range, its overall
      replica load, and its failure domain. */
  datatype Node = Node(hasRange: bool, replicaCount: int, region: string)

  /** The fixed list of regions. A node tagged with any other region belongs
      to no region sum. */
  const Regions: seq<string> := ["us-west-1a", "us-west-1b", "us-west-1c"]

  /** Values of the Phase-1 decision variables: per node `op`, `moved` and the
      post-plan load `after`; per region (indexed like `Regions`) `occupied`. */
  datatype Assignment = Assignment(
    ops: seq<int>,
    moved: seq<bool>,
    after: seq<int>,
    occupied: seq<bool>)

  /** Phase 2 adds the two aggregation variables to the same variable set. */
  datatype Phase2Solution = Phase2Solution(vars: Assignment, maxCount: int, minCount: int)

  /** The range-holding indicator as the 0/1 constant of the linear expressions. */
  function Holding(n: Node): int
  {
    if n.hasRange then 1 else 0
  }

  function Loads(nodes: seq<Node>): (loads: seq<int>)
    ensures |loads| == |nodes|
    ensures forall i :: 0 <= i < |nodes| ==> loads[i] == nodes[i].replicaCount
  {
    seq(|nodes|, i requires 0 <= i < |nodes| => nodes[i].replicaCount)
  }

  /** The largest initial load: the upper end of every `after` domain. */
  function UpperBound(nodes: seq<Node>): (ub: int)
    requires |nodes| > 0
    ensures forall i :: 0 <= i < |nodes| ==> nodes[i].replicaCount <= ub
    ensures exists i :: 0 <= i < |nodes| && nodes[i].replicaCount == ub
  {
    var loads := Loads(nodes);
    var ub := Max(loads);
    assert exists i :: 0 <= i < |loads| && loads[i] == ub;
    ub
  }

  predicate NonNegativeLoads(nodes: seq<Node>)
  {
    forall i :: 0 <= i < |nodes| ==> nodes[i].replicaCount >= 0
  }

  /** Post-plan replica count of the range over the members of region `r`:
      the sum of `Holding + op` over nodes whose region is `r`. */
  function RegionSum(nodes: seq<Node>, ops: seq<int>, r: string): int
    requires |ops| == |nodes|
  {
    if |nodes| == 0 then 0
    else
      (if nodes[0].region == r then Holding(nodes[0]) + ops[0] else 0)
      + RegionSum(nodes[1..], ops[1..], r)
  }

  /** Constraints posted for one node: the op domain, the two-way enforcement
      linking `moved`, the `after` domain and its defining equality, the
      redundant `after >= 0`, and legality `Holding + op >= 0`. */
  predicate NodeConstraints(n: Node, op: int, moved: bool, after: int, ub: int)
  {
    && -1 <= op <= 1
    && (!moved ==> op == 0)
    && (moved ==> op != 0)
    && 0 <= after <= ub
    && after == n.replicaCount + op
    && after >= 0
    && Holding(n) + op >= 0
  }

  /** Enforcement of `occupied`: true forces the sum above zero, false forces it to zero. */
  predicate OccupancyLink(sum: int, occupied: bool)
  {
    && (occupied ==> sum > 0)
    && (!occupied ==> sum == 0)
  }

  /** One variable per node and per region. */
  predicate WellShaped(nodes: seq<Node>, a: Assignment)
  {
    && |a.ops| == |nodes|
    && |a.moved| == |nodes|
    && |a.after| == |nodes|
    && |a.occupied| == |Regions|
  }

  /** The full Phase-1 constraint system. */
  predicate Phase1Feasible(nodes: seq<Node>, a: Assignment)
    requires |nodes| > 0
  {
    && WellShaped(nodes, a)
    && (forall i :: 0 <= i < |nodes| ==>
          NodeConstraints(nodes[i], a.ops[i], a.moved[i], a.after[i], UpperBound(nodes)))
    && Sum(a.ops) == 0
    && CountTrue(a.moved) <= 2
    && (forall k :: 0 <= k < |Regions| ==>
          OccupancyLink(RegionSum(nodes, a.ops, Regions[k]), a.occupied[k]))
  }

  /** The Phase-1 objective: number of occupied regions. */
  function Diversity(a: Assignment): int
  {
    CountTrue(a.occupied)
  }

  /** The Phase-2 constraint system for a Phase-1 objective value `d`: all of
      Phase 1, diversity held at `d`, and the max/min aggregation variables. */
  predicate Phase2Feasible(nodes: seq<Node>, d: int, s: Phase2Solution)
    requires |nodes| > 0
  {
    && Phase1Feasible(nodes, s.vars)
    && Diversity(s.vars) == d
    && 0 <= s.maxCount <= UpperBound(nodes)
    && s.maxCount == Max(s.vars.after)
    && 0 <= s.minCount <= UpperBound(nodes)
    && s.minCount == Min(s.vars.after)
  }

  /** The Phase-2 objective: the largest minus the smallest post-plan load. */
  function Spread(s: Phase2Solution): int
  {
    s.maxCount - s.minCount
  }

  /** What a solver must return when it reports an optimal Phase-1 answer. */
  ghost predicate Phase1Optimal(nodes: seq<Node>, a: Assignment)
    requires |nodes| > 0
  {
    && Phase1Feasible(nodes, a)
    && forall b :: Phase1Feasible(nodes, b) ==> Diversity(b) <= Diversity(a)
  }

  /** What a solver must return when it reports an optimal Phase-2 answer. */
  ghost predicate Phase2Optimal(nodes: seq<Node>, d: int, s: Phase2Solution)
    requires |nodes| > 0
  {
    && Phase2Feasible(nodes, d, s)
    && forall t :: Phase2Feasible(nodes, d, t) ==> Spread(s) <= Spread(t)
  }

  /** The plan that changes nothing. */
  function NoopPlan(n: nat): (ops: seq<int>)
    ensures |ops| == n
    ensures forall k :: 0 <= k < n ==> ops[k] == 0
  {
    seq(n, k => 0)
  }

  /** The plan adding a replica on `add` and removing one from `rem`. */
  function MovePlan(n: nat, add: nat, rem: nat): (ops: seq<int>)
    requires add < n && rem < n && add != rem
    ensures |ops| == n
    ensures ops[add] == 1 && ops[rem] == -1
    ensures forall k :: 0 <= k < n && k != add && k != rem ==> ops[k] == 0
  {
    seq(n, k => if k == add then 1 else if k == rem then -1 else 0)
  }

  /** The values every other variable is forced to once the ops are chosen. */
  function Completion(nodes: seq<Node>, ops: seq<int>): (a: Assignment)
    requires |ops| == |nodes|
    ensures WellShaped(nodes, a) && a.ops == ops
  {
    Assignment(
      ops,
      seq(|nodes|, i requires 0 <= i < |nodes| => ops[i] != 0),
      seq(|nodes|, i requires 0 <= i < |nodes| => nodes[i].replicaCount + ops[i]),
      seq(|Regions|, k requires 0 <= k < |Regions| => RegionSum(nodes, ops, Regions[k]) > 0))
  }

  /** The Phase-2 extension of a Phase-1 assignment: max and min of the loads. */
  function Extend(a: Assignment): Phase2Solution
    requires |a.after| > 0
  {
    Phase2Solution(a, Max(a.after), Min(a.after))
  }
}
