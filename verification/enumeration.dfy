/** A brute-force engine for both phases. Because a feasible plan is the no-op
    plan or a single add/remove pair, the plan space has 1 + n(n-1) members;
    searching it exhaustively yields answers that meet the optimality
    specifications an OPTIMAL engine reply must meet. */
module Enumeration {
  import opened Seqs
  import opened Placement
  import opened PlanFacts
  import opened Pipeline

  datatype Option<T> = None | Some(value: T)

  /** The shapes a feasible plan can take over `n` nodes. */
  ghost predicate IsCandidate(n: nat, ops: seq<int>)
  {
    || ops == NoopPlan(n)
    || exists add: nat, rem: nat :: add < n && rem < n && add != rem && ops == MovePlan(n, add, rem)
  }

  /** Lists the no-op plan and every (add, rem) pair, each once: the whole
      plan space the move cap leaves, of size 1 + n(n-1). */
  method EnumeratePlans(n: nat) returns (plans: seq<seq<int>>)
    ensures NoopPlan(n) in plans
    ensures forall add: nat, rem: nat :: add < n && rem < n && add != rem ==> MovePlan(n, add, rem) in plans
    ensures forall p | p in plans :: IsCandidate(n, p)
    ensures |plans| == 1 + n * (n - 1)
  {
    plans := [NoopPlan(n)];
    for add := 0 to n
      invariant NoopPlan(n) in plans
      invariant forall a: nat, r: nat :: a < add && r < n && a != r ==> MovePlan(n, a, r) in plans
      invariant forall p | p in plans :: IsCandidate(n, p)
      invariant |plans| == 1 + add * (n - 1)
    {
      plans := AppendPairs(n, add, plans);
      assert 1 + add * (n - 1) + (n - 1) == 1 + (add + 1) * (n - 1);
    }
  }

  /** Appends every pair plan adding on `add`, one per removing node. */
  method AppendPairs(n: nat, add: nat, plans: seq<seq<int>>) returns (out: seq<seq<int>>)
    requires add < n
    ensures forall p | p in plans :: p in out
    ensures forall r: nat :: r < n && r != add ==> MovePlan(n, add, r) in out
    ensures forall p | p in out :: p in plans || IsCandidate(n, p)
    ensures |out| == |plans| + (n - 1)
  {
    out := plans;
    for rem := 0 to n
      invariant forall p | p in plans :: p in out
      invariant forall r: nat :: r < rem && r != add ==> MovePlan(n, add, r) in out
      invariant forall p | p in out :: p in plans || IsCandidate(n, p)
      invariant |out| == |plans| + (if add < rem then rem - 1 else rem)
    {
      if rem != add {
        out := out + [MovePlan(n, add, rem)];
      }
    }
  }

  /** Every feasible assignment is the completion of a listed plan. */
  lemma FeasibleIsListed(nodes: seq<Node>, plans: seq<seq<int>>, b: Assignment)
    requires |nodes| > 0 && Phase1Feasible(nodes, b)
    requires NoopPlan(|nodes|) in plans
    requires forall add: nat, rem: nat ::
      (add < |nodes| && rem < |nodes| && add != rem ==> MovePlan(|nodes|, add, rem) in plans)
    ensures b.ops in plans && b == Completion(nodes, b.ops)
  {
    PlanShape(nodes, b);
    FeasibleIsCompletion(nodes, b);
  }

  /** A feasible candidate whose diversity the current best already matches. */
  ghost predicate Covered1(nodes: seq<Node>, best: Option<Assignment>, ops: seq<int>)
    requires |nodes| > 0
  {
    |ops| == |nodes| && Phase1Feasible(nodes, Completion(nodes, ops)) ==>
      best.Some? && Diversity(Completion(nodes, ops)) <= Diversity(best.value)
  }

  /** One search step of Phase 1: keep the better of the current best and the
      completion of `ops`, without losing coverage of the plans already seen. */
  method Consider1(nodes: seq<Node>, best: Option<Assignment>, ops: seq<int>, ghost seen: seq<seq<int>>)
    returns (next: Option<Assignment>)
    requires |nodes| > 0
    requires best.Some? ==> Phase1Feasible(nodes, best.value)
    requires forall p | p in seen :: Covered1(nodes, best, p)
    ensures next.Some? ==> Phase1Feasible(nodes, next.value)
    ensures forall p | p in seen + [ops] :: Covered1(nodes, next, p)
  {
    next := best;
    if |ops| == |nodes| {
      var c := Completion(nodes, ops);
      if Phase1Feasible(nodes, c) && (best.None? || Diversity(c) > Diversity(best.value)) {
        next := Some(c);
      }
    }
  }

  /** Phase 1 by exhaustive search: a feasible assignment of maximal
      diversity, or None exactly when nothing is feasible. */
  method BestPhase1(nodes: seq<Node>) returns (best: Option<Assignment>)
    requires |nodes| > 0
    ensures best.Some? ==> Phase1Optimal(nodes, best.value)
    ensures best.None? ==> forall b :: !Phase1Feasible(nodes, b)
    ensures NonNegativeLoads(nodes) ==> best.Some?
  {
    var plans := EnumeratePlans(|nodes|);
    best := None;
    for i := 0 to |plans|
      invariant best.Some? ==> Phase1Feasible(nodes, best.value)
      invariant forall p | p in plans[..i] :: Covered1(nodes, best, p)
    {
      best := Consider1(nodes, best, plans[i], plans[..i]);
      assert plans[..i + 1] == plans[..i] + [plans[i]];
    }
    assert plans[..|plans|] == plans;
    SearchedAll1(nodes, plans, best);
  }

  /** Once every listed plan is covered, the best one found is optimal. */
  lemma SearchedAll1(nodes: seq<Node>, plans: seq<seq<int>>, best: Option<Assignment>)
    requires |nodes| > 0
    requires NoopPlan(|nodes|) in plans
    requires forall add: nat, rem: nat ::
      (add < |nodes| && rem < |nodes| && add != rem ==> MovePlan(|nodes|, add, rem) in plans)
    requires best.Some? ==> Phase1Feasible(nodes, best.value)
    requires forall p | p in plans :: Covered1(nodes, best, p)
    ensures best.Some? ==> Phase1Optimal(nodes, best.value)
    ensures best.None? ==> forall b :: !Phase1Feasible(nodes, b)
    ensures NonNegativeLoads(nodes) ==> best.Some?
  {
    forall b | Phase1Feasible(nodes, b) ensures best.Some? && Diversity(b) <= Diversity(best.value) {
      FeasibleIsListed(nodes, plans, b);
      assert Covered1(nodes, best, b.ops);
    }
    if NonNegativeLoads(nodes) {
      Phase1AlwaysFeasible(nodes);
    }
  }

  /** A feasible candidate of diversity `d` whose spread the current best already matches. */
  ghost predicate Covered2(nodes: seq<Node>, d: int, best: Option<Phase2Solution>, ops: seq<int>)
    requires |nodes| > 0
  {
    |ops| == |nodes| && Phase1Feasible(nodes, Completion(nodes, ops))
    && Diversity(Completion(nodes, ops)) == d ==>
      best.Some? && Spread(best.value) <= Spread(Extend(Completion(nodes, ops)))
  }

  /** One search step of Phase 2: keep the lower-spread of the current best
      and the completion of `ops` when it has diversity `d`. */
  method Consider2(
    nodes: seq<Node>, d: int, best: Option<Phase2Solution>, ops: seq<int>, ghost seen: seq<seq<int>>)
    returns (next: Option<Phase2Solution>)
    requires |nodes| > 0
    requires best.Some? ==> Phase2Feasible(nodes, d, best.value)
    requires forall p | p in seen :: Covered2(nodes, d, best, p)
    ensures next.Some? ==> Phase2Feasible(nodes, d, next.value)
    ensures forall p | p in seen + [ops] :: Covered2(nodes, d, next, p)
  {
    next := best;
    if |ops| == |nodes| {
      var c := Completion(nodes, ops);
      if Phase1Feasible(nodes, c) && Diversity(c) == d {
        var s := Extend(c);
        HintIsPhase2Feasible(nodes, c);
        if best.None? || Spread(s) < Spread(best.value) {
          next := Some(s);
          KeepCoverage2(nodes, d, best, next, seen);
        }
      }
    }
  }

  /** Replacing the best by one of no larger spread keeps what was covered covered. */
  lemma KeepCoverage2(
    nodes: seq<Node>, d: int, best: Option<Phase2Solution>, next: Option<Phase2Solution>, seen: seq<seq<int>>)
    requires |nodes| > 0
    requires forall p | p in seen :: Covered2(nodes, d, best, p)
    requires next.Some? && (best.Some? ==> Spread(next.value) <= Spread(best.value))
    ensures forall p | p in seen :: Covered2(nodes, d, next, p)
  {
    forall p | p in seen ensures Covered2(nodes, d, next, p) {
      assert Covered2(nodes, d, best, p);
    }
  }

  /** Phase 2 by exhaustive search: among feasible plans of diversity `d`, one
      of minimal spread, or None exactly when no such plan exists. */
  method BestPhase2(nodes: seq<Node>, d: int) returns (best: Option<Phase2Solution>)
    requires |nodes| > 0
    ensures best.Some? ==> Phase2Optimal(nodes, d, best.value)
    ensures best.None? ==> forall t :: !Phase2Feasible(nodes, d, t)
  {
    var plans := EnumeratePlans(|nodes|);
    best := None;
    for i := 0 to |plans|
      invariant best.Some? ==> Phase2Feasible(nodes, d, best.value)
      invariant forall p | p in plans[..i] :: Covered2(nodes, d, best, p)
    {
      best := Consider2(nodes, d, best, plans[i], plans[..i]);
      assert plans[..i + 1] == plans[..i] + [plans[i]];
    }
    assert plans[..|plans|] == plans;
    SearchedAll2(nodes, d, plans, best);
  }

  /** Once every listed plan is covered, the best Phase-2 solution found is optimal. */
  lemma SearchedAll2(nodes: seq<Node>, d: int, plans: seq<seq<int>>, best: Option<Phase2Solution>)
    requires |nodes| > 0
    requires NoopPlan(|nodes|) in plans
    requires forall add: nat, rem: nat ::
      (add < |nodes| && rem < |nodes| && add != rem ==> MovePlan(|nodes|, add, rem) in plans)
    requires best.Some? ==> Phase2Feasible(nodes, d, best.value)
    requires forall p | p in plans :: Covered2(nodes, d, best, p)
    ensures best.Some? ==> Phase2Optimal(nodes, d, best.value)
    ensures best.None? ==> forall t :: !Phase2Feasible(nodes, d, t)
  {
    forall t | Phase2Feasible(nodes, d, t) ensures best.Some? && Spread(best.value) <= Spread(t) {
      Phase2Determined(nodes, d, t);
      FeasibleIsListed(nodes, plans, t.vars);
      assert Covered2(nodes, d, best, t.vars.ops);
    }
  }

  /** The brute-force Phase-1 engine as an engine reply. */
  method Phase1Engine(nodes: seq<Node>) returns (reply: Reply<Assignment>)
    requires |nodes| > 0
    ensures SoundPhase1Reply(nodes, reply)
    ensures reply.Answered? && reply.response.status in {Optimal, Infeasible}
    ensures reply.response.status == Infeasible <==> forall b :: !Phase1Feasible(nodes, b)
  {
    var best := BestPhase1(nodes);
    match best
    case Some(a) =>
      reply := Answered(Response(Optimal, a, Diversity(a)));
    case None =>
      reply := Answered(Response(Infeasible, Completion(nodes, NoopPlan(|nodes|)), 0));
  }

  /** The brute-force Phase-2 engine as an engine reply. */
  method Phase2Engine(p: Phase2Problem) returns (reply: Reply<Phase2Solution>)
    requires |p.nodes| > 0
    ensures SoundPhase2Reply(p, reply)
    ensures reply.Answered? && reply.response.status in {Optimal, Infeasible}
    ensures reply.response.status == Infeasible <==> forall t :: !Phase2Feasible(p.nodes, p.diversity, t)
  {
    var best := BestPhase2(p.nodes, p.diversity);
    match best
    case Some(s) =>
      reply := Answered(Response(Optimal, s, Spread(s)));
    case None =>
      var none := Completion(p.nodes, NoopPlan(|p.nodes|));
      reply := Answered(Response(Infeasible, Extend(none), 0));
  }

  /** The whole two-phase run with the brute-force engines plugged into
      `Solve`: it returns the engines' replies along with the outcome. With
      non-negative loads it always plans, and what it plans is the
      lexicographic optimum. The only failure is a Phase-1 INFEASIBLE answer,
      and it happens only when nothing is feasible. */
  method Rebalance(nodes: seq<Node>)
    returns (o: Outcome, reply1: Reply<Assignment>, reply2: Reply<Phase2Solution>)
    requires |nodes| > 0
    ensures o == Solve(nodes, _ => reply1, _ => reply2)
    ensures SoundPhase1Reply(nodes, reply1)
    ensures Gate(reply1).Success? ==> SoundPhase2Reply(Phase2Of(nodes, reply1.response), reply2)
    ensures o.Planned? ==> LexOptimal(nodes, o.solution)
    ensures NonNegativeLoads(nodes) ==> o.Planned?
    ensures o.Failed? ==> o == Failed(First, BadStatus(Infeasible))
    ensures o.Failed? ==> forall b :: !Phase1Feasible(nodes, b)
  {
    reply1 := Phase1Engine(nodes);
    match Gate(reply1)
    case Failure(e) =>
      reply2 := BuildRejected;
      o := Solve(nodes, _ => reply1, _ => reply2);
      if NonNegativeLoads(nodes) {
        Phase1AlwaysFeasible(nodes);
      }
    case Success(r1) =>
      var p := Phase2Of(nodes, r1);
      reply2 := Phase2Engine(p);
      o := Solve(nodes, _ => reply1, _ => reply2);
      HintIsPhase2Feasible(nodes, r1.solution);
      var s := reply2.response.solution;
      assert reply2.response.status == Optimal;
      assert Diversity(s.vars) == Diversity(r1.solution);
      forall b | Phase1Feasible(nodes, b) ensures Diversity(b) <= Diversity(s.vars) {
        assert Diversity(b) <= Diversity(r1.solution);
      }
  }
}
