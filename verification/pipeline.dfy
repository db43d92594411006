/** The two-phase orchestration of one planning run. The optimization engine
    is not modelled: each phase's engine is a function parameter from the
    problem it is given to its reply, and what an honest engine may reply is
    stated by the `Sound...Reply` predicates. */
module Pipeline {
  import opened Seqs
  import opened Placement
  import opened PlanFacts

  /** The statuses the engine can report. */
  datatype Status = Unknown | ModelInvalid | Feasible | Infeasible | Optimal

  /** A completed solve: status, the assignment read back, and the objective value. */
  datatype Response<T> = Response(status: Status, solution: T, objective: int)

  /** Building the model can be rejected, the solve call itself can fail, or
      the engine answers with a response. */
  datatype Reply<T> = BuildRejected | EngineFailed | Answered(response: Response<T>)

  /** Why a phase produced no usable response. */
  datatype SolveError = BuildFailed | SolveFailed | BadStatus(status: Status)

  datatype Result<T, E> = Success(value: T) | Failure(error: E)

  datatype Phase = First | Second

  /** The run either plans (both phases succeeded) or fails, tagged by phase. */
  datatype Outcome = Planned(solution: Phase2Solution) | Failed(phase: Phase, cause: SolveError)

  /** The second problem: the same nodes, the diversity to hold, and the
      non-binding warm-start hint (the Phase-1 ops). */
  datatype Phase2Problem = Phase2Problem(nodes: seq<Node>, diversity: int, hint: seq<int>)

  /** The status gate applied to every engine reply: only a FEASIBLE or
      OPTIMAL answer is accepted, and the error names what went wrong. */
  function Gate<T>(reply: Reply<T>): (g: Result<Response<T>, SolveError>)
    ensures g.Success? <==> reply.Answered? && reply.response.status in {Feasible, Optimal}
    ensures g.Success? ==> g.value == reply.response
    ensures reply.BuildRejected? ==> g == Failure(BuildFailed)
    ensures reply.EngineFailed? ==> g == Failure(SolveFailed)
    ensures reply.Answered? && g.Failure? ==> g.error == BadStatus(reply.response.status)
  {
    match reply
    case BuildRejected => Failure(BuildFailed)
    case EngineFailed => Failure(SolveFailed)
    case Answered(r) =>
      if r.status != Feasible && r.status != Optimal then Failure(BadStatus(r.status))
      else Success(r)
  }

  /** The Phase-2 problem handed on by an accepted Phase-1 response. */
  function Phase2Of(nodes: seq<Node>, r1: Response<Assignment>): Phase2Problem
  {
    Phase2Problem(nodes, r1.objective, r1.solution.ops)
  }

  /** The linear pipeline: Phase 1, then (only if it was accepted) Phase 2. */
  function Solve(
    nodes: seq<Node>,
    engine1: seq<Node> -> Reply<Assignment>,
    engine2: Phase2Problem -> Reply<Phase2Solution>): (o: Outcome)
    requires |nodes| > 0
    ensures o.Failed? && o.phase == First <==> Gate(engine1(nodes)).Failure?
    ensures o.Failed? && o.phase == First ==> o.cause == Gate(engine1(nodes)).error
    ensures o.Failed? && o.phase == Second ==>
      && Gate(engine1(nodes)).Success?
      && var g2 := Gate(engine2(Phase2Of(nodes, engine1(nodes).response)));
         g2.Failure? && o.cause == g2.error
    ensures o.Planned? ==>
      && Gate(engine1(nodes)).Success?
      && var r2 := engine2(Phase2Of(nodes, engine1(nodes).response));
         Gate(r2).Success? && o.solution == r2.response.solution
  {
    match Gate(engine1(nodes))
    case Failure(e) => Failed(First, e)
    case Success(r1) =>
      match Gate(engine2(Phase2Of(nodes, r1)))
      case Failure(e) => Failed(Second, e)
      case Success(r2) => Planned(r2.solution)
  }

  /** What an honest engine may answer for Phase 1: an optimal or feasible
      answer carries a feasible assignment and its diversity (optimal ones a
      maximal one), and INFEASIBLE means no assignment is feasible. */
  ghost predicate SoundPhase1Reply(nodes: seq<Node>, reply: Reply<Assignment>)
    requires |nodes| > 0
  {
    reply.Answered? ==>
      var r := reply.response;
      && (r.status == Optimal ==> Phase1Optimal(nodes, r.solution) && r.objective == Diversity(r.solution))
      && (r.status == Feasible ==> Phase1Feasible(nodes, r.solution) && r.objective == Diversity(r.solution))
      && (r.status == Infeasible ==> forall b :: !Phase1Feasible(nodes, b))
  }

  /** The same for Phase 2, against the diversity the problem holds fixed. */
  ghost predicate SoundPhase2Reply(p: Phase2Problem, reply: Reply<Phase2Solution>)
  {
    |p.nodes| > 0 && reply.Answered? ==>
      var r := reply.response;
      && (r.status == Optimal ==> Phase2Optimal(p.nodes, p.diversity, r.solution) && r.objective == Spread(r.solution))
      && (r.status == Feasible ==> Phase2Feasible(p.nodes, p.diversity, r.solution) && r.objective == Spread(r.solution))
      && (r.status == Infeasible ==> forall t :: !Phase2Feasible(p.nodes, p.diversity, t))
  }

  ghost predicate SoundEngines(
    nodes: seq<Node>,
    engine1: seq<Node> -> Reply<Assignment>,
    engine2: Phase2Problem -> Reply<Phase2Solution>)
    requires |nodes| > 0
  {
    && SoundPhase1Reply(nodes, engine1(nodes))
    && forall p :: SoundPhase2Reply(p, engine2(p))
  }

  /** A planned result satisfies every constraint: it is Phase-1 feasible
      (so conservation, the two-move cap and legality hold), it keeps the
      diversity Phase 1 reported, and its spread is in [0, UpperBound]. */
  lemma PlannedIsFeasible(
    nodes: seq<Node>,
    engine1: seq<Node> -> Reply<Assignment>,
    engine2: Phase2Problem -> Reply<Phase2Solution>)
    requires |nodes| > 0 && SoundEngines(nodes, engine1, engine2)
    ensures var o := Solve(nodes, engine1, engine2);
      o.Planned? ==>
        && Phase2Feasible(nodes, engine1(nodes).response.objective, o.solution)
        && Diversity(o.solution.vars) == Diversity(engine1(nodes).response.solution)
        && Sum(o.solution.vars.ops) == 0
        && CountTrue(o.solution.vars.moved) <= 2
        && 0 <= Spread(o.solution) <= UpperBound(nodes)
  {
    var o := Solve(nodes, engine1, engine2);
    if o.Planned? {
      var p := Phase2Of(nodes, engine1(nodes).response);
      assert SoundPhase2Reply(p, engine2(p));
      Phase2Determined(nodes, p.diversity, o.solution);
    }
  }

  /** Neither phase fails as infeasible: Phase 1 because the no-op plan is
      feasible, Phase 2 because the Phase-1 solution itself is. */
  lemma NeverInfeasible(
    nodes: seq<Node>,
    engine1: seq<Node> -> Reply<Assignment>,
    engine2: Phase2Problem -> Reply<Phase2Solution>)
    requires |nodes| > 0 && NonNegativeLoads(nodes) && SoundEngines(nodes, engine1, engine2)
    ensures Solve(nodes, engine1, engine2) != Failed(First, BadStatus(Infeasible))
    ensures Solve(nodes, engine1, engine2) != Failed(Second, BadStatus(Infeasible))
  {
    Phase1AlwaysFeasible(nodes);
    var r1 := engine1(nodes);
    if Gate(r1).Success? {
      var a := r1.response.solution;
      var p := Phase2Of(nodes, r1.response);
      assert SoundPhase2Reply(p, engine2(p));
      HintIsPhase2Feasible(nodes, a);
    }
  }

  /** The lexicographic optimum both phases aim at: maximal diversity among
      all feasible plans, then minimal spread among plans of that diversity. */
  ghost predicate LexOptimal(nodes: seq<Node>, s: Phase2Solution)
    requires |nodes| > 0
  {
    && Phase1Optimal(nodes, s.vars)
    && Phase2Optimal(nodes, Diversity(s.vars), s)
  }

  /** When both engines answer OPTIMAL the run plans the lexicographic optimum. */
  lemma OptimalRepliesGiveLexOptimum(
    nodes: seq<Node>,
    engine1: seq<Node> -> Reply<Assignment>,
    engine2: Phase2Problem -> Reply<Phase2Solution>)
    requires |nodes| > 0 && SoundEngines(nodes, engine1, engine2)
    requires engine1(nodes).Answered? && engine1(nodes).response.status == Optimal
    requires var p := Phase2Of(nodes, engine1(nodes).response);
      engine2(p).Answered? && engine2(p).response.status == Optimal
    ensures Solve(nodes, engine1, engine2).Planned?
    ensures LexOptimal(nodes, Solve(nodes, engine1, engine2).solution)
  {
    var r1 := engine1(nodes).response;
    var p := Phase2Of(nodes, r1);
    assert SoundPhase2Reply(p, engine2(p));
    var s := engine2(p).response.solution;
    var a := r1.solution;
    assert Diversity(s.vars) == Diversity(a);
    forall b | Phase1Feasible(nodes, b) ensures Diversity(b) <= Diversity(s.vars) {
      assert Diversity(b) <= Diversity(a);
    }
  }
}
