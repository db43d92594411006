# Replica placement planner — a Dafny model

This project models the placement-planning core of a range rebalancer
(`solve` and `solveModel` in `main.go`). Given storage nodes, the planner picks
a per-node operation `op ∈ {-1, 0, +1}` for one range. `-1` removes a replica,
`0` does nothing and `+1` adds one. The search runs in two phases:

1. Maximise **diversity**, the number of regions that hold the range after the plan.
2. Keep that diversity fixed and minimise **spread**, the largest post-plan node
   load minus the smallest.

The constraint builder posts the following. The model states each one exactly
as `main.go` posts it:

- op domain `[-1, 1]`
- a two-way enforcement linking `moved[i]` and `op[i] != 0`
- `after[i] = replicaCount[i] + op[i]` with `after[i] ∈ [0, max initial replicaCount]`
- legality `hasRange + op >= 0`
- conservation `Σ op = 0`
- the move cap `Σ moved <= 2`
- per-region enforcement of `occupied` against the member sum `Σ (hasRange + op)`

A candidate solution is a full assignment of the decision variables
(`Placement.Assignment`, plus `Placement.Phase2Solution` for the two
aggregation variables). `Phase1Feasible` and `Phase2Feasible` say whether the
constraint system accepts it. The optimisation engine is not modelled. Each
phase's engine is a function parameter, and `Pipeline.SoundPhase1Reply` and
`Pipeline.SoundPhase2Reply` state what an honest engine may answer for each
status. `Enumeration` gives a brute-force engine and proves that it meets
those specifications. It relies on the fact that the move cap leaves only the
no-op plan and the `n(n-1)` single add/remove pairs.

Modules, leaf first:

- `Seqs`: sums, counts, max/min.
- `Placement`: nodes, regions, variables, constraints, objectives.
- `PlanFacts`: consequences of the constraints.
- `Pipeline`: status gate, phase sequencing, engine soundness.
- `Enumeration`: brute-force engines and the whole run.
- `Scenarios`: the nine-node instance hard-coded in `main`.

### Where the code and its comments disagree (the model follows the code)

- **Legality.** The comment at `main.go:104` says each node holds at most one
  replica, but only `hasRange + op >= 0` is posted (`main.go:110`).
  `PlanFacts.LegalityAdmitsSecondReplica` exhibits a feasible plan that adds a
  second replica to a node already holding the range, so `hasRange + op = 2`
  there; the only upper bound is the indirect one from the load domain.
- **Unlisted regions.** Region sums are built only for the three listed
  regions. A node tagged with any other region joins no sum, so it never
  affects occupancy or diversity (`PlanFacts.UnlistedRegionIgnored`).
- **Equal loads.** With equal initial loads no add fits under the load bound,
  so the no-op plan is the only feasible plan (`PlanFacts.EqualLoadsOnlyNoop`).
- **Negative loads.** `Node.replicaCount` is an `int64` (`main.go:25`) and
  `solve` never checks its sign, so the model allows negative loads. The
  lemmas that need non-negative loads (Phase 1 never infeasible) state it as a
  hypothesis.

## Model

| member | source | states |
|---|---|---|
| Seqs.Max | main.go:161-162 | the max aggregation is an element of the loads and bounds every load from above |
| Seqs.Min | main.go:163-164 | the min aggregation is an element of the loads and bounds every load from below |
| Placement.UpperBound | main.go:67-73 | the upper end of every `after` domain bounds every initial load and equals one of them |
| PlanFacts.NodeVariablesForced | main.go:86-102 | in a feasible assignment each op is in [-1, 1], `moved[i]` holds exactly when `op[i] != 0`, and `after[i] = replicaCount[i] + op[i]` lies in [0, max initial load] |
| PlanFacts.OccupancyForced | main.go:112-136 | given legality every region sum is >= 0, so `occupied[k]` is forced to `sum > 0`, and diversity lies in [0, number of regions] |
| PlanFacts.RegionSumNonNegative | main.go:104-121 | when `hasRange + op >= 0` holds at every node, no region's member sum is negative |
| PlanFacts.OccupiedIffMemberHolds | main.go:112-134 | in a feasible assignment a region is occupied exactly when some member holds the range after the plan |
| PlanFacts.RegionSumIgnoresOutsider | main.go:112-121 | a node outside region r does not enter r's sum, whatever its holding and op |
| PlanFacts.UnlistedRegionIgnored | main.go:60-71 | a node of an unlisted region changes no listed region's sum, no occupancy flag and not the diversity |
| PlanFacts.FeasibleIsCompletion | main.go:86-136 | a feasible assignment is determined by its ops: moved, after and occupied are the forced values |
| PlanFacts.CompletionFeasibleIff | main.go:86-136 | the completed assignment is feasible iff the ops alone are admissible (unit steps, loads in range, legal, sum 0, at most two non-zero) |
| PlanFacts.OpsShape | main.go:124-129 | unit steps with sum 0 and at most two non-zero entries are all zero or exactly one +1 and one -1 |
| PlanFacts.PlanShape | main.go:86-129 | every feasible plan is the no-op plan or a single add/remove pair |
| PlanFacts.NoopFeasibleIff | main.go:86-136 | the no-op plan is feasible iff no initial load is negative |
| PlanFacts.Phase1AlwaysFeasible | main.go:86-139 | with non-negative loads Phase 1 has a feasible assignment, so it cannot be infeasible |
| PlanFacts.MovePlanFeasibleIff | main.go:86-129 | a pair plan is feasible iff the removing node holds the range and keeps load >= 0, the adding node stays within the max initial load, and untouched loads are >= 0 |
| PlanFacts.NoAddAtUpperBound | main.go:73-102 | a node already at the max initial load never receives an add |
| PlanFacts.NoRemoveWithoutRange | main.go:104-110 | a node without the range never receives a remove |
| PlanFacts.EqualLoadsOnlyNoop | main.go:73-129 | when all initial loads are equal the only feasible assignment is the no-op plan |
| PlanFacts.LegalityAdmitsSecondReplica | main.go:104-110 | the posted legality admits a feasible plan with `hasRange + op = 2` on a node |
| PlanFacts.HintIsPhase2Feasible | main.go:147-164 | the Phase-1 solution, extended by the max and min of its loads, is Phase-2 feasible at its own diversity |
| PlanFacts.Phase2Determined | main.go:160-166 | a Phase-2 solution is forced by its ops, and its spread lies in [0, max initial load] |
| PlanFacts.SpreadLowerBound | main.go:160-166 | a rangeless node at the max initial load pins the max, and of two low-load nodes at most one is raised, so the spread is at least max minus the low load |
| Pipeline.Gate | main.go:35-50 | a reply is accepted iff the engine answered with FEASIBLE or OPTIMAL; otherwise the error names a build failure, a solve failure, or the status |
| Pipeline.Solve | main.go:138-171 | a run fails tagged First iff the Phase-1 gate fails, fails tagged Second only after Phase 1 is accepted and with the Phase-2 gate's error, and otherwise plans the Phase-2 response's solution |
| Pipeline.PlannedIsFeasible | main.go:124-171 | with honest engines a planned result is Phase-2 feasible: it conserves replicas, moves at most twice, keeps the reported Phase-1 diversity, and has spread in [0, max load] |
| Pipeline.NeverInfeasible | main.go:138-171 | with honest engines and non-negative loads neither phase fails with status INFEASIBLE |
| Pipeline.OptimalRepliesGiveLexOptimum | main.go:138-168 | when both engines answer OPTIMAL the run plans the lexicographic optimum: maximal diversity, then minimal spread at that diversity |
| Enumeration.EnumeratePlans | main.go:124-129 | the listed plans are exactly the no-op plan and every add/remove pair, 1 + n(n-1) in all |
| Enumeration.BestPhase1 | main.go:131-139 | exhaustive Phase 1: a feasible assignment of maximal diversity, or none only when nothing is feasible |
| Enumeration.BestPhase2 | main.go:159-168 | exhaustive Phase 2: among feasible assignments of diversity d, one of minimal spread, or none only when there is no such assignment |
| Enumeration.Phase1Engine | main.go:138-142 | the brute-force Phase-1 reply meets the Phase-1 soundness specification, and reports INFEASIBLE exactly when nothing is feasible |
| Enumeration.Phase2Engine | main.go:160-171 | the brute-force Phase-2 reply meets the Phase-2 soundness specification, and reports INFEASIBLE exactly when nothing is feasible at the held diversity |
| Enumeration.Rebalance | main.go:52-182 | the outcome is exactly `Solve` applied to the brute-force engines' replies, which are sound; under non-negative loads it always plans, what it plans is the lexicographic optimum, and it fails only as a Phase-1 INFEASIBLE when nothing is feasible |
| Scenarios.MainSpreadLowerBound | main.go:184-196 | on the program's nine-node instance every plan of diversity 3 has spread at least 4 |
| Scenarios.MainPlanLexOptimal | main.go:184-196 | on that instance moving node 0's replica to node 6 is lexicographically optimal |
| Scenarios.MainOptimumValues | main.go:184-196 | every lexicographically optimal plan of that instance has diversity 3 and spread 4 |

## Left out

- The constraint-solving engine (`b.Model()`, `SolveCpModel`, main.go:36-45) is a foreign library. Each phase's engine is a function parameter returning a build failure, a solve failure or a response. What it may answer is constrained only by `SoundPhase1Reply` / `SoundPhase2Reply`.
- `Pipeline.SoundPhase1Reply` / `Pipeline.SoundPhase2Reply` constrain only the OPTIMAL, FEASIBLE and INFEASIBLE answers. UNKNOWN and MODEL_INVALID are left unconstrained, because the engine may return them (for example on a time limit). The gate rejects them anyway.
- `Pipeline.Solve` guarantees optimality only for OPTIMAL replies. The source's gate also accepts FEASIBLE, which carries a feasible but possibly non-optimal solution. That is why `OptimalRepliesGiveLexOptimum` requires two OPTIMAL replies.
- The warm-start hint (main.go:147-159) is carried in `Phase2Problem.hint` but constrains nothing, because it is non-binding. Its only modelled consequence is `HintIsPhase2Feasible`.
- Wall-time and objective logging (main.go:144-145, 172-173) is I/O over floating point. The objective value read back as a float and cast to `int64` (main.go:160) is modelled as the integer diversity.
- The result dump (main.go:174-180) is I/O. The planned `Phase2Solution` holds the printed values: per-node op and post-plan load, and per-region occupancy.
- Variable names (`WithName`) and Go map iteration order over the region map do not affect the constraints, so they are not modelled.
- `slices.Max` on an empty node list panics (main.go:73). The model makes a non-empty node list a precondition rather than modelling the panic.
- Go's `int64` is modelled as unbounded `int`. Overflow of `replicaCount + op` near the `int64` limits is not modelled.
- `main`'s node list (main.go:184-200) is used only as the concrete instance in `Scenarios`. Its call to `solve` and the error logging are not modelled.
