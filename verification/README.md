# SolverForge benchmark models, verified

The repository benchmarks solvers on three problems and runs them under a harness that must
not lose, repeat or invent results. Each problem exists there in several encodings: a validator
that defines what a correct answer is, and adapters that search in an indirect form of the same
problem. This project models the encodings in Dafny and proves how they relate.

**Capacitated vehicle routing** (`Cvrp*`). The validator; the arc-and-load-flow integer program
with its emitted rows; the walk that turns selected arcs into routes. Every feasible point that
decodes gives accepted routes at its own objective, every accepted solution is such a point, what
all points are is stated in full, and the condition under which they all decode is exact.

**Job-shop scheduling** (`JobShop*`, `Graph*`, `Kahn`). The sort-and-compare validator; three
longest-path evaluators (array-based with repeated edges in Rust and Java, dictionary-based with
deduplicated edges in Python) proved against one edge-graph specification; the disjunctive
integer program with horizon and big-M. Evaluation is the least solution and independent of the
queue order; sequences lose no optimum; neither do horizon and big-M, so an optimal point is a
shortest schedule with its makespan.

**Nurse rostering** (`Roster*`). The validator's day-by-day scans, stated as prices per unit over
maximal runs and sets of days; folds over maximal runs with
empty and delta terms; big-M rows with penalty columns; enforced literals. The run-length costs
of all four encodings are proved equal, with the exact conditions where they are not; slot
assignments are proved to cost exactly what the validator charges their extraction; the whole
linear program of the HiGHS adapter is characterised exactly, from the emitted rows to which
rosters have a point and what the least objective of each is.

**Harness** (`Harness*`). The benchmark matrix and its tracker, the nested run loop, the result
writer with its transactions, and the message protocol between parent, child and watchdog as a
state machine over all interleavings: messages arrive in order, what is read decides the outcome,
and the child's steps are exactly the behaviours of the child program.

`Milp`, `MilpParts`, `Sums`, `Sorting`, `Collections` and `Wrappers` are shared: compressed row
lists, models put together from parts, sums over matrices, stable sorting by keys, sequences
without repetition, option and result types. Loops of the repository are methods with invariants,
proved against ghost functions and predicates; objects that grow in place (the row buffers, the
tracker, the database writer, the CP-SAT model) are classes.

Run `dafny verify dfyconfig.toml` to check everything.

## What the proofs found

- The integer program of the vehicle routing adapter is described as making customer-only cycles
  impossible (`list-variable/cvrp/src/cvrp_bench/solver/highs.py:27-36`). A cycle of customers
  without demand satisfies every row; the extraction then raises. All points decode exactly when
  at most one customer has zero demand, or some customer exceeds the capacity and nothing is
  feasible (`CvrpExactness.AllPointsDecode`). The points are the accepted solutions in which some
  customers without demand, each served alone, may be rewired into cycles
  (`CvrpPoints.FeasiblePoints`). Restricted to the points that decode, the program
  attains the costs of the accepted solutions whatever the demands (`CvrpExactness.OptimaAgree`);
  over all points its optimum can be lower than any solution's cost
  (`CvrpExactness.OptimumUndercut`).
- The comments on the pair rows of the job-shop program
  (`scalar-variable/job-shop-scheduling/src/job_shop_bench/solver/highs.py:122-128`) put the two
  orders the wrong way round: the binary at 0 makes the first operation start after the second
  ends (`JobShopMilpExact.PairMeaning`). The disjunction is unaffected.
- The big-M run block overcharges when a minimum run length exceeds the horizon plus the history
  run: the released under-minimum row then stays above zero. It is exact if and only if the
  minimum is at most that length, there is a single day, or the weight is zero
  (`RosterRunOptimum.BlockExactness`). The CP-SAT block has no such condition, so the two agree
  under the same condition (`RosterRunAgreement.BlocksAgree`).
- The program of the HiGHS rostering adapter caps every demand at its optimum and draws assignments
  from the demands only, and its shortage column holds at most history and horizon together. Of all
  accepted rosters exactly those drawn from the demands and within these columns have a feasible
  point (`RosterMilpOptimum.RostersWithPoints`). The validator also accepts rosters with surplus
  nurses, which no point carries (`RosterMilpExamples.SurplusAccepted`) and which can be cheaper
  than every point (`RosterMilpExamples.SurplusIsCheaper`); a program can be infeasible although an
  acceptable roster exists (`RosterMilpExamples.QuietProgram`).
- What leaks through the run rows reaches the optimum: the least objective over a roster is the
  validator's total plus that excess, and the reported score of an optimal point drifts by exactly
  as much (`RosterMilpOptimum.OptimaAgree`, `RosterMilpAnswer.OptimumDrift`). Nothing leaks while
  no minimum run is longer than the horizon and the history together.
- The build of that program stops at a demand that no nurse may serve even if it is optional. Where
  an acceptable roster exists, it succeeds if and only if every optional demand can be served
  (`RosterMilpAnswer.RefusalExact`, with `RosterMilpAnswer.RefusedThoughAcceptable` a family it
  refuses).
- Fold and scan of the run cost differ in one case only: an idle last day with a negative
  maximum and a non-zero weight (`RosterRuns.FoldAgreesExactly`).
- A fair-start violation that the child has already reported can be hidden by the watchdog: the
  parent kills, reads the report and still returns a run marked fair because an earlier witness passed
  (`HarnessProtocol.ViolationLost`). It never becomes a solution (`HarnessProtocol.ViolationOutcome`).

## Assumptions

Taken over from the loaders as preconditions. Routing: node 0 is the depot, the matrix is square;
demands are non-negative where a statement says so. Job shop: at least one operation, operation
ids equal positions, `(job, index)` unique and increasing along a job, known machine ids,
non-negative durations. Rostering: at least one week, one requirement row per week, shift type and
skill with minimum at most optimum, one succession row per preceding type, one history entry with
non-negative counts per nurse, maxima that are neither negative nor below their minima. Edge
weights are the already rounded integers; columns take exact values.

## Model

| member | source | states |
|---|---|---|
| `Cvrp.GetLoad` | list-variable/cvrp/src/cvrp_bench/domain/utils.py:89-90 | the load of a route is the sum of the demands of its stops |
| `Cvrp.GetDistance` | list-variable/cvrp/src/cvrp_bench/domain/utils.py:79-86 | the accumulated distance is the cost of the closed tour depot, stops, depot, leg by leg |
| `Cvrp.CheckVisits` | list-variable/cvrp/src/cvrp_bench/domain/utils.py:40-49 | stops at the first position that is not a new customer, and otherwise returns exactly the stops seen |
| `Cvrp.MissingOrders` | list-variable/cvrp/src/cvrp_bench/domain/utils.py:51-56 | the unserved customers, and nothing else |
| `Cvrp.Validate` | list-variable/cvrp/src/cvrp_bench/domain/utils.py:29-72 | accepts exactly the partitions of the customers into routes within capacity whose total cost is the declared one; each error names the first offending position, the exact missing set, the first overloaded route with its load, or the recomputed cost |
| `CvrpMilp.BuildArcs` | list-variable/cvrp/src/cvrp_bench/solver/highs.py:44-54 | the arc dictionary numbers every ordered pair of distinct nodes once, with its cost beside it |
| `CvrpMilp.BuildMilp` | list-variable/cvrp/src/cvrp_bench/solver/highs.py:44-140 | the compressed row lists decode to the degree, link, depot and conservation rows in emission order, and the columns to the arc binaries and load columns |
| `CvrpFlow.RowsMeaning` | list-variable/cvrp/src/cvrp_bench/solver/highs.py:56-129 | a vector satisfies columns and rows if and only if its arc part is 0/1 with in- and out-degree one at every customer, loads lie on used arcs within capacity, all demand leaves the depot and every customer absorbs its demand |
| `CvrpFlow.ObjectiveMeaning` | list-variable/cvrp/src/cvrp_bench/solver/highs.py:44-86 | the objective of a point is the cost of the selected arcs |
| `CvrpExtract.ExtractRoutes` | list-variable/cvrp/src/cvrp_bench/solver/highs.py:143-175 | the successor dictionary, the walk and the visited set compute the extraction function, error cases included |
| `CvrpExtract.WalkMeaning` | list-variable/cvrp/src/cvrp_bench/solver/highs.py:163-172 | a walk either returns to the depot along selected arcs through fresh customers or stops at a customer with a bad degree |
| `CvrpRoutes.ExtractExact` | list-variable/cvrp/src/cvrp_bench/solver/highs.py:143-175 | extraction succeeds if and only if some collection of routes uses exactly the selected arcs, and then returns such a collection |
| `CvrpRoutes.AmbiguousIsUnroutable` | list-variable/cvrp/src/cvrp_bench/solver/highs.py:148-156 | two selected successors of a customer rule out every collection of routes |
| `CvrpRoutes.CostOfArcs` | list-variable/cvrp/src/cvrp_bench/solver/highs.py:44-86 | routes that use exactly the selected arcs cost what the arc matrix charges |
| `CvrpSoundness.FlowWithinCapacity` | list-variable/cvrp/src/cvrp_bench/solver/highs.py:109-129 | load flow bounds the demand of every route that uses the selected arcs by the capacity |
| `CvrpSoundness.UnreachedAreIdle` | list-variable/cvrp/src/cvrp_bench/solver/highs.py:102-129 | a set of customers closed under selected arcs and not reached from the depot contains two distinct customers of zero demand |
| `CvrpSoundness.UndecodedIsIdle` | list-variable/cvrp/src/cvrp_bench/solver/highs.py:102-175 | when a feasible point fails to decode, two distinct customers have zero demand |
| `CvrpSoundness.DecodedIsAccepted` | list-variable/cvrp/src/cvrp_bench/solver/highs.py:143-175 | every feasible point that decodes gives routes the validator accepts, at a cost equal to the objective |
| `CvrpSoundness.Soundness` | list-variable/cvrp/src/cvrp_bench/solver/highs.py:102-175 | with non-negative demands of which at most one is zero, every feasible point decodes, is accepted, and costs its objective |
| `CvrpSoundness.RecomputeCost` | list-variable/cvrp/src/cvrp_bench/solver/highs.py:217-224 | the leg-by-leg recomputation is the cost the validator computes |
| `CvrpSoundness.Decode` | list-variable/cvrp/src/cvrp_bench/solver/highs.py:216-238 | the tail of the adapter raises no objective mismatch on a feasible point; it answers if and only if extraction does, with an accepted solution at the reported objective |
| `CvrpExactness.LegArcsRealise` | list-variable/cvrp/src/cvrp_bench/solver/highs.py:102-107 | the legs of a partition into non-empty routes are arcs that these routes use exactly |
| `CvrpExactness.RoutesAreFlow` | list-variable/cvrp/src/cvrp_bench/solver/highs.py:102-129 | every accepted collection of non-empty routes, with suffix demands as loads, satisfies all rows |
| `CvrpExactness.SameRoutes` | list-variable/cvrp/src/cvrp_bench/solver/highs.py:143-175 | two collections of routes using the same arcs hold the same routes |
| `CvrpExactness.Completeness` | list-variable/cvrp/src/cvrp_bench/solver/highs.py:102-175 | every accepted solution without empty routes is a feasible point of the same cost, and extraction gives its routes back |
| `CvrpExactness.PointToRoutes` | list-variable/cvrp/src/cvrp_bench/solver/highs.py:102-175 | the objective of a feasible point that decodes is the cost of an accepted solution, whatever the demands |
| `CvrpExactness.OptimaAgree` | list-variable/cvrp/src/cvrp_bench/solver/highs.py:27-36 | for every cost, some feasible point that decodes attains it if and only if some accepted solution without empty routes does; every accepted cost is attained by the model, and no other one while at most one customer has zero demand or some demand exceeds the capacity |
| `CvrpExactness.CycleIsFlow` | list-variable/cvrp/src/cvrp_bench/solver/highs.py:102-129 | two zero-demand customers in a cycle of their own satisfy every row |
| `CvrpExactness.CycleDoesNotDecode` | list-variable/cvrp/src/cvrp_bench/solver/highs.py:162-174 | with two zero-demand customers and no customer over capacity, some feasible point makes the extraction raise |
| `CvrpExactness.OversizedIsInfeasible` | list-variable/cvrp/src/cvrp_bench/solver/highs.py:109-129 | a customer with more demand than the capacity leaves no feasible point |
| `CvrpExactness.AllPointsDecode` | list-variable/cvrp/src/cvrp_bench/solver/highs.py:102-175 | every feasible point decodes if and only if at most one customer has zero demand or some demand exceeds the capacity |
| `CvrpExactness.OptimumUndercut` | list-variable/cvrp/src/cvrp_bench/solver/highs.py:162-174 | with two zero-demand customers the optimum of the model can be a cycle that serves nobody: three nodes on which it attains 2 while every accepted solution costs at least 20 |
| `CvrpPoints.RewiredIsFlow` | list-variable/cvrp/src/cvrp_bench/solver/highs.py:102-129 | an accepted solution in which customers without demand, each served alone, are linked among themselves with one arc in and one out satisfies every row |
| `CvrpPoints.NothingLeaves` | list-variable/cvrp/src/cvrp_bench/solver/highs.py:102-107 | customers no walk from the depot reaches have their successors among themselves |
| `CvrpPoints.FeasiblePoints` | list-variable/cvrp/src/cvrp_bench/solver/highs.py:102-129 | an arc choice has a feasible point if and only if it is an accepted solution in which some customers without demand, each served alone, are rewired into cycles of their own |
| `Milp.DecodeAppend` | scalar-variable/employee-scheduling/src/employee_scheduling_bench/solver/highs.py:77-85 | appending a start offset and a block of entries appends exactly one decoded row |
| `Milp.ModelBuilder.AddRow` | scalar-variable/employee-scheduling/src/employee_scheduling_bench/solver/highs.py:77-85 | one more row in the decoded list, the earlier ones unchanged |
| `Milp.ModelBuilder.AddCost` | scalar-variable/employee-scheduling/src/employee_scheduling_bench/solver/highs.py:432-440 | only the cost of the named column rises |
| `Milp.ModelBuilder.AddCol` | scalar-variable/employee-scheduling/src/employee_scheduling_bench/solver/highs.py:66-75 | the new column gets the next index; rows are unchanged |
| `JobShop.SortPairwise` | scalar-variable/job-shop-scheduling/src/job_shop_bench/validation.py:47-49 | sorting windows neither creates nor removes an overlapping pair |
| `JobShop.NeighbourTestExact` | scalar-variable/job-shop-scheduling/src/job_shop_bench/validation.py:47-53 | on sorted windows of non-negative length the neighbour test holds if and only if every two windows are disjoint, zero-length ones included |
| `JobShopValidate.MachineTestExact` | scalar-variable/job-shop-scheduling/src/job_shop_bench/validation.py:47-53 | the neighbour test decides whether the operations of one machine exclude one another |
| `JobShopValidate.CheckOperations` | scalar-variable/job-shop-scheduling/src/job_shop_bench/validation.py:13-31 | refuses the first operation in the list that is unknown, repeated, negative or mismatched, and for the first of these reasons; otherwise fills the start table and the windows per machine |
| `JobShopValidate.CheckMachines` | scalar-variable/job-shop-scheduling/src/job_shop_bench/validation.py:47-53 | succeeds only when all machines are free of overlap; a reported overlap is real and on the first such machine in the order of first use |
| `JobShopValidate.ErrorIsNotAccepted` | scalar-variable/job-shop-scheduling/src/job_shop_bench/validation.py:10-59 | no error is reported for an acceptable schedule |
| `JobShopValidate.Validate` | scalar-variable/job-shop-scheduling/src/job_shop_bench/validation.py:10-59 | accepts exactly the complete, ordered, machine-disjoint schedules and returns the largest end; an error describes a real defect, the first in the order operations, missing operations, jobs, machines |
| `Graph.ProcessedUnique` | scalar-variable/job-shop-scheduling/src/job_shop_bench/solver/solverforge_jssp/src/domain.rs:106-127 | any two topological prefixes that cannot be extended hold the same operations |
| `Graph.CompleteIffAcyclic` | scalar-variable/job-shop-scheduling/src/job_shop_bench/solver/solverforge_jssp/src/domain.rs:106-127 | a stalled topological prefix holds every node if and only if the edges have no cycle |
| `Graph.EvaluationUnique` | scalar-variable/job-shop-scheduling/src/job_shop_bench/solver/solverforge_jssp/src/domain.rs:106-127 | earliest starts do not depend on the queue order |
| `Graph.EvaluationLeast` | scalar-variable/job-shop-scheduling/src/job_shop_bench/solver/solverforge_jssp/src/domain.rs:106-127 | without a cycle the evaluated starts satisfy every edge and are least, node by node, among all starts that do |
| `GraphBounds.FinishBound` | scalar-variable/job-shop-scheduling/src/job_shop_bench/solver/solverforge_jssp/src/domain.rs:106-127 | an evaluated operation ends no later than the total duration of the operations processed so far |
| `GraphBounds.EvaluationExists` | scalar-variable/job-shop-scheduling/src/job_shop_bench/solver/solverforge_jssp/src/domain.rs:106-127 | every complete topological order has an evaluation |
| `Kahn.RelaxEdgeAt` | scalar-variable/job-shop-scheduling/src/job_shop_bench/solver/solverforge_jssp/src/domain.rs:119-126 | relaxing one edge keeps the state of the loop: in-degrees count unprocessed predecessors and never fall below zero, earliest starts are maxima over processed predecessors |
| `Kahn.LoopResult` | scalar-variable/job-shop-scheduling/src/job_shop_bench/solver/solverforge_jssp/src/domain.rs:106-127 | an empty queue means that the processed operations are a stalled topological prefix with earliest starts |
| `Kahn.RunQueue` | scalar-variable/job-shop-scheduling/src/job_shop_bench/solver/solverforge_jssp/src/domain.rs:106-127 | the in-place loop terminates and evaluates the edge graph; the processed count is the number of started operations |
| `JobShopPlan.PlanEdgesWithin` | scalar-variable/job-shop-scheduling/src/job_shop_bench/solver/solverforge_jssp/src/domain.rs:63-96 | job and machine edges stay inside the operation range |
| `JobShopPlan.JobEdgeInChain` | scalar-variable/job-shop-scheduling/src/job_shop_bench/solver/solverforge_jssp/src/domain.rs:66-77 | every precedence inside a job is an edge of the sorted job chain |
| `JobShopRust.EvaluateSchedule` | scalar-variable/job-shop-scheduling/src/job_shop_bench/solver/solverforge_jssp/src/domain.rs:56-147 | starts and makespan are those of the edge graph of the plan; the penalty is the sum over misplaced entries, repeated and missing operations and operations left out by the loop |
| `JobShopRust.StartedExact` | scalar-variable/job-shop-scheduling/src/job_shop_bench/solver/solverforge_jssp/src/domain.rs:106-147 | every operation starts if and only if the edge graph has no cycle |
| `JobShopRust.PenaltyExact` | scalar-variable/job-shop-scheduling/src/job_shop_bench/solver/solverforge_jssp/src/domain.rs:79-147 | the hard penalty is zero if and only if every operation is on its own machine exactly once and there is no cycle |
| `JobShopRust.StartsLeast` | scalar-variable/job-shop-scheduling/src/job_shop_bench/solver/solverforge_jssp/src/domain.rs:106-147 | without a cycle the reported starts respect every edge and are pointwise least |
| `JobShopPenalty.PenaltyCounts` | scalar-variable/job-shop-scheduling/src/job_shop_bench/solver/solverforge_jssp/src/domain.rs:79-131 | the hard penalty counts, in cardinalities: entries that name no operation or one of another machine, entries on machines that do not exist, operations no entry names, repeated namings, and operations without a start |
| `JobShopPenalty.UnplacedPenalty` | scalar-variable/job-shop-scheduling/src/job_shop_bench/solver/solverforge_jssp/src/lib.rs:59-97 | a plan with empty machine sequences, as it is built, is penalised exactly one per operation; every operation starts, after its job predecessors only |
| `JobShopEndToEnd.BuildPlan` | scalar-variable/job-shop-scheduling/src/job_shop_bench/solver/solverforge_jssp/src/lib.rs:59-97 | the plan numbers operations in job order, links each to its successor and starts with empty machine sequences |
| `JobShopEndToEnd.SolutionOutput` | scalar-variable/job-shop-scheduling/src/job_shop_bench/solver/solverforge_jssp/src/lib.rs:134-174 | answers if and only if the sequences are complete and acyclic, with the evaluated operations in job and index order and the evaluated makespan; otherwise refuses with the evaluated penalty |
| `JobShopEndToEnd.OutputAccepted` | scalar-variable/job-shop-scheduling/src/job_shop_bench/solver/solverforge_jssp/src/lib.rs:134-174 | a zero-penalty evaluation becomes a schedule that the validator accepts with exactly the reported makespan |
| `JobShopDominance.ByStartIsGood` | scalar-variable/job-shop-scheduling/src/job_shop_bench/validation.py:39-59 | ordering a complete schedule by start, end and index is a usable order for the sequences |
| `JobShopDominance.PlanOfFeasible` | scalar-variable/job-shop-scheduling/src/job_shop_bench/validation.py:39-59 | sequences read off an accepted schedule give an acyclic graph whose edges the schedule respects |
| `JobShopDominance.Dominance` | scalar-variable/job-shop-scheduling/src/job_shop_bench/validation.py:39-59 | sequences read off any accepted schedule evaluate to penalty zero, no later start anywhere and no longer makespan |
| `JobShopPython.AddEdge` | scalar-variable/job-shop-scheduling/src/job_shop_bench/solver/solverforge_py.py:314-323 | an edge already present changes nothing; a new one is added once and raises one in-degree |
| `JobShopPython.ScheduleMetrics` | scalar-variable/job-shop-scheduling/src/job_shop_bench/solver/solverforge_py.py:238-311 | the dictionary loop over deduplicated sorted edges evaluates the same edge graph; the cycle penalty is the number of unprocessed operations |
| `JobShopPythonOutput.CyclePenaltyExact` | scalar-variable/job-shop-scheduling/src/job_shop_bench/solver/solverforge_py.py:238-311 | the cycle penalty is zero if and only if the edge graph has no cycle |
| `JobShopPythonOutput.RefusalsAreRight` | scalar-variable/job-shop-scheduling/src/job_shop_bench/solver/solverforge_py.py:164-235 | no refusal is given to a usable assignment |
| `JobShopPythonOutput.ScheduledOperations` | scalar-variable/job-shop-scheduling/src/job_shop_bench/solver/solverforge_py.py:164-235 | answers, machine by machine in sequence order, if and only if every operation is listed once, on its machine, without a cycle; a refusal describes a real defect, the first in the order of the checks |
| `JobShopJava.Evaluate` | scalar-variable/job-shop-scheduling/src/job_shop_bench/solver/timefold/src/main/java/com/solverforgebench/jssp/JsspScheduleEvaluator.java:35-151 | the Java loop computes the same evaluation as the Rust one |
| `JobShopAgreement.EvaluationDetermined` | scalar-variable/job-shop-scheduling/src/job_shop_bench/solver/solverforge_jssp/src/domain.rs:56-147 | a plan has one evaluation: starts, makespan and penalty are determined |
| `JobShopAgreement.MetricsAgree` | scalar-variable/job-shop-scheduling/src/job_shop_bench/solver/solverforge_py.py:238-311 | on complete plans the Python metrics and the Rust or Java evaluation agree on the cycle count, on every started operation and, without a cycle, on the makespan |
| `JobShopAgreement.AnswersAgree` | scalar-variable/job-shop-scheduling/src/job_shop_bench/solver/solverforge_py.py:164-235 | the Rust and Python adapters answer with the same operations and makespan |
| `JobShopAgreement.AnswersAccepted` | scalar-variable/job-shop-scheduling/src/job_shop_bench/solver/solverforge_py.py:164-235 | every answer is accepted by the validator with the reported makespan |
| `JobShopMilp.Constants` | scalar-variable/job-shop-scheduling/src/job_shop_bench/solver/highs.py:57-59 | the horizon is the total duration or, if larger, 1; the longest duration is that of some operation and at least that of all |
| `JobShopMilp.BuildMilp` | scalar-variable/job-shop-scheduling/src/job_shop_bench/solver/highs.py:57-157 | the emitted columns and rows are the disjunctive model: starts and makespan up to the horizon, pair binaries, two rows per machine pair, one per job step, one makespan row per operation |
| `JobShopMilpExact.EmittedIsBigEnough` | scalar-variable/job-shop-scheduling/src/job_shop_bench/solver/highs.py:57-59 | horizon plus longest duration is a sufficient big-M |
| `JobShopMilpExact.MakespanIsObjective` | scalar-variable/job-shop-scheduling/src/job_shop_bench/solver/highs.py:82-83 | the objective of every point is its makespan column; starts and pair binaries are free |
| `JobShopMilpExact.PairMeaning` | scalar-variable/job-shop-scheduling/src/job_shop_bench/solver/highs.py:114-134 | for starts inside the horizon the two rows of a pair order it by its binary: 0 puts the first operation after the second, 1 the second after the first |
| `JobShopMilpExact.RowsMeaning` | scalar-variable/job-shop-scheduling/src/job_shop_bench/solver/highs.py:57-157 | a vector is feasible if and only if it is whole-valued in range and its starts keep pair order, job order and the makespan column |
| `JobShopMilpExact.PointsAreSchedules` | scalar-variable/job-shop-scheduling/src/job_shop_bench/solver/highs.py:185-199 | every feasible point gives starts that the validator accepts, ending within the makespan column |
| `JobShopMilpExact.SchedulesArePoints` | scalar-variable/job-shop-scheduling/src/job_shop_bench/solver/highs.py:57-157 | every accepted schedule ending within the horizon extends to a feasible point with its starts |
| `JobShopOptimum.EvaluatedWithinSum` | scalar-variable/job-shop-scheduling/src/job_shop_bench/solver/highs.py:57-59 | an evaluated makespan is at most the sum of all durations |
| `JobShopOptimum.LeftShift` | scalar-variable/job-shop-scheduling/src/job_shop_bench/solver/highs.py:57-59 | every accepted schedule can be shifted into an accepted one that is no longer and lies inside the horizon |
| `JobShopOptimum.OptimaAgree` | scalar-variable/job-shop-scheduling/src/job_shop_bench/solver/highs.py:57-157 | for every bound, some feasible point has its objective within it if and only if some accepted schedule ends within it: horizon and big-M exclude no optimum |
| `JobShopOptimum.OptimalAnswer` | scalar-variable/job-shop-scheduling/src/job_shop_bench/solver/highs.py:185-199 | the starts read off an optimal point are accepted, the reported makespan is theirs, and no accepted schedule is shorter |
| `RosterRuns.Scan` | scalar-variable/employee-scheduling/src/employee_scheduling_bench/validation.py:186-206 | the day-by-day counter loop computes the run cost |
| `RosterRuns.RunsCover` | scalar-variable/employee-scheduling/src/employee_scheduling_bench/solver/solverforge_nrp/src/constraints.rs:501-531 | a day is active if and only if a maximal run covers it |
| `RosterRuns.RunBoundsCost` | scalar-variable/employee-scheduling/src/employee_scheduling_bench/solver/solverforge_nrp/src/constraints.rs:501-531 | the loop over runs computes the fold; over the maximal runs of any activity that is the day-scan cost, short of the charge the scan makes for an idle end when the maximum is negative |
| `RosterRuns.FoldAgreesExactly` | scalar-variable/employee-scheduling/src/employee_scheduling_bench/solver/solverforge_nrp/src/constraints.rs:501-531 | the fold over the maximal runs equals the day scan if and only if the last day is active, the maximum is not negative or the weight is zero |
| `RosterRuns.EmptyWorkCost` | scalar-variable/employee-scheduling/src/employee_scheduling_bench/solver/solverforge_nrp/src/constraints.rs:401-413 | a nurse who never works is charged the closed history run |
| `RosterRuns.EmptyOffCost` | scalar-variable/employee-scheduling/src/employee_scheduling_bench/solver/solverforge_nrp/src/constraints.rs:431-442 | a nurse who never works is charged one free run over the whole horizon |
| `RosterCharges.RunCostMeaning` | scalar-variable/employee-scheduling/src/employee_scheduling_bench/validation.py:186-231 | the day scan charges its weight per day: over the maximum for every maximal run, the history run included, and under the minimum for every run that ends before the horizon does |
| `RosterCharges.BreakdownMeaning` | scalar-variable/employee-scheduling/src/employee_scheduling_bench/validation.py:135-288 | the soft cost counts by sets of days, weekends, assignments and requests and by maximal runs, priced 30 per nurse missing to the optimum, 10 per refused request, 20 per assignment out of bounds, 30 per day of work or of free time out of bounds, 15 per day of one type out of bounds, 30 per weekend too many and per split weekend |
| `RosterRunMilp.LargestCosts` | scalar-variable/employee-scheduling/src/employee_scheduling_bench/solver/highs.py:166-178 | the penalty bounds are the largest charges over all possible run lengths |
| `RosterRunMilp.MaxClosedBounds` | scalar-variable/employee-scheduling/src/employee_scheduling_bench/solver/highs.py:166-178 | no closing charge exceeds its column bound |
| `RosterRunMilp.AddRunLengthCosts` | scalar-variable/employee-scheduling/src/employee_scheduling_bench/solver/highs.py:145-300 | the emitted columns and rows are those of the block, in order |
| `RosterRunExact.BlockMeaning` | scalar-variable/employee-scheduling/src/employee_scheduling_bench/solver/highs.py:145-300 | for a binary activity the rows hold if and only if the run columns are the run lengths, the closing columns mark the ends of runs, and each penalty column covers its charge |
| `RosterRunOptimum.BlockObjective` | scalar-variable/employee-scheduling/src/employee_scheduling_bench/solver/highs.py:145-300 | the objective of the block is the history charge plus all penalty columns |
| `RosterRunOptimum.BlockCostCovers` | scalar-variable/employee-scheduling/src/employee_scheduling_bench/solver/highs.py:145-300 | every feasible point costs at least the run cost of its activity and what leaks through rows whose release is too small |
| `RosterRunOptimum.BlockCostAttained` | scalar-variable/employee-scheduling/src/employee_scheduling_bench/solver/highs.py:145-300 | over every activity, whatever the minimum, some feasible point costs exactly that |
| `RosterRunOptimum.ExactWhen` | scalar-variable/employee-scheduling/src/employee_scheduling_bench/solver/highs.py:145-300 | over one activity the block can cost exactly its run cost if and only if nothing leaks |
| `RosterRunOptimum.IdleOvercharged` | scalar-variable/employee-scheduling/src/employee_scheduling_bench/solver/highs.py:253-283 | with a minimum beyond horizon plus history, an idle activity costs strictly more than its run cost at every feasible point |
| `RosterRunOptimum.BlockExactness` | scalar-variable/employee-scheduling/src/employee_scheduling_bench/solver/highs.py:145-300 | the least cost over every activity is its run cost if and only if the minimum is at most horizon plus history, there is one day only, or the weight is zero |
| `RosterRunCpSat.AndMeaning` | scalar-variable/employee-scheduling/src/employee_scheduling_bench/solver/ortools/main.cc:218-231 | the conjunction literal holds if and only if all its literals hold |
| `RosterRunCpSat.AddBlock` | scalar-variable/employee-scheduling/src/employee_scheduling_bench/solver/ortools/main.cc:233-318 | the emitted domains, constraints and objective terms are those of the block |
| `RosterRunAgreement.CpBlockMeaning` | scalar-variable/employee-scheduling/src/employee_scheduling_bench/solver/ortools/main.cc:233-318 | the enforced constraints hold if and only if runs, closings and penalties are as the block says |
| `RosterRunAgreement.CpCostCovers` | scalar-variable/employee-scheduling/src/employee_scheduling_bench/solver/ortools/main.cc:233-318 | every feasible assignment costs at least the run cost of its activity |
| `RosterRunAgreement.CpCostAttained` | scalar-variable/employee-scheduling/src/employee_scheduling_bench/solver/ortools/main.cc:233-318 | over each activity some feasible assignment costs exactly its run cost |
| `RosterRunAgreement.BlocksAgree` | scalar-variable/employee-scheduling/src/employee_scheduling_bench/solver/ortools/main.cc:233-318 | the CP-SAT block and the big-M block have the same least objective over every activity if and only if the big-M release condition holds |
| `RosterValidate.ViolationRefutes` | scalar-variable/employee-scheduling/src/employee_scheduling_bench/validation.py:44-133 | a reported violation is real |
| `RosterValidate.CheckSuccession` | scalar-variable/employee-scheduling/src/employee_scheduling_bench/validation.py:108-133 | finds a forbidden succession, the history included, or proves there is none |
| `RosterValidate.ValidateBreakdown` | scalar-variable/employee-scheduling/src/employee_scheduling_bench/validation.py:39-288 | accepts exactly the rosters that keep the hard rules; charges each soft rule the number of its units at the price of the rule; a refusal reports a real violation, the first in the order of the checks |
| `RosterValidate.Validate` | scalar-variable/employee-scheduling/src/employee_scheduling_bench/validation.py:30-36 | returns the sum of the breakdown, on exactly the acceptable rosters, and else the first violation |
| `RosterSlots.GenerateSlots` | scalar-variable/employee-scheduling/src/employee_scheduling_bench/solver/instance_json.py:90-113 | one slot per wanted nurse in loop order, the first ones up to the minimum marked |
| `RosterSlots.BuildPlan` | scalar-variable/employee-scheduling/src/employee_scheduling_bench/solver/solverforge_nrp/src/lib.rs:138-209 | each slot carries exactly its forbidden predecessors and one entry per request it would refuse |
| `RosterSlots.Extract` | scalar-variable/employee-scheduling/src/employee_scheduling_bench/solver/solverforge_nrp/src/lib.rs:329-342 | the weekly lists hold one assignment per filled slot, in slot order |
| `RosterParity.CoveredByBlock` | scalar-variable/employee-scheduling/src/employee_scheduling_bench/validation.py:93-106 | the coverage of a need in the extracted roster is the number of filled slots of its block |
| `RosterParity.ExtractedAccepted` | scalar-variable/employee-scheduling/src/employee_scheduling_bench/solver/solverforge_nrp/src/constraints.rs:49-145 | a slot assignment without hard violation extracts to a roster the validator accepts |
| `RosterParity.CoverageParity` | scalar-variable/employee-scheduling/src/employee_scheduling_bench/solver/solverforge_nrp/src/constraints.rs:55-59 | the validator charges the extracted roster 30 for every vacant optional slot |
| `RosterParity.SlotParity` | scalar-variable/employee-scheduling/src/employee_scheduling_bench/solver/solverforge_nrp/src/constraints.rs:48-295 | for every slot assignment without hard violation the extracted roster is accepted and every entry of its breakdown is the sum of the corresponding slot penalties |
| `RosterScore.WeekendCounts` | scalar-variable/employee-scheduling/src/employee_scheduling_bench/solver/solverforge_nrp/src/constraints.rs:533-555 | worked and split weekends are counted as the validator counts them |
| `RosterScore.EmptyCostsExact` | scalar-variable/employee-scheduling/src/employee_scheduling_bench/solver/solverforge_nrp/src/constraints.rs:370-492 | the empty-nurse terms are the cost of an idle nurse |
| `RosterScore.NurseTerms` | scalar-variable/employee-scheduling/src/employee_scheduling_bench/solver/solverforge_nrp/src/constraints.rs:355-499 | the present and empty terms of the Rust constraints add to the cost of one nurse |
| `RosterScore.NurseDeltas` | scalar-variable/employee-scheduling/src/employee_scheduling_bench/solver/solverforge_py.py:258-334 | the base cost plus the Python delta is the cost of one nurse |
| `RosterScore.TypeTerm` | scalar-variable/employee-scheduling/src/employee_scheduling_bench/solver/solverforge_nrp/src/constraints.rs:444-475 | present and empty shift-type terms add to the run cost of the type |
| `RosterScore.TypeDelta` | scalar-variable/employee-scheduling/src/employee_scheduling_bench/solver/solverforge_py.py:337-342 | the empty term of a shift type plus the Python delta is the run cost of the type |
| `RosterScore.SoftScore` | scalar-variable/employee-scheduling/src/employee_scheduling_bench/solver/solverforge_nrp/src/constraints.rs:48-295 | both adapters total their soft constraints to the slot breakdown, nurse and shift-type terms alternating or adding up as differences |
| `RosterScore.HardScore` | scalar-variable/employee-scheduling/src/employee_scheduling_bench/solver/solverforge_nrp/src/constraints.rs:49-145 | the hard score is 1000 per vacant minimum slot and 1 per missing skill, per forbidden succession after the history, per pair of slots of one nurse on one day and per forbidden pair on consecutive days; it is zero if and only if the slot rules hold |
| `RosterViolations.HardCountZero` | scalar-variable/employee-scheduling/src/employee_scheduling_bench/solver/solverforge_nrp/src/constraints.rs:49-145 | none of these sets has a member exactly when the slot rules hold |
| `RosterScore.Answer` | scalar-variable/employee-scheduling/src/employee_scheduling_bench/solver/solverforge_py.py:653-720 | refuses exactly when a minimum slot is vacant, listing all of them; with hard score zero the reported cost is what the validator charges, so the model delta is zero |
| `RosterConflicts.Candidates` | scalar-variable/employee-scheduling/src/employee_scheduling_bench/solver/solverforge_py.py:602-606 | the candidate list is ascending and holds exactly the nurses with the skill whom the history does not exclude |
| `RosterConflicts.CapacityKeyExact` | scalar-variable/employee-scheduling/src/employee_scheduling_bench/solver/solverforge_nrp/src/domain.rs:232-240 | two assignments share a capacity key if and only if nurse and day are the same |
| `RosterConflicts.SameValueConflicts` | scalar-variable/employee-scheduling/src/employee_scheduling_bench/solver/solverforge_py.py:731-751 | the lists are ascending, irreflexive and contain exactly the conflicting slots |
| `RosterConflicts.ConflictsSymmetric` | scalar-variable/employee-scheduling/src/employee_scheduling_bench/solver/solverforge_py.py:731-751 | the conflict relation is symmetric and irreflexive |
| `RosterConflicts.PairRules` | scalar-variable/employee-scheduling/src/employee_scheduling_bench/solver/solverforge_nrp/src/domain.rs:242-267 | the pairwise rule forbids one nurse two slots exactly when one follows the other against the succession table |
| `RosterConflicts.RulesAreHard` | scalar-variable/employee-scheduling/src/employee_scheduling_bench/solver/solverforge_nrp/src/domain.rs:225-267 | candidate domains, capacity keys and pairwise rules hold together if and only if the hard score is zero |
| `RosterConflicts.RulesAccepted` | scalar-variable/employee-scheduling/src/employee_scheduling_bench/solver/solverforge_nrp/src/domain.rs:225-267 | an assignment from the candidate domains without conflicts or shared keys is accepted by the validator |
| `RosterCoverage.BuildCoverage` | scalar-variable/employee-scheduling/src/employee_scheduling_bench/solver/ortools/main.cc:437-462 | one demand per week, day, shift type and skill that has slots, in ascending order, with the exact counts of minimum slots and of all slots |
| `RosterCoverage.CoverageMeaning` | scalar-variable/employee-scheduling/src/employee_scheduling_bench/solver/highs.py:366-386 | the demands are exactly the needs that ask for somebody, with the minimum cut off at zero |
| `RosterCoverage.AllPairsMeaning` | scalar-variable/employee-scheduling/src/employee_scheduling_bench/solver/highs.py:388-400 | assignment columns stand for exactly the pairs of a demand and a nurse with the skill whom the history does not exclude, each once |
| `RosterMilpBuild.BuildModel` | scalar-variable/employee-scheduling/src/employee_scheduling_bench/solver/highs.py:355-583 | the emitted columns and rows are those of the whole model in emission order, request costs included; the build succeeds if and only if some nurse may serve every need that asks for nurses, and else names one that nobody may |
| `RosterMilpShared.OnceExact` | scalar-variable/employee-scheduling/src/employee_scheduling_bench/solver/highs.py:443-476 | bounding every day sum by one leaves a nurse at most one shift a day, and conversely |
| `RosterMilpShared.CellsMeaning` | scalar-variable/employee-scheduling/src/employee_scheduling_bench/solver/highs.py:459-476 | the indicator rows hold if and only if every indicator column is the sum it stands for |
| `RosterMilpShared.CoverMeaning` | scalar-variable/employee-scheduling/src/employee_scheduling_bench/solver/highs.py:411-435 | the coverage rows hold if and only if each demand gets between its minimum and its optimum and its column counts the shortage |
| `RosterMilpShared.SuccessionsMeaning` | scalar-variable/employee-scheduling/src/employee_scheduling_bench/solver/highs.py:478-492 | the succession rows hold if and only if no nurse works a forbidden pair of types on consecutive days |
| `RosterMilpCost.ShortfallsOfDemands` | scalar-variable/employee-scheduling/src/employee_scheduling_bench/solver/highs.py:366-386 | the validator charges the same shortage over needs as over demands |
| `RosterMilpCost.SharedSound` | scalar-variable/employee-scheduling/src/employee_scheduling_bench/solver/highs.py:366-492 | a feasible point carries a legal choice of pairs and costs exactly its shortage and request charges there |
| `RosterMilpCost.SharedAttained` | scalar-variable/employee-scheduling/src/employee_scheduling_bench/solver/highs.py:366-492 | every legal choice has a point that carries it |
| `RosterMilpLegal.LegalAccepted` | scalar-variable/employee-scheduling/src/employee_scheduling_bench/solver/highs.py:602-614 | a legal choice is read off as a roster the validator accepts |
| `RosterMilpRoster.SameBreakdown` | scalar-variable/employee-scheduling/src/employee_scheduling_bench/validation.py:135-288 | rosters with the same entry per nurse and day are charged the same |
| `RosterMilpRoster.RosterIsLegal` | scalar-variable/employee-scheduling/src/employee_scheduling_bench/solver/highs.py:366-492 | every accepted roster drawn from the demands is a legal choice of the same cost |
| `RosterMilpNurse.BoundsCovers` | scalar-variable/employee-scheduling/src/employee_scheduling_bench/solver/highs.py:494-518 | under and over columns cost at least the charge for assignments out of bounds |
| `RosterMilpNurse.BoundsAttained` | scalar-variable/employee-scheduling/src/employee_scheduling_bench/solver/highs.py:494-518 | and can cost exactly that whenever the assignments missing at the actual count fit their column |
| `RosterMilpNurse.OffCovers` | scalar-variable/employee-scheduling/src/employee_scheduling_bench/solver/highs.py:529-540 | the block over complement columns costs at least the charge for runs of days off |
| `RosterMilpNurse.ExcessSign` | scalar-variable/employee-scheduling/src/employee_scheduling_bench/solver/highs.py:253-283 | what the run rows charge beyond the validator is never negative, and zero while no minimum run is longer than horizon and history together |
| `RosterMilpWeekends.WeekendCovers` | scalar-variable/employee-scheduling/src/employee_scheduling_bench/solver/highs.py:550-581 | weekend envelopes and cap cost at least the charges for worked and split weekends |
| `RosterMilpWeekends.WeekendAttained` | scalar-variable/employee-scheduling/src/employee_scheduling_bench/solver/highs.py:550-581 | and can cost exactly those |
| `RosterMilpOptimum.PointsAreRosters` | scalar-variable/employee-scheduling/src/employee_scheduling_bench/solver/highs.py:343-637 | every feasible point of the whole model gives an accepted roster drawn from the demands whose shortages fit their columns, and its objective is at least the total the validator charges plus the excess of the run rows |
| `RosterMilpOptimum.ShortageFits` | scalar-variable/employee-scheduling/src/employee_scheduling_bench/solver/highs.py:503-510 | at a feasible point no nurse misses more assignments than history and horizon together |
| `RosterMilpOptimum.ChoicesWithPoints` | scalar-variable/employee-scheduling/src/employee_scheduling_bench/solver/highs.py:343-583 | a choice of pairs has a feasible point if and only if it is legal and no nurse misses more assignments than the shortage column holds |
| `RosterMilpOptimum.RostersArePoints` | scalar-variable/employee-scheduling/src/employee_scheduling_bench/solver/highs.py:343-637 | every accepted roster drawn from the demands whose shortages fit is a feasible point whose objective is exactly that |
| `RosterMilpOptimum.RostersWithPoints` | scalar-variable/employee-scheduling/src/employee_scheduling_bench/solver/highs.py:343-583 | of all accepted rosters, exactly those that are drawn from the demands and whose shortages fit have a feasible point |
| `RosterMilpRoster.SameDrawn` | scalar-variable/employee-scheduling/src/employee_scheduling_bench/solver/highs.py:366-410 | whether an accepted roster is drawn from the demands depends only on its entry per nurse and day |
| `RosterMilpOptimum.OptimaAgree` | scalar-variable/employee-scheduling/src/employee_scheduling_bench/solver/highs.py:343-637 | for every bound, some feasible point is within it if and only if some accepted roster drawn from the demands, its shortages fitting, costs no more than the bound with the excess of the run rows included |
| `RosterMilpAnswer.Answer` | scalar-variable/employee-scheduling/src/employee_scheduling_bench/solver/highs.py:602-637 | the roster read off a feasible point passes the validator, at a cost no higher than the objective |
| `RosterMilpAnswer.OptimumDrift` | scalar-variable/employee-scheduling/src/employee_scheduling_bench/solver/highs.py:616-636 | at an optimal point the reported objective exceeds the validated cost by exactly the excess of the run rows, so not at all while every minimum run fits |
| `RosterMilpAnswer.DriftCovers` | scalar-variable/employee-scheduling/src/employee_scheduling_bench/solver/highs.py:616-636 | no feasible point drifts from the validated cost by less than the excess of its roster |
| `RosterMilpAnswer.BuiltOptima` | scalar-variable/employee-scheduling/src/employee_scheduling_bench/solver/highs.py:343-583 | for what the adapter builds: some feasible point is within a bound if and only if some accepted roster drawn from the demands, its shortages fitting and the excess included, is |
| `RosterMilpExamples.QuietProgram` | scalar-variable/employee-scheduling/src/employee_scheduling_bench/solver/highs.py:494-540 | a program without demands: with a minimum of more than seven assignments it has no point although the empty roster is accepted, and with a minimum run longer than the week every point drifts |
| `RosterMilpExamples.SurplusAccepted` | scalar-variable/employee-scheduling/src/employee_scheduling_bench/solver/highs.py:366-410 | the validator accepts a roster with a nurse nobody asked for; it is not drawn from the demands and no feasible point carries it |
| `RosterMilpExamples.SurplusIsCheaper` | scalar-variable/employee-scheduling/src/employee_scheduling_bench/solver/highs.py:366-410 | that roster is free of charge while every feasible point costs 20 or more |
| `RosterMilpAnswer.MetNeedIsServable` | scalar-variable/employee-scheduling/src/employee_scheduling_bench/solver/highs.py:414-423 | a need with a positive minimum that nobody may serve leaves no acceptable roster |
| `RosterMilpAnswer.RefusalExact` | scalar-variable/employee-scheduling/src/employee_scheduling_bench/solver/highs.py:414-423 | where an acceptable roster exists, the program is built if and only if some nurse may serve every optional need |
| `RosterMilpAnswer.RefusedThoughAcceptable` | scalar-variable/employee-scheduling/src/employee_scheduling_bench/solver/highs.py:414-423 | without minima the empty roster is acceptable, and still an optional demand that nobody may serve stops the build |
| `HarnessMatrix.SortedMeaning` | src/solverforge_bench/matrix.py:129-141 | sorting keys without duplicates is strict and keeps the members |
| `HarnessMatrix.SortedUnique` | src/solverforge_bench/matrix.py:155-169 | a set of keys has one strictly sorted listing |
| `HarnessMatrix.CompareTextMeaning` | src/solverforge_bench/matrix.py:14-21 | one text precedes another if it is a proper prefix or smaller at the first character that differs |
| `HarnessMatrix.BeforeMeaning` | src/solverforge_bench/matrix.py:14-21 | the first differing field decides, in the order benchmark, dataset, dataset set, instance, solver by text and limit by number |
| `HarnessMatrix.Build` | src/solverforge_bench/matrix.py:80-148 | a matrix is built exactly for non-empty, duplicate-free cases, solvers and positive limits; otherwise the error is the first that applies, with exactly the repeated or non-positive values |
| `HarnessMatrix.ExpectedMeaning` | src/solverforge_bench/matrix.py:129-152 | the expected keys are strictly sorted, one per case, limit and solver, cases times limits times solvers in number |
| `HarnessMatrix.Tracker.EnsureCanObserve` | src/solverforge_bench/matrix.py:186-190 | refuses exactly unexpected and repeated keys, and says which |
| `HarnessMatrix.Tracker.MarkObserved` | src/solverforge_bench/matrix.py:192-197 | adds the key when it may be observed and changes nothing otherwise; an unexpected and a repeated key are told apart |
| `HarnessMatrix.Tracker.AssertComplete` | src/solverforge_bench/matrix.py:199-205 | passes exactly when every expected key was observed, and else lists the missing ones |
| `HarnessMatrix.PayloadsAgree` | src/solverforge_bench/matrix.py:158-169 | sorted payloads are equal if and only if the key sets are |
| `HarnessMatrix.RunLoop` | src/solverforge_bench/runner.py:111-194 | the nested loop emits every expected key exactly once and never trips the tracker |
| `HarnessWriter.Database.CommitRow` | src/solverforge_bench/postgres.py:95-109 | one transaction inserts the row and the count together or neither |
| `HarnessWriter.Writer.Open` | src/solverforge_bench/postgres.py:72-88 | a failed opening leaves the writer closed and the run marked failed, with nothing observed, where a run row existed |
| `HarnessWriter.Writer.WriteRow` | src/solverforge_bench/postgres.py:95-109 | a row is committed, indexed and observed together, exactly when the writer is open, the row expected and new and the transaction succeeds; otherwise nothing changes, and the error is the first of these that fails |
| `HarnessWriter.Writer.Finish` | src/solverforge_bench/postgres.py:369-405 | completed is recorded if and only if there was no exception and every expected key was observed; the recorded payload is that of the observed keys, which is the expected one exactly when all are observed |
| `HarnessWriter.Writer.CompleteIsPayload` | src/solverforge_bench/postgres.py:369-405 | the observed payload equals the expected one if and only if the matrix is complete |
| `HarnessWriter.Writer.CompletedRows` | src/solverforge_bench/postgres.py:369-405 | a complete run has exactly one committed row per expected key |
| `HarnessWriter.Replay` | src/solverforge_bench/postgres.py:95-109 | after any sequence of writes, failing transactions included, the committed keys are those of the reference fold |
| `HarnessWriter.CommittedMeaning` | src/solverforge_bench/postgres.py:95-109 | committed keys are distinct, expected, and each had a successful write |
| `HarnessWriter.CleanRun` | src/solverforge_bench/runner.py:111-194 | a run without failures commits its keys in order |
| `HarnessProtocol.CollectChildMessages` | src/solverforge_bench/execution.py:330-356 | the collector returns the last result and the last witness among the messages read |
| `HarnessProtocol.StepKeeps` | src/solverforge_bench/execution.py:77-207 | every child, pipe, parent and watchdog step keeps the protocol invariant |
| `HarnessProtocol.AtMostOneResult` | src/solverforge_bench/execution.py:216-321 | in every reachable state at most one result message exists, and none while the child still works |
| `HarnessProtocol.ReturnedRuns` | src/solverforge_bench/execution.py:77-207 | a returned run is marked fair exactly when it carries a witness, which then passed validation; a solution always carries the one the child produced it with |
| `HarnessProtocol.RaisedRuns` | src/solverforge_bench/execution.py:156-157 | the parent raises only a violation the child reported |
| `HarnessProtocol.ConcludedIsFinal` | src/solverforge_bench/execution.py:77-207 | nothing happens after the outcome is decided |
| `HarnessProtocol.ViolationOutcome` | src/solverforge_bench/execution.py:77-207 | a run with a reported fair-start violation returns if and only if the parent killed the child at some earlier step or read no report, and never returns a solution; what is read is the report |
| `HarnessProtocol.KillIsMarked` | src/solverforge_bench/execution.py:77-125 | an outcome is marked killed if and only if the parent killed the child in the run |
| `HarnessProtocol.ConcludedOutcome` | src/solverforge_bench/execution.py:97-207 | after a kill the run is a timeout without solution and with the last witness read; otherwise a solution or adapter error that was read is returned with its own witness, a violation that was read is raised, and without a result the run reports that with the last witness read |
| `HarnessDelivery.InOrder` | src/solverforge_bench/execution.py:77-107 | what the parent has read, what is written and what waits is, in this order, an initial part of what the child has put, and all of it unless a kill or crash lost messages |
| `HarnessDelivery.ParentHolds` | src/solverforge_bench/execution.py:330-356 | in every state the parent holds the latest result and the latest witness of what it has read |
| `HarnessDelivery.Delivered` | src/solverforge_bench/execution.py:77-207 | without kill or lost message, and read to the end, the result the child put is returned or raised as it was put, and without one the run carries the latest witness put |
| `HarnessChild.FairStartErrors` | src/solverforge_bench/fair_start.py:137-181 | there is no complaint about a witness exactly when it names the run, has an input digest and reports nothing solved beforehand |
| `HarnessChild.RunSolverChild` | src/solverforge_bench/execution.py:216-321 | the queue holds the recorded witnesses in order and then at most one result, determined by how the solver ended: solution, ordinary failure with the latest witness, or fatal message |
| `HarnessChild.RunsAreScripts` | src/solverforge_bench/execution.py:216-321 | whatever the child of the protocol has put in a run, the child program puts for some solver |
| `HarnessChild.ScriptsRun` | src/solverforge_bench/execution.py:216-321 | for every solver some run of the protocol puts exactly what the child program puts |
| `HarnessProtocol.ViolationLost` | src/solverforge_bench/execution.py:82-165 | a concrete run in which the parent has read the reported violation and still returns a killed run marked fair |

## Left out

- Solver internals: only the emitted models and the decoding of results are modelled; maximal runs are a model function.
- Floating point, integrality tolerances and rounding of solver values: columns take exact reals, 0/1 values are exact.
- Integer width: Rust `usize`, Java `int` and C++ `int64_t` arithmetic is unbounded here.
- SHA-256: a hash is its canonical payload.
- JSON, CSV and SQL text, logging, locks, subprocess and file handling, the command line, loaders and provenance.
- Telemetry, nearby-distance meters and incremental list precedence constraints: no result depends on them.
- Nurse, skill, day and shift-type names: positions stand for them, so the name tables of `serialize_instance` and the unknown-name errors of the validator are not modelled beyond ranges.
- Per-nurse contract facts copied from the payload into the SolverForge plans: the constraints read contract and history directly.
- The coverage, contract and weekend constraints of the CP-SAT rostering adapter: they state the same linear conditions as the HiGHS rows, which are modelled; the demand aggregation and the run-length block, where the encodings differ, are.
- RosterMilpOptimum.OptimaAgree: asks for ordered bounds and non-negative maxima (`Regular`). With a minimum above its maximum the two sides part: for assignments the validator charges one side and the rows both, for runs the validator charges both and the rows the larger one.
- RosterMilpBuild.BuildModel: successions are emitted in the order of the table, not of sorted dictionaries and sets; rows may repeat where a successor is listed twice.
- JobShopPython.ScheduleMetrics: states the metrics for plans that passed the completeness check before it, where the duplicate penalty is zero by construction.
- JobShopEndToEnd.OutputAccepted: asks for distinct machine ids in the plan, which `build_plan` gives every plan it makes.
- CvrpExactness.OptimaAgree: speaks of solutions without empty routes and non-negative demands; an empty route has no arcs and changes neither feasibility nor the other routes.
- JobShopJava.Evaluate: operations are records of the plan, not objects with mutable ids; edge insertion and placement counts, the same statements in both adapters, are those of the Rust model.
- RosterScore.Answer: the model delta is stated for the exact score; solver-side incremental score updates are not modelled.
- HarnessWriter.Writer.Finish: a closed connection counts as not open, so a write after the end is refused as such; the repository keeps the closed connection and lets the driver refuse.
- HarnessWriter.Writer.WriteRow: a transaction either commits or raises; a commit that succeeds but reports an error is not modelled.
- HarnessProtocol.StepKeeps: messages enter the pipe whole and in order; partial writes at a kill are not modelled.
- HarnessMatrix.Build: the repeated values an error carries are a set; the repository lists them sorted in its message.
- HarnessChild.RunSolverChild: a solver is the list of witnesses it emits and the way it ends; a result that is no solver result ends as a violation, and error texts are a parameter.
