// From an instance to a plan, from an evaluated plan to a solution, and back: outputs are
// accepted at the reported makespan, and every accepted schedule is dominated by a plan.
module JobShopEndToEnd {
  import opened Wrappers
  import opened Collections
  import opened Sorting
  import opened Graph
  import opened Kahn
  import opened JobShop
  import opened JobShopValidate
  import opened JobShopPlan
  import R = JobShopRust

  // The plan's operations are the instance's, in flat order.
  ghost predicate PlanFor(inst: Instance, plan: Plan) {
    && plan.Size() == |inst.Ops()| && plan.numMachines == inst.numMachines
    && forall i | 0 <= i < plan.Size() :: SameOperation(inst.Ops()[i], plan.operations[i], i)
  }

  ghost predicate SameOperation(op: Operation, p: PlanOperation, i: nat) {
    p.id == i && p.job == op.job && p.index == op.index && p.machine == op.machine && p.duration == op.duration
  }

  // Whose key is the next index of the same job.
  ghost predicate SuccessorOk(ops: seq<PlanOperation>, i: nat)
    requires i < |ops|
  {
    match ops[i].successor
    case Some(s) => s < |ops| && ops[s].job == ops[i].job && ops[s].index == ops[i].index + 1
    case None => forall l | 0 <= l < |ops| && ops[l].job == ops[i].job :: ops[l].index != ops[i].index + 1
  }

  ghost predicate IndexTable(ops: seq<PlanOperation>, k: nat, table: map<(nat, int), nat>)
    requires k <= |ops|
  {
    && (forall i | 0 <= i < k :: (ops[i].job, ops[i].index) in table)
    && (forall key | key in table :: table[key] < k && (ops[table[key]].job, ops[table[key]].index) == key)
  }

  // The first k plan operations repeat the instance's.
  ghost predicate Numbered(input: seq<Operation>, ops: seq<PlanOperation>) {
    |ops| <= |input| && forall l | 0 <= l < |ops| :: SameOperation(input[l], ops[l], l)
  }

  method NumberOperations(inst: Instance) returns (ops: seq<PlanOperation>)
    requires inst.WellFormed()
    ensures |ops| == |inst.Ops()| && Numbered(inst.Ops(), ops)
  {
    var input := inst.Ops();
    ops := [];
    for i := 0 to |input|
      invariant |ops| == i && Numbered(input, ops)
    {
      OperationBounds(inst, i);
      ops := ops + [PlanOperation(i, input[i].job, input[i].index, input[i].machine, input[i].duration, None)];
    }
  }

  method IndexOperations(ops: seq<PlanOperation>) returns (table: map<(nat, int), nat>)
    requires forall i | 0 <= i < |ops| :: ops[i].id == i
    ensures IndexTable(ops, |ops|, table)
  {
    table := map[];
    for i := 0 to |ops|
      invariant IndexTable(ops, i, table)
    {
      table := table[(ops[i].job, ops[i].index) := ops[i].id];
    }
  }

  lemma LinkStep(input: seq<Operation>, ops: seq<PlanOperation>, table: map<(nat, int), nat>, i: nat, found: Option<nat>)
    requires |ops| == |input| && Numbered(input, ops) && IndexTable(ops, |ops|, table) && i < |ops|
    requires found == (if (ops[i].job, ops[i].index + 1) in table then Some(table[(ops[i].job, ops[i].index + 1)]) else None)
    requires forall l | 0 <= l < i :: SuccessorOk(ops, l)
    ensures var ops' := ops[i := ops[i].(successor := found)];
      Numbered(input, ops') && IndexTable(ops', |ops'|, table) && forall l | 0 <= l < i + 1 :: SuccessorOk(ops', l)
  {
    var ops' := ops[i := ops[i].(successor := found)];
    assert forall l | 0 <= l < |ops| :: ops'[l].job == ops[l].job && ops'[l].index == ops[l].index && ops'[l].id == ops[l].id;
    forall l | 0 <= l < |ops'| ensures SameOperation(input[l], ops'[l], l) {
      assert SameOperation(input[l], ops[l], l);
    }
    forall l | 0 <= l < i + 1 ensures SuccessorOk(ops', l) {
      if l < i { assert SuccessorOk(ops, l); }
    }
  }

  // Operations numbered by position, successors looked up by key, empty machine sequences.
  method BuildPlan(inst: Instance, numJobs: nat) returns (plan: Plan)
    requires inst.WellFormed()
    ensures PlanFor(inst, plan) && plan.WellFormed()
    ensures plan.sequences == seq(inst.numMachines, (m: nat) => MachineSequence(m, []))
    ensures forall i | 0 <= i < plan.Size() :: SuccessorOk(plan.operations, i)
  {
    var ops := NumberOperations(inst);
    var table := IndexOperations(ops);
    for i := 0 to |ops|
      invariant |ops| == |inst.Ops()| && Numbered(inst.Ops(), ops)
      invariant IndexTable(ops, |ops|, table)
      invariant forall l | 0 <= l < i :: SuccessorOk(ops, l)
    {
      var key := (ops[i].job, ops[i].index + 1);
      var found := if key in table then Some(table[key]) else None;
      LinkStep(inst.Ops(), ops, table, i, found);
      ops := ops[i := ops[i].(successor := found)];
    }
    plan := Plan(ops, seq(inst.numMachines, (m: nat) => MachineSequence(m, [])), numJobs, inst.numMachines);
    NumberedIsWellFormed(inst, plan);
  }

  lemma NumberedIsWellFormed(inst: Instance, plan: Plan)
    requires inst.WellFormed() && PlanFor(inst, plan)
    ensures plan.WellFormed()
  {
    KeysDistinct(inst);
    var ops := plan.operations;
    forall i, l | 0 <= i < |ops| && 0 <= l < |ops| && ops[i].job == ops[l].job && ops[i].index == ops[l].index
      ensures i == l
    {
      assert SameOperation(inst.Ops()[i], ops[i], i) && SameOperation(inst.Ops()[l], ops[l], l);
      assert inst.Ops()[i].Id() == inst.Ops()[l].Id();
    }
    forall i | 0 <= i < |ops| ensures ops[i].id == i {
      assert SameOperation(inst.Ops()[i], ops[i], i);
    }
  }

  lemma OperationBounds(inst: Instance, i: nat)
    requires inst.WellFormed() && i < |inst.Ops()|
    ensures inst.Ops()[i].job >= 0 && 0 <= inst.Ops()[i].machine < inst.numMachines && inst.Ops()[i].duration >= 0
  {
    var j, k := FlatPosition(inst.jobs, i);
    assert inst.OperationOk(j, k);
  }

  // ----- the output -----

  // Operation v of the plan at the start the evaluation gives it.
  function Output(plan: Plan, starts: seq<Option<nat>>, v: nat): Scheduled
    requires v < plan.Size() == |starts| && starts[v].Some?
  {
    var op := plan.operations[v];
    Scheduled(op.job, op.index, op.machine, starts[v].value, op.duration)
  }

  // Listed job by job, each in index order.
  ghost predicate ByJobAndIndex(sops: seq<Scheduled>) {
    forall i, l | 0 <= i < l < |sops| ::
      sops[i].job < sops[l].job || (sops[i].job == sops[l].job && sops[i].index <= sops[l].index)
  }

  datatype OutputError = HardPenalty(penalty: nat) | NoStart(operation: nat)

  ghost predicate IsOutput(plan: Plan, starts: seq<Option<nat>>, s: Scheduled)
    requires plan.Size() == |starts| && forall v | 0 <= v < |starts| :: starts[v].Some?
  {
    exists v: nat :: v < plan.Size() && s == Output(plan, starts, v)
  }

  ghost predicate OutputOf(plan: Plan, starts: seq<Option<nat>>, sops: seq<Scheduled>)
    requires plan.Size() == |starts| && forall v | 0 <= v < |starts| :: starts[v].Some?
  {
    && NoRepeats(sops)
    && (forall i | 0 <= i < |sops| :: IsOutput(plan, starts, sops[i]))
    && (forall v | 0 <= v < plan.Size() :: Output(plan, starts, v) in sops)
  }

  // Evaluates the plan, refuses penalised ones, and lists the operations by job and index.
  method SolutionOutput(plan: Plan) returns (r: Result<Solution, OutputError>)
    requires plan.WellFormed()
    ensures r.Ok? <==> Placed(plan) && Acyclic(PlanEdges(plan))
    ensures r.Ok? ==> Answers(plan, r.value) && ByJobAndIndex(r.value.operations)
    ensures r.Err? ==> r.error.HardPenalty? && Penalised(plan, r.error.penalty)
  {
    var e := R.EvaluateSchedule(plan);
    R.PenaltyExact(plan, e);
    R.StartedExact(plan, e);
    if e.hardPenalty > 0 {
      assert Penalised(plan, e.hardPenalty);
      return Err(HardPenalty(e.hardPenalty));
    }
    var rows := OutputList(plan, e.starts);
    if rows.Err? { assert false; }
    var sops := Values(Sort(rows.value));
    OutputRows(plan, e.starts, rows.value);
    r := Ok(Solution(sops, Some(e.makespan)));
    assert OutputFrom(plan, e, r.value);
  }

  // The solution lists an evaluation of the plan and reports its makespan.
  ghost predicate OutputFrom(plan: Plan, e: R.Evaluation, sol: Solution) {
    && R.EvaluationOf(plan, e) && (forall v | 0 <= v < plan.Size() :: e.starts[v].Some?)
    && OutputOf(plan, e.starts, sol.operations) && sol.reportedMakespan == Some(e.makespan)
  }

  ghost predicate Penalised(plan: Plan, penalty: nat) {
    penalty > 0 && exists e :: R.EvaluationOf(plan, e) && e.hardPenalty == penalty
  }

  ghost predicate Answers(plan: Plan, sol: Solution) {
    exists e :: OutputFrom(plan, e, sol)
  }

  method OutputList(plan: Plan, starts: seq<Option<nat>>) returns (r: Result<seq<Keyed<Scheduled>>, OutputError>)
    requires |starts| == plan.Size()
    ensures r.Ok? ==> RowsOf(plan, starts, r.value)
    ensures r.Err? ==> exists v :: 0 <= v < plan.Size() && starts[v].None?
  {
    var rows: seq<Keyed<Scheduled>> := [];
    for v := 0 to plan.Size()
      invariant |rows| == v
      invariant forall w | 0 <= w < v :: RowOf(plan, starts, w, rows[w])
    {
      if starts[v].None? { return Err(NoStart(v)); }
      var o := Output(plan, starts, v);
      rows := rows + [Keyed(o.job, o.index, 0, o)];
    }
    return Ok(rows);
  }

  ghost predicate RowOf(plan: Plan, starts: seq<Option<nat>>, v: nat, row: Keyed<Scheduled>) {
    && v < plan.Size() == |starts| && starts[v].Some?
    && row.value == Output(plan, starts, v) && row.minor == 0
    && row.major == row.value.job && row.middle == row.value.index
  }

  lemma RowsNoRepeats(plan: Plan, starts: seq<Option<nat>>, rows: seq<Keyed<Scheduled>>)
    requires plan.WellFormed() && RowsOf(plan, starts, rows)
    ensures NoRepeats(rows)
  {
    forall i, l | 0 <= i < l < |rows| ensures rows[i] != rows[l] {
      assert RowOf(plan, starts, i, rows[i]) && RowOf(plan, starts, l, rows[l]);
    }
  }

  ghost predicate RowsOf(plan: Plan, starts: seq<Option<nat>>, rows: seq<Keyed<Scheduled>>) {
    plan.Size() == |starts| == |rows| && forall v | 0 <= v < |rows| :: RowOf(plan, starts, v, rows[v])
  }

  // A row carries its own key, so it is determined by its value.
  lemma ValuesNoRepeats(plan: Plan, starts: seq<Option<nat>>, rows: seq<Keyed<Scheduled>>, t: seq<Keyed<Scheduled>>)
    requires RowsOf(plan, starts, rows) && Permutation(t, rows) && NoRepeats(t)
    ensures NoRepeats(Values(t))
  {
    forall i, l | 0 <= i < l < |t| ensures t[i].value != t[l].value {
      var v := PermutationMember(t, rows, i);
      var w := PermutationMember(t, rows, l);
      assert RowOf(plan, starts, v, rows[v]) && RowOf(plan, starts, w, rows[w]);
      assert t[i] != t[l];
    }
  }

  lemma RowsInOrder(plan: Plan, starts: seq<Option<nat>>, rows: seq<Keyed<Scheduled>>, t: seq<Keyed<Scheduled>>)
    requires RowsOf(plan, starts, rows) && Permutation(t, rows) && Sorted(t)
    ensures ByJobAndIndex(Values(t))
  {
    forall i | 0 <= i < |t| ensures t[i].major == t[i].value.job && t[i].middle == t[i].value.index {
      var v := PermutationMember(t, rows, i);
      assert RowOf(plan, starts, v, rows[v]);
    }
    forall i, l | 0 <= i < l < |t|
      ensures t[i].value.job < t[l].value.job || (t[i].value.job == t[l].value.job && t[i].value.index <= t[l].value.index)
    {
      assert t[i].AtMost(t[l]);
    }
  }

  lemma OutputRows(plan: Plan, starts: seq<Option<nat>>, rows: seq<Keyed<Scheduled>>)
    requires plan.WellFormed() && RowsOf(plan, starts, rows)
    requires forall v | 0 <= v < |starts| :: starts[v].Some?
    ensures OutputOf(plan, starts, Values(Sort(rows))) && ByJobAndIndex(Values(Sort(rows)))
  {
    var t := Sort(rows);
    SortPermutes(rows);
    SortSorted(rows);
    RowsInOrder(plan, starts, rows, t);
    RowsNoRepeats(plan, starts, rows);
    PermutationNoRepeats(t, rows);
    ValuesNoRepeats(plan, starts, rows, t);
    forall i | 0 <= i < |t| ensures IsOutput(plan, starts, t[i].value) {
      var v := PermutationMember(t, rows, i);
      assert RowOf(plan, starts, v, rows[v]);
    }
    forall v | 0 <= v < plan.Size() ensures Output(plan, starts, v) in Values(t) {
      var i := PermutationMember(rows, t, v);
      assert RowOf(plan, starts, v, rows[v]);
      assert Values(t)[i] == Output(plan, starts, v);
    }
  }

  // ----- acceptance of outputs -----

  // Position k of job j, in both representations.
  lemma JobPosition(inst: Instance, plan: Plan, j: nat, k: nat)
    requires inst.WellFormed() && PlanFor(inst, plan) && j < |inst.jobs| && k < |inst.jobs[j]|
    ensures var u := Offset(inst.jobs, j) + k;
      && u < plan.Size() && inst.Ops()[u] == inst.jobs[j][k]
      && plan.operations[u].job == j && plan.operations[u].index == inst.jobs[j][k].index
  {
    FlattenAt(inst.jobs, j, k);
    assert inst.OperationOk(j, k);
    var u := Offset(inst.jobs, j) + k;
    assert SameOperation(inst.Ops()[u], plan.operations[u], u);
  }

  lemma PositionOf(inst: Instance, plan: Plan, u: nat) returns (j: nat, k: nat)
    requires inst.WellFormed() && PlanFor(inst, plan) && u < plan.Size()
    ensures j < |inst.jobs| && k < |inst.jobs[j]| && u == Offset(inst.jobs, j) + k
    ensures inst.Ops()[u] == inst.jobs[j][k]
    ensures plan.operations[u].job == j && plan.operations[u].index == inst.jobs[j][k].index
  {
    j, k := FlatPosition(inst.jobs, u);
    JobPosition(inst, plan, j, k);
  }

  lemma IndexOrder(inst: Instance, j: nat, k: nat, l: nat)
    requires inst.WellFormed() && j < |inst.jobs| && k < |inst.jobs[j]| && l < |inst.jobs[j]|
    ensures k < l <==> inst.jobs[j][k].index < inst.jobs[j][l].index
  {
  }

  // Direct successors in a job are the plan's job edges.
  lemma JobStepIsEdge(inst: Instance, plan: Plan, j: nat, k: nat)
    requires inst.WellFormed() && PlanFor(inst, plan) && j < |inst.jobs| && k + 1 < |inst.jobs[j]|
    ensures JobEdge(plan, Offset(inst.jobs, j) + k, Offset(inst.jobs, j) + k + 1)
  {
    JobPosition(inst, plan, j, k);
    JobPosition(inst, plan, j, k + 1);
    IndexOrder(inst, j, k, k + 1);
    forall w: nat | w < plan.Size() && plan.operations[w].job == j
      ensures !(inst.jobs[j][k].index < plan.operations[w].index < inst.jobs[j][k + 1].index)
    {
      var j', k' := PositionOf(inst, plan, w);
      IndexOrder(inst, j, k, k');
      IndexOrder(inst, j, k', k + 1);
    }
  }

  lemma EdgeIsJobStep(inst: Instance, plan: Plan, u: nat, v: nat) returns (j: nat, k: nat)
    requires inst.WellFormed() && PlanFor(inst, plan) && JobEdge(plan, u, v)
    ensures j < |inst.jobs| && k + 1 < |inst.jobs[j]|
    ensures u == Offset(inst.jobs, j) + k && v == u + 1
    ensures inst.Ops()[u] == inst.jobs[j][k] && inst.Ops()[v] == inst.jobs[j][k + 1]
  {
    j, k := PositionOf(inst, plan, u);
    var j', k' := PositionOf(inst, plan, v);
    IndexOrder(inst, j, k, k');
    if k + 1 < k' {
      JobPosition(inst, plan, j, k + 1);
      IndexOrder(inst, j, k, k + 1);
      IndexOrder(inst, j, k + 1, k');
    }
    JobPosition(inst, plan, j, k + 1);
  }

  ghost predicate DistinctMachines(plan: Plan) {
    forall m, l | 0 <= m < l < |plan.sequences| :: plan.sequences[m].id != plan.sequences[l].id
  }

  lemma {:induction false} AssignedSomewhere(plan: Plan, k: nat, v: nat) returns (m: nat, p: nat)
    requires k <= |plan.sequences| && Assigned(plan, k, v) > 0
    ensures m < k && p < |plan.sequences[m].operations| && plan.sequences[m].operations[p] == v
  {
    if multiset(plan.sequences[k - 1].operations)[v] > 0 {
      m := k - 1;
      assert v in plan.sequences[m].operations;
      p :| 0 <= p < |plan.sequences[m].operations| && plan.sequences[m].operations[p] == v;
    } else {
      m, p := AssignedSomewhere(plan, k - 1, v);
    }
  }

  // Along one machine sequence, finishing times never pass later starts.
  lemma {:induction false} SequenceOrdered(plan: Plan, start: map<nat, int>, m: nat, p: nat, q: nat)
    requires Respects(PlanEdges(plan), Durations(plan), NodesBelow(plan.Size()), start)
    requires m < |plan.sequences| && PlacedOn(plan, plan.sequences[m])
    requires p < q < |plan.sequences[m].operations|
    ensures var s := plan.sequences[m].operations;
      s[p] < plan.Size() && s[q] < plan.Size() && s[p] in start && s[q] in start &&
      start[s[p]] + plan.operations[s[p]].duration <= start[s[q]]
    decreases q - p
  {
    var s := plan.sequences[m].operations;
    assert s[p] in NodesBelow(plan.Size()) && s[p + 1] in NodesBelow(plan.Size());
    assert Linked(s, plan.Size(), p);
    assert (s[p], s[p + 1]) in ChainEdges(s, plan.Size());
    MachineEdgesMember(plan, |plan.sequences|, s[p], s[p + 1]);
    assert (s[p], s[p + 1]) in PlanEdges(plan);
    if p + 1 < q { SequenceOrdered(plan, start, m, p + 1, q); }
  }

  // Started, placed and acyclic plans give schedules the validator accepts.
  lemma OutputApart(plan: Plan, start: map<nat, int>, v: nat, w: nat)
    requires Placed(plan) && DistinctMachines(plan)
    requires Respects(PlanEdges(plan), Durations(plan), NodesBelow(plan.Size()), start)
    requires v < plan.Size() && w < plan.Size() && v != w && plan.operations[v].machine == plan.operations[w].machine
    ensures v in start && w in start
    ensures start[v] + plan.operations[v].duration <= start[w] || start[w] + plan.operations[w].duration <= start[v]
  {
    assert AssignedOnce(plan, v) && AssignedOnce(plan, w);
    var m, p := AssignedSomewhere(plan, |plan.sequences|, v);
    var l, q := AssignedSomewhere(plan, |plan.sequences|, w);
    assert PlacedOn(plan, plan.sequences[m]) && PlacedOn(plan, plan.sequences[l]);
    assert m == l && p != q;
    if p < q { SequenceOrdered(plan, start, m, p, q); } else { SequenceOrdered(plan, start, m, q, p); }
  }

  lemma OutputComplete(inst: Instance, plan: Plan, starts: seq<Option<nat>>, sops: seq<Scheduled>)
    requires inst.WellFormed() && PlanFor(inst, plan)
    requires plan.Size() == |starts| && forall v | 0 <= v < |starts| :: starts[v].Some?
    requires OutputOf(plan, starts, sops)
    ensures Complete(inst, sops)
    ensures forall v | 0 <= v < plan.Size() ::
      inst.Ops()[v].Id() in Starts(sops, |sops|) && Starts(sops, |sops|)[inst.Ops()[v].Id()] == starts[v].value
  {
    KeysDistinct(inst);
    forall i | 0 <= i < |sops| ensures Matches(inst, sops[i]) {
      assert IsOutput(plan, starts, sops[i]);
      var v: nat :| v < plan.Size() && sops[i] == Output(plan, starts, v);
      assert SameOperation(inst.Ops()[v], plan.operations[v], v);
      assert inst.Ops()[v] == Operation(sops[i].job, sops[i].index, sops[i].machine, sops[i].duration);
    }
    forall i, l | 0 <= i < |sops| && 0 <= l < |sops| && sops[i].Id() == sops[l].Id() ensures i == l {
      assert IsOutput(plan, starts, sops[i]);
      var v: nat :| v < plan.Size() && sops[i] == Output(plan, starts, v);
      assert IsOutput(plan, starts, sops[l]);
      var w: nat :| w < plan.Size() && sops[l] == Output(plan, starts, w);
      assert SameOperation(inst.Ops()[v], plan.operations[v], v) && SameOperation(inst.Ops()[w], plan.operations[w], w);
      assert inst.Ops()[v].Id() == inst.Ops()[w].Id();
      assert sops[i] == sops[l];
    }
    forall v | 0 <= v < plan.Size()
      ensures inst.Ops()[v].Id() in Starts(sops, |sops|) && Starts(sops, |sops|)[inst.Ops()[v].Id()] == starts[v].value
    {
      assert Output(plan, starts, v) in sops;
      var i :| 0 <= i < |sops| && sops[i] == Output(plan, starts, v);
      assert SameOperation(inst.Ops()[v], plan.operations[v], v);
      StartOfDistinct(sops, i);
    }
  }

  ghost predicate StartsAt(inst: Instance, start: map<nat, int>, sops: seq<Scheduled>, v: nat)
    requires v < |inst.Ops()|
  {
    var key := inst.Ops()[v].Id();
    v in start && key in Starts(sops, |sops|) && Starts(sops, |sops|)[key] == start[v]
  }

  ghost predicate AllStartAt(inst: Instance, start: map<nat, int>, sops: seq<Scheduled>) {
    forall v: nat | v < |inst.Ops()| :: StartsAt(inst, start, sops, v)
  }

  lemma JobEdgeRespected(plan: Plan, start: map<nat, int>, u: nat, v: nat)
    requires Respects(PlanEdges(plan), Durations(plan), NodesBelow(plan.Size()), start) && JobEdge(plan, u, v)
    ensures u in start && v in start && start[u] + plan.operations[u].duration <= start[v]
  {
    assert (u, v) in PlanEdges(plan) && v in NodesBelow(plan.Size());
  }

  lemma StepRespected(inst: Instance, plan: Plan, start: map<nat, int>, j: nat, k: nat)
    requires inst.WellFormed() && PlanFor(inst, plan) && j < |inst.jobs| && k + 1 < |inst.jobs[j]|
    requires Respects(PlanEdges(plan), Durations(plan), NodesBelow(plan.Size()), start)
    ensures var u := Offset(inst.jobs, j) + k;
      && u + 1 < |inst.Ops()| && inst.Ops()[u] == inst.jobs[j][k] && inst.Ops()[u + 1] == inst.jobs[j][k + 1]
      && u in start && u + 1 in start && start[u] + inst.jobs[j][k].duration <= start[u + 1]
  {
    var u := Offset(inst.jobs, j) + k;
    JobPosition(inst, plan, j, k);
    JobPosition(inst, plan, j, k + 1);
    JobStepIsEdge(inst, plan, j, k);
    JobEdgeRespected(plan, start, u, u + 1);
    assert SameOperation(inst.Ops()[u], plan.operations[u], u);
  }

  lemma StepInOrder(inst: Instance, start: map<nat, int>, sops: seq<Scheduled>, j: nat, k: nat, u: nat)
    requires j < |inst.jobs| && k + 1 < |inst.jobs[j]| && u + 1 < |inst.Ops()|
    requires inst.Ops()[u] == inst.jobs[j][k] && inst.Ops()[u + 1] == inst.jobs[j][k + 1]
    requires u in start && u + 1 in start && start[u] + inst.jobs[j][k].duration <= start[u + 1]
    requires AllStartAt(inst, start, sops)
    ensures InOrder(inst, Starts(sops, |sops|), j, k)
  {
    assert StartsAt(inst, start, sops, u) && StartsAt(inst, start, sops, u + 1);
  }

  lemma PairInOrder(inst: Instance, plan: Plan, start: map<nat, int>, sops: seq<Scheduled>, j: nat, k: nat)
    requires inst.WellFormed() && PlanFor(inst, plan) && j < |inst.jobs| && k + 1 < |inst.jobs[j]|
    requires Respects(PlanEdges(plan), Durations(plan), NodesBelow(plan.Size()), start)
    requires AllStartAt(inst, start, sops)
    ensures InOrder(inst, Starts(sops, |sops|), j, k)
  {
    var u := Offset(inst.jobs, j) + k;
    StepRespected(inst, plan, start, j, k);
    StepInOrder(inst, start, sops, j, k, u);
  }

  // Durations of plan and instance agree, so edges carry over to the validator's terms.
  lemma OutputInOrder(inst: Instance, plan: Plan, start: map<nat, int>, sops: seq<Scheduled>)
    requires inst.WellFormed() && PlanFor(inst, plan)
    requires Respects(PlanEdges(plan), Durations(plan), NodesBelow(plan.Size()), start)
    requires AllStartAt(inst, start, sops)
    ensures PrecedenceHolds(inst, Starts(sops, |sops|))
  {
    forall j, k | 0 <= j < |inst.jobs| && 0 <= k < |inst.jobs[j]| - 1 ensures InOrder(inst, Starts(sops, |sops|), j, k) {
      PairInOrder(inst, plan, start, sops, j, k);
    }
  }

  // End to end: a zero-penalty evaluation becomes a solution the validator accepts, and
  // the validator's makespan is the reported one.
  lemma OutputAccepted(inst: Instance, plan: Plan, e: R.Evaluation, sops: seq<Scheduled>)
    requires inst.WellFormed() && PlanFor(inst, plan) && plan.WellFormed() && DistinctMachines(plan)
    requires R.EvaluationOf(plan, e) && e.hardPenalty == 0
    requires forall v | 0 <= v < plan.Size() :: e.starts[v].Some?
    requires OutputOf(plan, e.starts, sops)
    ensures Accepted(inst, sops) && IsMakespan(sops, e.makespan)
  {
    R.PenaltyExact(plan, e);
    R.AllStarted(e.starts);
    EvaluationRespects(plan, e);
    OutputSchedules(inst, plan, e.starts, sops);
    OutputMakespan(plan, e, sops);
  }

  lemma OutputSchedules(inst: Instance, plan: Plan, starts: seq<Option<nat>>, sops: seq<Scheduled>)
    requires inst.WellFormed() && PlanFor(inst, plan) && Placed(plan) && DistinctMachines(plan)
    requires plan.Size() == |starts| && forall v | 0 <= v < |starts| :: starts[v].Some?
    requires Respects(PlanEdges(plan), Durations(plan), NodesBelow(plan.Size()), StartMap(starts))
    requires OutputOf(plan, starts, sops)
    ensures Accepted(inst, sops)
  {
    OutputComplete(inst, plan, starts, sops);
    forall v | 0 <= v < plan.Size() ensures StartsAt(inst, StartMap(starts), sops, v) {
      assert v in StartMap(starts);
    }
    OutputInOrder(inst, plan, StartMap(starts), sops);
    OutputMachinesApart(plan, starts, sops);
  }

  lemma OutputMachinesApart(plan: Plan, starts: seq<Option<nat>>, sops: seq<Scheduled>)
    requires Placed(plan) && DistinctMachines(plan)
    requires plan.Size() == |starts| && forall v | 0 <= v < |starts| :: starts[v].Some?
    requires Respects(PlanEdges(plan), Durations(plan), NodesBelow(plan.Size()), StartMap(starts))
    requires OutputOf(plan, starts, sops)
    ensures MachinesApart(sops)
  {
    forall i, l | 0 <= i < l < |sops| && sops[i].machine == sops[l].machine ensures Apart(sops[i], sops[l]) {
      assert IsOutput(plan, starts, sops[i]);
      var v: nat :| v < plan.Size() && sops[i] == Output(plan, starts, v);
      assert IsOutput(plan, starts, sops[l]);
      var w: nat :| w < plan.Size() && sops[l] == Output(plan, starts, w);
      assert sops[i] != sops[l];
      OutputApart(plan, StartMap(starts), v, w);
    }
  }

  lemma EvaluationRespects(plan: Plan, e: R.Evaluation)
    requires R.EvaluationOf(plan, e) && StartMap(e.starts).Keys == NodesBelow(plan.Size())
    ensures Respects(PlanEdges(plan), Durations(plan), NodesBelow(plan.Size()), StartMap(e.starts))
  {
    var order :| EvaluatesBy(PlanEdges(plan), Durations(plan), NodesBelow(plan.Size()), StartMap(e.starts), order);
    EarliestRespects(PlanEdges(plan), Durations(plan), StartMap(e.starts));
  }

  lemma OutputMakespan(plan: Plan, e: R.Evaluation, sops: seq<Scheduled>)
    requires R.IsMakespan(Durations(plan), StartMap(e.starts), e.makespan)
    requires plan.Size() == |e.starts| > 0 && forall v | 0 <= v < plan.Size() :: e.starts[v].Some?
    requires OutputOf(plan, e.starts, sops)
    ensures IsMakespan(sops, e.makespan)
  {
    forall i | 0 <= i < |sops| ensures sops[i].End() <= e.makespan {
      assert IsOutput(plan, e.starts, sops[i]);
      var v: nat :| v < plan.Size() && sops[i] == Output(plan, e.starts, v);
      assert v in StartMap(e.starts);
    }
    var v: nat := 0;
    if e.makespan != 0 {
      v :| v in StartMap(e.starts) && v < plan.Size() && StartMap(e.starts)[v] + Durations(plan)[v] == e.makespan;
    }
    assert Output(plan, e.starts, v) in sops;
    assert v in StartMap(e.starts);
    var i :| 0 <= i < |sops| && sops[i] == Output(plan, e.starts, v);
    assert sops[i].End() == e.makespan;
  }
}
