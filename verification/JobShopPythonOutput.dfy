// The Python adapter's answer: sequences checked entry by entry, evaluated, and listed
// machine by machine.
module JobShopPythonOutput {
  import opened Wrappers
  import opened Collections
  import opened Graph
  import opened Kahn
  import J = JobShop
  import opened JobShopPlan
  import opened JobShopEndToEnd
  import opened JobShopPython

  datatype RefusedAnswer =
    | DuplicateMachine(id: nat)
    | UnknownOperation(operation: nat)
    | WrongMachine(operation: nat, id: nat)
    | Incomplete(missing: set<nat>, duplicates: set<nat>)
    | CyclicPrecedence(blocked: nat)

  // Every entry names an operation of this machine.
  ghost predicate EntriesFit(plan: Plan, s: MachineSequence) {
    forall k | 0 <= k < |s.operations| :: EntryFits(plan, s, k)
  }

  ghost predicate EntryFits(plan: Plan, s: MachineSequence, k: nat)
    requires k < |s.operations|
  {
    s.operations[k] < plan.Size() && plan.operations[s.operations[k]].machine == s.id
  }

  // What each refusal reports about the plan.
  ghost predicate RefusalHolds(plan: Plan, error: RefusedAnswer) {
    match error
    case DuplicateMachine(id) =>
      exists m, l :: 0 <= m < l < |plan.sequences| && plan.sequences[m].id == plan.sequences[l].id == id
    case UnknownOperation(o) =>
      o >= plan.Size() && exists m :: 0 <= m < |plan.sequences| && o in plan.sequences[m].operations
    case WrongMachine(o, id) =>
      && o < plan.Size() && plan.operations[o].machine != id
      && exists m :: 0 <= m < |plan.sequences| && o in plan.sequences[m].operations && plan.sequences[m].id == id
    case Incomplete(missing, duplicates) =>
      && missing == UnassignedSet(plan) && duplicates == RepeatedSet(plan)
      && (missing != {} || duplicates != {})
    case CyclicPrecedence(blocked) =>
      blocked > 0 && DistinctMachines(plan) && Placed(plan) && !Acyclic(PlanEdges(plan))
  }

  ghost function UnassignedSet(plan: Plan): set<nat> {
    set v: nat | v < plan.Size() && Assigned(plan, |plan.sequences|, v) == 0
  }

  ghost function RepeatedSet(plan: Plan): set<nat> {
    set v: nat | v < plan.Size() && Assigned(plan, |plan.sequences|, v) > 1
  }

  ghost predicate Usable(plan: Plan) {
    DistinctMachines(plan) && Placed(plan) && Acyclic(PlanEdges(plan))
  }

  lemma RefusalsAreRight(plan: Plan, error: RefusedAnswer)
    requires RefusalHolds(plan, error)
    ensures !Usable(plan)
  {
    match error
    case UnknownOperation(o) =>
      var m :| 0 <= m < |plan.sequences| && o in plan.sequences[m].operations;
      assert !PlacedOn(plan, plan.sequences[m]);
    case WrongMachine(o, id) =>
      var m :| 0 <= m < |plan.sequences| && o in plan.sequences[m].operations && plan.sequences[m].id == id;
      assert !PlacedOn(plan, plan.sequences[m]);
    case Incomplete(missing, duplicates) =>
      var v :| v in missing + duplicates;
      assert !AssignedOnce(plan, v);
    case DuplicateMachine(id) =>
    case CyclicPrecedence(blocked) =>
  }

  // ----- which refusal comes first -----

  // The first m sequences name different machines and only entries of their own.
  ghost predicate FineBefore(plan: Plan, m: nat)
    requires m <= |plan.sequences|
  {
    && (forall i, l | 0 <= i < l < m :: plan.sequences[i].id != plan.sequences[l].id)
    && (forall l | 0 <= l < m :: EntriesFit(plan, plan.sequences[l]))
  }

  ghost predicate NewMachine(plan: Plan, m: nat)
    requires m < |plan.sequences|
  {
    forall l | 0 <= l < m :: plan.sequences[l].id != plan.sequences[m].id
  }

  // Entry k of sequence m is o, and everything checked before it is fine.
  ghost predicate Reached(plan: Plan, m: nat, k: nat, o: nat) {
    && m < |plan.sequences| && k < |plan.sequences[m].operations| && plan.sequences[m].operations[k] == o
    && FineBefore(plan, m) && NewMachine(plan, m) && forall i | 0 <= i < k :: EntryFits(plan, plan.sequences[m], i)
  }

  // Machine by machine its id, then its entries in order; then the counts; then the graph.
  ghost predicate ComesFirst(plan: Plan, error: RefusedAnswer) {
    match error
    case DuplicateMachine(id) =>
      exists m :: 0 <= m < |plan.sequences| && plan.sequences[m].id == id && FineBefore(plan, m) && !NewMachine(plan, m)
    case UnknownOperation(o) => exists m: nat, k: nat :: Reached(plan, m, k, o)
    case WrongMachine(o, id) => exists m: nat, k: nat :: Reached(plan, m, k, o) && plan.sequences[m].id == id
    case Incomplete(_, _) => FineBefore(plan, |plan.sequences|)
    case CyclicPrecedence(_) => true
  }

  // ----- all entries, machine by machine -----

  ghost function Entries(plan: Plan, k: nat): seq<nat>
    requires k <= |plan.sequences|
  {
    if k == 0 then [] else Entries(plan, k - 1) + plan.sequences[k - 1].operations
  }

  lemma {:induction false} EntriesCount(plan: Plan, k: nat, v: nat)
    requires k <= |plan.sequences|
    ensures multiset(Entries(plan, k))[v] == Assigned(plan, k, v)
  {
    if k > 0 { EntriesCount(plan, k - 1, v); }
  }

  lemma {:induction false} EntriesKnown(plan: Plan, k: nat)
    requires k <= |plan.sequences| && forall m | 0 <= m < k :: EntriesFit(plan, plan.sequences[m])
    ensures forall i | 0 <= i < |Entries(plan, k)| :: Entries(plan, k)[i] < plan.Size()
  {
    if k > 0 {
      EntriesKnown(plan, k - 1);
      var s := plan.sequences[k - 1];
      assert EntriesFit(plan, s);
      forall i | 0 <= i < |s.operations| ensures s.operations[i] < plan.Size() {
        assert EntryFits(plan, s, i);
      }
    }
  }

  method CheckEntries(plan: Plan, m: nat, ids: seq<nat>) returns (r: Result<seq<nat>, RefusedAnswer>)
    requires m < |plan.sequences| && FineBefore(plan, m) && NewMachine(plan, m)
    ensures r.Ok? ==> EntriesFit(plan, plan.sequences[m]) && r.value == ids + plan.sequences[m].operations
    ensures r.Err? ==> RefusalHolds(plan, r.error) && ComesFirst(plan, r.error)
  {
    var s := plan.sequences[m];
    var all := ids;
    for k := 0 to |s.operations|
      invariant forall i | 0 <= i < k :: EntryFits(plan, s, i)
      invariant all == ids + s.operations[..k]
    {
      var o := s.operations[k];
      assert o in s.operations && Reached(plan, m, k, o);
      if o >= plan.Size() { return Err(UnknownOperation(o)); }
      if plan.operations[o].machine != s.id { return Err(WrongMachine(o, s.id)); }
      all := all + [o];
    }
    assert s.operations[..|s.operations|] == s.operations;
    return Ok(all);
  }

  method CheckAssignment(plan: Plan) returns (r: Result<seq<nat>, RefusedAnswer>)
    ensures r.Err? ==> RefusalHolds(plan, r.error) && ComesFirst(plan, r.error)
    ensures r.Ok? ==> DistinctMachines(plan) && r.value == Entries(plan, |plan.sequences|)
    ensures r.Ok? ==> forall m | 0 <= m < |plan.sequences| :: EntriesFit(plan, plan.sequences[m])
  {
    var ids: seq<nat> := [];
    var machines: set<nat> := {};
    for m := 0 to |plan.sequences|
      invariant machines == set l | 0 <= l < m :: plan.sequences[l].id
      invariant forall i, l | 0 <= i < l < m :: plan.sequences[i].id != plan.sequences[l].id
      invariant ids == Entries(plan, m)
      invariant forall l | 0 <= l < m :: EntriesFit(plan, plan.sequences[l])
    {
      var id := plan.sequences[m].id;
      if id in machines {
        ghost var l :| 0 <= l < m && plan.sequences[l].id == id;
        return Err(DuplicateMachine(id));
      }
      machines := machines + {id};
      var checked := CheckEntries(plan, m, ids);
      if checked.Err? { return Err(checked.error); }
      ids := checked.value;
    }
    return Ok(ids);
  }

  // Each operation listed exactly once.
  method CheckCounts(plan: Plan, ids: seq<nat>) returns (r: Result<bool, RefusedAnswer>)
    requires ids == Entries(plan, |plan.sequences|)
    ensures r.Err? ==> RefusalHolds(plan, r.error) && r.error.Incomplete?
    ensures r.Ok? ==> forall v | 0 <= v < plan.Size() :: AssignedOnce(plan, v)
  {
    var n := plan.Size();
    var counts := multiset(ids);
    var missing := set v: nat | v < n && counts[v] == 0;
    var duplicates := set v: nat | v < n && counts[v] > 1;
    forall v: nat ensures counts[v] == Assigned(plan, |plan.sequences|, v) {
      EntriesCount(plan, |plan.sequences|, v);
    }
    assert missing == UnassignedSet(plan) && duplicates == RepeatedSet(plan);
    if missing != {} || duplicates != {} { return Err(Incomplete(missing, duplicates)); }
    forall v | 0 <= v < n ensures AssignedOnce(plan, v) {
      assert v !in missing && v !in duplicates;
    }
    return Ok(true);
  }

  lemma FitIsPlaced(plan: Plan)
    requires forall i | 0 <= i < plan.Size() :: plan.operations[i].machine < plan.numMachines
    requires forall m | 0 <= m < |plan.sequences| :: EntriesFit(plan, plan.sequences[m])
    requires forall v | 0 <= v < plan.Size() :: AssignedOnce(plan, v)
    ensures Placed(plan)
  {
    forall m | 0 <= m < |plan.sequences| ensures PlacedOn(plan, plan.sequences[m]) {
      var s := plan.sequences[m];
      assert EntriesFit(plan, s);
      forall k | 0 <= k < |s.operations|
        ensures s.operations[k] < plan.Size() && plan.operations[s.operations[k]].machine == s.id
      {
        assert EntryFits(plan, s, k);
      }
      if s.operations != [] { assert EntryFits(plan, s, 0); }
    }
  }

  // The answer lists entry by entry what the evaluation gives.
  ghost predicate ListsAll(plan: Plan, starts: seq<Option<nat>>, ids: seq<nat>, sops: seq<J.Scheduled>)
    requires plan.Size() == |starts| && forall v | 0 <= v < |starts| :: starts[v].Some?
  {
    |sops| == |ids| && forall i | 0 <= i < |ids| :: ids[i] < plan.Size() && sops[i] == Output(plan, starts, ids[i])
  }

  method ListMachine(plan: Plan, m: nat, starts: map<nat, nat>, sops: seq<J.Scheduled>, ghost all: seq<Option<nat>>,
                     ghost ids: seq<nat>)
    returns (sops': seq<J.Scheduled>)
    requires m < |plan.sequences| && EntriesFit(plan, plan.sequences[m])
    requires plan.Size() == |all| && forall v | 0 <= v < |all| :: v in starts && all[v] == Some(starts[v])
    requires ListsAll(plan, all, ids, sops)
    ensures ListsAll(plan, all, ids + plan.sequences[m].operations, sops')
  {
    var s := plan.sequences[m];
    sops' := sops;
    for k := 0 to |s.operations|
      invariant |sops'| == |ids| + k && sops'[..|ids|] == sops
      invariant forall i | 0 <= i < k ::
        s.operations[i] < plan.Size() && sops'[|ids| + i] == Output(plan, all, s.operations[i])
    {
      assert EntryFits(plan, s, k);
      var o := s.operations[k];
      var fact := plan.operations[o];
      sops' := sops' + [J.Scheduled(fact.job, fact.index, s.id, starts[o], fact.duration)];
    }
    forall i | 0 <= i < |sops'|
      ensures var t := ids + s.operations; t[i] < plan.Size() && sops'[i] == Output(plan, all, t[i])
    {
      if i < |ids| {
        assert sops'[i] == sops[i];
      } else {
        assert sops'[|ids| + (i - |ids|)] == Output(plan, all, s.operations[i - |ids|]);
      }
    }
  }

  // Listed in the order of the machine sequences.
  ghost predicate ByMachine(plan: Plan, sops: seq<J.Scheduled>) {
    var ids := Entries(plan, |plan.sequences|);
    |sops| == |ids| && forall i | 0 <= i < |ids| ::
      ids[i] < plan.Size() && sops[i].job == plan.operations[ids[i]].job && sops[i].index == plan.operations[ids[i]].index
  }

  lemma ListedOnce(plan: Plan, starts: seq<Option<nat>>, ids: seq<nat>, sops: seq<J.Scheduled>)
    requires plan.WellFormed() && plan.Size() == |starts| && forall v | 0 <= v < |starts| :: starts[v].Some?
    requires ids == Entries(plan, |plan.sequences|) && forall v | 0 <= v < plan.Size() :: AssignedOnce(plan, v)
    requires ListsAll(plan, starts, ids, sops)
    ensures OutputOf(plan, starts, sops)
  {
    forall v: nat | v < plan.Size() ensures multiset(ids)[v] == 1 {
      assert AssignedOnce(plan, v);
      EntriesCount(plan, |plan.sequences|, v);
    }
    forall v: nat | v < plan.Size() ensures Output(plan, starts, v) in sops {
      assert multiset(ids)[v] > 0;
      assert v in ids;
      var i :| 0 <= i < |ids| && ids[i] == v;
      assert sops[i] == Output(plan, starts, v);
    }
    forall i, l | 0 <= i < l < |sops| ensures sops[i] != sops[l] {
      if ids[i] == ids[l] { RepeatCounts(ids, i, l); }
    }
    forall i | 0 <= i < |sops| ensures IsOutput(plan, starts, sops[i]) {
      assert sops[i] == Output(plan, starts, ids[i]);
    }
  }

  lemma RepeatCounts(ids: seq<nat>, i: nat, l: nat)
    requires i < l < |ids| && ids[i] == ids[l]
    ensures multiset(ids)[ids[i]] >= 2
  {
    assert ids == ids[..i] + [ids[i]] + ids[i + 1..l] + [ids[l]] + ids[l + 1..];
    assert multiset(ids) == multiset(ids[..i]) + multiset{ids[i]} + multiset(ids[i + 1..l]) + multiset{ids[l]} +
      multiset(ids[l + 1..]);
  }

  // The starts the metrics hold, when every operation has one.
  ghost function AllStarts(plan: Plan, starts: map<nat, nat>): (all: seq<Option<nat>>)
    requires starts.Keys == NodesBelow(plan.Size())
    ensures |all| == plan.Size() && forall v | 0 <= v < |all| :: v in starts && all[v] == Some(starts[v])
    ensures StartMap(all) == starts
  {
    assert forall v: nat | v < plan.Size() :: v in NodesBelow(plan.Size());
    var all := seq(plan.Size(), v requires 0 <= v < plan.Size() => Some(starts[v]));
    assert StartMap(all).Keys == starts.Keys;
    all
  }

  lemma StartedAll(start: map<nat, nat>, starts: map<nat, nat>, n: nat, left: nat)
    requires start.Keys <= starts.Keys == NodesBelow(n) && |start.Keys| + left == n
    requires forall v | v in start :: starts[v] == start[v]
    ensures left == 0 <==> start.Keys == NodesBelow(n)
    ensures left == 0 ==> start == starts
  {
    BelowSize(n);
    SubsetSize(start.Keys, NodesBelow(n));
  }

  // The cycle count says exactly whether the graph has a cycle.
  lemma CyclePenaltyExact(plan: Plan, m: Metrics)
    requires MetricsOf(plan, m)
    ensures m.cyclePenalty == 0 <==> Acyclic(PlanEdges(plan))
    ensures m.cyclePenalty == 0 ==> MetricsBy(plan, m, m.starts)
  {
    var start :| MetricsBy(plan, m, start);
    StartedAll(start, m.starts, plan.Size(), m.cyclePenalty);
    PlanEdgesWithin(plan);
    EvaluationComplete(PlanEdges(plan), Durations(plan), NodesBelow(plan.Size()), start);
  }

  lemma MetricsEvaluate(plan: Plan, m: Metrics)
    requires MetricsOf(plan, m) && Placed(plan) && m.cyclePenalty == 0
    ensures m.starts.Keys == NodesBelow(plan.Size())
    ensures R.EvaluationOf(plan, R.Evaluation(AllStarts(plan, m.starts), m.makespan, 0))
  {
    CyclePenaltyExact(plan, m);
    R.PlacedExact(plan);
    BelowSize(plan.Size());
  }

  method ListMachines(plan: Plan, starts: map<nat, nat>, ghost all: seq<Option<nat>>) returns (sops: seq<J.Scheduled>)
    requires plan.Size() == |all| && forall v | 0 <= v < |all| :: v in starts && all[v] == Some(starts[v])
    requires forall m | 0 <= m < |plan.sequences| :: EntriesFit(plan, plan.sequences[m])
    ensures ListsAll(plan, all, Entries(plan, |plan.sequences|), sops)
  {
    sops := [];
    for m := 0 to |plan.sequences|
      invariant ListsAll(plan, all, Entries(plan, m), sops)
    {
      sops := ListMachine(plan, m, starts, sops, all, Entries(plan, m));
    }
  }

  lemma OutputGiven(plan: Plan, e: R.Evaluation, sol: J.Solution)
    requires R.EvaluationOf(plan, e) && forall v | 0 <= v < plan.Size() :: e.starts[v].Some?
    requires OutputOf(plan, e.starts, sol.operations) && sol.reportedMakespan == Some(e.makespan)
    ensures Answers(plan, sol)
  {
    assert OutputFrom(plan, e, sol);
  }

  // Every operation once, on its own machine, no machine twice.
  ghost predicate Checked(plan: Plan) {
    && DistinctMachines(plan) && Placed(plan)
    && (forall m | 0 <= m < |plan.sequences| :: EntriesFit(plan, plan.sequences[m]))
    && (forall v | 0 <= v < plan.Size() :: AssignedOnce(plan, v))
  }

  method CheckComplete(plan: Plan) returns (r: Result<bool, RefusedAnswer>)
    requires forall i | 0 <= i < plan.Size() :: plan.operations[i].machine < plan.numMachines
    ensures r.Ok? ==> Checked(plan)
    ensures r.Err? ==> RefusalHolds(plan, r.error) && ComesFirst(plan, r.error)
  {
    var listed := CheckAssignment(plan);
    if listed.Err? { return Err(listed.error); }
    r := CheckCounts(plan, listed.value);
    if r.Ok? { FitIsPlaced(plan); }
  }

  // The operations machine by machine, with the starts and the makespan of the metrics.
  method ListAnswer(plan: Plan, metrics: Metrics) returns (sops: seq<J.Scheduled>)
    requires plan.WellFormed() && Checked(plan) && MetricsOf(plan, metrics) && metrics.cyclePenalty == 0
    ensures Answers(plan, J.Solution(sops, Some(metrics.makespan))) && ByMachine(plan, sops)
  {
    MetricsEvaluate(plan, metrics);
    ghost var all := AllStarts(plan, metrics.starts);
    sops := ListMachines(plan, metrics.starts, all);
    ListedOnce(plan, all, Entries(plan, |plan.sequences|), sops);
    OutputGiven(plan, R.Evaluation(all, metrics.makespan, 0), J.Solution(sops, Some(metrics.makespan)));
  }

  method ScheduledOperations(plan: Plan) returns (r: Result<(seq<J.Scheduled>, nat), RefusedAnswer>)
    requires plan.WellFormed() && forall i | 0 <= i < plan.Size() :: plan.operations[i].machine < plan.numMachines
    ensures r.Ok? <==> Usable(plan)
    ensures r.Ok? ==> Answers(plan, J.Solution(r.value.0, Some(r.value.1))) && ByMachine(plan, r.value.0)
    ensures r.Err? ==> RefusalHolds(plan, r.error) && ComesFirst(plan, r.error)
  {
    var checked := CheckComplete(plan);
    if checked.Err? { RefusalsAreRight(plan, checked.error); return Err(checked.error); }
    var metrics := ScheduleMetrics(plan);
    CyclePenaltyExact(plan, metrics);
    if metrics.cyclePenalty > 0 { return Err(CyclicPrecedence(metrics.cyclePenalty)); }
    var sops := ListAnswer(plan, metrics);
    return Ok((sops, metrics.makespan));
  }
}
