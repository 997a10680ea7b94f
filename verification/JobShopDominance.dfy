// Dominance: reading each machine's order off an accepted schedule gives a plan with zero
// penalty whose evaluation finishes no later, so searching over sequences loses nothing.
module JobShopDominance {
  import opened Collections
  import opened Sorting
  import opened Graph
  import opened Kahn
  import opened JobShop
  import opened JobShopValidate
  import opened JobShopPlan
  import opened JobShopEndToEnd

  // Start the accepted schedule gives operation v.
  ghost function StartOf(inst: Instance, sops: seq<Scheduled>, v: nat): int
    requires Complete(inst, sops) && v < |inst.Ops()|
  {
    Starts(sops, |sops|)[inst.Ops()[v].Id()]
  }

  ghost function EndOf(inst: Instance, sops: seq<Scheduled>, v: nat): int
    requires Complete(inst, sops) && v < |inst.Ops()|
  {
    StartOf(inst, sops, v) + inst.Ops()[v].duration
  }

  // Operation v keyed by start, end and job index.
  ghost function RowFor(inst: Instance, sops: seq<Scheduled>, v: nat): Keyed<nat>
    requires Complete(inst, sops) && v < |inst.Ops()|
  {
    Keyed(StartOf(inst, sops, v), EndOf(inst, sops, v), inst.Ops()[v].index, v)
  }

  ghost function RowsFor(inst: Instance, sops: seq<Scheduled>): (rows: seq<Keyed<nat>>)
    requires Complete(inst, sops)
    ensures |rows| == |inst.Ops()| && forall v | 0 <= v < |rows| :: rows[v] == RowFor(inst, sops, v)
  {
    seq(|inst.Ops()|, v requires 0 <= v < |inst.Ops()| => RowFor(inst, sops, v))
  }

  // All operations in order of start, then end, then job index.
  ghost function ByStart(inst: Instance, sops: seq<Scheduled>): (s: seq<Keyed<nat>>)
    requires Complete(inst, sops)
  {
    Sort(RowsFor(inst, sops))
  }

  // The operations of machine m, in the order of the given list.
  ghost function OnMachine(ops: seq<Operation>, order: seq<nat>, m: nat, k: nat): seq<nat>
    requires k <= |order|
  {
    if k == 0 then []
    else
      OnMachine(ops, order, m, k - 1) +
      (if order[k - 1] < |ops| && ops[order[k - 1]].machine == m then [order[k - 1]] else [])
  }

  ghost predicate GoodOrder(inst: Instance, sops: seq<Scheduled>, order: seq<nat>) {
    && Complete(inst, sops)
    && |order| == |inst.Ops()|
    && (forall i | 0 <= i < |order| :: order[i] < |inst.Ops()|)
    && NoRepeats(order)
    && (forall v: nat | v < |inst.Ops()| :: v in order)
    && (forall i, l | 0 <= i < l < |order| :: RowFor(inst, sops, order[i]).AtMost(RowFor(inst, sops, order[l])))
  }

  lemma ByStartIsGood(inst: Instance, sops: seq<Scheduled>)
    requires Complete(inst, sops)
    ensures GoodOrder(inst, sops, Values(ByStart(inst, sops)))
  {
    var rows, t := RowsFor(inst, sops), ByStart(inst, sops);
    SortPermutes(rows);
    SortSorted(rows);
    PermutationNoRepeats(t, rows);
    forall i | 0 <= i < |t| ensures t[i].value < |inst.Ops()| && t[i] == RowFor(inst, sops, t[i].value) {
      var v := PermutationMember(t, rows, i);
    }
    forall v: nat | v < |inst.Ops()| ensures v in Values(t) {
      var i := PermutationMember(rows, t, v);
      assert Values(t)[i] == v;
    }
  }

  // The plan that keeps the accepted machine orders.
  ghost function PlanOf(inst: Instance, plan: Plan, order: seq<nat>): Plan
  {
    plan.(sequences := seq(inst.numMachines, (m: nat) => MachineSequence(m, OnMachine(inst.Ops(), order, m, |order|))))
  }

  // Position of operation v in the order.
  ghost function Rank(order: seq<nat>, v: nat): nat
    requires v in order
  {
    var i :| 0 <= i < |order| && order[i] == v;
    i
  }

  lemma RankAt(order: seq<nat>, i: nat)
    requires NoRepeats(order) && i < |order|
    ensures order[i] in order && Rank(order, order[i]) == i
  {
  }

  lemma {:induction false} OnMachineOrder(ops: seq<Operation>, order: seq<nat>, m: nat, k: nat, i: nat, l: nat)
    requires k <= |order| && (forall i | 0 <= i < |order| :: order[i] < |ops|) && NoRepeats(order)
    requires i < l < |OnMachine(ops, order, m, k)|
    ensures exists p, q :: 0 <= p < q < k && order[p] == OnMachine(ops, order, m, k)[i] && order[q] == OnMachine(ops, order, m, k)[l]
  {
    var before := OnMachine(ops, order, m, k - 1);
    if l < |before| {
      OnMachineOrder(ops, order, m, k - 1, i, l);
    } else {
      var p := OnMachineFrom(ops, order, m, k - 1, i);
      assert order[k - 1] == OnMachine(ops, order, m, k)[l];
    }
  }

  lemma {:induction false} OnMachineFrom(ops: seq<Operation>, order: seq<nat>, m: nat, k: nat, i: nat) returns (p: nat)
    requires k <= |order| && forall i | 0 <= i < |order| :: order[i] < |ops|
    requires i < |OnMachine(ops, order, m, k)|
    ensures p < k && order[p] == OnMachine(ops, order, m, k)[i] && ops[order[p]].machine == m
  {
    if i < |OnMachine(ops, order, m, k - 1)| { p := OnMachineFrom(ops, order, m, k - 1, i); } else { p := k - 1; }
  }

  lemma {:induction false} OnMachineCount(ops: seq<Operation>, order: seq<nat>, m: nat, k: nat, v: nat)
    requires k <= |order| && v < |ops|
    ensures multiset(OnMachine(ops, order, m, k))[v] == if ops[v].machine == m then multiset(order[..k])[v] else 0
  {
    if k > 0 {
      OnMachineCount(ops, order, m, k - 1, v);
      var o := order[k - 1];
      assert order[..k] == order[..k - 1] + [o];
      CountAppend(OnMachine(ops, order, m, k - 1), order[..k - 1], o, v, o < |ops| && ops[o].machine == m, ops[v].machine == m);
    } else {
      assert order[..0] == [];
    }
  }

  lemma CountAppend(kept: seq<nat>, all: seq<nat>, o: nat, v: nat, taken: bool, home: bool)
    requires multiset(kept)[v] == (if home then multiset(all)[v] else 0) && (o == v ==> taken == home)
    ensures multiset(if taken then kept + [o] else kept)[v] == if home then multiset(all + [o])[v] else 0
  {
  }

  // The operation occurs in the sequence of its own machine only.
  lemma {:induction false} AssignedCount(p: Plan, k: nat, v: nat, home: int)
    requires k <= |p.sequences|
    requires forall m | 0 <= m < |p.sequences| :: CountIn(p, m, v) == if m == home then 1 else 0
    ensures Assigned(p, k, v) == if 0 <= home < k then 1 else 0
  {
    if k > 0 {
      AssignedCount(p, k - 1, v, home);
      assert Assigned(p, k, v) == Assigned(p, k - 1, v) + CountIn(p, k - 1, v);
    }
  }

  ghost function CountIn(p: Plan, m: nat, v: nat): nat
    requires m < |p.sequences|
  {
    multiset(p.sequences[m].operations)[v]
  }

  lemma MachinePlaced(inst: Instance, plan: Plan, sops: seq<Scheduled>, order: seq<nat>, m: nat)
    requires inst.WellFormed() && PlanFor(inst, plan) && GoodOrder(inst, sops, order)
    requires m < |PlanOf(inst, plan, order).sequences|
    ensures PlacedOn(PlanOf(inst, plan, order), PlanOf(inst, plan, order).sequences[m])
  {
    var p := PlanOf(inst, plan, order);
    forall k | 0 <= k < |p.sequences[m].operations|
      ensures p.sequences[m].operations[k] < p.Size() && p.operations[p.sequences[m].operations[k]].machine == m
    {
      var q := OnMachineFrom(inst.Ops(), order, m, |order|, k);
      assert SameOperation(inst.Ops()[order[q]], plan.operations[order[q]], order[q]);
    }
  }

  lemma OperationPlaced(inst: Instance, plan: Plan, sops: seq<Scheduled>, order: seq<nat>, v: nat)
    requires inst.WellFormed() && PlanFor(inst, plan) && GoodOrder(inst, sops, order) && v < |inst.Ops()|
    ensures AssignedOnce(PlanOf(inst, plan, order), v)
  {
    var p := PlanOf(inst, plan, order);
    OperationBounds(inst, v);
    NoRepeatsCount(order, v);
    assert v in order && order[..|order|] == order;
    forall m | 0 <= m < |p.sequences| ensures CountIn(p, m, v) == if m == inst.Ops()[v].machine then 1 else 0 {
      OnMachineCount(inst.Ops(), order, m, |order|, v);
    }
    AssignedCount(p, inst.numMachines, v, inst.Ops()[v].machine);
  }

  lemma PlanOfPlaced(inst: Instance, plan: Plan, sops: seq<Scheduled>, order: seq<nat>)
    requires inst.WellFormed() && PlanFor(inst, plan) && GoodOrder(inst, sops, order)
    ensures Placed(PlanOf(inst, plan, order)) && DistinctMachines(PlanOf(inst, plan, order))
  {
    var p := PlanOf(inst, plan, order);
    forall m | 0 <= m < |p.sequences| ensures PlacedOn(p, p.sequences[m]) {
      MachinePlaced(inst, plan, sops, order, m);
    }
    forall v | 0 <= v < p.Size() ensures AssignedOnce(p, v) {
      OperationPlaced(inst, plan, sops, order, v);
    }
  }

  // Both kinds of edges go forward in the order and respect the accepted starts.
  ghost predicate Forward(inst: Instance, sops: seq<Scheduled>, order: seq<nat>, u: nat, v: nat) {
    && Complete(inst, sops) && u < |inst.Ops()| && v < |inst.Ops()|
    && EndOf(inst, sops, u) <= StartOf(inst, sops, v)
    && u in order && v in order && Rank(order, u) < Rank(order, v)
  }

  lemma RowOrder(inst: Instance, sops: seq<Scheduled>, order: seq<nat>, i: nat, l: nat)
    requires GoodOrder(inst, sops, order) && i < l < |order|
    ensures RowFor(inst, sops, order[i]).AtMost(RowFor(inst, sops, order[l]))
  {
  }

  lemma JobEdgeForward(inst: Instance, plan: Plan, sops: seq<Scheduled>, order: seq<nat>, u: nat, v: nat)
    requires inst.WellFormed() && PlanFor(inst, plan) && GoodOrder(inst, sops, order)
    requires PrecedenceHolds(inst, Starts(sops, |sops|)) && JobEdge(plan, u, v)
    ensures Forward(inst, sops, order, u, v)
  {
    var j, k := EdgeIsJobStep(inst, plan, u, v);
    assert InOrder(inst, Starts(sops, |sops|), j, k);
    OperationBounds(inst, u);
    OperationBounds(inst, v);
    assert u in order && v in order;
    var p, q := Rank(order, u), Rank(order, v);
    assert !RowFor(inst, sops, v).AtMost(RowFor(inst, sops, u));
    assert p != q;
    if q < p { RowOrder(inst, sops, order, q, p); }
  }

  lemma MachineNeighboursForward(inst: Instance, sops: seq<Scheduled>, order: seq<nat>, p: nat, q: nat)
    requires inst.WellFormed() && GoodOrder(inst, sops, order) && MachinesApart(sops)
    requires p < q < |order| && inst.Ops()[order[p]].machine == inst.Ops()[order[q]].machine
    ensures Forward(inst, sops, order, order[p], order[q])
  {
    var u, v := order[p], order[q];
    var i := ScheduledOf(inst, sops, u);
    var l := ScheduledOf(inst, sops, v);
    OperationBounds(inst, u);
    OperationBounds(inst, v);
    RankAt(order, p);
    RankAt(order, q);
    StartOfDistinct(sops, i);
    StartOfDistinct(sops, l);
    assert u != v;
    KeysDistinct(inst);
    assert i != l;
    assert RowFor(inst, sops, u).AtMost(RowFor(inst, sops, v));
    if i < l { assert Apart(sops[i], sops[l]); } else { assert Apart(sops[l], sops[i]); }
  }

  lemma MachineEdgeForward(inst: Instance, plan: Plan, sops: seq<Scheduled>, order: seq<nat>, m: nat, u: nat, v: nat)
    requires inst.WellFormed() && GoodOrder(inst, sops, order) && MachinesApart(sops)
    requires (u, v) in ChainEdges(OnMachine(inst.Ops(), order, m, |order|), |inst.Ops()|)
    ensures Forward(inst, sops, order, u, v)
  {
    var s := OnMachine(inst.Ops(), order, m, |order|);
    var k :| 0 <= k < |s| - 1 && Linked(s, |inst.Ops()|, k) && (s[k], s[k + 1]) == (u, v);
    OnMachineOrder(inst.Ops(), order, m, |order|, k, k + 1);
    var a, b :| 0 <= a < b < |order| && order[a] == s[k] && order[b] == s[k + 1];
    var a' := OnMachineFrom(inst.Ops(), order, m, |order|, k);
    var b' := OnMachineFrom(inst.Ops(), order, m, |order|, k + 1);
    MachineNeighboursForward(inst, sops, order, a, b);
  }

  lemma EdgeForward(inst: Instance, plan: Plan, sops: seq<Scheduled>, order: seq<nat>, u: nat, v: nat)
    requires inst.WellFormed() && PlanFor(inst, plan) && GoodOrder(inst, sops, order)
    requires Accepted(inst, sops)
    requires (u, v) in PlanEdges(PlanOf(inst, plan, order))
    ensures Forward(inst, sops, order, u, v)
  {
    var p := PlanOf(inst, plan, order);
    if (u, v) in JobEdges(p) {
      assert JobEdge(plan, u, v);
      JobEdgeForward(inst, plan, sops, order, u, v);
    } else {
      MachineEdgesMember(p, |p.sequences|, u, v);
      var m :| 0 <= m < |p.sequences| && (u, v) in ChainEdges(p.sequences[m].operations, p.Size());
      MachineEdgeForward(inst, plan, sops, order, m, u, v);
    }
  }

  ghost function RankMap(order: seq<nat>): map<nat, int> {
    map v | v in order :: Rank(order, v)
  }

  ghost function StartMapOf(inst: Instance, sops: seq<Scheduled>): map<nat, int>
    requires Complete(inst, sops)
  {
    map v | v in NodesBelow(|inst.Ops()|) :: StartOf(inst, sops, v)
  }

  lemma PlanOfFeasible(inst: Instance, plan: Plan, sops: seq<Scheduled>, order: seq<nat>)
    requires inst.WellFormed() && PlanFor(inst, plan) && GoodOrder(inst, sops, order)
    requires Accepted(inst, sops)
    ensures Acyclic(PlanEdges(PlanOf(inst, plan, order)))
    ensures Respects(PlanEdges(PlanOf(inst, plan, order)), Durations(PlanOf(inst, plan, order)),
                     NodesBelow(plan.Size()), StartMapOf(inst, sops))
  {
    var edges, start := PlanEdges(PlanOf(inst, plan, order)), StartMapOf(inst, sops);
    forall u, v | (u, v) in edges
      ensures Forward(inst, sops, order, u, v)
      ensures plan.operations[u].duration == inst.Ops()[u].duration
    {
      EdgeForward(inst, plan, sops, order, u, v);
      assert SameOperation(inst.Ops()[u], plan.operations[u], u);
    }
    RankedIsAcyclic(edges, RankMap(order));
    forall v | v in NodesBelow(plan.Size()) ensures start[v] >= 0 {
      var i := ScheduledOf(inst, sops, v);
      assert Matches(inst, sops[i]);
    }
  }

  lemma StartsDominated(inst: Instance, plan: Plan, sops: seq<Scheduled>, order: seq<nat>, e: R.Evaluation)
    requires inst.WellFormed() && PlanFor(inst, plan) && GoodOrder(inst, sops, order) && Accepted(inst, sops)
    requires R.EvaluationOf(PlanOf(inst, plan, order), e)
    ensures forall v | 0 <= v < plan.Size() :: e.starts[v].Some? && e.starts[v].value <= StartOf(inst, sops, v)
  {
    PlanOfFeasible(inst, plan, sops, order);
    R.StartsLeast(PlanOf(inst, plan, order), e, StartMapOf(inst, sops));
    StartMapAt(inst, sops);
  }

  lemma StartMapAt(inst: Instance, sops: seq<Scheduled>)
    requires Complete(inst, sops)
    ensures forall v: nat | v < |inst.Ops()| :: v in StartMapOf(inst, sops) && StartMapOf(inst, sops)[v] == StartOf(inst, sops, v)
  {
    forall v: nat | v < |inst.Ops()| ensures v in StartMapOf(inst, sops) {
      assert v in NodesBelow(|inst.Ops()|);
    }
  }

  lemma NoPenalty(inst: Instance, plan: Plan, sops: seq<Scheduled>, order: seq<nat>, e: R.Evaluation)
    requires inst.WellFormed() && PlanFor(inst, plan) && GoodOrder(inst, sops, order) && Accepted(inst, sops)
    requires R.EvaluationOf(PlanOf(inst, plan, order), e)
    ensures e.hardPenalty == 0
  {
    PlanOfPlaced(inst, plan, sops, order);
    PlanOfFeasible(inst, plan, sops, order);
    R.PenaltyExact(PlanOf(inst, plan, order), e);
  }

  // Dominance, zero durations included: any evaluation of the plan read off an accepted
  // schedule in order of start has no penalty and finishes no later.
  lemma Dominance(inst: Instance, plan: Plan, sops: seq<Scheduled>, makespan: int, e: R.Evaluation)
    requires inst.WellFormed() && PlanFor(inst, plan) && Accepted(inst, sops) && IsMakespan(sops, makespan)
    requires R.EvaluationOf(PlanOf(inst, plan, Values(ByStart(inst, sops))), e)
    ensures e.hardPenalty == 0 && e.makespan <= makespan
    ensures forall v | 0 <= v < plan.Size() :: e.starts[v].Some? && e.starts[v].value <= StartOf(inst, sops, v)
  {
    var order := Values(ByStart(inst, sops));
    ByStartIsGood(inst, sops);
    NoPenalty(inst, plan, sops, order, e);
    StartsDominated(inst, plan, sops, order, e);
    MakespanBelow(inst, plan, sops, makespan, PlanOf(inst, plan, order), e);
  }

  lemma MakespanBelow(inst: Instance, plan: Plan, sops: seq<Scheduled>, makespan: int, p: Plan, e: R.Evaluation)
    requires inst.WellFormed() && PlanFor(inst, plan) && p.operations == plan.operations
    requires Complete(inst, sops) && IsMakespan(sops, makespan) && R.EvaluationOf(p, e)
    requires forall v | 0 <= v < plan.Size() :: e.starts[v].Some? && e.starts[v].value <= StartOf(inst, sops, v)
    ensures e.makespan <= makespan
  {
    var v: nat := 0;
    if e.makespan != 0 {
      v :| v in StartMap(e.starts) && v < p.Size() && StartMap(e.starts)[v] + Durations(p)[v] == e.makespan;
    }
    var i := ScheduledOf(inst, sops, v);
    OperationBounds(inst, v);
    assert SameOperation(inst.Ops()[v], plan.operations[v], v);
    assert Matches(inst, sops[i]);
    assert sops[i].End() <= makespan;
  }
}
