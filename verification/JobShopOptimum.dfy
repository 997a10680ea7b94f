// The model's optimum is the problem's: evaluated plans finish within the sum of durations,
// so every accepted schedule can be moved inside the horizon without finishing later.
module JobShopOptimum {
  import opened Wrappers
  import opened Sorting
  import opened Graph
  import opened GraphBounds
  import opened Kahn
  import opened Milp
  import opened JobShop
  import opened JobShopValidate
  import opened JobShopPlan
  import opened JobShopEndToEnd
  import opened JobShopDominance
  import opened JobShopMilp
  import opened JobShopMilpExact

  lemma {:induction false} WeightIsSum(inst: Instance, plan: Plan, k: nat)
    requires PlanFor(inst, plan) && k <= |inst.Ops()|
    ensures Weight(Durations(plan), NodesBelow(plan.Size()), k) == DurationSum(inst.Ops(), k)
  {
    if k > 0 {
      WeightIsSum(inst, plan, k - 1);
      assert k - 1 in NodesBelow(plan.Size());
      assert SameOperation(inst.Ops()[k - 1], plan.operations[k - 1], k - 1);
    }
  }

  // No evaluation of any plan for the instance, cyclic or not, passes the sum of durations.
  lemma EvaluatedWithinSum(inst: Instance, plan: Plan, e: R.Evaluation)
    requires PlanFor(inst, plan) && R.EvaluationOf(plan, e)
    ensures e.makespan <= DurationSum(inst.Ops(), |inst.Ops()|)
  {
    WeightIsSum(inst, plan, |inst.Ops()|);
    if e.makespan != 0 {
      var v :| v in StartMap(e.starts) && v < plan.Size() && StartMap(e.starts)[v] + Durations(plan)[v] == e.makespan;
      EvaluationBound(PlanEdges(plan), Durations(plan), StartMap(e.starts), v);
    }
  }

  lemma OrderIsTopological(inst: Instance, plan: Plan, sops: seq<Scheduled>, order: seq<nat>)
    requires inst.WellFormed() && PlanFor(inst, plan) && GoodOrder(inst, sops, order) && Accepted(inst, sops)
    ensures Topological(PlanEdges(PlanOf(inst, plan, order)), order)
    ensures NodesOf(order) == NodesBelow(plan.Size())
  {
    var edges := PlanEdges(PlanOf(inst, plan, order));
    forall i | 0 <= i < |order| ensures PredsBefore(edges, order, i) {
      forall u | (u, order[i]) in edges ensures u in order[..i] {
        EdgeForward(inst, plan, sops, order, u, order[i]);
        RankAt(order, i);
        var j := Rank(order, u);
        assert order[..i][j] == u;
      }
    }
    forall v | v in NodesBelow(plan.Size()) ensures v in NodesOf(order) {
      assert v in order;
    }
  }

  lemma {:induction false} LatestExists(duration: seq<nat>, start: map<nat, nat>, k: nat) returns (m: nat)
    requires k <= |duration|
    ensures forall v | v in start && v < k :: start[v] + duration[v] <= m
    ensures m == 0 || exists v :: v in start && v < |duration| && start[v] + duration[v] == m
  {
    if k == 0 {
      m := 0;
    } else {
      m := LatestExists(duration, start, k - 1);
      if k - 1 in start && start[k - 1] + duration[k - 1] > m { m := start[k - 1] + duration[k - 1]; }
    }
  }

  lemma StartsFromMap(start: map<nat, nat>, n: nat) returns (starts: seq<Option<nat>>)
    requires start.Keys == NodesBelow(n)
    ensures |starts| == n && StartMap(starts) == start
  {
    forall v: nat | v < n ensures v in start {
      assert v in NodesBelow(n);
    }
    starts := seq(n, v requires 0 <= v < n => Some(start[v]));
    assert StartMap(starts).Keys == start.Keys;
  }

  // Any plan with a topological order of all operations has an evaluation that starts them all.
  lemma PlanEvaluates(plan: Plan, order: seq<nat>) returns (e: R.Evaluation)
    requires Topological(PlanEdges(plan), order) && NodesOf(order) == NodesBelow(plan.Size())
    ensures R.EvaluationOf(plan, e)
  {
    var start := EvaluationExists(PlanEdges(plan), Durations(plan), order);
    var m := LatestExists(Durations(plan), start, plan.Size());
    var starts := StartsFromMap(start, plan.Size());
    BelowSize(plan.Size());
    e := R.Evaluation(starts, m, PlacementPenalty(plan, |plan.sequences|) + CountPenalty(plan, plan.Size()));
  }

  ghost function OutputsOf(plan: Plan, starts: seq<Option<nat>>): (sops: seq<Scheduled>)
    requires plan.Size() == |starts| && forall v | 0 <= v < |starts| :: starts[v].Some?
    ensures |sops| == plan.Size() && forall v | 0 <= v < |sops| :: sops[v] == Output(plan, starts, v)
  {
    seq(plan.Size(), v requires 0 <= v < plan.Size() => Output(plan, starts, v))
  }

  lemma OutputsList(plan: Plan, starts: seq<Option<nat>>)
    requires plan.WellFormed() && plan.Size() == |starts| && forall v | 0 <= v < |starts| :: starts[v].Some?
    ensures OutputOf(plan, starts, OutputsOf(plan, starts))
  {
    var sops := OutputsOf(plan, starts);
    forall v | 0 <= v < plan.Size() ensures Output(plan, starts, v) in sops {
      assert sops[v] == Output(plan, starts, v);
    }
    forall i | 0 <= i < |sops| ensures IsOutput(plan, starts, sops[i]) {
      assert sops[i] == Output(plan, starts, i);
    }
    forall i, l | 0 <= i < l < |sops| ensures sops[i] != sops[l] {
      assert sops[i] == Output(plan, starts, i) && sops[l] == Output(plan, starts, l);
    }
  }

  // The plan an instance stands for.
  ghost function PlainPlan(inst: Instance): (plan: Plan)
    requires inst.WellFormed()
    ensures PlanFor(inst, plan) && plan.WellFormed()
  {
    var ops := inst.Ops();
    var plan := Plan(seq(|ops|, i requires 0 <= i < |ops| => PlainOperation(inst, i)), [], |inst.jobs|, inst.numMachines);
    NumberedIsWellFormed(inst, plan);
    plan
  }

  ghost function PlainOperation(inst: Instance, i: nat): (p: PlanOperation)
    requires inst.WellFormed() && i < |inst.Ops()|
    ensures SameOperation(inst.Ops()[i], p, i)
  {
    OperationBounds(inst, i);
    var op := inst.Ops()[i];
    PlanOperation(i, op.job, op.index, op.machine, op.duration, None)
  }

  // Left shift: an accepted schedule can be replaced by one that ends no later and within
  // the sum of durations.
  lemma LeftShift(inst: Instance, sops: seq<Scheduled>, makespan: int) returns (shifted: seq<Scheduled>, m: nat)
    requires inst.WellFormed()
    requires Accepted(inst, sops) && IsMakespan(sops, makespan)
    ensures Accepted(inst, shifted) && IsMakespan(shifted, m)
    ensures m <= makespan && m <= Horizon(inst.Ops())
  {
    var plan, order := PlainPlan(inst), Values(ByStart(inst, sops));
    ByStartIsGood(inst, sops);
    OrderIsTopological(inst, plan, sops, order);
    var p := PlanOf(inst, plan, order);
    var e := PlanEvaluates(p, order);
    Dominance(inst, plan, sops, makespan, e);
    EvaluatedWithinSum(inst, p, e);
    shifted, m := OutputsOf(p, e.starts), e.makespan;
    ShiftedAccepted(inst, plan, sops, order, e);
  }

  lemma ShiftedAccepted(inst: Instance, plan: Plan, sops: seq<Scheduled>, order: seq<nat>, e: R.Evaluation)
    requires inst.WellFormed() && PlanFor(inst, plan) && plan.WellFormed()
    requires GoodOrder(inst, sops, order) && R.EvaluationOf(PlanOf(inst, plan, order), e) && e.hardPenalty == 0
    requires forall v | 0 <= v < plan.Size() :: e.starts[v].Some?
    ensures Accepted(inst, OutputsOf(PlanOf(inst, plan, order), e.starts))
    ensures IsMakespan(OutputsOf(PlanOf(inst, plan, order), e.starts), e.makespan)
  {
    var p := PlanOf(inst, plan, order);
    OutputsList(p, e.starts);
    PlanOfPlaced(inst, plan, sops, order);
    OutputAccepted(inst, p, e, OutputsOf(p, e.starts));
  }

  lemma {:induction false} MakespanExists(sops: seq<Scheduled>) returns (m: int)
    requires sops != []
    ensures IsMakespan(sops, m)
  {
    if |sops| == 1 {
      m := sops[0].End();
    } else {
      m := MakespanExists(sops[1..]);
      var i :| 0 <= i < |sops| - 1 && sops[1..][i].End() == m;
      assert sops[i + 1].End() == m;
      forall l | 0 <= l < |sops| ensures sops[l].End() <= if sops[0].End() > m then sops[0].End() else m {
        if l > 0 { assert sops[1..][l - 1].End() <= m; }
      }
      if sops[0].End() > m { m := sops[0].End(); }
    }
  }

  ghost predicate PointWithin(inst: Instance, bigM: int, bound: int, v: seq<real>) {
    && Feasible(ModelCols(inst), ModelRows(inst, bigM), v)
    && Objective(ModelCols(inst), v, |v|) <= bound as real
  }

  ghost predicate ScheduleWithin(inst: Instance, bound: int, sops: seq<Scheduled>) {
    Accepted(inst, sops) && EndsWithin(sops, bound)
  }

  lemma PointGivesSchedule(inst: Instance, bigM: int, bound: int, v: seq<real>)
    requires inst.WellFormed() && BigEnough(inst.Ops(), bigM) && PointWithin(inst, bigM, bound, v)
    ensures ScheduleWithin(inst, bound, FlatSolution(inst.Ops(), StartsOf(inst, v)))
  {
    PointsAreSchedules(inst, bigM, v);
    MakespanIsObjective(inst, v);
    var sops := FlatSolution(inst.Ops(), StartsOf(inst, v));
    forall i | 0 <= i < |sops| ensures sops[i].End() <= bound {
      assert sops[i].End() <= v[|v| - 1].Floor;
    }
  }

  lemma PointLength(inst: Instance, bigM: int, v: seq<real>)
    requires Feasible(ModelCols(inst), ModelRows(inst, bigM), v)
    ensures |v| == |inst.Ops()| + |Pairs(inst)| + 1
  {
  }

  lemma ShiftedPoint(inst: Instance, bigM: int, sops: seq<Scheduled>, makespan: int) returns (v: seq<real>)
    requires inst.WellFormed() && BigEnough(inst.Ops(), bigM)
    requires Accepted(inst, sops) && IsMakespan(sops, makespan) && makespan <= Horizon(inst.Ops())
    ensures PointWithin(inst, bigM, makespan, v)
  {
    v := SchedulesArePoints(inst, bigM, sops, makespan);
    PointLength(inst, bigM, v);
    MakespanIsObjective(inst, v);
  }

  lemma MakespanWithin(inst: Instance, sops: seq<Scheduled>, bound: int) returns (makespan: int)
    requires inst.WellFormed() && Complete(inst, sops) && EndsWithin(sops, bound)
    ensures IsMakespan(sops, makespan) && makespan <= bound
  {
    var l := ScheduledOf(inst, sops, 0);
    makespan := MakespanExists(sops);
  }

  lemma ScheduleGivesPoint(inst: Instance, bigM: int, bound: int, sops: seq<Scheduled>) returns (v: seq<real>)
    requires inst.WellFormed()
    requires BigEnough(inst.Ops(), bigM) && ScheduleWithin(inst, bound, sops)
    ensures PointWithin(inst, bigM, bound, v)
  {
    var makespan := MakespanWithin(inst, sops, bound);
    var shifted, m := LeftShift(inst, sops, makespan);
    v := ShiftedPoint(inst, bigM, shifted, m);
  }

  // For every bound the model has a point whose objective is within it exactly when some
  // accepted schedule ends within it: horizon and big-M exclude no optimum.
  lemma OptimaAgree(inst: Instance, bigM: int, bound: int)
    requires inst.WellFormed()
    requires IsLongest(inst.Ops(), bigM - Horizon(inst.Ops()))
    ensures (exists v :: PointWithin(inst, bigM, bound, v)) <==> (exists sops :: ScheduleWithin(inst, bound, sops))
  {
    EmittedIsBigEnough(inst, bigM);
    if v :| PointWithin(inst, bigM, bound, v) {
      PointGivesSchedule(inst, bigM, bound, v);
    }
    if sops :| ScheduleWithin(inst, bound, sops) {
      var v := ScheduleGivesPoint(inst, bigM, bound, sops);
    }
  }

  ghost predicate OptimalPoint(inst: Instance, bigM: int, v: seq<real>) {
    && Feasible(ModelCols(inst), ModelRows(inst, bigM), v)
    && forall w | Feasible(ModelCols(inst), ModelRows(inst, bigM), w) ::
         Objective(ModelCols(inst), v, |v|) <= Objective(ModelCols(inst), w, |w|)
  }

  // The answer read off an optimal point is accepted, reports its own makespan, and no accepted
  // schedule is shorter.
  lemma OptimalAnswer(inst: Instance, bigM: int, v: seq<real>)
    requires inst.WellFormed() && IsLongest(inst.Ops(), bigM - Horizon(inst.Ops())) && OptimalPoint(inst, bigM, v)
    ensures |v| > |inst.Ops()|
    ensures var sops := FlatSolution(inst.Ops(), StartsOf(inst, v));
      && Accepted(inst, sops) && IsMakespan(sops, v[|v| - 1].Floor)
      && forall other, m | Accepted(inst, other) && IsMakespan(other, m) :: v[|v| - 1].Floor <= m
  {
    EmittedIsBigEnough(inst, bigM);
    PointsAreSchedules(inst, bigM, v);
    MakespanIsObjective(inst, v);
    forall other, m | Accepted(inst, other) && IsMakespan(other, m) ensures v[|v| - 1].Floor <= m {
      var w := ScheduleGivesPoint(inst, bigM, m, other);
    }
    var sops := FlatSolution(inst.Ops(), StartsOf(inst, v));
    var m := MakespanExists(sops);
    assert v[|v| - 1].Floor <= m;
  }
}
