// Agreement of the three evaluators: a plan has one evaluation, whichever program computes
// it and in whatever order its queue serves the operations; and the two adapters' answers.
module JobShopAgreement {
  import opened Wrappers
  import opened Graph
  import opened Kahn
  import opened JobShopPlan
  import opened JobShopEndToEnd
  import J = JobShop
  import P = JobShopPython

  lemma MakespanUnique(duration: seq<nat>, start: map<nat, nat>, a: nat, b: nat)
    requires R.IsMakespan(duration, start, a) && R.IsMakespan(duration, start, b)
    ensures a == b
  {
  }

  lemma StartsFromMap(a: seq<Option<nat>>, b: seq<Option<nat>>)
    requires |a| == |b| && StartMap(a) == StartMap(b)
    ensures a == b
  {
    forall v | 0 <= v < |a| ensures a[v] == b[v] {
      assert v in StartMap(a) <==> v in StartMap(b);
      if v in StartMap(a) { assert StartMap(a)[v] == StartMap(b)[v]; }
    }
  }

  // Confluence: a plan has one evaluation. Whatever order a queue serves its nodes in, the
  // started operations, their starts, the makespan and the penalty come out the same.
  lemma EvaluationDetermined(plan: Plan, a: R.Evaluation, b: R.Evaluation)
    requires R.EvaluationOf(plan, a) && R.EvaluationOf(plan, b)
    ensures a == b
  {
    EvaluationUnique(PlanEdges(plan), Durations(plan), NodesBelow(plan.Size()), StartMap(a.starts), StartMap(b.starts));
    MakespanUnique(Durations(plan), StartMap(a.starts), a.makespan, b.makespan);
    StartsFromMap(a.starts, b.starts);
  }

  // On complete plans the dictionary evaluator agrees with the other two: it blocks as many
  // operations, gives every started one the same start, and, without a cycle, the same makespan.
  lemma MetricsAgree(plan: Plan, m: P.Metrics, e: R.Evaluation)
    requires P.MetricsOf(plan, m) && R.EvaluationOf(plan, e) && Placed(plan)
    ensures m.cyclePenalty == e.hardPenalty
    ensures forall v | 0 <= v < plan.Size() && e.starts[v].Some? :: v in m.starts && m.starts[v] == e.starts[v].value
    ensures m.cyclePenalty == 0 ==> m.makespan == e.makespan && forall v | 0 <= v < plan.Size() :: e.starts[v].Some?
  {
    var start :| P.MetricsBy(plan, m, start);
    EvaluationUnique(PlanEdges(plan), Durations(plan), NodesBelow(plan.Size()), start, StartMap(e.starts));
    R.PlacedExact(plan);
    R.PenaltyExact(plan, e);
    R.StartedExact(plan, e);
    forall v | 0 <= v < plan.Size() && e.starts[v].Some?
      ensures v in m.starts && m.starts[v] == e.starts[v].value
    {
      assert v in StartMap(e.starts);
    }
    if m.cyclePenalty == 0 {
      MakespanUnique(Durations(plan), start, m.makespan, e.makespan);
    }
  }

  // Two answers for one plan list the same operations and report the same makespan.
  lemma AnswersAgree(plan: Plan, a: J.Solution, b: J.Solution)
    requires Answers(plan, a) && Answers(plan, b)
    ensures a.reportedMakespan == b.reportedMakespan
    ensures forall o :: o in a.operations <==> o in b.operations
  {
    var e :| OutputFrom(plan, e, a);
    var f :| OutputFrom(plan, f, b);
    EvaluationDetermined(plan, e, f);
    ListsSame(plan, e.starts, a.operations, b.operations);
    ListsSame(plan, e.starts, b.operations, a.operations);
  }

  lemma ListsSame(plan: Plan, starts: seq<Option<nat>>, a: seq<J.Scheduled>, b: seq<J.Scheduled>)
    requires plan.Size() == |starts| && forall v | 0 <= v < |starts| :: starts[v].Some?
    requires OutputOf(plan, starts, a) && OutputOf(plan, starts, b)
    ensures forall o | o in a :: o in b
  {
    forall o | o in a ensures o in b {
      var i :| 0 <= i < |a| && a[i] == o;
      assert IsOutput(plan, starts, a[i]);
      var v: nat :| v < plan.Size() && a[i] == Output(plan, starts, v);
      assert Output(plan, starts, v) in b;
    }
  }

  // Any adapter's answer passes the validator, which finds the makespan it reports.
  lemma AnswersAccepted(inst: J.Instance, plan: Plan, sol: J.Solution)
    requires inst.WellFormed() && PlanFor(inst, plan) && plan.WellFormed() && DistinctMachines(plan) && Placed(plan)
    requires Answers(plan, sol)
    ensures J.Accepted(inst, sol.operations)
    ensures sol.reportedMakespan.Some? && J.IsMakespan(sol.operations, sol.reportedMakespan.value)
  {
    var e :| OutputFrom(plan, e, sol);
    R.StartedExact(plan, e);
    R.PenaltyExact(plan, e);
    OutputAccepted(inst, plan, e, sol.operations);
  }
}
