// The Java evaluator: operations looked up by id, starts and known flags in separate
// arrays.
module JobShopJava {
  import opened Wrappers
  import opened Graph
  import opened Kahn
  import opened JobShopPlan
  import R = JobShopRust

  datatype JavaEvaluation = JavaEvaluation(starts: seq<nat>, known: seq<bool>, makespan: nat, hardPenalty: nat)

  ghost function Known(starts: seq<nat>, known: seq<bool>): (s: seq<Option<nat>>)
    requires |starts| == |known|
    ensures |s| == |starts| && forall v | 0 <= v < |s| :: s[v] == if known[v] then Some(starts[v]) else None
  {
    seq(|starts|, v requires 0 <= v < |starts| => if known[v] then Some(starts[v]) else None)
  }

  // The evaluation the two arrays stand for.
  ghost function View(e: JavaEvaluation): R.Evaluation
    requires |e.starts| == |e.known|
  {
    R.Evaluation(Known(e.starts, e.known), e.makespan, e.hardPenalty)
  }

  // Every operation of a well-formed plan lands at its own position, so the penalty for
  // ids out of range never applies.
  method IndexById(plan: Plan) returns (byId: array<Option<PlanOperation>>)
    requires plan.WellFormed()
    ensures fresh(byId) && byId.Length == plan.Size()
    ensures forall v | 0 <= v < plan.Size() :: byId[v] == Some(plan.operations[v])
  {
    byId := new Option<PlanOperation>[plan.Size()](_ => None);
    for i := 0 to plan.Size()
      invariant forall v | 0 <= v < i :: byId[v] == Some(plan.operations[v])
    {
      var operation := plan.operations[i];
      if operation.id < plan.Size() {
        byId[operation.id] := Some(operation);
      } else {
        assert false;
      }
    }
  }

  ghost predicate Filled(order: seq<nat>, est: seq<nat>, starts: seq<nat>, known: seq<bool>) {
    && |starts| == |known| == |est|
    && forall v | 0 <= v < |est| :: known[v] == (v in order) && (known[v] ==> starts[v] == est[v])
  }

  method RunQueue(plan: Plan, byId: array<Option<PlanOperation>>, edges: array<seq<nat>>, indegree: array<nat>)
    returns (starts: array<nat>, known: array<bool>, processed: nat)
    requires edges.Length == indegree.Length == byId.Length == plan.Size()
    requires forall v | 0 <= v < plan.Size() :: byId[v] == Some(plan.operations[v])
    requires TargetsBelow(edges[..], edges.Length) && Counts(edges[..], {}, indegree[..])
    modifies indegree
    ensures fresh(starts) && fresh(known) && starts.Length == known.Length == plan.Size()
    ensures Evaluates(EdgeSet(edges[..]), Durations(plan), NodesBelow(plan.Size()),
                      StartMap(Known(starts[..], known[..])))
    ensures processed == |StartMap(Known(starts[..], known[..])).Keys|
  {
    ghost var n, adj, duration := plan.Size(), edges[..], Durations(plan);
    starts := new nat[plan.Size()](_ => 0);
    known := new bool[plan.Size()](_ => false);
    var earliest := new nat[plan.Size()](_ => 0);
    var ready := InitialQueue(adj, indegree);
    ghost var order: seq<nat> := [];
    processed := 0;
    StartState(adj, duration, ready, indegree[..], earliest[..]);
    while ready != []
      invariant edges[..] == adj && fresh(starts) && fresh(known) && fresh(earliest) && processed == |order|
      invariant forall v | 0 <= v < n :: byId[v] == Some(plan.operations[v])
      invariant Between(adj, duration, order, ready, indegree[..], earliest[..])
      invariant Filled(order, earliest[..], starts[..], known[..])
      decreases n - |order|
    {
      PopState(adj, duration, order, ready, indegree[..], earliest[..]);
      ghost var done, order' := NodesOf(order), order + [ready[0]];
      var u := ready[0];
      // The lookup that a well-formed plan cannot miss.
      var operation := byId[u].value;
      processed := processed + 1;
      starts[u] := earliest[u];
      known[u] := true;
      assert Filled(order', earliest[..], starts[..], known[..]);
      ready := RelaxEdges(edges, u, earliest[u] + operation.duration, indegree, earliest, ready[1..], duration, order', done);
      RelaxedAll(adj, duration, order', ready, done, u, indegree[..], earliest[..]);
      order := order';
    }
    LoopResult(adj, duration, order, indegree[..], earliest[..], Known(starts[..], known[..]));
    OrderSize(order);
    assert StartMap(Known(starts[..], known[..])).Keys == NodesOf(order);
  }

  method RelaxEdges(edges: array<seq<nat>>, u: nat, finish: nat, indegree: array<nat>, earliest: array<nat>,
                    ready: seq<nat>, ghost duration: seq<nat>, ghost order: seq<nat>, ghost done: set<nat>)
    returns (ready': seq<nat>)
    requires edges.Length == indegree.Length == earliest.Length == |duration|
    requires indegree != earliest && u < edges.Length && finish == earliest[u] + duration[u]
    requires RelaxState(edges[..], duration, order, ready, done, u, 0, indegree[..], earliest[..])
    modifies indegree, earliest
    ensures RelaxState(edges[..], duration, order, ready', done, u, |edges[u]|, indegree[..], earliest[..])
    ensures forall v | v in order && v < edges.Length :: earliest[v] == old(earliest[v])
  {
    ghost var adj := edges[..];
    ready' := ready;
    assert u in NodesOf(order);
    for e := 0 to |edges[u]|
      invariant edges[..] == adj
      invariant RelaxState(adj, duration, order, ready', done, u, e, indegree[..], earliest[..])
      invariant forall v | v in order && v < |adj| :: earliest[v] == old(earliest[v])
    {
      ready' := RelaxEdgeAt(edges, u, e, finish, indegree, earliest, ready', duration, order, done);
    }
  }

  method LatestFinish(plan: Plan, starts: seq<nat>, known: seq<bool>) returns (makespan: nat)
    requires plan.WellFormed() && |starts| == |known| == plan.Size()
    ensures R.IsMakespan(Durations(plan), StartMap(Known(starts, known)), makespan)
  {
    makespan := 0;
    for i := 0 to plan.Size()
      invariant forall w | 0 <= w < i && known[w] :: starts[w] + plan.operations[w].duration <= makespan
      invariant makespan == 0 || exists w :: 0 <= w < i && known[w] && starts[w] + plan.operations[w].duration == makespan
    {
      var id := plan.operations[i].id;
      if id < plan.Size() && known[id] && starts[id] + plan.operations[i].duration > makespan {
        makespan := starts[id] + plan.operations[i].duration;
      }
    }
    if makespan != 0 {
      ghost var w :| 0 <= w < plan.Size() && known[w] && starts[w] + plan.operations[w].duration == makespan;
      assert w in StartMap(Known(starts, known));
    }
  }

  method Evaluate(plan: Plan) returns (e: JavaEvaluation)
    requires plan.WellFormed()
    ensures |e.starts| == |e.known| == plan.Size() && R.EvaluationOf(plan, View(e))
  {
    var n := plan.Size();
    var byId := IndexById(plan);
    var edges := new seq<nat>[n](_ => []);
    var indegree := new nat[n](_ => 0);
    var assignedCounts := new nat[n](_ => 0);
    R.EmptyGraph(edges[..], indegree[..]);
    R.AddJobEdges(plan, edges, indegree);
    var placement := R.AddMachineEdges(plan, edges, indegree, assignedCounts);
    assert EdgeSet(edges[..]) == PlanEdges(plan);
    var counts := R.CountAssignments(plan, assignedCounts);
    var starts, known, processed := RunQueue(plan, byId, edges, indegree);
    R.StartsInside(Known(starts[..], known[..]));
    var blocked := if processed < n then n - processed else 0;
    var makespan := LatestFinish(plan, starts[..], known[..]);
    e := JavaEvaluation(starts[..], known[..], makespan, placement + counts + blocked);
  }
}
