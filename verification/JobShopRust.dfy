// The Rust evaluator: job and machine edges into adjacency lists, penalties on the side,
// then the queue loop; and the adapter's output built from it.
module JobShopRust {
  import opened Wrappers
  import opened Collections
  import opened Sorting
  import opened Graph
  import opened Kahn
  import opened JobShopPlan

  datatype Evaluation = Evaluation(starts: seq<Option<nat>>, makespan: nat, hardPenalty: nat)

  // Latest finish of the started operations, 0 when nothing started.
  ghost predicate IsMakespan(duration: seq<nat>, start: map<nat, nat>, m: nat) {
    && (forall v | v in start && v < |duration| :: start[v] + duration[v] <= m)
    && (m == 0 || exists v :: v in start && v < |duration| && start[v] + duration[v] == m)
  }

  // What an evaluation of a plan must be.
  ghost predicate EvaluationOf(plan: Plan, e: Evaluation) {
    && |e.starts| == plan.Size()
    && Evaluates(PlanEdges(plan), Durations(plan), NodesBelow(plan.Size()), StartMap(e.starts))
    && IsMakespan(Durations(plan), StartMap(e.starts), e.makespan)
    && e.hardPenalty ==
         PlacementPenalty(plan, |plan.sequences|) + CountPenalty(plan, plan.Size()) +
         plan.Size() - |StartMap(e.starts).Keys|
  }

  method Buckets(plan: Plan) returns (buckets: array<seq<Keyed<nat>>>)
    requires plan.WellFormed()
    ensures fresh(buckets)
    ensures forall i | 0 <= i < plan.Size() :: plan.operations[i].job < buckets.Length
    ensures forall j | 0 <= j < buckets.Length :: buckets[j] == Bucket(plan, plan.Size(), j)
  {
    var jobCount: nat := plan.numJobs;
    for i := 0 to plan.Size()
      invariant forall l | 0 <= l < i :: plan.operations[l].job < jobCount
    {
      if plan.operations[i].job + 1 > jobCount { jobCount := plan.operations[i].job + 1; }
    }
    buckets := new seq<Keyed<nat>>[jobCount](_ => []);
    for i := 0 to plan.Size()
      invariant forall j | 0 <= j < jobCount :: buckets[j] == Bucket(plan, i, j)
    {
      var op := plan.operations[i];
      if op.job < jobCount {
        buckets[op.job] := buckets[op.job] + [Keyed(op.index, 0, 0, op.id)];
      }
      forall j | 0 <= j < jobCount ensures buckets[j] == Bucket(plan, i + 1, j) {
        assert Bucket(plan, i, j) + [] == Bucket(plan, i, j);
      }
    }
  }

  method AddJobEdges(plan: Plan, edges: array<seq<nat>>, indegree: array<nat>)
    requires plan.WellFormed() && edges.Length == indegree.Length == plan.Size()
    requires TargetsBelow(edges[..], edges.Length) && Counts(edges[..], {}, indegree[..])
    modifies edges, indegree
    ensures TargetsBelow(edges[..], edges.Length) && Counts(edges[..], {}, indegree[..])
    ensures EdgeSet(edges[..]) == old(EdgeSet(edges[..])) + JobEdges(plan)
  {
    var buckets := Buckets(plan);
    for j := 0 to buckets.Length
      invariant TargetsBelow(edges[..], edges.Length) && Counts(edges[..], {}, indegree[..])
      invariant EdgeSet(edges[..]) == old(EdgeSet(edges[..])) + ChainsBelow(plan, j)
      invariant forall l | 0 <= l < buckets.Length :: buckets[l] == Bucket(plan, plan.Size(), l)
    {
      AddChain(Values(Sort(buckets[j])), edges, indegree);
    }
    ChainsAreJobEdges(plan, buckets.Length);
  }

  method AddMachineEdges(plan: Plan, edges: array<seq<nat>>, indegree: array<nat>, assignedCounts: array<nat>)
    returns (penalty: nat)
    requires plan.WellFormed() && edges.Length == indegree.Length == assignedCounts.Length == plan.Size()
    requires assignedCounts != indegree
    requires TargetsBelow(edges[..], edges.Length) && Counts(edges[..], {}, indegree[..])
    requires forall v | 0 <= v < plan.Size() :: assignedCounts[v] == 0
    modifies edges, indegree, assignedCounts
    ensures TargetsBelow(edges[..], edges.Length) && Counts(edges[..], {}, indegree[..])
    ensures EdgeSet(edges[..]) == old(EdgeSet(edges[..])) + MachineEdges(plan, |plan.sequences|)
    ensures penalty == PlacementPenalty(plan, |plan.sequences|)
    ensures forall v | 0 <= v < plan.Size() :: assignedCounts[v] == Assigned(plan, |plan.sequences|, v)
  {
    penalty := 0;
    for m := 0 to |plan.sequences|
      invariant TargetsBelow(edges[..], edges.Length) && Counts(edges[..], {}, indegree[..])
      invariant EdgeSet(edges[..]) == old(EdgeSet(edges[..])) + MachineEdges(plan, m)
      invariant penalty == PlacementPenalty(plan, m)
      invariant forall v | 0 <= v < plan.Size() :: assignedCounts[v] == Assigned(plan, m, v)
    {
      var s := plan.sequences[m];
      if s.id >= plan.numMachines { penalty := penalty + |s.operations|; }
      var misplaced := CountSequence(plan, s, assignedCounts);
      penalty := penalty + misplaced;
      AddChain(s.operations, edges, indegree);
    }
  }

  method CountSequence(plan: Plan, s: MachineSequence, assignedCounts: array<nat>) returns (misplaced: nat)
    requires assignedCounts.Length == plan.Size()
    modifies assignedCounts
    ensures misplaced == Misplaced(plan, s, |s.operations|)
    ensures forall v | 0 <= v < plan.Size() :: assignedCounts[v] == old(assignedCounts[v]) + multiset(s.operations)[v]
  {
    misplaced := 0;
    for k := 0 to |s.operations|
      invariant misplaced == Misplaced(plan, s, k)
      invariant forall v | 0 <= v < plan.Size() :: assignedCounts[v] == old(assignedCounts[v]) + multiset(s.operations[..k])[v]
    {
      assert s.operations[..k + 1] == s.operations[..k] + [s.operations[k]];
      var o := s.operations[k];
      if o >= plan.Size() {
        misplaced := misplaced + 1;
        continue;
      }
      assignedCounts[o] := assignedCounts[o] + 1;
      if plan.operations[o].machine != s.id { misplaced := misplaced + 1; }
    }
    assert s.operations[..|s.operations|] == s.operations;
  }

  method CountAssignments(plan: Plan, assignedCounts: array<nat>) returns (penalty: nat)
    requires assignedCounts.Length == plan.Size()
    requires forall v | 0 <= v < plan.Size() :: assignedCounts[v] == Assigned(plan, |plan.sequences|, v)
    ensures penalty == CountPenalty(plan, plan.Size())
  {
    penalty := 0;
    for v := 0 to plan.Size()
      invariant penalty == CountPenalty(plan, v)
    {
      if assignedCounts[v] == 0 {
        penalty := penalty + 1;
      } else if assignedCounts[v] != 1 {
        penalty := penalty + (assignedCounts[v] - 1);
      }
    }
  }

  method LatestFinish(plan: Plan, starts: seq<Option<nat>>) returns (makespan: nat)
    requires |starts| == plan.Size()
    ensures IsMakespan(Durations(plan), StartMap(starts), makespan)
  {
    makespan := 0;
    for v := 0 to plan.Size()
      invariant forall w | 0 <= w < v && starts[w].Some? :: starts[w].value + plan.operations[w].duration <= makespan
      invariant makespan == 0 ||
        exists w :: 0 <= w < v && starts[w].Some? && starts[w].value + plan.operations[w].duration == makespan
    {
      if starts[v].Some? && starts[v].value + plan.operations[v].duration > makespan {
        makespan := starts[v].value + plan.operations[v].duration;
      }
    }
    if makespan != 0 {
      ghost var w :| 0 <= w < plan.Size() && starts[w].Some? && starts[w].value + plan.operations[w].duration == makespan;
      assert w in StartMap(starts) && StartMap(starts)[w] + Durations(plan)[w] == makespan;
    }
  }

  method EvaluateSchedule(plan: Plan) returns (e: Evaluation)
    requires plan.WellFormed()
    ensures EvaluationOf(plan, e)
  {
    var n := plan.Size();
    var assignedCounts := new nat[n](_ => 0);
    var edges := new seq<nat>[n](_ => []);
    var indegree := new nat[n](_ => 0);
    EmptyGraph(edges[..], indegree[..]);
    AddJobEdges(plan, edges, indegree);
    var hardPenalty := AddMachineEdges(plan, edges, indegree, assignedCounts);
    assert EdgeSet(edges[..]) == PlanEdges(plan);
    var counts := CountAssignments(plan, assignedCounts);
    hardPenalty := hardPenalty + counts;
    var duration := seq(n, i requires 0 <= i < n => plan.operations[i].duration);
    assert duration == Durations(plan);
    var starts, processed := RunQueue(edges, duration, indegree);
    StartsInside(starts[..]);
    if processed < n { hardPenalty := hardPenalty + (n - processed); }
    var makespan := LatestFinish(plan, starts[..]);
    e := Evaluation(starts[..], makespan, hardPenalty);
  }

  lemma EmptyGraph(adj: Adjacency, deg: seq<nat>)
    requires |adj| == |deg| && forall v | 0 <= v < |adj| :: adj[v] == [] && deg[v] == 0
    ensures TargetsBelow(adj, |adj|) && Counts(adj, {}, deg) && EdgeSet(adj) == {}
  {
    forall v | 0 <= v < |adj| ensures deg[v] == Pending(adj, {}, v, |adj|) {
      PendingPositive(adj, {}, v, |adj|);
    }
  }

  lemma StartsInside(starts: seq<Option<nat>>)
    ensures StartMap(starts).Keys <= NodesBelow(|starts|)
    ensures |StartMap(starts).Keys| <= |starts|
    ensures |StartMap(starts).Keys| == |starts| <==> StartMap(starts).Keys == NodesBelow(|starts|)
  {
    BelowSize(|starts|);
    SubsetSize(StartMap(starts).Keys, NodesBelow(|starts|));
  }

  lemma AllStarted(starts: seq<Option<nat>>)
    ensures (forall v | 0 <= v < |starts| :: starts[v].Some?) <==> StartMap(starts).Keys == NodesBelow(|starts|)
  {
    if StartMap(starts).Keys == NodesBelow(|starts|) {
      forall v | 0 <= v < |starts| ensures starts[v].Some? {
        assert v in NodesBelow(|starts|);
      }
    }
  }

  // The operations the loop leaves out are exactly those a cycle blocks.
  lemma StartedExact(plan: Plan, e: Evaluation)
    requires EvaluationOf(plan, e)
    ensures (forall v | 0 <= v < plan.Size() :: e.starts[v].Some?) <==> Acyclic(PlanEdges(plan))
    ensures |StartMap(e.starts).Keys| <= plan.Size()
    ensures |StartMap(e.starts).Keys| == plan.Size() <==> Acyclic(PlanEdges(plan))
  {
    PlanEdgesWithin(plan);
    EvaluationComplete(PlanEdges(plan), Durations(plan), NodesBelow(plan.Size()), StartMap(e.starts));
    AllStarted(e.starts);
    StartsInside(e.starts);
  }

  // The penalty vanishes exactly for complete, correctly placed sequences without a cycle.
  lemma PenaltyExact(plan: Plan, e: Evaluation)
    requires EvaluationOf(plan, e)
    ensures e.hardPenalty == 0 <==> Placed(plan) && Acyclic(PlanEdges(plan))
  {
    StartedExact(plan, e);
    PlacedExact(plan);
  }

  lemma PlacedExact(plan: Plan)
    ensures PlacementPenalty(plan, |plan.sequences|) == 0 && CountPenalty(plan, plan.Size()) == 0 <==> Placed(plan)
  {
    PlacementZero(plan, |plan.sequences|);
    CountZero(plan, plan.Size());
  }

  // On an acyclic plan the starts respect every edge and no schedule starts anything earlier.
  lemma StartsLeast(plan: Plan, e: Evaluation, s: map<nat, int>)
    requires EvaluationOf(plan, e) && Acyclic(PlanEdges(plan))
    requires Respects(PlanEdges(plan), Durations(plan), NodesBelow(plan.Size()), s)
    ensures Respects(PlanEdges(plan), Durations(plan), NodesBelow(plan.Size()), StartMap(e.starts))
    ensures forall v | 0 <= v < plan.Size() :: e.starts[v].Some? && e.starts[v].value <= s[v]
  {
    PlanEdgesWithin(plan);
    var n, start := plan.Size(), StartMap(e.starts);
    EvaluationLeast(PlanEdges(plan), Durations(plan), NodesBelow(n), start, s);
    forall v | 0 <= v < n ensures e.starts[v].Some? && e.starts[v].value <= s[v] {
      assert v in NodesBelow(n) && v in start;
    }
  }
}
