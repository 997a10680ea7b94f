// Plans of the sequence-based solvers: operations, one sequence per machine, and the
// precedence graph and penalties such a plan stands for.
module JobShopPlan {
  import opened Wrappers
  import opened Collections
  import opened Sorting
  import opened Graph
  import opened Kahn

  datatype PlanOperation = PlanOperation(id: nat, job: nat, index: int, machine: nat, duration: nat, successor: Option<nat>)

  datatype MachineSequence = MachineSequence(id: nat, operations: seq<nat>)

  datatype Plan = Plan(operations: seq<PlanOperation>, sequences: seq<MachineSequence>, numJobs: nat, numMachines: nat) {
    function Size(): nat { |operations| }

    // Ids are positions and (job, index) identifies an operation.
    ghost predicate WellFormed() {
      && (forall i | 0 <= i < Size() :: operations[i].id == i)
      && (forall i, l | 0 <= i < Size() && 0 <= l < Size() && operations[i].job == operations[l].job &&
            operations[i].index == operations[l].index :: i == l)
    }
  }

  ghost function Durations(plan: Plan): (d: seq<nat>)
    ensures |d| == plan.Size() && forall i | 0 <= i < |d| :: d[i] == plan.operations[i].duration
  {
    seq(plan.Size(), i requires 0 <= i < plan.Size() => plan.operations[i].duration)
  }

  // ----- the graph -----

  // v follows u directly in their job.
  ghost predicate JobEdge(plan: Plan, u: nat, v: nat) {
    && u < plan.Size() && v < plan.Size()
    && plan.operations[u].job == plan.operations[v].job
    && plan.operations[u].index < plan.operations[v].index
    && forall w | 0 <= w < plan.Size() && plan.operations[w].job == plan.operations[u].job ::
         !(plan.operations[u].index < plan.operations[w].index < plan.operations[v].index)
  }

  ghost function JobEdges(plan: Plan): set<Edge> {
    set u: nat, v: nat | u < plan.Size() && v < plan.Size() && JobEdge(plan, u, v) :: (u, v)
  }

  // Direct neighbours in the first k machine sequences.
  ghost function MachineEdges(plan: Plan, k: nat): set<Edge>
    requires k <= |plan.sequences|
  {
    if k == 0 then {} else MachineEdges(plan, k - 1) + ChainEdges(plan.sequences[k - 1].operations, plan.Size())
  }

  ghost function PlanEdges(plan: Plan): set<Edge> {
    JobEdges(plan) + MachineEdges(plan, |plan.sequences|)
  }

  lemma {:induction false} MachineEdgesMember(plan: Plan, k: nat, u: nat, v: nat)
    requires k <= |plan.sequences|
    ensures (u, v) in MachineEdges(plan, k) <==>
      exists m :: 0 <= m < k && (u, v) in ChainEdges(plan.sequences[m].operations, plan.Size())
  {
    if k > 0 { MachineEdgesMember(plan, k - 1, u, v); }
  }

  lemma PlanEdgesWithin(plan: Plan)
    ensures EdgesWithin(PlanEdges(plan), NodesBelow(plan.Size()))
  {
    forall u, v | (u, v) in PlanEdges(plan) ensures u in NodesBelow(plan.Size()) && v in NodesBelow(plan.Size()) {
      if (u, v) !in JobEdges(plan) {
        MachineEdgesMember(plan, |plan.sequences|, u, v);
        var m :| 0 <= m < |plan.sequences| && (u, v) in ChainEdges(plan.sequences[m].operations, plan.Size());
        var s := plan.sequences[m].operations;
        var k :| 0 <= k < |s| - 1 && Linked(s, plan.Size(), k) && (s[k], s[k + 1]) == (u, v);
      }
    }
  }

  // ----- job chains -----

  // Operations of job j among the first k, keyed by their index.
  function Bucket(plan: Plan, k: nat, j: nat): seq<Keyed<nat>>
    requires k <= plan.Size()
  {
    if k == 0 then []
    else
      var op := plan.operations[k - 1];
      Bucket(plan, k - 1, j) + (if op.job == j then [Keyed(op.index, 0, 0, op.id)] else [])
  }

  ghost predicate InBucket(plan: Plan, k: nat, j: nat, x: Keyed<nat>) {
    x.value < k <= plan.Size() && plan.operations[x.value].job == j &&
    x == Keyed(plan.operations[x.value].index, 0, 0, x.value)
  }

  lemma {:induction false} BucketMeaning(plan: Plan, k: nat, j: nat)
    requires plan.WellFormed() && k <= plan.Size()
    ensures forall i | 0 <= i < |Bucket(plan, k, j)| :: InBucket(plan, k, j, Bucket(plan, k, j)[i])
    ensures NoRepeats(Bucket(plan, k, j))
  {
    if k > 0 { BucketMeaning(plan, k - 1, j); }
  }

  lemma {:induction false} BucketHolds(plan: Plan, k: nat, j: nat, v: nat) returns (i: nat)
    requires plan.WellFormed() && v < k <= plan.Size() && plan.operations[v].job == j
    ensures i < |Bucket(plan, k, j)| && Bucket(plan, k, j)[i].value == v
  {
    if v == k - 1 { i := |Bucket(plan, k, j)| - 1; } else { i := BucketHolds(plan, k - 1, j, v); }
  }

  ghost function JobChain(plan: Plan, j: nat): seq<Keyed<nat>> {
    Sort(Bucket(plan, plan.Size(), j))
  }

  lemma JobChainMeaning(plan: Plan, j: nat)
    requires plan.WellFormed()
    ensures forall i | 0 <= i < |JobChain(plan, j)| :: InBucket(plan, plan.Size(), j, JobChain(plan, j)[i])
    ensures forall i, l | 0 <= i < l < |JobChain(plan, j)| :: JobChain(plan, j)[i].major < JobChain(plan, j)[l].major
  {
    var b, c := Bucket(plan, plan.Size(), j), JobChain(plan, j);
    BucketMeaning(plan, plan.Size(), j);
    SortPermutes(b);
    SortSorted(b);
    PermutationNoRepeats(c, b);
    forall i | 0 <= i < |c| ensures InBucket(plan, plan.Size(), j, c[i]) {
      var l := PermutationMember(c, b, i);
    }
    forall i, l | 0 <= i < l < |c| ensures c[i].major < c[l].major {
      assert c[i].AtMost(c[l]) && c[i] != c[l];
      assert InBucket(plan, plan.Size(), j, c[i]) && InBucket(plan, plan.Size(), j, c[l]);
    }
  }

  lemma JobChainHolds(plan: Plan, v: nat) returns (i: nat)
    requires plan.WellFormed() && v < plan.Size()
    ensures var c := JobChain(plan, plan.operations[v].job); i < |c| && c[i].value == v && c[i].major == plan.operations[v].index
  {
    var j := plan.operations[v].job;
    var b := Bucket(plan, plan.Size(), j);
    var l := BucketHolds(plan, plan.Size(), j, v);
    SortPermutes(b);
    i := PermutationMember(b, JobChain(plan, j), l);
    JobChainMeaning(plan, j);
    assert InBucket(plan, plan.Size(), j, JobChain(plan, j)[i]);
  }

  ghost function ChainOf(plan: Plan, j: nat): set<Edge> {
    ChainEdges(Values(JobChain(plan, j)), plan.Size())
  }

  lemma ChainIsJobEdge(plan: Plan, j: nat, u: nat, v: nat)
    requires plan.WellFormed() && (u, v) in ChainOf(plan, j)
    ensures JobEdge(plan, u, v) && plan.operations[u].job == j
  {
    var c := JobChain(plan, j);
    var ids := Values(c);
    var k :| 0 <= k < |ids| - 1 && Linked(ids, plan.Size(), k) && (ids[k], ids[k + 1]) == (u, v);
    JobChainMeaning(plan, j);
    assert InBucket(plan, plan.Size(), j, c[k]) && InBucket(plan, plan.Size(), j, c[k + 1]);
    assert c[k].major < c[k + 1].major;
    forall w | 0 <= w < plan.Size() && plan.operations[w].job == j
      ensures !(plan.operations[u].index < plan.operations[w].index < plan.operations[v].index)
    {
      var p := JobChainHolds(plan, w);
      if p < k { assert c[p].major < c[k].major; }
      if p > k + 1 { assert c[k + 1].major < c[p].major; }
    }
  }

  lemma ChainBetween(plan: Plan, j: nat, p: nat, q: nat)
    requires plan.WellFormed() && p + 1 < q < |JobChain(plan, j)|
    ensures exists w ::
      && 0 <= w < plan.Size() && plan.operations[w].job == j
      && JobChain(plan, j)[p].major < plan.operations[w].index < JobChain(plan, j)[q].major
  {
    var c := JobChain(plan, j);
    JobChainMeaning(plan, j);
    assert InBucket(plan, plan.Size(), j, c[p + 1]);
    assert c[p].major < c[p + 1].major < c[q].major;
  }

  lemma JobEdgeInChain(plan: Plan, u: nat, v: nat)
    requires plan.WellFormed() && JobEdge(plan, u, v)
    ensures (u, v) in ChainOf(plan, plan.operations[u].job)
  {
    var j := plan.operations[u].job;
    var c := JobChain(plan, j);
    var ids := Values(c);
    var p := JobChainHolds(plan, u);
    var q := JobChainHolds(plan, v);
    JobChainMeaning(plan, j);
    assert p < q;
    if p + 1 < q { ChainBetween(plan, j, p, q); }
    assert p + 1 == q;
    assert ids[p] == u && ids[p + 1] == v && Linked(ids, plan.Size(), p);
  }

  // The chains of the jobs below k.
  ghost function ChainsBelow(plan: Plan, k: nat): set<Edge> {
    if k == 0 then {} else ChainsBelow(plan, k - 1) + ChainOf(plan, k - 1)
  }

  lemma {:induction false} ChainsBelowMember(plan: Plan, k: nat, u: nat, v: nat)
    ensures (u, v) in ChainsBelow(plan, k) <==> exists j: nat :: j < k && (u, v) in ChainOf(plan, j)
  {
    if k > 0 { ChainsBelowMember(plan, k - 1, u, v); }
  }

  // Sorting each job and linking neighbours gives exactly the job edges.
  lemma ChainsAreJobEdges(plan: Plan, k: nat)
    requires plan.WellFormed() && forall i | 0 <= i < plan.Size() :: plan.operations[i].job < k
    ensures ChainsBelow(plan, k) == JobEdges(plan)
  {
    forall e | e in ChainsBelow(plan, k) ensures e in JobEdges(plan) {
      ChainsBelowMember(plan, k, e.0, e.1);
      var j: nat :| j < k && (e.0, e.1) in ChainOf(plan, j);
      ChainIsJobEdge(plan, j, e.0, e.1);
    }
    forall e | e in JobEdges(plan) ensures e in ChainsBelow(plan, k) {
      JobEdgeInChain(plan, e.0, e.1);
      ChainsBelowMember(plan, k, e.0, e.1);
    }
  }

  // ----- penalties -----

  // Unknown or wrongly placed entries among the first k of a sequence.
  ghost function Misplaced(plan: Plan, s: MachineSequence, k: nat): nat
    requires k <= |s.operations|
  {
    if k == 0 then 0
    else
      var o := s.operations[k - 1];
      Misplaced(plan, s, k - 1) +
      (if o >= plan.Size() || plan.operations[o].machine != s.id then 1 else 0)
  }

  ghost function SequencePenalty(plan: Plan, s: MachineSequence): nat {
    (if s.id >= plan.numMachines then |s.operations| else 0) + Misplaced(plan, s, |s.operations|)
  }

  ghost function PlacementPenalty(plan: Plan, k: nat): nat
    requires k <= |plan.sequences|
  {
    if k == 0 then 0 else PlacementPenalty(plan, k - 1) + SequencePenalty(plan, plan.sequences[k - 1])
  }

  // How often operation v occurs in the first k sequences.
  ghost function Assigned(plan: Plan, k: nat, v: nat): nat
    requires k <= |plan.sequences|
  {
    if k == 0 then 0 else Assigned(plan, k - 1, v) + multiset(plan.sequences[k - 1].operations)[v]
  }

  // Missing and duplicate operations among those below v.
  ghost function CountPenalty(plan: Plan, v: nat): nat {
    if v == 0 then 0
    else
      var count := Assigned(plan, |plan.sequences|, v - 1);
      CountPenalty(plan, v - 1) + (if count == 0 then 1 else count - 1)
  }

  // Every operation is placed exactly once, on its own machine.
  ghost predicate Placed(plan: Plan) {
    && (forall m | 0 <= m < |plan.sequences| :: PlacedOn(plan, plan.sequences[m]))
    && (forall v | 0 <= v < plan.Size() :: AssignedOnce(plan, v))
  }

  ghost predicate AssignedOnce(plan: Plan, v: nat) {
    Assigned(plan, |plan.sequences|, v) == 1
  }

  ghost predicate PlacedOn(plan: Plan, s: MachineSequence) {
    && (s.operations != [] ==> s.id < plan.numMachines)
    && forall k | 0 <= k < |s.operations| :: s.operations[k] < plan.Size() && plan.operations[s.operations[k]].machine == s.id
  }

  lemma {:induction false} MisplacedZero(plan: Plan, s: MachineSequence, k: nat)
    requires k <= |s.operations|
    ensures Misplaced(plan, s, k) == 0 <==>
      forall i | 0 <= i < k :: s.operations[i] < plan.Size() && plan.operations[s.operations[i]].machine == s.id
  {
    if k > 0 { MisplacedZero(plan, s, k - 1); }
  }

  lemma {:induction false} PlacementZero(plan: Plan, k: nat)
    requires k <= |plan.sequences|
    ensures PlacementPenalty(plan, k) == 0 <==> forall m | 0 <= m < k :: PlacedOn(plan, plan.sequences[m])
  {
    if k > 0 {
      PlacementZero(plan, k - 1);
      MisplacedZero(plan, plan.sequences[k - 1], |plan.sequences[k - 1].operations|);
    }
  }

  lemma {:induction false} CountZero(plan: Plan, v: nat)
    ensures CountPenalty(plan, v) == 0 <==> forall w | 0 <= w < v :: AssignedOnce(plan, w)
  {
    if v > 0 {
      CountZero(plan, v - 1);
      var w: nat := v - 1;
      assert (CountPenalty(plan, v) == CountPenalty(plan, w)) <==> AssignedOnce(plan, w);
    }
  }
}
