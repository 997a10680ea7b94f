// What the hard penalty counts, in sets of positions and operations.
module JobShopPenalty {
  import opened Wrappers
  import opened Collections
  import opened Graph
  import opened Kahn
  import opened JobShopPlan
  import R = JobShopRust

  // Position p.1 of sequence p.0.
  type Place = (nat, nat)

  ghost predicate HasPlace(plan: Plan, p: Place) {
    p.0 < |plan.sequences| && p.1 < |plan.sequences[p.0].operations|
  }

  ghost function EntryAt(plan: Plan, p: Place): nat
    requires HasPlace(plan, p)
  {
    plan.sequences[p.0].operations[p.1]
  }

  // The positions of the first k sequences.
  ghost function Places(plan: Plan, k: nat): set<Place>
    requires k <= |plan.sequences|
  {
    set m: nat, i: nat | m < k && i < |plan.sequences[m].operations| :: (m, i)
  }

  // An entry that names no operation, or one of another machine.
  ghost predicate Misfit(plan: Plan, p: Place)
    requires HasPlace(plan, p)
  {
    EntryAt(plan, p) >= plan.Size() || plan.operations[EntryAt(plan, p)].machine != plan.sequences[p.0].id
  }

  ghost function Misfits(plan: Plan, k: nat): set<Place>
    requires k <= |plan.sequences|
  {
    set p | p in Places(plan, k) && Misfit(plan, p)
  }

  // The machine of the sequence does not exist.
  ghost predicate IsOut(plan: Plan, p: Place)
    requires HasPlace(plan, p)
  {
    plan.sequences[p.0].id >= plan.numMachines
  }

  ghost function OutOfRange(plan: Plan, k: nat): set<Place>
    requires k <= |plan.sequences|
  {
    set p | p in Places(plan, k) && IsOut(plan, p)
  }

  ghost function Holding(plan: Plan, k: nat, v: nat): set<Place>
    requires k <= |plan.sequences|
  {
    set p | p in Places(plan, k) && EntryAt(plan, p) == v
  }

  // Entries that name one of the first n operations.
  ghost function Known(plan: Plan, n: nat): set<Place> {
    set p | p in Places(plan, |plan.sequences|) && EntryAt(plan, p) < n
  }

  // Some entry names the operation.
  ghost predicate IsNamed(plan: Plan, v: nat) {
    Holding(plan, |plan.sequences|, v) != {}
  }

  // Of the first n operations, those some entry names, and those none does.
  ghost function Named(plan: Plan, n: nat): set<nat> {
    set v: nat | v < n && IsNamed(plan, v)
  }

  ghost function Missing(plan: Plan, n: nat): set<nat> {
    set v: nat | v < n && !IsNamed(plan, v)
  }

  // ----- one sequence -----

  ghost function Row(m: nat, len: nat): set<Place> {
    set i: nat | i < len :: (m, i)
  }

  ghost function OutRow(plan: Plan, m: nat, len: nat): set<Place>
    requires m < |plan.sequences| && len <= |plan.sequences[m].operations|
  {
    set i: nat | i < len && IsOut(plan, (m, i)) :: (m, i)
  }

  lemma {:induction false} OutRowSize(plan: Plan, m: nat, len: nat)
    requires m < |plan.sequences| && len <= |plan.sequences[m].operations|
    ensures |OutRow(plan, m, len)| == if plan.sequences[m].id >= plan.numMachines then len else 0
  {
    if len > 0 {
      OutRowSize(plan, m, len - 1);
      var last: Place := (m, len - 1);
      assert OutRow(plan, m, len) == OutRow(plan, m, len - 1) + (if IsOut(plan, last) then {last} else {});
      assert last !in OutRow(plan, m, len - 1);
    }
  }

  ghost function MisfitRow(plan: Plan, m: nat, len: nat): set<Place>
    requires m < |plan.sequences| && len <= |plan.sequences[m].operations|
  {
    set i: nat | i < len && Misfit(plan, (m, i)) :: (m, i)
  }

  lemma {:induction false} MisfitRowSize(plan: Plan, m: nat, len: nat)
    requires m < |plan.sequences| && len <= |plan.sequences[m].operations|
    ensures |MisfitRow(plan, m, len)| == Misplaced(plan, plan.sequences[m], len)
  {
    if len > 0 {
      MisfitRowSize(plan, m, len - 1);
      var last: Place := (m, len - 1);
      assert MisfitRow(plan, m, len) == MisfitRow(plan, m, len - 1) + (if Misfit(plan, last) then {last} else {});
      assert last !in MisfitRow(plan, m, len - 1);
    }
  }

  ghost function HoldRow(plan: Plan, m: nat, len: nat, v: nat): set<Place>
    requires m < |plan.sequences| && len <= |plan.sequences[m].operations|
  {
    set i: nat | i < len && EntryAt(plan, (m, i)) == v :: (m, i)
  }

  lemma {:induction false} HoldRowSize(plan: Plan, m: nat, len: nat, v: nat)
    requires m < |plan.sequences| && len <= |plan.sequences[m].operations|
    ensures |HoldRow(plan, m, len, v)| == multiset(plan.sequences[m].operations[..len])[v]
  {
    if len > 0 {
      HoldRowSize(plan, m, len - 1, v);
      var s := plan.sequences[m].operations;
      var last: Place := (m, len - 1);
      assert s[..len] == s[..len - 1] + [s[len - 1]];
      assert HoldRow(plan, m, len, v) == HoldRow(plan, m, len - 1, v) + (if s[len - 1] == v then {last} else {});
      assert last !in HoldRow(plan, m, len - 1, v);
    }
  }

  // ----- all sequences -----

  lemma PlacesSplit(plan: Plan, k: nat)
    requires 0 < k <= |plan.sequences|
    ensures Places(plan, k) == Places(plan, k - 1) + Row(k - 1, |plan.sequences[k - 1].operations|)
    ensures Places(plan, k - 1) !! Row(k - 1, |plan.sequences[k - 1].operations|)
  {
  }

  lemma {:induction false} PlacementCount(plan: Plan, k: nat)
    requires k <= |plan.sequences|
    ensures PlacementPenalty(plan, k) == |Misfits(plan, k)| + |OutOfRange(plan, k)|
  {
    if k > 0 {
      PlacementCount(plan, k - 1);
      MisfitsStep(plan, k);
      OutOfRangeStep(plan, k);
    }
  }

  lemma MisfitsStep(plan: Plan, k: nat)
    requires 0 < k <= |plan.sequences|
    ensures var s := plan.sequences[k - 1]; |Misfits(plan, k)| == |Misfits(plan, k - 1)| + Misplaced(plan, s, |s.operations|)
  {
    var len := |plan.sequences[k - 1].operations|;
    PlacesSplit(plan, k);
    MisfitRowSize(plan, k - 1, len);
    assert Misfits(plan, k) == Misfits(plan, k - 1) + MisfitRow(plan, k - 1, len);
    UnionSize(Misfits(plan, k - 1), MisfitRow(plan, k - 1, len));
  }

  lemma OutOfRangeStep(plan: Plan, k: nat)
    requires 0 < k <= |plan.sequences|
    ensures var s := plan.sequences[k - 1];
      |OutOfRange(plan, k)| == |OutOfRange(plan, k - 1)| + (if s.id >= plan.numMachines then |s.operations| else 0)
  {
    var s := plan.sequences[k - 1];
    var len := |s.operations|;
    PlacesSplit(plan, k);
    OutRowSize(plan, k - 1, len);
    assert OutOfRange(plan, k) == OutOfRange(plan, k - 1) + OutRow(plan, k - 1, len);
    UnionSize(OutOfRange(plan, k - 1), OutRow(plan, k - 1, len));
  }

  lemma {:induction false} HoldingCount(plan: Plan, k: nat, v: nat)
    requires k <= |plan.sequences|
    ensures |Holding(plan, k, v)| == Assigned(plan, k, v)
  {
    if k > 0 {
      HoldingCount(plan, k - 1, v);
      HoldingStep(plan, k, v);
    }
  }

  lemma HoldingStep(plan: Plan, k: nat, v: nat)
    requires 0 < k <= |plan.sequences|
    ensures |Holding(plan, k, v)| == |Holding(plan, k - 1, v)| + multiset(plan.sequences[k - 1].operations)[v]
  {
    var s := plan.sequences[k - 1].operations;
    PlacesSplit(plan, k);
    HoldRowSize(plan, k - 1, |s|, v);
    assert s[..|s|] == s;
    assert Holding(plan, k, v) == Holding(plan, k - 1, v) + HoldRow(plan, k - 1, |s|, v);
    UnionSize(Holding(plan, k - 1, v), HoldRow(plan, k - 1, |s|, v));
  }

  lemma {:induction false} CountSum(plan: Plan, n: nat)
    ensures CountPenalty(plan, n) + n == |Known(plan, n)| + 2 * |Missing(plan, n)|
    ensures |Named(plan, n)| + |Missing(plan, n)| == n
  {
    if n > 0 {
      CountSum(plan, n - 1);
      HoldingCount(plan, |plan.sequences|, n - 1);
      KnownStep(plan, n);
      NamedStep(plan, n);
      MissingStep(plan, n);
    }
  }

  lemma KnownStep(plan: Plan, n: nat)
    requires n > 0
    ensures |Known(plan, n)| == |Known(plan, n - 1)| + |Holding(plan, |plan.sequences|, n - 1)|
  {
    var here := Holding(plan, |plan.sequences|, n - 1);
    assert Known(plan, n) == Known(plan, n - 1) + here;
    UnionSize(Known(plan, n - 1), here);
  }

  lemma NamedStep(plan: Plan, n: nat)
    requires n > 0
    ensures |Named(plan, n)| == |Named(plan, n - 1)| + (if IsNamed(plan, n - 1) then 1 else 0)
  {
    if IsNamed(plan, n - 1) {
      assert Named(plan, n) == Named(plan, n - 1) + {n - 1};
    } else {
      assert Named(plan, n) == Named(plan, n - 1);
    }
  }

  lemma MissingStep(plan: Plan, n: nat)
    requires n > 0
    ensures |Missing(plan, n)| == |Missing(plan, n - 1)| + (if IsNamed(plan, n - 1) then 0 else 1)
  {
    if IsNamed(plan, n - 1) {
      assert Missing(plan, n) == Missing(plan, n - 1);
    } else {
      assert Missing(plan, n) == Missing(plan, n - 1) + {n - 1};
    }
  }

  // The operations that got no start.
  ghost function Unstarted(starts: seq<Option<nat>>): set<nat> {
    set v: nat | v < |starts| && starts[v].None?
  }

  lemma UnstartedCount(starts: seq<Option<nat>>)
    ensures |starts| - |StartMap(starts).Keys| == |Unstarted(starts)|
  {
    var n, started := |starts|, StartMap(starts).Keys;
    BelowSize(n);
    forall v: nat ensures v in NodesBelow(n) <==> v in started + Unstarted(starts) {
      assert v in NodesBelow(n) <==> v < n;
    }
    assert NodesBelow(n) == started + Unstarted(starts);
    UnionSize(started, Unstarted(starts));
  }

  // The hard penalty is the number of misplaced entries, of entries on machines that do not
  // exist, of operations never named, of repeated namings, and of operations without a start.
  lemma PenaltyCounts(plan: Plan, e: R.Evaluation)
    requires R.EvaluationOf(plan, e)
    ensures var n, k := plan.Size(), |plan.sequences|;
      e.hardPenalty == |Misfits(plan, k)| + |OutOfRange(plan, k)| + |Missing(plan, n)| +
                       (|Known(plan, n)| - |Named(plan, n)|) + |Unstarted(e.starts)|
  {
    PlacementCount(plan, |plan.sequences|);
    CountSum(plan, plan.Size());
    UnstartedCount(e.starts);
  }

  // ----- the plan before anything is placed -----

  lemma JobEdgesAcyclic(plan: Plan)
    ensures Acyclic(JobEdges(plan))
  {
    RankedIsAcyclic(JobEdges(plan), map v: nat | v < plan.Size() :: plan.operations[v].index);
  }

  ghost predicate NothingPlaced(plan: Plan) {
    forall m | 0 <= m < |plan.sequences| :: plan.sequences[m].operations == []
  }

  lemma {:induction false} NoMachineEdges(plan: Plan, k: nat)
    requires NothingPlaced(plan) && k <= |plan.sequences|
    ensures MachineEdges(plan, k) == {}
  {
    if k > 0 { NoMachineEdges(plan, k - 1); }
  }

  // With empty sequences, as the adapters build the plan, the penalty is the number of
  // operations, and each one starts when its predecessors in the job are done.
  lemma UnplacedPenalty(plan: Plan, e: R.Evaluation)
    requires R.EvaluationOf(plan, e) && NothingPlaced(plan)
    ensures e.hardPenalty == plan.Size()
    ensures Unstarted(e.starts) == {} && PlanEdges(plan) == JobEdges(plan)
  {
    var n, k := plan.Size(), |plan.sequences|;
    NoMachineEdges(plan, k);
    assert PlanEdges(plan) == JobEdges(plan);
    JobEdgesAcyclic(plan);
    R.StartedExact(plan, e);
    PenaltyCounts(plan, e);
    CountSum(plan, n);
    assert Places(plan, k) == {};
    assert Misfits(plan, k) == {} && OutOfRange(plan, k) == {} && Known(plan, n) == {} && Named(plan, n) == {};
  }
}
