// Job-shop instances and solutions, and the validator that defines an acceptable schedule.
module JobShop {
  import opened Wrappers
  import opened Sorting

  type Key = (int, int)

  datatype Operation = Operation(job: int, index: int, machine: int, duration: int) {
    function Id(): Key { (job, index) }
  }

  datatype Instance = Instance(numMachines: nat, jobs: seq<seq<Operation>>) {
    function Ops(): seq<Operation> { Flatten(jobs) }

    // Jobs are numbered by position, indices increase along a job, durations are non-negative.
    ghost predicate WellFormed() {
      && Ops() != []
      && (forall j, k | 0 <= j < |jobs| && 0 <= k < |jobs[j]| :: OperationOk(j, k))
      && (forall j, k, l | 0 <= j < |jobs| && 0 <= k < l < |jobs[j]| :: jobs[j][k].index < jobs[j][l].index)
    }

    ghost predicate OperationOk(j: nat, k: nat)
      requires j < |jobs| && k < |jobs[j]|
    {
      var op := jobs[j][k];
      op.job == j && 0 <= op.machine < numMachines && 0 <= op.duration
    }
  }

  datatype Scheduled = Scheduled(job: int, index: int, machine: int, start: int, duration: int) {
    function Id(): Key { (job, index) }
    function End(): int { start + duration }
  }

  datatype Solution = Solution(operations: seq<Scheduled>, reportedMakespan: Option<int>)

  datatype ValidationError =
    | UnknownOperation(key: Key)
    | DuplicateOperation(key: Key)
    | NegativeStart(key: Key)
    | Mismatched(key: Key)
    | MissingOperations(missing: set<Key>)
    | PrecedenceViolation(job: int)
    | MachineOverlap(machine: int)

  // ----- flat operation order -----

  function Flatten(jobs: seq<seq<Operation>>): seq<Operation> {
    if jobs == [] then [] else Flatten(jobs[..|jobs| - 1]) + jobs[|jobs| - 1]
  }

  // Flat position of the first operation of job j.
  function Offset(jobs: seq<seq<Operation>>, j: nat): nat
    requires j <= |jobs|
  {
    |Flatten(jobs[..j])|
  }

  lemma {:induction false} FlattenAt(jobs: seq<seq<Operation>>, j: nat, k: nat)
    requires j < |jobs| && k < |jobs[j]|
    ensures Offset(jobs, j) + k < |Flatten(jobs)| && Flatten(jobs)[Offset(jobs, j) + k] == jobs[j][k]
    ensures Offset(jobs, j + 1) == Offset(jobs, j) + |jobs[j]|
  {
    OffsetStep(jobs, j);
    var init := jobs[..|jobs| - 1];
    if j == |jobs| - 1 {
    } else {
      FlattenAt(init, j, k);
      assert init[..j] == jobs[..j];
    }
  }

  lemma OffsetStep(jobs: seq<seq<Operation>>, j: nat)
    requires j < |jobs|
    ensures Offset(jobs, j + 1) == Offset(jobs, j) + |jobs[j]|
    ensures Flatten(jobs[..j + 1]) == Flatten(jobs[..j]) + jobs[j]
  {
    assert jobs[..j + 1][..j] == jobs[..j];
  }

  // Every flat position is position k of some job j.
  lemma {:induction false} FlatPosition(jobs: seq<seq<Operation>>, i: nat) returns (j: nat, k: nat)
    requires i < |Flatten(jobs)|
    ensures j < |jobs| && k < |jobs[j]| && i == Offset(jobs, j) + k
    ensures Flatten(jobs)[i] == jobs[j][k]
  {
    var init := jobs[..|jobs| - 1];
    if i < |Flatten(init)| {
      j, k := FlatPosition(init, i);
      assert init[..j] == jobs[..j];
    } else {
      j, k := |jobs| - 1, i - |Flatten(init)|;
    }
  }

  lemma {:induction false} OffsetMonotone(jobs: seq<seq<Operation>>, j: nat, l: nat)
    requires j <= l <= |jobs|
    ensures Offset(jobs, j) <= Offset(jobs, l)
    decreases l - j
  {
    if j < l {
      OffsetMonotone(jobs, j, l - 1);
      OffsetStep(jobs, l - 1);
    }
  }

  ghost predicate DistinctKeys(ops: seq<Operation>) {
    forall i, l | 0 <= i < |ops| && 0 <= l < |ops| && ops[i].Id() == ops[l].Id() :: i == l
  }

  lemma KeysDistinct(inst: Instance)
    requires inst.WellFormed()
    ensures DistinctKeys(inst.Ops())
  {
    var ops := inst.Ops();
    forall i, l | 0 <= i < |ops| && 0 <= l < |ops| && ops[i].Id() == ops[l].Id()
      ensures i == l
    {
      var j, k := FlatPosition(inst.jobs, i);
      var j', k' := FlatPosition(inst.jobs, l);
      assert inst.OperationOk(j, k) && inst.OperationOk(j', k');
    }
  }

  // ----- acceptance, declaratively -----

  ghost predicate Known(inst: Instance, key: Key) {
    exists i :: 0 <= i < |inst.Ops()| && inst.Ops()[i].Id() == key
  }

  // A scheduled operation repeats an instance operation and starts at 0 or later.
  ghost predicate Matches(inst: Instance, s: Scheduled) {
    && s.start >= 0
    && exists i :: 0 <= i < |inst.Ops()| && inst.Ops()[i] == Operation(s.job, s.index, s.machine, s.duration)
  }

  ghost predicate Complete(inst: Instance, sops: seq<Scheduled>) {
    && (forall i | 0 <= i < |sops| :: Matches(inst, sops[i]))
    && (forall i, l | 0 <= i < |sops| && 0 <= l < |sops| && sops[i].Id() == sops[l].Id() :: i == l)
    && (forall i | 0 <= i < |inst.Ops()| :: inst.Ops()[i].Id() in Starts(sops, |sops|))
  }

  // Start times by key after the first k scheduled operations.
  function Starts(sops: seq<Scheduled>, k: nat): map<Key, int>
    requires k <= |sops|
  {
    if k == 0 then map[] else Starts(sops, k - 1)[sops[k - 1].Id() := sops[k - 1].start]
  }

  ghost predicate InOrder(inst: Instance, starts: map<Key, int>, j: nat, k: nat)
    requires j < |inst.jobs| && k + 1 < |inst.jobs[j]|
  {
    var (prev, cur) := (inst.jobs[j][k], inst.jobs[j][k + 1]);
    prev.Id() in starts && cur.Id() in starts && starts[prev.Id()] + prev.duration <= starts[cur.Id()]
  }

  ghost predicate PrecedenceHolds(inst: Instance, starts: map<Key, int>) {
    forall j, k | 0 <= j < |inst.jobs| && 0 <= k < |inst.jobs[j]| - 1 :: InOrder(inst, starts, j, k)
  }

  // One ends no later than the other starts.
  ghost predicate Apart(a: Scheduled, b: Scheduled) {
    a.End() <= b.start || b.End() <= a.start
  }

  ghost predicate MachinesApart(sops: seq<Scheduled>) {
    forall i, l | 0 <= i < l < |sops| && sops[i].machine == sops[l].machine :: Apart(sops[i], sops[l])
  }

  ghost predicate Accepted(inst: Instance, sops: seq<Scheduled>) {
    && Complete(inst, sops)
    && PrecedenceHolds(inst, Starts(sops, |sops|))
    && MachinesApart(sops)
  }

  ghost predicate IsMakespan(sops: seq<Scheduled>, m: int) {
    && (forall i | 0 <= i < |sops| :: sops[i].End() <= m)
    && (exists i :: 0 <= i < |sops| && sops[i].End() == m)
  }

  // ----- the sorted neighbour test -----

  type Window = Keyed<Key>

  ghost predicate Disjoint(a: Window, b: Window) {
    a.middle <= b.major || b.middle <= a.major
  }

  ghost predicate Pairwise(s: seq<Window>) {
    forall i, l | 0 <= i < l < |s| :: Disjoint(s[i], s[l])
  }

  ghost predicate Neighbours(s: seq<Window>) {
    forall i | 0 <= i < |s| - 1 :: NoOverlap(s, i)
  }

  ghost predicate NoOverlap(s: seq<Window>, i: nat)
    requires i + 1 < |s|
  {
    s[i].middle <= s[i + 1].major
  }

  ghost predicate Intervals(s: seq<Window>) {
    forall i | 0 <= i < |s| :: s[i].major <= s[i].middle
  }

  lemma {:induction false} InsertPairwise(x: Window, s: seq<Window>)
    ensures Pairwise(Insert(x, s)) <==> Pairwise(s) && AllDisjoint(x, s)
  {
    if s == [] || !s[0].AtMost(x) {
      PairwiseCons(x, s);
    } else {
      InsertPairwise(x, s[1..]);
      PairwiseCons(s[0], Insert(x, s[1..]));
      PairwiseCons(s[0], s[1..]);
      assert s == [s[0]] + s[1..];
      AllDisjointInsert(s[0], x, s[1..]);
      AllDisjointCons(x, s[0], s[1..]);
    }
  }

  lemma AllDisjointCons(x: Window, y: Window, s: seq<Window>)
    ensures AllDisjoint(x, [y] + s) <==> Disjoint(x, y) && AllDisjoint(x, s)
  {
    var t := [y] + s;
    if AllDisjoint(x, t) {
      assert Disjoint(x, t[0]);
      forall i | 0 <= i < |s| ensures Disjoint(x, s[i]) {
        assert Disjoint(x, t[i + 1]);
      }
    }
  }

  ghost predicate AllDisjoint(x: Window, s: seq<Window>) {
    forall i | 0 <= i < |s| :: Disjoint(x, s[i])
  }

  lemma PairwiseCons(x: Window, s: seq<Window>)
    ensures Pairwise([x] + s) <==> Pairwise(s) && AllDisjoint(x, s)
  {
    var t := [x] + s;
    if Pairwise(t) {
      forall i, l | 0 <= i < l < |s| ensures Disjoint(s[i], s[l]) {
        assert Disjoint(t[i + 1], t[l + 1]);
      }
      forall i | 0 <= i < |s| ensures Disjoint(x, s[i]) {
        assert Disjoint(t[0], t[i + 1]);
      }
    }
  }

  lemma AllDisjointMembers(y: Window, s: seq<Window>, t: seq<Window>)
    requires Permutation(t, s) && AllDisjoint(y, s)
    ensures AllDisjoint(y, t)
  {
    forall i | 0 <= i < |t| ensures Disjoint(y, t[i]) {
      var j := PermutationMember(t, s, i);
    }
  }

  lemma AllDisjointInsert(y: Window, x: Window, s: seq<Window>)
    ensures AllDisjoint(y, Insert(x, s)) <==> AllDisjoint(y, s) && Disjoint(y, x)
  {
    InsertMembers(x, s);
    AllDisjointCons(y, x, s);
    if AllDisjoint(y, [x] + s) { AllDisjointMembers(y, [x] + s, Insert(x, s)); }
    if AllDisjoint(y, Insert(x, s)) { AllDisjointMembers(y, Insert(x, s), [x] + s); }
  }

  lemma PairwiseSnoc(s: seq<Window>, x: Window)
    ensures Pairwise(s + [x]) <==> Pairwise(s) && AllDisjoint(x, s)
  {
    var t := s + [x];
    if Pairwise(t) {
      forall i, l | 0 <= i < l < |s| ensures Disjoint(s[i], s[l]) {
        assert Disjoint(t[i], t[l]);
      }
      forall i | 0 <= i < |s| ensures Disjoint(x, s[i]) {
        assert Disjoint(t[i], t[|s|]);
      }
    }
  }

  lemma {:induction false} SortPairwise(s: seq<Window>)
    ensures Pairwise(Sort(s)) <==> Pairwise(s)
  {
    if s != [] {
      var init, last := s[..|s| - 1], s[|s| - 1];
      SortPairwise(init);
      InsertPairwise(last, Sort(init));
      SortPermutes(init);
      if AllDisjoint(last, init) { AllDisjointMembers(last, init, Sort(init)); }
      if AllDisjoint(last, Sort(init)) { AllDisjointMembers(last, Sort(init), init); }
      PairwiseSnoc(init, last);
      assert s == init + [last];
    }
  }

  lemma {:induction false} ChainApart(s: seq<Window>, i: nat, l: nat)
    requires Intervals(s) && Neighbours(s) && i < l < |s|
    ensures s[i].middle <= s[l].major
    decreases l - i
  {
    assert NoOverlap(s, i);
    if i + 1 < l { ChainApart(s, i + 1, l); }
  }

  // The neighbour test after sorting by (start, end) decides pairwise disjointness,
  // zero-length windows included.
  lemma NeighbourTestExact(s: seq<Window>)
    requires Intervals(s) && forall i | 0 <= i < |s| :: s[i].minor == 0
    ensures Neighbours(Sort(s)) <==> Pairwise(s)
  {
    SortPairwise(s);
    SortIntervals(s);
    if Neighbours(Sort(s)) { NeighboursPairwise(Sort(s)); }
    if Pairwise(Sort(s)) { PairwiseNeighbours(Sort(s)); }
  }

  lemma SortIntervals(s: seq<Window>)
    requires Intervals(s) && forall i | 0 <= i < |s| :: s[i].minor == 0
    ensures Intervals(Sort(s)) && Sorted(Sort(s)) && forall i | 0 <= i < |Sort(s)| :: Sort(s)[i].minor == 0
  {
    SortSorted(s);
    SortPermutes(s);
    forall i | 0 <= i < |Sort(s)| ensures Sort(s)[i].major <= Sort(s)[i].middle && Sort(s)[i].minor == 0 {
      var j := PermutationMember(Sort(s), s, i);
    }
  }

  lemma NeighboursPairwise(t: seq<Window>)
    requires Intervals(t) && Neighbours(t)
    ensures Pairwise(t)
  {
    forall i, l | 0 <= i < l < |t| ensures Disjoint(t[i], t[l]) {
      ChainApart(t, i, l);
    }
  }

  lemma PairwiseNeighbours(t: seq<Window>)
    requires Intervals(t) && Sorted(t) && Pairwise(t) && forall i | 0 <= i < |t| :: t[i].minor == 0
    ensures Neighbours(t)
  {
    forall i | 0 <= i < |t| - 1 ensures NoOverlap(t, i) {
      assert Disjoint(t[i], t[i + 1]) && t[i].AtMost(t[i + 1]);
    }
  }
}
