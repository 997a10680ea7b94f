// The disjunctive model: one integer start per operation, one binary per pair of operations
// sharing a machine, and a makespan column, inside a horizon of all durations.
module JobShopMilp {
  import opened Milp
  import opened JobShop

  // ----- constants -----

  ghost function DurationSum(ops: seq<Operation>, k: nat): int
    requires k <= |ops|
  {
    if k == 0 then 0 else DurationSum(ops, k - 1) + ops[k - 1].duration
  }

  // Sum of all durations, at least 1.
  ghost function Horizon(ops: seq<Operation>): (h: int)
    ensures h >= 1 && h >= DurationSum(ops, |ops|) && (h == 1 || h == DurationSum(ops, |ops|))
  {
    if DurationSum(ops, |ops|) > 1 then DurationSum(ops, |ops|) else 1
  }

  ghost predicate IsLongest(ops: seq<Operation>, d: int) {
    (forall i | 0 <= i < |ops| :: ops[i].duration <= d) && exists i :: 0 <= i < |ops| && ops[i].duration == d
  }

  method Constants(ops: seq<Operation>) returns (horizon: int, longest: int)
    requires ops != []
    ensures horizon == Horizon(ops) && IsLongest(ops, longest)
  {
    var total := 0;
    longest := ops[0].duration;
    for i := 0 to |ops|
      invariant total == DurationSum(ops, i)
      invariant forall l | 0 <= l < i :: ops[l].duration <= longest
      invariant exists l :: 0 <= l < |ops| && ops[l].duration == longest
    {
      total := total + ops[i].duration;
      if ops[i].duration > longest { longest := ops[i].duration; }
    }
    horizon := if total > 1 then total else 1;
  }

  // ----- pairs sharing a machine -----

  // The operations of one machine, in flat order.
  function Group(ops: seq<Operation>, m: int, k: nat): seq<nat>
    requires k <= |ops|
  {
    if k == 0 then [] else Group(ops, m, k - 1) + (if ops[k - 1].machine == m then [k - 1] else [])
  }

  lemma {:induction false} GroupMembers(ops: seq<Operation>, m: int, k: nat)
    requires k <= |ops|
    ensures forall i | 0 <= i < |Group(ops, m, k)| :: Group(ops, m, k)[i] < k && ops[Group(ops, m, k)[i]].machine == m
    ensures forall i, l | 0 <= i < l < |Group(ops, m, k)| :: Group(ops, m, k)[i] < Group(ops, m, k)[l]
  {
    if k > 0 { GroupMembers(ops, m, k - 1); }
  }

  lemma {:induction false} GroupHolds(ops: seq<Operation>, m: int, k: nat, v: nat) returns (i: nat)
    requires v < k <= |ops| && ops[v].machine == m
    ensures i < |Group(ops, m, k)| && Group(ops, m, k)[i] == v
  {
    if v == k - 1 { i := |Group(ops, m, k)| - 1; } else { i := GroupHolds(ops, m, k - 1, v); }
  }

  // Pairs (group[a], group[l]) for a < l < b.
  ghost function PairsFrom(group: seq<nat>, a: nat, b: nat): (pairs: seq<(nat, nat)>)
    requires a < b <= |group|
    ensures |pairs| == b - a - 1
  {
    if b == a + 1 then [] else PairsFrom(group, a, b - 1) + [(group[a], group[b - 1])]
  }

  // n - 1 pairs for the first member, n - 2 for the second, and so on.
  ghost function Falling(n: nat, a: nat): nat
    requires a <= n
  {
    if a == 0 then 0 else Falling(n, a - 1) + (n - a)
  }

  ghost function GroupPairs(group: seq<nat>, a: nat): (pairs: seq<(nat, nat)>)
    requires a <= |group|
    ensures |pairs| == Falling(|group|, a)
  {
    if a == 0 then [] else GroupPairs(group, a - 1) + PairsFrom(group, a - 1, |group|)
  }

  // All pairs of the first m machines.
  ghost function MachinePairs(ops: seq<Operation>, m: nat): seq<(nat, nat)> {
    if m == 0 then []
    else
      var group := Group(ops, m - 1, |ops|);
      MachinePairs(ops, m - 1) + GroupPairs(group, |group|)
  }

  lemma {:induction false} FallingSum(n: nat, a: nat)
    requires a <= n
    ensures 2 * Falling(n, a) == a * (2 * n - a - 1)
  {
    if a > 0 {
      FallingSum(n, a - 1);
      TriangleStep(n, a);
    }
  }

  lemma TriangleStep(n: int, a: int)
    ensures a * (2 * n - a - 1) == (a - 1) * (2 * n - a) + 2 * (n - a)
  {
  }

  lemma AllPairs(n: nat)
    ensures Falling(n, n) == n * (n - 1) / 2
  {
    FallingSum(n, n);
    assert 2 * n - n - 1 == n - 1;
  }

  ghost predicate GoodPair(ops: seq<Operation>, p: (nat, nat)) {
    p.0 < p.1 < |ops| && ops[p.0].machine == ops[p.1].machine
  }

  ghost predicate GoodPairs(ops: seq<Operation>, pairs: seq<(nat, nat)>) {
    forall i | 0 <= i < |pairs| :: GoodPair(ops, pairs[i])
  }

  lemma {:induction false} PairsFromGood(ops: seq<Operation>, m: int, a: nat, b: nat)
    requires a < b <= |Group(ops, m, |ops|)|
    ensures GoodPairs(ops, PairsFrom(Group(ops, m, |ops|), a, b))
  {
    if b > a + 1 {
      PairsFromGood(ops, m, a, b - 1);
      GroupMembers(ops, m, |ops|);
    }
  }

  lemma {:induction false} GroupPairsGood(ops: seq<Operation>, m: int, a: nat)
    requires a <= |Group(ops, m, |ops|)|
    ensures GoodPairs(ops, GroupPairs(Group(ops, m, |ops|), a))
  {
    if a > 0 {
      GroupPairsGood(ops, m, a - 1);
      PairsFromGood(ops, m, a - 1, |Group(ops, m, |ops|)|);
    }
  }

  lemma {:induction false} MachinePairsGood(ops: seq<Operation>, m: nat)
    ensures GoodPairs(ops, MachinePairs(ops, m))
  {
    if m > 0 {
      MachinePairsGood(ops, m - 1);
      GroupPairsGood(ops, m - 1, |Group(ops, m - 1, |ops|)|);
    }
  }

  lemma {:induction false} PairsFromHolds(group: seq<nat>, a: nat, b: nat, l: nat)
    requires a < l < b <= |group|
    ensures (group[a], group[l]) in PairsFrom(group, a, b)
  {
    if l < b - 1 { PairsFromHolds(group, a, b - 1, l); }
  }

  lemma {:induction false} GroupPairsHolds(group: seq<nat>, a: nat, i: nat, l: nat)
    requires i < a <= |group| && i < l < |group|
    ensures (group[i], group[l]) in GroupPairs(group, a)
  {
    if i < a - 1 { GroupPairsHolds(group, a - 1, i, l); } else { PairsFromHolds(group, i, |group|, l); }
  }

  lemma GroupPairsComplete(ops: seq<Operation>, m: int, u: nat, v: nat)
    requires u < v < |ops| && ops[u].machine == ops[v].machine == m
    ensures (u, v) in GroupPairs(Group(ops, m, |ops|), |Group(ops, m, |ops|)|)
  {
    var group := Group(ops, m, |ops|);
    var i := GroupHolds(ops, m, |ops|, u);
    var l := GroupHolds(ops, m, |ops|, v);
    GroupMembers(ops, m, |ops|);
    assert i < l;
    GroupPairsHolds(group, |group|, i, l);
  }

  lemma InConcat(a: seq<(nat, nat)>, b: seq<(nat, nat)>, p: (nat, nat))
    requires p in a || p in b
    ensures p in a + b
  {
  }

  // Pairs of earlier machines stay, and those of machine m join.
  lemma {:induction false} PairsStay(ops: seq<Operation>, k: nat, m: nat, p: (nat, nat))
    requires k <= m && p in MachinePairs(ops, k)
    ensures p in MachinePairs(ops, m)
  {
    if k < m {
      PairsStay(ops, k, m - 1, p);
      InConcat(MachinePairs(ops, m - 1), GroupPairs(Group(ops, m - 1, |ops|), |Group(ops, m - 1, |ops|)|), p);
    }
  }

  lemma PairsJoin(ops: seq<Operation>, m: nat, p: (nat, nat))
    requires p in GroupPairs(Group(ops, m, |ops|), |Group(ops, m, |ops|)|)
    ensures p in MachinePairs(ops, m + 1)
  {
    InConcat(MachinePairs(ops, m), GroupPairs(Group(ops, m, |ops|), |Group(ops, m, |ops|)|), p);
  }

  // Any two operations of one machine below m form a pair.
  lemma MachinePairsHold(ops: seq<Operation>, m: nat, u: nat, v: nat)
    requires u < v < |ops| && ops[u].machine == ops[v].machine && 0 <= ops[u].machine < m
    ensures (u, v) in MachinePairs(ops, m)
  {
    GroupPairsComplete(ops, ops[u].machine, u, v);
    PairsJoin(ops, ops[u].machine, (u, v));
    PairsStay(ops, ops[u].machine + 1, m, (u, v));
  }

  // ----- rows -----

  // y = 0 puts a after b, y = 1 puts b after a.
  ghost function FirstRow(ops: seq<Operation>, bigM: int, p: (nat, nat), y: nat): Row
    requires GoodPair(ops, p)
  {
    Row([(p.0, 1.0), (p.1, -1.0), (y, bigM as real)], At(ops[p.1].duration as real), NoBound)
  }

  ghost function SecondRow(ops: seq<Operation>, bigM: int, p: (nat, nat), y: nat): Row
    requires GoodPair(ops, p)
  {
    Row([(p.1, 1.0), (p.0, -1.0), (y, -(bigM as real))], At(ops[p.0].duration as real - bigM as real), NoBound)
  }

  ghost function PairRows(ops: seq<Operation>, bigM: int, pairs: seq<(nat, nat)>, k: nat): (rows: seq<Row>)
    requires k <= |pairs| && GoodPairs(ops, pairs)
    ensures |rows| == 2 * k
  {
    if k == 0 then []
    else
      PairRows(ops, bigM, pairs, k - 1) +
      [FirstRow(ops, bigM, pairs[k - 1], |ops| + k - 1), SecondRow(ops, bigM, pairs[k - 1], |ops| + k - 1)]
  }

  ghost function StepRow(ops: seq<Operation>, u: nat): Row
    requires u + 1 < |ops|
  {
    Row([(u + 1, 1.0), (u, -1.0)], At(ops[u].duration as real), NoBound)
  }

  // Rows of the first k steps inside a job that starts at the given flat position.
  ghost function StepRows(ops: seq<Operation>, first: nat, k: nat): seq<Row>
    requires k == 0 || first + k < |ops|
  {
    if k == 0 then [] else StepRows(ops, first, k - 1) + [StepRow(ops, first + k - 1)]
  }

  ghost function Steps(job: seq<Operation>): nat {
    if job == [] then 0 else |job| - 1
  }

  ghost function JobRows(inst: Instance, j: nat): seq<Row>
    requires j <= |inst.jobs|
  {
    if j == 0 then []
    else
      JobFits(inst, j - 1);
      JobRows(inst, j - 1) + StepRows(inst.Ops(), Offset(inst.jobs, j - 1), Steps(inst.jobs[j - 1]))
  }

  lemma JobFits(inst: Instance, j: nat)
    requires j < |inst.jobs|
    ensures Offset(inst.jobs, j) + |inst.jobs[j]| == Offset(inst.jobs, j + 1) <= |inst.Ops()|
  {
    OffsetStep(inst.jobs, j);
    OffsetMonotone(inst.jobs, j + 1, |inst.jobs|);
    assert inst.jobs[..|inst.jobs|] == inst.jobs;
  }

  ghost function EndRow(ops: seq<Operation>, last: nat, i: nat): Row
    requires i < |ops|
  {
    Row([(last, 1.0), (i, -1.0)], At(ops[i].duration as real), NoBound)
  }

  ghost function EndRows(ops: seq<Operation>, last: nat, k: nat): seq<Row>
    requires k <= |ops|
  {
    if k == 0 then [] else EndRows(ops, last, k - 1) + [EndRow(ops, last, k - 1)]
  }

  ghost function Pairs(inst: Instance): (pairs: seq<(nat, nat)>)
    ensures GoodPairs(inst.Ops(), pairs)
  {
    MachinePairsGood(inst.Ops(), inst.numMachines);
    MachinePairs(inst.Ops(), inst.numMachines)
  }

  ghost function RowsFor(inst: Instance, ops: seq<Operation>, pairs: seq<(nat, nat)>, bigM: int): seq<Row>
    requires GoodPairs(ops, pairs)
  {
    PairRows(ops, bigM, pairs, |pairs|) + JobRows(inst, |inst.jobs|) + EndRows(ops, |ops| + |pairs|, |ops|)
  }

  ghost function ModelRows(inst: Instance, bigM: int): seq<Row> {
    RowsFor(inst, inst.Ops(), Pairs(inst), bigM)
  }

  // Starts, pair binaries, makespan; every column integer.
  ghost function ModelCols(inst: Instance): (cols: seq<Col>)
    ensures |cols| == |inst.Ops()| + |Pairs(inst)| + 1
  {
    var h := Horizon(inst.Ops()) as real;
    seq(|inst.Ops()|, i => Col(0.0, h, 0.0, true)) + seq(|Pairs(inst)|, i => Col(0.0, 1.0, 0.0, true)) +
    [Col(0.0, h, 1.0, true)]
  }

  // ----- the builder -----

  // The number of pairs in the groups of the machines.
  method CountPairs(ops: seq<Operation>, numMachines: nat) returns (count: nat)
    ensures count == |MachinePairs(ops, numMachines)|
  {
    count := 0;
    for m := 0 to numMachines
      invariant count == |MachinePairs(ops, m)|
    {
      var group := Group(ops, m, |ops|);
      AllPairs(|group|);
      count := count + |group| * (|group| - 1) / 2;
    }
  }

  method AddColumns(inst: Instance, horizon: int, numPairs: nat, model: ModelBuilder)
    requires model.Valid() && model.cols == []
    requires horizon == Horizon(inst.Ops()) && numPairs == |Pairs(inst)|
    modifies model
    ensures model.Valid() && model.Rows() == old(model.Rows()) && model.cols == ModelCols(inst)
  {
    var n := |inst.Ops()|;
    for i := 0 to n
      invariant model.Valid() && model.Rows() == old(model.Rows()) && model.cols == ModelCols(inst)[..i]
    {
      var _ := model.AddCol(0.0, horizon as real, 0.0, true);
    }
    for i := 0 to numPairs
      invariant model.Valid() && model.Rows() == old(model.Rows()) && model.cols == ModelCols(inst)[..n + i]
    {
      var _ := model.AddCol(0.0, 1.0, 0.0, true);
    }
    var _ := model.AddCol(0.0, horizon as real, 1.0, true);
  }

  // The rows emitted for the pairs so far; the cursor is the next binary column.
  ghost predicate PairsEmitted(ops: seq<Operation>, bigM: int, pairs: seq<(nat, nat)>, cursor: nat, rows: seq<Row>) {
    GoodPairs(ops, pairs) && cursor == |ops| + |pairs| && rows == PairRows(ops, bigM, pairs, |pairs|)
  }

  lemma {:induction false} PairRowsPrefix(ops: seq<Operation>, bigM: int, pairs: seq<(nat, nat)>, more: seq<(nat, nat)>, k: nat)
    requires k <= |pairs| && GoodPairs(ops, pairs + more)
    ensures GoodPairs(ops, pairs) && PairRows(ops, bigM, pairs + more, k) == PairRows(ops, bigM, pairs, k)
  {
    assert forall i | 0 <= i < |pairs| :: pairs[i] == (pairs + more)[i];
    if k > 0 { PairRowsPrefix(ops, bigM, pairs, more, k - 1); }
  }

  method AddPair(ops: seq<Operation>, bigM: int, a: nat, b: nat, cursor: nat, model: ModelBuilder, ghost pairs: seq<(nat, nat)>)
    returns (cursor': nat)
    requires model.Valid() && PairsEmitted(ops, bigM, pairs, cursor, model.Rows()) && GoodPair(ops, (a, b))
    modifies model
    ensures model.Valid() && model.cols == old(model.cols)
    ensures PairsEmitted(ops, bigM, pairs + [(a, b)], cursor', model.Rows())
  {
    model.AddRow([(a, 1.0), (b, -1.0), (cursor, bigM as real)], At(ops[b].duration as real), NoBound);
    model.AddRow([(b, 1.0), (a, -1.0), (cursor, -(bigM as real))], At(ops[a].duration as real - bigM as real), NoBound);
    cursor' := cursor + 1;
    PairRowsPrefix(ops, bigM, pairs, [(a, b)], |pairs|);
  }

  // Pairs the a-th operation of a group with all later ones.
  method AddPairsFrom(ops: seq<Operation>, bigM: int, m: nat, group: seq<nat>, a: nat, cursor: nat, model: ModelBuilder,
                      ghost before: seq<(nat, nat)>)
    returns (cursor': nat)
    requires model.Valid() && PairsEmitted(ops, bigM, before, cursor, model.Rows())
    requires group == Group(ops, m, |ops|) && a < |group|
    modifies model
    ensures model.Valid() && model.cols == old(model.cols)
    ensures PairsEmitted(ops, bigM, before + PairsFrom(group, a, |group|), cursor', model.Rows())
  {
    cursor' := cursor;
    assert before + PairsFrom(group, a, a + 1) == before;
    for b := a + 1 to |group|
      invariant model.Valid() && model.cols == old(model.cols)
      invariant PairsEmitted(ops, bigM, before + PairsFrom(group, a, b), cursor', model.Rows())
    {
      GroupPairGood(ops, m, a, b);
      cursor' := AddPair(ops, bigM, group[a], group[b], cursor', model, before + PairsFrom(group, a, b));
      assert before + PairsFrom(group, a, b) + [(group[a], group[b])] == before + PairsFrom(group, a, b + 1);
    }
  }

  lemma GroupPairGood(ops: seq<Operation>, m: int, a: nat, b: nat)
    requires a < b < |Group(ops, m, |ops|)|
    ensures GoodPair(ops, (Group(ops, m, |ops|)[a], Group(ops, m, |ops|)[b]))
  {
    GroupMembers(ops, m, |ops|);
  }

  lemma GroupPairsStep(base: seq<(nat, nat)>, group: seq<nat>, a: nat)
    requires a < |group|
    ensures base + GroupPairs(group, a) + PairsFrom(group, a, |group|) == base + GroupPairs(group, a + 1)
  {
  }

  method AddGroupRows(ops: seq<Operation>, bigM: int, m: nat, cursor: nat, model: ModelBuilder)
    returns (cursor': nat)
    requires model.Valid() && PairsEmitted(ops, bigM, MachinePairs(ops, m), cursor, model.Rows())
    modifies model
    ensures model.Valid() && model.cols == old(model.cols)
    ensures PairsEmitted(ops, bigM, MachinePairs(ops, m + 1), cursor', model.Rows())
  {
    var group := Group(ops, m, |ops|);
    ghost var base := MachinePairs(ops, m);
    cursor' := cursor;
    assert base + GroupPairs(group, 0) == base;
    for a := 0 to |group|
      invariant model.Valid() && model.cols == old(model.cols)
      invariant PairsEmitted(ops, bigM, base + GroupPairs(group, a), cursor', model.Rows())
    {
      cursor' := AddPairsFrom(ops, bigM, m, group, a, cursor', model, base + GroupPairs(group, a));
      GroupPairsStep(base, group, a);
    }
    assert base + GroupPairs(group, |group|) == MachinePairs(ops, m + 1);
  }

  method AddPairRows(inst: Instance, bigM: int, model: ModelBuilder)
    requires model.Valid() && model.Rows() == []
    modifies model
    ensures model.Valid() && model.cols == old(model.cols)
    ensures model.Rows() == PairRows(inst.Ops(), bigM, Pairs(inst), |Pairs(inst)|)
  {
    var cursor: nat := |inst.Ops()|;
    assert MachinePairs(inst.Ops(), 0) == [];
    for m := 0 to inst.numMachines
      invariant model.Valid() && model.cols == old(model.cols)
      invariant PairsEmitted(inst.Ops(), bigM, MachinePairs(inst.Ops(), m), cursor, model.Rows())
    {
      cursor := AddGroupRows(inst.Ops(), bigM, m, cursor, model);
    }
  }

  method AddStepRows(ops: seq<Operation>, first: nat, size: nat, model: ModelBuilder)
    requires model.Valid() && first + size <= |ops|
    modifies model
    ensures model.Valid() && model.cols == old(model.cols)
    ensures model.Rows() == old(model.Rows()) + StepRows(ops, first, if size == 0 then 0 else size - 1)
  {
    var u := first;
    while u + 1 < first + size
      invariant first <= u && (size > 0 ==> u < first + size)
      invariant size == 0 ==> u == first
      invariant model.Valid() && model.cols == old(model.cols)
      invariant model.Rows() == old(model.Rows()) + StepRows(ops, first, u - first)
    {
      model.AddRow([(u + 1, 1.0), (u, -1.0)], At(ops[u].duration as real), NoBound);
      assert StepRows(ops, first, u + 1 - first) == StepRows(ops, first, u - first) + [StepRow(ops, u)];
      u := u + 1;
    }
  }

  method AddJobRows(inst: Instance, model: ModelBuilder)
    requires model.Valid()
    modifies model
    ensures model.Valid() && model.cols == old(model.cols)
    ensures model.Rows() == old(model.Rows()) + JobRows(inst, |inst.jobs|)
  {
    var flatIndex := 0;
    for j := 0 to |inst.jobs|
      invariant model.Valid() && model.cols == old(model.cols) && flatIndex == Offset(inst.jobs, j)
      invariant model.Rows() == old(model.Rows()) + JobRows(inst, j)
    {
      ghost var before := model.Rows();
      JobFits(inst, j);
      AddStepRows(inst.Ops(), flatIndex, |inst.jobs[j]|, model);
      assert model.Rows() == before + StepRows(inst.Ops(), flatIndex, Steps(inst.jobs[j]));
      flatIndex := flatIndex + |inst.jobs[j]|;
    }
  }

  method AddEndRows(ops: seq<Operation>, last: nat, model: ModelBuilder)
    requires model.Valid()
    modifies model
    ensures model.Valid() && model.cols == old(model.cols)
    ensures model.Rows() == old(model.Rows()) + EndRows(ops, last, |ops|)
  {
    for i := 0 to |ops|
      invariant model.Valid() && model.cols == old(model.cols)
      invariant model.Rows() == old(model.Rows()) + EndRows(ops, last, i)
    {
      model.AddRow([(last, 1.0), (i, -1.0)], At(ops[i].duration as real), NoBound);
    }
  }

  lemma RowsInOrder(inst: Instance, bigM: int, pairRows: seq<Row>, jobRows: seq<Row>, rows: seq<Row>)
    requires pairRows == PairRows(inst.Ops(), bigM, Pairs(inst), |Pairs(inst)|)
    requires jobRows == pairRows + JobRows(inst, |inst.jobs|)
    requires rows == jobRows + EndRows(inst.Ops(), |inst.Ops()| + |Pairs(inst)|, |inst.Ops()|)
    ensures rows == ModelRows(inst, bigM)
  {
  }

  method AddRows(inst: Instance, bigM: int, makespanCol: nat, model: ModelBuilder)
    requires model.Valid() && model.Rows() == [] && makespanCol == |inst.Ops()| + |Pairs(inst)|
    modifies model
    ensures model.Valid() && model.cols == old(model.cols)
    ensures model.Rows() == ModelRows(inst, bigM)
  {
    AddPairRows(inst, bigM, model);
    ghost var pairRows := model.Rows();
    AddJobRows(inst, model);
    ghost var jobRows := model.Rows();
    AddEndRows(inst.Ops(), makespanCol, model);
    RowsInOrder(inst, bigM, pairRows, jobRows, model.Rows());
  }

  method BuildMilp(inst: Instance) returns (model: ModelBuilder, bigM: int)
    requires inst.WellFormed()
    ensures fresh(model) && model.Valid() && model.cols == ModelCols(inst)
    ensures IsLongest(inst.Ops(), bigM - Horizon(inst.Ops()))
    ensures model.Rows() == ModelRows(inst, bigM)
  {
    var ops := inst.Ops();
    var horizon, longest := Constants(ops);
    bigM := horizon + longest;
    var numPairs := CountPairs(ops, inst.numMachines);
    model := new ModelBuilder();
    AddColumns(inst, horizon, numPairs, model);
    AddRows(inst, bigM, |ops| + numPairs, model);
  }
}
