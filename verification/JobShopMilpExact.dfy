// What the disjunctive rows mean: integer points are accepted schedules inside the horizon
// and back, and the horizon cuts off no optimum.
module JobShopMilpExact {
  import opened Milp
  import opened JobShop
  import opened JobShopValidate
  import opened JobShopMilp

  ghost predicate BigEnough(ops: seq<Operation>, bigM: int) {
    forall i | 0 <= i < |ops| :: 0 <= ops[i].duration && Horizon(ops) + ops[i].duration <= bigM
  }

  lemma EmittedIsBigEnough(inst: Instance, bigM: int)
    requires inst.WellFormed() && IsLongest(inst.Ops(), bigM - Horizon(inst.Ops()))
    ensures BigEnough(inst.Ops(), bigM)
  {
    forall i | 0 <= i < |inst.Ops()| ensures 0 <= inst.Ops()[i].duration {
      var j, k := FlatPosition(inst.jobs, i);
      assert inst.OperationOk(j, k);
    }
  }

  // What is minimised is the makespan column: starts and binaries are free.
  lemma MakespanIsObjective(inst: Instance, v: seq<real>)
    requires |v| == |ModelCols(inst)|
    ensures Objective(ModelCols(inst), v, |v|) == v[|v| - 1]
  {
    StartsAndBinariesFree(inst, v, |v| - 1);
    assert ModelCols(inst)[|v| - 1].cost == 1.0;
  }

  lemma {:induction false} StartsAndBinariesFree(inst: Instance, v: seq<real>, k: nat)
    requires k < |v| == |ModelCols(inst)|
    ensures Objective(ModelCols(inst), v, k) == 0.0
  {
    if k > 0 {
      StartsAndBinariesFree(inst, v, k - 1);
      assert ModelCols(inst)[k - 1].cost == 0.0;
    }
  }

  // ----- one row at a time -----

  ghost predicate PairOrdered(ops: seq<Operation>, p: (nat, nat), y: real, v: seq<real>)
    requires GoodPair(ops, p) && |ops| <= |v|
  {
    if y == 0.0 then v[p.1] + ops[p.1].duration as real <= v[p.0]
    else v[p.0] + ops[p.0].duration as real <= v[p.1]
  }

  // With starts inside the horizon the inactive row of a pair never binds.
  lemma PairMeaning(ops: seq<Operation>, bigM: int, p: (nat, nat), y: nat, v: seq<real>)
    requires BigEnough(ops, bigM) && GoodPair(ops, p) && |ops| <= y < |v| && (v[y] == 0.0 || v[y] == 1.0)
    requires forall i | 0 <= i < |ops| :: 0.0 <= v[i] <= Horizon(ops) as real
    ensures RowHolds(FirstRow(ops, bigM, p, y), v) && RowHolds(SecondRow(ops, bigM, p, y), v) <==> PairOrdered(ops, p, v[y], v)
  {
    DotThree((p.0, 1.0), (p.1, -1.0), (y, bigM as real), v);
    DotThree((p.1, 1.0), (p.0, -1.0), (y, -(bigM as real)), v);
    assert Activity(FirstRow(ops, bigM, p, y), v) == v[p.0] - v[p.1] + bigM as real * v[y];
    assert Activity(SecondRow(ops, bigM, p, y), v) == v[p.1] - v[p.0] - bigM as real * v[y];
  }

  ghost predicate PairsOrdered(ops: seq<Operation>, pairs: seq<(nat, nat)>, k: nat, v: seq<real>)
    requires GoodPairs(ops, pairs) && k <= |pairs| && |ops| + |pairs| <= |v|
  {
    forall q | 0 <= q < k :: PairOrdered(ops, pairs[q], Binary(ops, v, q), v)
  }

  ghost function Binary(ops: seq<Operation>, v: seq<real>, q: nat): real
    requires |ops| + q < |v|
  {
    v[|ops| + q]
  }

  ghost predicate BinariesAndStarts(ops: seq<Operation>, pairs: seq<(nat, nat)>, v: seq<real>) {
    && |ops| + |pairs| <= |v|
    && (forall i | 0 <= i < |ops| :: 0.0 <= v[i] <= Horizon(ops) as real)
    && (forall q | 0 <= q < |pairs| :: BinaryAt(v, |ops|, q))
  }

  ghost predicate BinaryAt(v: seq<real>, base: nat, q: nat)
    requires base + q < |v|
  {
    v[base + q] == 0.0 || v[base + q] == 1.0
  }

  lemma {:induction false} PairRowsMeaning(ops: seq<Operation>, bigM: int, pairs: seq<(nat, nat)>, k: nat, v: seq<real>)
    requires BigEnough(ops, bigM) && GoodPairs(ops, pairs) && k <= |pairs| && BinariesAndStarts(ops, pairs, v)
    ensures RowsHold(PairRows(ops, bigM, pairs, k), v) <==> PairsOrdered(ops, pairs, k, v)
  {
    if k > 0 {
      PairRowsMeaning(ops, bigM, pairs, k - 1, v);
      var p, y := pairs[k - 1], |ops| + k - 1;
      assert BinaryAt(v, |ops|, k - 1);
      var two := [FirstRow(ops, bigM, p, y), SecondRow(ops, bigM, p, y)];
      RowsHoldConcat(PairRows(ops, bigM, pairs, k - 1), two, v);
      assert RowsHold(two, v) <==> RowHolds(two[0], v) && RowHolds(two[1], v);
      PairMeaning(ops, bigM, p, y, v);
    }
  }

  ghost predicate StepHolds(ops: seq<Operation>, u: nat, v: seq<real>)
    requires u + 1 < |ops| <= |v|
  {
    v[u] + ops[u].duration as real <= v[u + 1]
  }

  lemma {:induction false} StepRowsMeaning(ops: seq<Operation>, first: nat, k: nat, v: seq<real>)
    requires (k == 0 || first + k < |ops|) && |ops| <= |v|
    ensures RowsHold(StepRows(ops, first, k), v) <==> forall u: nat | first <= u < first + k :: StepHolds(ops, u, v)
  {
    if k > 0 {
      StepRowsMeaning(ops, first, k - 1, v);
      var u := first + k - 1;
      RowsHoldConcat(StepRows(ops, first, k - 1), [StepRow(ops, u)], v);
      assert RowsHold([StepRow(ops, u)], v) <==> RowHolds([StepRow(ops, u)][0], v);
      DotTwo((u + 1, 1.0), (u, -1.0), v);
      assert RowHolds(StepRow(ops, u), v) <==> StepHolds(ops, u, v);
    }
  }

  // Steps of the first j jobs.
  ghost predicate JobsOrdered(inst: Instance, j: nat, v: seq<real>)
    requires j <= |inst.jobs| && |inst.Ops()| <= |v|
  {
    forall i: nat | i < j :: JobOrdered(inst, i, v)
  }

  ghost predicate JobOrdered(inst: Instance, i: nat, v: seq<real>)
    requires i < |inst.jobs| && |inst.Ops()| <= |v|
  {
    forall u: nat | InsideJob(inst, i, u) :: StepHolds(inst.Ops(), u, v)
  }

  // u and u + 1 both belong to job i.
  ghost predicate InsideJob(inst: Instance, i: nat, u: nat)
    requires i < |inst.jobs|
  {
    Offset(inst.jobs, i) <= u && u + 1 < Offset(inst.jobs, i) + |inst.jobs[i]| <= |inst.Ops()|
  }

  lemma OneJobMeaning(inst: Instance, j: nat, v: seq<real>)
    requires j < |inst.jobs| && |inst.Ops()| <= |v|
    requires Offset(inst.jobs, j) + |inst.jobs[j]| <= |inst.Ops()|
    ensures RowsHold(StepRows(inst.Ops(), Offset(inst.jobs, j), Steps(inst.jobs[j])), v) <==> JobOrdered(inst, j, v)
  {
    var first, steps := Offset(inst.jobs, j), Steps(inst.jobs[j]);
    StepRowsMeaning(inst.Ops(), first, steps, v);
    if JobOrdered(inst, j, v) {
      forall u: nat | first <= u < first + steps ensures StepHolds(inst.Ops(), u, v) {
        assert InsideJob(inst, j, u);
      }
    }
  }

  lemma JobRowsSplit(inst: Instance, j: nat, v: seq<real>)
    requires j < |inst.jobs| && Offset(inst.jobs, j) + |inst.jobs[j]| <= |inst.Ops()|
    ensures var steps := StepRows(inst.Ops(), Offset(inst.jobs, j), Steps(inst.jobs[j]));
      RowsHold(JobRows(inst, j + 1), v) <==> RowsHold(JobRows(inst, j), v) && RowsHold(steps, v)
  {
    var steps := StepRows(inst.Ops(), Offset(inst.jobs, j), Steps(inst.jobs[j]));
    assert JobRows(inst, j + 1) == JobRows(inst, j) + steps;
    RowsHoldConcat(JobRows(inst, j), steps, v);
  }

  lemma {:induction false} JobRowsMeaning(inst: Instance, j: nat, v: seq<real>)
    requires j <= |inst.jobs| && |inst.Ops()| <= |v|
    ensures RowsHold(JobRows(inst, j), v) <==> JobsOrdered(inst, j, v)
  {
    if j > 0 {
      JobRowsMeaning(inst, j - 1, v);
      JobFits(inst, j - 1);
      JobRowsSplit(inst, j - 1, v);
      OneJobMeaning(inst, j - 1, v);
      JobsOrderedStep(inst, j, v);
    }
  }

  lemma JobsOrderedStep(inst: Instance, j: nat, v: seq<real>)
    requires 0 < j <= |inst.jobs| && |inst.Ops()| <= |v|
    ensures JobsOrdered(inst, j, v) <==> JobsOrdered(inst, j - 1, v) && JobOrdered(inst, j - 1, v)
  {
  }

  ghost predicate EndsBelow(ops: seq<Operation>, last: real, k: nat, v: seq<real>)
    requires k <= |ops| <= |v|
  {
    forall i | 0 <= i < k :: EndBelow(ops, last, i, v)
  }

  ghost predicate EndBelow(ops: seq<Operation>, last: real, i: nat, v: seq<real>)
    requires i < |ops| <= |v|
  {
    v[i] + ops[i].duration as real <= last
  }

  lemma {:induction false} EndRowsMeaning(ops: seq<Operation>, last: nat, k: nat, v: seq<real>)
    requires k <= |ops| <= last < |v|
    ensures RowsHold(EndRows(ops, last, k), v) <==> EndsBelow(ops, v[last], k, v)
  {
    if k > 0 {
      EndRowsMeaning(ops, last, k - 1, v);
      RowsHoldConcat(EndRows(ops, last, k - 1), [EndRow(ops, last, k - 1)], v);
      assert RowsHold([EndRow(ops, last, k - 1)], v) <==> RowHolds([EndRow(ops, last, k - 1)][0], v);
      DotTwo((last, 1.0), (k - 1, -1.0), v);
      assert RowHolds(EndRow(ops, last, k - 1), v) <==> EndBelow(ops, v[last], k - 1, v);
    }
  }

  // ----- all rows -----

  ghost predicate RulesHold(inst: Instance, ops: seq<Operation>, pairs: seq<(nat, nat)>, v: seq<real>)
    requires ops == inst.Ops() && GoodPairs(ops, pairs) && |v| == |ops| + |pairs| + 1
  {
    && PairsOrdered(ops, pairs, |pairs|, v)
    && JobsOrdered(inst, |inst.jobs|, v)
    && EndsBelow(ops, v[|ops| + |pairs|], |ops|, v)
  }

  ghost predicate ScheduleRows(inst: Instance, v: seq<real>) {
    && BinariesAndStarts(inst.Ops(), Pairs(inst), v) && |v| == |inst.Ops()| + |Pairs(inst)| + 1
    && RulesHold(inst, inst.Ops(), Pairs(inst), v)
  }

  ghost predicate WholeNumbers(inst: Instance, v: seq<real>) {
    |v| == |inst.Ops()| + |Pairs(inst)| + 1 && (forall i | 0 <= i < |v| :: IsInteger(v[i])) &&
    0.0 <= v[|v| - 1] <= Horizon(inst.Ops()) as real
  }

  lemma ColumnsMeaning(inst: Instance, v: seq<real>)
    ensures ColsHold(ModelCols(inst), v) <==> WholeNumbers(inst, v) && BinariesAndStarts(inst.Ops(), Pairs(inst), v)
  {
    var cols, n, m := ModelCols(inst), |inst.Ops()|, |Pairs(inst)|;
    if ColsHold(cols, v) {
      forall i | 0 <= i < |v| ensures IsInteger(v[i]) { assert cols[i].integer; }
      forall i | 0 <= i < n ensures 0.0 <= v[i] <= Horizon(inst.Ops()) as real { assert cols[i].lower <= v[i] <= cols[i].upper; }
      forall q | 0 <= q < m ensures BinaryAt(v, n, q) {
        assert cols[n + q] == Col(0.0, 1.0, 0.0, true);
        BinaryValue(v[n + q]);
      }
      assert cols[n + m].lower <= v[n + m] <= cols[n + m].upper;
    }
    if WholeNumbers(inst, v) && BinariesAndStarts(inst.Ops(), Pairs(inst), v) {
      forall k | 0 <= k < |cols| ensures cols[k].lower <= v[k] <= cols[k].upper {
        if k < n {
          assert 0.0 <= v[k] <= Horizon(inst.Ops()) as real;
        } else if k < n + m {
          assert BinaryAt(v, n, k - n);
        }
      }
    }
  }

  lemma RowsInside(inst: Instance, ops: seq<Operation>, pairs: seq<(nat, nat)>, bigM: int, v: seq<real>)
    requires ops == inst.Ops() && BigEnough(ops, bigM) && GoodPairs(ops, pairs)
    requires BinariesAndStarts(ops, pairs, v) && |v| == |ops| + |pairs| + 1
    ensures RowsHold(RowsFor(inst, ops, pairs, bigM), v) <==> RulesHold(inst, ops, pairs, v)
  {
    var p, j, e := PairRows(ops, bigM, pairs, |pairs|), JobRows(inst, |inst.jobs|), EndRows(ops, |ops| + |pairs|, |ops|);
    RowsHoldConcat(p + j, e, v);
    RowsHoldConcat(p, j, v);
    PairRowsMeaning(ops, bigM, pairs, |pairs|, v);
    JobRowsMeaning(inst, |inst.jobs|, v);
    EndRowsMeaning(ops, |ops| + |pairs|, |ops|, v);
  }

  // The whole model: integer starts that respect jobs, machines and the makespan column.
  lemma RowsMeaning(inst: Instance, bigM: int, v: seq<real>)
    requires inst.WellFormed() && BigEnough(inst.Ops(), bigM)
    ensures Feasible(ModelCols(inst), ModelRows(inst, bigM), v) <==> WholeNumbers(inst, v) && ScheduleRows(inst, v)
  {
    ColumnsMeaning(inst, v);
    if ColsHold(ModelCols(inst), v) { RowsInside(inst, inst.Ops(), Pairs(inst), bigM, v); }
  }

  // ----- flat schedules -----

  // Starts by flat position that keep every rule.
  ghost predicate FlatOk(inst: Instance, starts: seq<int>) {
    && |starts| == |inst.Ops()|
    && (forall i | 0 <= i < |starts| :: starts[i] >= 0)
    && (forall j: nat, u: nat | j < |inst.jobs| && InsideJob(inst, j, u) :: FlatStep(inst.Ops(), starts, u))
    && (forall i, l | 0 <= i < l < |starts| && inst.Ops()[i].machine == inst.Ops()[l].machine :: FlatApart(inst.Ops(), starts, i, l))
  }

  ghost predicate FlatStep(ops: seq<Operation>, starts: seq<int>, u: nat)
    requires u + 1 < |ops| && |starts| == |ops|
  {
    starts[u] + ops[u].duration <= starts[u + 1]
  }

  ghost predicate FlatApart(ops: seq<Operation>, starts: seq<int>, i: nat, l: nat)
    requires i < |ops| && l < |ops| && |starts| == |ops|
  {
    starts[i] + ops[i].duration <= starts[l] || starts[l] + ops[l].duration <= starts[i]
  }

  ghost predicate FlatBelow(inst: Instance, starts: seq<int>, makespan: int) {
    |starts| == |inst.Ops()| && forall i | 0 <= i < |starts| :: starts[i] + inst.Ops()[i].duration <= makespan
  }

  function ScheduledAt(ops: seq<Operation>, starts: seq<int>, i: nat): Scheduled
    requires i < |ops| && |starts| == |ops|
  {
    Scheduled(ops[i].job, ops[i].index, ops[i].machine, starts[i], ops[i].duration)
  }

  ghost function FlatSolution(ops: seq<Operation>, starts: seq<int>): (sops: seq<Scheduled>)
    requires |starts| == |ops|
    ensures |sops| == |ops| && forall i | 0 <= i < |ops| :: sops[i] == ScheduledAt(ops, starts, i)
  {
    seq(|ops|, i requires 0 <= i < |ops| => ScheduledAt(ops, starts, i))
  }

  lemma FlatComplete(inst: Instance, starts: seq<int>)
    requires inst.WellFormed() && |starts| == |inst.Ops()| && forall i | 0 <= i < |starts| :: starts[i] >= 0
    ensures Complete(inst, FlatSolution(inst.Ops(), starts))
    ensures forall i | 0 <= i < |starts| :: FlatStart(inst, starts, i)
  {
    var ops, sops := inst.Ops(), FlatSolution(inst.Ops(), starts);
    KeysDistinct(inst);
    forall i, l | 0 <= i < |sops| && 0 <= l < |sops| && sops[i].Id() == sops[l].Id() ensures i == l {
      assert sops[i].Id() == ops[i].Id() && sops[l].Id() == ops[l].Id();
    }
    forall i | 0 <= i < |starts| ensures FlatStart(inst, starts, i) {
      StartOfDistinct(sops, i);
      assert sops[i].Id() == ops[i].Id();
    }
    forall i | 0 <= i < |sops| ensures Matches(inst, sops[i]) {
      assert ops[i] == Operation(sops[i].job, sops[i].index, sops[i].machine, sops[i].duration);
    }
    forall i | 0 <= i < |ops| ensures ops[i].Id() in Starts(sops, |sops|) {
      assert FlatStart(inst, starts, i);
    }
  }

  ghost predicate FlatStart(inst: Instance, starts: seq<int>, i: nat)
    requires |starts| == |inst.Ops()| && i < |starts|
  {
    var sops, key := FlatSolution(inst.Ops(), starts), inst.Ops()[i].Id();
    key in Starts(sops, |sops|) && Starts(sops, |sops|)[key] == starts[i]
  }

  lemma FlatPair(inst: Instance, j: nat, k: nat)
    requires j < |inst.jobs| && k + 1 < |inst.jobs[j]|
    ensures var u := Offset(inst.jobs, j) + k;
      && InsideJob(inst, j, u) && inst.Ops()[u] == inst.jobs[j][k] && inst.Ops()[u + 1] == inst.jobs[j][k + 1]
  {
    JobFits(inst, j);
    FlattenAt(inst.jobs, j, k);
    FlattenAt(inst.jobs, j, k + 1);
  }

  lemma StepInOrder(inst: Instance, starts: seq<int>, j: nat, k: nat, u: nat)
    requires j < |inst.jobs| && k + 1 < |inst.jobs[j]| && u + 1 < |inst.Ops()| == |starts|
    requires inst.Ops()[u] == inst.jobs[j][k] && inst.Ops()[u + 1] == inst.jobs[j][k + 1]
    requires FlatStep(inst.Ops(), starts, u) && FlatStart(inst, starts, u) && FlatStart(inst, starts, u + 1)
    ensures InOrder(inst, Starts(FlatSolution(inst.Ops(), starts), |starts|), j, k)
  {
  }

  // Flat starts that keep the rules make a schedule the validator accepts.
  lemma FlatAccepted(inst: Instance, starts: seq<int>)
    requires inst.WellFormed() && FlatOk(inst, starts)
    ensures Accepted(inst, FlatSolution(inst.Ops(), starts))
  {
    var ops, sops := inst.Ops(), FlatSolution(inst.Ops(), starts);
    FlatComplete(inst, starts);
    forall j, k | 0 <= j < |inst.jobs| && 0 <= k < |inst.jobs[j]| - 1 ensures InOrder(inst, Starts(sops, |sops|), j, k) {
      FlatPair(inst, j, k);
      var u := Offset(inst.jobs, j) + k;
      assert InsideJob(inst, j, u) && FlatStart(inst, starts, u) && FlatStart(inst, starts, u + 1);
      StepInOrder(inst, starts, j, k, u);
    }
    forall i, l | 0 <= i < l < |sops| && sops[i].machine == sops[l].machine ensures Apart(sops[i], sops[l]) {
      assert FlatApart(ops, starts, i, l);
    }
  }

  // Starts an accepted schedule gives, by flat position.
  ghost function StartList(inst: Instance, sops: seq<Scheduled>): (starts: seq<int>)
    requires Complete(inst, sops)
    ensures |starts| == |inst.Ops()|
    ensures forall i | 0 <= i < |starts| :: starts[i] == Starts(sops, |sops|)[inst.Ops()[i].Id()]
  {
    seq(|inst.Ops()|, i requires 0 <= i < |inst.Ops()| => Starts(sops, |sops|)[inst.Ops()[i].Id()])
  }

  lemma StartListAt(inst: Instance, sops: seq<Scheduled>, i: nat) returns (l: nat)
    requires inst.WellFormed() && Complete(inst, sops) && i < |inst.Ops()|
    ensures l < |sops| && sops[l].start == StartList(inst, sops)[i] >= 0
    ensures inst.Ops()[i] == Operation(sops[l].job, sops[l].index, sops[l].machine, sops[l].duration)
  {
    l := ScheduledOf(inst, sops, i);
    assert Matches(inst, sops[l]);
  }

  lemma StartListApart(inst: Instance, sops: seq<Scheduled>, i: nat, l: nat)
    requires inst.WellFormed() && Accepted(inst, sops) && i < l < |inst.Ops()|
    requires inst.Ops()[i].machine == inst.Ops()[l].machine
    ensures FlatApart(inst.Ops(), StartList(inst, sops), i, l)
  {
    var a := StartListAt(inst, sops, i);
    var b := StartListAt(inst, sops, l);
    KeysDistinct(inst);
    assert a != b;
    if a < b { assert Apart(sops[a], sops[b]); } else { assert Apart(sops[b], sops[a]); }
  }

  lemma StartListStep(inst: Instance, sops: seq<Scheduled>, j: nat, u: nat)
    requires inst.WellFormed() && Accepted(inst, sops) && j < |inst.jobs| && InsideJob(inst, j, u)
    ensures FlatStep(inst.Ops(), StartList(inst, sops), u)
  {
    var k := u - Offset(inst.jobs, j);
    FlatPair(inst, j, k);
    assert InOrder(inst, Starts(sops, |sops|), j, k);
  }

  // An accepted schedule keeps the rules by flat position.
  lemma AcceptedFlat(inst: Instance, sops: seq<Scheduled>)
    requires inst.WellFormed() && Accepted(inst, sops)
    ensures FlatOk(inst, StartList(inst, sops))
  {
    var starts := StartList(inst, sops);
    forall i | 0 <= i < |starts| ensures starts[i] >= 0 {
      var l := StartListAt(inst, sops, i);
    }
    forall j: nat, u: nat | j < |inst.jobs| && InsideJob(inst, j, u) ensures FlatStep(inst.Ops(), starts, u) {
      StartListStep(inst, sops, j, u);
    }
    forall i, l | 0 <= i < l < |starts| && inst.Ops()[i].machine == inst.Ops()[l].machine
      ensures FlatApart(inst.Ops(), starts, i, l)
    {
      StartListApart(inst, sops, i, l);
    }
  }

  ghost predicate EndsWithin(sops: seq<Scheduled>, makespan: int) {
    forall i | 0 <= i < |sops| :: sops[i].End() <= makespan
  }

  lemma StartListBelow(inst: Instance, sops: seq<Scheduled>, makespan: int)
    requires inst.WellFormed() && Complete(inst, sops) && EndsWithin(sops, makespan)
    ensures FlatBelow(inst, StartList(inst, sops), makespan)
  {
    var starts := StartList(inst, sops);
    forall i | 0 <= i < |starts| ensures starts[i] + inst.Ops()[i].duration <= makespan {
      var l := StartListAt(inst, sops, i);
      assert sops[l].End() <= makespan;
    }
  }

  // ----- points and flat schedules -----

  ghost function StartsOf(inst: Instance, v: seq<real>): (starts: seq<int>)
    requires |inst.Ops()| <= |v|
    ensures |starts| == |inst.Ops()| && forall i | 0 <= i < |starts| :: starts[i] == v[i].Floor
  {
    seq(|inst.Ops()|, i requires 0 <= i < |inst.Ops()| => v[i].Floor)
  }

  lemma WholeStarts(inst: Instance, v: seq<real>)
    requires WholeNumbers(inst, v)
    ensures forall i | 0 <= i < |inst.Ops()| :: StartsOf(inst, v)[i] as real == v[i]
  {
    forall i | 0 <= i < |inst.Ops()| ensures StartsOf(inst, v)[i] as real == v[i] {
      assert IsInteger(v[i]);
    }
  }

  lemma PointApart(inst: Instance, v: seq<real>, i: nat, l: nat)
    requires inst.WellFormed() && WholeNumbers(inst, v) && ScheduleRows(inst, v)
    requires i < l < |inst.Ops()| && inst.Ops()[i].machine == inst.Ops()[l].machine
    ensures FlatApart(inst.Ops(), StartsOf(inst, v), i, l)
  {
    var j, k := FlatPosition(inst.jobs, i);
    assert inst.OperationOk(j, k);
    MachinePairsHold(inst.Ops(), inst.numMachines, i, l);
    var q :| 0 <= q < |Pairs(inst)| && Pairs(inst)[q] == (i, l);
    assert PairOrdered(inst.Ops(), Pairs(inst)[q], Binary(inst.Ops(), v, q), v);
    WholeStarts(inst, v);
  }

  lemma PointFlat(inst: Instance, v: seq<real>)
    requires inst.WellFormed() && WholeNumbers(inst, v) && ScheduleRows(inst, v)
    ensures FlatOk(inst, StartsOf(inst, v)) && FlatBelow(inst, StartsOf(inst, v), v[|v| - 1].Floor)
  {
    var starts := StartsOf(inst, v);
    WholeStarts(inst, v);
    assert IsInteger(v[|v| - 1]);
    forall i | 0 <= i < |starts| ensures starts[i] >= 0 && starts[i] + inst.Ops()[i].duration <= v[|v| - 1].Floor {
      assert 0.0 <= v[i] && EndBelow(inst.Ops(), v[|v| - 1], i, v);
    }
    forall j: nat, u: nat | j < |inst.jobs| && InsideJob(inst, j, u) ensures FlatStep(inst.Ops(), starts, u) {
      assert JobOrdered(inst, j, v) && StepHolds(inst.Ops(), u, v);
    }
    forall i, l | 0 <= i < l < |starts| && inst.Ops()[i].machine == inst.Ops()[l].machine
      ensures FlatApart(inst.Ops(), starts, i, l)
    {
      PointApart(inst, v, i, l);
    }
  }

  // Every integer point of the emitted rows decodes to an accepted schedule that ends within
  // the makespan column.
  lemma PointsAreSchedules(inst: Instance, bigM: int, v: seq<real>)
    requires inst.WellFormed() && BigEnough(inst.Ops(), bigM)
    requires Feasible(ModelCols(inst), ModelRows(inst, bigM), v)
    ensures |v| > |inst.Ops()|
    ensures Accepted(inst, FlatSolution(inst.Ops(), StartsOf(inst, v)))
    ensures EndsWithin(FlatSolution(inst.Ops(), StartsOf(inst, v)), v[|v| - 1].Floor)
  {
    RowsMeaning(inst, bigM, v);
    PointFlat(inst, v);
    FlatAccepted(inst, StartsOf(inst, v));
  }

  // The binary that says which of two operations goes first.
  ghost function Choice(ops: seq<Operation>, starts: seq<int>, p: (nat, nat)): real
    requires GoodPair(ops, p) && |starts| == |ops|
  {
    if starts[p.0] + ops[p.0].duration <= starts[p.1] then 1.0 else 0.0
  }

  ghost function PointOf(inst: Instance, starts: seq<int>, makespan: int): (v: seq<real>)
    requires |starts| == |inst.Ops()|
    ensures |v| == |starts| + |Pairs(inst)| + 1 && v[|v| - 1] == makespan as real
    ensures forall i | 0 <= i < |starts| :: v[i] == starts[i] as real
    ensures forall q | 0 <= q < |Pairs(inst)| :: Binary(inst.Ops(), v, q) == Choice(inst.Ops(), starts, Pairs(inst)[q])
  {
    var n, pairs := |starts|, Pairs(inst);
    seq(n, i requires 0 <= i < n => starts[i] as real) +
    seq(|pairs|, q requires 0 <= q < |pairs| => Choice(inst.Ops(), starts, pairs[q])) + [makespan as real]
  }

  lemma PointRows(inst: Instance, starts: seq<int>, makespan: int)
    requires inst.WellFormed() && FlatOk(inst, starts) && FlatBelow(inst, starts, makespan)
    requires 0 <= makespan <= Horizon(inst.Ops()) && forall i | 0 <= i < |inst.Ops()| :: inst.Ops()[i].duration >= 0
    ensures ScheduleRows(inst, PointOf(inst, starts, makespan))
  {
    var ops, pairs, v := inst.Ops(), Pairs(inst), PointOf(inst, starts, makespan);
    forall q | 0 <= q < |pairs|
      ensures BinaryAt(v, |ops|, q) && PairOrdered(ops, pairs[q], Binary(ops, v, q), v)
    {
      assert GoodPair(ops, pairs[q]) && FlatApart(ops, starts, pairs[q].0, pairs[q].1);
      assert Binary(ops, v, q) == Choice(ops, starts, pairs[q]);
    }
    forall j: nat | j < |inst.jobs| ensures JobOrdered(inst, j, v) {
      forall u: nat | InsideJob(inst, j, u) ensures StepHolds(ops, u, v) {
        assert FlatStep(ops, starts, u);
      }
    }
  }

  // Every accepted schedule inside the horizon extends to an integer point.
  lemma SchedulesArePoints(inst: Instance, bigM: int, sops: seq<Scheduled>, makespan: int) returns (v: seq<real>)
    requires inst.WellFormed() && BigEnough(inst.Ops(), bigM)
    requires Accepted(inst, sops) && EndsWithin(sops, makespan) && makespan <= Horizon(inst.Ops())
    ensures Feasible(ModelCols(inst), ModelRows(inst, bigM), v) && v[|v| - 1] == makespan as real
    ensures |v| > |inst.Ops()| && StartsOf(inst, v) == StartList(inst, sops)
  {
    var starts := StartList(inst, sops);
    AcceptedFlat(inst, sops);
    StartListBelow(inst, sops, makespan);
    assert starts[0] + inst.Ops()[0].duration <= makespan;
    v := PointOf(inst, starts, makespan);
    PointRows(inst, starts, makespan);
    PointIsWhole(inst, starts, makespan);
    RowsMeaning(inst, bigM, v);
  }

  lemma PointIsWhole(inst: Instance, starts: seq<int>, makespan: int)
    requires |starts| == |inst.Ops()| && 0 <= makespan <= Horizon(inst.Ops())
    ensures WholeNumbers(inst, PointOf(inst, starts, makespan))
    ensures StartsOf(inst, PointOf(inst, starts, makespan)) == starts
  {
    var v, n := PointOf(inst, starts, makespan), |starts|;
    forall i | 0 <= i < |v| ensures IsInteger(v[i]) {
      if n <= i < |v| - 1 {
        assert Binary(inst.Ops(), v, i - n) == Choice(inst.Ops(), starts, Pairs(inst)[i - n]);
      }
    }
  }
}
