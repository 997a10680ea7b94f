// The two-index flow model of the HiGHS adapter: its columns and rows as emitted, and
// what the emitted rows mean in terms of an arc matrix x and a load matrix f.
module CvrpMilp {
  import opened Sums
  import opened Milp
  import opened Cvrp

  type Arc = (nat, nat)

  // Arcs (i, 0), (i, 1), ... up to column j, self-arc skipped.
  ghost function ArcsOfNode(i: nat, j: nat): seq<Arc> {
    if j == 0 then [] else ArcsOfNode(i, j - 1) + (if j - 1 == i then [] else [(i, j - 1)])
  }

  // All arcs leaving the nodes below i, in the order the columns are created.
  ghost function ArcsBelow(n: nat, i: nat): seq<Arc> {
    if i == 0 then [] else ArcsBelow(n, i - 1) + ArcsOfNode(i - 1, n)
  }

  // arcs lists the arcs in creation order and col is the inverse dictionary.
  datatype ArcTable = ArcTable(arcs: seq<Arc>, col: map<Arc, nat>) {
    ghost predicate Valid(n: nat) {
      && arcs == ArcsBelow(n, n)
      && Inverse()
      && (forall i, j | 0 <= i < n && 0 <= j < n && i != j :: (i, j) in col)
    }

    ghost predicate Inverse() {
      && (forall k | 0 <= k < |arcs| :: arcs[k] in col && col[arcs[k]] == k)
      && (forall a | a in col :: col[a] < |arcs| && arcs[col[a]] == a)
    }
  }

  lemma {:induction false} ArcsOfNodeMember(i: nat, j: nat)
    ensures forall k | 0 <= k < |ArcsOfNode(i, j)| ::
      ArcsOfNode(i, j)[k].0 == i && ArcsOfNode(i, j)[k].1 < j && ArcsOfNode(i, j)[k].1 != i
  {
    if j > 0 { ArcsOfNodeMember(i, j - 1); }
  }

  lemma {:induction false} ArcsBelowMember(n: nat, i: nat)
    ensures forall k | 0 <= k < |ArcsBelow(n, i)| ::
      var a := ArcsBelow(n, i)[k]; a.0 < i && a.1 < n && a.0 != a.1
  {
    if i > 0 {
      ArcsBelowMember(n, i - 1);
      ArcsOfNodeMember(i - 1, n);
    }
  }

  // ----- the matrices a point of the model stands for -----

  // The value of the column of arc (i, j), offset by base; 0 on the diagonal.
  ghost function ArcValue(t: ArcTable, v: seq<real>, base: nat, i: nat, j: nat): real {
    if i != j && (i, j) in t.col && base + t.col[(i, j)] < |v| then v[base + t.col[(i, j)]] else 0.0
  }

  ghost function ArcMatrix(t: ArcTable, n: nat, v: seq<real>, base: nat): (m: Matrix)
    ensures Square(m, n)
    ensures forall i, j | 0 <= i < n && 0 <= j < n :: m[i][j] == ArcValue(t, v, base, i, j)
  {
    seq(n, i requires 0 <= i < n => seq(n, j requires 0 <= j < n => ArcValue(t, v, base, i, j)))
  }

  ghost function X(t: ArcTable, n: nat, v: seq<real>): Matrix { ArcMatrix(t, n, v, 0) }

  ghost function F(t: ArcTable, n: nat, v: seq<real>): Matrix { ArcMatrix(t, n, v, |t.arcs|) }

  // ----- rows and columns, as emitted -----

  ghost function Coef(negative: bool): real { if negative then -1.0 else 1.0 }

  // Columns of the arcs (i, j) for i below k.
  ghost function InEntries(t: ArcTable, base: nat, j: nat, k: nat): seq<(nat, real)>
    requires forall i | 0 <= i < k && i != j :: (i, j) in t.col
  {
    if k == 0 then []
    else InEntries(t, base, j, k - 1) + (if k - 1 == j then [] else [(base + t.col[(k - 1, j)], 1.0)])
  }

  // Columns of the arcs (j, i) for i in from .. k-1.
  ghost function OutEntries(t: ArcTable, base: nat, j: nat, negative: bool, from: nat, k: nat): seq<(nat, real)>
    requires forall i | 0 <= i < k && i != j :: (j, i) in t.col
  {
    if k <= from then []
    else
      OutEntries(t, base, j, negative, from, k - 1) +
      (if k - 1 == j then [] else [(base + t.col[(j, k - 1)], Coef(negative))])
  }

  // Predecessor and successor row of the customers below k.
  ghost function DegreeRows(t: ArcTable, n: nat, k: nat): seq<Row>
    requires t.Valid(n) && k <= n
  {
    if k <= 1 then []
    else
      DegreeRows(t, n, k - 1) +
      [Row(InEntries(t, 0, k - 1, n), At(1.0), At(1.0)),
       Row(OutEntries(t, 0, k - 1, false, 0, n), At(1.0), At(1.0))]
  }

  ghost function LinkRows(t: ArcTable, capacity: int, k: nat): (rows: seq<Row>)
    ensures |rows| == k
  {
    seq(k, (c: nat) => Row([(|t.arcs| + c, 1.0), (c, -(capacity as real))], NoBound, At(0.0)))
  }

  // Demand of the customers below k.
  ghost function DemandBelow(inst: Instance, k: nat): int
    requires k <= inst.Nodes()
  {
    if k <= 1 then 0 else DemandBelow(inst, k - 1) + inst.demand[k - 1]
  }

  ghost function DepotRow(inst: Instance, t: ArcTable): Row
    requires 1 <= inst.Nodes() && t.Valid(inst.Nodes())
  {
    var total := DemandBelow(inst, inst.Nodes()) as real;
    Row(OutEntries(t, |t.arcs|, 0, false, 1, inst.Nodes()), At(total), At(total))
  }

  ghost function ConserveRows(inst: Instance, t: ArcTable, k: nat): seq<Row>
    requires t.Valid(inst.Nodes()) && k <= inst.Nodes()
  {
    var n := inst.Nodes();
    if k <= 1 then []
    else
      var q := inst.demand[k - 1] as real;
      ConserveRows(inst, t, k - 1) +
      [Row(InEntries(t, |t.arcs|, k - 1, n) + OutEntries(t, |t.arcs|, k - 1, true, 0, n), At(q), At(q))]
  }

  ghost function ModelRows(inst: Instance, t: ArcTable): seq<Row>
    requires 1 <= inst.Nodes() && t.Valid(inst.Nodes())
  {
    var n := inst.Nodes();
    DegreeRows(t, n, n) + LinkRows(t, inst.capacity, |t.arcs|) + [DepotRow(inst, t)] +
    ConserveRows(inst, t, n)
  }

  // Arc binaries with their costs, then one flow column per arc.
  ghost function ModelCols(inst: Instance, t: ArcTable): (cols: seq<Col>)
    requires inst.WellFormed() && t.Valid(inst.Nodes())
    ensures |cols| == 2 * |t.arcs|
  {
    ArcsBelowMember(inst.Nodes(), inst.Nodes());
    seq(|t.arcs|, k requires 0 <= k < |t.arcs| =>
      Col(0.0, 1.0, inst.cost[t.arcs[k].0][t.arcs[k].1] as real, true)) +
    seq(|t.arcs|, k => Col(0.0, inst.capacity as real, 0.0, false))
  }

  // ----- the builder -----

  // costs[k] is the cost of the k-th arc.
  ghost predicate Priced(inst: Instance, arcs: seq<Arc>, costs: seq<int>)
    requires inst.WellFormed()
  {
    |costs| == |arcs| &&
    forall k | 0 <= k < |costs| ::
      arcs[k].0 < inst.Nodes() && arcs[k].1 < inst.Nodes() &&
      costs[k] == inst.cost[arcs[k].0][arcs[k].1]
  }

  // The dictionary holds exactly the arcs met before position (i, j) of the double loop.
  ghost predicate FilledTo(n: nat, t: ArcTable, i: nat, j: nat) {
    && t.arcs == ArcsBelow(n, i) + ArcsOfNode(i, j)
    && t.Inverse()
    && forall a, b | 0 <= a <= i && 0 <= b < n && a != b && (a < i || b < j) :: (a, b) in t.col
  }

  lemma InverseSnoc(t: ArcTable, a: Arc)
    requires t.Inverse() && a !in t.col
    ensures ArcTable(t.arcs + [a], t.col[a := |t.arcs|]).Inverse()
  {
  }

  lemma NotYet(n: nat, t: ArcTable, i: nat, j: nat)
    requires t.arcs == ArcsBelow(n, i) + ArcsOfNode(i, j) && t.Inverse()
    ensures (i, j) !in t.col
  {
    ArcsBelowMember(n, i);
    ArcsOfNodeMember(i, j);
    forall k | 0 <= k < |t.arcs| ensures t.arcs[k] != (i, j) {
    }
  }

  lemma FillArc(n: nat, t: ArcTable, i: nat, j: nat)
    requires FilledTo(n, t, i, j) && i != j && j < n
    ensures FilledTo(n, ArcTable(t.arcs + [(i, j)], t.col[(i, j) := |t.arcs|]), i, j + 1)
  {
    NotYet(n, t, i, j);
    InverseSnoc(t, (i, j));
    assert t.arcs + [(i, j)] == ArcsBelow(n, i) + ArcsOfNode(i, j + 1);
  }

  lemma SkipSelf(n: nat, t: ArcTable, i: nat)
    requires FilledTo(n, t, i, i)
    ensures FilledTo(n, t, i, i + 1)
  {
    assert ArcsOfNode(i, i + 1) == ArcsOfNode(i, i);
  }

  lemma FillNode(n: nat, t: ArcTable, i: nat)
    requires FilledTo(n, t, i, n)
    ensures FilledTo(n, t, i + 1, 0)
  {
    assert ArcsBelow(n, i + 1) + ArcsOfNode(i + 1, 0) == ArcsBelow(n, i) + ArcsOfNode(i, n);
  }

  // One arc: its column index, then its cost.
  method AppendArc(inst: Instance, t: ArcTable, costs: seq<int>, i: nat, j: nat)
    returns (t': ArcTable, costs': seq<int>)
    requires inst.WellFormed() && i < inst.Nodes() && j < inst.Nodes() && i != j
    requires FilledTo(inst.Nodes(), t, i, j) && Priced(inst, t.arcs, costs)
    ensures FilledTo(inst.Nodes(), t', i, j + 1) && Priced(inst, t'.arcs, costs')
  {
    FillArc(inst.Nodes(), t, i, j);
    t' := ArcTable(t.arcs + [(i, j)], t.col[(i, j) := |costs|]);
    costs' := costs + [inst.cost[i][j]];
  }

  // The arcs out of one node.
  method BuildNode(inst: Instance, t0: ArcTable, costs0: seq<int>, i: nat)
    returns (t: ArcTable, costs: seq<int>)
    requires inst.WellFormed() && i < inst.Nodes()
    requires FilledTo(inst.Nodes(), t0, i, 0) && Priced(inst, t0.arcs, costs0)
    ensures FilledTo(inst.Nodes(), t, i + 1, 0) && Priced(inst, t.arcs, costs)
  {
    t, costs := t0, costs0;
    for j := 0 to inst.Nodes()
      invariant FilledTo(inst.Nodes(), t, i, j) && Priced(inst, t.arcs, costs)
    {
      if i == j {
        SkipSelf(inst.Nodes(), t, i);
      } else {
        t, costs := AppendArc(inst, t, costs, i, j);
      }
    }
    FillNode(inst.Nodes(), t, i);
  }

  // The arc dictionary and the cost list, filled side by side.
  method BuildArcs(inst: Instance) returns (t: ArcTable, costs: seq<int>)
    requires inst.WellFormed()
    ensures t.Valid(inst.Nodes()) && Priced(inst, t.arcs, costs)
  {
    var n := inst.Nodes();
    t, costs := ArcTable([], map[]), [];
    for i := 0 to n
      invariant FilledTo(n, t, i, 0) && Priced(inst, t.arcs, costs)
    {
      t, costs := BuildNode(inst, t, costs, i);
    }
  }

  method BuildMilp(inst: Instance) returns (t: ArcTable, model: ModelBuilder)
    requires inst.WellFormed()
    ensures fresh(model) && model.Valid()
    ensures t.Valid(inst.Nodes())
    ensures model.cols == ModelCols(inst, t)
    ensures model.Rows() == ModelRows(inst, t)
  {
    var costs;
    t, costs := BuildArcs(inst);
    model := new ModelBuilder();
    AddColumns(inst, t, costs, model);
    AddDegreeRows(inst.Nodes(), t, model);
    AddLinkRows(t, inst.capacity, model);
    AddDepotRow(inst, t, model);
    AddConserveRows(inst, t, model);
  }

  method AddColumns(inst: Instance, t: ArcTable, costs: seq<int>, model: ModelBuilder)
    requires inst.WellFormed() && t.Valid(inst.Nodes()) && model.Valid() && model.cols == []
    requires Priced(inst, t.arcs, costs)
    modifies model
    ensures model.Valid() && model.Rows() == old(model.Rows())
    ensures model.cols == ModelCols(inst, t)
  {
    var numArcs := |costs|;
    for k := 0 to numArcs
      invariant model.Valid() && model.Rows() == old(model.Rows())
      invariant model.cols == ModelCols(inst, t)[..k]
    {
      var _ := model.AddCol(0.0, 1.0, costs[k] as real, true);
    }
    for k := 0 to numArcs
      invariant model.Valid() && model.Rows() == old(model.Rows())
      invariant model.cols == ModelCols(inst, t)[..numArcs + k]
    {
      var _ := model.AddCol(0.0, inst.capacity as real, 0.0, false);
    }
  }

  method AddLinkRows(t: ArcTable, capacity: int, model: ModelBuilder)
    requires model.Valid()
    modifies model
    ensures model.Valid() && model.cols == old(model.cols)
    ensures model.Rows() == old(model.Rows()) + LinkRows(t, capacity, |t.arcs|)
  {
    var numArcs := |t.arcs|;
    for k := 0 to numArcs
      invariant model.Valid() && model.cols == old(model.cols)
      invariant model.Rows() == old(model.Rows()) + LinkRows(t, capacity, k)
    {
      model.AddRow([(numArcs + k, 1.0), (k, -(capacity as real))], NoBound, At(0.0));
      assert LinkRows(t, capacity, k + 1) == LinkRows(t, capacity, k) +
        [Row([(numArcs + k, 1.0), (k, -(capacity as real))], NoBound, At(0.0))];
    }
  }

  method AddDepotRow(inst: Instance, t: ArcTable, model: ModelBuilder)
    requires 1 <= inst.Nodes() && t.Valid(inst.Nodes()) && model.Valid()
    modifies model
    ensures model.Valid() && model.cols == old(model.cols)
    ensures model.Rows() == old(model.Rows()) + [DepotRow(inst, t)]
  {
    var total := 0;
    for j := 1 to inst.Nodes()
      invariant total == DemandBelow(inst, j)
    {
      total := total + inst.demand[j];
    }
    var depotOut := OutColumns(inst.Nodes(), t, |t.arcs|, 0, false, 1);
    model.AddRow(depotOut, At(total as real), At(total as real));
  }

  method AddConserveRows(inst: Instance, t: ArcTable, model: ModelBuilder)
    requires 1 <= inst.Nodes() && t.Valid(inst.Nodes()) && model.Valid()
    modifies model
    ensures model.Valid() && model.cols == old(model.cols)
    ensures model.Rows() == old(model.Rows()) + ConserveRows(inst, t, inst.Nodes())
  {
    var n := inst.Nodes();
    for j := 1 to n
      invariant model.Valid() && model.cols == old(model.cols)
      invariant model.Rows() == old(model.Rows()) + ConserveRows(inst, t, j)
    {
      var inflow := InColumns(n, t, |t.arcs|, j);
      var outflow := OutColumns(n, t, |t.arcs|, j, true, 0);
      model.AddRow(inflow + outflow, At(inst.demand[j] as real), At(inst.demand[j] as real));
    }
  }

  method InColumns(n: nat, t: ArcTable, base: nat, j: nat) returns (entries: seq<(nat, real)>)
    requires t.Valid(n) && j < n
    ensures entries == InEntries(t, base, j, n)
  {
    entries := [];
    for i := 0 to n
      invariant entries == InEntries(t, base, j, i)
    {
      if i != j { entries := entries + [(base + t.col[(i, j)], 1.0)]; }
    }
  }

  method OutColumns(n: nat, t: ArcTable, base: nat, j: nat, negative: bool, from: nat)
    returns (entries: seq<(nat, real)>)
    requires t.Valid(n) && j < n && from <= n
    ensures entries == OutEntries(t, base, j, negative, from, n)
  {
    entries := [];
    for i := from to n
      invariant entries == OutEntries(t, base, j, negative, from, i)
    {
      if i != j { entries := entries + [(base + t.col[(j, i)], if negative then -1.0 else 1.0)]; }
    }
  }

  method AddDegreeRows(n: nat, t: ArcTable, model: ModelBuilder)
    requires 1 <= n && t.Valid(n) && model.Valid() && model.Rows() == []
    modifies model
    ensures model.Valid() && model.cols == old(model.cols)
    ensures model.Rows() == DegreeRows(t, n, n)
  {
    for j := 1 to n
      invariant model.Valid() && model.cols == old(model.cols)
      invariant model.Rows() == DegreeRows(t, n, j)
    {
      var incoming := InColumns(n, t, 0, j);
      model.AddRow(incoming, At(1.0), At(1.0));
      var outgoing := OutColumns(n, t, 0, j, false, 0);
      model.AddRow(outgoing, At(1.0), At(1.0));
    }
  }
}
