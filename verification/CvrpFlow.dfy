// What the emitted rows say: a 0/1 arc matrix with degree one at every customer and a
// load matrix that drops each customer's demand.
module CvrpFlow {
  import opened Sums
  import opened Milp
  import opened Cvrp
  import opened CvrpMilp

  ghost predicate ArcPoint(n: nat, x: Matrix) {
    && Square(x, n)
    && (forall i, j | 0 <= i < n && 0 <= j < n :: x[i][j] == 0.0 || x[i][j] == 1.0)
    && (forall i | 0 <= i < n :: x[i][i] == 0.0)
  }

  ghost predicate DegreeAt(x: Matrix, c: nat)
    requires Square(x, |x|) && c < |x|
  {
    Sum(Column(x, c)) == 1.0 && Sum(x[c]) == 1.0
  }

  ghost predicate DegreeOne(n: nat, x: Matrix)
    requires Square(x, n)
  {
    forall c | 1 <= c < n :: DegreeAt(x, c)
  }

  // A load only rides a selected arc, and never exceeds the capacity.
  ghost predicate LoadPoint(inst: Instance, x: Matrix, f: Matrix)
    requires Square(x, inst.Nodes())
  {
    var n := inst.Nodes();
    && Square(f, n)
    && (forall i | 0 <= i < n :: f[i][i] == 0.0)
    && (forall i, j | 0 <= i < n && 0 <= j < n && i != j ::
          0.0 <= f[i][j] <= (inst.capacity as real) && (x[i][j] == 0.0 ==> f[i][j] == 0.0))
  }

  ghost predicate ConservedAt(inst: Instance, f: Matrix, c: nat)
    requires Square(f, inst.Nodes()) && c < inst.Nodes()
  {
    Sum(Column(f, c)) - Sum(f[c]) == inst.demand[c] as real
  }

  ghost predicate Conserved(inst: Instance, f: Matrix)
    requires Square(f, inst.Nodes())
  {
    forall c | 1 <= c < inst.Nodes() :: ConservedAt(inst, f, c)
  }

  ghost predicate FlowFeasible(inst: Instance, x: Matrix, f: Matrix)
    requires 1 <= inst.Nodes()
  {
    var n := inst.Nodes();
    && ArcPoint(n, x)
    && DegreeOne(n, x)
    && LoadPoint(inst, x, f)
    && Sum(f[0]) == DemandBelow(inst, n) as real
    && Conserved(inst, f)
  }

  // ----- row by row -----

  lemma {:induction false} InDot(t: ArcTable, n: nat, base: nat, v: seq<real>, j: nat, k: nat)
    requires t.Valid(n) && base + |t.arcs| <= |v| && j < n && k <= n
    ensures Dot(InEntries(t, base, j, k), v, |InEntries(t, base, j, k)|)
         == Prefix(Column(ArcMatrix(t, n, v, base), j), k)
  {
    if k > 0 {
      InDot(t, n, base, v, j, k - 1);
      if k - 1 != j {
        var e := (base + t.col[(k - 1, j)], 1.0);
        DotSnoc(InEntries(t, base, j, k - 1), e.0, e.1, v);
      } else {
        assert InEntries(t, base, j, k) == InEntries(t, base, j, k - 1);
      }
    }
  }

  lemma {:induction false} OutDot(t: ArcTable, n: nat, base: nat, v: seq<real>, j: nat, negative: bool,
                                  from: nat, k: nat)
    requires t.Valid(n) && base + |t.arcs| <= |v| && j < n && k <= n
    requires from == 0 || (from == 1 && j == 0)
    ensures Dot(OutEntries(t, base, j, negative, from, k), v, |OutEntries(t, base, j, negative, from, k)|)
         == if negative then -Prefix(ArcMatrix(t, n, v, base)[j], k) else Prefix(ArcMatrix(t, n, v, base)[j], k)
  {
    var m := ArcMatrix(t, n, v, base);
    if k == 0 {
    } else if k <= from {
      assert Prefix(m[j], 0) == 0.0;
      assert k == 1 && m[0][0] == 0.0;
    } else {
      OutDot(t, n, base, v, j, negative, from, k - 1);
      var es := OutEntries(t, base, j, negative, from, k - 1);
      if k - 1 != j {
        var e := (base + t.col[(j, k - 1)], Coef(negative));
        DotSnoc(es, e.0, e.1, v);
        assert OutEntries(t, base, j, negative, from, k) == es + [e];
        assert v[e.0] == m[j][k - 1] && Prefix(m[j], k) == Prefix(m[j], k - 1) + m[j][k - 1];
      } else {
        assert m[j][k - 1] == 0.0;
        assert OutEntries(t, base, j, negative, from, k) == es;
      }
    }
  }

  lemma EqualityRow(entries: seq<(nat, real)>, q: real, v: seq<real>)
    ensures RowsHold([Row(entries, At(q), At(q))], v) <==> Dot(entries, v, |entries|) == q
  {
    var rows := [Row(entries, At(q), At(q))];
    assert RowsHold(rows, v) <==> RowHolds(rows[0], v);
  }

  lemma DegreePair(t: ArcTable, n: nat, v: seq<real>, c: nat)
    requires t.Valid(n) && |v| == 2 * |t.arcs| && c < n
    ensures RowsHold([Row(InEntries(t, 0, c, n), At(1.0), At(1.0)),
                      Row(OutEntries(t, 0, c, false, 0, n), At(1.0), At(1.0))], v)
      <==> DegreeAt(X(t, n, v), c)
  {
    var incoming, outgoing := InEntries(t, 0, c, n), OutEntries(t, 0, c, false, 0, n);
    InDot(t, n, 0, v, c, n);
    OutDot(t, n, 0, v, c, false, 0, n);
    EqualityRow(incoming, 1.0, v);
    EqualityRow(outgoing, 1.0, v);
    RowsHoldConcat([Row(incoming, At(1.0), At(1.0))], [Row(outgoing, At(1.0), At(1.0))], v);
    assert [Row(incoming, At(1.0), At(1.0))] + [Row(outgoing, At(1.0), At(1.0))] ==
      [Row(incoming, At(1.0), At(1.0)), Row(outgoing, At(1.0), At(1.0))];
  }

  lemma {:induction false} DegreeMeaning(t: ArcTable, n: nat, v: seq<real>, k: nat)
    requires t.Valid(n) && |v| == 2 * |t.arcs| && 1 <= k <= n
    ensures RowsHold(DegreeRows(t, n, k), v) <==>
      forall c | 1 <= c < k :: DegreeAt(X(t, n, v), c)
  {
    if k > 1 {
      DegreeMeaning(t, n, v, k - 1);
      DegreePair(t, n, v, k - 1);
      RowsHoldConcat(DegreeRows(t, n, k - 1),
        [Row(InEntries(t, 0, k - 1, n), At(1.0), At(1.0)),
         Row(OutEntries(t, 0, k - 1, false, 0, n), At(1.0), At(1.0))], v);
    }
  }

  // Column pair k: a binary arc, a load within capacity, and no load on an unused arc.
  ghost predicate BoundsAt(t: ArcTable, capacity: int, v: seq<real>, k: nat)
    requires k < |t.arcs| && |v| == 2 * |t.arcs|
  {
    (v[k] == 0.0 || v[k] == 1.0) && 0.0 <= v[|t.arcs| + k] <= capacity as real
  }

  ghost predicate LinkedAt(t: ArcTable, v: seq<real>, k: nat)
    requires k < |t.arcs| && |v| == 2 * |t.arcs|
  {
    v[k] == 0.0 ==> v[|t.arcs| + k] == 0.0
  }

  lemma LinkMeaning(t: ArcTable, capacity: int, v: seq<real>)
    requires |v| == 2 * |t.arcs|
    requires forall k | 0 <= k < |t.arcs| :: BoundsAt(t, capacity, v, k)
    ensures RowsHold(LinkRows(t, capacity, |t.arcs|), v) <==>
      forall k | 0 <= k < |t.arcs| :: LinkedAt(t, v, k)
  {
    var a := |t.arcs|;
    var rows := LinkRows(t, capacity, a);
    forall k | 0 <= k < a
      ensures RowHolds(rows[k], v) <==> LinkedAt(t, v, k)
    {
      assert BoundsAt(t, capacity, v, k);
      DotTwo((a + k, 1.0), (k, -(capacity as real)), v);
      LinkValue(capacity as real, v[k], v[a + k]);
    }
  }

  lemma LinkValue(q: real, x: real, f: real)
    requires x == 0.0 || x == 1.0
    requires 0.0 <= f <= q
    ensures 1.0 * f + -q * x <= 0.0 <==> (x == 0.0 ==> f == 0.0)
  {
    if x == 0.0 { assert -q * x == 0.0; } else { assert -q * x == -q; }
  }

  lemma DepotMeaning(inst: Instance, t: ArcTable, v: seq<real>)
    requires inst.WellFormed() && t.Valid(inst.Nodes()) && |v| == 2 * |t.arcs|
    ensures RowsHold([DepotRow(inst, t)], v) <==>
      Sum(F(t, inst.Nodes(), v)[0]) == DemandBelow(inst, inst.Nodes()) as real
  {
    OutDot(t, inst.Nodes(), |t.arcs|, v, 0, false, 1, inst.Nodes());
    EqualityRow(OutEntries(t, |t.arcs|, 0, false, 1, inst.Nodes()), DemandBelow(inst, inst.Nodes()) as real, v);
  }

  lemma ConserveOne(inst: Instance, t: ArcTable, v: seq<real>, c: nat)
    requires inst.WellFormed() && t.Valid(inst.Nodes()) && |v| == 2 * |t.arcs| && c < inst.Nodes()
    ensures var n, a := inst.Nodes(), |t.arcs|;
      RowsHold([Row(InEntries(t, a, c, n) + OutEntries(t, a, c, true, 0, n),
                    At(inst.demand[c] as real), At(inst.demand[c] as real))], v)
      <==> ConservedAt(inst, F(t, n, v), c)
  {
    var n, a := inst.Nodes(), |t.arcs|;
    var inflow, outflow := InEntries(t, a, c, n), OutEntries(t, a, c, true, 0, n);
    InDot(t, n, a, v, c, n);
    OutDot(t, n, a, v, c, true, 0, n);
    DotConcat(inflow, outflow, v, |outflow|);
    EqualityRow(inflow + outflow, inst.demand[c] as real, v);
  }

  lemma {:induction false} ConserveMeaning(inst: Instance, t: ArcTable, v: seq<real>, k: nat)
    requires inst.WellFormed() && t.Valid(inst.Nodes()) && |v| == 2 * |t.arcs| && 1 <= k <= inst.Nodes()
    ensures RowsHold(ConserveRows(inst, t, k), v) <==>
      forall c | 1 <= c < k :: ConservedAt(inst, F(t, inst.Nodes(), v), c)
  {
    if k > 1 {
      ConserveMeaning(inst, t, v, k - 1);
      ConserveOne(inst, t, v, k - 1);
      var n, a := inst.Nodes(), |t.arcs|;
      RowsHoldConcat(ConserveRows(inst, t, k - 1),
        [Row(InEntries(t, a, k - 1, n) + OutEntries(t, a, k - 1, true, 0, n),
             At(inst.demand[k - 1] as real), At(inst.demand[k - 1] as real))], v);
    }
  }

  // Column bounds and integrality, read off the matrices.
  lemma ColsMeaning(inst: Instance, t: ArcTable, v: seq<real>)
    requires inst.WellFormed() && t.Valid(inst.Nodes()) && |v| == 2 * |t.arcs|
    ensures ColsHold(ModelCols(inst, t), v) <==>
      forall k | 0 <= k < |t.arcs| :: BoundsAt(t, inst.capacity, v, k)
  {
    var a, cols := |t.arcs|, ModelCols(inst, t);
    if ColsHold(cols, v) {
      forall k | 0 <= k < a
        ensures BoundsAt(t, inst.capacity, v, k)
      {
        assert cols[k].integer && cols[k].lower == 0.0 && cols[k].upper == 1.0;
        BinaryValue(v[k]);
        assert cols[a + k].lower == 0.0 && cols[a + k].upper == inst.capacity as real;
      }
    }
    if forall k | 0 <= k < a :: BoundsAt(t, inst.capacity, v, k) {
      forall k | 0 <= k < |cols|
        ensures cols[k].lower <= v[k] <= cols[k].upper && (cols[k].integer ==> IsInteger(v[k]))
      {
        assert BoundsAt(t, inst.capacity, v, if k >= a then k - a else k);
      }
    }
  }

  // Matrix facts of the columns are facts of the point.
  lemma MatrixMeaning(inst: Instance, t: ArcTable, v: seq<real>)
    requires inst.WellFormed() && t.Valid(inst.Nodes()) && |v| == 2 * |t.arcs|
    ensures (forall k | 0 <= k < |t.arcs| :: BoundsAt(t, inst.capacity, v, k) && LinkedAt(t, v, k))
      <==> ArcPoint(inst.Nodes(), X(t, inst.Nodes(), v)) &&
           LoadPoint(inst, X(t, inst.Nodes(), v), F(t, inst.Nodes(), v))
  {
    var n, a := inst.Nodes(), |t.arcs|;
    var x, f := X(t, n, v), F(t, n, v);
    ArcsBelowMember(n, n);
    if ArcPoint(n, x) && LoadPoint(inst, x, f) {
      forall k | 0 <= k < a
        ensures BoundsAt(t, inst.capacity, v, k) && LinkedAt(t, v, k)
      {
        var (i, j) := t.arcs[k];
        assert x[i][j] == v[k] && f[i][j] == v[a + k];
      }
    }
    if forall k | 0 <= k < a :: BoundsAt(t, inst.capacity, v, k) && LinkedAt(t, v, k) {
      forall i, j | 0 <= i < n && 0 <= j < n && i != j
        ensures x[i][j] == 0.0 || x[i][j] == 1.0
        ensures 0.0 <= f[i][j] <= inst.capacity as real && (x[i][j] == 0.0 ==> f[i][j] == 0.0)
      {
        assert BoundsAt(t, inst.capacity, v, t.col[(i, j)]) && LinkedAt(t, v, t.col[(i, j)]);
      }
    }
  }

  // A point satisfies the emitted model exactly when its matrices are a feasible flow.
  lemma RowsMeaning(inst: Instance, t: ArcTable, v: seq<real>)
    requires inst.WellFormed() && t.Valid(inst.Nodes())
    ensures Feasible(ModelCols(inst, t), ModelRows(inst, t), v) <==>
      |v| == 2 * |t.arcs| && FlowFeasible(inst, X(t, inst.Nodes(), v), F(t, inst.Nodes(), v))
  {
    if |v| == 2 * |t.arcs| {
      var n := inst.Nodes();
      var degree, link, depot, conserve :=
        DegreeRows(t, n, n), LinkRows(t, inst.capacity, |t.arcs|), [DepotRow(inst, t)], ConserveRows(inst, t, n);
      RowsHoldConcat(degree, link, v);
      RowsHoldConcat(degree + link, depot, v);
      RowsHoldConcat(degree + link + depot, conserve, v);
      DegreeMeaning(t, n, v, n);
      DepotMeaning(inst, t, v);
      ConserveMeaning(inst, t, v, n);
      ColsMeaning(inst, t, v);
      MatrixMeaning(inst, t, v);
      if ColsHold(ModelCols(inst, t), v) { LinkMeaning(t, inst.capacity, v); }
    }
  }

  // ----- the objective -----

  // The cost of every selected arc, 0 elsewhere.
  ghost function CostMatrix(inst: Instance, x: Matrix): (m: Matrix)
    requires inst.WellFormed() && Square(x, inst.Nodes())
    ensures Square(m, inst.Nodes())
    ensures forall i, j | 0 <= i < inst.Nodes() && 0 <= j < inst.Nodes() ::
      m[i][j] == if x[i][j] == 1.0 then inst.cost[i][j] as real else 0.0
  {
    var n := inst.Nodes();
    seq(n, i requires 0 <= i < n => seq(n, j requires 0 <= j < n =>
      if x[i][j] == 1.0 then inst.cost[i][j] as real else 0.0))
  }

  ghost function Total(m: Matrix, k: nat): real
    requires k <= |m|
  {
    if k == 0 then 0.0 else Total(m, k - 1) + Sum(m[k - 1])
  }

  // Column k belongs to arc (i, j): its objective term is the matrix entry.
  lemma ObjectiveTerm(inst: Instance, t: ArcTable, v: seq<real>, k: nat, i: nat, j: nat)
    requires inst.WellFormed() && t.Valid(inst.Nodes()) && |v| == 2 * |t.arcs|
    requires ArcPoint(inst.Nodes(), X(t, inst.Nodes(), v))
    requires k < |t.arcs| && t.arcs[k] == (i, j) && i < inst.Nodes() && j < inst.Nodes()
    ensures TermIs(ModelCols(inst, t), v, k, CostMatrix(inst, X(t, inst.Nodes(), v))[i], j)
  {
    ArcsBelowMember(inst.Nodes(), inst.Nodes());
    assert X(t, inst.Nodes(), v)[i][j] == v[k];
  }

  // Columns base, base + 1, ... carry the entries of w except the self-arc's zero.
  lemma {:induction false} ObjectiveRow(cols: seq<Col>, v: seq<real>, w: Vector, base: nat, i: nat, j: nat)
    requires base + |ArcsOfNode(i, j)| <= |cols| && |cols| <= |v| && j <= |w|
    requires i < |w| ==> w[i] == 0.0
    requires forall k | 0 <= k < |ArcsOfNode(i, j)| :: TermIs(cols, v, base + k, w, ArcsOfNode(i, j)[k].1)
    ensures Objective(cols, v, base + |ArcsOfNode(i, j)|) == Objective(cols, v, base) + Prefix(w, j)
  {
    if j > 0 {
      var before := ArcsOfNode(i, j - 1);
      forall k | 0 <= k < |before|
        ensures TermIs(cols, v, base + k, w, before[k].1)
      {
        assert ArcsOfNode(i, j)[k] == before[k];
      }
      ObjectiveRow(cols, v, w, base, i, j - 1);
      if j - 1 != i {
        assert TermIs(cols, v, base + |before|, w, ArcsOfNode(i, j)[|before|].1);
      }
    }
  }

  ghost predicate TermIs(cols: seq<Col>, v: seq<real>, k: nat, w: Vector, j: nat) {
    k < |cols| && k < |v| && j < |w| && cols[k].cost * v[k] == w[j]
  }

  // Column k carries the matrix entry of the k-th arc, for every arc.
  ghost predicate TermsAre(cols: seq<Col>, v: seq<real>, arcs: seq<Arc>, m: Matrix) {
    forall k | 0 <= k < |arcs| :: arcs[k].0 < |m| && TermIs(cols, v, k, m[arcs[k].0], arcs[k].1)
  }

  lemma ObjectiveNode(cols: seq<Col>, v: seq<real>, arcs: seq<Arc>, m: Matrix, below: seq<Arc>, i: nat, n: nat)
    requires TermsAre(cols, v, arcs, m) && |arcs| <= |cols| <= |v|
    requires i < |m| && n <= |m[i]| && (i < |m[i]| ==> m[i][i] == 0.0)
    requires below + ArcsOfNode(i, n) <= arcs
    ensures Objective(cols, v, |below| + |ArcsOfNode(i, n)|) == Objective(cols, v, |below|) + Prefix(m[i], n)
  {
    var row := ArcsOfNode(i, n);
    ArcsOfNodeMember(i, n);
    forall k | 0 <= k < |row|
      ensures TermIs(cols, v, |below| + k, m[i], row[k].1)
    {
      assert arcs[|below| + k] == (below + row)[|below| + k] == row[k];
    }
    ObjectiveRow(cols, v, m[i], |below|, i, n);
  }

  lemma PrefixOfPrefix(a: seq<Arc>, b: seq<Arc>, c: seq<Arc>)
    requires a + b <= c
    ensures a <= c
  {
  }

  lemma {:induction false} ObjectiveBelow(cols: seq<Col>, v: seq<real>, arcs: seq<Arc>, m: Matrix, n: nat, i: nat)
    requires TermsAre(cols, v, arcs, m) && |arcs| <= |cols| <= |v|
    requires Square(m, n) && forall d | 0 <= d < n :: m[d][d] == 0.0
    requires i <= n && ArcsBelow(n, i) <= arcs
    ensures Objective(cols, v, |ArcsBelow(n, i)|) == Total(m, i)
  {
    if i > 0 {
      var below := ArcsBelow(n, i - 1);
      PrefixOfPrefix(below, ArcsOfNode(i - 1, n), arcs);
      ObjectiveBelow(cols, v, arcs, m, n, i - 1);
      ObjectiveNode(cols, v, arcs, m, below, i - 1, n);
    }
  }

  lemma {:induction false} ObjectiveFlow(inst: Instance, t: ArcTable, v: seq<real>, k: nat)
    requires inst.WellFormed() && t.Valid(inst.Nodes()) && |v| == 2 * |t.arcs|
    requires k <= |t.arcs|
    ensures Objective(ModelCols(inst, t), v, |t.arcs| + k) == Objective(ModelCols(inst, t), v, |t.arcs|)
  {
    if k > 0 {
      ObjectiveFlow(inst, t, v, k - 1);
      assert ModelCols(inst, t)[|t.arcs| + k - 1].cost == 0.0;
    }
  }

  lemma ObjectiveArcs(inst: Instance, t: ArcTable, v: seq<real>, cols: seq<Col>, m: Matrix)
    requires inst.WellFormed() && t.Valid(inst.Nodes()) && |v| == 2 * |t.arcs|
    requires ArcPoint(inst.Nodes(), X(t, inst.Nodes(), v))
    requires cols == ModelCols(inst, t) && m == CostMatrix(inst, X(t, inst.Nodes(), v))
    ensures Objective(cols, v, |t.arcs|) == Total(m, inst.Nodes())
  {
    var n := inst.Nodes();
    ArcsBelowMember(n, n);
    forall k | 0 <= k < |t.arcs|
      ensures t.arcs[k].0 < |m| && TermIs(cols, v, k, m[t.arcs[k].0], t.arcs[k].1)
    {
      ObjectiveTerm(inst, t, v, k, t.arcs[k].0, t.arcs[k].1);
    }
    ObjectiveBelow(cols, v, t.arcs, m, n, n);
  }

  // The solver's objective is the cost of the selected arcs.
  lemma ObjectiveMeaning(inst: Instance, t: ArcTable, v: seq<real>)
    requires inst.WellFormed() && t.Valid(inst.Nodes()) && |v| == 2 * |t.arcs|
    requires ArcPoint(inst.Nodes(), X(t, inst.Nodes(), v))
    ensures Objective(ModelCols(inst, t), v, |v|) == Total(CostMatrix(inst, X(t, inst.Nodes(), v)), inst.Nodes())
  {
    ObjectiveArcs(inst, t, v, ModelCols(inst, t), CostMatrix(inst, X(t, inst.Nodes(), v)));
    ObjectiveFlow(inst, t, v, |t.arcs|);
  }
}
