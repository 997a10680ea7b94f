// The converse direction: every accepted set of routes is a point of the model at the
// same cost, and the instances for which all points decode are characterised exactly.
module CvrpExactness {
  import opened Sums
  import opened Milp
  import opened Cvrp
  import opened CvrpMilp
  import opened CvrpFlow
  import opened CvrpExtract
  import opened CvrpRoutes
  import opened CvrpSoundness

  // ----- points from matrices -----

  ghost function PointOf(t: ArcTable, n: nat, x: Matrix, f: Matrix): (v: seq<real>)
    requires t.Valid(n) && Square(x, n) && Square(f, n)
    ensures |v| == 2 * |t.arcs|
  {
    ArcsBelowMember(n, n);
    seq(|t.arcs|, k requires 0 <= k < |t.arcs| => x[t.arcs[k].0][t.arcs[k].1]) +
    seq(|t.arcs|, k requires 0 <= k < |t.arcs| => f[t.arcs[k].0][t.arcs[k].1])
  }

  lemma PointOfMatrices(t: ArcTable, n: nat, x: Matrix, f: Matrix)
    requires t.Valid(n) && Square(x, n) && Square(f, n)
    requires forall i | 0 <= i < n :: x[i][i] == 0.0 && f[i][i] == 0.0
    ensures X(t, n, PointOf(t, n, x, f)) == x
    ensures F(t, n, PointOf(t, n, x, f)) == f
  {
    var v := PointOf(t, n, x, f);
    ArcsBelowMember(n, n);
    forall i | 0 <= i < n ensures X(t, n, v)[i] == x[i] && F(t, n, v)[i] == f[i] {
      forall j | 0 <= j < n ensures X(t, n, v)[i][j] == x[i][j] && F(t, n, v)[i][j] == f[i][j] {
        if i != j { assert t.arcs[t.col[(i, j)]] == (i, j); }
      }
    }
  }

  // ----- the matrices of a set of routes -----

  lemma LegAtUnique(n: nat, routes: seq<Route>, r: nat, k: nat, r': nat, k': nat, i: int, j: int)
    requires Partition(n, routes) && (i != 0 || j != 0)
    requires LegAt(routes, r, k, i, j) && LegAt(routes, r', k', i, j)
    ensures r == r' && k == k'
  {
    if i != 0 {
      assert routes[r][k - 1] == routes[r'][k' - 1];
    } else {
      assert routes[r][k] == routes[r'][k'];
    }
  }

  lemma LegEnds(n: nat, routes: seq<Route>, i: int, j: int)
    requires Partition(n, routes) && (forall r | 0 <= r < |routes| :: routes[r] != [])
    requires Leg(routes, i, j) && 1 <= n
    ensures 0 <= i < n && 0 <= j < n && i != j
  {
    var r: nat, k: nat :| LegAt(routes, r, k, i, j);
    assert 1 <= k ==> Customer(n, routes[r][k - 1]);
    assert k < |routes[r]| ==> Customer(n, routes[r][k]);
  }

  ghost function LegArcs(n: nat, routes: seq<Route>): set<Arc> {
    set i: nat, j: nat | i < n && j < n && Leg(routes, i, j) :: (i, j)
  }

  ghost function RouteMatrix(n: nat, routes: seq<Route>): (x: Matrix)
    ensures Square(x, n)
    ensures forall i, j | 0 <= i < n && 0 <= j < n :: x[i][j] == if Leg(routes, i, j) then 1.0 else 0.0
  {
    seq(n, i requires 0 <= i < n => seq(n, j requires 0 <= j < n => if Leg(routes, i, j) then 1.0 else 0.0))
  }

  // Load on a leg: the demand of the stops it still leads to.
  ghost function LegLoad(inst: Instance, routes: seq<Route>, i: int, j: int): real
    requires Partition(inst.Nodes(), routes)
  {
    if Leg(routes, i, j) then
      var r: nat, k: nat :| LegAt(routes, r, k, i, j);
      LoadFrom(inst, routes[r], k) as real
    else 0.0
  }

  ghost function LoadMatrix(inst: Instance, routes: seq<Route>): (f: Matrix)
    requires Partition(inst.Nodes(), routes)
    ensures Square(f, inst.Nodes())
    ensures forall i, j | 0 <= i < inst.Nodes() && 0 <= j < inst.Nodes() :: f[i][j] == LegLoad(inst, routes, i, j)
  {
    var n := inst.Nodes();
    seq(n, i requires 0 <= i < n => seq(n, j requires 0 <= j < n => LegLoad(inst, routes, i, j)))
  }

  lemma LegLoadAt(inst: Instance, routes: seq<Route>, r: nat, k: nat, i: int, j: int)
    requires Partition(inst.Nodes(), routes) && (i != 0 || j != 0)
    requires LegAt(routes, r, k, i, j)
    ensures LegLoad(inst, routes, i, j) == LoadFrom(inst, routes[r], k) as real
  {
    assert Leg(routes, i, j);
    var r': nat, k': nat :| LegAt(routes, r', k', i, j) &&
      LegLoad(inst, routes, i, j) == LoadFrom(inst, routes[r'], k') as real;
    LegAtUnique(inst.Nodes(), routes, r, k, r', k', i, j);
  }

  ghost predicate Routable(inst: Instance, routes: seq<Route>) {
    && inst.WellFormed() && inst.depot == 0 && NonNegativeDemand(inst)
    && Partition(inst.Nodes(), routes) && WithinCapacity(inst, routes)
    && (forall r | 0 <= r < |routes| :: routes[r] != [])
  }

  lemma LegArcsRealise(n: nat, routes: seq<Route>)
    requires 1 <= n && Partition(n, routes) && (forall r | 0 <= r < |routes| :: routes[r] != [])
    ensures Realises(n, LegArcs(n, routes), routes)
    ensures ArcsOf(n, RouteMatrix(n, routes), LegArcs(n, routes))
  {
    forall i: nat, j: nat | Leg(routes, i, j) ensures (i, j) in LegArcs(n, routes) {
      LegEnds(n, routes, i, j);
    }
    forall i, j | (i, j) in LegArcs(n, routes) ensures i < n && j < n && i != j {
      LegEnds(n, routes, i, j);
    }
  }

  lemma RouteMatrixPoint(n: nat, routes: seq<Route>)
    requires 1 <= n && Partition(n, routes) && (forall r | 0 <= r < |routes| :: routes[r] != [])
    ensures ArcPoint(n, RouteMatrix(n, routes))
  {
    forall i | 0 <= i < n ensures RouteMatrix(n, routes)[i][i] == 0.0 {
      if Leg(routes, i, i) { LegEnds(n, routes, i, i); }
    }
  }

  lemma {:induction false} LoadFromBounds(inst: Instance, route: Route, k: nat)
    requires NonNegativeDemand(inst) && Serves(inst.Nodes(), route) && k <= |route|
    ensures 0 <= LoadFrom(inst, route, k) <= LoadFrom(inst, route, 0)
  {
    LoadFromSign(inst, route, k);
    if k > 0 {
      assert Customer(inst.Nodes(), route[k - 1]);
      LoadFromBounds(inst, route, k - 1);
    }
  }

  lemma {:induction false} LoadFromSign(inst: Instance, route: Route, k: nat)
    requires NonNegativeDemand(inst) && Serves(inst.Nodes(), route) && k <= |route|
    ensures 0 <= LoadFrom(inst, route, k)
    decreases |route| - k
  {
    if k < |route| {
      assert Customer(inst.Nodes(), route[k]);
      LoadFromSign(inst, route, k + 1);
    }
  }

  lemma LoadMatrixPoint(inst: Instance, routes: seq<Route>)
    requires Routable(inst, routes)
    ensures LoadPoint(inst, RouteMatrix(inst.Nodes(), routes), LoadMatrix(inst, routes))
  {
    var n, f := inst.Nodes(), LoadMatrix(inst, routes);
    forall i | 0 <= i < n ensures f[i][i] == 0.0 {
      if Leg(routes, i, i) { LegEnds(n, routes, i, i); }
    }
    forall i, j | 0 <= i < n && 0 <= j < n && i != j
      ensures 0.0 <= f[i][j] <= inst.capacity as real
    {
      var c: int := if i != 0 then i else j;
      assert Customer(n, c);
      var q, l := LegFrom(n, routes, c);
      LoadFromBounds(inst, routes[q], 0);
      if Leg(routes, i, j) {
        var r: nat, k: nat :| LegAt(routes, r, k, i, j);
        LegLoadAt(inst, routes, r, k, i, j);
        LoadFromBounds(inst, routes[r], k);
      }
    }
  }

  // Row and column of one customer hold exactly its two legs.
  lemma StopRows(inst: Instance, routes: seq<Route>, c: nat)
    requires Routable(inst, routes) && Customer(inst.Nodes(), c)
    ensures DegreeAt(RouteMatrix(inst.Nodes(), routes), c)
    ensures ConservedAt(inst, LoadMatrix(inst, routes), c)
  {
    var n := inst.Nodes();
    var x, f := RouteMatrix(n, routes), LoadMatrix(inst, routes);
    var r, k := LegFrom(n, routes, c);
    assert k > 0 ==> Customer(n, routes[r][k - 1]);
    assert k + 1 < |routes[r]| ==> Customer(n, routes[r][k + 1]);
    var p: nat, s: nat := Stop(0, routes[r], k), Stop(0, routes[r], k + 2);
    assert Leg(routes, p, c) && Leg(routes, c, s);
    LegLoadAt(inst, routes, r, k, p, c);
    LegLoadAt(inst, routes, r, k + 1, c, s);
    forall i | 0 <= i < n && i != p ensures Column(x, c)[i] == 0.0 && Column(f, c)[i] == 0.0 {
      if Leg(routes, i, c) { PreviousUnique(n, routes, i, p, c); }
    }
    forall j | 0 <= j < n && j != s ensures x[c][j] == 0.0 && f[c][j] == 0.0 {
      if Leg(routes, c, j) { NextUnique(n, routes, c, j, s); }
    }
    PrefixSingle(Column(x, c), p, n);
    PrefixSingle(Column(f, c), p, n);
    PrefixSingle(x[c], s, n);
    PrefixSingle(f[c], s, n);
  }

  // ----- the depot row -----

  lemma {:induction false} DemandBelowSum(inst: Instance, demand: Vector, k: nat)
    requires |demand| == inst.Nodes() && k <= inst.Nodes()
    requires forall c | 0 <= c < inst.Nodes() :: demand[c] == inst.demand[c] as real
    ensures MaskedSum(demand, Customers(inst.Nodes()), k) == DemandBelow(inst, k) as real
  {
    if k > 0 { DemandBelowSum(inst, demand, k - 1); }
    if k == 1 { assert MaskedSum(demand, Customers(inst.Nodes()), 0) == 0.0; }
  }

  // A vector sums to its customer part plus its depot entry.
  lemma {:induction false} SplitDepot(w: Vector, n: nat, k: nat)
    requires 1 <= k <= |w| <= n
    ensures Prefix(w, k) == w[0] + MaskedSum(w, Customers(n), k)
  {
    if k == 1 {
      assert Prefix(w, 0) == 0.0 && MaskedSum(w, Customers(n), 0) == 0.0;
    } else {
      SplitDepot(w, n, k - 1);
    }
  }

  // When nothing returns to the depot, everything that leaves it is consumed.
  lemma DepotBalance(inst: Instance, f: Matrix)
    requires inst.WellFormed() && Square(f, inst.Nodes()) && Conserved(inst, f)
    requires forall i | 0 <= i < inst.Nodes() :: f[i][0] == 0.0
    ensures Sum(f[0]) == DemandBelow(inst, inst.Nodes()) as real
  {
    var n := inst.Nodes();
    var cs := Customers(n);
    var demand := seq(n, c requires 0 <= c < n => inst.demand[c] as real);
    var inner, outer := InnerIn(f, cs), InnerOut(f, cs);
    var rest := seq(n, c requires 0 <= c < n => demand[c] - f[0][c]);
    forall c | 0 <= c < n && c in cs ensures rest[c] == inner[c] - outer[c] {
      assert ConservedAt(inst, f, c);
      SplitDepot(Column(f, c), n, n);
      SplitDepot(f[c], n, n);
    }
    MaskedSumLinear(rest, inner, outer, cs, n);
    MaskedSumLinear(rest, demand, f[0], cs, n);
    InnerIsBlock(f, cs, outer, n);
    InnerIsBlock(Transpose(f), cs, inner, n);
    BlockSwap(f, cs, cs);
    DemandBelowSum(inst, demand, n);
    SplitDepot(f[0], n, n);
  }

  ghost function InnerIn(f: Matrix, cs: set<nat>): (w: Vector)
    requires Square(f, |f|)
    ensures |w| == |f|
    ensures forall j | 0 <= j < |f| :: w[j] == MaskedSum(Column(f, j), cs, |f|) && Transpose(f)[j] == Column(f, j)
  {
    assert forall j | 0 <= j < |f| :: Transpose(f)[j] == Column(f, j);
    seq(|f|, j requires 0 <= j < |f| => MaskedSum(Column(f, j), cs, |f|))
  }

  ghost function InnerOut(f: Matrix, cs: set<nat>): (w: Vector)
    requires Square(f, |f|)
    ensures |w| == |f| && forall i | 0 <= i < |f| :: w[i] == MaskedSum(f[i], cs, |f|)
  {
    seq(|f|, i requires 0 <= i < |f| => MaskedSum(f[i], cs, |f|))
  }

  lemma {:induction false} InnerIsBlock(f: Matrix, cs: set<nat>, w: Vector, k: nat)
    requires Square(f, |f|) && |w| == |f| && k <= |f|
    requires forall i | 0 <= i < |f| :: w[i] == MaskedSum(f[i], cs, |f|)
    ensures MaskedSum(w, cs, k) == Block(f, cs, cs, k)
  {
    if k > 0 { InnerIsBlock(f, cs, w, k - 1); }
  }

  lemma NoLoadReturns(inst: Instance, routes: seq<Route>, i: nat)
    requires Routable(inst, routes) && i < inst.Nodes()
    ensures LoadMatrix(inst, routes)[i][0] == 0.0
  {
    if Leg(routes, i, 0) {
      var r: nat, k: nat :| LegAt(routes, r, k, i, 0);
      LegEnds(inst.Nodes(), routes, i, 0);
      assert k < |routes[r]| ==> Customer(inst.Nodes(), routes[r][k]);
      LegLoadAt(inst, routes, r, k, i, 0);
    }
  }

  // Suffix demands make the legs of accepted routes a feasible flow.
  lemma RoutesAreFlow(inst: Instance, routes: seq<Route>)
    requires Routable(inst, routes)
    ensures FlowFeasible(inst, RouteMatrix(inst.Nodes(), routes), LoadMatrix(inst, routes))
  {
    var n := inst.Nodes();
    RouteMatrixPoint(n, routes);
    LoadMatrixPoint(inst, routes);
    forall c | 1 <= c < n
      ensures DegreeAt(RouteMatrix(n, routes), c) && ConservedAt(inst, LoadMatrix(inst, routes), c)
    {
      StopRows(inst, routes, c);
    }
    forall i | 0 <= i < n ensures LoadMatrix(inst, routes)[i][0] == 0.0 {
      NoLoadReturns(inst, routes, i);
    }
    DepotBalance(inst, LoadMatrix(inst, routes));
  }

  // ----- routes are determined by their arcs -----

  lemma {:induction false} SameStops(n: nat, selected: set<Arc>, a: seq<Route>, b: seq<Route>, r: nat, q: nat, k: nat)
    requires Realises(n, selected, a) && Realises(n, selected, b)
    requires r < |a| && q < |b| && a[r][0] == b[q][0]
    requires k <= |a[r]|
    ensures k <= |b[q]| && a[r][..k] == b[q][..k]
  {
    if k > 1 {
      SameStops(n, selected, a, b, r, q, k - 1);
      var i, j := a[r][k - 2], a[r][k - 1];
      assert Customer(n, i) && Customer(n, j);
      assert LegAt(a, r, k - 1, i, j);
      assert Leg(a, i as nat, j as nat);
      assert b[q][..k - 1][k - 2] == i;
      assert LegAt(b, q, k - 1, i, Stop(0, b[q], k));
      assert Leg(b, i, j) && Leg(b, i, Stop(0, b[q], k));
      NextUnique(n, b, i, j, Stop(0, b[q], k));
    }
  }

  lemma SameRoute(n: nat, selected: set<Arc>, a: seq<Route>, b: seq<Route>, r: nat)
    requires Realises(n, selected, a) && Realises(n, selected, b) && r < |a|
    ensures a[r] in b
  {
    var h := a[r][0];
    assert Customer(n, h);
    assert LegAt(a, r, 0, 0, h);
    assert Leg(a, 0, h as nat);
    LegFromDepot(n, b, h);
    var q :| 0 <= q < |b| && b[q] != [] && b[q][0] == h;
    SameStops(n, selected, a, b, r, q, |a[r]|);
    SameStops(n, selected, b, a, q, r, |b[q]|);
    assert a[r] == b[q];
  }

  // A feasible flow is a feasible point that selects the arcs of its matrix.
  lemma FlowIsPoint(inst: Instance, t: ArcTable, x: Matrix, f: Matrix)
    requires inst.WellFormed() && t.Valid(inst.Nodes()) && FlowFeasible(inst, x, f)
    ensures var v := PointOf(t, inst.Nodes(), x, f);
      && Feasible(ModelCols(inst, t), ModelRows(inst, t), v)
      && Objective(ModelCols(inst, t), v, |v|) == Total(CostMatrix(inst, x), inst.Nodes())
      && ArcsOf(inst.Nodes(), x, Selected(t.arcs, v))
  {
    var n := inst.Nodes();
    var v := PointOf(t, n, x, f);
    PointOfMatrices(t, n, x, f);
    RowsMeaning(inst, t, v);
    ObjectiveMeaning(inst, t, v);
    PointArcs(inst, t, v);
  }

  lemma SameRoutes(n: nat, selected: set<Arc>, a: seq<Route>, b: seq<Route>)
    requires Realises(n, selected, a) && Realises(n, selected, b)
    ensures forall route :: route in a <==> route in b
  {
    forall route | route in a ensures route in b {
      var r :| 0 <= r < |a| && a[r] == route;
      SameRoute(n, selected, a, b, r);
    }
    forall route | route in b ensures route in a {
      var r :| 0 <= r < |b| && b[r] == route;
      SameRoute(n, selected, b, a, r);
    }
  }

  // Completeness: accepted routes, none empty, are the image of a feasible point with
  // the same objective, and decoding that point gives the same routes back.
  lemma Completeness(inst: Instance, t: ArcTable, sol: Solution) returns (v: seq<real>)
    requires t.Valid(inst.Nodes()) && Routable(inst, sol.routes) && Accepted(inst, sol)
    ensures Feasible(ModelCols(inst, t), ModelRows(inst, t), v) && |t.arcs| <= |v|
    ensures Objective(ModelCols(inst, t), v, |v|) == sol.cost as real
    ensures Extract(inst.Nodes(), t, v).Ok?
    ensures forall route :: route in sol.routes <==> route in Extract(inst.Nodes(), t, v).value
  {
    var n, routes := inst.Nodes(), sol.routes;
    var x, f := RouteMatrix(n, routes), LoadMatrix(inst, routes);
    RoutesAreFlow(inst, routes);
    v := PointOf(t, n, x, f);
    FlowIsPoint(inst, t, x, f);
    LegArcsRealise(n, routes);
    CostOfArcs(inst, x, LegArcs(n, routes), routes);
    SameArcs(n, x, Selected(t.arcs, v), LegArcs(n, routes));
    ExtractExact(n, t, v);
    SameRoutes(n, LegArcs(n, routes), routes, Extract(n, t, v).value);
  }

  lemma SameArcs(n: nat, x: Matrix, a: set<Arc>, b: set<Arc>)
    requires Square(x, n) && ArcsOf(n, x, a) && ArcsOf(n, x, b)
    ensures a == b
  {
    forall e | e in a ensures e in b { assert (e.0, e.1) in a && x[e.0][e.1] == 1.0; }
    forall e | e in b ensures e in a { assert (e.0, e.1) in b && x[e.0][e.1] == 1.0; }
  }

  // Some integer point of the model has objective k.
  ghost predicate ModelAttains(inst: Instance, t: ArcTable, k: int)
    requires inst.WellFormed() && t.Valid(inst.Nodes())
  {
    exists v :: Feasible(ModelCols(inst, t), ModelRows(inst, t), v) && Objective(ModelCols(inst, t), v, |v|) == k as real
  }

  // Some accepted solution without empty routes costs k.
  ghost predicate RoutesAttain(inst: Instance, k: int)
    requires inst.WellFormed()
  {
    exists sol: Solution :: Accepted(inst, sol) && sol.cost == k && forall r | 0 <= r < |sol.routes| :: sol.routes[r] != []
  }

  // Some integer point that decodes has objective k.
  ghost predicate DecodedAttains(inst: Instance, t: ArcTable, k: int)
    requires inst.WellFormed() && t.Valid(inst.Nodes())
  {
    exists v :: DecodesAt(inst, t, k, v)
  }

  ghost predicate DecodesAt(inst: Instance, t: ArcTable, k: int, v: seq<real>)
    requires inst.WellFormed() && t.Valid(inst.Nodes())
  {
    && Feasible(ModelCols(inst, t), ModelRows(inst, t), v) && Objective(ModelCols(inst, t), v, |v|) == k as real
    && |t.arcs| <= |v| && Extract(inst.Nodes(), t, v).Ok?
  }

  // The points that decode attain the costs of the accepted solutions, whatever the demands;
  // all points together attain at least those, and no others when all of them decode.
  lemma OptimaAgree(inst: Instance, t: ArcTable, k: int)
    requires inst.WellFormed() && inst.depot == 0 && NonNegativeDemand(inst) && t.Valid(inst.Nodes())
    ensures DecodedAttains(inst, t, k) <==> RoutesAttain(inst, k)
    ensures RoutesAttain(inst, k) ==> ModelAttains(inst, t, k)
    ensures AtMostOneIdle(inst) || Oversized(inst) ==> (ModelAttains(inst, t, k) <==> RoutesAttain(inst, k))
  {
    if v :| DecodesAt(inst, t, k, v) {
      var cost := PointToRoutes(inst, t, v);
      assert cost == k;
    }
    if RoutesAttain(inst, k) {
      var sol: Solution :| Accepted(inst, sol) && sol.cost == k && forall r | 0 <= r < |sol.routes| :: sol.routes[r] != [];
      var v := Completeness(inst, t, sol);
      assert DecodesAt(inst, t, k, v);
    }
    if (AtMostOneIdle(inst) || Oversized(inst)) && ModelAttains(inst, t, k) {
      AllPointsDecode(inst, t);
      var v :| Feasible(ModelCols(inst, t), ModelRows(inst, t), v) && Objective(ModelCols(inst, t), v, |v|) == k as real;
      assert DecodesAt(inst, t, k, v);
    }
  }

  lemma PointToRoutes(inst: Instance, t: ArcTable, v: seq<real>) returns (cost: int)
    requires inst.WellFormed() && inst.depot == 0 && t.Valid(inst.Nodes())
    requires Feasible(ModelCols(inst, t), ModelRows(inst, t), v)
    requires |t.arcs| <= |v| && Extract(inst.Nodes(), t, v).Ok?
    ensures Objective(ModelCols(inst, t), v, |v|) == cost as real && RoutesAttain(inst, cost)
  {
    DecodedIsAccepted(inst, t, v);
    var routes: seq<Route> := Extract(inst.Nodes(), t, v).value;
    cost := RoutesCost(inst, routes, |routes|);
    RoutesAttainCost(inst, Selected(t.arcs, v), routes);
  }

  lemma RoutesAttainCost(inst: Instance, selected: set<Arc>, routes: seq<Route>)
    requires inst.WellFormed() && Realises(inst.Nodes(), selected, routes)
    requires Accepted(inst, Solution(routes, RoutesCost(inst, routes, |routes|)))
    ensures RoutesAttain(inst, RoutesCost(inst, routes, |routes|))
  {
    var sol := Solution(routes, RoutesCost(inst, routes, |routes|));
    assert Accepted(inst, sol) && forall r | 0 <= r < |sol.routes| :: sol.routes[r] != [];
  }

  // ----- the exact condition -----

  // Some customer does not fit any vehicle.
  ghost predicate Oversized(inst: Instance) {
    exists c :: Customer(inst.Nodes(), c) && inst.demand[c] > inst.capacity
  }

  // A feasible flow brings each customer its whole demand over one arc.
  lemma DemandFits(inst: Instance, x: Matrix, f: Matrix, c: nat)
    requires inst.WellFormed() && FlowFeasible(inst, x, f) && Customer(inst.Nodes(), c)
    ensures inst.demand[c] <= inst.capacity
  {
    var n := inst.Nodes();
    assert DegreeAt(x, c) && ConservedAt(inst, f, c);
    assert Binary(Column(x, c));
    var p := BinaryUnit(Column(x, c), n);
    forall i | 0 <= i < n && i != p ensures Column(f, c)[i] == 0.0 {
      assert Column(x, c)[i] == x[i][c];
    }
    PrefixSingle(Column(f, c), p, n);
    MaskedBelowSum(f[c], {}, n);
    MaskedSumEmpty(f[c], n);
    assert p != c && f[p][c] <= inst.capacity as real;
  }

  lemma OversizedIsInfeasible(inst: Instance, t: ArcTable, v: seq<real>)
    requires inst.WellFormed() && t.Valid(inst.Nodes()) && Oversized(inst)
    ensures !Feasible(ModelCols(inst, t), ModelRows(inst, t), v)
  {
    RowsMeaning(inst, t, v);
    var n := inst.Nodes();
    var c :| Customer(n, c) && inst.demand[c] > inst.capacity;
    if Feasible(ModelCols(inst, t), ModelRows(inst, t), v) { DemandFits(inst, X(t, n, v), F(t, n, v), c); }
  }

  // Every customer but a and b alone on a route; a and b on a cycle of their own.
  ghost function CycleArc(a: nat, b: nat, i: nat, j: nat): real {
    if (i == a && j == b) || (i == b && j == a) then 1.0
    else if i == 0 && j != 0 && j != a && j != b then 1.0
    else if j == 0 && i != 0 && i != a && i != b then 1.0
    else 0.0
  }

  ghost function CycleMatrix(n: nat, a: nat, b: nat): (x: Matrix)
    ensures Square(x, n)
    ensures forall i, j | 0 <= i < n && 0 <= j < n :: x[i][j] == CycleArc(a, b, i, j)
  {
    seq(n, i requires 0 <= i < n => seq(n, j requires 0 <= j < n => CycleArc(a, b, i, j)))
  }

  ghost function CycleLoads(inst: Instance, a: nat, b: nat): (f: Matrix)
    ensures Square(f, inst.Nodes())
    ensures forall i, j | 0 <= i < inst.Nodes() && 0 <= j < inst.Nodes() ::
      f[i][j] == if i == 0 && j != 0 && j != a && j != b then inst.demand[j] as real else 0.0
  {
    var n := inst.Nodes();
    seq(n, i requires 0 <= i < n => seq(n, j requires 0 <= j < n =>
      if i == 0 && j != 0 && j != a && j != b then inst.demand[j] as real else 0.0))
  }

  lemma CycleStop(inst: Instance, a: nat, b: nat, c: nat)
    requires inst.WellFormed() && Customer(inst.Nodes(), a) && Customer(inst.Nodes(), b) && a != b
    requires inst.demand[a] == 0 == inst.demand[b] && Customer(inst.Nodes(), c)
    ensures DegreeAt(CycleMatrix(inst.Nodes(), a, b), c)
    ensures ConservedAt(inst, CycleLoads(inst, a, b), c)
  {
    var n := inst.Nodes();
    var x, f := CycleMatrix(n, a, b), CycleLoads(inst, a, b);
    var other: nat := if c == a then b else if c == b then a else 0;
    PrefixSingle(Column(x, c), other, n);
    PrefixSingle(x[c], other, n);
    PrefixSingle(Column(f, c), 0, n);
    PrefixZero(f[c], n);
  }

  lemma CycleIsFlow(inst: Instance, a: nat, b: nat)
    requires inst.WellFormed() && NonNegativeDemand(inst) && !Oversized(inst)
    requires Customer(inst.Nodes(), a) && Customer(inst.Nodes(), b) && a != b
    requires inst.demand[a] == 0 == inst.demand[b]
    ensures FlowFeasible(inst, CycleMatrix(inst.Nodes(), a, b), CycleLoads(inst, a, b))
  {
    var n := inst.Nodes();
    var x, f := CycleMatrix(n, a, b), CycleLoads(inst, a, b);
    forall c | 1 <= c < n ensures DegreeAt(x, c) && ConservedAt(inst, f, c) {
      CycleStop(inst, a, b, c);
    }
    assert inst.capacity >= 0;
    forall i, j | 0 <= i < n && 0 <= j < n && i != j
      ensures 0.0 <= f[i][j] <= inst.capacity as real && (x[i][j] == 0.0 ==> f[i][j] == 0.0)
    {
      assert j != 0 ==> Customer(n, j);
    }
    DepotBalance(inst, f);
  }

  lemma CycleDoesNotDecode(inst: Instance, t: ArcTable, a: nat, b: nat) returns (v: seq<real>)
    requires inst.WellFormed() && NonNegativeDemand(inst) && !Oversized(inst) && t.Valid(inst.Nodes())
    requires Customer(inst.Nodes(), a) && Customer(inst.Nodes(), b) && a != b
    requires inst.demand[a] == 0 == inst.demand[b]
    ensures Feasible(ModelCols(inst, t), ModelRows(inst, t), v) && |t.arcs| <= |v|
    ensures Extract(inst.Nodes(), t, v).Err?
  {
    var n := inst.Nodes();
    var x, f := CycleMatrix(n, a, b), CycleLoads(inst, a, b);
    CycleIsFlow(inst, a, b);
    v := PointOf(t, n, x, f);
    FlowIsPoint(inst, t, x, f);
    ExtractExact(n, t, v);
    forall routes ensures !Realises(n, Selected(t.arcs, v), routes) {
      CycleIsNotRouted(n, a, b, Selected(t.arcs, v), routes);
    }
  }

  lemma CycleIsNotRouted(n: nat, a: nat, b: nat, selected: set<Arc>, routes: seq<Route>)
    requires Customer(n, a) && Customer(n, b) && a != b && ArcsOf(n, CycleMatrix(n, a, b), selected)
    ensures !Realises(n, selected, routes)
  {
    if Realises(n, selected, routes) {
      var r, k := LegFrom(n, routes, a);
      EnteredFromOutside(n, selected, routes, a, b, r, k);
    }
  }

  // Along a route through a or b, some arc enters {a, b} from outside.
  lemma {:induction false} EnteredFromOutside(n: nat, selected: set<Arc>, routes: seq<Route>, a: nat, b: nat, r: nat, k: nat)
    requires Realises(n, selected, routes) && a != 0 && b != 0
    requires r < |routes| && k < |routes[r]| && (routes[r][k] == a || routes[r][k] == b)
    ensures exists i, j :: (i, j) in selected && (j == a || j == b) && i != a && i != b
  {
    var p, j := Stop(0, routes[r], k), routes[r][k];
    assert LegAt(routes, r, k, p, j);
    if p == a || p == b {
      EnteredFromOutside(n, selected, routes, a, b, r, k - 1);
    } else {
      assert k > 0 ==> Customer(n, routes[r][k - 1]);
      assert Leg(routes, p as nat, j as nat);
      assert (p as nat, j as nat) in selected;
    }
  }

  // All integer points decode exactly when at most one customer has zero demand, or the
  // model has no point at all because some customer exceeds the capacity.
  lemma AllPointsDecode(inst: Instance, t: ArcTable)
    requires inst.WellFormed() && inst.depot == 0 && NonNegativeDemand(inst) && t.Valid(inst.Nodes())
    ensures (forall v | Feasible(ModelCols(inst, t), ModelRows(inst, t), v) ::
               |t.arcs| <= |v| && Extract(inst.Nodes(), t, v).Ok?)
      <==> AtMostOneIdle(inst) || Oversized(inst)
  {
    if AtMostOneIdle(inst) || Oversized(inst) {
      forall v | Feasible(ModelCols(inst, t), ModelRows(inst, t), v)
        ensures |t.arcs| <= |v| && Extract(inst.Nodes(), t, v).Ok?
      {
        if Oversized(inst) { OversizedIsInfeasible(inst, t, v); } else { Soundness(inst, t, v); }
      }
    } else {
      var a, b :| Customer(inst.Nodes(), a) && Customer(inst.Nodes(), b) && inst.demand[a] == 0 == inst.demand[b] && a != b;
      var v := CycleDoesNotDecode(inst, t, a, b);
    }
  }

  // ----- the optimum where not all points decode -----

  // Two customers without demand, next to each other and far from the depot.
  function Remote(): Instance {
    Instance([0, 0, 0], 0, 0, [[0, 10, 10], [10, 0, 1], [10, 1, 0]])
  }

  lemma {:induction false} RemoteTravel(route: Route, k: nat)
    requires Serves(3, route) && route != [] && 0 < k <= |route|
    ensures TravelCost(Remote(), route, k) >= 10
  {
    if k == 1 {
      assert TravelCost(Remote(), route, 0) == 0 && Customer(3, route[0]);
    } else {
      RemoteTravel(route, k - 1);
      assert Customer(3, route[k - 2]) && Customer(3, route[k - 1]);
    }
  }

  lemma RemoteRoute(route: Route)
    requires Serves(3, route)
    ensures RouteCost(Remote(), route) >= if route == [] then 0 else 20
  {
    if route == [] {
      assert TravelCost(Remote(), route, 0) == 0;
    } else {
      RemoteTravel(route, |route|);
      assert Customer(3, route[|route| - 1]);
    }
  }

  lemma {:induction false} RemoteRoutes(routes: seq<Route>, k: nat)
    requires k <= |routes| && forall r | 0 <= r < |routes| :: Serves(3, routes[r]) && routes[r] != []
    ensures RoutesCost(Remote(), routes, k) >= 20 * k
  {
    if k > 0 {
      RemoteRoutes(routes, k - 1);
      RemoteRoute(routes[k - 1]);
    }
  }

  lemma ThreeTerms(w: Vector)
    requires |w| == 3
    ensures Sum(w) == w[0] + w[1] + w[2]
  {
    assert Prefix(w, 0) == 0.0;
    assert Prefix(w, 1) == Prefix(w, 0) + w[0];
    assert Prefix(w, 2) == Prefix(w, 1) + w[1];
    assert Prefix(w, 3) == Prefix(w, 2) + w[2];
  }

  lemma RemoteCycleCost()
    ensures Remote().WellFormed()
    ensures Total(CostMatrix(Remote(), CycleMatrix(3, 1, 2)), 3) == 2.0
  {
    var m := CostMatrix(Remote(), CycleMatrix(3, 1, 2));
    ThreeTerms(m[0]);
    ThreeTerms(m[1]);
    ThreeTerms(m[2]);
    assert Total(m, 1) == Sum(m[0]) && Total(m, 2) == Sum(m[0]) + Sum(m[1]);
  }

  // A cycle of two customers without demand is within the model's reach at its own cost.
  lemma CycleAttained(inst: Instance, t: ArcTable, a: nat, b: nat, k: int)
    requires inst.WellFormed() && NonNegativeDemand(inst) && !Oversized(inst) && t.Valid(inst.Nodes())
    requires Customer(inst.Nodes(), a) && Customer(inst.Nodes(), b) && a != b && inst.demand[a] == 0 == inst.demand[b]
    requires Total(CostMatrix(inst, CycleMatrix(inst.Nodes(), a, b)), inst.Nodes()) == k as real
    ensures ModelAttains(inst, t, k)
  {
    var n := inst.Nodes();
    CycleIsFlow(inst, a, b);
    FlowIsPoint(inst, t, CycleMatrix(n, a, b), CycleLoads(inst, a, b));
    var v := PointOf(t, n, CycleMatrix(n, a, b), CycleLoads(inst, a, b));
    assert Objective(ModelCols(inst, t), v, |v|) == k as real;
  }

  lemma RemoteDemands()
    ensures NonNegativeDemand(Remote()) && !Oversized(Remote())
  {
  }

  // There the model's optimum is a cycle that serves nobody: it attains 2, accepted solutions
  // cost 20 or more.
  lemma OptimumUndercut(t: ArcTable, k: int)
    requires t.Valid(3)
    ensures Remote().WellFormed() && ModelAttains(Remote(), t, 2)
    ensures RoutesAttain(Remote(), k) ==> k >= 20
  {
    RemoteCycleCost();
    RemoteDemands();
    CycleAttained(Remote(), t, 1, 2, 2);
    if RoutesAttain(Remote(), k) {
      var sol: Solution :| Accepted(Remote(), sol) && sol.cost == k && forall r | 0 <= r < |sol.routes| :: sol.routes[r] != [];
      assert Customer(3, 1) && Visited(sol.routes, 1);
      RemoteRoutes(sol.routes, |sol.routes|);
    }
  }
}
