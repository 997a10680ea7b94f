// Soundness of the flow model: when its points decode into accepted solutions, and
// exactly for which instances all of them do.
module CvrpSoundness {
  import opened Wrappers
  import opened Sums
  import opened Milp
  import opened Cvrp
  import opened CvrpMilp
  import opened CvrpFlow
  import opened CvrpExtract
  import opened CvrpRoutes

  ghost predicate NonNegativeDemand(inst: Instance) {
    forall c | 0 <= c < inst.Nodes() :: inst.demand[c] >= 0
  }

  // ----- loads -----

  // Every leg of the route is an arc of x.
  ghost predicate Rides(n: nat, x: Matrix, route: Route)
    requires 1 <= n && Square(x, n)
  {
    Serves(n, route) && forall k | 0 <= k <= |route| :: RidesLeg(n, x, route, k)
  }

  ghost predicate RidesLeg(n: nat, x: Matrix, route: Route, k: nat)
    requires 1 <= n && Square(x, n)
  {
    0 <= Stop(0, route, k) < n && 0 <= Stop(0, route, k + 1) < n && x[Stop(0, route, k)][Stop(0, route, k + 1)] == 1.0
  }

  // All that flows into a customer comes over its one arc, and all that leaves it too.
  lemma InflowOver(inst: Instance, x: Matrix, f: Matrix, p: nat, c: nat)
    requires inst.WellFormed() && FlowFeasible(inst, x, f) && Customer(inst.Nodes(), c)
    requires p < inst.Nodes() && x[p][c] == 1.0
    ensures Sum(Column(f, c)) == f[p][c]
  {
    var n := inst.Nodes();
    assert DegreeAt(x, c) && Binary(Column(x, c));
    var q := BinaryUnit(Column(x, c), n);
    assert Column(x, c)[p] == 1.0;
    forall i | 0 <= i < n && i != p ensures Column(f, c)[i] == 0.0 {
      assert Column(x, c)[i] == x[i][c];
    }
    PrefixSingle(Column(f, c), p, n);
  }

  lemma OutflowOver(inst: Instance, x: Matrix, f: Matrix, c: nat, s: nat)
    requires inst.WellFormed() && FlowFeasible(inst, x, f) && Customer(inst.Nodes(), c)
    requires s < inst.Nodes() && x[c][s] == 1.0
    ensures Sum(f[c]) == f[c][s]
  {
    var n := inst.Nodes();
    assert DegreeAt(x, c) && Binary(x[c]);
    var q := BinaryUnit(x[c], n);
    PrefixSingle(f[c], s, n);
  }

  // The load on the leg into the k-th stop covers that stop and everything after it.
  lemma {:induction false} LoadOnLeg(inst: Instance, x: Matrix, f: Matrix, route: Route, k: nat)
    requires inst.WellFormed() && FlowFeasible(inst, x, f) && Rides(inst.Nodes(), x, route) && k < |route|
    ensures RidesLeg(inst.Nodes(), x, route, k) && Customer(inst.Nodes(), route[k])
    ensures LoadFrom(inst, route, k) as real <= f[Stop(0, route, k)][route[k]]
    decreases |route| - k
  {
    var n, c := inst.Nodes(), route[k];
    assert RidesLeg(n, x, route, k) && RidesLeg(n, x, route, k + 1) && Customer(n, c);
    InflowOver(inst, x, f, Stop(0, route, k), c);
    OutflowOver(inst, x, f, c, Stop(0, route, k + 2));
    assert ConservedAt(inst, f, c);
    if k + 1 < |route| {
      LoadOnLeg(inst, x, f, route, k + 1);
    } else {
      assert LoadFrom(inst, route, k + 1) == 0;
      assert f[c][0] >= 0.0;
    }
  }

  lemma RouteWithinCapacity(inst: Instance, x: Matrix, f: Matrix, route: Route)
    requires inst.WellFormed() && FlowFeasible(inst, x, f) && Rides(inst.Nodes(), x, route) && route != []
    ensures LoadFrom(inst, route, 0) <= inst.capacity
  {
    LoadOnLeg(inst, x, f, route, 0);
    assert f[0][route[0]] <= inst.capacity as real;
  }

  lemma RealisedRides(n: nat, x: Matrix, selected: set<Arc>, routes: seq<Route>, r: nat)
    requires 1 <= n && Square(x, n) && ArcsOf(n, x, selected) && Realises(n, selected, routes) && r < |routes|
    ensures Rides(n, x, routes[r])
  {
    var route := routes[r];
    forall k: nat | k <= |route| ensures RidesLeg(n, x, route, k) {
      assert k > 0 ==> Customer(n, route[k - 1]);
      assert k < |route| ==> Customer(n, route[k]);
      var i: nat, j: nat := Stop(0, route, k), Stop(0, route, k + 1);
      assert LegAt(routes, r, k, i, j);
      assert Leg(routes, i, j);
    }
  }

  // A feasible flow keeps every route within capacity.
  lemma FlowWithinCapacity(inst: Instance, x: Matrix, f: Matrix, selected: set<Arc>, routes: seq<Route>)
    requires inst.WellFormed() && FlowFeasible(inst, x, f)
    requires ArcsOf(inst.Nodes(), x, selected) && Realises(inst.Nodes(), selected, routes)
    ensures WithinCapacity(inst, routes)
  {
    forall r | 0 <= r < |routes| ensures LoadFrom(inst, routes[r], 0) <= inst.capacity {
      RealisedRides(inst.Nodes(), x, selected, routes, r);
      RouteWithinCapacity(inst, x, f, routes[r]);
    }
  }

  // ----- unserved customers -----

  // No selected arc leads into u from outside.
  ghost predicate Unreached(selected: set<Arc>, u: set<nat>) {
    forall i, j | (i, j) in selected && j in u :: i in u
  }

  // Summed over a set nothing enters, conservation leaves at most zero demand.
  lemma UnreachedDemand(inst: Instance, x: Matrix, f: Matrix, selected: set<Arc>, u: set<nat>, demand: Vector)
    requires inst.WellFormed() && FlowFeasible(inst, x, f) && ArcsOf(inst.Nodes(), x, selected)
    requires u <= Customers(inst.Nodes()) && Unreached(selected, u)
    requires |demand| == inst.Nodes() && forall c | 0 <= c < inst.Nodes() :: demand[c] == inst.demand[c] as real
    ensures MaskedSum(demand, u, inst.Nodes()) <= 0.0
  {
    var n := inst.Nodes();
    var inflow := seq(n, c requires 0 <= c < n => Sum(Column(f, c)));
    var outflow := RowSums(f);
    forall c | 0 <= c < n && c in u ensures demand[c] == inflow[c] - outflow[c] {
      assert c in Customers(n);
      assert ConservedAt(inst, f, c);
    }
    MaskedSumLinear(demand, inflow, outflow, u, n);
    var t := Transpose(f);
    forall j | 0 <= j < n && j in u ensures inflow[j] == MaskedSum(t[j], u, n) {
      assert t[j] == Column(f, j);
      forall i | 0 <= i < n && i !in u ensures t[j][i] == 0.0 {
        if i != j { assert (i, j) !in selected; }
      }
      MaskedSumFull(t[j], u, n);
    }
    InflowIsBlock(t, inflow, u, n);
    BlockSwap(f, u, u);
    TransposeTwice(f);
    BlockBelowRows(f, u, n);
  }

  lemma TransposeTwice(m: Matrix)
    requires Square(m, |m|)
    ensures Transpose(Transpose(m)) == m
  {
    var t := Transpose(Transpose(m));
    forall i | 0 <= i < |m| ensures t[i] == m[i] {
      assert forall j | 0 <= j < |m| :: t[i][j] == m[i][j];
    }
  }

  lemma {:induction false} InflowIsBlock(t: Matrix, inflow: Vector, u: set<nat>, k: nat)
    requires Square(t, |t|) && |inflow| == |t| && k <= |t|
    requires forall j | 0 <= j < |t| && j in u :: inflow[j] == MaskedSum(t[j], u, |t|)
    ensures MaskedSum(inflow, u, k) == Block(t, u, u, k)
  {
    if k > 0 { InflowIsBlock(t, inflow, u, k - 1); }
  }

  lemma {:induction false} BlockBelowRows(f: Matrix, u: set<nat>, k: nat)
    requires Square(f, |f|) && k <= |f|
    requires forall i, j | 0 <= i < |f| && 0 <= j < |f| :: f[i][j] >= 0.0
    ensures Block(f, u, u, k) <= MaskedSum(RowSums(f), u, k)
  {
    if k > 0 {
      BlockBelowRows(f, u, k - 1);
      MaskedBelowSum(f[k - 1], u, |f|);
    }
  }

  lemma {:induction false} MaskedBelowSum(w: Vector, u: set<nat>, k: nat)
    requires k <= |w| && forall i | 0 <= i < |w| :: w[i] >= 0.0
    ensures MaskedSum(w, u, k) <= Prefix(w, k)
  {
    if k > 0 { MaskedBelowSum(w, u, k - 1); }
  }

  // Customers no route can reach have zero demand.
  lemma UnreachedDemandless(inst: Instance, x: Matrix, f: Matrix, selected: set<Arc>, u: set<nat>)
    requires inst.WellFormed() && NonNegativeDemand(inst)
    requires FlowFeasible(inst, x, f) && ArcsOf(inst.Nodes(), x, selected)
    requires u <= Customers(inst.Nodes()) && Unreached(selected, u)
    ensures forall c | c in u :: c < inst.Nodes() && inst.demand[c] == 0
  {
    var n := inst.Nodes();
    var demand := seq(n, c requires 0 <= c < n => inst.demand[c] as real);
    UnreachedDemand(inst, x, f, selected, u, demand);
    MaskedSumSign(demand, u, n);
    forall c | c in u ensures c < n && inst.demand[c] == 0 {
      assert c in Customers(n) && demand[c] <= 0.0;
    }
  }

  // And there are at least two of them, if any.
  lemma UnreachedAreIdle(inst: Instance, x: Matrix, f: Matrix, selected: set<Arc>, u: set<nat>)
    returns (a: nat, b: nat)
    requires inst.WellFormed() && NonNegativeDemand(inst)
    requires FlowFeasible(inst, x, f) && ArcsOf(inst.Nodes(), x, selected)
    requires u <= Customers(inst.Nodes()) && u != {} && Unreached(selected, u)
    ensures a in u && b in u && a != b && inst.demand[a] == 0 == inst.demand[b]
  {
    var n := inst.Nodes();
    UnreachedDemandless(inst, x, f, selected, u);
    b :| b in u;
    assert b in Customers(n) && DegreeAt(x, b);
    assert Binary(Column(x, b));
    a := BinaryUnit(Column(x, b), n);
    assert (a, b) in selected;
    assert a in Customers(n);
  }

  // ----- decoding a feasible point -----

  lemma PointArcs(inst: Instance, t: ArcTable, v: seq<real>)
    requires inst.WellFormed() && t.Valid(inst.Nodes()) && |v| == 2 * |t.arcs|
    requires ArcPoint(inst.Nodes(), X(t, inst.Nodes(), v))
    ensures ArcsOf(inst.Nodes(), X(t, inst.Nodes(), v), Selected(t.arcs, v))
  {
    var n := inst.Nodes();
    SelectedArcs(n, t, v);
    var x := X(t, n, v);
    forall i, j | 0 <= i < n && 0 <= j < n
      ensures x[i][j] == 1.0 <==> (i, j) in Selected(t.arcs, v)
    {
      ArcsBelowMember(n, n);
    }
  }

  // With degree one everywhere no customer is ambiguous and no walk gets stuck.
  lemma DegreesAreGood(n: nat, x: Matrix, selected: set<Arc>, c: nat)
    requires ArcPoint(n, x) && DegreeOne(n, x) && ArcsOf(n, x, selected) && Customer(n, c)
    ensures !BadDegree(selected, c)
    ensures forall i, j | (c, i) in selected && (c, j) in selected :: i == j
  {
    assert DegreeAt(x, c);
    assert Binary(x[c]) && Binary(Column(x, c));
    var s := BinaryUnit(x[c], n);
    var p := BinaryUnit(Column(x, c), n);
    assert (c, s) in selected;
    forall q | (q, c) in selected ensures q == p {
      assert Column(x, c)[q] == 1.0;
    }
    forall q | (c, q) in selected ensures q == s {
      assert x[c][q] == 1.0;
    }
  }

  // A feasible point that does not decode leaves two zero-demand customers on a cycle
  // of their own.
  lemma UndecodedIsIdle(inst: Instance, t: ArcTable, v: seq<real>) returns (a: nat, b: nat)
    requires inst.WellFormed() && NonNegativeDemand(inst) && t.Valid(inst.Nodes())
    requires Feasible(ModelCols(inst, t), ModelRows(inst, t), v)
    requires |t.arcs| <= |v| && Extract(inst.Nodes(), t, v).Err?
    ensures Customer(inst.Nodes(), a) && Customer(inst.Nodes(), b) && a != b
    ensures inst.demand[a] == 0 == inst.demand[b]
  {
    RowsMeaning(inst, t, v);
    var n := inst.Nodes();
    var x, f, selected := X(t, n, v), F(t, n, v), Selected(t.arcs, v);
    PointArcs(inst, t, v);
    SelectedArcs(n, t, v);
    ExtractOutcome(n, t, v);
    var e := Extract(n, t, v).error;
    if e.AmbiguousSuccessor? {
      UniqueSuccessor(n, t, v, x, e.node);
      assert false;
    } else if e.CustomerCycle? {
      DegreesAreGood(n, x, selected, e.node);
      assert false;
    } else {
      var succ :| InRange(n, succ) && SuccOf(selected, succ);
      var found :| Finished(n, selected, found, e.visited);
      var u := UnvisitedIsUnreached(n, selected, succ, found, e.visited);
      a, b := UnreachedAreIdle(inst, x, f, selected, u);
      assert a in Customers(n) && b in Customers(n);
    }
  }

  lemma UniqueSuccessor(n: nat, t: ArcTable, v: seq<real>, x: Matrix, c: nat)
    requires t.Valid(n) && |t.arcs| <= |v|
    requires ArcPoint(n, x) && DegreeOne(n, x) && ArcsOf(n, x, Selected(t.arcs, v))
    ensures !TwiceSelected(t.arcs, v, |t.arcs|, c)
  {
    if c != 0 {
      forall k, l | 0 <= k < l < |t.arcs| && v[k] > 0.5 && v[l] > 0.5
        ensures !(t.arcs[k].0 == c == t.arcs[l].0)
      {
        assert t.arcs[k] in Selected(t.arcs, v) && t.arcs[l] in Selected(t.arcs, v);
        ArcsBelowMember(n, n);
        if t.arcs[k].0 == c { DegreesAreGood(n, x, Selected(t.arcs, v), c); }
        assert t.arcs[k] != t.arcs[l];
        assert t.arcs[k] == (t.arcs[k].0, t.arcs[k].1) && t.arcs[l] == (t.arcs[l].0, t.arcs[l].1);
      }
    }
  }

  lemma UnvisitedIsUnreached(n: nat, selected: set<Arc>, succ: map<nat, nat>, found: seq<seq<nat>>, visited: set<nat>)
    returns (u: set<nat>)
    requires 1 <= n && SuccOf(selected, succ) && ArcsInRange(n, selected)
    requires Finished(n, selected, found, visited) && |visited| != n - 1
    ensures u == Customers(n) - visited && u != {} && Unreached(selected, u)
  {
    VisitedAreCustomers(n, selected, found, visited);
    CustomersSize(n);
    u := Customers(n) - visited;
    assert |u| == |Customers(n)| - |visited|;
    forall i, j | (i, j) in selected && j in u ensures i in u {
      if i == 0 || i in visited { VisitedClosed(n, selected, succ, found, visited, i, j); }
    }
  }

  // At most one customer has zero demand.
  ghost predicate AtMostOneIdle(inst: Instance) {
    forall a, b | Customer(inst.Nodes(), a) && Customer(inst.Nodes(), b) && inst.demand[a] == 0 == inst.demand[b] :: a == b
  }

  // A decoded point is an accepted solution at the solver's own objective value.
  lemma DecodedIsAccepted(inst: Instance, t: ArcTable, v: seq<real>)
    requires inst.WellFormed() && inst.depot == 0 && t.Valid(inst.Nodes())
    requires Feasible(ModelCols(inst, t), ModelRows(inst, t), v)
    requires |t.arcs| <= |v| && Extract(inst.Nodes(), t, v).Ok?
    ensures var routes := Extract(inst.Nodes(), t, v).value;
      && Realises(inst.Nodes(), Selected(t.arcs, v), routes)
      && Accepted(inst, Solution(routes, RoutesCost(inst, routes, |routes|)))
      && Objective(ModelCols(inst, t), v, |v|) == RoutesCost(inst, routes, |routes|) as real
  {
    var n := inst.Nodes();
    var routes := Extract(n, t, v).value;
    RowsMeaning(inst, t, v);
    PointArcs(inst, t, v);
    ExtractExact(n, t, v);
    FlowWithinCapacity(inst, X(t, n, v), F(t, n, v), Selected(t.arcs, v), routes);
    CostOfArcs(inst, X(t, n, v), Selected(t.arcs, v), routes);
    ObjectiveMeaning(inst, t, v);
  }

  // Soundness: with at most one zero-demand customer, every integer point of the model
  // decodes into accepted routes whose cost is the objective.
  lemma Soundness(inst: Instance, t: ArcTable, v: seq<real>)
    requires inst.WellFormed() && inst.depot == 0 && NonNegativeDemand(inst) && t.Valid(inst.Nodes())
    requires Feasible(ModelCols(inst, t), ModelRows(inst, t), v)
    requires AtMostOneIdle(inst)
    ensures |t.arcs| <= |v| && Extract(inst.Nodes(), t, v).Ok?
    ensures var routes := Extract(inst.Nodes(), t, v).value;
      && Realises(inst.Nodes(), Selected(t.arcs, v), routes)
      && Accepted(inst, Solution(routes, RoutesCost(inst, routes, |routes|)))
      && Objective(ModelCols(inst, t), v, |v|) == RoutesCost(inst, routes, |routes|) as real
  {
    assert |v| == 2 * |t.arcs|;
    if Extract(inst.Nodes(), t, v).Err? {
      var a, b := UndecodedIsIdle(inst, t, v);
      assert false;
    }
    DecodedIsAccepted(inst, t, v);
  }

  datatype DecodeError = NotRoutes(error: ExtractError) | ObjectiveMismatch(objective: int, cost: int)

  // Adds the cost of one route, from the depot and back, to a running total.
  method AddRoute(inst: Instance, route: Route, cost: int) returns (total: int)
    requires inst.WellFormed() && inst.depot == 0 && Serves(inst.Nodes(), route)
    ensures total == cost + RouteCost(inst, route)
  {
    total := cost;
    var previous: int := 0;
    for k := 0 to |route|
      invariant previous == Stop(0, route, k)
      invariant total == cost + TravelCost(inst, route, k)
    {
      total := total + inst.cost[previous][route[k]];
      previous := route[k];
    }
    total := total + inst.cost[previous][0];
  }

  method RecomputeCost(inst: Instance, routes: seq<Route>) returns (cost: int)
    requires inst.WellFormed() && inst.depot == 0
    requires forall i | 0 <= i < |routes| :: Serves(inst.Nodes(), routes[i])
    ensures cost == RoutesCost(inst, routes, |routes|)
  {
    cost := 0;
    for i := 0 to |routes|
      invariant cost == RoutesCost(inst, routes, i)
    {
      cost := AddRoute(inst, routes[i], cost);
    }
  }

  // The tail of the adapter: extract, recompute the cost leg by leg, compare with the
  // solver's objective.
  method Decode(inst: Instance, t: ArcTable, v: seq<real>, objective: int)
    returns (r: Result<Solution, DecodeError>)
    requires inst.WellFormed() && inst.depot == 0 && t.Valid(inst.Nodes())
    requires Feasible(ModelCols(inst, t), ModelRows(inst, t), v)
    requires Objective(ModelCols(inst, t), v, |v|) == objective as real
    ensures r.Ok? <==> Extract(inst.Nodes(), t, v).Ok?
    ensures r.Ok? ==> Accepted(inst, r.value) && r.value.cost == objective
    ensures NonNegativeDemand(inst) && AtMostOneIdle(inst) ==> r.Ok?
  {
    if NonNegativeDemand(inst) && AtMostOneIdle(inst) { Soundness(inst, t, v); }
    var extracted := ExtractRoutes(inst.Nodes(), t, v);
    if extracted.Err? { return Err(NotRoutes(extracted.error)); }
    DecodedIsAccepted(inst, t, v);
    var routes := extracted.value;
    var cost := RecomputeCost(inst, routes);
    if cost != objective { return Err(ObjectiveMismatch(objective, cost)); }
    return Ok(Solution(routes, cost));
  }
}
