// What all feasible points of the flow model are: the accepted solutions, except that customers
// without demand who are served alone may be joined into cycles that no route visits.
module CvrpPoints {
  import opened Collections
  import opened Sums
  import opened Milp
  import opened Cvrp
  import opened CvrpMilp
  import opened CvrpFlow
  import opened CvrpExtract
  import opened CvrpRoutes
  import opened CvrpSoundness
  import opened CvrpExactness

  ghost predicate Alone(routes: seq<Route>, c: nat) {
    exists r :: 0 <= r < |routes| && routes[r] == [c]
  }

  // x uses the legs of the routes, except that the customers of u, who ask for nothing and
  // have a route each, are linked among themselves instead: one arc into each and one out of
  // it, so that they form cycles.
  ghost predicate Rewired(inst: Instance, x: Matrix, routes: seq<Route>, u: set<nat>) {
    && Routable(inst, routes) && ArcPoint(inst.Nodes(), x) && u <= Customers(inst.Nodes())
    && (forall c | c in u :: c < inst.Nodes() && Idler(inst, x, routes, c))
    && (forall i: nat, j: nat | i < inst.Nodes() && j < inst.Nodes() && i !in u && j !in u ::
          x[i][j] == 1.0 <==> Leg(routes, i, j))
    && (forall i: nat, j: nat | i < inst.Nodes() && j < inst.Nodes() && (i in u) != (j in u) :: x[i][j] == 0.0)
  }

  ghost predicate Idler(inst: Instance, x: Matrix, routes: seq<Route>, c: nat)
    requires c < inst.Nodes() && Square(x, inst.Nodes())
  {
    inst.demand[c] == 0 && Alone(routes, c) && DegreeAt(x, c)
  }

  // ----- a rewired solution is a feasible flow -----

  lemma AloneLegs(n: nat, routes: seq<Route>, c: nat, i: int)
    requires Partition(n, routes) && Alone(routes, c) && Customer(n, c)
    ensures Leg(routes, i, c) ==> i == 0
    ensures Leg(routes, c, i) ==> i == 0
  {
    var r :| 0 <= r < |routes| && routes[r] == [c];
    assert LegAt(routes, r, 0, 0, c) && LegAt(routes, r, 1, c, 0);
    assert Leg(routes, 0, c) && Leg(routes, c, 0);
    if Leg(routes, i, c) { PreviousUnique(n, routes, i, 0, c); }
    if Leg(routes, c, i) { NextUnique(n, routes, c, i, 0); }
  }

  // No load rides the legs of a customer who is served alone and asks for nothing.
  lemma AloneLoads(inst: Instance, routes: seq<Route>, c: nat, i: nat)
    requires Routable(inst, routes) && Customer(inst.Nodes(), c) && inst.demand[c] == 0 && Alone(routes, c)
    ensures LegLoad(inst, routes, i, c) == 0.0 && LegLoad(inst, routes, c, i) == 0.0
  {
    var r :| 0 <= r < |routes| && routes[r] == [c];
    AloneLegs(inst.Nodes(), routes, c, i);
    assert LegAt(routes, r, 0, 0, c) && LegAt(routes, r, 1, c, 0);
    LegLoadAt(inst, routes, r, 0, 0, c);
    LegLoadAt(inst, routes, r, 1, c, 0);
    assert LoadFrom(inst, routes[r], 1) == 0 && LoadFrom(inst, routes[r], 0) == inst.demand[c];
  }

  // Away from u, a customer keeps its two legs.
  lemma KeptDegree(inst: Instance, x: Matrix, routes: seq<Route>, u: set<nat>, c: nat)
    requires Rewired(inst, x, routes, u) && Customer(inst.Nodes(), c) && c !in u
    ensures DegreeAt(x, c)
  {
    var n := inst.Nodes();
    var m := RouteMatrix(n, routes);
    StopRows(inst, routes, c);
    forall i | 0 <= i < n ensures x[i][c] == m[i][c] && x[c][i] == m[c][i] {
      if i in u {
        assert i in Customers(n) && Idler(inst, x, routes, i);
        AloneLegs(n, routes, i, c);
      }
    }
    assert x[c] == m[c];
    assert Column(x, c) == Column(m, c);
  }

  lemma RewiredLoads(inst: Instance, x: Matrix, routes: seq<Route>, u: set<nat>)
    requires Rewired(inst, x, routes, u)
    ensures LoadPoint(inst, x, LoadMatrix(inst, routes))
  {
    var n, f := inst.Nodes(), LoadMatrix(inst, routes);
    LoadMatrixPoint(inst, routes);
    forall i, j | 0 <= i < n && 0 <= j < n && i != j && x[i][j] == 0.0 ensures f[i][j] == 0.0 {
      if i in u {
        assert i in Customers(n) && Idler(inst, x, routes, i);
        AloneLoads(inst, routes, i, j);
      } else if j in u {
        assert j in Customers(n) && Idler(inst, x, routes, j);
        AloneLoads(inst, routes, j, i);
      }
    }
  }

  lemma RewiredIsFlow(inst: Instance, x: Matrix, routes: seq<Route>, u: set<nat>)
    requires Rewired(inst, x, routes, u)
    ensures FlowFeasible(inst, x, LoadMatrix(inst, routes))
  {
    var n := inst.Nodes();
    RoutesAreFlow(inst, routes);
    RewiredLoads(inst, x, routes, u);
    forall c | 1 <= c < n ensures DegreeAt(x, c) {
      if c in u { assert Idler(inst, x, routes, c); } else { KeptDegree(inst, x, routes, u, c); }
    }
  }

  // ----- a feasible flow is a rewired solution -----

  // The walks of the extraction finish at every feasible point, whatever they leave out.
  lemma WalksFinish(inst: Instance, t: ArcTable, v: seq<real>)
    returns (found: seq<seq<nat>>, visited: set<nat>, succ: map<nat, nat>)
    requires inst.WellFormed() && t.Valid(inst.Nodes()) && Feasible(ModelCols(inst, t), ModelRows(inst, t), v)
    ensures |t.arcs| <= |v| && SuccOf(Selected(t.arcs, v), succ)
    ensures Finished(inst.Nodes(), Selected(t.arcs, v), found, visited)
  {
    RowsMeaning(inst, t, v);
    var n := inst.Nodes();
    var x, selected := X(t, n, v), Selected(t.arcs, v);
    PointArcs(inst, t, v);
    SelectedArcs(n, t, v);
    ExtractOutcome(n, t, v);
    var e := Extract(n, t, v);
    if e.Err? && e.error.AmbiguousSuccessor? {
      UniqueSuccessor(n, t, v, x, e.error.node);
      assert false;
    } else if e.Err? && e.error.CustomerCycle? {
      DegreesAreGood(n, x, selected, e.error.node);
      assert false;
    } else {
      succ :| InRange(n, succ) && SuccOf(selected, succ);
      if e.Ok? {
        found := e.value;
        visited :| |visited| == n - 1 && Finished(n, selected, found, visited);
      } else {
        visited := e.error.visited;
        found :| Finished(n, selected, found, visited);
      }
    }
  }

  ghost predicate Walks(n: nat, x: Matrix, selected: set<Arc>, succ: map<nat, nat>, found: seq<seq<nat>>, visited: set<nat>,
                        u: set<nat>)
  {
    && 1 <= n && ArcPoint(n, x) && DegreeOne(n, x) && ArcsOf(n, x, selected)
    && SuccOf(selected, succ) && Finished(n, selected, found, visited)
    && u == Customers(n) - visited
  }

  lemma NothingEnters(n: nat, x: Matrix, selected: set<Arc>, succ: map<nat, nat>, found: seq<seq<nat>>, visited: set<nat>,
                      u: set<nat>)
    requires Walks(n, x, selected, succ, found, visited, u)
    ensures Unreached(selected, u)
  {
    forall i, j | (i, j) in selected && j in u ensures i in u {
      if i == 0 || i in visited { VisitedClosed(n, selected, succ, found, visited, i, j); }
    }
  }

  lemma {:induction false} ImageSize(s: set<nat>, f: map<nat, nat>)
    requires s <= f.Keys
    ensures |set a | a in s :: f[a]| <= |s|
  {
    if s == {} {
      assert (set a | a in s :: f[a]) == {};
    } else {
      var c :| c in s;
      ImageSize(s - {c}, f);
      assert (set a | a in s :: f[a]) == (set a | a in s - {c} :: f[a]) + {f[c]};
    }
  }

  // When f reaches all of u from within u, it does not lead out of u.
  lemma StaysInside(u: set<nat>, f: map<nat, nat>, i: nat)
    requires u <= f.Keys && i in u && forall j | j in u :: ReachedFrom(u, f, j)
    ensures f[i] in u
  {
    var inside := set a | a in u && f[a] in u;
    var image := set a | a in inside :: f[a];
    forall j | j in u ensures j in image {
      assert ReachedFrom(u, f, j);
      var a :| a in u && f[a] == j;
      assert a in inside;
    }
    ImageSize(inside, f);
    SubsetSize(u, image);
    SubsetSize(inside, u);
  }

  ghost predicate ReachedFrom(u: set<nat>, f: map<nat, nat>, j: nat)
    requires u <= f.Keys
  {
    exists a :: a in u && f[a] == j
  }

  lemma HasSuccessor(n: nat, x: Matrix, selected: set<Arc>, succ: map<nat, nat>, c: nat)
    requires 1 <= n && ArcPoint(n, x) && DegreeOne(n, x) && ArcsOf(n, x, selected) && SuccOf(selected, succ) && Customer(n, c)
    ensures c in succ
  {
    assert DegreeAt(x, c) && Binary(x[c]);
    var s := BinaryUnit(x[c], n);
    assert (c, s) in selected;
  }

  lemma HasPredecessor(n: nat, x: Matrix, selected: set<Arc>, c: nat) returns (p: nat)
    requires 1 <= n && ArcPoint(n, x) && DegreeOne(n, x) && ArcsOf(n, x, selected) && Customer(n, c)
    ensures (p, c) in selected
  {
    assert DegreeAt(x, c) && Binary(Column(x, c));
    p := BinaryUnit(Column(x, c), n);
    assert x[p][c] == 1.0;
  }

  // Nothing leaves u either.
  lemma NothingLeaves(n: nat, x: Matrix, selected: set<Arc>, succ: map<nat, nat>, u: set<nat>, i: nat, j: nat)
    requires 1 <= n && ArcPoint(n, x) && DegreeOne(n, x) && ArcsOf(n, x, selected) && SuccOf(selected, succ)
    requires u <= Customers(n) && Unreached(selected, u) && (i, j) in selected && i in u
    ensures j in u
  {
    forall c | c in u ensures c in succ {
      assert c in Customers(n);
      HasSuccessor(n, x, selected, succ, c);
    }
    forall c | c in u ensures ReachedFrom(u, succ, c) {
      assert c in Customers(n);
      var p := HasPredecessor(n, x, selected, c);
      assert p in u && p in Customers(n) && succ[p] == c;
    }
    StaysInside(u, succ, i);
    assert i in Customers(n);
  }

  ghost function Singles(u: set<nat>, n: nat): (routes: seq<Route>)
    ensures |routes| == |Ascending(u, n)| && forall r | 0 <= r < |routes| :: routes[r] == [Ascending(u, n)[r]]
  {
    seq(|Ascending(u, n)|, r requires 0 <= r < |Ascending(u, n)| => [Ascending(u, n)[r]])
  }

  // The routes walked, and one more for each customer left out.
  ghost function Completed(found: seq<seq<nat>>, u: set<nat>, n: nat): seq<Route> {
    found + Singles(u, n)
  }

  lemma CompletedParts(n: nat, x: Matrix, selected: set<Arc>, succ: map<nat, nat>, found: seq<seq<nat>>, visited: set<nat>,
                       u: set<nat>)
    requires Walks(n, x, selected, succ, found, visited, u)
    ensures var routes := Completed(found, u, n);
      && (forall r | 0 <= r < |routes| :: routes[r] != [] && Serves(n, routes[r]))
      && (forall r | |found| <= r < |routes| :: |routes[r]| == 1 && routes[r][0] in u)
      && (forall c | c in u :: Alone(routes, c))
  {
    var routes, single := Completed(found, u, n), Ascending(u, n);
    AscendingMembers(u, n);
    forall r | |found| <= r < |routes| ensures |routes[r]| == 1 && routes[r][0] in u && Customer(n, routes[r][0]) {
      assert routes[r] == [single[r - |found|]];
      assert single[r - |found|] in single && single[r - |found|] in Customers(n);
    }
    forall c | c in u ensures Alone(routes, c) {
      assert c in Customers(n) && c in single;
      var k :| 0 <= k < |single| && single[k] == c;
      assert routes[|found| + k] == [c];
    }
  }

  // The stops of the walked routes are the visited ones.
  lemma WalkedStop(n: nat, x: Matrix, selected: set<Arc>, succ: map<nat, nat>, found: seq<seq<nat>>, visited: set<nat>,
                   u: set<nat>, r: nat, k: nat)
    requires Walks(n, x, selected, succ, found, visited, u)
    requires r < |Completed(found, u, n)| && k < |Completed(found, u, n)[r]|
    ensures Completed(found, u, n)[r][k] in visited <==> r < |found|
  {
    CompletedParts(n, x, selected, succ, found, visited, u);
    if r < |found| {
      assert found[r][k] in visited;
    } else {
      assert Completed(found, u, n)[r][k] in u;
    }
  }

  lemma CompletedDistinct(n: nat, x: Matrix, selected: set<Arc>, succ: map<nat, nat>, found: seq<seq<nat>>,
                          visited: set<nat>, u: set<nat>)
    requires Walks(n, x, selected, succ, found, visited, u)
    ensures Distinct(Completed(found, u, n))
  {
    var routes, single := Completed(found, u, n), Ascending(u, n);
    CompletedParts(n, x, selected, succ, found, visited, u);
    AscendingMembers(u, n);
    forall i, k, j, l | 0 <= i < |routes| && 0 <= k < |routes[i]| && 0 <= j < |routes| && 0 <= l < |routes[j]| &&
                        routes[i][k] == routes[j][l]
      ensures i == j && k == l
    {
      WalkedStop(n, x, selected, succ, found, visited, u, i, k);
      WalkedStop(n, x, selected, succ, found, visited, u, j, l);
      if i < |found| {
        assert found[i][k] == found[j][l];
      } else {
        assert single[i - |found|] == single[j - |found|];
      }
    }
  }

  lemma CompletedPartition(n: nat, x: Matrix, selected: set<Arc>, succ: map<nat, nat>, found: seq<seq<nat>>,
                           visited: set<nat>, u: set<nat>)
    requires Walks(n, x, selected, succ, found, visited, u)
    ensures Partition(n, Completed(found, u, n))
  {
    var routes := Completed(found, u, n);
    CompletedParts(n, x, selected, succ, found, visited, u);
    CompletedDistinct(n, x, selected, succ, found, visited, u);
    forall c | Customer(n, c) ensures Visited(routes, c) {
      if c in u {
        assert Alone(routes, c);
        var r :| 0 <= r < |routes| && routes[r] == [c];
        assert routes[r][0] == c;
      } else {
        assert (c as nat) in Customers(n) && (c as nat) in visited;
        assert Visited(found, c);
        var r, k :| 0 <= r < |found| && 0 <= k < |found[r]| && found[r][k] == c;
        assert routes[r][k] == c;
      }
    }
  }

  // Away from u, the selected arcs are the legs.
  lemma KeptLegs(n: nat, x: Matrix, selected: set<Arc>, succ: map<nat, nat>, found: seq<seq<nat>>, visited: set<nat>,
                 u: set<nat>, i: nat, j: nat)
    requires Walks(n, x, selected, succ, found, visited, u) && i < n && j < n && i !in u && j !in u
    ensures (i, j) in selected <==> Leg(Completed(found, u, n), i, j)
  {
    var routes := Completed(found, u, n);
    CompletedParts(n, x, selected, succ, found, visited, u);
    if (i, j) in selected {
      var r, k := WalkedLeg(n, x, selected, succ, found, visited, u, i, j);
      assert LegAt(routes, r, k, i, j);
    }
    if Leg(routes, i, j) {
      var r: nat, k: nat :| LegAt(routes, r, k, i, j);
      if r < |found| {
        assert LegAt(found, r, k, i, j);
        LegIsSelected(n, selected, found, i, j);
      }
    }
  }

  lemma WalkedLeg(n: nat, x: Matrix, selected: set<Arc>, succ: map<nat, nat>, found: seq<seq<nat>>, visited: set<nat>,
                  u: set<nat>, i: nat, j: nat) returns (r: nat, k: nat)
    requires Walks(n, x, selected, succ, found, visited, u) && (i, j) in selected && i !in u && j !in u
    ensures LegAt(found, r, k, i, j)
  {
    assert i != 0 ==> i in Customers(n) && i in visited;
    if j == 0 {
      assert Visited(found, i);
      var q, l :| 0 <= q < |found| && 0 <= l < |found[q]| && found[q][l] == i;
      NextInRoute(n, selected, succ, found, q, l);
      r, k := q, l + 1;
    } else {
      VisitedClosed(n, selected, succ, found, visited, i, j);
      r, k :| LegAt(found, r, k, i, j);
    }
  }

  lemma FoundRides(n: nat, x: Matrix, selected: set<Arc>, succ: map<nat, nat>, found: seq<seq<nat>>, visited: set<nat>,
                   u: set<nat>, r: nat)
    requires Walks(n, x, selected, succ, found, visited, u) && r < |found|
    ensures Rides(n, x, found[r])
  {
    var route := found[r];
    forall k: nat | k <= |route| ensures RidesLeg(n, x, route, k) {
      assert k > 0 ==> Customer(n, route[k - 1]);
      assert k < |route| ==> Customer(n, route[k]);
      var i: nat, j: nat := Stop(0, route, k), Stop(0, route, k + 1);
      assert LegAt(found, r, k, i, j);
      LegIsSelected(n, selected, found, i, j);
    }
  }

  lemma CompletedFits(inst: Instance, x: Matrix, f: Matrix, selected: set<Arc>, succ: map<nat, nat>, found: seq<seq<nat>>,
                      visited: set<nat>, u: set<nat>)
    requires inst.WellFormed() && NonNegativeDemand(inst) && FlowFeasible(inst, x, f)
    requires Walks(inst.Nodes(), x, selected, succ, found, visited, u)
    requires forall c | c in u :: c < inst.Nodes() && inst.demand[c] == 0
    ensures Partition(inst.Nodes(), Completed(found, u, inst.Nodes()))
    ensures WithinCapacity(inst, Completed(found, u, inst.Nodes()))
  {
    var n, routes := inst.Nodes(), Completed(found, u, inst.Nodes());
    CompletedPartition(n, x, selected, succ, found, visited, u);
    CompletedParts(n, x, selected, succ, found, visited, u);
    forall r | 0 <= r < |routes| ensures LoadFrom(inst, routes[r], 0) <= inst.capacity {
      if r < |found| {
        FoundRides(n, x, selected, succ, found, visited, u, r);
        RouteWithinCapacity(inst, x, f, routes[r]);
      } else {
        var c: nat := routes[r][0];
        assert c in u && c in Customers(n) && 0.0 <= f[0][c] <= inst.capacity as real;
        assert LoadFrom(inst, routes[r], 1) == 0 && LoadFrom(inst, routes[r], 0) == inst.demand[c];
      }
    }
  }

  lemma WalksRewired(inst: Instance, x: Matrix, f: Matrix, selected: set<Arc>, succ: map<nat, nat>, found: seq<seq<nat>>,
                     visited: set<nat>, u: set<nat>)
    requires inst.WellFormed() && inst.depot == 0 && NonNegativeDemand(inst) && FlowFeasible(inst, x, f)
    requires Walks(inst.Nodes(), x, selected, succ, found, visited, u)
    ensures Rewired(inst, x, Completed(found, u, inst.Nodes()), u)
  {
    var n, routes := inst.Nodes(), Completed(found, u, inst.Nodes());
    NothingEnters(n, x, selected, succ, found, visited, u);
    UnreachedDemandless(inst, x, f, selected, u);
    CompletedFits(inst, x, f, selected, succ, found, visited, u);
    CompletedParts(n, x, selected, succ, found, visited, u);
    forall c | c in u ensures c < n && Idler(inst, x, routes, c) {
      assert c in Customers(n) && DegreeAt(x, c);
    }
    forall i: nat, j: nat | i < n && j < n && i !in u && j !in u ensures x[i][j] == 1.0 <==> Leg(routes, i, j) {
      KeptLegs(n, x, selected, succ, found, visited, u, i, j);
    }
    forall i: nat, j: nat | i < n && j < n && (i in u) != (j in u) ensures x[i][j] == 0.0 {
      if (i, j) in selected && i in u { NothingLeaves(n, x, selected, succ, u, i, j); }
    }
  }

  // ----- the points -----

  ghost predicate PointAt(inst: Instance, t: ArcTable, x: Matrix, v: seq<real>)
    requires inst.WellFormed() && t.Valid(inst.Nodes())
  {
    Feasible(ModelCols(inst, t), ModelRows(inst, t), v) && |v| == 2 * |t.arcs| && X(t, inst.Nodes(), v) == x
  }

  // The arc choices with a feasible point are the accepted solutions in which some customers
  // without demand, each served alone, are rewired into cycles of their own.
  lemma FeasiblePoints(inst: Instance, t: ArcTable, x: Matrix)
    requires inst.WellFormed() && inst.depot == 0 && NonNegativeDemand(inst) && t.Valid(inst.Nodes())
    ensures (exists v :: PointAt(inst, t, x, v)) <==> exists routes, u :: Rewired(inst, x, routes, u)
  {
    var n := inst.Nodes();
    if v :| PointAt(inst, t, x, v) {
      RowsMeaning(inst, t, v);
      PointArcs(inst, t, v);
      var found, visited, succ := WalksFinish(inst, t, v);
      var u := Customers(n) - visited;
      WalksRewired(inst, x, F(t, n, v), Selected(t.arcs, v), succ, found, visited, u);
    }
    if routes, u :| Rewired(inst, x, routes, u) {
      RewiredIsFlow(inst, x, routes, u);
      FlowIsPoint(inst, t, x, LoadMatrix(inst, routes));
      PointOfMatrices(t, n, x, LoadMatrix(inst, routes));
      assert PointAt(inst, t, x, PointOf(t, n, x, LoadMatrix(inst, routes)));
    }
  }
}
