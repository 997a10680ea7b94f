// Routes that use exactly the selected arcs: uniqueness of legs, their cost as a matrix
// total, and when the extraction finds them.
module CvrpRoutes {
  import opened Wrappers
  import opened Collections
  import opened Sums
  import opened Cvrp
  import opened CvrpMilp
  import opened CvrpFlow
  import opened CvrpExtract

  ghost predicate ArcsInRange(n: nat, selected: set<Arc>) {
    forall i, j | (i, j) in selected :: i < n && j < n && i != j
  }

  // ----- legs -----

  lemma LegFrom(n: nat, routes: seq<Route>, i: nat) returns (r: nat, k: nat)
    requires Partition(n, routes) && Customer(n, i)
    ensures r < |routes| && k < |routes[r]| && routes[r][k] == i
    ensures LegAt(routes, r, k + 1, i, Stop(0, routes[r], k + 2))
    ensures LegAt(routes, r, k, Stop(0, routes[r], k), i)
  {
    assert Visited(routes, i);
    r, k :| 0 <= r < |routes| && 0 <= k < |routes[r]| && routes[r][k] == i;
  }

  lemma NextUnique(n: nat, routes: seq<Route>, i: int, j: int, j': int)
    requires Partition(n, routes) && i != 0 && Leg(routes, i, j) && Leg(routes, i, j')
    ensures j == j'
  {
    var r: nat, k: nat :| LegAt(routes, r, k, i, j);
    var r': nat, k': nat :| LegAt(routes, r', k', i, j');
    assert routes[r][k - 1] == routes[r'][k' - 1];
  }

  lemma PreviousUnique(n: nat, routes: seq<Route>, i: int, i': int, j: int)
    requires Partition(n, routes) && j != 0 && Leg(routes, i, j) && Leg(routes, i', j)
    ensures i == i'
  {
    var r: nat, k: nat :| LegAt(routes, r, k, i, j);
    var r': nat, k': nat :| LegAt(routes, r', k', i', j);
    assert routes[r][k] == routes[r'][k'];
  }

  lemma NoBadDegree(n: nat, selected: set<Arc>, routes: seq<Route>, node: nat)
    requires Realises(n, selected, routes) && Customer(n, node)
    ensures !BadDegree(selected, node)
  {
    var r, k := LegFrom(n, routes, node);
    assert Leg(routes, node, Stop(0, routes[r], k + 2));
    assert Customer(n, Stop(0, routes[r], k + 2)) || Stop(0, routes[r], k + 2) == 0;
    assert (node, Stop(0, routes[r], k + 2) as nat) in selected;
    forall p, q | (p, node) in selected && (q, node) in selected
      ensures p == q
    {
      PreviousUnique(n, routes, p, q, node);
    }
  }

  // ----- the collection against the routes -----

  lemma {:induction false} CustomersSize(n: nat)
    requires 1 <= n
    ensures |Customers(n)| == n - 1
  {
    if n > 1 {
      CustomersSize(n - 1);
      assert Customers(n) == Customers(n - 1) + {n - 1};
    } else {
      assert Customers(1) == {};
    }
  }

  lemma VisitedAreCustomers(n: nat, selected: set<Arc>, routes: seq<seq<nat>>, visited: set<nat>)
    requires Finished(n, selected, routes, visited)
    ensures visited <= Customers(n)
  {
    forall c | c in visited ensures c in Customers(n) {
      assert Visited(routes, c);
    }
  }

  // Selected arcs lead from the depot and from visited customers to visited customers.
  lemma VisitedClosed(n: nat, selected: set<Arc>, succ: map<nat, nat>, routes: seq<seq<nat>>, visited: set<nat>,
                      i: nat, j: nat)
    requires Finished(n, selected, routes, visited) && SuccOf(selected, succ) && ArcsInRange(n, selected)
    requires (i, j) in selected && (i == 0 || i in visited) && j != 0
    ensures j in visited && Leg(routes, i, j)
  {
    if i == 0 {
      var r :| 0 <= r < |routes| && routes[r] != [] && routes[r][0] == j;
      assert LegAt(routes, r, 0, 0, j);
    } else {
      assert Visited(routes, i);
      var r, k :| 0 <= r < |routes| && 0 <= k < |routes[r]| && routes[r][k] == i;
      NextInRoute(n, selected, succ, routes, r, k);
      assert Stop(0, routes[r], k + 2) == j;
      assert LegAt(routes, r, k + 1, i, j);
    }
  }

  // The arc a finished route takes out of its k-th stop is the selected one.
  lemma NextInRoute(n: nat, selected: set<Arc>, succ: map<nat, nat>, routes: seq<seq<nat>>, r: nat, k: nat)
    requires Complete(n, selected, routes) && SuccOf(selected, succ)
    requires r < |routes| && k < |routes[r]|
    ensures routes[r][k] in succ && succ[routes[r][k]] == Stop(0, routes[r], k + 2)
    ensures (routes[r][k], succ[routes[r][k]]) in selected
  {
    assert Customer(n, routes[r][k]);
    if k + 1 < |routes[r]| { assert Joined(selected, routes[r], k + 1); }
  }

  lemma FinishedVisitsAll(n: nat, selected: set<Arc>, routes: seq<seq<nat>>, visited: set<nat>)
    requires 1 <= n && Finished(n, selected, routes, visited) && |visited| == n - 1
    ensures visited == Customers(n)
    ensures Partition(n, routes)
  {
    VisitedAreCustomers(n, selected, routes, visited);
    CustomersSize(n);
    SubsetSize(visited, Customers(n));
    forall c | Customer(n, c) ensures Visited(routes, c) {
      assert (c as nat) in visited;
    }
  }

  lemma SelectedIsLeg(n: nat, selected: set<Arc>, succ: map<nat, nat>, routes: seq<seq<nat>>, visited: set<nat>,
                      i: nat, j: nat)
    requires SuccOf(selected, succ) && ArcsInRange(n, selected)
    requires Finished(n, selected, routes, visited) && visited == Customers(n)
    requires (i, j) in selected
    ensures Leg(routes, i, j)
  {
    assert i == 0 || i in visited;
    if j == 0 {
      assert Visited(routes, i);
      var r, k :| 0 <= r < |routes| && 0 <= k < |routes[r]| && routes[r][k] == i;
      NextInRoute(n, selected, succ, routes, r, k);
      assert LegAt(routes, r, k + 1, i, 0);
    } else {
      VisitedClosed(n, selected, succ, routes, visited, i, j);
    }
  }

  lemma LegIsSelected(n: nat, selected: set<Arc>, routes: seq<seq<nat>>, i: nat, j: nat)
    requires Complete(n, selected, routes) && Leg(routes, i, j)
    ensures (i, j) in selected
  {
    var r: nat, k: nat :| LegAt(routes, r, k, i, j);
    if k < |routes[r]| { assert Joined(selected, routes[r], k); }
  }

  lemma FinishedRealises(n: nat, selected: set<Arc>, succ: map<nat, nat>, routes: seq<seq<nat>>, visited: set<nat>)
    requires 1 <= n && SuccOf(selected, succ) && ArcsInRange(n, selected)
    requires Finished(n, selected, routes, visited) && |visited| == n - 1
    ensures Realises(n, selected, routes)
  {
    FinishedVisitsAll(n, selected, routes, visited);
    forall i, j | (i, j) in selected ensures Leg(routes, i, j) {
      SelectedIsLeg(n, selected, succ, routes, visited, i, j);
    }
    forall i: nat, j: nat | Leg(routes, i, j) ensures (i, j) in selected {
      LegIsSelected(n, selected, routes, i, j);
    }
  }

  // Routes that realise the arcs stay inside the visited customers.
  lemma {:induction false} RoutesInsideVisited(n: nat, selected: set<Arc>, succ: map<nat, nat>, found: seq<seq<nat>>,
                                               visited: set<nat>, routes: seq<Route>, r: nat, k: nat)
    requires SuccOf(selected, succ) && ArcsInRange(n, selected)
    requires Finished(n, selected, found, visited) && Realises(n, selected, routes)
    requires r < |routes| && k < |routes[r]|
    ensures routes[r][k] in visited
  {
    var from := Stop(0, routes[r], k);
    if k > 0 { RoutesInsideVisited(n, selected, succ, found, visited, routes, r, k - 1); }
    assert LegAt(routes, r, k, from, routes[r][k]);
    assert Customer(n, routes[r][k]);
    assert Leg(routes, from as nat, routes[r][k] as nat);
    VisitedClosed(n, selected, succ, found, visited, from as nat, routes[r][k] as nat);
  }

  // What the extraction reads, as facts about the selected arcs.
  lemma SelectedArcs(n: nat, t: ArcTable, values: seq<real>)
    requires t.Valid(n) && |t.arcs| <= |values|
    ensures ArcsInRange(n, Selected(t.arcs, values))
    ensures forall i, j :: (i, j) in Selected(t.arcs, values) <==>
      (i, j) in t.col && values[t.col[(i, j)]] > 0.5
    ensures StartsAre(n, Selected(t.arcs, values), Starts(n, t, values))
  {
    ArcsBelowMember(n, n);
    forall i, j
      ensures (i, j) in Selected(t.arcs, values) <==> (i, j) in t.col && values[t.col[(i, j)]] > 0.5
    {
      if (i, j) in Selected(t.arcs, values) {
        var k :| 0 <= k < |t.arcs| && values[k] > 0.5 && t.arcs[k] == (i, j);
      }
    }
  }

  lemma AmbiguousIsUnroutable(n: nat, t: ArcTable, values: seq<real>, node: nat, routes: seq<Route>)
    requires t.Valid(n) && |t.arcs| <= |values|
    requires TwiceSelected(t.arcs, values, |t.arcs|, node)
    ensures !Realises(n, Selected(t.arcs, values), routes)
  {
    var selected := Selected(t.arcs, values);
    var c, d :| 0 <= c < d < |t.arcs| && values[c] > 0.5 && values[d] > 0.5 && t.arcs[c].0 == node == t.arcs[d].0;
    assert t.arcs[c] in selected && t.arcs[d] in selected;
    assert t.arcs[c].1 != t.arcs[d].1;
    if Realises(n, selected, routes) {
      assert Leg(routes, node, t.arcs[c].1) && Leg(routes, node, t.arcs[d].1);
      NextUnique(n, routes, node, t.arcs[c].1, t.arcs[d].1);
    }
  }

  // The state when the extraction gives up or succeeds.
  lemma ExtractOutcome(n: nat, t: ArcTable, values: seq<real>)
    requires 1 <= n && t.Valid(n) && |t.arcs| <= |values|
    ensures var selected, e := Selected(t.arcs, values), Extract(n, t, values);
      (e.Err? && e.error.AmbiguousSuccessor? && TwiceSelected(t.arcs, values, |t.arcs|, e.error.node)) ||
      (Outcome(n, selected, e) && exists succ :: InRange(n, succ) && SuccOf(selected, succ))
  {
    var selected := Selected(t.arcs, values);
    ArcsBelowMember(n, n);
    SuccessorsInRange(n, t.arcs, values, |t.arcs|);
    SuccessorsMeaning(t.arcs, values, |t.arcs|);
    assert t.arcs[..|t.arcs|] == t.arcs;
    SelectedArcs(n, t, values);
    var s := Successors(t.arcs, values, |t.arcs|);
    if s.Ok? {
      CollectMeaning(n, selected, s.value, Starts(n, t, values), 1, {}, []);
    }
  }

  // The extraction succeeds exactly when the selected arcs are those of some set of
  // routes through all customers, and then returns such routes.
  lemma ExtractExact(n: nat, t: ArcTable, values: seq<real>)
    requires 1 <= n && t.Valid(n) && |t.arcs| <= |values|
    ensures Extract(n, t, values).Ok? <==> exists routes :: Realises(n, Selected(t.arcs, values), routes)
    ensures Extract(n, t, values).Ok? ==> Realises(n, Selected(t.arcs, values), Extract(n, t, values).value)
  {
    var selected, e := Selected(t.arcs, values), Extract(n, t, values);
    SelectedArcs(n, t, values);
    ExtractOutcome(n, t, values);
    if e.Err? && e.error.AmbiguousSuccessor? {
      forall routes ensures !Realises(n, selected, routes) {
        AmbiguousIsUnroutable(n, t, values, e.error.node, routes);
      }
    } else {
      var succ :| InRange(n, succ) && SuccOf(selected, succ);
      OutcomeExact(n, selected, succ, e);
    }
  }

  lemma OutcomeExact(n: nat, selected: set<Arc>, succ: map<nat, nat>, e: Result<seq<seq<nat>>, ExtractError>)
    requires 1 <= n && SuccOf(selected, succ) && ArcsInRange(n, selected) && Outcome(n, selected, e)
    ensures e.Ok? ==> Realises(n, selected, e.value)
    ensures e.Err? ==> forall routes :: !Realises(n, selected, routes)
  {
    if e.Ok? {
      var visited :| |visited| == n - 1 && Finished(n, selected, e.value, visited);
      FinishedRealises(n, selected, succ, e.value, visited);
    } else {
      forall routes ensures !Realises(n, selected, routes) {
        if Realises(n, selected, routes) {
          if e.error.CustomerCycle? {
            NoBadDegree(n, selected, routes, e.error.node);
          } else {
            var visited := e.error.visited;
            var found :| Finished(n, selected, found, visited);
            VisitedAreCustomers(n, selected, found, visited);
            CustomersSize(n);
            assert visited != Customers(n);
            var u :| u in Customers(n) && u !in visited;
            var r, k := LegFrom(n, routes, u);
            RoutesInsideVisited(n, selected, succ, found, visited, routes, r, k);
          }
        }
      }
    }
  }

  // ----- cost -----

  ghost predicate ArcsOf(n: nat, x: Matrix, selected: set<Arc>)
    requires Square(x, n)
  {
    && ArcsInRange(n, selected)
    && forall i, j | 0 <= i < n && 0 <= j < n :: x[i][j] == 1.0 <==> (i, j) in selected
  }

  ghost function RowSums(m: Matrix): (w: Vector)
    ensures |w| == |m| && forall i | 0 <= i < |m| :: w[i] == Sum(m[i])
  {
    seq(|m|, i requires 0 <= i < |m| => Sum(m[i]))
  }

  ghost function StopsOf(route: Route, k: nat): set<nat>
    requires k <= |route|
  {
    set l | 0 <= l < k && route[l] >= 0 :: route[l] as nat
  }

  ghost function StopsBelow(routes: seq<Route>, q: nat): set<nat>
    requires q <= |routes|
  {
    set r, l | 0 <= r < q && 0 <= l < |routes[r]| && routes[r][l] >= 0 :: routes[r][l] as nat
  }

  ghost function HeadsBelow(routes: seq<Route>, q: nat): set<nat>
    requires q <= |routes|
  {
    set r | 0 <= r < q && routes[r] != [] && routes[r][0] >= 0 :: routes[r][0] as nat
  }

  // The k-th stop of route q is new after the routes below q and its own first k stops.
  lemma StopFresh(n: nat, routes: seq<Route>, q: nat, k: nat)
    requires Partition(n, routes) && q < |routes| && k < |routes[q]|
    ensures Customer(n, routes[q][k])
    ensures routes[q][k] as nat !in StopsBelow(routes, q) + StopsOf(routes[q], k)
    ensures StopsOf(routes[q], k + 1) == StopsOf(routes[q], k) + {routes[q][k] as nat}
  {
    assert Customer(n, routes[q][k]);
    forall r, l | 0 <= r <= q && 0 <= l < |routes[r]| && (r < q || l < k)
      ensures routes[r][l] != routes[q][k]
    {
    }
  }

  // The head of route q is new after the heads of the routes below q.
  lemma HeadFresh(n: nat, routes: seq<Route>, q: nat)
    requires Partition(n, routes) && q < |routes| && routes[q] != []
    ensures Customer(n, routes[q][0])
    ensures routes[q][0] as nat !in HeadsBelow(routes, q)
    ensures HeadsBelow(routes, q + 1) == HeadsBelow(routes, q) + {routes[q][0] as nat}
    ensures StopsBelow(routes, q + 1) == StopsBelow(routes, q) + StopsOf(routes[q], |routes[q]|)
  {
    assert Customer(n, routes[q][0]);
    forall r | 0 <= r < q && routes[r] != []
      ensures routes[r][0] != routes[q][0]
    {
    }
    forall r, l | 0 <= r < q + 1 && 0 <= l < |routes[r]|
      ensures routes[r][l] >= 0
    {
      assert Customer(n, routes[r][l]);
    }
  }

  lemma LegFromDepot(n: nat, routes: seq<Route>, j: nat)
    requires Partition(n, routes) && Leg(routes, 0, j) && j != 0
    ensures j in HeadsBelow(routes, |routes|)
  {
    var r: nat, k: nat :| LegAt(routes, r, k, 0, j);
    assert k > 0 ==> Customer(n, routes[r][k - 1]);
    assert routes[r][0] == j;
  }

  // The cost row of a customer holds one entry: the leg the routes take from it.
  lemma CustomerRow(inst: Instance, x: Matrix, selected: set<Arc>, routes: seq<Route>, r: nat, k: nat)
    requires inst.WellFormed() && Square(x, inst.Nodes())
    requires ArcsOf(inst.Nodes(), x, selected) && Realises(inst.Nodes(), selected, routes)
    requires r < |routes| && k < |routes[r]|
    ensures Customer(inst.Nodes(), routes[r][k]) && 0 <= Stop(0, routes[r], k + 2) < inst.Nodes()
    ensures Sum(CostMatrix(inst, x)[routes[r][k]]) == inst.cost[routes[r][k]][Stop(0, routes[r], k + 2)] as real
  {
    var n, m := inst.Nodes(), CostMatrix(inst, x);
    var i := routes[r][k];
    assert Customer(n, i);
    var j: nat := Stop(0, routes[r], k + 2);
    assert LegAt(routes, r, k + 1, i, j);
    assert Leg(routes, i as nat, j);
    assert (i, j) in selected;
    forall l | 0 <= l < n && l != j ensures m[i][l] == 0.0 {
      if (i, l) in selected {
        assert Leg(routes, i, l);
        NextUnique(n, routes, i, j, l);
      }
    }
    PrefixSingle(m[i], j, n);
  }

  lemma {:induction false} RouteTotal(inst: Instance, x: Matrix, selected: set<Arc>, routes: seq<Route>, q: nat, k: nat)
    requires inst.WellFormed() && inst.depot == 0 && Square(x, inst.Nodes())
    requires ArcsOf(inst.Nodes(), x, selected) && Realises(inst.Nodes(), selected, routes)
    requires q < |routes| && k <= |routes[q]|
    ensures var (m, n) := (CostMatrix(inst, x), inst.Nodes());
      && Customer(n, routes[q][0])
      && TravelCost(inst, routes[q], k + 1) as real ==
         m[0][routes[q][0]] + MaskedSum(RowSums(m), StopsBelow(routes, q) + StopsOf(routes[q], k), n)
                            - MaskedSum(RowSums(m), StopsBelow(routes, q), n)
  {
    var m, n, route := CostMatrix(inst, x), inst.Nodes(), routes[q];
    var w, below := RowSums(m), StopsBelow(routes, q);
    assert Customer(n, route[0]);
    if k == 0 {
      assert LegAt(routes, q, 0, 0, route[0]);
      assert Leg(routes, 0, route[0] as nat);
      assert StopsOf(route, 0) == {} && below + {} == below;
      assert TravelCost(inst, route, 0) == 0;
    } else {
      RouteTotal(inst, x, selected, routes, q, k - 1);
      CustomerRow(inst, x, selected, routes, q, k - 1);
      var v := route[k - 1] as nat;
      var before := below + StopsOf(route, k - 1);
      StopFresh(n, routes, q, k - 1);
      assert below + StopsOf(route, k) == before + {v};
      MaskedSumAdd(w, before, v, n);
    }
  }

  lemma {:induction false} RoutesTotal(inst: Instance, x: Matrix, selected: set<Arc>, routes: seq<Route>, q: nat)
    requires inst.WellFormed() && inst.depot == 0 && Square(x, inst.Nodes())
    requires ArcsOf(inst.Nodes(), x, selected) && Realises(inst.Nodes(), selected, routes)
    requires q <= |routes|
    ensures var (m, n) := (CostMatrix(inst, x), inst.Nodes());
      RoutesCost(inst, routes, q) as real ==
        MaskedSum(m[0], HeadsBelow(routes, q), n) + MaskedSum(RowSums(m), StopsBelow(routes, q), n)
  {
    var m, n := CostMatrix(inst, x), inst.Nodes();
    if q == 0 {
      MaskedSumCong(m[0], m[0], HeadsBelow(routes, 0), {}, n);
      MaskedSumCong(RowSums(m), RowSums(m), StopsBelow(routes, 0), {}, n);
      MaskedSumEmpty(m[0], n);
      MaskedSumEmpty(RowSums(m), n);
    } else {
      var route := routes[q - 1];
      RoutesTotal(inst, x, selected, routes, q - 1);
      RouteTotal(inst, x, selected, routes, q - 1, |route|);
      var head := route[0] as nat;
      HeadFresh(n, routes, q - 1);
      MaskedSumAdd(m[0], HeadsBelow(routes, q - 1), head, n);
    }
  }

  lemma {:induction false} MaskedSumEmpty(w: Vector, k: nat)
    requires k <= |w|
    ensures MaskedSum(w, {}, k) == 0.0
  {
    if k > 0 { MaskedSumEmpty(w, k - 1); }
  }

  lemma {:induction false} TotalSplit(m: Matrix, n: nat, k: nat)
    requires 1 <= k <= |m| && n == |m|
    ensures Total(m, k) == Sum(m[0]) + MaskedSum(RowSums(m), Customers(n), k)
  {
    if k == 1 {
      assert MaskedSum(RowSums(m), Customers(n), 0) == 0.0;
      assert Total(m, 0) == 0.0;
    } else {
      TotalSplit(m, n, k - 1);
    }
  }

  // The cost of the routes is the total cost of their arcs.
  lemma CostOfArcs(inst: Instance, x: Matrix, selected: set<Arc>, routes: seq<Route>)
    requires inst.WellFormed() && inst.depot == 0 && Square(x, inst.Nodes())
    requires ArcsOf(inst.Nodes(), x, selected) && Realises(inst.Nodes(), selected, routes)
    ensures Total(CostMatrix(inst, x), inst.Nodes()) == RoutesCost(inst, routes, |routes|) as real
  {
    var m, n, q := CostMatrix(inst, x), inst.Nodes(), |routes|;
    RoutesTotal(inst, x, selected, routes, q);
    forall j | 0 <= j < n && j !in HeadsBelow(routes, q) ensures m[0][j] == 0.0 {
      if (0, j) in selected {
        LegFromDepot(n, routes, j);
      }
    }
    MaskedSumFull(m[0], HeadsBelow(routes, q), n);
    assert StopsBelow(routes, q) == Customers(n) by {
      forall c | c in Customers(n) ensures c in StopsBelow(routes, q) {
        assert Visited(routes, c);
      }
      forall c | c in StopsBelow(routes, q) ensures c in Customers(n) {
        var r, l :| 0 <= r < q && 0 <= l < |routes[r]| && routes[r][l] == c;
        assert Customer(n, routes[r][l]);
      }
    }
    TotalSplit(m, n, n);
  }
}
