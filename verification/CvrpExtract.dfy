// Reading routes off a point of the model: follow successors from every arc that
// leaves the depot.
module CvrpExtract {
  import opened Wrappers
  import opened Cvrp
  import opened CvrpMilp

  datatype ExtractError =
    | AmbiguousSuccessor(node: nat)
    | CustomerCycle(node: nat)
    | Unserved(visited: set<nat>)

  ghost function Selected(arcs: seq<Arc>, values: seq<real>): set<Arc>
    requires |arcs| <= |values|
  {
    set k | 0 <= k < |arcs| && values[k] > 0.5 :: arcs[k]
  }

  // ----- the algorithm as functions -----

  // The successor dictionary after the first k arcs.
  function Successors(arcs: seq<Arc>, values: seq<real>, k: nat): Result<map<nat, nat>, ExtractError>
    requires k <= |arcs| <= |values|
  {
    if k == 0 then Ok(map[])
    else
      var before := Successors(arcs, values, k - 1);
      if before.Err? || values[k - 1] <= 0.5 then before
      else if arcs[k - 1].0 != 0 && arcs[k - 1].0 in before.value then Err(AmbiguousSuccessor(arcs[k - 1].0))
      else Ok(before.value[arcs[k - 1].0 := arcs[k - 1].1])
  }

  predicate InRange(n: nat, succ: map<nat, nat>) {
    forall i | i in succ :: succ[i] < n
  }

  datatype Walked = Closed(route: seq<nat>, visited: set<nat>) | Stuck(node: nat)

  // From node to the depot, collecting the stops.
  function Walk(n: nat, succ: map<nat, nat>, node: nat, visited: set<nat>, route: seq<nat>): Walked
    requires InRange(n, succ) && node < n
    decreases Customers(n) - visited
  {
    if node == 0 then Closed(route, visited)
    else if node in visited || node !in succ then Stuck(node)
    else Walk(n, succ, succ[node], visited + {node}, route + [node])
  }

  // Routes from the depot arcs first, first + 1, ...
  function Collect(n: nat, succ: map<nat, nat>, starts: set<nat>, first: nat, visited: set<nat>,
                   routes: seq<seq<nat>>): Result<seq<seq<nat>>, ExtractError>
    requires InRange(n, succ) && 1 <= first <= n
    decreases n - first
  {
    if first == n then
      if |visited| != n - 1 then Err(Unserved(visited)) else Ok(routes)
    else if first !in starts then Collect(n, succ, starts, first + 1, visited, routes)
    else match Walk(n, succ, first, visited, [])
      case Stuck(node) => Err(CustomerCycle(node))
      case Closed(route, visited') => Collect(n, succ, starts, first + 1, visited', routes + [route])
  }

  ghost function Starts(n: nat, t: ArcTable, values: seq<real>): set<nat>
    requires t.Valid(n) && |t.arcs| <= |values|
  {
    set j | 1 <= j < n && values[t.col[(0, j)]] > 0.5
  }

  lemma {:induction false} SuccessorsInRange(n: nat, arcs: seq<Arc>, values: seq<real>, k: nat)
    requires k <= |arcs| <= |values|
    requires forall c | 0 <= c < |arcs| :: arcs[c].1 < n
    ensures Successors(arcs, values, k).Ok? ==> InRange(n, Successors(arcs, values, k).value)
  {
    if k > 0 { SuccessorsInRange(n, arcs, values, k - 1); }
  }

  ghost function Extract(n: nat, t: ArcTable, values: seq<real>): Result<seq<seq<nat>>, ExtractError>
    requires 1 <= n && t.Valid(n) && |t.arcs| <= |values|
  {
    ArcsBelowMember(n, n);
    SuccessorsInRange(n, t.arcs, values, |t.arcs|);
    match Successors(t.arcs, values, |t.arcs|)
    case Err(e) => Err(e)
    case Ok(succ) => Collect(n, succ, Starts(n, t, values), 1, {}, [])
  }

  // ----- the algorithm as the adapter runs it -----

  method ExtractRoutes(n: nat, t: ArcTable, values: seq<real>)
    returns (r: Result<seq<seq<nat>>, ExtractError>)
    requires 1 <= n && t.Valid(n) && |t.arcs| <= |values|
    ensures r == Extract(n, t, values)
  {
    ArcsBelowMember(n, n);
    SuccessorsInRange(n, t.arcs, values, |t.arcs|);
    var succ: map<nat, nat> := map[];
    for k := 0 to |t.arcs|
      invariant Successors(t.arcs, values, k) == Ok(succ)
    {
      var (i, j) := t.arcs[k];
      if values[k] > 0.5 {
        if i != 0 && i in succ {
          AmbiguousPersists(t.arcs, values, k + 1, |t.arcs|);
          return Err(AmbiguousSuccessor(i));
        }
        succ := succ[i := j];
      }
    }

    var routes: seq<seq<nat>> := [];
    var visited: set<nat> := {};
    ghost var starts := Starts(n, t, values);
    for first := 1 to n
      invariant Collect(n, succ, starts, first, visited, routes) == Extract(n, t, values)
    {
      if values[t.col[(0, first)]] <= 0.5 { continue; }
      var route: seq<nat> := [];
      var node: nat := first;
      ghost var seen := visited;
      while node != 0
        invariant node < n
        invariant Walk(n, succ, node, visited, route) == Walk(n, succ, first, seen, [])
        decreases Customers(n) - visited, node
      {
        if node in visited || node !in succ {
          return Err(CustomerCycle(node));
        }
        visited := visited + {node};
        route := route + [node];
        node := succ[node];
      }
      routes := routes + [route];
    }
    if |visited| != n - 1 { return Err(Unserved(visited)); }
    return Ok(routes);
  }

  lemma {:induction false} AmbiguousPersists(arcs: seq<Arc>, values: seq<real>, k: nat, m: nat)
    requires k <= m <= |arcs| <= |values| && Successors(arcs, values, k).Err?
    ensures Successors(arcs, values, m) == Successors(arcs, values, k)
    decreases m - k
  {
    if k < m { AmbiguousPersists(arcs, values, k, m - 1); }
  }

  // ----- what the routes are -----

  ghost predicate Leg(routes: seq<Route>, i: int, j: int) {
    exists r, k :: LegAt(routes, r, k, i, j)
  }

  ghost predicate LegAt(routes: seq<Route>, r: nat, k: nat, i: int, j: int) {
    r < |routes| && k <= |routes[r]| && Stop(0, routes[r], k) == i && Stop(0, routes[r], k + 1) == j
  }

  // The routes partition the customers and use exactly the given arcs.
  ghost predicate Realises(n: nat, selected: set<Arc>, routes: seq<Route>) {
    && Partition(n, routes)
    && (forall r | 0 <= r < |routes| :: routes[r] != [])
    && (forall i, j :: (i, j) in selected ==> Leg(routes, i, j))
    && (forall i: nat, j: nat :: Leg(routes, i, j) ==> (i, j) in selected)
  }

  // Consecutive stops of a route joined by selected arcs, starting at the depot.
  ghost predicate Path(selected: set<Arc>, route: seq<nat>) {
    forall k | 0 <= k < |route| :: Joined(selected, route, k)
  }

  ghost predicate Joined(selected: set<Arc>, route: seq<nat>, k: nat)
    requires k < |route|
  {
    (Stop(0, route, k) as nat, route[k]) in selected
  }

  ghost function Last(route: seq<nat>): nat {
    if route == [] then 0 else route[|route| - 1]
  }

  ghost predicate SuccOf(selected: set<Arc>, succ: map<nat, nat>) {
    && (forall i | i in succ && i != 0 :: (i, succ[i]) in selected)
    && (forall i, j | (i, j) in selected && i != 0 :: i in succ && succ[i] == j)
  }

  // No way on from the node, or two ways into it.
  ghost predicate BadDegree(selected: set<Arc>, node: nat) {
    || (forall j :: (node, j) !in selected)
    || exists p, q :: p != q && (p, node) in selected && (q, node) in selected
  }

  // Two selected arcs among the first k leave the customer.
  ghost predicate TwiceSelected(arcs: seq<Arc>, values: seq<real>, k: nat, node: nat)
    requires k <= |arcs| <= |values|
  {
    node != 0 &&
    exists c, d :: 0 <= c < d < k && values[c] > 0.5 && values[d] > 0.5 && arcs[c].0 == node == arcs[d].0
  }

  lemma {:induction false} SuccessorsMeaning(arcs: seq<Arc>, values: seq<real>, k: nat)
    requires k <= |arcs| <= |values|
    ensures match Successors(arcs, values, k)
            case Ok(succ) => SuccOf(Selected(arcs[..k], values), succ)
            case Err(e) => e.AmbiguousSuccessor? && TwiceSelected(arcs, values, k, e.node)
  {
    if k > 0 {
      SuccessorsMeaning(arcs, values, k - 1);
      var old_, new_ := Selected(arcs[..k - 1], values), Selected(arcs[..k], values);
      assert new_ == old_ + (if values[k - 1] > 0.5 then {arcs[k - 1]} else {}) by {
        forall a | a in new_ ensures a in old_ || (values[k - 1] > 0.5 && a == arcs[k - 1]) {
          var c :| 0 <= c < k && values[c] > 0.5 && arcs[..k][c] == a;
          if c < k - 1 { assert arcs[..k - 1][c] == a; }
        }
        forall a | a in old_ ensures a in new_ {
          var c :| 0 <= c < k - 1 && values[c] > 0.5 && arcs[..k - 1][c] == a;
          assert arcs[..k][c] == a;
        }
        if values[k - 1] > 0.5 { assert arcs[..k][k - 1] == arcs[k - 1]; }
      }
      var before := Successors(arcs, values, k - 1);
      if before.Ok? && values[k - 1] > 0.5 && arcs[k - 1].0 != 0 && arcs[k - 1].0 in before.value {
        var i := arcs[k - 1].0;
        assert (i, before.value[i]) in old_;
        var c :| 0 <= c < k - 1 && values[c] > 0.5 && arcs[..k - 1][c] == (i, before.value[i]);
        assert 0 <= c < k - 1 < k && arcs[c].0 == i;
      }
    }
  }

  // ----- the walk -----

  // Complete routes use selected arcs only, and start at the depot arcs below `first`.
  ghost predicate Complete(n: nat, selected: set<Arc>, routes: seq<seq<nat>>) {
    && (forall r | 0 <= r < |routes| :: Serves(n, routes[r]) && routes[r] != [])
    && (forall r | 0 <= r < |routes| :: Path(selected, routes[r]) && (Last(routes[r]), 0) in selected)
  }

  ghost predicate Tracks(routes: seq<seq<nat>>, visited: set<nat>) {
    && (forall c | c in visited :: Visited(routes, c))
    && (forall r, k | 0 <= r < |routes| && 0 <= k < |routes[r]| :: routes[r][k] in visited)
  }

  // The state in the middle of a walk: `route` is under way and `node` is next.
  ghost predicate Walking(n: nat, selected: set<Arc>, routes: seq<seq<nat>>, visited: set<nat>,
                          route: seq<nat>, node: nat)
  {
    && Complete(n, selected, routes)
    && Serves(n, route) && Path(selected, route) && (Last(route), node) in selected
    && Distinct(routes + [route]) && Tracks(routes + [route], visited)
    && node < n
    && (forall r | 0 <= r < |routes| :: routes[r][0] != if route == [] then node else route[0])
  }

  // A node met again has a second selected arc into it.
  lemma MetAgain(n: nat, selected: set<Arc>, routes: seq<seq<nat>>, visited: set<nat>,
                 route: seq<nat>, node: nat)
    requires Walking(n, selected, routes, visited, route, node)
    requires node in visited
    ensures BadDegree(selected, node)
  {
    var all := routes + [route];
    assert Visited(all, node);
    var r, k :| 0 <= r < |all| && 0 <= k < |all[r]| && all[r][k] == node;
    var p := Stop(0, all[r], k) as nat;
    assert Joined(selected, all[r], k);
    assert k > 0 ==> all[r][k - 1] == p && Customer(n, p);
    assert route != [] ==> all[|routes|][|route| - 1] == Last(route) && Customer(n, Last(route));
    assert p != Last(route);
  }

  lemma PathStep(selected: set<Arc>, route: seq<nat>, node: nat)
    requires Path(selected, route) && (Last(route), node) in selected
    ensures Path(selected, route + [node])
  {
    var route' := route + [node];
    forall k | 0 <= k < |route'|
      ensures Joined(selected, route', k)
    {
      if k < |route| {
        assert Joined(selected, route, k);
        assert Stop(0, route', k) == Stop(0, route, k);
      } else {
        assert Stop(0, route', k) == Last(route);
      }
    }
  }

  lemma DistinctStep(routes: seq<seq<nat>>, visited: set<nat>, route: seq<nat>, node: nat)
    requires Distinct(routes + [route]) && Tracks(routes + [route], visited) && node !in visited
    ensures Distinct(routes + [route + [node]])
  {
    var all, all' := routes + [route], routes + [route + [node]];
    forall i, k | 0 <= i < |all'| && 0 <= k < |all'[i]|
      ensures i == |routes| && k == |route| <==> all'[i][k] == node
    {
      if i < |routes| || k < |route| { assert all[i][k] in visited; }
    }
    forall i, k, j, l |
      0 <= i < |all'| && 0 <= k < |all'[i]| && 0 <= j < |all'| && 0 <= l < |all'[j]| && all'[i][k] == all'[j][l]
      ensures i == j && k == l
    {
      if all'[i][k] != node { assert all[i][k] == all[j][l]; }
    }
  }

  lemma TracksStep(routes: seq<seq<nat>>, visited: set<nat>, route: seq<nat>, node: nat)
    requires Tracks(routes + [route], visited)
    ensures Tracks(routes + [route + [node]], visited + {node})
  {
    var all, all' := routes + [route], routes + [route + [node]];
    forall c | c in visited + {node} ensures Visited(all', c) {
      if c == node {
        assert all'[|routes|][|route|] == node;
      } else {
        assert Visited(all, c);
        var r, k :| 0 <= r < |all| && 0 <= k < |all[r]| && all[r][k] == c;
        assert all'[r][k] == c;
      }
    }
    forall r, k | 0 <= r < |all'| && 0 <= k < |all'[r]| ensures all'[r][k] in visited + {node} {
      if !(r == |routes| && k == |route|) { assert all[r][k] in visited; }
    }
  }

  lemma WalkStep(n: nat, selected: set<Arc>, succ: map<nat, nat>, routes: seq<seq<nat>>, visited: set<nat>,
                 route: seq<nat>, node: nat)
    requires InRange(n, succ) && SuccOf(selected, succ)
    requires Walking(n, selected, routes, visited, route, node)
    requires node != 0 && node !in visited && node in succ
    ensures Walking(n, selected, routes, visited + {node}, route + [node], succ[node])
  {
    PathStep(selected, route, node);
    DistinctStep(routes, visited, route, node);
    TracksStep(routes, visited, route, node);
  }

  // A finished walk is one more complete route; a stuck one exhibits a bad degree.
  lemma {:induction false} WalkMeaning(n: nat, selected: set<Arc>, succ: map<nat, nat>, routes: seq<seq<nat>>,
                                       visited: set<nat>, route: seq<nat>, node: nat)
    requires InRange(n, succ) && SuccOf(selected, succ)
    requires Walking(n, selected, routes, visited, route, node)
    ensures match Walk(n, succ, node, visited, route)
            case Stuck(bad) => Customer(n, bad) && BadDegree(selected, bad)
            case Closed(route', visited') =>
              Walking(n, selected, routes, visited', route', 0) &&
              (route' != [] ==> route'[0] == if route == [] then node else route[0]) && (node != 0 ==> route' != [])
    decreases Customers(n) - visited
  {
    if node == 0 {
    } else if node in visited {
      MetAgain(n, selected, routes, visited, route, node);
    } else if node !in succ {
    } else {
      WalkStep(n, selected, succ, routes, visited, route, node);
      assert node in Customers(n) - visited;
      WalkMeaning(n, selected, succ, routes, visited + {node}, route + [node], succ[node]);
    }
  }

  // ----- all walks -----

  // Depot arcs below `first` have their route; routes only start at such arcs.
  ghost predicate Started(selected: set<Arc>, routes: seq<seq<nat>>, first: nat) {
    && (forall r | 0 <= r < |routes| :: routes[r] != [] && routes[r][0] < first)
    && (forall c | 1 <= c < first && (0, c) in selected :: exists r :: 0 <= r < |routes| && routes[r] != [] && routes[r][0] == c)
  }

  ghost predicate Collected(n: nat, selected: set<Arc>, routes: seq<seq<nat>>, visited: set<nat>, first: nat) {
    && Complete(n, selected, routes) && Distinct(routes) && Tracks(routes, visited)
    && Started(selected, routes, first)
  }

  ghost predicate StartsAre(n: nat, selected: set<Arc>, starts: set<nat>) {
    forall c | 1 <= c < n :: c in starts <==> (0, c) in selected
  }

  lemma AppendEmpty(routes: seq<seq<nat>>, visited: set<nat>)
    requires Distinct(routes) && Tracks(routes, visited)
    ensures Distinct(routes + [[]]) && Tracks(routes + [[]], visited)
  {
    var all := routes + [[]];
    forall i, k, j, l |
      0 <= i < |all| && 0 <= k < |all[i]| && 0 <= j < |all| && 0 <= l < |all[j]| && all[i][k] == all[j][l]
      ensures i == j && k == l
    {
      assert routes[i][k] == routes[j][l];
    }
    forall c | c in visited ensures Visited(all, c) {
      assert Visited(routes, c);
      var r, k :| 0 <= r < |routes| && 0 <= k < |routes[r]| && routes[r][k] == c;
      assert all[r][k] == c;
    }
  }

  lemma BeginWalk(n: nat, selected: set<Arc>, routes: seq<seq<nat>>, visited: set<nat>, first: nat)
    requires Collected(n, selected, routes, visited, first) && first < n && (0, first) in selected
    ensures Walking(n, selected, routes, visited, [], first)
  {
    AppendEmpty(routes, visited);
  }

  lemma EndWalk(n: nat, selected: set<Arc>, routes: seq<seq<nat>>, visited: set<nat>, first: nat,
                route: seq<nat>, visited': set<nat>)
    requires Collected(n, selected, routes, visited, first)
    requires Walking(n, selected, routes, visited', route, 0) && route != [] && route[0] == first
    ensures Collected(n, selected, routes + [route], visited', first + 1)
  {
    var all := routes + [route];
    forall c | 1 <= c < first + 1 && (0, c) in selected
      ensures exists r :: 0 <= r < |all| && all[r] != [] && all[r][0] == c
    {
      if c == first {
        assert all[|routes|][0] == c;
      } else {
        var r :| 0 <= r < |routes| && routes[r] != [] && routes[r][0] == c;
        assert all[r][0] == c;
      }
    }
  }

  ghost predicate Finished(n: nat, selected: set<Arc>, routes: seq<seq<nat>>, visited: set<nat>) {
    Collected(n, selected, routes, visited, n)
  }

  // Every way the collection can end, told by the selected arcs alone.
  ghost predicate Outcome(n: nat, selected: set<Arc>, r: Result<seq<seq<nat>>, ExtractError>) {
    && (r.Ok? ==> exists visited :: |visited| == n - 1 && Finished(n, selected, r.value, visited))
    && (r.Err? ==> !r.error.AmbiguousSuccessor?)
    && (r.Err? && r.error.CustomerCycle? ==> Customer(n, r.error.node) && BadDegree(selected, r.error.node))
    && (r.Err? && r.error.Unserved? ==>
          |r.error.visited| != n - 1 && exists routes :: Finished(n, selected, routes, r.error.visited))
  }

  lemma SkipStart(n: nat, selected: set<Arc>, routes: seq<seq<nat>>, visited: set<nat>, first: nat)
    requires Collected(n, selected, routes, visited, first) && (0, first) !in selected
    ensures Collected(n, selected, routes, visited, first + 1)
  {
  }

  lemma CollectEnd(n: nat, selected: set<Arc>, visited: set<nat>, routes: seq<seq<nat>>)
    requires 1 <= n && Collected(n, selected, routes, visited, n)
    ensures Outcome(n, selected, if |visited| != n - 1 then Err(Unserved(visited)) else Ok(routes))
  {
    assert Finished(n, selected, routes, visited);
  }

  lemma OneWalk(n: nat, selected: set<Arc>, succ: map<nat, nat>, routes: seq<seq<nat>>, visited: set<nat>, first: nat)
    returns (w: Walked)
    requires InRange(n, succ) && SuccOf(selected, succ)
    requires Collected(n, selected, routes, visited, first) && 1 <= first < n && (0, first) in selected
    ensures w == Walk(n, succ, first, visited, [])
    ensures w.Stuck? ==> Customer(n, w.node) && BadDegree(selected, w.node)
    ensures w.Closed? ==> Collected(n, selected, routes + [w.route], w.visited, first + 1)
  {
    w := Walk(n, succ, first, visited, []);
    BeginWalk(n, selected, routes, visited, first);
    WalkMeaning(n, selected, succ, routes, visited, [], first);
    if w.Closed? { EndWalk(n, selected, routes, visited, first, w.route, w.visited); }
  }

  lemma {:induction false} CollectMeaning(n: nat, selected: set<Arc>, succ: map<nat, nat>, starts: set<nat>,
                                          first: nat, visited: set<nat>, routes: seq<seq<nat>>)
    requires InRange(n, succ) && SuccOf(selected, succ) && StartsAre(n, selected, starts)
    requires 1 <= first <= n && Collected(n, selected, routes, visited, first)
    ensures Outcome(n, selected, Collect(n, succ, starts, first, visited, routes))
    decreases n - first
  {
    if first == n {
      CollectEnd(n, selected, visited, routes);
    } else if first !in starts {
      SkipStart(n, selected, routes, visited, first);
      CollectMeaning(n, selected, succ, starts, first + 1, visited, routes);
    } else {
      var w := OneWalk(n, selected, succ, routes, visited, first);
      if w.Closed? {
        CollectMeaning(n, selected, succ, starts, first + 1, w.visited, routes + [w.route]);
      }
    }
  }
}
