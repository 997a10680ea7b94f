// The capacitated vehicle routing problem: instances, solutions, and the validator
// that defines what a correct answer is.
module Cvrp {
  import opened Wrappers

  // cost[i][j] is the already rounded integer edge weight.
  datatype Instance = Instance(demand: seq<int>, capacity: int, depot: nat, cost: seq<seq<int>>) {
    // Nodes are 0 .. Nodes()-1.
    function Nodes(): nat { |demand| }

    ghost predicate WellFormed() {
      && 1 <= Nodes()
      && depot < Nodes()
      && |cost| == Nodes()
      && forall i | 0 <= i < Nodes() :: |cost[i]| == Nodes()
    }
  }

  // Node 0 is the depot; the customers are 1 .. n-1.
  predicate Customer(n: nat, stop: int) { 1 <= stop < n }

  ghost function Customers(n: nat): set<nat> {
    set c: nat | c < n && Customer(n, c)
  }

  type Route = seq<int>

  datatype Solution = Solution(routes: seq<Route>, cost: int)

  datatype ValidationError =
    | RouteVisit(route: nat, position: nat)
    | OrderMissing(missing: set<int>)
    | Overload(route: nat, load: int)
    | WrongCost(computed: int)

  // Node before leg k of a route: the depot, then the stops, then the depot again.
  function Stop(depot: nat, route: Route, k: nat): int {
    if 1 <= k <= |route| then route[k - 1] else depot
  }

  ghost predicate Serves(n: nat, route: Route) {
    forall k | 0 <= k < |route| :: Customer(n, route[k])
  }

  // Cost of the first k legs.
  ghost function TravelCost(inst: Instance, route: Route, k: nat): int
    requires inst.WellFormed() && Serves(inst.Nodes(), route) && k <= |route| + 1
  {
    if k == 0 then 0
    else
      TravelCost(inst, route, k - 1) +
      inst.cost[Stop(inst.depot, route, k - 1)][Stop(inst.depot, route, k)]
  }

  ghost function RouteCost(inst: Instance, route: Route): int
    requires inst.WellFormed() && Serves(inst.Nodes(), route)
  {
    TravelCost(inst, route, |route| + 1)
  }

  ghost function RoutesCost(inst: Instance, routes: seq<Route>, k: nat): int
    requires inst.WellFormed() && k <= |routes|
    requires forall i | 0 <= i < |routes| :: Serves(inst.Nodes(), routes[i])
  {
    if k == 0 then 0 else RoutesCost(inst, routes, k - 1) + RouteCost(inst, routes[k - 1])
  }

  // Demand of the stops k, k+1, ... of a route.
  ghost function LoadFrom(inst: Instance, route: Route, k: nat): int
    requires Serves(inst.Nodes(), route) && k <= |route|
    decreases |route| - k
  {
    if k == |route| then 0 else inst.demand[route[k]] + LoadFrom(inst, route, k + 1)
  }

  ghost predicate Distinct(routes: seq<Route>) {
    forall i, k, j, l |
      0 <= i < |routes| && 0 <= k < |routes[i]| && 0 <= j < |routes| && 0 <= l < |routes[j]| ::
      routes[i][k] == routes[j][l] ==> i == j && k == l
  }

  ghost predicate Visited(routes: seq<Route>, stop: int) {
    exists i, k :: 0 <= i < |routes| && 0 <= k < |routes[i]| && routes[i][k] == stop
  }

  // Every customer is visited exactly once and nothing else is visited.
  ghost predicate Partition(n: nat, routes: seq<Route>) {
    && (forall i | 0 <= i < |routes| :: Serves(n, routes[i]))
    && Distinct(routes)
    && (forall c | Customer(n, c) :: Visited(routes, c))
  }

  ghost predicate WithinCapacity(inst: Instance, routes: seq<Route>)
    requires forall i | 0 <= i < |routes| :: Serves(inst.Nodes(), routes[i])
  {
    forall i | 0 <= i < |routes| :: LoadFrom(inst, routes[i], 0) <= inst.capacity
  }

  ghost predicate Accepted(inst: Instance, sol: Solution)
    requires inst.WellFormed()
  {
    && Partition(inst.Nodes(), sol.routes)
    && WithinCapacity(inst, sol.routes)
    && RoutesCost(inst, sol.routes, |sol.routes|) == sol.cost
  }

  // Position (i, k) is not a customer or repeats an earlier position.
  ghost predicate BadVisit(n: nat, routes: seq<Route>, i: nat, k: nat)
    requires i < |routes| && k < |routes[i]|
  {
    || !Customer(n, routes[i][k])
    || exists j, l :: 0 <= j <= i && 0 <= l < |routes[j]| && (j < i || l < k) && routes[j][l] == routes[i][k]
  }

  // No bad position strictly before (i, k) in reading order.
  ghost predicate CleanBefore(n: nat, routes: seq<Route>, i: nat, k: nat)
    requires i <= |routes|
  {
    forall j, l | 0 <= j <= i && j < |routes| && 0 <= l < |routes[j]| && (j < i || l < k) ::
      !BadVisit(n, routes, j, l)
  }

  lemma CleanIsDistinct(n: nat, routes: seq<Route>)
    requires CleanBefore(n, routes, |routes|, 0)
    ensures Distinct(routes)
    ensures forall i | 0 <= i < |routes| :: Serves(n, routes[i])
  {
    forall i, k | 0 <= i < |routes| && 0 <= k < |routes[i]|
      ensures Customer(n, routes[i][k])
    {
      assert !BadVisit(n, routes, i, k);
    }
    forall i, k, j, l |
      0 <= i < |routes| && 0 <= k < |routes[i]| && 0 <= j < |routes| && 0 <= l < |routes[j]| &&
      routes[i][k] == routes[j][l]
      ensures i == j && k == l
    {
      assert !BadVisit(n, routes, i, k) && !BadVisit(n, routes, j, l);
    }
  }

  lemma BadIsNotPartition(n: nat, routes: seq<Route>, i: nat, k: nat)
    requires i < |routes| && k < |routes[i]| && BadVisit(n, routes, i, k)
    ensures !Partition(n, routes)
  {
  }

  method GetLoad(inst: Instance, route: Route) returns (load: int)
    requires Serves(inst.Nodes(), route)
    ensures load == LoadFrom(inst, route, 0)
  {
    load := 0;
    for k := 0 to |route|
      invariant load + LoadFrom(inst, route, k) == LoadFrom(inst, route, 0)
    {
      load := load + inst.demand[route[k]];
    }
  }

  method GetDistance(inst: Instance, route: Route) returns (distance: int)
    requires inst.WellFormed() && Serves(inst.Nodes(), route)
    ensures distance == RouteCost(inst, route)
  {
    distance := 0;
    var current: int := inst.depot;
    for k := 0 to |route|
      invariant current == Stop(inst.depot, route, k)
      invariant distance == TravelCost(inst, route, k)
    {
      distance := distance + inst.cost[current][route[k]];
      current := route[k];
    }
    distance := distance + inst.cost[current][inst.depot];
  }

  method GetTotal(inst: Instance, routes: seq<Route>) returns (total: int)
    requires inst.WellFormed() && forall i | 0 <= i < |routes| :: Serves(inst.Nodes(), routes[i])
    ensures total == RoutesCost(inst, routes, |routes|)
  {
    total := 0;
    for i := 0 to |routes|
      invariant total == RoutesCost(inst, routes, i)
    {
      var distance := GetDistance(inst, routes[i]);
      total := total + distance;
    }
  }

  // The stops before position (i, k) in reading order.
  ghost predicate SeenBefore(routes: seq<Route>, i: nat, k: nat, c: int) {
    exists j, l :: 0 <= j <= i && j < |routes| && 0 <= l < |routes[j]| && (j < i || l < k) && routes[j][l] == c
  }

  // Walks every route, stopping at the first stop that is not a new customer.
  method CheckVisits(n: nat, routes: seq<Route>) returns (r: Result<set<int>, ValidationError>)
    ensures r.Ok? ==> CleanBefore(n, routes, |routes|, 0) && forall c :: c in r.value <==> Visited(routes, c)
    ensures r.Err? ==>
      && r.error.RouteVisit? && r.error.route < |routes| && r.error.position < |routes[r.error.route]|
      && BadVisit(n, routes, r.error.route, r.error.position)
      && CleanBefore(n, routes, r.error.route, r.error.position)
  {
    var visited: set<int> := {};
    for i := 0 to |routes|
      invariant CleanBefore(n, routes, i, 0)
      invariant forall c :: c in visited <==> SeenBefore(routes, i, 0, c)
    {
      for k := 0 to |routes[i]|
        invariant CleanBefore(n, routes, i, k)
        invariant forall c :: c in visited <==> SeenBefore(routes, i, k, c)
      {
        var stop := routes[i][k];
        if !Customer(n, stop) || stop in visited {
          return Err(RouteVisit(i, k));
        }
        visited := visited + {stop};
      }
    }
    return Ok(visited);
  }

  method MissingOrders(n: nat, routes: seq<Route>, visited: set<int>) returns (missing: set<int>)
    requires forall c :: c in visited <==> Visited(routes, c)
    ensures missing == (set c | 1 <= c < n && !Visited(routes, c))
    ensures missing == {} <==> forall c | Customer(n, c) :: Visited(routes, c)
  {
    missing := (set c | 1 <= c < n && Customer(n, c)) - visited;
    if missing == {} {
      forall c | Customer(n, c)
        ensures Visited(routes, c)
      {
        assert 1 <= c < n && c !in missing;
      }
    }
  }

  // The validator: visits first, then missing customers, then loads, then the total cost.
  method Validate(inst: Instance, sol: Solution) returns (r: Result<bool, ValidationError>)
    requires inst.WellFormed()
    ensures r.Ok? <==> Accepted(inst, sol)
    ensures r.Ok? ==> r.value
    ensures r.Err? && r.error.RouteVisit? ==>
      var (i, k) := (r.error.route, r.error.position);
      && i < |sol.routes| && k < |sol.routes[i]|
      && BadVisit(inst.Nodes(), sol.routes, i, k) && CleanBefore(inst.Nodes(), sol.routes, i, k)
    ensures r.Err? && r.error.OrderMissing? ==>
      && CleanBefore(inst.Nodes(), sol.routes, |sol.routes|, 0)
      && r.error.missing == (set c | 1 <= c < inst.Nodes() && !Visited(sol.routes, c))
      && r.error.missing != {}
    ensures r.Err? && r.error.Overload? ==>
      && Partition(inst.Nodes(), sol.routes) && r.error.route < |sol.routes|
      && r.error.load == LoadFrom(inst, sol.routes[r.error.route], 0) > inst.capacity
      && forall i | 0 <= i < r.error.route :: LoadFrom(inst, sol.routes[i], 0) <= inst.capacity
    ensures r.Err? && r.error.WrongCost? ==>
      && Partition(inst.Nodes(), sol.routes) && WithinCapacity(inst, sol.routes)
      && r.error.computed == RoutesCost(inst, sol.routes, |sol.routes|) != sol.cost
  {
    var routes := sol.routes;
    var visits := CheckVisits(inst.Nodes(), routes);
    if visits.Err? {
      BadIsNotPartition(inst.Nodes(), routes, visits.error.route, visits.error.position);
      return Err(visits.error);
    }
    CleanIsDistinct(inst.Nodes(), routes);

    var missing := MissingOrders(inst.Nodes(), routes, visits.value);
    if missing != {} {
      return Err(OrderMissing(missing));
    }

    for i := 0 to |routes|
      invariant forall j | 0 <= j < i :: LoadFrom(inst, routes[j], 0) <= inst.capacity
    {
      var load := GetLoad(inst, routes[i]);
      if load > inst.capacity {
        return Err(Overload(i, load));
      }
    }
    var total := GetTotal(inst, routes);
    if total != sol.cost {
      return Err(WrongCost(total));
    }
    return Ok(true);
  }
}
