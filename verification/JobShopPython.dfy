// The Python evaluator: deduplicated edge sets and dictionaries instead of adjacency lists
// and arrays, relaxed in sorted order.
module JobShopPython {
  import opened Wrappers
  import opened Collections
  import opened Sorting
  import opened Graph
  import opened Kahn
  import opened JobShopPlan
  import opened JobShopEndToEnd

  // Edge sets and in-degrees by operation id.
  datatype Links = Links(edges: map<nat, set<nat>>, indegree: map<nat, nat>)

  function Targets(links: Links, u: nat): set<nat> {
    if u in links.edges then links.edges[u] else {}
  }

  lemma AscendingHolds(s: set<nat>, n: nat, v: nat) returns (k: nat)
    requires v < n && v in s
    ensures k < |Ascending(s, n)| && Ascending(s, n)[k] == v
  {
    AscendingCount(s, n, v);
    assert v in Ascending(s, n);
    k :| 0 <= k < |Ascending(s, n)| && Ascending(s, n)[k] == v;
  }

  // The same graph as adjacency lists.
  ghost function Lists(links: Links, n: nat): (adj: Adjacency)
    ensures |adj| == n && forall u | 0 <= u < n :: adj[u] == Ascending(Targets(links, u), n)
  {
    seq(n, u requires 0 <= u < n => Ascending(Targets(links, u), n))
  }

  ghost predicate EdgesAre(links: Links, n: nat, edges: set<Edge>) {
    && (forall e | e in edges :: e.0 < n && e.1 < n)
    && (forall u: nat, t: nat :: t in Targets(links, u) <==> (u, t) in edges)
  }

  ghost predicate DegreesAre(links: Links, n: nat) {
    forall v: nat | v < n :: DegreeIs(links, n, v)
  }

  ghost predicate DegreeIs(links: Links, n: nat, v: nat) {
    v in links.indegree && links.indegree[v] == Pending(Lists(links, n), {}, v, n)
  }

  ghost predicate LinksOk(links: Links, n: nat, edges: set<Edge>) {
    EdgesAre(links, n, edges) && DegreesAre(links, n) && links.indegree.Keys == NodesBelow(n)
  }

  lemma ListsEdges(links: Links, n: nat, edges: set<Edge>)
    requires EdgesAre(links, n, edges)
    ensures EdgeSet(Lists(links, n)) == edges && TargetsBelow(Lists(links, n), n)
  {
    var adj := Lists(links, n);
    forall u, k | 0 <= u < n && 0 <= k < |adj[u]| ensures adj[u][k] < n && (u, adj[u][k]) in edges {
      AscendingMembers(Targets(links, u), n);
    }
    forall e | e in edges ensures e in EdgeSet(adj) {
      assert e.1 in Targets(links, e.0);
      var k := AscendingHolds(Targets(links, e.0), n, e.1);
      assert (e.0, adj[e.0][k]) == e;
    }
  }

  lemma TargetCount(links: Links, n: nat, u: nat, v: nat)
    requires u < n
    ensures multiset(Lists(links, n)[u])[v] == if v < n && v in Targets(links, u) then 1 else 0
  {
    AscendingCount(Targets(links, u), n, v);
  }

  lemma WithEdgeTargets(links: Links, left: nat, right: nat, u: nat)
    requires right in links.indegree
    ensures Targets(WithEdge(links, left, right), u) == Targets(links, u) + (if u == left then {right} else {})
  {
  }

  lemma CountWithEdge(links: Links, n: nat, left: nat, right: nat, u: nat, v: nat)
    requires u < n && right < n && right in links.indegree && right !in Targets(links, left)
    ensures multiset(Lists(WithEdge(links, left, right), n)[u])[v] ==
      multiset(Lists(links, n)[u])[v] + (if u == left && v == right then 1 else 0)
  {
    WithEdgeTargets(links, left, right, u);
    TargetCount(links, n, u, v);
    TargetCount(WithEdge(links, left, right), n, u, v);
  }

  ghost predicate Bumped(adj: Adjacency, adj': Adjacency, u: nat, t: nat, v: nat, w: nat)
    requires |adj| == |adj'| && w < |adj|
  {
    multiset(adj'[w])[v] == multiset(adj[w])[v] + (if w == u && v == t then 1 else 0)
  }

  lemma {:induction false} PendingBump(adj: Adjacency, adj': Adjacency, u: nat, t: nat, v: nat, k: nat)
    requires |adj| == |adj'| && k <= |adj| && forall w: nat | w < |adj| :: Bumped(adj, adj', u, t, v, w)
    ensures Pending(adj', {}, v, k) == Pending(adj, {}, v, k) + (if u < k && v == t then 1 else 0)
  {
    if k > 0 {
      PendingBump(adj, adj', u, t, v, k - 1);
      assert Bumped(adj, adj', u, t, v, k - 1);
    }
  }

  // Adds an edge once; self-loops and repeats are ignored.
  method AddEdge(links: Links, left: nat, right: nat, ghost n: nat, ghost edges: set<Edge>) returns (links': Links)
    requires LinksOk(links, n, edges) && left < n && right < n
    ensures LinksOk(links', n, edges + WithoutLoops({(left, right)}))
  {
    if left == right || right in Targets(links, left) {
      LinkSkipped(links, n, edges, left, right);
      return links;
    }
    LinkAdded(links, n, edges, left, right);
    return WithEdge(links, left, right);
  }

  lemma LinkSkipped(links: Links, n: nat, edges: set<Edge>, left: nat, right: nat)
    requires EdgesAre(links, n, edges) && (left == right || right in Targets(links, left))
    ensures edges + WithoutLoops({(left, right)}) == edges
  {
  }

  function WithEdge(links: Links, left: nat, right: nat): Links
    requires right in links.indegree
  {
    Links(links.edges[left := Targets(links, left) + {right}],
          links.indegree[right := links.indegree[right] + 1])
  }

  lemma LinkAdded(links: Links, n: nat, edges: set<Edge>, left: nat, right: nat)
    requires LinksOk(links, n, edges) && left < n && right < n && left != right && right !in Targets(links, left)
    ensures right in links.indegree
    ensures LinksOk(WithEdge(links, left, right), n, edges + WithoutLoops({(left, right)}))
  {
    assert WithoutLoops({(left, right)}) == {(left, right)};
    assert DegreeIs(links, n, right);
    EdgeAdded(links, n, edges, left, right);
    forall v: nat | v < n ensures DegreeIs(WithEdge(links, left, right), n, v) {
      assert DegreeIs(links, n, v);
      DegreeAdded(links, n, left, right, v);
    }
  }

  lemma EdgeAdded(links: Links, n: nat, edges: set<Edge>, left: nat, right: nat)
    requires EdgesAre(links, n, edges) && left < n && right < n && right in links.indegree
    ensures EdgesAre(WithEdge(links, left, right), n, edges + {(left, right)})
  {
  }

  lemma DegreeAdded(links: Links, n: nat, left: nat, right: nat, v: nat)
    requires right in links.indegree && left < n && right < n && right !in Targets(links, left) && v < n
    requires DegreeIs(links, n, v)
    ensures DegreeIs(WithEdge(links, left, right), n, v)
  {
    var was, now := Lists(links, n), Lists(WithEdge(links, left, right), n);
    forall u: nat | u < n ensures Bumped(was, now, left, right, v, u) {
      CountWithEdge(links, n, left, right, u, v);
    }
    PendingBump(was, now, left, right, v, n);
  }

  ghost function WithoutLoops(edges: set<Edge>): set<Edge> {
    set e | e in edges && e.0 != e.1
  }

  // Edges of the first i pairs of a sequence.
  ghost function PairsBefore(s: seq<nat>, n: nat, i: nat): set<Edge> {
    if s == [] || i >= |s| then ChainEdges(s, n) else ChainEdges(s[..i + 1], n)
  }

  lemma PairsStep(edges: set<Edge>, s: seq<nat>, n: nat, i: nat)
    requires i + 1 < |s| && s[i] < n && s[i + 1] < n
    ensures edges + WithoutLoops(PairsBefore(s, n, i)) + WithoutLoops({(s[i], s[i + 1])}) ==
      edges + WithoutLoops(PairsBefore(s, n, i + 1))
  {
    ChainSnoc(s, n, i);
  }

  lemma PairsStart(edges: set<Edge>, s: seq<nat>, n: nat)
    ensures edges + WithoutLoops(PairsBefore(s, n, 0)) == edges
  {
    assert PairsBefore(s, n, 0) == {};
  }

  method AddPair(links: Links, s: seq<nat>, i: nat, ghost n: nat, ghost edges: set<Edge>) returns (links': Links)
    requires i + 1 < |s| && s[i] < n && s[i + 1] < n
    requires LinksOk(links, n, edges + WithoutLoops(PairsBefore(s, n, i)))
    ensures LinksOk(links', n, edges + WithoutLoops(PairsBefore(s, n, i + 1)))
  {
    PairsStep(edges, s, n, i);
    links' := AddEdge(links, s[i], s[i + 1], n, edges + WithoutLoops(PairsBefore(s, n, i)));
  }

  method AddPairs(links: Links, s: seq<nat>, ghost n: nat, ghost edges: set<Edge>) returns (links': Links)
    requires LinksOk(links, n, edges) && forall i | 0 <= i < |s| :: s[i] < n
    ensures LinksOk(links', n, edges + WithoutLoops(ChainEdges(s, n)))
  {
    links' := links;
    PairsStart(edges, s, n);
    var i := 0;
    while i + 1 < |s|
      invariant 0 <= i && (i == 0 || i < |s|)
      invariant LinksOk(links', n, edges + WithoutLoops(PairsBefore(s, n, i)))
    {
      links' := AddPair(links', s, i, n, edges);
      i := i + 1;
    }
    PairsEnd(s, n, i);
  }

  lemma PairsEnd(s: seq<nat>, n: nat, i: nat)
    requires i + 1 >= |s|
    ensures PairsBefore(s, n, i) == ChainEdges(s, n)
  {
    if s != [] && i < |s| { assert s[..i + 1] == s; }
  }

  datatype Metrics = Metrics(starts: map<nat, nat>, makespan: nat, cyclePenalty: nat)

  // What the metrics of a complete plan must be.
  ghost predicate MetricsOf(plan: Plan, m: Metrics) {
    exists start: map<nat, nat> :: MetricsBy(plan, m, start)
  }

  ghost predicate MetricsBy(plan: Plan, m: Metrics, start: map<nat, nat>) {
    && Evaluates(PlanEdges(plan), Durations(plan), NodesBelow(plan.Size()), start)
    && start.Keys <= m.starts.Keys == NodesBelow(plan.Size())
    && (forall v | v in start :: m.starts[v] == start[v])
    && |start.Keys| + m.cyclePenalty == plan.Size()
    && (if m.cyclePenalty == 0 then R.IsMakespan(Durations(plan), start, m.makespan) else m.makespan == 0)
  }

  // ----- the graph of a complete plan -----

  ghost function JobEdgesOf(plan: Plan, jobs: set<nat>): set<Edge> {
    set e | e in JobEdges(plan) && e.0 < plan.Size() && plan.operations[e.0].job in jobs
  }

  lemma ChainCompletesJob(plan: Plan, jobs: set<nat>, j: nat)
    requires plan.WellFormed()
    ensures JobEdgesOf(plan, jobs) + WithoutLoops(ChainOf(plan, j)) == JobEdgesOf(plan, jobs + {j})
  {
    forall e | e in WithoutLoops(ChainOf(plan, j)) ensures e in JobEdgesOf(plan, jobs + {j}) {
      ChainIsJobEdge(plan, j, e.0, e.1);
    }
    forall e | e in JobEdgesOf(plan, jobs + {j}) && e !in JobEdgesOf(plan, jobs)
      ensures e in WithoutLoops(ChainOf(plan, j))
    {
      JobEdgeInChain(plan, e.0, e.1);
    }
  }

  function FactsOf(table: map<nat, seq<Keyed<nat>>>, j: nat): seq<Keyed<nat>> {
    if j in table then table[j] else []
  }

  // Facts by job, jobs in order of first appearance.
  ghost predicate JobTable(plan: Plan, k: nat, table: map<nat, seq<Keyed<nat>>>, jobs: seq<nat>)
    requires k <= plan.Size()
  {
    && (forall j: nat :: FactsOf(table, j) == Bucket(plan, k, j))
    && (forall j: nat :: j in jobs <==> j in table)
    && (forall i | 0 <= i < k :: plan.operations[i].job in table)
  }

  function WithFact(table: map<nat, seq<Keyed<nat>>>, op: PlanOperation): map<nat, seq<Keyed<nat>>> {
    table[op.job := FactsOf(table, op.job) + [Keyed(op.index, 0, 0, op.id)]]
  }

  lemma JobTableStep(plan: Plan, k: nat, table: map<nat, seq<Keyed<nat>>>, jobs: seq<nat>, jobs': seq<nat>)
    requires k < plan.Size() && JobTable(plan, k, table, jobs)
    requires jobs' == if plan.operations[k].job in table then jobs else jobs + [plan.operations[k].job]
    ensures JobTable(plan, k + 1, WithFact(table, plan.operations[k]), jobs')
  {
    var op, table' := plan.operations[k], WithFact(table, plan.operations[k]);
    forall j: nat ensures FactsOf(table', j) == Bucket(plan, k + 1, j) {
      assert FactsOf(table, j) == Bucket(plan, k, j);
      assert Bucket(plan, k, j) + [] == Bucket(plan, k, j);
    }
  }

  method AddFact(plan: Plan, k: nat, table: map<nat, seq<Keyed<nat>>>, jobs: seq<nat>)
    returns (table': map<nat, seq<Keyed<nat>>>, jobs': seq<nat>)
    requires k < plan.Size() && JobTable(plan, k, table, jobs)
    ensures JobTable(plan, k + 1, table', jobs')
  {
    jobs' := if plan.operations[k].job in table then jobs else jobs + [plan.operations[k].job];
    JobTableStep(plan, k, table, jobs, jobs');
    table' := WithFact(table, plan.operations[k]);
  }

  method GroupByJob(plan: Plan) returns (table: map<nat, seq<Keyed<nat>>>, jobs: seq<nat>)
    ensures JobTable(plan, plan.Size(), table, jobs)
  {
    table, jobs := map[], [];
    for k := 0 to plan.Size()
      invariant JobTable(plan, k, table, jobs)
    {
      table, jobs := AddFact(plan, k, table, jobs);
    }
  }

  // The first i jobs of the table are linked.
  ghost predicate JobsLinked(plan: Plan, links: Links, jobs: seq<nat>, i: nat)
    requires i <= |jobs|
  {
    LinksOk(links, plan.Size(), JobEdgesOf(plan, NodesOf(jobs[..i])))
  }

  method JobLink(plan: Plan, links: Links, facts: seq<Keyed<nat>>, ghost jobs: seq<nat>, ghost i: nat)
    returns (links': Links)
    requires plan.WellFormed() && i < |jobs| && facts == Bucket(plan, plan.Size(), jobs[i])
    requires JobsLinked(plan, links, jobs, i)
    ensures JobsLinked(plan, links', jobs, i + 1)
  {
    ghost var done := NodesOf(jobs[..i]);
    assert Sort(facts) == JobChain(plan, jobs[i]);
    ChainIds(plan, jobs[i]);
    var ids := Values<nat>(Sort(facts));
    ChainCompletesJob(plan, done, jobs[i]);
    assert NodesOf(jobs[..i + 1]) == done + {jobs[i]};
    links' := AddPairs(links, ids, plan.Size(), JobEdgesOf(plan, done));
  }

  lemma AllJobsLinked(plan: Plan, table: map<nat, seq<Keyed<nat>>>, jobs: seq<nat>)
    requires JobTable(plan, plan.Size(), table, jobs)
    ensures JobEdgesOf(plan, NodesOf(jobs[..|jobs|])) == JobEdges(plan)
  {
    assert jobs[..|jobs|] == jobs;
    forall e | e in JobEdges(plan) ensures e in JobEdgesOf(plan, NodesOf(jobs)) {
      assert plan.operations[e.0].job in jobs;
    }
  }

  method JobLinks(plan: Plan, links: Links) returns (links': Links)
    requires plan.WellFormed() && LinksOk(links, plan.Size(), {})
    ensures LinksOk(links', plan.Size(), JobEdges(plan))
  {
    var table, jobs := GroupByJob(plan);
    links' := links;
    assert JobEdgesOf(plan, NodesOf(jobs[..0])) == {};
    for i := 0 to |jobs|
      invariant JobsLinked(plan, links', jobs, i)
    {
      assert jobs[i] in jobs;
      assert FactsOf(table, jobs[i]) == Bucket(plan, plan.Size(), jobs[i]);
      links' := JobLink(plan, links', table[jobs[i]], jobs, i);
    }
    AllJobsLinked(plan, table, jobs);
  }

  lemma ChainIds(plan: Plan, j: nat)
    requires plan.WellFormed()
    ensures forall i | 0 <= i < |Values<nat>(JobChain(plan, j))| :: Values<nat>(JobChain(plan, j))[i] < plan.Size()
  {
    JobChainMeaning(plan, j);
    forall i | 0 <= i < |JobChain(plan, j)| ensures JobChain(plan, j)[i].value < plan.Size() {
      assert InBucket(plan, plan.Size(), j, JobChain(plan, j)[i]);
    }
  }

  lemma TwiceInARow(s: seq<nat>, k: nat)
    requires k + 1 < |s| && multiset(s)[s[k]] <= 1
    ensures s[k] != s[k + 1]
  {
    assert s == s[..k] + ([s[k], s[k + 1]] + s[k + 2..]);
    assert multiset(s) == multiset(s[..k]) + (multiset{s[k], s[k + 1]} + multiset(s[k + 2..]));
  }

  // A complete plan lists no operation twice, so no pair of neighbours is a loop.
  lemma PlacedHasNoLoops(plan: Plan, m: nat)
    requires Placed(plan) && m < |plan.sequences|
    ensures WithoutLoops(ChainEdges(plan.sequences[m].operations, plan.Size())) ==
      ChainEdges(plan.sequences[m].operations, plan.Size())
  {
    var s := plan.sequences[m].operations;
    forall e | e in ChainEdges(s, plan.Size()) ensures e.0 != e.1 {
      var k :| 0 <= k < |s| - 1 && Linked(s, plan.Size(), k) && (s[k], s[k + 1]) == e;
      assert AssignedOnce(plan, s[k]);
      AssignedAtLeast(plan, |plan.sequences|, m, s[k]);
      TwiceInARow(s, k);
    }
  }

  lemma {:induction false} AssignedAtLeast(plan: Plan, k: nat, m: nat, v: nat)
    requires m < k <= |plan.sequences|
    ensures multiset(plan.sequences[m].operations)[v] <= Assigned(plan, k, v)
  {
    if m < k - 1 { AssignedAtLeast(plan, k - 1, m, v); }
  }

  method MachineLinks(plan: Plan, links: Links) returns (links': Links)
    requires plan.WellFormed() && Placed(plan) && LinksOk(links, plan.Size(), JobEdges(plan))
    ensures LinksOk(links', plan.Size(), PlanEdges(plan))
  {
    links' := links;
    assert JobEdges(plan) + MachineEdges(plan, 0) == JobEdges(plan);
    for m := 0 to |plan.sequences|
      invariant LinksOk(links', plan.Size(), JobEdges(plan) + MachineEdges(plan, m))
    {
      var cleaned := Known(plan.sequences[m].operations, plan.Size());
      assert PlacedOn(plan, plan.sequences[m]);
      KnownAll(plan.sequences[m].operations, plan.Size());
      PlacedHasNoLoops(plan, m);
      assert JobEdges(plan) + MachineEdges(plan, m + 1) ==
        JobEdges(plan) + MachineEdges(plan, m) + ChainEdges(cleaned, plan.Size());
      links' := AddPairs(links', cleaned, plan.Size(), JobEdges(plan) + MachineEdges(plan, m));
    }
  }

  // The entries of a sequence that name an operation.
  function Known(s: seq<nat>, n: nat): seq<nat> {
    if s == [] then [] else Known(s[..|s| - 1], n) + (if s[|s| - 1] < n then [s[|s| - 1]] else [])
  }

  lemma {:induction false} KnownAll(s: seq<nat>, n: nat)
    requires forall i | 0 <= i < |s| :: s[i] < n
    ensures Known(s, n) == s
  {
    if s != [] { KnownAll(s[..|s| - 1], n); }
  }

  // ----- the loop over dictionaries -----

  // A dictionary over all operations holds the entries of an array.
  ghost predicate Mirrors(m: map<nat, nat>, s: seq<nat>) {
    m.Keys == NodesBelow(|s|) && forall v | 0 <= v < |s| :: v in m && m[v] == s[v]
  }

  lemma MirrorsUpdate(m: map<nat, nat>, s: seq<nat>, t: nat, d: nat)
    requires Mirrors(m, s) && t < |s|
    ensures t in m && m[t] == s[t] && Mirrors(m[t := d], s[t := d])
  {
    assert t in NodesBelow(|s|);
  }

  method RelaxTarget(indegree: map<nat, nat>, starts: map<nat, nat>, queue: seq<nat>, t: nat, finish: nat,
                     ghost deg: seq<nat>, ghost est: seq<nat>)
    returns (indegree': map<nat, nat>, starts': map<nat, nat>, queue': seq<nat>)
    requires Mirrors(indegree, deg) && Mirrors(starts, est)
    requires t < |deg| == |est| && deg[t] > 0
    ensures Mirrors(indegree', deg[t := deg[t] - 1])
    ensures Mirrors(starts', est[t := if est[t] < finish then finish else est[t]])
    ensures queue' == if deg[t] == 1 then queue + [t] else queue
  {
    ghost var latest := if est[t] < finish then finish else est[t];
    MirrorsUpdate(starts, est, t, latest);
    MirrorsUpdate(indegree, deg, t, deg[t] - 1);
    starts' := starts[t := if starts[t] < finish then finish else starts[t]];
    indegree' := indegree[t := indegree[t] - 1];
    queue' := if indegree'[t] == 0 then queue + [t] else queue;
  }

  // One target of the popped operation u.
  method RelaxNext(t: nat, indegree: map<nat, nat>, starts: map<nat, nat>, queue: seq<nat>, finish: nat, ghost e: nat,
                   ghost adj: Adjacency, ghost duration: seq<nat>, ghost order: seq<nat>, ghost done: set<nat>,
                   ghost u: nat, ghost deg: seq<nat>, ghost est: seq<nat>)
    returns (indegree': map<nat, nat>, starts': map<nat, nat>, queue': seq<nat>, ghost deg': seq<nat>, ghost est': seq<nat>)
    requires RelaxState(adj, duration, order, queue, done, u, e, deg, est) && |duration| == |adj|
    requires e < |adj[u]| && t == adj[u][e] && u < |est| && finish == est[u] + duration[u]
    requires Mirrors(indegree, deg) && Mirrors(starts, est)
    ensures RelaxState(adj, duration, order, queue', done, u, e + 1, deg', est')
    ensures Mirrors(indegree', deg') && Mirrors(starts', est') && u < |est'| && est'[u] == est[u]
  {
    RelaxOne(adj, duration, order, queue, done, u, e, deg, est, finish);
    indegree', starts', queue' := RelaxTarget(indegree, starts, queue, t, finish, deg, est);
    deg', est' := deg[t := deg[t] - 1], est[t := if est[t] < finish then finish else est[t]];
  }

  method RelaxTargets(targets: seq<nat>, indegree: map<nat, nat>, starts: map<nat, nat>, queue: seq<nat>, finish: nat,
                      ghost adj: Adjacency, ghost duration: seq<nat>, ghost order: seq<nat>, ghost done: set<nat>,
                      ghost u: nat, ghost deg: seq<nat>, ghost est: seq<nat>)
    returns (indegree': map<nat, nat>, starts': map<nat, nat>, queue': seq<nat>, ghost deg': seq<nat>, ghost est': seq<nat>)
    requires RelaxState(adj, duration, order, queue, done, u, 0, deg, est) && |duration| == |adj|
    requires targets == adj[u] && finish == est[u] + duration[u]
    requires Mirrors(indegree, deg) && Mirrors(starts, est)
    ensures RelaxState(adj, duration, order, queue', done, u, |targets|, deg', est')
    ensures Mirrors(indegree', deg') && Mirrors(starts', est')
  {
    indegree', starts', queue', deg', est' := indegree, starts, queue, deg, est;
    for e := 0 to |targets|
      invariant RelaxState(adj, duration, order, queue', done, u, e, deg', est')
      invariant Mirrors(indegree', deg') && Mirrors(starts', est') && u < |est'| && est'[u] == est[u]
    {
      indegree', starts', queue', deg', est' :=
        RelaxNext(targets[e], indegree', starts', queue', finish, e, adj, duration, order, done, u, deg', est');
    }
  }

  // The in-degree dictionary as an array.
  lemma DegreeList(links: Links, n: nat, edges: set<Edge>) returns (deg: seq<nat>)
    requires LinksOk(links, n, edges)
    ensures |deg| == n && Mirrors(links.indegree, deg) && Counts(Lists(links, n), {}, deg)
  {
    forall v: nat | v < n ensures v in links.indegree {
      assert v in NodesBelow(n);
    }
    deg := seq(n, v requires 0 <= v < n => links.indegree[v]);
    forall v | 0 <= v < n ensures deg[v] == Pending(Lists(links, n), {}, v, n) {
      assert DegreeIs(links, n, v);
    }
  }

  method InitialState(links: Links, n: nat, ghost edges: set<Edge>, ghost duration: seq<nat>)
    returns (starts: map<nat, nat>, queue: seq<nat>, ghost deg: seq<nat>, ghost est: seq<nat>)
    requires LinksOk(links, n, edges) && |duration| == n
    ensures Mirrors(links.indegree, deg) && Mirrors(starts, est)
    ensures Between(Lists(links, n), duration, [], queue, deg, est)
  {
    deg := DegreeList(links, n, edges);
    starts := map v: nat | v < n && Below(v, n) :: 0;
    est := seq(n, v => 0);
    assert starts.Keys == NodesBelow(n);
    var free := set v | v in links.indegree && links.indegree[v] == 0;
    queue := Ascending(free, n);
    InitialQueue(Lists(links, n), free, queue, deg);
    ListsEdges(links, n, edges);
    StartState(Lists(links, n), duration, queue, deg, est);
  }

  lemma InitialQueue(adj: Adjacency, free: set<nat>, queue: seq<nat>, deg: seq<nat>)
    requires |deg| == |adj| && queue == Ascending(free, |adj|)
    requires forall v | 0 <= v < |adj| :: v in free <==> deg[v] == 0
    ensures QueueState(adj, [], queue, deg)
  {
    AscendingMembers(free, |adj|);
    forall v | 0 <= v < |adj| ensures v in queue <==> deg[v] == 0 {
      if deg[v] == 0 { var k := AscendingHolds(free, |adj|, v); }
    }
    assert [] + queue == queue;
  }

  method RunDictionaries(plan: Plan, links: Links)
    returns (starts: map<nat, nat>, visited: nat, ghost order: seq<nat>, ghost deg: seq<nat>, ghost est: seq<nat>)
    requires LinksOk(links, plan.Size(), PlanEdges(plan))
    ensures visited == |order| && Mirrors(starts, est)
    ensures Between(Lists(links, plan.Size()), Durations(plan), order, [], deg, est)
  {
    ghost var n, adj, duration := plan.Size(), Lists(links, plan.Size()), Durations(plan);
    var indegree, queue := links.indegree, [];
    starts, queue, deg, est := InitialState(links, plan.Size(), PlanEdges(plan), duration);
    visited, order := 0, [];
    assert Topological(EdgeSet(adj), order);
    while queue != []
      invariant Between(adj, duration, order, queue, deg, est)
      invariant Mirrors(indegree, deg) && Mirrors(starts, est) && visited == |order|
      decreases n - |order|
    {
      PopState(adj, duration, order, queue, deg, est);
      ghost var done, order' := NodesOf(order), order + [queue[0]];
      var u := queue[0];
      visited := visited + 1;
      var finish := starts[u] + plan.operations[u].duration;
      var targets := Ascending(Targets(links, u), plan.Size());
      indegree, starts, queue, deg, est :=
        RelaxTargets(targets, indegree, starts, queue[1..], finish, adj, duration, order', done, u, deg, est);
      RelaxedAll(adj, duration, order', queue, done, u, deg, est);
      order := order';
    }
  }

  // ----- metrics -----

  ghost function Reached(order: seq<nat>, est: seq<nat>): (starts: seq<Option<nat>>)
    ensures |starts| == |est|
    ensures forall v | 0 <= v < |est| :: starts[v] == if v in order then Some(est[v]) else None
  {
    seq(|est|, v requires 0 <= v < |est| => if v in order then Some(est[v]) else None)
  }

  // The dictionary loop evaluates the plan's graph.
  lemma LoopEvaluates(plan: Plan, links: Links, order: seq<nat>, deg: seq<nat>, est: seq<nat>, start: map<nat, nat>)
    requires LinksOk(links, plan.Size(), PlanEdges(plan))
    requires Between(Lists(links, plan.Size()), Durations(plan), order, [], deg, est)
    requires start == StartMap(Reached(order, est))
    ensures EvaluatesBy(PlanEdges(plan), Durations(plan), NodesBelow(plan.Size()), start, order)
    ensures |start.Keys| == |order| <= plan.Size() && start.Keys == NodesOf(order)
    ensures |order| == plan.Size() ==> start.Keys == NodesBelow(plan.Size())
  {
    var n := plan.Size();
    ListsEdges(links, n, PlanEdges(plan));
    LoopResult(Lists(links, n), Durations(plan), order, deg, est, Reached(order, est));
    OrderSize(order);
    BelowSize(n);
    SubsetSize(start.Keys, NodesBelow(n));
  }

  method LatestFinish(plan: Plan, starts: map<nat, nat>) returns (makespan: nat)
    requires starts.Keys == NodesBelow(plan.Size())
    ensures R.IsMakespan(Durations(plan), starts, makespan)
  {
    makespan := 0;
    for v := 0 to plan.Size()
      invariant forall w: nat | w < v :: w in starts && starts[w] + Durations(plan)[w] <= makespan
      invariant makespan == 0 || exists w: nat :: w < v && w in starts && starts[w] + Durations(plan)[w] == makespan
    {
      assert v in NodesBelow(plan.Size());
      var finish := starts[v] + plan.operations[v].duration;
      if finish > makespan { makespan := finish; }
    }
  }

  lemma ReachedStarts(order: seq<nat>, est: seq<nat>, starts: map<nat, nat>, start: map<nat, nat>)
    requires Mirrors(starts, est) && start == StartMap(Reached(order, est))
    ensures forall v | v in start :: v in starts && starts[v] == start[v]
    ensures start.Keys == NodesBelow(|est|) ==> start == starts
  {
  }

  lemma MetricsFrom(plan: Plan, m: Metrics, order: seq<nat>, start: map<nat, nat>)
    requires EvaluatesBy(PlanEdges(plan), Durations(plan), NodesBelow(plan.Size()), start, order)
    requires m.starts.Keys == NodesBelow(plan.Size()) && |start.Keys| + m.cyclePenalty == plan.Size()
    requires forall v | v in start :: v in m.starts && m.starts[v] == start[v]
    requires if m.cyclePenalty == 0 then R.IsMakespan(Durations(plan), start, m.makespan) else m.makespan == 0
    ensures MetricsOf(plan, m)
  {
    assert MetricsBy(plan, m, start);
  }

  // Metrics of a complete plan, as the adapter reads them before it builds its answer.
  method ScheduleMetrics(plan: Plan) returns (metrics: Metrics)
    requires plan.WellFormed() && Placed(plan) && DistinctMachines(plan)
    ensures MetricsOf(plan, metrics)
  {
    var n := plan.Size();
    var links := Links(map[], map v: nat | v < n && Below(v, n) :: 0);
    NoLinks(links, n);
    links := JobLinks(plan, links);
    links := MachineLinks(plan, links);
    var starts, visited;
    ghost var order, deg, est;
    starts, visited, order, deg, est := RunDictionaries(plan, links);
    ghost var start := StartMap(Reached(order, est));
    LoopEvaluates(plan, links, order, deg, est, start);
    var cyclePenalty := n - visited;
    var makespan := 0;
    ReachedStarts(order, est, starts, start);
    if cyclePenalty == 0 {
      makespan := LatestFinish(plan, starts);
    }
    metrics := Metrics(starts, makespan, cyclePenalty);
    MetricsFrom(plan, metrics, order, start);
  }

  lemma NoLinks(links: Links, n: nat)
    requires links.edges == map[] && links.indegree.Keys == NodesBelow(n)
    requires forall v | v in links.indegree :: links.indegree[v] == 0
    ensures LinksOk(links, n, {})
  {
    var adj := Lists(links, n);
    forall u | 0 <= u < n ensures adj[u] == [] {
      AscendingNothing(n);
    }
    forall v: nat | v < n ensures DegreeIs(links, n, v) {
      assert v in NodesBelow(n);
      PendingPositive(adj, {}, v, n);
    }
  }

  lemma {:induction false} AscendingNothing(n: nat)
    ensures Ascending({}, n) == []
  {
    if n > 0 { AscendingNothing(n - 1); }
  }
}
