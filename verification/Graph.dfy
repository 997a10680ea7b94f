// Finite directed graphs with node weights: topological orders, cycles, and earliest
// start times. Nothing here depends on how a graph is traversed.
module Graph {
  import opened Collections

  type Edge = (nat, nat)

  // Every predecessor of a node in the order comes before it.
  ghost predicate Topological(edges: set<Edge>, order: seq<nat>) {
    NoRepeats(order) && forall i | 0 <= i < |order| :: PredsBefore(edges, order, i)
  }

  ghost predicate PredsBefore(edges: set<Edge>, order: seq<nat>, i: nat)
    requires i < |order|
  {
    forall u | (u, order[i]) in edges :: u in order[..i]
  }

  // Every node left out has a predecessor that is left out too.
  ghost predicate Stalled(edges: set<Edge>, rest: set<nat>) {
    forall v {:trigger Blocked(edges, rest, v)} | v in rest :: Blocked(edges, rest, v)
  }

  ghost predicate Blocked(edges: set<Edge>, rest: set<nat>, v: nat) {
    exists u :: u in rest && (u, v) in edges
  }

  ghost predicate Cycle(edges: set<Edge>, c: seq<nat>) {
    c != [] && forall i | 0 <= i < |c| :: (c[i], c[if i + 1 < |c| then i + 1 else 0]) in edges
  }

  ghost predicate Acyclic(edges: set<Edge>) {
    forall c :: !Cycle(edges, c)
  }

  // ----- processed nodes -----

  lemma {:induction false} ProcessedInside(edges: set<Edge>, nodes: set<nat>, order: seq<nat>, rest: set<nat>, i: nat)
    requires Topological(edges, order) && Stalled(edges, rest) && i < |order|
    ensures order[i] !in rest
    decreases i
  {
    if order[i] in rest {
      assert Blocked(edges, rest, order[i]);
      var u :| u in rest && (u, order[i]) in edges;
      assert PredsBefore(edges, order, i);
      var j :| 0 <= j < i && order[..i][j] == u;
      ProcessedInside(edges, nodes, order, rest, j);
    }
  }

  ghost function NodesOf(order: seq<nat>): set<nat> {
    set v | v in order
  }

  // Any two maximal topological orders hold the same nodes.
  lemma ProcessedUnique(edges: set<Edge>, nodes: set<nat>, a: seq<nat>, b: seq<nat>)
    requires Topological(edges, a) && Topological(edges, b)
    requires NodesOf(a) <= nodes && NodesOf(b) <= nodes
    requires Stalled(edges, nodes - NodesOf(a)) && Stalled(edges, nodes - NodesOf(b))
    ensures NodesOf(a) == NodesOf(b)
  {
    forall v | v in NodesOf(a) ensures v in NodesOf(b) {
      var i :| 0 <= i < |a| && a[i] == v;
      ProcessedInside(edges, nodes, a, nodes - NodesOf(b), i);
    }
    forall v | v in NodesOf(b) ensures v in NodesOf(a) {
      var i :| 0 <= i < |b| && b[i] == v;
      ProcessedInside(edges, nodes, b, nodes - NodesOf(a), i);
    }
  }

  // ----- cycles -----

  // path[k + 1] is a predecessor of path[k], all inside rest.
  ghost predicate BackPath(edges: set<Edge>, rest: set<nat>, path: seq<nat>) {
    && path != []
    && (forall k | 0 <= k < |path| :: path[k] in rest)
    && (forall k | 0 <= k < |path| - 1 :: BackStep(edges, path, k))
  }

  ghost predicate BackStep(edges: set<Edge>, path: seq<nat>, k: nat)
    requires k + 1 < |path|
  {
    (path[k + 1], path[k]) in edges
  }

  ghost function Reversed(s: seq<nat>): (r: seq<nat>)
    ensures |r| == |s| && forall i | 0 <= i < |s| :: r[i] == s[|s| - 1 - i]
  {
    seq(|s|, i requires 0 <= i < |s| => s[|s| - 1 - i])
  }

  lemma BackPathCloses(edges: set<Edge>, rest: set<nat>, path: seq<nat>, i: nat)
    requires BackPath(edges, rest, path) && i < |path| && (path[i], path[|path| - 1]) in edges
    ensures Cycle(edges, Reversed(path[i..]))
  {
    var tail := path[i..];
    var c := Reversed(tail);
    forall k | 0 <= k < |c| ensures (c[k], c[if k + 1 < |c| then k + 1 else 0]) in edges {
      if k + 1 < |c| {
        assert BackStep(edges, path, |path| - 1 - (k + 1));
        assert c[k] == path[|path| - 1 - k] && c[k + 1] == path[|path| - 1 - (k + 1)];
      }
    }
  }

  lemma {:induction false} FindCycle(edges: set<Edge>, rest: set<nat>, path: seq<nat>) returns (c: seq<nat>)
    requires Stalled(edges, rest) && BackPath(edges, rest, path)
    ensures Cycle(edges, c) && forall v | v in c :: v in rest
    decreases rest - NodesOf(path)
  {
    var last := path[|path| - 1];
    assert Blocked(edges, rest, last);
    var u :| u in rest && (u, last) in edges;
    if u in path {
      var i :| 0 <= i < |path| && path[i] == u;
      BackPathCloses(edges, rest, path, i);
      c := Reversed(path[i..]);
    } else {
      var longer := path + [u];
      forall k | 0 <= k < |longer| - 1 ensures BackStep(edges, longer, k) {
        if k < |path| - 1 { assert BackStep(edges, path, k); }
      }
      assert NodesOf(longer) == NodesOf(path) + {u};
      assert u in rest - NodesOf(path);
      c := FindCycle(edges, rest, longer);
    }
  }

  lemma {:induction false} CycleMember(edges: set<Edge>, order: seq<nat>, c: seq<nat>, i: nat)
    requires Topological(edges, order) && Cycle(edges, c) && i < |order|
    ensures order[i] !in c
    decreases i
  {
    if order[i] in c {
      var k :| 0 <= k < |c| && c[k] == order[i];
      var p := if k == 0 then |c| - 1 else k - 1;
      assert (c[p], c[if p + 1 < |c| then p + 1 else 0]) in edges;
      assert PredsBefore(edges, order, i);
      var j :| 0 <= j < i && order[..i][j] == c[p];
      CycleMember(edges, order, c, j);
    }
  }

  ghost predicate EdgesWithin(edges: set<Edge>, nodes: set<nat>) {
    forall u, v | (u, v) in edges :: u in nodes && v in nodes
  }

  // A maximal topological order holds every node exactly when there is no cycle.
  lemma CompleteIffAcyclic(edges: set<Edge>, nodes: set<nat>, order: seq<nat>)
    requires EdgesWithin(edges, nodes)
    requires Topological(edges, order) && NodesOf(order) <= nodes && Stalled(edges, nodes - NodesOf(order))
    ensures NodesOf(order) == nodes <==> Acyclic(edges)
  {
    if NodesOf(order) == nodes {
      forall c ensures !Cycle(edges, c) {
        if Cycle(edges, c) {
          assert (c[0], c[if 1 < |c| then 1 else 0]) in edges;
          var i :| 0 <= i < |order| && order[i] == c[0];
          CycleMember(edges, order, c, i);
        }
      }
    } else {
      var rest := nodes - NodesOf(order);
      assert nodes == rest + NodesOf(order);
      assert rest != {};
      var v :| v in rest;
      var c := FindCycle(edges, rest, [v]);
    }
  }

  // A potential that strictly grows along every edge rules out cycles.
  lemma RankedIsAcyclic(edges: set<Edge>, rank: map<nat, int>)
    requires forall u, v | (u, v) in edges :: u in rank && v in rank && rank[u] < rank[v]
    ensures Acyclic(edges)
  {
    forall c ensures !Cycle(edges, c) {
      if Cycle(edges, c) { RankGrows(edges, rank, c, |c| - 1); }
    }
  }

  lemma {:induction false} RankGrows(edges: set<Edge>, rank: map<nat, int>, c: seq<nat>, k: nat)
    requires forall u, v | (u, v) in edges :: u in rank && v in rank && rank[u] < rank[v]
    requires Cycle(edges, c) && k < |c|
    ensures c[0] in rank && c[k] in rank && rank[c[0]] <= rank[c[k]]
    ensures k + 1 == |c| ==> rank[c[k]] < rank[c[0]]
  {
    assert (c[k], c[if k + 1 < |c| then k + 1 else 0]) in edges;
    if k > 0 {
      RankGrows(edges, rank, c, k - 1);
      assert (c[k - 1], c[if k < |c| then k else 0]) in edges;
    }
  }

  // ----- earliest starts -----

  // start is 0 or the finish of a predecessor, and no predecessor finishes later.
  ghost predicate Earliest(edges: set<Edge>, duration: seq<nat>, start: map<nat, nat>) {
    forall v | v in start :: EarliestAt(edges, duration, start, v)
  }

  ghost predicate EarliestAt(edges: set<Edge>, duration: seq<nat>, start: map<nat, nat>, v: nat)
    requires v in start
  {
    && (forall u | (u, v) in edges :: u in start && u < |duration| && start[u] + duration[u] <= start[v])
    && (start[v] == 0 || exists u :: (u, v) in edges && u in start && u < |duration| && start[v] == start[u] + duration[u])
  }

  // A schedule: non-negative starts that respect every edge into the given nodes.
  ghost predicate Respects(edges: set<Edge>, duration: seq<nat>, nodes: set<nat>, s: map<nat, int>) {
    && nodes <= s.Keys
    && (forall v | v in nodes :: s[v] >= 0)
    && (forall u, v | (u, v) in edges && v in nodes :: u in nodes && u < |duration| && s[u] + duration[u] <= s[v])
  }

  lemma {:induction false} EarliestLeastAt(edges: set<Edge>, duration: seq<nat>, order: seq<nat>, start: map<nat, nat>,
                                           s: map<nat, int>, i: nat)
    requires Topological(edges, order) && start.Keys == NodesOf(order)
    requires Earliest(edges, duration, start) && Respects(edges, duration, NodesOf(order), s)
    requires i < |order|
    ensures start[order[i]] <= s[order[i]]
    decreases i
  {
    var v := order[i];
    assert v in NodesOf(order);
    assert EarliestAt(edges, duration, start, v);
    if start[v] != 0 {
      var u :| (u, v) in edges && u in start && u < |duration| && start[v] == start[u] + duration[u];
      assert PredsBefore(edges, order, i);
      var j :| 0 <= j < i && order[..i][j] == u;
      EarliestLeastAt(edges, duration, order, start, s, j);
    }
  }

  // Earliest starts are pointwise below every schedule.
  lemma EarliestLeast(edges: set<Edge>, duration: seq<nat>, order: seq<nat>, start: map<nat, nat>, s: map<nat, int>)
    requires Topological(edges, order) && start.Keys == NodesOf(order)
    requires Earliest(edges, duration, start) && Respects(edges, duration, NodesOf(order), s)
    ensures forall v | v in start :: start[v] <= s[v]
  {
    forall v | v in start ensures start[v] <= s[v] {
      var i :| 0 <= i < |order| && order[i] == v;
      EarliestLeastAt(edges, duration, order, start, s, i);
    }
  }

  // Earliest starts are themselves a schedule, so they are the least one.
  lemma EarliestRespects(edges: set<Edge>, duration: seq<nat>, start: map<nat, nat>)
    requires Earliest(edges, duration, start)
    ensures Respects(edges, duration, start.Keys, start)
  {
    forall u, v | (u, v) in edges && v in start
      ensures u in start && u < |duration| && start[u] + duration[u] <= start[v]
    {
      assert EarliestAt(edges, duration, start, v);
    }
  }

  // What a longest-path evaluation computes: a maximal topological order and earliest starts.
  ghost predicate Evaluates(edges: set<Edge>, duration: seq<nat>, nodes: set<nat>, start: map<nat, nat>) {
    exists order :: EvaluatesBy(edges, duration, nodes, start, order)
  }

  ghost predicate EvaluatesBy(edges: set<Edge>, duration: seq<nat>, nodes: set<nat>, start: map<nat, nat>, order: seq<nat>) {
    && Topological(edges, order) && NodesOf(order) == start.Keys <= nodes
    && Stalled(edges, nodes - start.Keys)
    && Earliest(edges, duration, start)
  }

  // Confluence: the evaluation is determined by the graph alone.
  lemma EvaluationUnique(edges: set<Edge>, duration: seq<nat>, nodes: set<nat>, a: map<nat, nat>, b: map<nat, nat>)
    requires Evaluates(edges, duration, nodes, a) && Evaluates(edges, duration, nodes, b)
    ensures a == b
  {
    var oa :| EvaluatesBy(edges, duration, nodes, a, oa);
    var ob :| EvaluatesBy(edges, duration, nodes, b, ob);
    ProcessedUnique(edges, nodes, oa, ob);
    EarliestRespects(edges, duration, a);
    EarliestRespects(edges, duration, b);
    EarliestLeast(edges, duration, oa, a, b);
    EarliestLeast(edges, duration, ob, b, a);
  }

  // All nodes get a start exactly when the graph has no cycle.
  lemma EvaluationComplete(edges: set<Edge>, duration: seq<nat>, nodes: set<nat>, start: map<nat, nat>)
    requires EdgesWithin(edges, nodes) && Evaluates(edges, duration, nodes, start)
    ensures start.Keys == nodes <==> Acyclic(edges)
  {
    var order :| EvaluatesBy(edges, duration, nodes, start, order);
    CompleteIffAcyclic(edges, nodes, order);
  }

  // On an acyclic graph the evaluation is the pointwise least schedule.
  lemma EvaluationLeast(edges: set<Edge>, duration: seq<nat>, nodes: set<nat>, start: map<nat, nat>, s: map<nat, int>)
    requires EdgesWithin(edges, nodes) && Evaluates(edges, duration, nodes, start) && Acyclic(edges)
    requires Respects(edges, duration, nodes, s)
    ensures start.Keys == nodes && Respects(edges, duration, nodes, start)
    ensures forall v | v in nodes :: start[v] <= s[v]
  {
    var order :| EvaluatesBy(edges, duration, nodes, start, order);
    EvaluationComplete(edges, duration, nodes, start);
    EarliestRespects(edges, duration, start);
    EarliestLeast(edges, duration, order, start, s);
  }
}
