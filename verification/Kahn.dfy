// The queue-driven longest-path loop over adjacency lists with in-degree counters, as the
// Rust and Java evaluators run it, and the edge insertion both use.
module Kahn {
  import opened Wrappers
  import opened Collections
  import opened Graph

  type Adjacency = seq<seq<nat>>

  ghost predicate TargetsBelow(adj: Adjacency, n: nat) {
    forall u, k | 0 <= u < |adj| && 0 <= k < |adj[u]| :: adj[u][k] < n
  }

  ghost function EdgeSet(adj: Adjacency): set<Edge> {
    set u, k | 0 <= u < |adj| && 0 <= k < |adj[u]| :: (u, adj[u][k])
  }

  ghost function NodesBelow(n: nat): set<nat> {
    set v: nat | v < n && Below(v, n)
  }

  predicate Below(v: nat, n: nat) { v < n }

  // Edges into v from the first k nodes outside done, with multiplicity.
  ghost function Pending(adj: Adjacency, done: set<nat>, v: nat, k: nat): nat
    requires k <= |adj|
  {
    if k == 0 then 0
    else Pending(adj, done, v, k - 1) + (if k - 1 in done then 0 else multiset(adj[k - 1])[v])
  }

  // deg counts, for every node, the edges still pending into it.
  ghost predicate Counts(adj: Adjacency, done: set<nat>, deg: seq<nat>) {
    |deg| == |adj| && forall v | 0 <= v < |adj| :: deg[v] == Pending(adj, done, v, |adj|)
  }

  // ----- adding edges -----

  lemma {:induction false} PendingUpdate(adj: Adjacency, done: set<nat>, from: nat, to: nat, v: nat, k: nat)
    requires k <= |adj| && from < |adj| && from !in done
    ensures Pending(adj[from := adj[from] + [to]], done, v, k)
         == Pending(adj, done, v, k) + (if from < k && v == to then 1 else 0)
  {
    if k > 0 { PendingUpdate(adj, done, from, to, v, k - 1); }
  }

  lemma EdgeSetUpdate(adj: Adjacency, from: nat, to: nat)
    requires from < |adj|
    ensures EdgeSet(adj[from := adj[from] + [to]]) == EdgeSet(adj) + {(from, to)}
  {
    var adj' := adj[from := adj[from] + [to]];
    forall e | e in EdgeSet(adj') ensures e in EdgeSet(adj) + {(from, to)} {
      var u, k :| 0 <= u < |adj'| && 0 <= k < |adj'[u]| && (u, adj'[u][k]) == e;
      if !(u == from && k == |adj[from]|) { assert adj[u][k] == adj'[u][k]; }
    }
    forall e | e in EdgeSet(adj) ensures e in EdgeSet(adj') {
      var u, k :| 0 <= u < |adj| && 0 <= k < |adj[u]| && (u, adj[u][k]) == e;
      assert adj'[u][k] == adj[u][k];
    }
    assert adj'[from][|adj[from]|] == to;
  }

  // Ignores edges with an unknown end.
  method AddEdge(from: nat, to: nat, edges: array<seq<nat>>, indegree: array<nat>)
    requires edges.Length == indegree.Length
    requires TargetsBelow(edges[..], edges.Length) && Counts(edges[..], {}, indegree[..])
    modifies edges, indegree
    ensures TargetsBelow(edges[..], edges.Length) && Counts(edges[..], {}, indegree[..])
    ensures EdgeSet(edges[..]) == old(EdgeSet(edges[..])) +
      (if from < edges.Length && to < edges.Length then {(from, to)} else {})
  {
    if from >= edges.Length || to >= edges.Length { return; }
    ghost var adj := edges[..];
    edges[from] := edges[from] + [to];
    indegree[to] := indegree[to] + 1;
    assert edges[..] == adj[from := adj[from] + [to]];
    EdgeSetUpdate(adj, from, to);
    forall v | 0 <= v < edges.Length
      ensures indegree[..][v] == Pending(edges[..], {}, v, edges.Length)
    {
      PendingUpdate(adj, {}, from, to, v, edges.Length);
    }
  }

  // Consecutive pairs of a sequence, unknown nodes skipped pair by pair.
  ghost function ChainEdges(s: seq<nat>, n: nat): set<Edge> {
    set k | 0 <= k < |s| - 1 && Linked(s, n, k) :: (s[k], s[k + 1])
  }

  ghost predicate Linked(s: seq<nat>, n: nat, k: nat)
    requires k + 1 < |s|
  {
    s[k] < n && s[k + 1] < n
  }

  lemma ChainSnoc(s: seq<nat>, n: nat, i: nat)
    requires i + 1 < |s|
    ensures ChainEdges(s[..i + 2], n) == ChainEdges(s[..i + 1], n) +
      (if s[i] < n && s[i + 1] < n then {(s[i], s[i + 1])} else {})
  {
    var a, b := s[..i + 1], s[..i + 2];
    forall e | e in ChainEdges(b, n)
      ensures e in ChainEdges(a, n) || (s[i] < n && s[i + 1] < n && e == (s[i], s[i + 1]))
    {
      var k :| 0 <= k < |b| - 1 && Linked(b, n, k) && (b[k], b[k + 1]) == e;
      if k < i { assert a[k] == b[k] && a[k + 1] == b[k + 1] && Linked(a, n, k); }
    }
    forall e | e in ChainEdges(a, n) ensures e in ChainEdges(b, n) {
      var k :| 0 <= k < |a| - 1 && Linked(a, n, k) && (a[k], a[k + 1]) == e;
      assert b[k] == a[k] && b[k + 1] == a[k + 1] && Linked(b, n, k);
    }
    assert b[i] == s[i] && b[i + 1] == s[i + 1];
    assert s[i] < n && s[i + 1] < n ==> Linked(b, n, i);
  }

  method AddChain(s: seq<nat>, edges: array<seq<nat>>, indegree: array<nat>)
    requires edges.Length == indegree.Length
    requires TargetsBelow(edges[..], edges.Length) && Counts(edges[..], {}, indegree[..])
    modifies edges, indegree
    ensures TargetsBelow(edges[..], edges.Length) && Counts(edges[..], {}, indegree[..])
    ensures EdgeSet(edges[..]) == old(EdgeSet(edges[..])) + ChainEdges(s, edges.Length)
  {
    var i := 0;
    while i + 1 < |s|
      invariant 0 <= i && (s == [] ==> i == 0) && (s != [] ==> i < |s|)
      invariant TargetsBelow(edges[..], edges.Length) && Counts(edges[..], {}, indegree[..])
      invariant EdgeSet(edges[..]) == old(EdgeSet(edges[..])) +
        ChainEdges(if s == [] then [] else s[..i + 1], edges.Length)
    {
      ChainSnoc(s, edges.Length, i);
      AddEdge(s[i], s[i + 1], edges, indegree);
      i := i + 1;
    }
    assert s != [] ==> s[..i + 1] == s;
  }

  // ----- the loop -----

  lemma {:induction false} PendingDone(adj: Adjacency, done: set<nat>, u: nat, v: nat, k: nat)
    requires k <= |adj| && u !in done
    ensures Pending(adj, done, v, k) == Pending(adj, done + {u}, v, k) + (if u < k then multiset(adj[u])[v] else 0)
  {
    if k > 0 { PendingDone(adj, done, u, v, k - 1); }
  }

  lemma {:induction false} PendingPositive(adj: Adjacency, done: set<nat>, v: nat, k: nat)
    requires k <= |adj|
    ensures Pending(adj, done, v, k) > 0 <==> exists u :: 0 <= u < k && u !in done && v in adj[u]
  {
    if k > 0 {
      PendingPositive(adj, done, v, k - 1);
      if k - 1 !in done && v in adj[k - 1] { assert multiset(adj[k - 1])[v] > 0; }
    }
  }

  // est is 0 or attained by a seen edge, and no seen edge finishes later.
  ghost predicate Relaxed(seen: set<Edge>, duration: seq<nat>, est: seq<nat>) {
    && |est| == |duration|
    && (forall a, b | (a, b) in seen :: a < |est| && b < |est| && est[a] + duration[a] <= est[b])
    && (forall b | 0 <= b < |est| :: est[b] == 0 || AttainedAt(seen, duration, est, b))
  }

  ghost predicate AttainedAt(seen: set<Edge>, duration: seq<nat>, est: seq<nat>, b: nat)
    requires |est| == |duration| && b < |est|
  {
    exists a :: (a, b) in seen && a < |est| && est[b] == est[a] + duration[a]
  }

  lemma RelaxEdge(seen: set<Edge>, duration: seq<nat>, est: seq<nat>, u: nat, t: nat, finish: nat)
    requires Relaxed(seen, duration, est) && u < |est| && t < |est| && u != t && finish == est[u] + duration[u]
    requires forall b :: (t, b) !in seen
    ensures Relaxed(seen + {(u, t)}, duration, est[t := if est[t] < finish then finish else est[t]])
  {
    var est' := est[t := if est[t] < finish then finish else est[t]];
    var seen' := seen + {(u, t)};
    forall b | 0 <= b < |est'| && est'[b] != 0 ensures AttainedAt(seen', duration, est', b) {
      if b == t && est[t] < finish {
        assert (u, t) in seen' && est'[t] == est'[u] + duration[u];
      } else {
        assert AttainedAt(seen, duration, est, b);
        var a :| (a, b) in seen && a < |est| && est[b] == est[a] + duration[a];
        assert (a, b) in seen' && est'[a] == est[a];
      }
    }
  }

  // Edges leaving done nodes, and the first e edges of the node being processed.
  ghost function Seen(adj: Adjacency, done: set<nat>, u: nat, e: nat): set<Edge>
    requires u < |adj| ==> e <= |adj[u]|
  {
    (set a, k | 0 <= a < |adj| && a in done && 0 <= k < |adj[a]| :: (a, adj[a][k])) +
    (set k | u < |adj| && 0 <= k < e :: (u, adj[u][k]))
  }

  lemma SeenStep(adj: Adjacency, done: set<nat>, u: nat, e: nat)
    requires u < |adj| && e < |adj[u]|
    ensures Seen(adj, done, u, e + 1) == Seen(adj, done, u, e) + {(u, adj[u][e])}
  {
  }

  lemma SeenAll(adj: Adjacency, done: set<nat>, u: nat)
    requires u < |adj|
    ensures Seen(adj, done, u, |adj[u]|) == Seen(adj, done + {u}, |adj|, 0)
    ensures Seen(adj, done, u, 0) == Seen(adj, done, |adj|, 0)
  {
  }

  // Queue state between two pops.
  ghost predicate QueueState(adj: Adjacency, order: seq<nat>, ready: seq<nat>, deg: seq<nat>) {
    && |deg| == |adj|
    && NoRepeats(order + ready)
    && (forall v | v in order + ready :: v < |adj|)
    && (forall v | 0 <= v < |adj| :: v in order + ready <==> deg[v] == 0)
  }

  lemma QueuePush(adj: Adjacency, order: seq<nat>, ready: seq<nat>, deg: seq<nat>, t: nat)
    requires QueueState(adj, order, ready, deg) && t < |adj| && deg[t] > 0
    ensures QueueState(adj, order, if deg[t] == 1 then ready + [t] else ready, deg[t := deg[t] - 1])
  {
    if deg[t] == 1 {
      var all := order + (ready + [t]);
      assert all == (order + ready) + [t];
      assert t !in order + ready;
    }
  }

  lemma QueuePop(adj: Adjacency, order: seq<nat>, ready: seq<nat>, deg: seq<nat>)
    requires QueueState(adj, order, ready, deg) && ready != []
    ensures QueueState(adj, order + [ready[0]], ready[1..], deg)
    ensures ready[0] < |adj| && ready[0] !in order && deg[ready[0]] == 0
  {
    assert order + ready == (order + [ready[0]]) + ready[1..];
    assert (order + ready)[|order|] == ready[0];
    forall i | 0 <= i < |order| ensures order[i] != ready[0] {
      assert (order + ready)[i] == order[i];
    }
    assert ready[0] in order + ready;
  }

  // A popped node has all its predecessors behind it, and no edge to a finished or queued node.
  lemma PoppedIsFree(adj: Adjacency, order: seq<nat>, deg: seq<nat>, u: nat)
    requires u < |adj| && Counts(adj, NodesOf(order), deg) && deg[u] == 0 && u !in order
    ensures forall p | (p, u) in EdgeSet(adj) :: p in order
    ensures forall k | 0 <= k < |adj[u]| :: adj[u][k] < |adj| ==> deg[adj[u][k]] > 0
  {
    PendingPositive(adj, NodesOf(order), u, |adj|);
    forall p | (p, u) in EdgeSet(adj) ensures p in order {
      var a, k :| 0 <= a < |adj| && 0 <= k < |adj[a]| && (a, adj[a][k]) == (p, u);
    }
    forall k | 0 <= k < |adj[u]| && adj[u][k] < |adj| ensures deg[adj[u][k]] > 0 {
      PendingPositive(adj, NodesOf(order), adj[u][k], |adj|);
    }
  }

  lemma TopologicalSnoc(edges: set<Edge>, order: seq<nat>, u: nat)
    requires Topological(edges, order) && u !in order && forall p | (p, u) in edges :: p in order
    ensures Topological(edges, order + [u])
  {
    var longer := order + [u];
    forall i | 0 <= i < |longer| ensures PredsBefore(edges, longer, i) {
      if i < |order| { assert PredsBefore(edges, order, i); }
      assert longer[..i] == order[..i];
    }
  }

  ghost function StartMap(starts: seq<Option<nat>>): map<nat, nat> {
    map v: nat | v < |starts| && starts[v].Some? :: starts[v].value
  }

  // What the loop leaves behind, read as an evaluation of the graph.
  lemma LoopResult(adj: Adjacency, duration: seq<nat>, order: seq<nat>, deg: seq<nat>, est: seq<nat>,
                   starts: seq<Option<nat>>)
    requires |duration| == |adj| == |est| == |starts|
    requires QueueState(adj, order, [], deg) && Counts(adj, NodesOf(order), deg)
    requires Topological(EdgeSet(adj), order) && Relaxed(Seen(adj, NodesOf(order), |adj|, 0), duration, est)
    requires forall v | 0 <= v < |adj| :: starts[v] == if v in order then Some(est[v]) else None
    ensures EvaluatesBy(EdgeSet(adj), duration, NodesBelow(|adj|), StartMap(starts), order)
  {
    var edges, start := EdgeSet(adj), StartMap(starts);
    assert order + [] == order;
    assert start.Keys == NodesOf(order);
    forall v | v in NodesBelow(|adj|) - start.Keys ensures Blocked(edges, NodesBelow(|adj|) - start.Keys, v) {
      PendingPositive(adj, NodesOf(order), v, |adj|);
      var u :| 0 <= u < |adj| && u !in NodesOf(order) && v in adj[u];
      var k :| 0 <= k < |adj[u]| && adj[u][k] == v;
      assert (u, v) in edges && u in NodesBelow(|adj|) - start.Keys;
    }
    forall v | v in start ensures EarliestAt(edges, duration, start, v) {
      EarliestFromRelaxed(adj, duration, order, est, start, v);
    }
  }

  lemma EarliestFromRelaxed(adj: Adjacency, duration: seq<nat>, order: seq<nat>, est: seq<nat>, start: map<nat, nat>, v: nat)
    requires |duration| == |adj| == |est|
    requires Topological(EdgeSet(adj), order) && Relaxed(Seen(adj, NodesOf(order), |adj|, 0), duration, est)
    requires start.Keys == NodesOf(order) && v in start
    requires forall u | u in start :: u < |est| && start[u] == est[u]
    ensures EarliestAt(EdgeSet(adj), duration, start, v)
  {
    var edges, seen := EdgeSet(adj), Seen(adj, NodesOf(order), |adj|, 0);
    var i :| 0 <= i < |order| && order[i] == v;
    assert PredsBefore(edges, order, i);
    forall u | (u, v) in edges ensures u in start && (u, v) in seen {
      assert u in order[..i];
      var a, k :| 0 <= a < |adj| && 0 <= k < |adj[a]| && (a, adj[a][k]) == (u, v);
    }
    if start[v] != 0 {
      assert AttainedAt(seen, duration, est, v);
      var a :| (a, v) in seen && a < |est| && est[v] == est[a] + duration[a];
      var b, k :| 0 <= b < |adj| && b in NodesOf(order) && 0 <= k < |adj[b]| && (b, adj[b][k]) == (a, v);
      assert (a, v) in edges && a in start;
    }
  }

  // ----- sizes -----

  lemma {:induction false} OrderSize(order: seq<nat>)
    requires NoRepeats(order)
    ensures |NodesOf(order)| == |order|
  {
    if order != [] {
      var init, last := order[..|order| - 1], order[|order| - 1];
      OrderSize(init);
      assert NodesOf(order) == NodesOf(init) + {last};
      assert last !in init;
    }
  }

  lemma {:induction false} BelowSize(n: nat)
    ensures |NodesBelow(n)| == n
  {
    if n > 0 {
      BelowSize(n - 1);
      assert NodesBelow(n) == NodesBelow(n - 1) + {n - 1};
    } else {
      assert NodesBelow(0) == {};
    }
  }

  lemma OrderRoom(n: nat, order: seq<nat>)
    requires NoRepeats(order) && forall v | v in order :: v < n
    ensures |order| <= n
  {
    OrderSize(order);
    BelowSize(n);
    SubsetSize(NodesOf(order), NodesBelow(n));
  }

  // Queue, counters and estimates after the first e edges of the popped node u.
  ghost predicate RelaxState(adj: Adjacency, duration: seq<nat>, order: seq<nat>, ready: seq<nat>, done: set<nat>,
                             u: nat, e: nat, deg: seq<nat>, est: seq<nat>)
  {
    && u < |adj| && e <= |adj[u]| && TargetsBelow(adj, |adj|)
    && u !in done && NodesOf(order) == done + {u}
    && QueueState(adj, order, ready, deg) && InnerCounts(adj, done + {u}, adj[u], e, deg)
    && |est| == |adj| && Relaxed(Seen(adj, done, u, e), duration, est)
  }

  // One edge: raise the target's estimate, drop its counter, queue it when that reaches 0.
  method RelaxEdgeAt(edges: array<seq<nat>>, u: nat, e: nat, finish: nat, indegree: array<nat>,
                     earliest: array<nat>, ready: seq<nat>, ghost duration: seq<nat>, ghost order: seq<nat>,
                     ghost done: set<nat>)
    returns (ready': seq<nat>)
    requires edges.Length == indegree.Length == earliest.Length == |duration|
    requires indegree != earliest && u < edges.Length && e < |edges[u]|
    requires finish == earliest[u] + duration[u]
    requires RelaxState(edges[..], duration, order, ready, done, u, e, indegree[..], earliest[..])
    modifies indegree, earliest
    ensures RelaxState(edges[..], duration, order, ready', done, u, e + 1, indegree[..], earliest[..])
    ensures forall v | v in order && v < edges.Length :: earliest[v] == old(earliest[v])
  {
    var t := edges[u][e];
    ghost var deg, est := indegree[..], earliest[..];
    RelaxOne(edges[..], duration, order, ready, done, u, e, deg, est, finish);
    earliest[t] := if earliest[t] < finish then finish else earliest[t];
    indegree[t] := indegree[t] - 1;
    assert indegree[..] == deg[t := deg[t] - 1];
    assert earliest[..] == est[t := if est[t] < finish then finish else est[t]];
    ready' := if indegree[t] == 0 then ready + [t] else ready;
  }

  // All edges of the popped node.
  method RelaxTargets(edges: array<seq<nat>>, duration: seq<nat>, u: nat, indegree: array<nat>,
                      earliest: array<nat>, ready: seq<nat>, ghost order: seq<nat>, ghost done: set<nat>)
    returns (ready': seq<nat>)
    requires edges.Length == indegree.Length == earliest.Length == |duration|
    requires indegree != earliest && u < edges.Length
    requires RelaxState(edges[..], duration, order, ready, done, u, 0, indegree[..], earliest[..])
    modifies indegree, earliest
    ensures RelaxState(edges[..], duration, order, ready', done, u, |edges[u]|, indegree[..], earliest[..])
    ensures forall v | v in order && v < edges.Length :: earliest[v] == old(earliest[v])
  {
    ghost var adj := edges[..];
    ready' := ready;
    var finish := earliest[u] + duration[u];
    assert u in NodesOf(order);
    for e := 0 to |edges[u]|
      invariant edges[..] == adj
      invariant RelaxState(adj, duration, order, ready', done, u, e, indegree[..], earliest[..])
      invariant forall v | v in order && v < |adj| :: earliest[v] == old(earliest[v])
    {
      ready' := RelaxEdgeAt(edges, u, e, finish, indegree, earliest, ready', duration, order, done);
    }
  }

  // Pending edges of every node from unfinished nodes plus the edges still to come.
  ghost predicate InnerCounts(adj: Adjacency, after: set<nat>, targets: seq<nat>, e: nat, deg: seq<nat>)
    requires e <= |targets|
  {
    |deg| == |adj| && forall v | 0 <= v < |adj| :: deg[v] == Pending(adj, after, v, |adj|) + multiset(targets[e..])[v]
  }

  lemma InnerCountStart(adj: Adjacency, done: set<nat>, u: nat, deg: seq<nat>)
    requires u < |adj| && u !in done && Counts(adj, done, deg)
    ensures InnerCounts(adj, done + {u}, adj[u], 0, deg)
  {
    assert adj[u][0..] == adj[u];
    forall v | 0 <= v < |adj|
      ensures deg[v] == Pending(adj, done + {u}, v, |adj|) + multiset(adj[u][0..])[v]
    {
      PendingDone(adj, done, u, v, |adj|);
    }
  }

  lemma InnerCountEnd(adj: Adjacency, after: set<nat>, targets: seq<nat>, deg: seq<nat>)
    requires InnerCounts(adj, after, targets, |targets|, deg)
    ensures Counts(adj, after, deg)
  {
    assert targets[|targets|..] == [];
  }

  lemma InnerCountStep(adj: Adjacency, after: set<nat>, targets: seq<nat>, e: nat, deg: seq<nat>)
    requires e < |targets| && targets[e] < |adj| && InnerCounts(adj, after, targets, e, deg)
    ensures deg[targets[e]] > 0
    ensures InnerCounts(adj, after, targets, e + 1, deg[targets[e] := deg[targets[e]] - 1])
  {
    assert targets[e..] == [targets[e]] + targets[e + 1..];
  }

  // The estimates after one more edge of u.
  lemma RelaxSeen(adj: Adjacency, duration: seq<nat>, done: set<nat>, u: nat, e: nat, est: seq<nat>, finish: nat)
    requires u < |adj| == |est| && e < |adj[u]| && TargetsBelow(adj, |adj|) && adj[u][e] !in done + {u}
    requires Relaxed(Seen(adj, done, u, e), duration, est) && finish == est[u] + duration[u]
    ensures adj[u][e] < |est|
    ensures Relaxed(Seen(adj, done, u, e + 1), duration,
                    est[adj[u][e] := if est[adj[u][e]] < finish then finish else est[adj[u][e]]])
  {
    var t := adj[u][e];
    forall b ensures (t, b) !in Seen(adj, done, u, e) {
    }
    RelaxEdge(Seen(adj, done, u, e), duration, est, u, t, finish);
    SeenStep(adj, done, u, e);
  }

  lemma TargetIsNew(adj: Adjacency, order: seq<nat>, ready: seq<nat>, done: set<nat>, u: nat, e: nat, deg: seq<nat>)
    requires u < |adj| && e < |adj[u]| && adj[u][e] < |adj| && NodesOf(order) == done + {u}
    requires QueueState(adj, order, ready, deg) && |deg| == |adj| && deg[adj[u][e]] > 0
    ensures adj[u][e] !in order && adj[u][e] !in done + {u}
  {
    var t := adj[u][e];
    assert t !in order + ready;
    assert t !in NodesOf(order);
  }

  // One relaxed edge, on the values of the arrays.
  lemma RelaxOne(adj: Adjacency, duration: seq<nat>, order: seq<nat>, ready: seq<nat>, done: set<nat>, u: nat, e: nat,
                 deg: seq<nat>, est: seq<nat>, finish: nat)
    requires RelaxState(adj, duration, order, ready, done, u, e, deg, est) && e < |adj[u]|
    requires u < |duration| && finish == est[u] + duration[u]
    ensures var t := adj[u][e];
      && t !in order && t < |adj| == |deg| && deg[t] > 0 && t != u
      && RelaxState(adj, duration, order, if deg[t] == 1 then ready + [t] else ready, done, u, e + 1,
                    deg[t := deg[t] - 1], est[t := if est[t] < finish then finish else est[t]])
  {
    InnerCountStep(adj, done + {u}, adj[u], e, deg);
    TargetIsNew(adj, order, ready, done, u, e, deg);
    RelaxSeen(adj, duration, done, u, e, est, finish);
    QueuePush(adj, order, ready, deg, adj[u][e]);
  }

  // Everything the loop maintains between two pops.
  ghost predicate Between(adj: Adjacency, duration: seq<nat>, order: seq<nat>, queue: seq<nat>, deg: seq<nat>, est: seq<nat>) {
    && |est| == |adj| == |duration| && TargetsBelow(adj, |adj|) && Topological(EdgeSet(adj), order)
    && QueueState(adj, order, queue, deg) && Counts(adj, NodesOf(order), deg)
    && Relaxed(Seen(adj, NodesOf(order), |adj|, 0), duration, est)
  }

  lemma PopState(adj: Adjacency, duration: seq<nat>, order: seq<nat>, queue: seq<nat>, deg: seq<nat>, est: seq<nat>)
    requires Between(adj, duration, order, queue, deg, est) && queue != []
    ensures queue[0] < |adj| && |order| < |adj| && Topological(EdgeSet(adj), order + [queue[0]])
    ensures RelaxState(adj, duration, order + [queue[0]], queue[1..], NodesOf(order), queue[0], 0, deg, est)
  {
    var u := queue[0];
    QueuePop(adj, order, queue, deg);
    PoppedIsFree(adj, order, deg, u);
    TopologicalSnoc(EdgeSet(adj), order, u);
    SeenAll(adj, NodesOf(order), u);
    assert NodesOf(order + [u]) == NodesOf(order) + {u};
    InnerCountStart(adj, NodesOf(order), u, deg);
    PopRoom(adj, order + [u], queue[1..], deg);
  }

  lemma PopRoom(adj: Adjacency, order: seq<nat>, queue: seq<nat>, deg: seq<nat>)
    requires QueueState(adj, order, queue, deg)
    ensures |order| <= |adj|
  {
    assert forall v | v in order :: v in order + queue;
    forall i, j | 0 <= i < j < |order| ensures order[i] != order[j] {
      assert (order + queue)[i] == order[i] && (order + queue)[j] == order[j];
    }
    OrderRoom(|adj|, order);
  }

  lemma RelaxedAll(adj: Adjacency, duration: seq<nat>, order: seq<nat>, queue: seq<nat>, done: set<nat>, u: nat,
                   deg: seq<nat>, est: seq<nat>)
    requires u < |adj| == |duration| && Topological(EdgeSet(adj), order)
    requires RelaxState(adj, duration, order, queue, done, u, |adj[u]|, deg, est)
    ensures Between(adj, duration, order, queue, deg, est)
  {
    SeenAll(adj, done, u);
    InnerCountEnd(adj, done + {u}, adj[u], deg);
  }

  // The entries of the popped nodes, and no others.
  ghost predicate StartsAre(order: seq<nat>, est: seq<nat>, starts: seq<Option<nat>>) {
    |starts| == |est| && forall v | 0 <= v < |est| :: starts[v] == if v in order then Some(est[v]) else None
  }

  // Pops ready nodes first in, first out; every pop fixes a start and relaxes its edges.
  method RunQueue(edges: array<seq<nat>>, duration: seq<nat>, indegree: array<nat>)
    returns (starts: array<Option<nat>>, processed: nat)
    requires edges.Length == indegree.Length == |duration|
    requires TargetsBelow(edges[..], edges.Length) && Counts(edges[..], {}, indegree[..])
    modifies indegree
    ensures fresh(starts) && starts.Length == edges.Length
    ensures Evaluates(EdgeSet(edges[..]), duration, NodesBelow(edges.Length), StartMap(starts[..]))
    ensures processed == |StartMap(starts[..]).Keys|
  {
    ghost var n, adj := edges.Length, edges[..];
    starts := new Option<nat>[edges.Length](_ => None);
    var earliest := new nat[edges.Length](_ => 0);
    var ready := InitialQueue(adj, indegree);
    ghost var order: seq<nat> := [];
    processed := 0;
    StartState(adj, duration, ready, indegree[..], earliest[..]);
    while ready != []
      invariant edges[..] == adj && fresh(starts) && fresh(earliest) && processed == |order|
      invariant Between(adj, duration, order, ready, indegree[..], earliest[..])
      invariant StartsAre(order, earliest[..], starts[..])
      decreases n - |order|
    {
      PopState(adj, duration, order, ready, indegree[..], earliest[..]);
      var u := ready[0];
      ghost var done, order' := NodesOf(order), order + [ready[0]];
      processed := processed + 1;
      starts[u] := Some(earliest[u]);
      assert StartsAre(order', earliest[..], starts[..]);
      ready := RelaxTargets(edges, duration, u, indegree, earliest, ready[1..], order', done);
      RelaxedAll(adj, duration, order', ready, done, u, indegree[..], earliest[..]);
      order := order';
    }
    LoopResult(adj, duration, order, indegree[..], earliest[..], starts[..]);
    OrderSize(order);
    assert StartMap(starts[..]).Keys == NodesOf(order);
  }

  lemma StartState(adj: Adjacency, duration: seq<nat>, ready: seq<nat>, deg: seq<nat>, est: seq<nat>)
    requires |est| == |adj| == |duration| && TargetsBelow(adj, |adj|) && Counts(adj, {}, deg)
    requires QueueState(adj, [], ready, deg) && forall v | 0 <= v < |est| :: est[v] == 0
    ensures Between(adj, duration, [], ready, deg, est)
  {
    assert NodesOf([]) == {};
    assert Seen(adj, {}, |adj|, 0) == {};
  }

  method InitialQueue(ghost adj: Adjacency, indegree: array<nat>) returns (ready: seq<nat>)
    requires |adj| == indegree.Length
    ensures QueueState(adj, [], ready, indegree[..])
  {
    ready := [];
    for v := 0 to indegree.Length
      invariant NoRepeats(ready) && forall i | 0 <= i < |ready| :: ready[i] < v
      invariant forall w | 0 <= w < v :: w in ready <==> indegree[w] == 0
    {
      if indegree[v] == 0 { ready := ready + [v]; }
    }
    assert [] + ready == ready;
  }
}
