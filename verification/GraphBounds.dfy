// Two facts about earliest starts: every topological order of all nodes has them, and none
// of them finishes later than all weights together.
module GraphBounds {
  import opened Collections
  import opened Graph
  import opened Kahn

  // Weights of the nodes in s below k.
  ghost function Weight(duration: seq<nat>, s: set<nat>, k: nat): nat
    requires k <= |duration|
  {
    if k == 0 then 0 else Weight(duration, s, k - 1) + (if k - 1 in s then duration[k - 1] else 0)
  }

  lemma {:induction false} WeightAdd(duration: seq<nat>, s: set<nat>, v: nat, k: nat)
    requires k <= |duration| && v !in s
    ensures Weight(duration, s + {v}, k) == Weight(duration, s, k) + (if v < k then duration[v] else 0)
  {
    if k > 0 {
      WeightAdd(duration, s, v, k - 1);
      assert k - 1 in s + {v} <==> k - 1 in s || k - 1 == v;
    }
  }

  lemma {:induction false} WeightMonotone(duration: seq<nat>, s: set<nat>, t: set<nat>, k: nat)
    requires k <= |duration| && s <= t
    ensures Weight(duration, s, k) <= Weight(duration, t, k)
  {
    if k > 0 { WeightMonotone(duration, s, t, k - 1); }
  }

  // A started node finishes within the weights of the nodes up to it.
  lemma {:induction false} FinishBound(edges: set<Edge>, duration: seq<nat>, order: seq<nat>, start: map<nat, nat>, i: nat)
    requires Topological(edges, order) && start.Keys == NodesOf(order) && Earliest(edges, duration, start)
    requires i < |order| && order[i] < |duration|
    ensures order[i] in start
    ensures start[order[i]] + duration[order[i]] <= Weight(duration, NodesOf(order[..i + 1]), |duration|)
    decreases i
  {
    var v, before := order[i], NodesOf(order[..i]);
    assert v in NodesOf(order) && EarliestAt(edges, duration, start, v);
    assert NodesOf(order[..i + 1]) == before + {v};
    WeightAdd(duration, before, v, |duration|);
    if start[v] != 0 {
      var u :| (u, v) in edges && u in start && u < |duration| && start[v] == start[u] + duration[u];
      assert PredsBefore(edges, order, i);
      var j :| 0 <= j < i && order[..i][j] == u;
      FinishBound(edges, duration, order, start, j);
      assert forall w | w in order[..j + 1] :: w in order[..i];
      WeightMonotone(duration, NodesOf(order[..j + 1]), before, |duration|);
    }
  }

  // No evaluated node finishes after the sum of all weights.
  lemma EvaluationBound(edges: set<Edge>, duration: seq<nat>, start: map<nat, nat>, v: nat)
    requires Evaluates(edges, duration, NodesBelow(|duration|), start) && v in start
    ensures v < |duration| && start[v] + duration[v] <= Weight(duration, NodesBelow(|duration|), |duration|)
  {
    var order :| EvaluatesBy(edges, duration, NodesBelow(|duration|), start, order);
    var i :| 0 <= i < |order| && order[i] == v;
    FinishBound(edges, duration, order, start, i);
    assert NodesOf(order[..i + 1]) <= NodesOf(order);
    WeightMonotone(duration, NodesOf(order[..i + 1]), NodesBelow(|duration|), |duration|);
  }

  // ----- existence -----

  // Latest finish among the first k nodes of the order that precede v; 0 without any.
  ghost function Latest(edges: set<Edge>, duration: seq<nat>, order: seq<nat>, at: seq<nat>, v: nat, k: nat): nat
    requires k <= |at| <= |order|
  {
    if k == 0 then 0
    else
      var rest := Latest(edges, duration, order, at, v, k - 1);
      var u := order[k - 1];
      if (u, v) in edges && u < |duration| && at[k - 1] + duration[u] > rest then at[k - 1] + duration[u] else rest
  }

  lemma {:induction false} LatestMeaning(edges: set<Edge>, duration: seq<nat>, order: seq<nat>, at: seq<nat>, v: nat, k: nat)
    requires k <= |at| <= |order|
    ensures forall i | 0 <= i < k && (order[i], v) in edges && order[i] < |duration| ::
      at[i] + duration[order[i]] <= Latest(edges, duration, order, at, v, k)
    ensures Latest(edges, duration, order, at, v, k) == 0 || exists i ::
      0 <= i < k && (order[i], v) in edges && order[i] < |duration| &&
      at[i] + duration[order[i]] == Latest(edges, duration, order, at, v, k)
  {
    if k > 0 { LatestMeaning(edges, duration, order, at, v, k - 1); }
  }

  ghost predicate StartsAlong(edges: set<Edge>, duration: seq<nat>, order: seq<nat>, at: seq<nat>) {
    |at| <= |order| && forall i | 0 <= i < |at| :: StartAlong(edges, duration, order, at, i)
  }

  ghost predicate StartAlong(edges: set<Edge>, duration: seq<nat>, order: seq<nat>, at: seq<nat>, i: nat)
    requires i < |at| <= |order|
  {
    && (forall j | 0 <= j < i && (order[j], order[i]) in edges && order[j] < |duration| :: at[j] + duration[order[j]] <= at[i])
    && (at[i] == 0 || exists j :: 0 <= j < i && (order[j], order[i]) in edges && order[j] < |duration| &&
                         at[j] + duration[order[j]] == at[i])
  }

  lemma {:induction false} AlongExists(edges: set<Edge>, duration: seq<nat>, order: seq<nat>, k: nat) returns (at: seq<nat>)
    requires k <= |order|
    ensures |at| == k && StartsAlong(edges, duration, order, at)
  {
    if k == 0 {
      at := [];
    } else {
      var init := AlongExists(edges, duration, order, k - 1);
      var s := Latest(edges, duration, order, init, order[k - 1], k - 1);
      LatestMeaning(edges, duration, order, init, order[k - 1], k - 1);
      at := init + [s];
      forall i | 0 <= i < |at| ensures StartAlong(edges, duration, order, at, i) {
        if i < k - 1 { assert StartAlong(edges, duration, order, init, i); }
      }
    }
  }

  ghost function PositionIn(order: seq<nat>, v: nat): (i: nat)
    requires v in order
    ensures i < |order| && order[i] == v
  {
    var i :| 0 <= i < |order| && order[i] == v;
    i
  }

  lemma PositionUnique(order: seq<nat>, i: nat)
    requires NoRepeats(order) && i < |order|
    ensures order[i] in order && PositionIn(order, order[i]) == i
  {
  }

  lemma AlongIsEarliest(edges: set<Edge>, duration: seq<nat>, order: seq<nat>, at: seq<nat>, start: map<nat, nat>, i: nat)
    requires Topological(edges, order) && |at| == |order| && StartsAlong(edges, duration, order, at) && i < |order|
    requires start.Keys == NodesOf(order) && forall v | v in order :: v < |duration|
    requires forall j | 0 <= j < |order| :: order[j] in start && start[order[j]] == at[j]
    ensures EarliestAt(edges, duration, start, order[i])
  {
    var v := order[i];
    assert StartAlong(edges, duration, order, at, i) && PredsBefore(edges, order, i);
    forall u | (u, v) in edges ensures u in start && u < |duration| && start[u] + duration[u] <= start[v] {
      var j :| 0 <= j < i && order[..i][j] == u;
      assert order[j] == u;
    }
    if at[i] != 0 {
      var j :| 0 <= j < i && (order[j], order[i]) in edges && order[j] < |duration| && at[j] + duration[order[j]] == at[i];
      assert (order[j], v) in edges && order[j] in start;
    }
  }

  // A topological order of all nodes has an evaluation.
  lemma EvaluationExists(edges: set<Edge>, duration: seq<nat>, order: seq<nat>) returns (start: map<nat, nat>)
    requires Topological(edges, order) && NodesOf(order) == NodesBelow(|duration|)
    ensures Evaluates(edges, duration, NodesBelow(|duration|), start) && start.Keys == NodesBelow(|duration|)
  {
    var at := AlongExists(edges, duration, order, |order|);
    start := map v | v in NodesOf(order) :: at[PositionIn(order, v)];
    forall j | 0 <= j < |order| ensures order[j] in start && start[order[j]] == at[j] {
      PositionUnique(order, j);
    }
    forall v | v in order ensures v < |duration| {
      assert v in NodesOf(order);
    }
    forall v | v in start ensures EarliestAt(edges, duration, start, v) {
      AlongIsEarliest(edges, duration, order, at, start, PositionIn(order, v));
    }
    assert EvaluatesBy(edges, duration, NodesBelow(|duration|), start, order);
  }
}
