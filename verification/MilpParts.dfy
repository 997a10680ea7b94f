// Linear models put together from parts: each part brings columns and rows, and its rows may
// look back at columns of earlier parts.
module MilpParts {
  import opened Milp

  datatype Part = Part(cols: seq<Col>, rows: seq<Row>)

  ghost function Then(p: Part, q: Part): Part { Part(p.cols + q.cols, p.rows + q.rows) }

  ghost predicate ColOk(col: Col, x: real) {
    col.lower <= x <= col.upper && (col.integer ==> IsInteger(x))
  }

  ghost predicate ColsOk(cols: seq<Col>, at: nat, v: seq<real>) {
    at + |cols| <= |v| && forall i | 0 <= i < |cols| :: ColOk(cols[i], v[at + i])
  }

  // The part holds at v when its columns sit at position at.
  ghost predicate PartOk(p: Part, at: nat, v: seq<real>) {
    ColsOk(p.cols, at, v) && RowsHold(p.rows, v)
  }

  ghost function PartCost(p: Part, at: nat, v: seq<real>): real
    requires at + |p.cols| <= |v|
  {
    ObjectiveFrom(p.cols, v, at, |p.cols|)
  }

  lemma ThenOk(p: Part, q: Part, at: nat, v: seq<real>)
    ensures PartOk(Then(p, q), at, v) <==> PartOk(p, at, v) && PartOk(q, at + |p.cols|, v)
  {
    RowsHoldConcat(p.rows, q.rows, v);
    if ColsOk(p.cols + q.cols, at, v) {
      forall i | 0 <= i < |p.cols| ensures ColOk(p.cols[i], v[at + i]) {
        assert (p.cols + q.cols)[i] == p.cols[i];
      }
      forall i | 0 <= i < |q.cols| ensures ColOk(q.cols[i], v[at + |p.cols| + i]) {
        assert (p.cols + q.cols)[|p.cols| + i] == q.cols[i];
      }
    }
  }

  lemma ThenCost(p: Part, q: Part, at: nat, v: seq<real>)
    requires at + |p.cols| + |q.cols| <= |v|
    ensures PartCost(Then(p, q), at, v) == PartCost(p, at, v) + PartCost(q, at + |p.cols|, v)
  {
    FromConcat(p.cols, q.cols, v, at, |q.cols|);
  }

  lemma ThenFour(p: Part, q: Part, r: Part, s: Part, at: nat, v: seq<real>)
    requires at + |p.cols| + |q.cols| + |r.cols| + |s.cols| <= |v|
    ensures PartCost(Then(Then(Then(p, q), r), s), at, v) ==
      PartCost(p, at, v) + PartCost(q, at + |p.cols|, v) + PartCost(r, at + |p.cols| + |q.cols|, v) +
      PartCost(s, at + |p.cols| + |q.cols| + |r.cols|, v)
  {
    ThenCost(Then(Then(p, q), r), s, at, v);
    ThenCost(Then(p, q), r, at, v);
    ThenCost(p, q, at, v);
  }

  // All columns the rows mention are among the first n.
  ghost predicate LooksBack(rows: seq<Row>, n: nat) {
    forall k | 0 <= k < |rows| :: EntriesIn(rows[k].entries, n)
  }

  lemma {:induction false} DotExtend(entries: seq<(nat, real)>, u: seq<real>, v: seq<real>, k: nat)
    requires EntriesIn(entries, |u|) && u <= v && k <= |entries|
    ensures Dot(entries, u, k) == Dot(entries, v, k)
  {
    if k > 0 { DotExtend(entries, u, v, k - 1); }
  }

  lemma {:induction false} CostExtend(cols: seq<Col>, u: seq<real>, v: seq<real>, at: nat, k: nat)
    requires k <= |cols| && at + k <= |u| && u <= v
    ensures ObjectiveFrom(cols, u, at, k) == ObjectiveFrom(cols, v, at, k)
  {
    if k > 0 { CostExtend(cols, u, v, at, k - 1); }
  }

  // More columns do not disturb a part.
  lemma PartExtend(p: Part, at: nat, u: seq<real>, v: seq<real>)
    requires PartOk(p, at, u) && LooksBack(p.rows, |u|) && u <= v
    ensures PartOk(p, at, v) && PartCost(p, at, v) == PartCost(p, at, u)
  {
    forall k | 0 <= k < |p.rows| ensures RowHolds(p.rows[k], v) {
      assert EntriesIn(p.rows[k].entries, |u|) && RowHolds(p.rows[k], u);
      DotExtend(p.rows[k].entries, u, v, |p.rows[k].entries|);
    }
    CostExtend(p.cols, u, v, at, |p.cols|);
  }

  lemma LooksBackConcat(a: seq<Row>, b: seq<Row>, n: nat)
    requires LooksBack(a, n) && LooksBack(b, n)
    ensures LooksBack(a + b, n)
  {
  }

  lemma LooksBackMore(rows: seq<Row>, n: nat, m: nat)
    requires LooksBack(rows, n) && n <= m
    ensures LooksBack(rows, m)
  {
    forall k | 0 <= k < |rows| ensures EntriesIn(rows[k].entries, m) {
      assert EntriesIn(rows[k].entries, n);
    }
  }

  // A part, and a second one after it, built one after the other.
  lemma BothAttained(p: Part, q: Part, u: seq<real>, w: seq<real>, v: seq<real>)
    requires u <= w <= v && |w| == |u| + |p.cols| && |v| == |w| + |q.cols|
    requires PartOk(p, |u|, w) && LooksBack(p.rows, |w|) && PartOk(q, |w|, v) && LooksBack(q.rows, |v|)
    ensures u <= v && |v| == |u| + |Then(p, q).cols| && PartOk(Then(p, q), |u|, v) && LooksBack(Then(p, q).rows, |v|)
    ensures PartCost(Then(p, q), |u|, v) == PartCost(p, |u|, w) + PartCost(q, |w|, v)
    ensures PartCost(p, |u|, v) == PartCost(p, |u|, w)
  {
    PartExtend(p, |u|, w, v);
    ThenOk(p, q, |u|, v);
    ThenCost(p, q, |u|, v);
    LooksBackMore(p.rows, |w|, |v|);
    LooksBackConcat(p.rows, q.rows, |v|);
  }

  // ----- least and reachable costs -----

  // Where the part holds it costs at least this much.
  ghost predicate Least(p: Part, at: nat, v: seq<real>, cost: int) {
    PartOk(p, at, v) ==> PartCost(p, at, v) >= cost as real
  }

  lemma ThenLeast(p: Part, q: Part, at: nat, v: seq<real>, a: int, b: int)
    requires Least(p, at, v, a) && Least(q, at + |p.cols|, v, b)
    ensures Least(Then(p, q), at, v, a + b)
  {
    if PartOk(Then(p, q), at, v) {
      ThenOk(p, q, at, v);
      ThenCost(p, q, at, v);
    }
  }

  // v adds the part's columns to u, at exactly this cost.
  ghost predicate Attains(p: Part, u: seq<real>, v: seq<real>, cost: int) {
    && u <= v && |v| == |u| + |p.cols| && PartOk(p, |u|, v) && LooksBack(p.rows, |v|)
    && PartCost(p, |u|, v) == cost as real
  }

  ghost predicate Reached(p: Part, u: seq<real>, cost: int) { exists v :: Attains(p, u, v, cost) }

  ghost predicate Longer(u: seq<real>, k: nat, w: seq<real>) { u <= w && |w| == |u| + k }

  // Whatever k columns come in between.
  ghost predicate ReachedAfter(p: Part, u: seq<real>, k: nat, cost: int) {
    forall w | Longer(u, k, w) :: Reached(p, w, cost)
  }

  lemma ThenReached(p: Part, q: Part, u: seq<real>, a: int, b: int)
    requires Reached(p, u, a) && ReachedAfter(q, u, |p.cols|, b)
    ensures Reached(Then(p, q), u, a + b)
  {
    var w :| Attains(p, u, w, a);
    assert Longer(u, |p.cols|, w);
    var v :| Attains(q, w, v, b);
    BothAttained(p, q, u, w, v);
    assert Attains(Then(p, q), u, v, a + b);
  }

  lemma NothingReached(u: seq<real>)
    ensures Reached(Part([], []), u, 0)
  {
    assert Attains(Part([], []), u, u, 0);
  }

  // ----- parts laid out one after another -----

  // make(i, at) is the i-th part when its columns start at position at.
  ghost function Laid(make: (nat, nat) -> Part, k: nat, at: nat): Part {
    if k == 0 then Part([], [])
    else
      var before := Laid(make, k - 1, at);
      Then(before, make(k - 1, at + |before.cols|))
  }

  ghost function Total(cost: nat -> int, k: nat): int {
    if k == 0 then 0 else Total(cost, k - 1) + cost(k - 1)
  }

  lemma {:induction false} TotalsAdd(f: nat -> int, g: nat -> int, sum: nat -> int, k: nat)
    requires forall i: nat | i < k :: sum(i) == f(i) + g(i)
    ensures Total(sum, k) == Total(f, k) + Total(g, k)
  {
    if k > 0 { TotalsAdd(f, g, sum, k - 1); }
  }

  lemma {:induction false} TotalsAgree(f: nat -> int, g: nat -> int, k: nat)
    requires forall i: nat | i < k :: f(i) == g(i)
    ensures Total(f, k) == Total(g, k)
  {
    if k > 0 { TotalsAgree(f, g, k - 1); }
  }

  lemma {:induction false} TotalSign(f: nat -> int, k: nat)
    requires forall i: nat | i < k :: f(i) >= 0
    ensures Total(f, k) >= 0
    ensures (forall i: nat | i < k :: f(i) == 0) <==> Total(f, k) == 0
  {
    if k > 0 {
      TotalSign(f, k - 1);
      assert f(k - 1) >= 0;
    }
  }

  ghost predicate LeastFrom(make: (nat, nat) -> Part, i: nat, at: nat, v: seq<real>, cost: int) {
    forall from: nat | at <= from :: Least(make(i, from), from, v, cost)
  }

  lemma {:induction false} LaidLeast(make: (nat, nat) -> Part, k: nat, at: nat, v: seq<real>, cost: nat -> int)
    requires forall i: nat | i < k :: LeastFrom(make, i, at, v, cost(i))
    ensures Least(Laid(make, k, at), at, v, Total(cost, k))
  {
    if k > 0 {
      var before := Laid(make, k - 1, at);
      LaidLeast(make, k - 1, at, v, cost);
      assert LeastFrom(make, k - 1, at, v, cost(k - 1));
      ThenLeast(before, make(k - 1, at + |before.cols|), at, v, Total(cost, k - 1), cost(k - 1));
    }
  }

  ghost predicate ReachedFrom(make: (nat, nat) -> Part, i: nat, u: seq<real>, cost: int) {
    forall w | u <= w :: ReachedAt(make, i, w, cost)
  }

  ghost predicate ReachedAt(make: (nat, nat) -> Part, i: nat, w: seq<real>, cost: int) {
    Reached(make(i, |w|), w, cost)
  }

  lemma ReachedNext(make: (nat, nat) -> Part, i: nat, u: seq<real>, k: nat, cost: int)
    requires ReachedFrom(make, i, u, cost)
    ensures ReachedAfter(make(i, |u| + k), u, k, cost)
  {
    forall w | Longer(u, k, w) ensures Reached(make(i, |u| + k), w, cost) {
      assert ReachedAt(make, i, w, cost);
    }
  }

  lemma {:induction false} LaidReached(make: (nat, nat) -> Part, k: nat, u: seq<real>, cost: nat -> int)
    requires forall i: nat | i < k :: ReachedFrom(make, i, u, cost(i))
    ensures Reached(Laid(make, k, |u|), u, Total(cost, k))
  {
    if k == 0 {
      NothingReached(u);
    } else {
      var before := Laid(make, k - 1, |u|);
      LaidReached(make, k - 1, u, cost);
      assert ReachedFrom(make, k - 1, u, cost(k - 1));
      ReachedNext(make, k - 1, u, |before.cols|, cost(k - 1));
      ThenReached(before, make(k - 1, |u| + |before.cols|), u, Total(cost, k - 1), cost(k - 1));
    }
  }

  // A whole model is a part that starts at column 0.
  lemma WholeColumns(cols: seq<Col>, v: seq<real>)
    ensures ColsHold(cols, v) <==> |v| == |cols| && ColsOk(cols, 0, v)
  {
    if |v| == |cols| && ColsOk(cols, 0, v) {
      forall k | 0 <= k < |cols| ensures cols[k].lower <= v[k] <= cols[k].upper && (cols[k].integer ==> IsInteger(v[k])) {
        assert ColOk(cols[k], v[0 + k]);
      }
    }
  }

  lemma WholeModel(p: Part, v: seq<real>)
    ensures Feasible(p.cols, p.rows, v) <==> |v| == |p.cols| && PartOk(p, 0, v)
    ensures |v| == |p.cols| ==> Objective(p.cols, v, |v|) == PartCost(p, 0, v)
  {
    WholeColumns(p.cols, v);
    if |v| == |p.cols| {
      ObjectiveConcat([], p.cols, v, |v|);
      assert [] + p.cols == p.cols;
    }
  }

  // ----- sums of selected columns -----

  ghost function Where(f: nat -> bool, k: nat): (cs: seq<nat>)
    ensures forall i | 0 <= i < |cs| :: cs[i] < k
  {
    if k == 0 then []
    else if f(k - 1) then Where(f, k - 1) + [k - 1]
    else Where(f, k - 1)
  }

  method Select(f: nat -> bool, k: nat) returns (cs: seq<nat>)
    ensures cs == Where(f, k)
  {
    cs := [];
    for p := 0 to k
      invariant cs == Where(f, p)
    {
      if f(p) { cs := cs + [p]; }
    }
  }

  function Terms(cs: seq<nat>, coef: real): (es: seq<(nat, real)>)
    ensures |es| == |cs| && forall i | 0 <= i < |cs| :: es[i] == (cs[i], coef)
  {
    seq(|cs|, i requires 0 <= i < |cs| => (cs[i], coef))
  }

  // Selected positions that are chosen.
  ghost function Chosen(x: seq<bool>, f: nat -> bool, k: nat): nat
    requires k <= |x|
  {
    if k == 0 then 0 else Chosen(x, f, k - 1) + (if f(k - 1) && x[k - 1] then 1 else 0)
  }

  function Bit(b: bool): real { if b then 1.0 else 0.0 }

  ghost predicate Carries(v: seq<real>, x: seq<bool>) {
    |x| <= |v| && forall p | 0 <= p < |x| :: v[p] == Bit(x[p])
  }

  lemma {:induction false} DotWhere(f: nat -> bool, k: nat, coef: real, x: seq<bool>, v: seq<real>)
    requires Carries(v, x) && k <= |x|
    ensures Dot(Terms(Where(f, k), coef), v, |Where(f, k)|) == Scale(coef, Chosen(x, f, k))
  {
    if k > 0 {
      DotWhere(f, k - 1, coef, x, v);
      if f(k - 1) {
        TermsSnoc(Where(f, k - 1), k - 1, coef);
        DotSnoc(Terms(Where(f, k - 1), coef), k - 1, coef, v);
        ScaleBit(coef, Chosen(x, f, k - 1), x[k - 1]);
      }
    } else {
      ScaleBit(coef, 0, false);
    }
  }

  lemma TermsSnoc(cs: seq<nat>, c: nat, coef: real)
    ensures Terms(cs + [c], coef) == Terms(cs, coef) + [(c, coef)]
  {
  }

  ghost function Scale(coef: real, n: nat): real { coef * n as real }

  lemma ScaleBit(coef: real, n: nat, b: bool)
    ensures Scale(coef, n) + coef * Bit(b) == Scale(coef, n + (if b then 1 else 0))
    ensures Scale(coef, 0) == 0.0
  {
    assert coef * (n + 1) as real == coef * n as real + coef;
  }

  lemma DotLead(e: (nat, real), ts: seq<(nat, real)>, v: seq<real>)
    requires e.0 < |v|
    ensures Dot([e] + ts, v, 1 + |ts|) == e.1 * v[e.0] + Dot(ts, v, |ts|)
  {
    DotConcat([e], ts, v, |ts|);
    DotOne(e, v);
  }

  // A leading column and a sum of selected ones.
  lemma DotLed(e: (nat, real), f: nat -> bool, k: nat, coef: real, x: seq<bool>, v: seq<real>)
    requires Carries(v, x) && k <= |x| && e.0 < |v|
    ensures Activity(Row([e] + Terms(Where(f, k), coef), NoBound, NoBound), v) ==
      e.1 * v[e.0] + Scale(coef, Chosen(x, f, k))
  {
    DotWhere(f, k, coef, x, v);
    DotLead(e, Terms(Where(f, k), coef), v);
  }
}
