// Linear models in the shape the HiGHS adapters emit them: column lists and rows in
// compressed form (start offsets into flat index and coefficient lists).
module Milp {
  datatype Bound = NoBound | At(value: real)

  datatype Col = Col(lower: real, upper: real, cost: real, integer: bool)

  // One row: lower <= sum of coefficient * column <= upper.
  datatype Row = Row(entries: seq<(nat, real)>, lower: Bound, upper: Bound)

  ghost predicate IsInteger(r: real) {
    r == r.Floor as real
  }

  ghost predicate EntriesIn(entries: seq<(nat, real)>, n: nat) {
    forall k | 0 <= k < |entries| :: entries[k].0 < n
  }

  // Value of the first k entries at the point v; a column the point does not have counts 0.
  ghost function Dot(entries: seq<(nat, real)>, v: seq<real>, k: nat): real
    requires k <= |entries|
  {
    if k == 0 then 0.0
    else
      Dot(entries, v, k - 1) +
      (if entries[k - 1].0 < |v| then entries[k - 1].1 * v[entries[k - 1].0] else 0.0)
  }

  ghost function Activity(row: Row, v: seq<real>): real {
    Dot(row.entries, v, |row.entries|)
  }

  ghost predicate RowHolds(row: Row, v: seq<real>) {
    && (row.lower.At? ==> row.lower.value <= Activity(row, v))
    && (row.upper.At? ==> Activity(row, v) <= row.upper.value)
  }

  ghost predicate RowsHold(rows: seq<Row>, v: seq<real>) {
    forall k | 0 <= k < |rows| :: RowHolds(rows[k], v)
  }

  ghost predicate ColsHold(cols: seq<Col>, v: seq<real>) {
    |v| == |cols| &&
    forall k | 0 <= k < |cols| ::
      cols[k].lower <= v[k] <= cols[k].upper && (cols[k].integer ==> IsInteger(v[k]))
  }

  ghost predicate Feasible(cols: seq<Col>, rows: seq<Row>, v: seq<real>) {
    ColsHold(cols, v) && RowsHold(rows, v)
  }

  // Objective of the first k columns.
  ghost function Objective(cols: seq<Col>, v: seq<real>, k: nat): real
    requires k <= |cols| && k <= |v|
  {
    if k == 0 then 0.0 else Objective(cols, v, k - 1) + cols[k - 1].cost * v[k - 1]
  }

  lemma RowsHoldConcat(a: seq<Row>, b: seq<Row>, v: seq<real>)
    ensures RowsHold(a + b, v) <==> RowsHold(a, v) && RowsHold(b, v)
  {
    if RowsHold(a + b, v) {
      assert forall k | 0 <= k < |a| :: a[k] == (a + b)[k];
      assert forall k | 0 <= k < |b| :: b[k] == (a + b)[|a| + k];
    }
  }

  // Objective of the first k of the given columns when they sit at position at.
  ghost function ObjectiveFrom(cols: seq<Col>, v: seq<real>, at: nat, k: nat): real
    requires k <= |cols| && at + k <= |v|
  {
    if k == 0 then 0.0 else ObjectiveFrom(cols, v, at, k - 1) + cols[k - 1].cost * v[at + k - 1]
  }

  // The model's objective splits into the columns before the block and the block's own.
  lemma {:induction false} ObjectiveConcat(a: seq<Col>, b: seq<Col>, v: seq<real>, k: nat)
    requires k <= |b| && |a| + k <= |v|
    ensures Objective(a + b, v, |a| + k) == Objective(a, v, |a|) + ObjectiveFrom(b, v, |a|, k)
  {
    if k == 0 {
      ObjectivePrefix(a, b, v, |a|);
    } else {
      ObjectiveConcat(a, b, v, k - 1);
      assert (a + b)[|a| + k - 1] == b[k - 1];
    }
  }

  lemma {:induction false} ObjectivePrefix(a: seq<Col>, b: seq<Col>, v: seq<real>, k: nat)
    requires k <= |a| && k <= |v|
    ensures Objective(a + b, v, k) == Objective(a, v, k)
  {
    if k > 0 { ObjectivePrefix(a, b, v, k - 1); }
  }

  lemma {:induction false} FromConcat(a: seq<Col>, b: seq<Col>, v: seq<real>, at: nat, k: nat)
    requires k <= |b| && at + |a| + k <= |v|
    ensures ObjectiveFrom(a + b, v, at, |a| + k) == ObjectiveFrom(a, v, at, |a|) + ObjectiveFrom(b, v, at + |a|, k)
  {
    if k == 0 {
      FromPrefix(a, b, v, at, |a|);
    } else {
      FromConcat(a, b, v, at, k - 1);
      assert (a + b)[|a| + k - 1] == b[k - 1];
    }
  }

  lemma {:induction false} FromPrefix(a: seq<Col>, b: seq<Col>, v: seq<real>, at: nat, k: nat)
    requires k <= |a| && at + k <= |v|
    ensures ObjectiveFrom(a + b, v, at, k) == ObjectiveFrom(a, v, at, k)
  {
    if k > 0 { FromPrefix(a, b, v, at, k - 1); }
  }

  lemma {:induction false} FreeColumns(cols: seq<Col>, v: seq<real>, at: nat, k: nat)
    requires k <= |cols| && at + k <= |v| && forall i | 0 <= i < k :: cols[i].cost == 0.0
    ensures ObjectiveFrom(cols, v, at, k) == 0.0
  {
    if k > 0 { FreeColumns(cols, v, at, k - 1); }
  }

  ghost predicate Fits(cols: seq<Col>, w: seq<real>) {
    |cols| == |w| && forall i | 0 <= i < |cols| :: cols[i].lower <= w[i] <= cols[i].upper
  }

  lemma FitsConcat(a: seq<Col>, x: seq<real>, b: seq<Col>, y: seq<real>)
    requires Fits(a, x) && Fits(b, y)
    ensures Fits(a + b, x + y)
  {
  }

  // A 0/1 integer value.
  lemma BinaryValue(r: real)
    requires 0.0 <= r <= 1.0 && IsInteger(r)
    ensures r == 0.0 || r == 1.0
  {
    var f := r.Floor;
    assert 0 <= f <= 1;
  }

  lemma {:induction false} DotConcat(a: seq<(nat, real)>, b: seq<(nat, real)>, v: seq<real>, k: nat)
    requires k <= |b|
    ensures Dot(a + b, v, |a| + k) == Dot(a, v, |a|) + Dot(b, v, k)
  {
    if k == 0 {
      DotPrefix(a, b, v, |a|);
    } else {
      DotConcat(a, b, v, k - 1);
      assert (a + b)[|a| + k - 1] == b[k - 1];
    }
  }

  lemma {:induction false} DotPrefix(a: seq<(nat, real)>, b: seq<(nat, real)>, v: seq<real>, k: nat)
    requires k <= |a|
    ensures Dot(a + b, v, k) == Dot(a, v, k)
  {
    if k > 0 {
      DotPrefix(a, b, v, k - 1);
      assert (a + b)[k - 1] == a[k - 1];
    }
  }

  // Evaluates the short rows the adapters write out literally.
  lemma DotOne(e: (nat, real), v: seq<real>)
    requires e.0 < |v|
    ensures Dot([e], v, 1) == e.1 * v[e.0]
  {
    assert Dot([e], v, 0) == 0.0;
  }

  lemma DotSnoc(es: seq<(nat, real)>, c: nat, coef: real, v: seq<real>)
    requires c < |v|
    ensures Dot(es + [(c, coef)], v, |es| + 1) == Dot(es, v, |es|) + coef * v[c]
  {
    DotPrefix(es, [(c, coef)], v, |es|);
  }

  lemma DotTwo(e: (nat, real), f: (nat, real), v: seq<real>)
    requires e.0 < |v| && f.0 < |v|
    ensures Dot([e, f], v, 2) == e.1 * v[e.0] + f.1 * v[f.0]
  {
    assert Dot([e, f], v, 0) == 0.0;
    assert Dot([e, f], v, 1) == e.1 * v[e.0];
  }

  lemma DotThree(e: (nat, real), f: (nat, real), g: (nat, real), v: seq<real>)
    requires e.0 < |v| && f.0 < |v| && g.0 < |v|
    ensures Dot([e, f, g], v, 3) == e.1 * v[e.0] + f.1 * v[f.0] + g.1 * v[g.0]
  {
    assert Dot([e, f, g], v, 0) == 0.0;
    assert Dot([e, f, g], v, 1) == e.1 * v[e.0];
    assert Dot([e, f, g], v, 2) == e.1 * v[e.0] + f.1 * v[f.0];
  }

  lemma DotFour(e: (nat, real), f: (nat, real), g: (nat, real), h: (nat, real), v: seq<real>)
    requires e.0 < |v| && f.0 < |v| && g.0 < |v| && h.0 < |v|
    ensures Dot([e, f, g, h], v, 4) == e.1 * v[e.0] + f.1 * v[f.0] + g.1 * v[g.0] + h.1 * v[h.0]
  {
    var es := [e, f, g, h];
    assert Dot(es, v, 0) == 0.0;
    assert Dot(es, v, 1) == e.1 * v[e.0];
    assert Dot(es, v, 2) == e.1 * v[e.0] + f.1 * v[f.0];
    assert Dot(es, v, 3) == e.1 * v[e.0] + f.1 * v[f.0] + g.1 * v[g.0];
  }

  ghost predicate Between(lower: Bound, x: real, upper: Bound) {
    (lower.At? ==> lower.value <= x) && (upper.At? ==> x <= upper.value)
  }

  lemma RowTwo(e: (nat, real), f: (nat, real), lower: Bound, upper: Bound, v: seq<real>)
    requires e.0 < |v| && f.0 < |v|
    ensures RowHolds(Row([e, f], lower, upper), v) <==> Between(lower, e.1 * v[e.0] + f.1 * v[f.0], upper)
  {
    DotTwo(e, f, v);
  }

  lemma RowThree(e: (nat, real), f: (nat, real), g: (nat, real), lower: Bound, upper: Bound, v: seq<real>)
    requires e.0 < |v| && f.0 < |v| && g.0 < |v|
    ensures RowHolds(Row([e, f, g], lower, upper), v) <==>
      Between(lower, e.1 * v[e.0] + f.1 * v[f.0] + g.1 * v[g.0], upper)
  {
    DotThree(e, f, g, v);
  }

  lemma RowFour(e: (nat, real), f: (nat, real), g: (nat, real), h: (nat, real), lower: Bound, upper: Bound, v: seq<real>)
    requires e.0 < |v| && f.0 < |v| && g.0 < |v| && h.0 < |v|
    ensures RowHolds(Row([e, f, g, h], lower, upper), v) <==>
      Between(lower, e.1 * v[e.0] + f.1 * v[f.0] + g.1 * v[g.0] + h.1 * v[h.0], upper)
  {
    DotFour(e, f, g, h, v);
  }

  ghost predicate Compressed(lower: seq<Bound>, upper: seq<Bound>, starts: seq<nat>,
                             indices: seq<nat>, values: seq<real>)
  {
    && |lower| == |starts| && |upper| == |starts|
    && |indices| == |values|
    && (forall k | 0 <= k < |starts| :: starts[k] <= |indices|)
    && (forall j, k | 0 <= j < k < |starts| :: starts[j] <= starts[k])
  }

  // The k-th row runs from its own start to the next row's start.
  ghost function DecodeRow(lower: seq<Bound>, upper: seq<Bound>, starts: seq<nat>,
                           indices: seq<nat>, values: seq<real>, k: nat): Row
    requires Compressed(lower, upper, starts, indices, values) && k < |starts|
  {
    var to := if k + 1 < |starts| then starts[k + 1] else |indices|;
    Row(seq(to - starts[k], e requires 0 <= e < to - starts[k] =>
          (indices[starts[k] + e], values[starts[k] + e])), lower[k], upper[k])
  }

  ghost function Decode(lower: seq<Bound>, upper: seq<Bound>, starts: seq<nat>,
                        indices: seq<nat>, values: seq<real>): (rows: seq<Row>)
    requires Compressed(lower, upper, starts, indices, values)
    ensures |rows| == |starts|
  {
    seq(|starts|, k requires 0 <= k < |starts| => DecodeRow(lower, upper, starts, indices, values, k))
  }

  // Appending a start and a block of entries appends exactly that row.
  lemma DecodeAppend(lower: seq<Bound>, upper: seq<Bound>, starts: seq<nat>, indices: seq<nat>,
                     values: seq<real>, entries: seq<(nat, real)>, lo: Bound, up: Bound,
                     indices': seq<nat>, values': seq<real>)
    requires Compressed(lower, upper, starts, indices, values)
    requires |indices'| == |values'| == |indices| + |entries|
    requires indices'[..|indices|] == indices && values'[..|indices|] == values
    requires forall i | 0 <= i < |entries| ::
      indices'[|indices| + i] == entries[i].0 && values'[|indices| + i] == entries[i].1
    ensures Compressed(lower + [lo], upper + [up], starts + [|indices|], indices', values')
    ensures Decode(lower + [lo], upper + [up], starts + [|indices|], indices', values')
         == Decode(lower, upper, starts, indices, values) + [Row(entries, lo, up)]
  {
    var n := |starts|;
    var lower', upper', starts' := lower + [lo], upper + [up], starts + [|indices|];
    forall k | 0 <= k < n
      ensures DecodeRow(lower', upper', starts', indices', values', k)
           == DecodeRow(lower, upper, starts, indices, values, k)
    {
      var r', r := DecodeRow(lower', upper', starts', indices', values', k),
                   DecodeRow(lower, upper, starts, indices, values, k);
      assert |r'.entries| == |r.entries|;
      forall e | 0 <= e < |r.entries|
        ensures r'.entries[e] == r.entries[e]
      {
        assert indices[starts[k] + e] == indices'[..|indices|][starts[k] + e];
        assert values[starts[k] + e] == values'[..|indices|][starts[k] + e];
      }
      assert r'.entries == r.entries;
    }
    assert DecodeRow(lower', upper', starts', indices', values', n).entries == entries;
  }

  // The growing model: column lists, and rows appended as offsets into flat lists.
  class ModelBuilder {
    var cols: seq<Col>
    var rowLower: seq<Bound>
    var rowUpper: seq<Bound>
    var rowStarts: seq<nat>
    var rowIndices: seq<nat>
    var rowValues: seq<real>

    ghost predicate Valid()
      reads this
    {
      Compressed(rowLower, rowUpper, rowStarts, rowIndices, rowValues)
    }

    // The rows as the solver reads them back from the compressed lists.
    ghost function Rows(): (rows: seq<Row>)
      reads this
      requires Valid()
      ensures |rows| == |rowStarts|
    {
      Decode(rowLower, rowUpper, rowStarts, rowIndices, rowValues)
    }

    constructor ()
      ensures Valid() && Rows() == [] && cols == []
    {
      cols, rowLower, rowUpper, rowStarts, rowIndices, rowValues := [], [], [], [], [], [];
    }

    method AddCol(lower: real, upper: real, cost: real, integer: bool) returns (index: nat)
      requires Valid()
      modifies this`cols
      ensures Valid() && Rows() == old(Rows())
      ensures index == |old(cols)|
      ensures cols == old(cols) + [Col(lower, upper, cost, integer)]
    {
      index := |cols|;
      cols := cols + [Col(lower, upper, cost, integer)];
    }

    // Raises the cost of a column that is already there.
    method AddCost(index: nat, amount: real)
      requires Valid() && index < |cols|
      modifies this`cols
      ensures Valid() && Rows() == old(Rows())
      ensures cols == old(cols)[index := old(cols)[index].(cost := old(cols)[index].cost + amount)]
    {
      cols := cols[index := cols[index].(cost := cols[index].cost + amount)];
    }

    method AddRow(entries: seq<(nat, real)>, lower: Bound, upper: Bound)
      requires Valid()
      modifies this`rowLower, this`rowUpper, this`rowStarts, this`rowIndices, this`rowValues
      ensures Valid()
      ensures Rows() == old(Rows()) + [Row(entries, lower, upper)]
    {
      ghost var base := |rowIndices|;
      rowStarts := rowStarts + [|rowIndices|];
      rowLower := rowLower + [lower];
      rowUpper := rowUpper + [upper];
      for e := 0 to |entries|
        invariant rowStarts == old(rowStarts) + [base]
        invariant rowLower == old(rowLower) + [lower] && rowUpper == old(rowUpper) + [upper]
        invariant |rowIndices| == |rowValues| == base + e
        invariant rowIndices[..base] == old(rowIndices) && rowValues[..base] == old(rowValues)
        invariant forall i | 0 <= i < e ::
          rowIndices[base + i] == entries[i].0 && rowValues[base + i] == entries[i].1
      {
        rowIndices := rowIndices + [entries[e].0];
        rowValues := rowValues + [entries[e].1];
      }
      DecodeAppend(old(rowLower), old(rowUpper), old(rowStarts), old(rowIndices), old(rowValues),
                   entries, lower, upper, rowIndices, rowValues);
    }
  }
}
