// Finite sums of real vectors and square matrices, as used by the linear rows of
// the solver models.
module Sums {
  type Vector = seq<real>
  type Matrix = seq<seq<real>>

  ghost predicate Square(m: Matrix, n: nat) {
    |m| == n && forall i | 0 <= i < n :: |m[i]| == n
  }

  // Sum of the first k entries whose position lies in s.
  ghost function MaskedSum(w: Vector, s: set<nat>, k: nat): real
    requires k <= |w|
  {
    if k == 0 then 0.0
    else MaskedSum(w, s, k - 1) + (if k - 1 in s then w[k - 1] else 0.0)
  }

  ghost function Prefix(w: Vector, k: nat): real
    requires k <= |w|
  {
    if k == 0 then 0.0 else Prefix(w, k - 1) + w[k - 1]
  }

  ghost function Sum(w: Vector): real {
    Prefix(w, |w|)
  }

  ghost function Column(m: Matrix, j: nat): Vector
    requires Square(m, |m|) && j < |m|
  {
    seq(|m|, i requires 0 <= i < |m| => m[i][j])
  }

  ghost function Transpose(m: Matrix): (t: Matrix)
    requires Square(m, |m|)
    ensures Square(t, |m|)
    ensures forall i, j | 0 <= i < |m| && 0 <= j < |m| :: t[i][j] == m[j][i]
  {
    seq(|m|, j requires 0 <= j < |m| => Column(m, j))
  }

  // Sum over the block rows x cols, first k rows only.
  ghost function Block(m: Matrix, rows: set<nat>, cols: set<nat>, k: nat): real
    requires Square(m, |m|) && k <= |m|
  {
    if k == 0 then 0.0
    else Block(m, rows, cols, k - 1) + (if k - 1 in rows then MaskedSum(m[k - 1], cols, |m|) else 0.0)
  }

  lemma {:induction false} MaskedSumCong(w: Vector, u: Vector, s: set<nat>, t: set<nat>, k: nat)
    requires k <= |w| && k <= |u|
    requires forall i | 0 <= i < k ::
      (if i in s then w[i] else 0.0) == (if i in t then u[i] else 0.0)
    ensures MaskedSum(w, s, k) == MaskedSum(u, t, k)
  {
    if k > 0 { MaskedSumCong(w, u, s, t, k - 1); }
  }

  lemma {:induction false} MaskedSumFull(w: Vector, s: set<nat>, k: nat)
    requires k <= |w|
    requires forall i | 0 <= i < k :: i !in s ==> w[i] == 0.0
    ensures MaskedSum(w, s, k) == Prefix(w, k)
  {
    if k > 0 { MaskedSumFull(w, s, k - 1); }
  }

  lemma {:induction false} MaskedSumAdd(w: Vector, s: set<nat>, v: nat, k: nat)
    requires k <= |w| && v !in s
    ensures MaskedSum(w, s + {v}, k) == MaskedSum(w, s, k) + (if v < k then w[v] else 0.0)
  {
    if k > 0 {
      MaskedSumAdd(w, s, v, k - 1);
      assert k - 1 in s + {v} <==> k - 1 in s || k - 1 == v;
    }
  }

  lemma {:induction false} MaskedSumLinear(w: Vector, a: Vector, b: Vector, s: set<nat>, k: nat)
    requires k <= |w| && k <= |a| && k <= |b|
    requires forall i | 0 <= i < k && i in s :: w[i] == a[i] - b[i]
    ensures MaskedSum(w, s, k) == MaskedSum(a, s, k) - MaskedSum(b, s, k)
  {
    if k > 0 { MaskedSumLinear(w, a, b, s, k - 1); }
  }

  lemma {:induction false} MaskedSumSign(w: Vector, s: set<nat>, k: nat)
    requires k <= |w|
    requires forall i | 0 <= i < k && i in s :: w[i] >= 0.0
    ensures MaskedSum(w, s, k) >= 0.0
    ensures forall i | 0 <= i < k && i in s :: w[i] <= MaskedSum(w, s, k)
  {
    if k > 0 { MaskedSumSign(w, s, k - 1); }
  }

  lemma {:induction false} PrefixZero(w: Vector, k: nat)
    requires k <= |w|
    requires forall i | 0 <= i < k :: w[i] == 0.0
    ensures Prefix(w, k) == 0.0
  {
    if k > 0 { PrefixZero(w, k - 1); }
  }

  // A vector with one possibly non-zero entry sums to that entry.
  lemma {:induction false} PrefixSingle(w: Vector, p: nat, k: nat)
    requires p < k <= |w|
    requires forall i | 0 <= i < k && i != p :: w[i] == 0.0
    ensures Prefix(w, k) == w[p]
  {
    if p == k - 1 { PrefixZero(w, k - 1); } else { PrefixSingle(w, p, k - 1); }
  }

  ghost predicate Binary(w: Vector) {
    forall i | 0 <= i < |w| :: w[i] == 0.0 || w[i] == 1.0
  }

  lemma {:induction false} BinaryPrefix(w: Vector, k: nat)
    requires k <= |w| && Binary(w)
    ensures Prefix(w, k) >= 0.0
    ensures (forall i | 0 <= i < k :: w[i] == 0.0) || Prefix(w, k) >= 1.0
  {
    if k > 0 { BinaryPrefix(w, k - 1); }
  }

  // A 0/1 vector sums to one exactly when it has exactly one 1.
  lemma {:induction false} BinaryUnit(w: Vector, k: nat) returns (p: nat)
    requires k <= |w| && Binary(w) && Prefix(w, k) == 1.0
    ensures p < k && w[p] == 1.0
    ensures forall i | 0 <= i < k && i != p :: w[i] == 0.0
  {
    if w[k - 1] == 1.0 {
      p := k - 1;
      BinaryPrefix(w, k - 1);
    } else {
      p := BinaryUnit(w, k - 1);
    }
  }

  // Column sums of a block, first k columns.
  lemma {:induction false} BlockColumns(m: Matrix, rows: set<nat>, cols: set<nat>, r: nat, k: nat)
    requires Square(m, |m|) && r < |m| && k <= |m|
    ensures PartialColumns(m, rows, cols, r + 1, k)
         == PartialColumns(m, rows, cols, r, k) + (if r in rows then MaskedSum(m[r], cols, k) else 0.0)
  {
    if k > 0 { BlockColumns(m, rows, cols, r, k - 1); }
  }

  ghost function PartialColumns(m: Matrix, rows: set<nat>, cols: set<nat>, r: nat, k: nat): real
    requires Square(m, |m|) && r <= |m| && k <= |m|
  {
    if k == 0 then 0.0
    else
      PartialColumns(m, rows, cols, r, k - 1) +
      (if k - 1 in cols then MaskedSum(Column(m, k - 1), rows, r) else 0.0)
  }

  lemma {:induction false} BlockIsPartialColumns(m: Matrix, rows: set<nat>, cols: set<nat>, r: nat)
    requires Square(m, |m|) && r <= |m|
    ensures Block(m, rows, cols, r) == PartialColumns(m, rows, cols, r, |m|)
  {
    if r == 0 {
      PartialColumnsZero(m, rows, cols, |m|);
    } else {
      BlockIsPartialColumns(m, rows, cols, r - 1);
      BlockColumns(m, rows, cols, r - 1, |m|);
    }
  }

  lemma {:induction false} PartialColumnsZero(m: Matrix, rows: set<nat>, cols: set<nat>, k: nat)
    requires Square(m, |m|) && k <= |m|
    ensures PartialColumns(m, rows, cols, 0, k) == 0.0
  {
    if k > 0 { PartialColumnsZero(m, rows, cols, k - 1); }
  }

  lemma {:induction false} PartialColumnsTranspose(m: Matrix, rows: set<nat>, cols: set<nat>, k: nat)
    requires Square(m, |m|) && k <= |m|
    ensures PartialColumns(m, rows, cols, |m|, k) == Block(Transpose(m), cols, rows, k)
  {
    if k > 0 { PartialColumnsTranspose(m, rows, cols, k - 1); }
  }

  // Summing a block by rows or by columns gives the same total.
  lemma BlockSwap(m: Matrix, rows: set<nat>, cols: set<nat>)
    requires Square(m, |m|)
    ensures Block(m, rows, cols, |m|) == Block(Transpose(m), cols, rows, |m|)
  {
    BlockIsPartialColumns(m, rows, cols, |m|);
    PartialColumnsTranspose(m, rows, cols, |m|);
  }
}
