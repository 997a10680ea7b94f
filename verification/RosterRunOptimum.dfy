// The least total penalty of the run-length rows, for every activity: the scan's cost and what
// leaks through rows whose release is too small. Nothing leaks while the minimum fits the
// longest run.
module RosterRunOptimum {
  import opened Milp
  import opened RosterRuns
  import opened RosterRunMilp
  import opened RosterRunExact

  // ----- objective of the block's columns -----

  ghost function PenaltySum(blk: Block, v: seq<real>, k: nat): real
    requires Point(blk, v) && k <= blk.Days()
  {
    if k <= 1 then 0.0 else PenaltySum(blk, v, k - 1) + PenaltyAt(blk, v, k - 1)
  }

  ghost function HistoryCharge(blk: Block, v: seq<real>): real
    requires Point(blk, v)
  {
    if blk.HistoryCost() != 0 then blk.HistoryCost() as real * v[blk.base + 1] else 0.0
  }

  ghost function BlockCost(blk: Block, v: seq<real>): real
    requires Point(blk, v)
  {
    HistoryCharge(blk, v) + PenaltySum(blk, v, blk.Days()) + EndAt(blk, v)
  }

  lemma ClosurePair(blk: Block, v: seq<real>, at: nat)
    requires at + 2 <= |v|
    ensures ObjectiveFrom([Col(0.0, 1.0, 0.0, false), Col(0.0, MaxClosed(blk.b, blk.MaxLength() + 1) as real, 1.0, false)],
                          v, at, 2) == v[at + 1]
  {
    var two := [Col(0.0, 1.0, 0.0, false), Col(0.0, MaxClosed(blk.b, blk.MaxLength() + 1) as real, 1.0, false)];
    assert ObjectiveFrom(two, v, at, 0) == 0.0 && ObjectiveFrom(two, v, at, 1) == 0.0;
  }

  lemma {:induction false} ClosureObjective(blk: Block, v: seq<real>, k: nat)
    requires Point(blk, v) && 0 < k <= blk.Days()
    ensures ObjectiveFrom(ClosureColumns(blk, k), v, blk.base + blk.Extra() + blk.Days(), 2 * (k - 1)) == PenaltySum(blk, v, k)
  {
    if k > 1 {
      var at := blk.base + blk.Extra() + blk.Days();
      ClosureObjective(blk, v, k - 1);
      var two := [Col(0.0, 1.0, 0.0, false), Col(0.0, MaxClosed(blk.b, blk.MaxLength() + 1) as real, 1.0, false)];
      FromConcat(ClosureColumns(blk, k - 1), two, v, at, 2);
      ClosurePair(blk, v, at + 2 * (k - 2));
    }
  }

  ghost function HeadColumns(blk: Block): (cols: seq<Col>)
    requires blk.active != []
    ensures |cols| == 1 + blk.Extra()
  {
    [RunColumn(blk)] + (if blk.HistoryCost() != 0 then [Col(0.0, 1.0, blk.HistoryCost() as real, false)] else [])
  }

  lemma HeadObjective(blk: Block, v: seq<real>)
    requires Point(blk, v)
    ensures ObjectiveFrom(HeadColumns(blk), v, blk.base, 1 + blk.Extra()) == HistoryCharge(blk, v)
  {
    var head := HeadColumns(blk);
    assert ObjectiveFrom(head, v, blk.base, 0) == 0.0 && ObjectiveFrom(head, v, blk.base, 1) == 0.0;
    if blk.HistoryCost() != 0 {
      assert ObjectiveFrom(head, v, blk.base, 2) == head[1].cost * v[blk.base + 1];
    }
  }

  lemma EndObjective(col: Col, v: seq<real>, at: nat)
    requires at < |v| && col.cost == 1.0
    ensures ObjectiveFrom([col], v, at, 1) == v[at]
  {
    assert ObjectiveFrom([col], v, at, 0) == 0.0;
  }

  // The objective over the block's own columns is the block cost.
  lemma BlockObjective(blk: Block, v: seq<real>)
    requires Point(blk, v)
    ensures ObjectiveFrom(BlockCols(blk), v, blk.base, blk.Width()) == BlockCost(blk, v)
  {
    var n, at := blk.Days(), blk.base;
    var head, runs, closures := HeadColumns(blk), seq(n - 1, i => RunColumn(blk)), ClosureColumns(blk, n);
    var end := Col(0.0, MaxEnd(blk.b, blk.MaxLength() + 1) as real, 1.0, false);
    assert BlockCols(blk) == head + runs + closures + [end];
    FromConcat(head + runs + closures, [end], v, at, 1);
    FromConcat(head + runs, closures, v, at, |closures|);
    FromConcat(head, runs, v, at, |runs|);
    HeadObjective(blk, v);
    FreeColumns(runs, v, at + |head|, |runs|);
    ClosureObjective(blk, v, n);
    EndObjective(end, v, blk.EndCol());
  }

  // ----- lower bound -----

  // Charge of the run that ended before day d, 0 when none did.
  ghost function Charge(blk: Block, act: Activity, d: nat): int
    requires 0 < d < |act|
  {
    if Closes(act, d) then ClosedCost(OpenRun(act, blk.Initial(), d), blk.b) else 0
  }

  // What a row charges on day d although no run ended there: the missing days beyond the longest
  // run, which the release does not cover.
  ghost function Leak(act: Activity, initial: nat, b: Bounds, longest: nat, d: nat): nat
    requires 0 < d < |act|
  {
    if Closes(act, d) then 0 else Larger(0, Under(b, OpenRun(act, initial, d)) - b.weight * longest)
  }

  ghost function Leaks(act: Activity, initial: nat, b: Bounds, longest: nat, k: nat): nat
    requires k <= |act|
  {
    if k <= 1 then 0 else Leaks(act, initial, b, longest, k - 1) + Leak(act, initial, b, longest, k - 1)
  }

  // The excess of the rows over the scan.
  ghost function Excess(act: Activity, initial: nat, b: Bounds, history: nat): nat {
    Leaks(act, initial, b, |act| + history, |act|)
  }

  // The least value of the penalty column of day d.
  ghost function Due(blk: Block, act: Activity, d: nat): int
    requires 0 < d < |act|
  {
    Charge(blk, act, d) + Leak(act, blk.Initial(), blk.b, blk.MaxLength(), d)
  }

  // The scan's closed runs, split into the history run and the runs inside the horizon.
  ghost function ChargeSum(blk: Block, act: Activity, k: nat): int
    requires k <= |act|
  {
    if k <= 1 then 0 else ChargeSum(blk, act, k - 1) + Charge(blk, act, k - 1)
  }

  ghost function HistoryPart(blk: Block, act: Activity): int
    requires act != []
  {
    if act[0] then 0 else ClosedCost(blk.Initial(), blk.b)
  }

  lemma {:induction false} ClosedSplits(blk: Block, act: Activity, k: nat)
    requires 0 < k <= |act|
    ensures Closed(act, blk.Initial(), blk.b, k) == HistoryPart(blk, act) + ChargeSum(blk, act, k)
  {
    if k == 1 {
      assert Closed(act, blk.Initial(), blk.b, 0) == 0 && OpenRun(act, blk.Initial(), 0) == blk.Initial();
    } else {
      ClosedSplits(blk, act, k - 1);
      if !act[k - 1] && !act[k - 2] { assert OpenRun(act, blk.Initial(), k - 1) == 0; }
    }
  }

  lemma OneSided(b: Bounds, length: int)
    requires 0 <= b.weight && b.min <= b.max && length > 0
    ensures ClosedCost(length, b) == Larger(0, Larger(Under(b, length), Over(b, length)))
  {
    if length < b.min {
      assert Under(b, length) >= 0 && Over(b, length) <= 0;
    } else if length > b.max {
      assert Over(b, length) >= 0 && Under(b, length) <= 0;
    } else {
      assert Over(b, length) <= 0 && Under(b, length) <= 0;
    }
  }

  lemma OverIsMax(b: Bounds, length: int)
    requires 0 <= b.weight
    ensures MaxCost(length, b) == Larger(0, Over(b, length))
  {
    if length > b.max { assert Over(b, length) >= 0; } else { assert Over(b, length) <= 0; }
  }

  lemma {:induction false} OpenRunPositive(act: Activity, initial: nat, d: nat)
    requires 0 < d <= |act|
    ensures act[d - 1] <==> OpenRun(act, initial, d) > 0
    ensures OpenRun(act, initial, d) <= d + initial
  {
    if d > 1 { OpenRunPositive(act, initial, d - 1); }
  }

  lemma {:induction false} PenaltiesCover(blk: Block, v: seq<real>, k: nat)
    requires Point(blk, v) && Within(blk, v) && 0 < k <= blk.Days() && blk.b.min <= blk.b.max
    requires ClosuresOk(blk, v, blk.Days())
    ensures PenaltySum(blk, v, k) >=
      (ChargeSum(blk, ActOf(blk, v), k) + Leaks(ActOf(blk, v), blk.Initial(), blk.b, blk.MaxLength(), k)) as real
  {
    if k > 1 {
      PenaltiesCover(blk, v, k - 1);
      PenaltyCovers(blk, v, k - 1);
    }
  }

  lemma PenaltyCovers(blk: Block, v: seq<real>, d: nat)
    requires Point(blk, v) && Within(blk, v) && 0 < d < blk.Days() && blk.b.min <= blk.b.max
    requires PenaltyOk(blk, v, d)
    ensures PenaltyAt(blk, v, d) >= Due(blk, ActOf(blk, v), d) as real
  {
    var act := ActOf(blk, v);
    ClosureBounds(blk, v, d);
    OpenRunPositive(act, blk.Initial(), d);
    if Closes(act, d) { OneSided(blk.b, OpenRun(act, blk.Initial(), d)); }
  }

  // What the block's rows charge for an activity at least.
  ghost function BlockLeast(blk: Block, act: Activity): int {
    RunCost(act, blk.Initial(), blk.b) + Excess(act, blk.Initial(), blk.b, blk.historyLength)
  }

  // Every feasible point of the block costs at least what the scan charges, and the excess.
  lemma BlockCostCovers(blk: Block, v: seq<real>)
    requires BlockFeasible(blk, v) && blk.b.min <= blk.b.max
    ensures BlockCost(blk, v) >= BlockLeast(blk, ActOf(blk, v)) as real
  {
    var act, n := ActOf(blk, v), blk.Days();
    BlockMeaning(blk, v);
    ClosedSplits(blk, act, n);
    PenaltiesCover(blk, v, n);
    EndBounds(blk, v);
    OpenRunPositive(act, blk.Initial(), n);
    OverIsMax(blk.b, OpenRun(act, blk.Initial(), n));
    HistoryExact(blk, v);
  }

  lemma HistoryExact(blk: Block, v: seq<real>)
    requires Point(blk, v) && ComplementOk(blk, v)
    ensures HistoryCharge(blk, v) == HistoryPart(blk, ActOf(blk, v)) as real
  {
    var act := ActOf(blk, v);
    if blk.HistoryCost() == 0 {
      assert ClosedCost(blk.Initial(), blk.b) == 0;
    } else if act[0] {
      assert v[blk.base + 1] == 0.0;
    } else {
      assert v[blk.base + 1] == 1.0;
    }
  }

  // ----- an attaining point -----

  ghost function ClosureValues(blk: Block, act: Activity, k: nat): (w: seq<real>)
    requires k <= |act|
    ensures |w| == if k <= 1 then 0 else 2 * (k - 1)
  {
    if k <= 1 then []
    else
      ClosureValues(blk, act, k - 1) +
      [if Closes(act, k - 1) then 1.0 else 0.0, Due(blk, act, k - 1) as real]
  }

  // Values of the block's columns for an activity: the run lengths, the closures, and each
  // penalty at what is due.
  ghost function BlockValues(blk: Block, act: Activity): (w: seq<real>)
    requires act != [] && |act| == blk.Days()
    ensures |w| == blk.Width()
  {
    [OpenRun(act, blk.Initial(), 1) as real] +
    (if blk.HistoryCost() != 0 then [if act[0] then 0.0 else 1.0] else []) +
    seq(blk.Days() - 1, i requires 0 <= i < blk.Days() - 1 => OpenRun(act, blk.Initial(), i + 2) as real) +
    ClosureValues(blk, act, blk.Days()) +
    [MaxCost(OpenRun(act, blk.Initial(), |act|), blk.b) as real]
  }

  lemma {:induction false} ClosureValueAt(blk: Block, act: Activity, k: nat, d: nat)
    requires 0 < d < k <= |act|
    ensures ClosureValues(blk, act, k)[2 * (d - 1)] == if Closes(act, d) then 1.0 else 0.0
    ensures ClosureValues(blk, act, k)[2 * (d - 1) + 1] == Due(blk, act, d) as real
  {
    if d < k - 1 { ClosureValueAt(blk, act, k - 1, d); }
  }

  lemma ValuesAt(blk: Block, act: Activity)
    requires act != [] && |act| == blk.Days()
    ensures forall d | 0 <= d < blk.Days() ::
      BlockValues(blk, act)[blk.RunCol(d) - blk.base] == OpenRun(act, blk.Initial(), d + 1) as real
    ensures blk.HistoryCost() != 0 ==> BlockValues(blk, act)[1] == if act[0] then 0.0 else 1.0
    ensures BlockValues(blk, act)[blk.EndCol() - blk.base] == MaxCost(OpenRun(act, blk.Initial(), |act|), blk.b) as real
  {
  }

  lemma ClosingValuesAt(blk: Block, act: Activity, d: nat)
    requires |act| == blk.Days() && 0 < d < blk.Days()
    ensures BlockValues(blk, act)[blk.CloseCol(d) - blk.base] == if Closes(act, d) then 1.0 else 0.0
    ensures BlockValues(blk, act)[blk.PenaltyCol(d) - blk.base] == Due(blk, act, d) as real
  {
    ClosureValueAt(blk, act, blk.Days(), d);
    var before := [OpenRun(act, blk.Initial(), 1) as real] +
      (if blk.HistoryCost() != 0 then [if act[0] then 0.0 else 1.0] else []) +
      seq(blk.Days() - 1, i requires 0 <= i < blk.Days() - 1 => OpenRun(act, blk.Initial(), i + 2) as real);
    assert |before| == blk.Extra() + blk.Days();
    assert BlockValues(blk, act) == before + ClosureValues(blk, act, blk.Days()) +
      [MaxCost(OpenRun(act, blk.Initial(), |act|), blk.b) as real];
  }

  // u fixes the columns before the block, with the given activity; v adds the block's values.
  ghost predicate Extends(blk: Block, u: seq<real>, act: Activity, v: seq<real>) {
    && blk.Ok() && |u| == blk.base && |act| == blk.Days()
    && (forall d | 0 <= d < blk.Days() :: BinaryCol(u, blk.active[d]) && act[d] == (u[blk.active[d]] == 1.0))
    && v == u + BlockValues(blk, act)
  }

  lemma ExtendedPoint(blk: Block, u: seq<real>, act: Activity, v: seq<real>)
    requires Extends(blk, u, act, v)
    ensures Point(blk, v) && ActOf(blk, v) == act
  {
    forall d | 0 <= d < blk.Days() ensures BinaryCol(v, blk.active[d]) && v[blk.active[d]] == u[blk.active[d]] {
      assert BinaryCol(u, blk.active[d]);
    }
  }

  lemma ExtendedRun(blk: Block, u: seq<real>, act: Activity, v: seq<real>, d: nat)
    requires Extends(blk, u, act, v) && Point(blk, v) && d < blk.Days()
    ensures RunAt(blk, v, d) == OpenRun(act, blk.Initial(), d + 1) as real
  {
    ValuesAt(blk, act);
    assert v[blk.RunCol(d)] == BlockValues(blk, act)[blk.RunCol(d) - blk.base];
  }

  lemma ExtendedClosing(blk: Block, u: seq<real>, act: Activity, v: seq<real>, d: nat)
    requires Extends(blk, u, act, v) && Point(blk, v) && 0 < d < blk.Days()
    ensures CloseAt(blk, v, d) == if Closes(act, d) then 1.0 else 0.0
    ensures PenaltyAt(blk, v, d) == Due(blk, act, d) as real
  {
    ClosingValuesAt(blk, act, d);
    assert v[blk.CloseCol(d)] == BlockValues(blk, act)[blk.CloseCol(d) - blk.base];
    assert v[blk.PenaltyCol(d)] == BlockValues(blk, act)[blk.PenaltyCol(d) - blk.base];
  }

  lemma ExtendedEnds(blk: Block, u: seq<real>, act: Activity, v: seq<real>)
    requires Extends(blk, u, act, v) && Point(blk, v)
    ensures blk.HistoryCost() != 0 ==> v[blk.base + 1] == if act[0] then 0.0 else 1.0
    ensures EndAt(blk, v) == MaxCost(OpenRun(act, blk.Initial(), |act|), blk.b) as real
  {
    ValuesAt(blk, act);
    assert v[blk.EndCol()] == BlockValues(blk, act)[blk.EndCol() - blk.base];
    if blk.HistoryCost() != 0 { assert v[blk.base + 1] == BlockValues(blk, act)[1]; }
  }

  // A released row still fits its penalty column.
  lemma DueBounds(blk: Block, act: Activity, d: nat)
    requires blk.Ok() && |act| == blk.Days() && 0 < d < blk.Days() && blk.b.min <= blk.b.max
    ensures 0 <= Due(blk, act, d) <= MaxClosed(blk.b, blk.MaxLength() + 1)
  {
    Ordered(blk.b.weight, 0, blk.MaxLength());
    OpenRunPositive(act, blk.Initial(), d);
    MaxClosedBounds(blk.b, blk.MaxLength() + 1, OpenRun(act, blk.Initial(), d));
    if Closes(act, d) { OneSided(blk.b, OpenRun(act, blk.Initial(), d)); }
  }

  lemma {:induction false} ClosuresFit(blk: Block, act: Activity, k: nat)
    requires blk.Ok() && |act| == blk.Days() && k <= blk.Days() && blk.b.min <= blk.b.max
    ensures Fits(ClosureColumns(blk, k), ClosureValues(blk, act, k))
  {
    if k > 1 {
      ClosuresFit(blk, act, k - 1);
      DueBounds(blk, act, k - 1);
      FitsConcat(ClosureColumns(blk, k - 1), ClosureValues(blk, act, k - 1),
                 [Col(0.0, 1.0, 0.0, false), Col(0.0, MaxClosed(blk.b, blk.MaxLength() + 1) as real, 1.0, false)],
                 [if Closes(act, k - 1) then 1.0 else 0.0, Due(blk, act, k - 1) as real]);
    }
  }

  lemma RunsFit(blk: Block, act: Activity)
    requires blk.Ok() && |act| == blk.Days()
    ensures Fits(HeadColumns(blk), [OpenRun(act, blk.Initial(), 1) as real] +
                 (if blk.HistoryCost() != 0 then [if act[0] then 0.0 else 1.0] else []))
    ensures Fits(seq(blk.Days() - 1, i => RunColumn(blk)),
                 seq(blk.Days() - 1, i requires 0 <= i < blk.Days() - 1 => OpenRun(act, blk.Initial(), i + 2) as real))
  {
    forall d | 0 < d <= blk.Days() ensures OpenRun(act, blk.Initial(), d) <= blk.MaxLength() {
      OpenRunPositive(act, blk.Initial(), d);
    }
  }

  lemma EndFits(blk: Block, act: Activity)
    requires blk.Ok() && |act| == blk.Days() && blk.b.min <= blk.b.max
    ensures Fits([Col(0.0, MaxEnd(blk.b, blk.MaxLength() + 1) as real, 1.0, false)],
                 [MaxCost(OpenRun(act, blk.Initial(), blk.Days()), blk.b) as real])
  {
    var length := OpenRun(act, blk.Initial(), blk.Days());
    OpenRunPositive(act, blk.Initial(), blk.Days());
    MaxEndBounds(blk.b, blk.MaxLength() + 1, length);
    OverIsMax(blk.b, length);
  }

  lemma ValuesFit(blk: Block, act: Activity)
    requires blk.Ok() && |act| == blk.Days() && blk.b.min <= blk.b.max
    ensures Fits(BlockCols(blk), BlockValues(blk, act))
  {
    var n := blk.Days();
    EndFits(blk, act);
    var head := [OpenRun(act, blk.Initial(), 1) as real] +
      (if blk.HistoryCost() != 0 then [if act[0] then 0.0 else 1.0] else []);
    var runs := seq(n - 1, i requires 0 <= i < n - 1 => OpenRun(act, blk.Initial(), i + 2) as real);
    var end := MaxCost(OpenRun(act, blk.Initial(), n), blk.b);
    RunsFit(blk, act);
    ClosuresFit(blk, act, n);
    var cols := seq(n - 1, i => RunColumn(blk));
    FitsConcat(HeadColumns(blk), head, cols, runs);
    FitsConcat(HeadColumns(blk) + cols, head + runs, ClosureColumns(blk, n), ClosureValues(blk, act, n));
    FitsConcat(HeadColumns(blk) + cols + ClosureColumns(blk, n), head + runs + ClosureValues(blk, act, n),
               [Col(0.0, MaxEnd(blk.b, blk.MaxLength() + 1) as real, 1.0, false)], [end as real]);
  }

  lemma ExtendedWithin(blk: Block, u: seq<real>, act: Activity, v: seq<real>)
    requires Extends(blk, u, act, v) && Point(blk, v) && blk.b.min <= blk.b.max
    ensures Within(blk, v)
  {
    ValuesFit(blk, act);
    forall i | 0 <= i < blk.Width() ensures WithinCol(BlockCols(blk)[i], v, blk.base + i) {
      assert v[blk.base + i] == BlockValues(blk, act)[i];
    }
  }

  // The over-maximum rows need no more than their release.
  lemma ReleaseEnough(blk: Block, length: int)
    requires blk.Ok() && 0 <= length <= blk.MaxLength()
    ensures Over(blk.b, length) <= blk.b.weight * blk.MaxLength()
  {
    Ordered(blk.b.weight, length - blk.b.max, blk.MaxLength());
  }

  lemma Ordered(w: int, x: int, y: int)
    requires 0 <= w && x <= y
    ensures x * w <= w * y
  {
  }

  lemma ExtendedPenalty(blk: Block, u: seq<real>, act: Activity, v: seq<real>, d: nat)
    requires Extends(blk, u, act, v) && Point(blk, v) && ActOf(blk, v) == act && 0 < d < blk.Days()
    requires blk.b.min <= blk.b.max
    ensures CloseOk(blk, v, d) && PenaltyOk(blk, v, d)
  {
    var length := OpenRun(act, blk.Initial(), d);
    ExtendedClosing(blk, u, act, v, d);
    OpenRunPositive(act, blk.Initial(), d);
    ReleaseEnough(blk, length);
    if Closes(act, d) { OneSided(blk.b, length); }
  }

  lemma ExtendedEnd(blk: Block, u: seq<real>, act: Activity, v: seq<real>)
    requires Extends(blk, u, act, v) && Point(blk, v) && ActOf(blk, v) == act
    ensures EndOk(blk, v) && ComplementOk(blk, v)
  {
    var length := OpenRun(act, blk.Initial(), blk.Days());
    ExtendedEnds(blk, u, act, v);
    OpenRunPositive(act, blk.Initial(), blk.Days());
    ReleaseEnough(blk, length);
    OverIsMax(blk.b, length);
    MaxEndBounds(blk.b, blk.MaxLength() + 1, length);
  }

  lemma ExtendedRows(blk: Block, u: seq<real>, act: Activity, v: seq<real>)
    requires Extends(blk, u, act, v) && Point(blk, v) && ActOf(blk, v) == act
    requires blk.b.min <= blk.b.max
    ensures BlockOk(blk, v)
  {
    forall d | 0 <= d < blk.Days() ensures IsRun(blk, v, d) {
      ExtendedRun(blk, u, act, v, d);
    }
    forall d | 0 < d < blk.Days() ensures CloseOk(blk, v, d) && PenaltyOk(blk, v, d) {
      ExtendedPenalty(blk, u, act, v, d);
    }
    ExtendedEnd(blk, u, act, v);
  }

  lemma {:induction false} ExtendedPenalties(blk: Block, u: seq<real>, act: Activity, v: seq<real>, k: nat)
    requires Extends(blk, u, act, v) && Point(blk, v) && k <= blk.Days()
    ensures PenaltySum(blk, v, k) ==
      (ChargeSum(blk, act, k) + Leaks(act, blk.Initial(), blk.b, blk.MaxLength(), k)) as real
  {
    if k > 1 {
      ExtendedPenalties(blk, u, act, v, k - 1);
      ExtendedClosing(blk, u, act, v, k - 1);
    }
  }

  lemma ExtendedCost(blk: Block, u: seq<real>, act: Activity, v: seq<real>)
    requires Extends(blk, u, act, v) && Point(blk, v) && ActOf(blk, v) == act && ComplementOk(blk, v)
    ensures BlockCost(blk, v) == BlockLeast(blk, act) as real
  {
    ExtendedPenalties(blk, u, act, v, blk.Days());
    ExtendedEnds(blk, u, act, v);
    ClosedSplits(blk, act, blk.Days());
    HistoryExact(blk, v);
  }

  // Every activity has a point of the block that costs no more than that.
  lemma BlockCostAttained(blk: Block, u: seq<real>, act: Activity, v: seq<real>)
    requires Extends(blk, u, act, v)
    requires blk.b.min <= blk.b.max
    ensures v[..|u|] == u && BlockFeasible(blk, v) && ActOf(blk, v) == act
    ensures BlockCost(blk, v) == BlockLeast(blk, act) as real
  {
    ExtendedPoint(blk, u, act, v);
    ExtendedWithin(blk, u, act, v);
    ExtendedRows(blk, u, act, v);
    BlockMeaning(blk, v);
    ExtendedCost(blk, u, act, v);
  }

  // ----- when nothing leaks -----

  // The minimum fits the longest run, or no row needs the release.
  ghost predicate Releases(blk: Block) {
    blk.Days() == 1 || blk.b.weight == 0 || blk.b.min <= blk.MaxLength()
  }

  lemma {:induction false} NoLeaks(act: Activity, initial: nat, b: Bounds, longest: nat, k: nat)
    requires k <= |act| && 0 <= b.weight && (|act| <= 1 || b.weight == 0 || b.min <= longest)
    ensures Leaks(act, initial, b, longest, k) == 0
  {
    if k > 1 {
      NoLeaks(act, initial, b, longest, k - 1);
      if b.weight != 0 { Ordered(b.weight, b.min - OpenRun(act, initial, k - 1), longest); }
    }
  }

  lemma IdleLeak(act: Activity, initial: nat, b: Bounds, longest: nat, d: nat)
    requires Idle(act) && 0 < d < |act| && b.weight > 0 && b.min > longest
    ensures Leak(act, initial, b, longest, d) > 0
  {
    assert OpenRun(act, initial, d) == 0;
    Positive(b.weight, b.min - longest);
    assert b.weight * b.min - b.weight * longest == b.weight * (b.min - longest);
  }

  lemma IdleExcess(blk: Block, act: Activity)
    requires blk.Ok() && !Releases(blk) && Idle(act) && |act| == blk.Days()
    ensures BlockLeast(blk, act) > RunCost(act, blk.Initial(), blk.b)
  {
    IdleLeak(act, blk.Initial(), blk.b, blk.MaxLength(), blk.Days() - 1);
  }

  // Otherwise every day off after the first is charged although no run ended.
  lemma IdleOvercharged(blk: Block, v: seq<real>)
    requires BlockFeasible(blk, v) && blk.b.min <= blk.b.max && !Releases(blk) && Idle(ActOf(blk, v))
    ensures BlockCost(blk, v) > RunCost(ActOf(blk, v), blk.Initial(), blk.b) as real
  {
    BlockCostCovers(blk, v);
    IdleExcess(blk, ActOf(blk, v));
  }

  lemma Positive(k: int, x: int)
    requires k > 0 && x > 0
    ensures k * x > 0
  {
  }

  // Some completion of the columns before the block costs exactly what the scan charges.
  ghost predicate Exact(blk: Block, u: seq<real>, act: Activity) {
    exists v :: ExactAt(blk, u, act, v)
  }

  ghost predicate ExactAt(blk: Block, u: seq<real>, act: Activity, v: seq<real>) {
    && u <= v && BlockFeasible(blk, v) && ActOf(blk, v) == act
    && BlockCost(blk, v) == RunCost(act, blk.Initial(), blk.b) as real
  }

  ghost predicate Fixes(blk: Block, u: seq<real>, act: Activity) {
    && |u| == blk.base && |act| == blk.Days()
    && forall d | 0 <= d < blk.Days() :: BinaryCol(u, blk.active[d]) && act[d] == (u[blk.active[d]] == 1.0)
  }

  // For one activity, the block can cost what the scan charges exactly when nothing leaks.
  lemma ExactWhen(blk: Block, u: seq<real>, act: Activity)
    requires blk.Ok() && blk.b.min <= blk.b.max && Fixes(blk, u, act)
    ensures Exact(blk, u, act) <==> Excess(act, blk.Initial(), blk.b, blk.historyLength) == 0
  {
    if Exact(blk, u, act) {
      var v :| ExactAt(blk, u, act, v);
      BlockCostCovers(blk, v);
    }
    if Excess(act, blk.Initial(), blk.b, blk.historyLength) == 0 {
      var v := u + BlockValues(blk, act);
      BlockCostAttained(blk, u, act, v);
      assert ExactAt(blk, u, act, v);
    }
  }

  // The block's least cost is the scan's cost for every activity exactly when the minimum
  // fits the longest run (or nothing depends on it).
  lemma BlockExactness(blk: Block)
    requires blk.Ok() && blk.b.min <= blk.b.max
    ensures (forall u, act | Fixes(blk, u, act) :: Exact(blk, u, act)) <==> Releases(blk)
  {
    if Releases(blk) {
      forall u, act | Fixes(blk, u, act) ensures Exact(blk, u, act) {
        NoLeaks(act, blk.Initial(), blk.b, blk.MaxLength(), blk.Days());
        ExactWhen(blk, u, act);
      }
    } else {
      var u, act := seq(blk.base, i => 0.0), seq(blk.Days(), i => false);
      assert Fixes(blk, u, act);
      IdleExcess(blk, act);
      ExactWhen(blk, u, act);
    }
  }
}
