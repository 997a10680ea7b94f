// What the run-length rows mean: one run-length vector per activity, the ends of its runs, and
// penalty columns that cover the charges the rows release or enforce.
module RosterRunExact {
  import opened Milp
  import opened RosterRuns
  import opened RosterRunMilp

  // ----- points of the block -----

  ghost predicate BinaryCol(v: seq<real>, c: nat) {
    c < |v| && (v[c] == 0.0 || v[c] == 1.0)
  }

  // All columns of the block are there and its activity columns are 0 or 1.
  ghost predicate Point(blk: Block, v: seq<real>) {
    && blk.Ok() && blk.base + blk.Width() <= |v|
    && forall d | 0 <= d < blk.Days() :: BinaryCol(v, blk.active[d])
  }

  ghost function ActOf(blk: Block, v: seq<real>): (act: Activity)
    requires Point(blk, v)
    ensures |act| == blk.Days() && forall d | 0 <= d < |act| :: act[d] == (v[blk.active[d]] == 1.0)
  {
    seq(blk.Days(), d requires 0 <= d < blk.Days() => v[blk.active[d]] == 1.0)
  }

  ghost predicate WithinCol(col: Col, v: seq<real>, c: nat)
    requires c < |v|
  {
    col.lower <= v[c] <= col.upper
  }

  ghost predicate Within(blk: Block, v: seq<real>)
    requires Point(blk, v)
  {
    forall i | 0 <= i < blk.Width() :: WithinCol(BlockCols(blk)[i], v, blk.base + i)
  }

  ghost function RunAt(blk: Block, v: seq<real>, d: nat): real
    requires Point(blk, v) && d < blk.Days()
  {
    v[blk.RunCol(d)]
  }

  ghost function CloseAt(blk: Block, v: seq<real>, d: nat): real
    requires Point(blk, v) && 0 < d < blk.Days()
  {
    v[blk.CloseCol(d)]
  }

  ghost function PenaltyAt(blk: Block, v: seq<real>, d: nat): real
    requires Point(blk, v) && 0 < d < blk.Days()
  {
    v[blk.PenaltyCol(d)]
  }

  ghost function EndAt(blk: Block, v: seq<real>): real
    requires Point(blk, v)
  {
    v[blk.EndCol()]
  }

  lemma {:induction false} ClosureColumnAt(blk: Block, k: nat, d: nat)
    requires 0 < d < k
    ensures ClosureColumns(blk, k)[2 * (d - 1)] == Col(0.0, 1.0, 0.0, false)
    ensures ClosureColumns(blk, k)[2 * (d - 1) + 1] ==
      Col(0.0, MaxClosed(blk.b, blk.MaxLength() + 1) as real, 1.0, false)
  {
    if d < k - 1 { ClosureColumnAt(blk, k - 1, d); }
  }

  // Which kind of column sits where.
  lemma ColumnAt(blk: Block)
    requires blk.active != []
    ensures forall d | 0 <= d < blk.Days() :: BlockCols(blk)[blk.RunCol(d) - blk.base] == RunColumn(blk)
    ensures blk.HistoryCost() != 0 ==> BlockCols(blk)[1] == Col(0.0, 1.0, blk.HistoryCost() as real, false)
    ensures BlockCols(blk)[blk.EndCol() - blk.base] == Col(0.0, MaxEnd(blk.b, blk.MaxLength() + 1) as real, 1.0, false)
  {
  }

  lemma ClosingColumnAt(blk: Block, d: nat)
    requires 0 < d < blk.Days()
    ensures BlockCols(blk)[blk.CloseCol(d) - blk.base] == Col(0.0, 1.0, 0.0, false)
    ensures BlockCols(blk)[blk.PenaltyCol(d) - blk.base] ==
      Col(0.0, MaxClosed(blk.b, blk.MaxLength() + 1) as real, 1.0, false)
  {
    ClosureColumnAt(blk, blk.Days(), d);
    var before := [RunColumn(blk)] +
      (if blk.HistoryCost() != 0 then [Col(0.0, 1.0, blk.HistoryCost() as real, false)] else []) +
      seq(blk.Days() - 1, i => RunColumn(blk));
    assert |before| == blk.Extra() + blk.Days();
    assert BlockCols(blk) == before + ClosureColumns(blk, blk.Days()) +
      [Col(0.0, MaxEnd(blk.b, blk.MaxLength() + 1) as real, 1.0, false)];
  }

  lemma RunBounds(blk: Block, v: seq<real>, d: nat)
    requires Point(blk, v) && Within(blk, v) && d < blk.Days()
    ensures 0.0 <= RunAt(blk, v, d) <= blk.MaxLength() as real
  {
    ColumnAt(blk);
    var i := blk.RunCol(d) - blk.base;
    assert WithinCol(BlockCols(blk)[i], v, blk.base + i);
  }

  lemma ClosureBounds(blk: Block, v: seq<real>, d: nat)
    requires Point(blk, v) && Within(blk, v) && 0 < d < blk.Days()
    ensures 0.0 <= CloseAt(blk, v, d) <= 1.0
    ensures 0.0 <= PenaltyAt(blk, v, d) <= MaxClosed(blk.b, blk.MaxLength() + 1) as real
  {
    ClosingColumnAt(blk, d);
    var i, j := blk.CloseCol(d) - blk.base, blk.PenaltyCol(d) - blk.base;
    assert WithinCol(BlockCols(blk)[i], v, blk.base + i) && WithinCol(BlockCols(blk)[j], v, blk.base + j);
  }

  lemma EndBounds(blk: Block, v: seq<real>)
    requires Point(blk, v) && Within(blk, v)
    ensures 0.0 <= EndAt(blk, v) <= MaxEnd(blk.b, blk.MaxLength() + 1) as real
  {
    ColumnAt(blk);
    var i := blk.EndCol() - blk.base;
    assert WithinCol(BlockCols(blk)[i], v, blk.base + i);
  }

  // ----- run lengths -----

  ghost predicate IsRun(blk: Block, v: seq<real>, d: nat)
    requires Point(blk, v) && d < blk.Days()
  {
    RunAt(blk, v, d) == OpenRun(ActOf(blk, v), blk.Initial(), d + 1) as real
  }

  lemma FirstRowsMeaning(blk: Block, v: seq<real>)
    requires Point(blk, v)
    ensures RowsHold(FirstRows(blk), v) <==> IsRun(blk, v, 0)
  {
    var rows, first := FirstRows(blk), blk.active[0];
    var length := if blk.historyActive then blk.historyLength + 1 else 1;
    assert RowsHold(rows, v) <==> RowHolds(rows[0], v) && RowHolds(rows[1], v);
    DotTwo((blk.RunCol(0), -1.0), (first, length as real), v);
    DotTwo((blk.RunCol(0), 1.0), (first, -(length as real)), v);
    assert BinaryCol(v, first);
    assert OpenRun(ActOf(blk, v), blk.Initial(), 0) == blk.Initial();
    assert OpenRun(ActOf(blk, v), blk.Initial(), 1) == if v[first] == 1.0 then length else 0;
  }

  // The five rows of one day, as inequalities over plain numbers.
  ghost predicate IdleRow(run: real, now: real, len: real) {
    1.0 * run + -len * now <= 0.0
  }

  ghost predicate ContinueUpper(run: real, before: real, now: real, was: real, m: real) {
    1.0 * run + -1.0 * before + m * now + m * was <= 1.0 + 2.0 * m
  }

  ghost predicate ContinueLower(run: real, before: real, now: real, was: real, m: real) {
    1.0 * run + -1.0 * before + -m * now + -m * was >= 1.0 - 2.0 * m
  }

  ghost predicate StartLower(run: real, now: real, was: real, m: real) {
    1.0 * run + -m * now + m * was >= 1.0 - m
  }

  ghost predicate StartUpper(run: real, now: real, was: real, m: real) {
    1.0 * run + m * now + -m * was <= 1.0 + m
  }

  ghost predicate DayRows(run: real, before: real, now: real, was: real, len: real, m: real) {
    && IdleRow(run, now, len) && ContinueUpper(run, before, now, was, m) && ContinueLower(run, before, now, was, m)
    && StartLower(run, now, was, m) && StartUpper(run, now, was, m)
  }

  lemma Products(c: real, z: real)
    requires z == 0.0 || z == 1.0
    ensures c * z == (if z == 1.0 then c else 0.0) && -c * z == if z == 1.0 then -c else 0.0
  {
  }

  lemma DayRowsExact(run: real, before: real, now: real, was: real, len: real, m: real)
    requires 0.0 <= run <= len && 0.0 <= before <= len && m == len + 1.0
    requires (now == 0.0 || now == 1.0) && (was == 0.0 || was == 1.0)
    ensures DayRows(run, before, now, was, len, m) <==>
      run == if now == 0.0 then 0.0 else if was == 1.0 then before + 1.0 else 1.0
  {
    Products(len, now);
    Products(m, now);
    Products(m, was);
  }

  lemma TransitionActivity(blk: Block, v: seq<real>, d: nat)
    requires Point(blk, v) && 0 < d < blk.Days()
    ensures RowsHold(TransitionRows(blk, d), v) <==>
      DayRows(RunAt(blk, v, d), RunAt(blk, v, d - 1), v[blk.active[d]], v[blk.active[d - 1]],
              blk.MaxLength() as real, (blk.MaxLength() + 1) as real)
  {
    assert BinaryCol(v, blk.active[d]) && BinaryCol(v, blk.active[d - 1]);
    FiveRowsActivity(TransitionRows(blk, d), v, blk.RunCol(d), blk.RunCol(d - 1), blk.active[d], blk.active[d - 1],
                     blk.MaxLength() as real, (blk.MaxLength() + 1) as real);
  }

  lemma FiveRowsActivity(rows: seq<Row>, v: seq<real>, run: nat, before: nat, now: nat, was: nat, len: real, m: real)
    requires run < |v| && before < |v| && now < |v| && was < |v|
    requires rows ==
      [Row([(run, 1.0), (now, -len)], NoBound, At(0.0)),
       Row([(run, 1.0), (before, -1.0), (now, m), (was, m)], NoBound, At(1.0 + 2.0 * m)),
       Row([(run, 1.0), (before, -1.0), (now, -m), (was, -m)], At(1.0 - 2.0 * m), NoBound),
       Row([(run, 1.0), (now, -m), (was, m)], At(1.0 - m), NoBound),
       Row([(run, 1.0), (now, m), (was, -m)], NoBound, At(1.0 + m))]
    ensures RowsHold(rows, v) <==> DayRows(v[run], v[before], v[now], v[was], len, m)
  {
    ContinueRows(v, run, before, now, was, m);
    StartRows(v, run, now, was, m);
    RowTwo((run, 1.0), (now, -len), NoBound, At(0.0), v);
    FiveRows(rows, v);
  }

  lemma ContinueRows(v: seq<real>, run: nat, before: nat, now: nat, was: nat, m: real)
    requires run < |v| && before < |v| && now < |v| && was < |v|
    ensures RowHolds(Row([(run, 1.0), (before, -1.0), (now, m), (was, m)], NoBound, At(1.0 + 2.0 * m)), v) <==>
      ContinueUpper(v[run], v[before], v[now], v[was], m)
    ensures RowHolds(Row([(run, 1.0), (before, -1.0), (now, -m), (was, -m)], At(1.0 - 2.0 * m), NoBound), v) <==>
      ContinueLower(v[run], v[before], v[now], v[was], m)
  {
    RowFour((run, 1.0), (before, -1.0), (now, m), (was, m), NoBound, At(1.0 + 2.0 * m), v);
    RowFour((run, 1.0), (before, -1.0), (now, -m), (was, -m), At(1.0 - 2.0 * m), NoBound, v);
  }

  lemma StartRows(v: seq<real>, run: nat, now: nat, was: nat, m: real)
    requires run < |v| && now < |v| && was < |v|
    ensures RowHolds(Row([(run, 1.0), (now, -m), (was, m)], At(1.0 - m), NoBound), v) <==>
      StartLower(v[run], v[now], v[was], m)
    ensures RowHolds(Row([(run, 1.0), (now, m), (was, -m)], NoBound, At(1.0 + m)), v) <==>
      StartUpper(v[run], v[now], v[was], m)
  {
    RowThree((run, 1.0), (now, -m), (was, m), At(1.0 - m), NoBound, v);
    RowThree((run, 1.0), (now, m), (was, -m), NoBound, At(1.0 + m), v);
  }

  lemma FiveRows(rows: seq<Row>, v: seq<real>)
    requires |rows| == 5
    ensures RowsHold(rows, v) <==> RowHolds(rows[0], v) && RowHolds(rows[1], v) && RowHolds(rows[2], v) &&
                                   RowHolds(rows[3], v) && RowHolds(rows[4], v)
  {
  }

  // One day's rows pin its run length, given the previous day's.
  lemma TransitionMeaning(blk: Block, v: seq<real>, d: nat)
    requires Point(blk, v) && Within(blk, v) && 0 < d < blk.Days() && IsRun(blk, v, d - 1)
    ensures RowsHold(TransitionRows(blk, d), v) <==> IsRun(blk, v, d)
  {
    TransitionActivity(blk, v, d);
    RunBounds(blk, v, d);
    RunBounds(blk, v, d - 1);
    var act, initial := ActOf(blk, v), blk.Initial();
    assert BinaryCol(v, blk.active[d]) && BinaryCol(v, blk.active[d - 1]);
    DayRowsExact(RunAt(blk, v, d), RunAt(blk, v, d - 1), v[blk.active[d]], v[blk.active[d - 1]],
                 blk.MaxLength() as real, (blk.MaxLength() + 1) as real);
    assert OpenRun(act, initial, d) == if act[d - 1] then OpenRun(act, initial, d - 1) + 1 else 0;
    assert OpenRun(act, initial, d + 1) == if act[d] then OpenRun(act, initial, d) + 1 else 0;
  }

  ghost predicate RunsPinned(blk: Block, v: seq<real>, k: nat)
    requires Point(blk, v) && k <= blk.Days()
  {
    forall d | 0 <= d < k :: IsRun(blk, v, d)
  }

  lemma {:induction false} TransitionsMeaning(blk: Block, v: seq<real>, k: nat)
    requires Point(blk, v) && Within(blk, v) && 0 < k <= blk.Days() && IsRun(blk, v, 0)
    ensures RowsHold(Transitions(blk, k), v) <==> RunsPinned(blk, v, k)
  {
    if k > 1 {
      TransitionsMeaning(blk, v, k - 1);
      RowsHoldConcat(Transitions(blk, k - 1), TransitionRows(blk, k - 1), v);
      if RunsPinned(blk, v, k - 1) { TransitionMeaning(blk, v, k - 1); }
    }
  }

  // ----- closures -----

  ghost predicate Closes(act: Activity, d: nat)
    requires 0 < d < |act|
  {
    act[d - 1] && !act[d]
  }

  ghost predicate CloseOk(blk: Block, v: seq<real>, d: nat)
    requires Point(blk, v) && 0 < d < blk.Days()
  {
    CloseAt(blk, v, d) == if Closes(ActOf(blk, v), d) then 1.0 else 0.0
  }

  lemma CloseMeaning(blk: Block, v: seq<real>, d: nat)
    requires Point(blk, v) && Within(blk, v) && 0 < d < blk.Days()
    ensures RowsHold(CloseRows(blk, d), v) <==> CloseOk(blk, v, d)
  {
    var close, now, was := blk.CloseCol(d), blk.active[d], blk.active[d - 1];
    var rows := CloseRows(blk, d);
    ClosureBounds(blk, v, d);
    assert BinaryCol(v, now) && BinaryCol(v, was);
    DotTwo((close, 1.0), (was, -1.0), v);
    DotTwo((close, 1.0), (now, 1.0), v);
    DotThree((close, 1.0), (was, -1.0), (now, 1.0), v);
    assert RowsHold(rows, v) <==> RowHolds(rows[0], v) && RowHolds(rows[1], v) && RowHolds(rows[2], v);
  }

  // The penalty covers both charges on the run that ended, less the release when none did.
  ghost predicate PenaltyOk(blk: Block, v: seq<real>, d: nat)
    requires Point(blk, v) && 0 < d < blk.Days()
  {
    var length, p := OpenRun(ActOf(blk, v), blk.Initial(), d), PenaltyAt(blk, v, d);
    var release := if Closes(ActOf(blk, v), d) then 0 else blk.b.weight * blk.MaxLength();
    (Over(blk.b, length) - release) as real <= p && (Under(blk.b, length) - release) as real <= p
  }

  // A charge row: the column covers the charge, less the release while the literal is 0.
  lemma ChargeRow(v: seq<real>, p: nat, run: nat, lit: nat, w: int, len: int, length: int, slope: int, bound: int)
    requires p < |v| && run < |v| && lit < |v| && BinaryCol(v, lit) && v[run] == length as real
    requires slope == w || slope == -w
    ensures var release := (w * len) as real;
      RowHolds(Row([(p, 1.0), (run, slope as real), (lit, -release)], At(bound as real - release), NoBound), v) <==>
      (bound - slope * length - (if v[lit] == 1.0 then 0 else w * len)) as real <= v[p]
  {
    var release := (w * len) as real;
    RowThree((p, 1.0), (run, slope as real), (lit, -release), At(bound as real - release), NoBound, v);
    Products(release, v[lit]);
    assert slope as real * length as real == (slope * length) as real;
  }

  lemma PenaltyMeaning(blk: Block, v: seq<real>, d: nat)
    requires Point(blk, v) && 0 < d < blk.Days() && IsRun(blk, v, d - 1) && CloseOk(blk, v, d)
    ensures RowsHold(PenaltyRows(blk, d), v) <==> PenaltyOk(blk, v, d)
  {
    var rows, length := PenaltyRows(blk, d), OpenRun(ActOf(blk, v), blk.Initial(), d);
    var w, min, max := blk.b.weight, blk.b.min, blk.b.max;
    assert RowsHold(rows, v) <==> RowHolds(rows[0], v) && RowHolds(rows[1], v);
    ChargeRow(v, blk.PenaltyCol(d), blk.RunCol(d - 1), blk.CloseCol(d), w, blk.MaxLength(), length, -w, -max * w);
    ChargeRow(v, blk.PenaltyCol(d), blk.RunCol(d - 1), blk.CloseCol(d), w, blk.MaxLength(), length, w, min * w);
    Charges(blk.b, length);
  }

  lemma Charges(b: Bounds, length: int)
    ensures -b.max * b.weight - -b.weight * length == Over(b, length)
    ensures b.min * b.weight - b.weight * length == Under(b, length)
  {
  }

  ghost predicate ClosuresOk(blk: Block, v: seq<real>, k: nat)
    requires Point(blk, v) && k <= blk.Days()
  {
    forall d | 0 < d < k :: CloseOk(blk, v, d) && PenaltyOk(blk, v, d)
  }

  lemma {:induction false} ClosuresMeaning(blk: Block, v: seq<real>, k: nat)
    requires Point(blk, v) && Within(blk, v) && 0 < k <= blk.Days() && RunsPinned(blk, v, blk.Days())
    ensures RowsHold(Closures(blk, k), v) <==> ClosuresOk(blk, v, k)
  {
    if k > 1 {
      ClosuresMeaning(blk, v, k - 1);
      var earlier, close, penalty := Closures(blk, k - 1), CloseRows(blk, k - 1), PenaltyRows(blk, k - 1);
      assert Closures(blk, k) == earlier + (close + penalty);
      RowsHoldConcat(earlier, close + penalty, v);
      RowsHoldConcat(close, penalty, v);
      CloseMeaning(blk, v, k - 1);
      assert IsRun(blk, v, k - 2);
      if CloseOk(blk, v, k - 1) { PenaltyMeaning(blk, v, k - 1); }
      assert ClosuresOk(blk, v, k) <==>
        ClosuresOk(blk, v, k - 1) && CloseOk(blk, v, k - 1) && PenaltyOk(blk, v, k - 1);
    }
  }

  // ----- the end of the horizon -----

  ghost predicate EndOk(blk: Block, v: seq<real>)
    requires Point(blk, v)
  {
    var n, act := blk.Days(), ActOf(blk, v);
    var release := if act[n - 1] then 0 else blk.b.weight * blk.MaxLength();
    && (Over(blk.b, OpenRun(act, blk.Initial(), n)) - release) as real <= EndAt(blk, v)
    && EndAt(blk, v) <= if act[n - 1] then MaxEnd(blk.b, blk.MaxLength() + 1) as real else 0.0
  }

  lemma EndMeaning(blk: Block, v: seq<real>)
    requires Point(blk, v) && IsRun(blk, v, blk.Days() - 1)
    ensures RowsHold(EndRows(blk), v) <==> EndOk(blk, v)
  {
    var n, w := blk.Days(), blk.b.weight;
    var last, run, most := blk.active[n - 1], blk.RunCol(n - 1), MaxEnd(blk.b, blk.MaxLength() + 1) as real;
    var rows, length := EndRows(blk), OpenRun(ActOf(blk, v), blk.Initial(), n);
    assert BinaryCol(v, last);
    assert RowsHold(rows, v) <==> RowHolds(rows[0], v) && RowHolds(rows[1], v);
    ChargeRow(v, blk.EndCol(), run, last, w, blk.MaxLength(), length, -w, -blk.b.max * w);
    RowTwo((blk.EndCol(), 1.0), (last, -most), NoBound, At(0.0), v);
    Products(most, v[last]);
    Charges(blk.b, length);
  }

  ghost predicate ComplementOk(blk: Block, v: seq<real>)
    requires Point(blk, v)
  {
    blk.HistoryCost() != 0 ==> v[blk.base + 1] == if ActOf(blk, v)[0] then 0.0 else 1.0
  }

  lemma ComplementMeaning(blk: Block, v: seq<real>)
    requires Point(blk, v)
    ensures RowsHold(ComplementRows(blk), v) <==> ComplementOk(blk, v)
  {
    if blk.HistoryCost() != 0 {
      var rows := ComplementRows(blk);
      DotTwo((blk.base + 1, 1.0), (blk.active[0], 1.0), v);
      assert BinaryCol(v, blk.active[0]);
      assert RowsHold(rows, v) <==> RowHolds(rows[0], v);
    }
  }

  // ----- the block -----

  ghost predicate BlockOk(blk: Block, v: seq<real>)
    requires Point(blk, v)
  {
    && RunsPinned(blk, v, blk.Days()) && ComplementOk(blk, v)
    && ClosuresOk(blk, v, blk.Days()) && EndOk(blk, v)
  }

  ghost predicate BlockFeasible(blk: Block, v: seq<real>) {
    Point(blk, v) && Within(blk, v) && RowsHold(BlockRows(blk), v)
  }

  lemma BlockSplit(blk: Block, v: seq<real>)
    requires blk.active != []
    ensures RowsHold(BlockRows(blk), v) <==>
      (RowsHold(FirstRows(blk), v) && RowsHold(ComplementRows(blk), v) && RowsHold(Transitions(blk, blk.Days()), v) &&
       RowsHold(Closures(blk, blk.Days()), v) && RowsHold(EndRows(blk), v))
  {
    var f, c, t, k, e := FirstRows(blk), ComplementRows(blk), Transitions(blk, blk.Days()), Closures(blk, blk.Days()),
                         EndRows(blk);
    RowsHoldConcat(f + c + t + k, e, v);
    RowsHoldConcat(f + c + t, k, v);
    RowsHoldConcat(f + c, t, v);
    RowsHoldConcat(f, c, v);
  }

  // Exactly one run-length vector per activity; closures and penalties follow it.
  lemma BlockMeaning(blk: Block, v: seq<real>)
    requires Point(blk, v) && Within(blk, v)
    ensures RowsHold(BlockRows(blk), v) <==> BlockOk(blk, v)
  {
    BlockSplit(blk, v);
    FirstRowsMeaning(blk, v);
    ComplementMeaning(blk, v);
    if IsRun(blk, v, 0) {
      TransitionsMeaning(blk, v, blk.Days());
      if RunsPinned(blk, v, blk.Days()) {
        ClosuresMeaning(blk, v, blk.Days());
        assert IsRun(blk, v, blk.Days() - 1);
        EndMeaning(blk, v);
      }
    }
  }
}
