// The run-length block of the linear model: big-M rows that pin one run length per day, a
// penalty column per run closure and one for the run open at the horizon.
module RosterRunMilp {
  import opened Milp
  import opened RosterRuns

  // Activity columns of the block, the history run, and the bounds on run lengths.
  datatype Block = Block(active: seq<nat>, historyActive: bool, historyLength: nat, b: Bounds, base: nat) {
    function Days(): nat { |active| }

    // Longest run the horizon and the history allow.
    function MaxLength(): nat { |active| + historyLength }

    function Initial(): nat { if historyActive then historyLength else 0 }

    function HistoryCost(): int {
      if historyActive && historyLength > 0 then ClosedCost(historyLength, b) else 0
    }

    // The complement column exists only when the history run can be charged.
    function Extra(): nat { if HistoryCost() != 0 then 1 else 0 }

    function RunCol(d: nat): nat { if d == 0 then base else base + Extra() + d }

    function CloseCol(d: nat): nat
      requires d > 0
    {
      base + Extra() + |active| + 2 * (d - 1)
    }

    function PenaltyCol(d: nat): nat
      requires d > 0
    {
      CloseCol(d) + 1
    }

    function EndCol(): nat
      requires active != []
    {
      base + Extra() + |active| + 2 * (|active| - 1)
    }

    function Width(): nat
      requires active != []
    {
      EndCol() + 1 - base
    }

    // Activity columns come first; costs are charges and a maximum is not negative.
    ghost predicate Ok() {
      active != [] && (forall d | 0 <= d < |active| :: active[d] < base) && 0 <= b.weight && 0 <= b.max
    }
  }

  function Larger(x: int, y: int): int { if x < y then y else x }

  function Under(b: Bounds, length: int): int { (b.min - length) * b.weight }

  function Over(b: Bounds, length: int): int { (length - b.max) * b.weight }

  // Largest closing and end charges among lengths below k.
  ghost function MaxClosed(b: Bounds, k: nat): int {
    if k == 0 then 0
    else Larger(MaxClosed(b, k - 1), Larger(0, Larger(Under(b, k - 1), Over(b, k - 1))))
  }

  ghost function MaxEnd(b: Bounds, k: nat): int {
    if k == 0 then 0 else Larger(MaxEnd(b, k - 1), MaxCost(k - 1, b))
  }

  lemma {:induction false} MaxClosedBounds(b: Bounds, k: nat, length: nat)
    requires length < k
    ensures 0 <= MaxClosed(b, k)
    ensures Under(b, length) <= MaxClosed(b, k) && Over(b, length) <= MaxClosed(b, k)
  {
    if length < k - 1 {
      MaxClosedBounds(b, k - 1, length);
    } else {
      MaxClosedNonNegative(b, k - 1);
    }
  }

  lemma {:induction false} MaxClosedNonNegative(b: Bounds, k: nat)
    ensures 0 <= MaxClosed(b, k)
  {
    if k > 0 { MaxClosedNonNegative(b, k - 1); }
  }

  lemma {:induction false} MaxEndBounds(b: Bounds, k: nat, length: nat)
    requires length < k
    ensures 0 <= MaxEnd(b, k) && MaxCost(length, b) <= MaxEnd(b, k)
  {
    if length < k - 1 {
      MaxEndBounds(b, k - 1, length);
    } else {
      MaxEndNonNegative(b, k - 1);
    }
  }

  lemma {:induction false} MaxEndNonNegative(b: Bounds, k: nat)
    ensures 0 <= MaxEnd(b, k)
  {
    if k > 0 { MaxEndNonNegative(b, k - 1); }
  }

  // ----- rows -----

  ghost function FirstRows(blk: Block): seq<Row>
    requires blk.active != []
  {
    var length := if blk.historyActive then blk.historyLength + 1 else 1;
    [Row([(blk.RunCol(0), -1.0), (blk.active[0], length as real)], At(0.0), At(0.0)),
     Row([(blk.RunCol(0), 1.0), (blk.active[0], -(length as real))], At(0.0), At(0.0))]
  }

  ghost function ComplementRows(blk: Block): seq<Row>
    requires blk.active != []
  {
    if blk.HistoryCost() != 0 then [Row([(blk.base + 1, 1.0), (blk.active[0], 1.0)], At(1.0), At(1.0))] else []
  }

  ghost function TransitionRows(blk: Block, d: nat): seq<Row>
    requires 0 < d < blk.Days()
  {
    var m, len := (blk.MaxLength() + 1) as real, blk.MaxLength() as real;
    var run, before, now, was := blk.RunCol(d), blk.RunCol(d - 1), blk.active[d], blk.active[d - 1];
    [Row([(run, 1.0), (now, -len)], NoBound, At(0.0)),
     Row([(run, 1.0), (before, -1.0), (now, m), (was, m)], NoBound, At(1.0 + 2.0 * m)),
     Row([(run, 1.0), (before, -1.0), (now, -m), (was, -m)], At(1.0 - 2.0 * m), NoBound),
     Row([(run, 1.0), (now, -m), (was, m)], At(1.0 - m), NoBound),
     Row([(run, 1.0), (now, m), (was, -m)], NoBound, At(1.0 + m))]
  }

  ghost function CloseRows(blk: Block, d: nat): seq<Row>
    requires 0 < d < blk.Days()
  {
    var close, now, was := blk.CloseCol(d), blk.active[d], blk.active[d - 1];
    [Row([(close, 1.0), (was, -1.0)], NoBound, At(0.0)),
     Row([(close, 1.0), (now, 1.0)], NoBound, At(1.0)),
     Row([(close, 1.0), (was, -1.0), (now, 1.0)], At(0.0), NoBound)]
  }

  ghost function PenaltyRows(blk: Block, d: nat): seq<Row>
    requires 0 < d < blk.Days()
  {
    var w, release := blk.b.weight as real, (blk.b.weight * blk.MaxLength()) as real;
    var penalty, run, close := blk.PenaltyCol(d), blk.RunCol(d - 1), blk.CloseCol(d);
    [Row([(penalty, 1.0), (run, -w), (close, -release)], At((-blk.b.max * blk.b.weight) as real - release), NoBound),
     Row([(penalty, 1.0), (run, w), (close, -release)], At((blk.b.min * blk.b.weight) as real - release), NoBound)]
  }

  ghost function EndRows(blk: Block): seq<Row>
    requires blk.active != []
  {
    var w, release := blk.b.weight as real, (blk.b.weight * blk.MaxLength()) as real;
    var last, run := blk.active[blk.Days() - 1], blk.RunCol(blk.Days() - 1);
    [Row([(blk.EndCol(), 1.0), (run, -w), (last, -release)], At((-blk.b.max * blk.b.weight) as real - release), NoBound),
     Row([(blk.EndCol(), 1.0), (last, -(MaxEnd(blk.b, blk.MaxLength() + 1) as real))], NoBound, At(0.0))]
  }

  ghost function Transitions(blk: Block, k: nat): seq<Row>
    requires k <= blk.Days()
  {
    if k <= 1 then [] else Transitions(blk, k - 1) + TransitionRows(blk, k - 1)
  }

  ghost function Closures(blk: Block, k: nat): seq<Row>
    requires k <= blk.Days()
  {
    if k <= 1 then [] else Closures(blk, k - 1) + (CloseRows(blk, k - 1) + PenaltyRows(blk, k - 1))
  }

  ghost function BlockRows(blk: Block): seq<Row>
    requires blk.active != []
  {
    FirstRows(blk) + ComplementRows(blk) + Transitions(blk, blk.Days()) + Closures(blk, blk.Days()) + EndRows(blk)
  }

  // ----- columns -----

  ghost function RunColumn(blk: Block): Col { Col(0.0, blk.MaxLength() as real, 0.0, false) }

  ghost function ClosureColumns(blk: Block, k: nat): (cols: seq<Col>)
    ensures |cols| == if k <= 1 then 0 else 2 * (k - 1)
  {
    if k <= 1 then []
    else
      ClosureColumns(blk, k - 1) +
      [Col(0.0, 1.0, 0.0, false), Col(0.0, MaxClosed(blk.b, blk.MaxLength() + 1) as real, 1.0, false)]
  }

  ghost function BlockCols(blk: Block): (cols: seq<Col>)
    requires blk.active != []
    ensures |cols| == blk.Width()
  {
    [RunColumn(blk)] +
    (if blk.HistoryCost() != 0 then [Col(0.0, 1.0, blk.HistoryCost() as real, false)] else []) +
    seq(blk.Days() - 1, d => RunColumn(blk)) +
    ClosureColumns(blk, blk.Days()) +
    [Col(0.0, MaxEnd(blk.b, blk.MaxLength() + 1) as real, 1.0, false)]
  }

  // ----- the builder -----

  method LargestCosts(b: Bounds, maxLength: nat) returns (closed: int, end: int)
    ensures closed == MaxClosed(b, maxLength + 1) && end == MaxEnd(b, maxLength + 1)
  {
    closed, end := 0, 0;
    for length := 0 to maxLength + 1
      invariant closed == MaxClosed(b, length) && end == MaxEnd(b, length)
    {
      closed := Larger(closed, Larger(0, Larger(Under(b, length), Over(b, length))));
      end := Larger(end, MaxCost(length, b));
    }
  }

  method AddFirstDay(blk: Block, model: ModelBuilder)
    requires model.Valid() && blk.active != [] && blk.base == |model.cols|
    modifies model
    ensures model.Valid()
    ensures model.cols == old(model.cols) + [RunColumn(blk)] +
      (if blk.HistoryCost() != 0 then [Col(0.0, 1.0, blk.HistoryCost() as real, false)] else [])
    ensures model.Rows() == old(model.Rows()) + (FirstRows(blk) + ComplementRows(blk))
  {
    var length := if blk.historyActive then blk.historyLength + 1 else 1;
    var run := model.AddCol(0.0, blk.MaxLength() as real, 0.0, false);
    model.AddRow([(run, -1.0), (blk.active[0], length as real)], At(0.0), At(0.0));
    model.AddRow([(run, 1.0), (blk.active[0], -(length as real))], At(0.0), At(0.0));
    if blk.HistoryCost() != 0 {
      var complement := model.AddCol(0.0, 1.0, blk.HistoryCost() as real, false);
      model.AddRow([(complement, 1.0), (blk.active[0], 1.0)], At(1.0), At(1.0));
    }
  }

  method AddTransition(blk: Block, d: nat, model: ModelBuilder)
    requires model.Valid() && 0 < d < blk.Days() && |model.cols| == blk.RunCol(d)
    modifies model
    ensures model.Valid() && model.cols == old(model.cols) + [RunColumn(blk)]
    ensures model.Rows() == old(model.Rows()) + TransitionRows(blk, d)
  {
    var m, len := (blk.MaxLength() + 1) as real, blk.MaxLength() as real;
    var before, now, was := blk.RunCol(d - 1), blk.active[d], blk.active[d - 1];
    ghost var rows := TransitionRows(blk, d);
    var run := model.AddCol(0.0, len, 0.0, false);
    model.AddRow([(run, 1.0), (now, -len)], NoBound, At(0.0));
    model.AddRow([(run, 1.0), (before, -1.0), (now, m), (was, m)], NoBound, At(1.0 + 2.0 * m));
    assert model.Rows() == old(model.Rows()) + [rows[0], rows[1]];
    model.AddRow([(run, 1.0), (before, -1.0), (now, -m), (was, -m)], At(1.0 - 2.0 * m), NoBound);
    assert model.Rows() == old(model.Rows()) + [rows[0], rows[1], rows[2]];
    model.AddRow([(run, 1.0), (now, -m), (was, m)], At(1.0 - m), NoBound);
    model.AddRow([(run, 1.0), (now, m), (was, -m)], NoBound, At(1.0 + m));
  }

  method AddClosure(blk: Block, d: nat, maxClosed: int, model: ModelBuilder)
    requires model.Valid() && 0 < d < blk.Days() && |model.cols| == blk.CloseCol(d)
    modifies model
    ensures model.Valid()
    ensures model.cols == old(model.cols) + [Col(0.0, 1.0, 0.0, false), Col(0.0, maxClosed as real, 1.0, false)]
    ensures model.Rows() == old(model.Rows()) + (CloseRows(blk, d) + PenaltyRows(blk, d))
  {
    var w, release := blk.b.weight as real, (blk.b.weight * blk.MaxLength()) as real;
    var run, now, was := blk.RunCol(d - 1), blk.active[d], blk.active[d - 1];
    ghost var closing := CloseRows(blk, d);
    var close := model.AddCol(0.0, 1.0, 0.0, false);
    model.AddRow([(close, 1.0), (was, -1.0)], NoBound, At(0.0));
    model.AddRow([(close, 1.0), (now, 1.0)], NoBound, At(1.0));
    model.AddRow([(close, 1.0), (was, -1.0), (now, 1.0)], At(0.0), NoBound);
    assert model.Rows() == old(model.Rows()) + closing;
    var penalty := model.AddCol(0.0, maxClosed as real, 1.0, false);
    model.AddRow([(penalty, 1.0), (run, -w), (close, -release)], At((-blk.b.max * blk.b.weight) as real - release), NoBound);
    model.AddRow([(penalty, 1.0), (run, w), (close, -release)], At((blk.b.min * blk.b.weight) as real - release), NoBound);
  }

  method AddEnd(blk: Block, maxEnd: int, model: ModelBuilder)
    requires model.Valid() && blk.active != [] && |model.cols| == blk.EndCol()
    requires maxEnd == MaxEnd(blk.b, blk.MaxLength() + 1)
    modifies model
    ensures model.Valid() && model.cols == old(model.cols) + [Col(0.0, maxEnd as real, 1.0, false)]
    ensures model.Rows() == old(model.Rows()) + EndRows(blk)
  {
    var w, release := blk.b.weight as real, (blk.b.weight * blk.MaxLength()) as real;
    var last, run := blk.active[blk.Days() - 1], blk.RunCol(blk.Days() - 1);
    var end := model.AddCol(0.0, maxEnd as real, 1.0, false);
    model.AddRow([(end, 1.0), (run, -w), (last, -release)], At((-blk.b.max * blk.b.weight) as real - release), NoBound);
    model.AddRow([(end, 1.0), (last, -(maxEnd as real))], NoBound, At(0.0));
  }

  method AddTransitions(blk: Block, model: ModelBuilder)
    requires model.Valid() && blk.active != [] && |model.cols| == blk.RunCol(1)
    modifies model
    ensures model.Valid() && model.cols == old(model.cols) + seq(blk.Days() - 1, i => RunColumn(blk))
    ensures model.Rows() == old(model.Rows()) + Transitions(blk, blk.Days())
  {
    for d := 1 to blk.Days()
      invariant model.Valid() && model.cols == old(model.cols) + seq(d - 1, i => RunColumn(blk))
      invariant model.Rows() == old(model.Rows()) + Transitions(blk, d)
    {
      AddTransition(blk, d, model);
    }
  }

  lemma ClosureStep(blk: Block, d: nat, cols: seq<Col>, cols0: seq<Col>, rows: seq<Row>, rows0: seq<Row>)
    requires 0 < d < blk.Days()
    requires cols == cols0 + ClosureColumns(blk, d) && rows == rows0 + Closures(blk, d)
    ensures cols0 + ClosureColumns(blk, d + 1) ==
      cols + [Col(0.0, 1.0, 0.0, false), Col(0.0, MaxClosed(blk.b, blk.MaxLength() + 1) as real, 1.0, false)]
    ensures rows0 + Closures(blk, d + 1) == rows + (CloseRows(blk, d) + PenaltyRows(blk, d))
  {
  }

  method AddClosures(blk: Block, maxClosed: int, model: ModelBuilder)
    requires model.Valid() && blk.active != [] && |model.cols| == blk.base + blk.Extra() + blk.Days()
    requires maxClosed == MaxClosed(blk.b, blk.MaxLength() + 1)
    modifies model
    ensures model.Valid() && model.cols == old(model.cols) + ClosureColumns(blk, blk.Days())
    ensures model.Rows() == old(model.Rows()) + Closures(blk, blk.Days())
  {
    for d := 1 to blk.Days()
      invariant model.Valid() && model.cols == old(model.cols) + ClosureColumns(blk, d)
      invariant model.Rows() == old(model.Rows()) + Closures(blk, d)
    {
      ClosureStep(blk, d, model.cols, old(model.cols), model.Rows(), old(model.Rows()));
      AddClosure(blk, d, maxClosed, model);
    }
  }

  lemma Assembled(blk: Block, cols0: seq<Col>, cols: seq<Col>, rows0: seq<Row>, rows: seq<Row>)
    requires blk.active != []
    requires cols == cols0 + [RunColumn(blk)] +
      (if blk.HistoryCost() != 0 then [Col(0.0, 1.0, blk.HistoryCost() as real, false)] else []) +
      seq(blk.Days() - 1, i => RunColumn(blk))
    requires rows == rows0 + (FirstRows(blk) + ComplementRows(blk)) + Transitions(blk, blk.Days())
    ensures cols0 + BlockCols(blk) ==
      cols + ClosureColumns(blk, blk.Days()) + [Col(0.0, MaxEnd(blk.b, blk.MaxLength() + 1) as real, 1.0, false)]
    ensures rows0 + BlockRows(blk) == rows + Closures(blk, blk.Days()) + EndRows(blk)
  {
  }

  method AddRunLengthCosts(blk: Block, model: ModelBuilder)
    requires model.Valid() && blk.base == |model.cols|
    modifies model
    ensures model.Valid()
    ensures blk.active == [] ==> model.cols == old(model.cols) && model.Rows() == old(model.Rows())
    ensures blk.active != [] ==> model.cols == old(model.cols) + BlockCols(blk)
    ensures blk.active != [] ==> model.Rows() == old(model.Rows()) + BlockRows(blk)
  {
    if blk.active == [] { return; }
    var maxClosed, maxEnd := LargestCosts(blk.b, blk.MaxLength());
    AddFirstDay(blk, model);
    AddTransitions(blk, model);
    ghost var cols, rows := model.cols, model.Rows();
    Assembled(blk, old(model.cols), cols, old(model.Rows()), rows);
    AddClosures(blk, maxClosed, model);
    AddEnd(blk, maxEnd, model);
  }
}
