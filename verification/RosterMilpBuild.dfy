// Emitting the rostering program column by column and row by row, as the MILP adapter does.
module RosterMilpBuild {
  import opened Wrappers
  import opened Milp
  import opened MilpParts
  import opened RosterRunMilp
  import opened RosterModel
  import opened RosterSlots
  import opened RosterConflicts
  import opened RosterCoverage
  import opened RosterMilp

  // The model grew by exactly this part.
  ghost predicate Grown(p: Part, cols0: seq<Col>, rows0: seq<Row>, cols: seq<Col>, rows: seq<Row>) {
    cols == cols0 + p.cols && rows == rows0 + p.rows
  }

  lemma GrownThen(p: Part, q: Part, cols0: seq<Col>, rows0: seq<Row>, cols1: seq<Col>, rows1: seq<Row>,
                  cols: seq<Col>, rows: seq<Row>)
    requires Grown(p, cols0, rows0, cols1, rows1) && Grown(q, cols1, rows1, cols, rows)
    ensures Grown(Then(p, q), cols0, rows0, cols, rows)
  {
  }

  // ----- assignments and coverage -----

  method CountRequests(requests: seq<DayRequest>, n: nat, g: nat, t: nat) returns (count: nat)
    ensures count == RequestCount(requests, n, g, t)
  {
    count := 0;
    for q := 0 to |requests|
      invariant count == RequestCount(requests[..q], n, g, t)
    {
      assert requests[..q + 1][..q] == requests[..q];
      var r := requests[q];
      if r.nurse == n && r.globalDay == g && (r.shiftType.None? || r.shiftType.value == t) { count := count + 1; }
    }
    assert requests[..|requests|] == requests;
  }

  ghost function Plain(): Col { Col(0.0, 1.0, 0.0, true) }

  // Request costs are in place for the demands before j and, for j itself, before position q.
  ghost predicate PricedTo(l: Layout, cols: seq<Col>, j: nat, q: nat)
    requires PairsInRange(l)
  {
    |l.pairs| <= |cols| &&
    forall p | 0 <= p < |l.pairs| :: cols[p] == if PricedPair(l, j, q, p) then AssignCol(l, p) else Plain()
  }

  ghost predicate PricedPair(l: Layout, j: nat, q: nat, p: nat)
    requires p < |l.pairs|
  {
    l.pairs[p].demand < j || (l.pairs[p].demand == j && p < q)
  }

  method AddAssignments(l: Layout, model: ModelBuilder)
    requires model.Valid() && model.cols == [] && PairsInRange(l)
    modifies model
    ensures model.Valid() && model.Rows() == old(model.Rows())
    ensures |model.cols| == |l.pairs| && PricedTo(l, model.cols, 0, 0)
  {
    for p := 0 to |l.pairs|
      invariant model.Valid() && model.Rows() == old(model.Rows())
      invariant |model.cols| == p && forall i | 0 <= i < p :: model.cols[i] == Plain()
    {
      var _ := model.AddCol(0.0, 1.0, 0.0, true);
    }
  }

  // Shift-off costs on the assignment columns of one demand.
  method PriceDemand(l: Layout, requests: seq<DayRequest>, j: nat, model: ModelBuilder)
    requires model.Valid() && PairsInRange(l) && requests == Requests(l.inst) && j < |l.demands|
    requires PricedTo(l, model.cols, j, 0)
    modifies model`cols
    ensures model.Valid() && model.Rows() == old(model.Rows())
    ensures PricedTo(l, model.cols, j + 1, 0)
    ensures |model.cols| == |old(model.cols)| && model.cols[|l.pairs|..] == old(model.cols)[|l.pairs|..]
  {
    for p := 0 to |l.pairs|
      invariant model.Valid() && model.Rows() == old(model.Rows())
      invariant PricedTo(l, model.cols, j, p)
      invariant |model.cols| == |old(model.cols)| && model.cols[|l.pairs|..] == old(model.cols)[|l.pairs|..]
    {
      if l.pairs[p].demand == j {
        var d := l.demands[j];
        var count := CountRequests(requests, l.pairs[p].nurse, GlobalDay(d), d.shiftType);
        model.AddCost(p, (10 * count) as real);
      }
    }
  }

  ghost predicate Servable(l: Layout, j: nat) {
    exists p :: 0 <= p < |l.pairs| && l.pairs[p].demand == j
  }

  // Fails on a demand that nobody may serve.
  method AddDemand(l: Layout, requests: seq<DayRequest>, j: nat, model: ModelBuilder) returns (served: bool)
    requires model.Valid() && PairsInRange(l) && requests == Requests(l.inst) && j < |l.demands|
    requires PricedTo(l, model.cols, j, 0) && model.cols[|l.pairs|..] == CoverCols(l, j)
    modifies model
    ensures served <==> Servable(l, j)
    ensures served ==>
      && model.Valid() && PricedTo(l, model.cols, j + 1, 0) && model.cols[|l.pairs|..] == CoverCols(l, j + 1)
      && model.Rows() == old(model.Rows()) + DemandRows(l, j)
  {
    var candidates := Select(ForDemand(l, j), |l.pairs|);
    WhereMembers(ForDemand(l, j), |l.pairs|);
    if candidates == [] {
      forall p | 0 <= p < |l.pairs| ensures l.pairs[p].demand != j {
        assert p !in candidates;
      }
      return false;
    }
    assert candidates[0] in candidates;
    var d := l.demands[j];
    var least, most := d.minimum as real, d.optimal as real;
    model.AddRow(Terms(candidates, 1.0), At(least), At(most));
    var uncovered := model.AddCol(0.0, most, 30.0, false);
    assert uncovered == |l.pairs| + j;
    model.AddRow([(uncovered, 1.0)] + Terms(candidates, 1.0), At(most), At(most));
    assert model.Rows() == old(model.Rows()) + DemandRows(l, j);
    assert model.cols[|l.pairs|..] == CoverCols(l, j) + [CoverCol(l, j)];
    PriceDemand(l, requests, j, model);
    assert CoverCols(l, j + 1) == CoverCols(l, j) + [CoverCol(l, j)];
    return true;
  }

  lemma {:induction false} WhereMembers(f: nat -> bool, k: nat)
    ensures forall p: nat :: p in Where(f, k) <==> p < k && f(p)
  {
    if k > 0 { WhereMembers(f, k - 1); }
  }

  method AddCoverage(l: Layout, model: ModelBuilder) returns (r: Result<bool, nat>)
    requires model.Valid() && PairsInRange(l) && |model.cols| == |l.pairs| && PricedTo(l, model.cols, 0, 0)
    modifies model
    ensures r.Err? ==> r.error < |l.demands| && !Servable(l, r.error)
    ensures r.Ok? ==> forall j | 0 <= j < |l.demands| :: Servable(l, j)
    ensures r.Ok? ==>
      && model.Valid() && model.cols == AssignPart(l).cols + CoverPart(l).cols
      && model.Rows() == old(model.Rows()) + CoverPart(l).rows
  {
    var requests := Requests(l.inst);
    for j := 0 to |l.demands|
      invariant model.Valid() && PricedTo(l, model.cols, j, 0) && model.cols[|l.pairs|..] == CoverCols(l, j)
      invariant model.Rows() == old(model.Rows()) + CoverRows(l, j)
      invariant forall i | 0 <= i < j :: Servable(l, i)
    {
      var served := AddDemand(l, requests, j, model);
      if !served { return Err(j); }
    }
    assert model.cols[..|l.pairs|] == AssignPart(l).cols;
    return Ok(true);
  }

  // ----- indicators -----

  lemma FreeConcat(a: nat, b: nat)
    ensures Free(a) + Free(b) == Free(a + b)
  {
  }

  method AddTypes(l: Layout, n: nat, g: nat, model: ModelBuilder)
    requires model.Valid() && |model.cols| == l.CellCol(n, g) + 1
    modifies model
    ensures model.Valid() && model.cols == old(model.cols) + Free(l.Types())
    ensures model.Rows() == old(model.Rows()) + TypeRows(l, n, g, l.Types())
  {
    for t := 0 to l.Types()
      invariant model.Valid() && model.cols == old(model.cols) + Free(t)
      invariant model.Rows() == old(model.Rows()) + TypeRows(l, n, g, t)
    {
      var group := Select(InType(l, n, g, t), |l.pairs|);
      var col := model.AddCol(0.0, 1.0, 0.0, false);
      model.AddRow([(col, 1.0)] + Terms(group, -1.0), At(0.0), At(0.0));
      assert TypeRows(l, n, g, t + 1) == TypeRows(l, n, g, t) + [TypeRow(l, n, g, t)];
    }
  }

  method AddCell(l: Layout, n: nat, g: nat, model: ModelBuilder)
    requires model.Valid() && |model.cols| == l.CellCol(n, g)
    modifies model
    ensures model.Valid() && model.cols == old(model.cols) + Free(1 + l.Types())
    ensures model.Rows() == old(model.Rows()) + ([WorkRow(l, n, g)] + TypeRows(l, n, g, l.Types()))
  {
    var group := Select(OnDay(l, n, g), |l.pairs|);
    var work := model.AddCol(0.0, 1.0, 0.0, false);
    model.AddRow([(work, 1.0)] + Terms(group, -1.0), At(0.0), At(0.0));
    AddTypes(l, n, g, model);
    FreeConcat(1, l.Types());
    assert Free(1) == [Col(0.0, 1.0, 0.0, false)];
  }

  lemma CellStep(l: Layout, n: nat, g: nat)
    ensures l.CellCol(n, g + 1) == l.CellCol(n, g) + (1 + l.Types())
    ensures (g + 1) * (1 + l.Types()) == g * (1 + l.Types()) + (1 + l.Types())
  {
    var k := 1 + l.Types();
    assert (n * l.Days() + g + 1) * k == (n * l.Days() + g) * k + k;
  }

  lemma NurseStep(l: Layout, n: nat)
    ensures l.CellCol(n + 1, 0) == l.CellCol(n, l.Days())
    ensures (n + 1) * l.Days() * (1 + l.Types()) == n * l.Days() * (1 + l.Types()) + l.Days() * (1 + l.Types())
  {
    assert (n + 1) * l.Days() == n * l.Days() + l.Days();
  }

  method AddNurseCells(l: Layout, n: nat, model: ModelBuilder)
    requires model.Valid() && |model.cols| == l.CellCol(n, 0)
    modifies model
    ensures model.Valid() && model.cols == old(model.cols) + Free(l.Days() * (1 + l.Types()))
    ensures model.Rows() == old(model.Rows()) + CellRows(l, n, l.Days())
  {
    for g := 0 to l.Days()
      invariant model.Valid() && |model.cols| == l.CellCol(n, g)
      invariant model.cols == old(model.cols) + Free(g * (1 + l.Types()))
      invariant model.Rows() == old(model.Rows()) + CellRows(l, n, g)
    {
      CellStep(l, n, g);
      FreeConcat(g * (1 + l.Types()), 1 + l.Types());
      AddCell(l, n, g, model);
    }
  }

  method AddCells(l: Layout, model: ModelBuilder)
    requires model.Valid() && |model.cols| == l.CellBase()
    modifies model
    ensures model.Valid() && |model.cols| == l.CellsEnd()
    ensures Grown(CellsPart(l), old(model.cols), old(model.Rows()), model.cols, model.Rows())
  {
    for n := 0 to |l.inst.nurses|
      invariant model.Valid() && |model.cols| == l.CellCol(n, 0)
      invariant model.cols == old(model.cols) + Free(n * l.Days() * (1 + l.Types()))
      invariant model.Rows() == old(model.Rows()) + AllCellRows(l, n)
    {
      NurseStep(l, n);
      FreeConcat(n * l.Days() * (1 + l.Types()), l.Days() * (1 + l.Types()));
      AddNurseCells(l, n, model);
    }
  }

  // ----- successions -----

  method AddSuccessors(l: Layout, n: nat, g: nat, entry: (nat, seq<nat>), model: ModelBuilder)
    requires model.Valid()
    modifies model
    ensures model.Valid() && model.cols == old(model.cols)
    ensures model.Rows() == old(model.Rows()) + SuccessorRows(l, n, g, entry, |entry.1|)
  {
    for k := 0 to |entry.1|
      invariant model.Valid() && model.cols == old(model.cols)
      invariant model.Rows() == old(model.Rows()) + SuccessorRows(l, n, g, entry, k)
    {
      model.AddRow([(l.TypeCol(n, g, entry.0), 1.0), (l.TypeCol(n, g + 1, entry.1[k]), 1.0)], NoBound, At(1.0));
    }
  }

  method AddTable(l: Layout, n: nat, g: nat, model: ModelBuilder)
    requires model.Valid()
    modifies model
    ensures model.Valid() && model.cols == old(model.cols)
    ensures model.Rows() == old(model.Rows()) + TableRows(l, n, g, |l.inst.forbidden|)
  {
    for i := 0 to |l.inst.forbidden|
      invariant model.Valid() && model.cols == old(model.cols)
      invariant model.Rows() == old(model.Rows()) + TableRows(l, n, g, i)
    {
      AddSuccessors(l, n, g, l.inst.forbidden[i], model);
    }
  }

  method AddNurseSuccessions(l: Layout, n: nat, model: ModelBuilder)
    requires model.Valid() && l.Days() > 0
    modifies model
    ensures model.Valid() && model.cols == old(model.cols)
    ensures model.Rows() == old(model.Rows()) + DaySuccessions(l, n, l.Gaps())
  {
    for g := 0 to l.Gaps()
      invariant model.Valid() && model.cols == old(model.cols)
      invariant model.Rows() == old(model.Rows()) + DaySuccessions(l, n, g)
    {
      AddTable(l, n, g, model);
    }
  }

  method AddSuccessions(l: Layout, model: ModelBuilder)
    requires model.Valid() && l.Days() > 0
    modifies model
    ensures model.Valid()
    ensures Grown(SuccessionPart(l), old(model.cols), old(model.Rows()), model.cols, model.Rows())
  {
    for n := 0 to |l.inst.nurses|
      invariant model.Valid() && model.cols == old(model.cols)
      invariant model.Rows() == old(model.Rows()) + AllSuccessions(l, n)
    {
      AddNurseSuccessions(l, n, model);
    }
    assert model.cols == old(model.cols) + [];
  }

  // ----- one nurse -----

  method AddBounds(l: Layout, n: nat, model: ModelBuilder)
    requires model.Valid() && NurseOk(l, n)
    modifies model
    ensures model.Valid()
    ensures Grown(BoundsPart(l, n, |old(model.cols)|), old(model.cols), old(model.Rows()), model.cols, model.Rows())
  {
    var c, h := l.inst.ContractOf(n), l.inst.history[n];
    var mine := Select(Mine(l, n), |l.pairs|);
    var upper := (h.assignments + l.Days()) as real;
    var under := model.AddCol(0.0, upper, 20.0, false);
    model.AddRow([(under, 1.0)] + Terms(mine, 1.0), At((c.minAssignments - h.assignments) as real), NoBound);
    var over := model.AddCol(0.0, upper, 20.0, false);
    model.AddRow([(over, -1.0)] + Terms(mine, 1.0), NoBound, At((c.maxAssignments - h.assignments) as real));
  }

  method AddBlock(blk: Block, model: ModelBuilder)
    requires model.Valid() && blk.active != [] && blk.base == |model.cols|
    modifies model
    ensures model.Valid()
    ensures Grown(BlockPart(blk), old(model.cols), old(model.Rows()), model.cols, model.Rows())
  {
    AddRunLengthCosts(blk, model);
  }

  method AddOpposites(l: Layout, n: nat, model: ModelBuilder)
    requires model.Valid()
    modifies model
    ensures model.Valid()
    ensures Grown(OppositePart(l, n, |old(model.cols)|), old(model.cols), old(model.Rows()), model.cols, model.Rows())
  {
    ghost var at := |model.cols|;
    for g := 0 to l.Days()
      invariant model.Valid() && model.cols == old(model.cols) + Free(g)
      invariant model.Rows() == old(model.Rows()) + OppositeRows(l, n, at, g)
    {
      var source := l.CellCol(n, g);
      var complement := model.AddCol(0.0, 1.0, 0.0, false);
      model.AddRow([(complement, 1.0), (source, 1.0)], At(1.0), At(1.0));
      model.AddRow([(complement, -1.0), (source, -1.0)], At(-1.0), At(-1.0));
    }
  }

  method AddOff(l: Layout, n: nat, model: ModelBuilder)
    requires model.Valid() && NurseOk(l, n) && l.Days() > 0
    modifies model
    ensures model.Valid()
    ensures Grown(OffPart(l, n, |old(model.cols)|), old(model.cols), old(model.Rows()), model.cols, model.Rows())
  {
    ghost var at := |model.cols|;
    var first := |model.cols|;
    AddOpposites(l, n, model);
    AddBlock(OffBlock(l, n, first), model);
  }

  // One more of the parts laid out after one another.
  lemma GrownLaid(make: (nat, nat) -> Part, k: nat, cols0: seq<Col>, rows0: seq<Row>, cols1: seq<Col>, rows1: seq<Row>,
                  cols: seq<Col>, rows: seq<Row>)
    requires Grown(Laid(make, k, |cols0|), cols0, rows0, cols1, rows1)
    requires Grown(make(k, |cols1|), cols1, rows1, cols, rows)
    ensures Grown(Laid(make, k + 1, |cols0|), cols0, rows0, cols, rows)
  {
    GrownThen(Laid(make, k, |cols0|), make(k, |cols1|), cols0, rows0, cols1, rows1, cols, rows);
  }

  lemma GrownNone(make: (nat, nat) -> Part, cols: seq<Col>, rows: seq<Row>)
    ensures Grown(Laid(make, 0, |cols|), cols, rows, cols, rows)
  {
  }

  method AddType(l: Layout, n: nat, t: nat, model: ModelBuilder)
    requires model.Valid() && NurseOk(l, n) && l.Days() > 0 && t < l.Types()
    modifies model
    ensures model.Valid()
    ensures Grown(TypeMaker(l, n)(t, |old(model.cols)|), old(model.cols), old(model.Rows()), model.cols, model.Rows())
  {
    AddBlock(TypeBlock(l, n, t, |model.cols|), model);
  }

  method AddTypeBlocks(l: Layout, n: nat, model: ModelBuilder)
    requires model.Valid() && NurseOk(l, n) && l.Days() > 0
    modifies model
    ensures model.Valid()
    ensures Grown(TypesPart(l, n, |old(model.cols)|), old(model.cols), old(model.Rows()), model.cols, model.Rows())
  {
    ghost var make, cols0, rows0 := TypeMaker(l, n), model.cols, model.Rows();
    GrownNone(make, cols0, rows0);
    for t := 0 to l.Types()
      invariant model.Valid()
      invariant Grown(Laid(make, t, |cols0|), cols0, rows0, model.cols, model.Rows())
    {
      ghost var cols1, rows1 := model.cols, model.Rows();
      AddType(l, n, t, model);
      GrownLaid(make, t, cols0, rows0, cols1, rows1, model.cols, model.Rows());
    }
  }

  method AddWeek(l: Layout, n: nat, w: nat, model: ModelBuilder)
    requires model.Valid() && NurseOk(l, n)
    modifies model
    ensures model.Valid()
    ensures Grown(WeekPart(l, n, w, |old(model.cols)|), old(model.cols), old(model.Rows()), model.cols, model.Rows())
  {
    var saturday, sunday := l.CellCol(n, 7 * w + 5), l.CellCol(n, 7 * w + 6);
    var weekend := model.AddCol(0.0, 1.0, 0.0, false);
    model.AddRow([(weekend, -1.0), (saturday, 1.0)], NoBound, At(0.0));
    model.AddRow([(weekend, -1.0), (sunday, 1.0)], NoBound, At(0.0));
    if l.inst.ContractOf(n).completeWeekends {
      var incomplete := model.AddCol(0.0, 1.0, 30.0, false);
      model.AddRow([(incomplete, -1.0), (saturday, 1.0), (sunday, -1.0)], NoBound, At(0.0));
      model.AddRow([(incomplete, -1.0), (saturday, -1.0), (sunday, 1.0)], NoBound, At(0.0));
    }
  }

  method AddWeekends(l: Layout, n: nat, model: ModelBuilder)
    requires model.Valid() && NurseOk(l, n)
    modifies model
    ensures model.Valid()
    ensures Grown(WeekendPart(l, n, |old(model.cols)|), old(model.cols), old(model.Rows()), model.cols, model.Rows())
  {
    var c, h, weeks, first := l.inst.ContractOf(n), l.inst.history[n], |l.inst.weeks|, |model.cols|;
    ghost var cols0, rows0 := model.cols, model.Rows();
    var weekends: seq<nat> := [];
    for w := 0 to weeks
      invariant model.Valid() && weekends == WeekendColumns(first, w, WeekWidth(c))
      invariant Grown(WeeksPart(l, n, w, |cols0|), cols0, rows0, model.cols, model.Rows())
    {
      ghost var cols1, rows1 := model.cols, model.Rows();
      weekends := weekends + [|model.cols|];
      AddWeek(l, n, w, model);
      GrownThen(WeeksPart(l, n, w, |cols0|), WeekPart(l, n, w, |cols1|), cols0, rows0, cols1, rows1, model.cols, model.Rows());
    }
    ghost var cols1, rows1 := model.cols, model.Rows();
    var over := model.AddCol(0.0, (weeks + h.weekends) as real, 30.0, false);
    model.AddRow([(over, -1.0)] + Terms(weekends, 1.0), NoBound, At((c.maxWeekends - h.weekends) as real));
    GrownThen(WeeksPart(l, n, weeks, |cols0|), CapPart(l, n, |cols0|, |cols1|), cols0, rows0, cols1, rows1,
              model.cols, model.Rows());
  }

  // The stage's own method.
  method AddStage(l: Layout, n: nat, k: nat, model: ModelBuilder)
    requires model.Valid() && NurseOk(l, n) && l.Days() > 0
    modifies model
    ensures model.Valid()
    ensures Grown(StageMaker(l, n)(k, |old(model.cols)|), old(model.cols), old(model.Rows()), model.cols, model.Rows())
  {
    match k {
      case 0 => AddBounds(l, n, model);
      case 1 => AddBlock(WorkBlock(l, n, |model.cols|), model);
      case 2 => AddOff(l, n, model);
      case 3 => AddTypeBlocks(l, n, model);
      case _ => AddWeekends(l, n, model);
    }
  }

  method AddNurse(l: Layout, n: nat, model: ModelBuilder)
    requires model.Valid() && NurseOk(l, n) && l.Days() > 0
    modifies model
    ensures model.Valid()
    ensures Grown(NursePart(l, n, |old(model.cols)|), old(model.cols), old(model.Rows()), model.cols, model.Rows())
  {
    ghost var make, cols0, rows0 := StageMaker(l, n), model.cols, model.Rows();
    GrownNone(make, cols0, rows0);
    for k := 0 to 5
      invariant model.Valid()
      invariant Grown(Laid(make, k, |cols0|), cols0, rows0, model.cols, model.Rows())
    {
      ghost var cols1, rows1 := model.cols, model.Rows();
      AddStage(l, n, k, model);
      GrownLaid(make, k, cols0, rows0, cols1, rows1, model.cols, model.Rows());
    }
  }

  method AddNurses(l: Layout, model: ModelBuilder)
    requires model.Valid() && l.inst.WellFormed()
    modifies model
    ensures model.Valid()
    ensures Grown(NursesPart(l, |old(model.cols)|), old(model.cols), old(model.Rows()), model.cols, model.Rows())
  {
    ghost var make, cols0, rows0 := NurseMaker(l), model.cols, model.Rows();
    GrownNone(make, cols0, rows0);
    for n := 0 to |l.inst.nurses|
      invariant model.Valid()
      invariant Grown(Laid(make, n, |cols0|), cols0, rows0, model.cols, model.Rows())
    {
      ghost var cols1, rows1 := model.cols, model.Rows();
      AddNurse(l, n, model);
      GrownLaid(make, n, cols0, rows0, cols1, rows1, model.cols, model.Rows());
    }
  }

  // ----- the model -----

  method AddIndicators(l: Layout, model: ModelBuilder)
    requires model.Valid() && PairsInRange(l) && l.Days() > 0
    requires Grown(Then(AssignPart(l), CoverPart(l)), [], [], model.cols, model.Rows())
    modifies model
    ensures model.Valid() && |model.cols| == l.CellsEnd()
    ensures Grown(SharedPart(l), [], [], model.cols, model.Rows())
  {
    ghost var start, cols1, rows1 := Then(AssignPart(l), CoverPart(l)), model.cols, model.Rows();
    AddCells(l, model);
    ghost var cols2, rows2 := model.cols, model.Rows();
    GrownThen(start, CellsPart(l), [], [], cols1, rows1, cols2, rows2);
    AddSuccessions(l, model);
    GrownThen(Then(start, CellsPart(l)), SuccessionPart(l), [], [], cols2, rows2, model.cols, model.Rows());
  }

  // Builds the program, or names a demand that no nurse may serve.
  method BuildModel(inst: Instance) returns (r: Result<(Layout, ModelBuilder), Need>)
    requires inst.WellFormed()
    ensures r.Ok? ==>
      var (l, model) := r.value;
      && fresh(model) && model.Valid() && LayoutFor(inst, l)
      && model.cols == ModelPart(l).cols && model.Rows() == ModelPart(l).rows
    ensures r.Ok? <==> Buildable(inst)
    ensures r.Err? ==> FromNeed(Needs(inst), r.error) && Unservable(inst, r.error)
  {
    var slots := GenerateSlots(inst);
    var demands := BuildCoverage(slots);
    var pairs := BuildPairs(inst, demands);
    var l := Layout(inst, demands, pairs);
    PairsAreInRange(l);
    CoverageMeaning(inst, demands);
    var model := new ModelBuilder();
    AddAssignments(l, model);
    var covered := AddCoverage(l, model);
    if covered.Err? {
      ServableExact(l, covered.error);
      RefusedNeed(inst, demands[covered.error]);
      return Err(demands[covered.error]);
    }
    AllServable(l);
    AddIndicators(l, model);
    ghost var cols3, rows3 := model.cols, model.Rows();
    AddNurses(l, model);
    GrownThen(SharedPart(l), NursesPart(l, l.CellsEnd()), [], [], cols3, rows3, model.cols, model.Rows());
    return Ok((l, model));
  }

  // The layout the program is built on.
  ghost predicate LayoutFor(inst: Instance, l: Layout) {
    && inst.WellFormed() && l.inst == inst && PairsInRange(l) && CoverageOf(Slots(Needs(inst)), l.demands)
    && l.pairs == AllPairs(inst, l.demands, |l.demands|)
  }

  // Nobody has the skill and may start with the type.
  ghost predicate Unservable(inst: Instance, need: Need)
    requires |inst.nurses| == |inst.history|
  {
    forall n: nat | n < |inst.nurses| :: !IsCandidate(inst, DemandSlot(need), n)
  }

  lemma ServableExact(l: Layout, j: nat)
    requires LayoutFor(l.inst, l) && j < |l.demands|
    ensures Servable(l, j) <==> !Unservable(l.inst, l.demands[j])
  {
    AllPairsMeaning(l.inst, l.demands, |l.demands|);
    if Servable(l, j) {
      var p :| 0 <= p < |l.pairs| && l.pairs[p].demand == j;
      assert l.pairs[p] in l.pairs;
    }
    if n: nat :| n < |l.inst.nurses| && IsCandidate(l.inst, DemandSlot(l.demands[j]), n) {
      assert Pair(j, n) in l.pairs;
    }
  }

  // Somebody may serve every need that asks for nurses, be it met at the minimum or not.
  ghost predicate Buildable(inst: Instance)
    requires |inst.nurses| == |inst.history|
  {
    forall i | 0 <= i < |Needs(inst)| && Needs(inst)[i].optimal > 0 :: !Unservable(inst, Needs(inst)[i])
  }

  lemma RefusedNeed(inst: Instance, d: Need)
    requires |inst.nurses| == |inst.history| && FromNeed(Needs(inst), d) && Unservable(inst, d)
    ensures !Buildable(inst)
  {
    var needs := Needs(inst);
    var i :| 0 <= i < |needs| && needs[i].optimal > 0 && DemandFor(needs[i]) == d;
    assert DemandSlot(needs[i]) == DemandSlot(d);
  }

  lemma AllServable(l: Layout)
    requires LayoutFor(l.inst, l) && CoverageIs(Needs(l.inst), l.demands) && forall j | 0 <= j < |l.demands| :: Servable(l, j)
    ensures Buildable(l.inst)
  {
    var needs := Needs(l.inst);
    forall i | 0 <= i < |needs| && needs[i].optimal > 0 ensures !Unservable(l.inst, needs[i]) {
      assert DemandFor(needs[i]) in l.demands;
      var j :| 0 <= j < |l.demands| && l.demands[j] == DemandFor(needs[i]);
      ServableExact(l, j);
      assert DemandSlot(needs[i]) == DemandSlot(l.demands[j]);
    }
  }
}
