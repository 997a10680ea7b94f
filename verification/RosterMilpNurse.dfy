// One nurse's stages of the rostering program: the least cost of each is what the validator
// charges for the rule and what leaks through the run rows, whatever the nurse works. Only
// missing assignments may not fit their column.
module RosterMilpNurse {
  import opened Milp
  import opened MilpParts
  import opened RosterRuns
  import opened RosterRunMilp
  import opened RosterRunExact
  import opened RosterRunOptimum
  import opened RosterModel
  import opened RosterParity
  import opened RosterMilp
  import opened RosterMilpShared

  // ----- run-length blocks as parts -----

  lemma {:induction false} TransitionsLookBack(blk: Block, k: nat)
    requires blk.Ok() && k <= blk.Days()
    ensures LooksBack(Transitions(blk, k), blk.base + blk.Width())
  {
    if k > 1 {
      TransitionsLookBack(blk, k - 1);
      TransitionLooksBack(blk, k - 1);
      LooksBackConcat(Transitions(blk, k - 1), TransitionRows(blk, k - 1), blk.base + blk.Width());
    }
  }

  lemma TransitionLooksBack(blk: Block, d: nat)
    requires blk.Ok() && 0 < d < blk.Days()
    ensures LooksBack(TransitionRows(blk, d), blk.base + blk.Width())
  {
    assert blk.active[d] < blk.base && blk.active[d - 1] < blk.base;
  }

  lemma {:induction false} ClosuresLookBack(blk: Block, k: nat)
    requires blk.Ok() && k <= blk.Days()
    ensures LooksBack(Closures(blk, k), blk.base + blk.Width())
  {
    if k > 1 {
      ClosuresLookBack(blk, k - 1);
      ClosureLooksBack(blk, k - 1);
      LooksBackConcat(CloseRows(blk, k - 1), PenaltyRows(blk, k - 1), blk.base + blk.Width());
      LooksBackConcat(Closures(blk, k - 1), CloseRows(blk, k - 1) + PenaltyRows(blk, k - 1), blk.base + blk.Width());
    }
  }

  lemma ClosureLooksBack(blk: Block, d: nat)
    requires blk.Ok() && 0 < d < blk.Days()
    ensures LooksBack(CloseRows(blk, d), blk.base + blk.Width()) && LooksBack(PenaltyRows(blk, d), blk.base + blk.Width())
  {
    assert blk.active[d] < blk.base && blk.active[d - 1] < blk.base;
  }

  lemma EdgesLookBack(blk: Block)
    requires blk.Ok()
    ensures LooksBack(FirstRows(blk), blk.base + blk.Width()) && LooksBack(ComplementRows(blk), blk.base + blk.Width())
    ensures LooksBack(EndRows(blk), blk.base + blk.Width())
  {
    assert blk.active[0] < blk.base && blk.active[blk.Days() - 1] < blk.base;
  }

  lemma BlockLooksBack(blk: Block)
    requires blk.Ok()
    ensures LooksBack(BlockRows(blk), blk.base + blk.Width())
  {
    var n := blk.base + blk.Width();
    var f, c, t, k, e := FirstRows(blk), ComplementRows(blk), Transitions(blk, blk.Days()), Closures(blk, blk.Days()),
                         EndRows(blk);
    EdgesLookBack(blk);
    TransitionsLookBack(blk, blk.Days());
    ClosuresLookBack(blk, blk.Days());
    LooksBackConcat(f, c, n);
    LooksBackConcat(f + c, t, n);
    LooksBackConcat(f + c + t, k, n);
    LooksBackConcat(f + c + t + k, e, n);
  }

  lemma {:induction false} ClosureContinuous(blk: Block, k: nat)
    ensures forall i | 0 <= i < |ClosureColumns(blk, k)| :: !ClosureColumns(blk, k)[i].integer
  {
    if k > 1 { ClosureContinuous(blk, k - 1); }
  }

  // No column of a block is declared integer.
  lemma BlockContinuous(blk: Block)
    requires blk.active != []
    ensures forall i | 0 <= i < |BlockCols(blk)| :: !BlockCols(blk)[i].integer
  {
    ClosureContinuous(blk, blk.Days());
  }

  // The columns of the block show the activity.
  ghost predicate Shows(blk: Block, act: Activity, v: seq<real>) {
    blk.Ok() && |act| == blk.Days() &&
    forall d | 0 <= d < blk.Days() :: ShowsDay(blk.active[d], act[d], v)
  }

  ghost predicate ShowsDay(c: nat, worked: bool, v: seq<real>) { c < |v| && v[c] == Bit(worked) }

  lemma BlockCovers(blk: Block, act: Activity, v: seq<real>)
    requires Shows(blk, act, v) && PartOk(BlockPart(blk), blk.base, v) && blk.b.min <= blk.b.max
    ensures PartCost(BlockPart(blk), blk.base, v) >= BlockLeast(blk, act) as real
  {
    ShownPoint(blk, act, v);
    forall i | 0 <= i < blk.Width() ensures WithinCol(BlockCols(blk)[i], v, blk.base + i) {
      assert ColOk(BlockCols(blk)[i], v[blk.base + i]);
    }
    BlockCostCovers(blk, v);
    BlockObjective(blk, v);
  }

  lemma ShownPoint(blk: Block, act: Activity, v: seq<real>)
    requires Shows(blk, act, v) && blk.base + blk.Width() <= |v|
    ensures Point(blk, v) && ActOf(blk, v) == act
  {
    forall d | 0 <= d < blk.Days() ensures BinaryCol(v, blk.active[d]) && act[d] == (v[blk.active[d]] == 1.0) {
      assert ShowsDay(blk.active[d], act[d], v);
    }
    assert blk.Ok() && Point(blk, v);
    assert ActOf(blk, v) == act;
  }

  lemma BlockAttained(blk: Block, act: Activity, u: seq<real>) returns (v: seq<real>)
    requires Shows(blk, act, u) && |u| == blk.base && blk.b.min <= blk.b.max
    ensures u <= v && |v| == |u| + |BlockPart(blk).cols| && PartOk(BlockPart(blk), |u|, v)
    ensures PartCost(BlockPart(blk), |u|, v) == BlockLeast(blk, act) as real
    ensures LooksBack(BlockPart(blk).rows, |v|)
  {
    v := u + BlockValues(blk, act);
    forall d | 0 <= d < blk.Days() ensures BinaryCol(u, blk.active[d]) && act[d] == (u[blk.active[d]] == 1.0) {
      assert ShowsDay(blk.active[d], act[d], u);
    }
    BlockCostAttained(blk, u, act, v);
    BlockContinuous(blk);
    BlockObjective(blk, v);
    BlockLooksBack(blk);
    forall i | 0 <= i < blk.Width() ensures ColOk(BlockCols(blk)[i], v[blk.base + i]) {
      assert WithinCol(BlockCols(blk)[i], v, blk.base + i);
    }
  }

  // ----- what the exact cost needs -----

  // Bounds in order, no negative maximum.
  ghost predicate Regular(inst: Instance) {
    && (forall c | 0 <= c < |inst.contracts| :: RegularContract(inst.contracts[c]))
    && (forall t | 0 <= t < |inst.shiftTypes| :: inst.shiftTypes[t].minConsecutive <= inst.shiftTypes[t].maxConsecutive)
  }

  ghost predicate RegularContract(c: Contract) {
    && c.minAssignments <= c.maxAssignments && 0 <= c.maxAssignments && 0 <= c.maxWeekends
    && c.minWork <= c.maxWork && c.minOff <= c.maxOff
  }

  // No minimum run is longer than horizon and history together.
  ghost predicate MinimaFit(inst: Instance)
    requires inst.WellFormed()
  {
    forall n: nat | n < |inst.nurses| :: MinimaFitNurse(inst, n)
  }

  ghost predicate MinimaFitNurse(inst: Instance, n: nat)
    requires inst.WellFormed() && n < |inst.nurses|
  {
    var c, h, days := inst.ContractOf(n), inst.history[n], inst.TotalDays();
    && c.minWork <= days + h.work && c.minOff <= days + h.off
    && forall t | 0 <= t < |inst.shiftTypes| :: inst.shiftTypes[t].minConsecutive <= days + h.sameType
  }

  // The nurse's missing assignments fit their column: history and horizon together.
  ghost predicate MissingFits(c: Contract, h: History, days: nat, count: nat) {
    c.minAssignments - h.assignments - count <= h.assignments + days
  }

  ghost predicate NurseFits(inst: Instance, roster: Roster, n: nat)
    requires inst.WellFormed() && n < |inst.nurses|
  {
    var act := Worked(roster, n);
    MissingFits(inst.ContractOf(n), inst.history[n], inst.TotalDays(), Count(act, |act|))
  }

  // No nurse of the roster is short of more assignments than the columns hold.
  ghost predicate ShortagesFit(inst: Instance, roster: Roster)
    requires inst.WellFormed()
  {
    forall n: nat | n < |inst.nurses| :: NurseFits(inst, roster, n)
  }

  // What the validator charges the nurse, stage by stage.
  ghost function StageCost(inst: Instance, roster: Roster, n: nat, k: nat): int
    requires inst.WellFormed() && n < |inst.nurses|
  {
    var c, h, act := inst.ContractOf(n), inst.history[n], Worked(roster, n);
    match k
    case 0 => AssignmentCost(Count(act, |act|) + h.assignments, c)
    case 1 => RunCost(act, InitialWork(h), WorkBounds(c))
    case 2 => RunCost(Complement(act), InitialOff(h), OffBounds(c))
    case 3 => TypeCosts(inst, roster, n, |inst.shiftTypes|)
    case _ => WeekendStage(act, |roster|, c, h)
  }

  // What the program charges beyond that: the leaks of the three kinds of runs.
  ghost function StageExcess(inst: Instance, roster: Roster, n: nat, k: nat): nat
    requires inst.WellFormed() && n < |inst.nurses|
  {
    var c, h, act := inst.ContractOf(n), inst.history[n], Worked(roster, n);
    match k
    case 1 => Excess(act, InitialWork(h), WorkBounds(c), h.work)
    case 2 => Excess(Complement(act), InitialOff(h), OffBounds(c), h.off)
    case 3 => TypeExcesses(inst, roster, n, |inst.shiftTypes|)
    case _ => 0
  }

  ghost function TypeExcess(t: ShiftType, h: History, id: nat, act: Activity): nat {
    Excess(act, InitialType(h, id), TypeBounds(t), h.sameType)
  }

  ghost function TypePrice(t: ShiftType, h: History, id: nat, act: Activity): int {
    TypeCost(t, h, id, act) + TypeExcess(t, h, id, act)
  }

  ghost function TypeExcesses(inst: Instance, roster: Roster, n: nat, t: nat): nat
    requires n < |inst.history| && t <= |inst.shiftTypes|
  {
    if t == 0 then 0
    else TypeExcesses(inst, roster, n, t - 1) +
         TypeExcess(inst.shiftTypes[t - 1], inst.history[n], t - 1, WorkedType(roster, n, t - 1))
  }

  ghost function NurseExcess(inst: Instance, roster: Roster, n: nat): nat
    requires inst.WellFormed() && n < |inst.nurses|
  {
    StageExcess(inst, roster, n, 1) + StageExcess(inst, roster, n, 2) + StageExcess(inst, roster, n, 3)
  }

  ghost function NurseExcesser(inst: Instance, roster: Roster): nat -> int {
    (n: nat) => if inst.WellFormed() && n < |inst.nurses| then NurseExcess(inst, roster, n) else 0
  }

  // What the program charges for a roster beyond the validator.
  ghost function RosterExcess(inst: Instance, roster: Roster): int {
    Total(NurseExcesser(inst, roster), |inst.nurses|)
  }

  ghost function StagePrice(inst: Instance, roster: Roster, n: nat, k: nat): int
    requires inst.WellFormed() && n < |inst.nurses|
  {
    StageCost(inst, roster, n, k) + StageExcess(inst, roster, n, k)
  }

  // ----- nothing leaks while the minimum runs fit -----

  lemma {:induction false} TypesFree(inst: Instance, roster: Roster, n: nat, t: nat)
    requires inst.WellFormed() && n < |inst.nurses| && t <= |inst.shiftTypes| && MinimaFitNurse(inst, n)
    requires |roster| == |inst.weeks|
    ensures TypeExcesses(inst, roster, n, t) == 0
  {
    if t > 0 {
      TypesFree(inst, roster, n, t - 1);
      var h, act := inst.history[n], WorkedType(roster, n, t - 1);
      NoLeaks(act, InitialType(h, t - 1), TypeBounds(inst.shiftTypes[t - 1]), |act| + h.sameType, |act|);
    }
  }

  lemma NurseFree(inst: Instance, roster: Roster, n: nat)
    requires inst.WellFormed() && n < |inst.nurses| && MinimaFitNurse(inst, n) && |roster| == |inst.weeks|
    ensures NurseExcess(inst, roster, n) == 0
  {
    var c, h, act := inst.ContractOf(n), inst.history[n], Worked(roster, n);
    NoLeaks(act, InitialWork(h), WorkBounds(c), |act| + h.work, |act|);
    NoLeaks(Complement(act), InitialOff(h), OffBounds(c), |act| + h.off, |act|);
    TypesFree(inst, roster, n, |inst.shiftTypes|);
  }

  // The excess is the sum of what leaks; while every minimum run fits there is none.
  lemma ExcessSign(inst: Instance, roster: Roster)
    requires inst.WellFormed() && |roster| == |inst.weeks|
    ensures RosterExcess(inst, roster) >= 0
    ensures MinimaFit(inst) ==> RosterExcess(inst, roster) == 0
  {
    TotalSign(NurseExcesser(inst, roster), |inst.nurses|);
    if MinimaFit(inst) {
      forall n: nat | n < |inst.nurses| ensures NurseExcesser(inst, roster)(n) == 0 {
        NurseFree(inst, roster, n);
      }
    }
  }

  ghost function WeekendStage(act: Activity, weeks: nat, c: Contract, h: History): int
    requires 7 * weeks <= |act|
  {
    WeekendCost(h.weekends + Weekends(act, weeks), c) + (if c.completeWeekends then 30 * Splits(act, weeks) else 0)
  }

  lemma StagesAddUp(inst: Instance, roster: Roster, n: nat)
    requires inst.WellFormed() && n < |inst.nurses|
    ensures var c, types := CostsOf(inst, roster, n), TypeCosts(inst, roster, n, |inst.shiftTypes|);
      StageCost(inst, roster, n, 0) + StageCost(inst, roster, n, 1) + StageCost(inst, roster, n, 2) +
      StageCost(inst, roster, n, 3) + StageCost(inst, roster, n, 4) ==
      c.assignments + c.work + c.off + types + c.weekends + c.split
  {
    var c, h, act := inst.ContractOf(n), inst.history[n], Worked(roster, n);
    assert StageCost(inst, roster, n, 4) == WeekendStage(act, |roster|, c, h);
  }

  // ----- what the stages see of the shared columns -----

  ghost predicate WorkVisible(l: Layout, n: nat, act: Activity, v: seq<real>) {
    |act| == l.Days() && forall g: nat | g < l.Days() :: WorkDay(l, n, act, v, g)
  }

  ghost predicate WorkDay(l: Layout, n: nat, act: Activity, v: seq<real>, g: nat)
    requires g < |act|
  {
    ShowsDay(l.CellCol(n, g), act[g], v)
  }

  ghost predicate TypeVisible(l: Layout, n: nat, t: nat, act: Activity, v: seq<real>) {
    |act| == l.Days() && forall g: nat | g < l.Days() :: TypeDay(l, n, t, act, v, g)
  }

  ghost predicate TypeDay(l: Layout, n: nat, t: nat, act: Activity, v: seq<real>, g: nat)
    requires g < |act|
  {
    ShowsDay(l.TypeCol(n, g, t), act[g], v)
  }

  lemma WorkSeen(l: Layout, x: Choice, v: seq<real>, n: nat)
    requires Env(l, x, v) && n < |l.inst.nurses|
    ensures WorkVisible(l, n, Worked(RosterOf(l, x), n), v)
  {
    forall g: nat | g < l.Days() ensures WorkDay(l, n, Worked(RosterOf(l, x), n), v, g) {
      assert CellInRange(l, v, n, g) && EntryRight(l, x, v, n, g);
    }
  }

  lemma TypeSeen(l: Layout, x: Choice, v: seq<real>, n: nat, t: nat)
    requires Env(l, x, v) && n < |l.inst.nurses| && t < l.Types()
    ensures TypeVisible(l, n, t, WorkedType(RosterOf(l, x), n, t), v)
  {
    forall g: nat | g < l.Days() ensures TypeDay(l, n, t, WorkedType(RosterOf(l, x), n, t), v, g) {
      assert CellInRange(l, v, n, g) && EntryRight(l, x, v, n, g);
    }
  }

  lemma MineIsCount(l: Layout, x: Choice, n: nat)
    requires Ready(l) && |x| == |l.pairs| && Once(l, x)
    ensures CountIs(l, x, n, Worked(RosterOf(l, x), n))
  {
    var slots, nurses, weeks := PairSlots(l), PairNurses(l, x), |l.inst.weeks|;
    ChosenMine(l, x, n, |x|);
    WorkedIsPresent(slots, nurses, weeks, n);
    ItemsAreDays(slots, nurses, weeks, n, |x|);
  }

  ghost predicate CountIs(l: Layout, x: Choice, n: nat, act: Activity) {
    |x| == |l.pairs| && |act| == l.Days() && Chosen(x, Mine(l, n), |x|) == Count(act, |act|)
  }

  lemma VisibleMore(l: Layout, n: nat, act: Activity, u: seq<real>, v: seq<real>)
    requires WorkVisible(l, n, act, u) && u <= v
    ensures WorkVisible(l, n, act, v)
  {
    forall g: nat | g < l.Days() ensures WorkDay(l, n, act, v, g) {
      assert WorkDay(l, n, act, u, g);
    }
  }

  // ----- assignment bounds -----

  lemma {:induction false} CountBound(act: Activity, k: nat)
    requires k <= |act|
    ensures Count(act, k) <= k
  {
    if k > 0 { CountBound(act, k - 1); }
  }

  // The two rows: missing and surplus assignments are covered.
  ghost predicate BoundsHold(c: Contract, h: History, at: nat, count: nat, v: seq<real>)
    requires at + 1 < |v|
  {
    && (c.minAssignments - h.assignments - count) as real <= v[at]
    && (h.assignments + count - c.maxAssignments) as real <= v[at + 1]
  }

  lemma BoundsMeaning(l: Layout, x: Choice, n: nat, at: nat, v: seq<real>)
    requires NurseOk(l, n) && |x| == |l.pairs| && Carries(v, x) && at + 1 < |v|
    ensures RowsHold(BoundsPart(l, n, at).rows, v) <==>
      BoundsHold(l.inst.ContractOf(n), l.inst.history[n], at, Chosen(x, Mine(l, n), |x|), v)
  {
    var rows, chosen := BoundsPart(l, n, at).rows, Chosen(x, Mine(l, n), |x|);
    DotLed((at, 1.0), Mine(l, n), |x|, 1.0, x, v);
    DotLed((at + 1, -1.0), Mine(l, n), |x|, 1.0, x, v);
    assert Scale(1.0, chosen) == chosen as real;
    assert RowsHold(rows, v) <==> RowHolds(rows[0], v) && RowHolds(rows[1], v);
  }

  lemma BoundsCost(l: Layout, n: nat, at: nat, v: seq<real>)
    requires NurseOk(l, n) && at + 1 < |v|
    ensures PartCost(BoundsPart(l, n, at), at, v) == 20.0 * v[at] + 20.0 * v[at + 1]
  {
    var cols := BoundsPart(l, n, at).cols;
    assert ObjectiveFrom(cols, v, at, 0) == 0.0;
    assert ObjectiveFrom(cols, v, at, 1) == cols[0].cost * v[at];
  }

  lemma BoundsCovers(l: Layout, x: Choice, n: nat, act: Activity, at: nat, v: seq<real>)
    requires NurseOk(l, n) && CountIs(l, x, n, act) && Carries(v, x) && PartOk(BoundsPart(l, n, at), at, v)
    ensures PartCost(BoundsPart(l, n, at), at, v) >=
      AssignmentCost(Count(act, |act|) + l.inst.history[n].assignments, l.inst.ContractOf(n)) as real
  {
    BoundsUnsigned(l, n, at, v);
    BoundsMeaning(l, x, n, at, v);
    BoundsCost(l, n, at, v);
    BoundsLeast(l.inst.ContractOf(n), l.inst.history[n], at, Count(act, |act|), v);
  }

  lemma BoundsUnsigned(l: Layout, n: nat, at: nat, v: seq<real>)
    requires NurseOk(l, n) && PartOk(BoundsPart(l, n, at), at, v)
    ensures at + 1 < |v| && v[at] >= 0.0 && v[at + 1] >= 0.0
  {
    var p := BoundsPart(l, n, at);
    assert ColOk(p.cols[0], v[at + 0]) && ColOk(p.cols[1], v[at + 1]);
  }

  lemma BoundsLeast(c: Contract, h: History, at: nat, count: nat, v: seq<real>)
    requires at + 1 < |v| && v[at] >= 0.0 && v[at + 1] >= 0.0 && BoundsHold(c, h, at, count, v)
    ensures 20.0 * v[at] + 20.0 * v[at + 1] >= AssignmentCost(count + h.assignments, c) as real
  {
  }

  // Missing and surplus assignments.
  function Missing(total: int, c: Contract): int { if total < c.minAssignments then c.minAssignments - total else 0 }

  function Surplus(total: int, c: Contract): int { if total > c.maxAssignments then total - c.maxAssignments else 0 }

  lemma BoundsAttained(l: Layout, x: Choice, n: nat, act: Activity, u: seq<real>) returns (v: seq<real>)
    requires l.inst.WellFormed() && n < |l.inst.nurses| && RegularContract(l.inst.ContractOf(n))
    requires MissingFits(l.inst.ContractOf(n), l.inst.history[n], l.Days(), Count(act, |act|))
    requires CountIs(l, x, n, act) && Carries(u, x) && NurseOk(l, n)
    ensures u <= v && |v| == |u| + 2 && PartOk(BoundsPart(l, n, |u|), |u|, v)
    ensures PartCost(BoundsPart(l, n, |u|), |u|, v) ==
      AssignmentCost(Count(act, |act|) + l.inst.history[n].assignments, l.inst.ContractOf(n)) as real
    ensures LooksBack(BoundsPart(l, n, |u|).rows, |v|)
  {
    var c, total := l.inst.ContractOf(n), Count(act, |act|) + l.inst.history[n].assignments;
    v := u + [Missing(total, c) as real, Surplus(total, c) as real];
    CountBound(act, |act|);
    BoundsMeaning(l, x, n, |u|, v);
    BoundsCost(l, n, |u|, v);
    BoundsFit(l, n, |u|, total, v);
    BoundsLookBack(l, n, |u|);
  }

  lemma BoundsFit(l: Layout, n: nat, at: nat, total: nat, v: seq<real>)
    requires NurseOk(l, n) && at + 2 == |v| && RegularContract(l.inst.ContractOf(n))
    requires Missing(total, l.inst.ContractOf(n)) <= l.inst.history[n].assignments + l.Days()
    requires l.inst.history[n].assignments <= total <= l.inst.history[n].assignments + l.Days()
    requires v[at] == Missing(total, l.inst.ContractOf(n)) as real && v[at + 1] == Surplus(total, l.inst.ContractOf(n)) as real
    ensures ColsOk(BoundsPart(l, n, at).cols, at, v)
    ensures 20.0 * v[at] + 20.0 * v[at + 1] == AssignmentCost(total, l.inst.ContractOf(n)) as real
  {
  }

  lemma SumLooksBack(l: Layout, f: nat -> bool, coef: real, n: nat)
    requires |l.pairs| <= n
    ensures EntriesIn(Sum(l, f, coef), n)
  {
  }

  lemma BoundsLookBack(l: Layout, n: nat, at: nat)
    requires NurseOk(l, n) && |l.pairs| <= at
    ensures LooksBack(BoundsPart(l, n, at).rows, at + 2)
  {
    SumLooksBack(l, Mine(l, n), 1.0, at + 2);
  }

  // ----- runs of work and of types -----

  lemma ContractMaxima(inst: Instance, n: nat)
    requires inst.WellFormed() && n < |inst.nurses|
    ensures inst.ContractOf(n).maxWork >= 0 && inst.ContractOf(n).maxOff >= 0 && inst.TotalDays() > 0
  {
  }

  lemma WorkShown(l: Layout, n: nat, act: Activity, v: seq<real>, at: nat)
    requires l.inst.WellFormed() && n < |l.inst.nurses| && WorkVisible(l, n, act, v) && l.CellsEnd() <= at
    ensures Shows(WorkBlock(l, n, at), act, v)
  {
    var blk := WorkBlock(l, n, at);
    forall g: nat | g < l.Days() ensures blk.active[g] < at && ShowsDay(blk.active[g], act[g], v) {
      CellInside(l, n, g);
      assert WorkDay(l, n, act, v, g);
    }
    ContractMaxima(l.inst, n);
  }

  lemma TypeShown(l: Layout, n: nat, t: nat, act: Activity, v: seq<real>, at: nat)
    requires l.inst.WellFormed() && n < |l.inst.nurses| && t < l.Types() && TypeVisible(l, n, t, act, v) && l.CellsEnd() <= at
    ensures Shows(TypeBlock(l, n, t, at), act, v)
  {
    var blk := TypeBlock(l, n, t, at);
    forall g: nat | g < l.Days() ensures blk.active[g] < at && ShowsDay(blk.active[g], act[g], v) {
      CellInside(l, n, g);
      assert TypeDay(l, n, t, act, v, g);
    }
    ContractMaxima(l.inst, n);
  }

  // ----- runs of days off -----

  ghost predicate OppositeRight(l: Layout, n: nat, at: nat, v: seq<real>, g: nat) {
    at + g < |v| && l.CellCol(n, g) < |v| && v[at + g] == 1.0 - v[l.CellCol(n, g)]
  }

  ghost predicate OppositesRight(l: Layout, n: nat, at: nat, v: seq<real>, g: nat) {
    forall i: nat | i < g :: OppositeRight(l, n, at, v, i)
  }

  lemma {:induction false} OppositesMeaning(l: Layout, n: nat, at: nat, v: seq<real>, g: nat)
    requires at + g <= |v| && forall i: nat | i < g :: l.CellCol(n, i) < |v|
    ensures RowsHold(OppositeRows(l, n, at, g), v) <==> OppositesRight(l, n, at, v, g)
  {
    if g > 0 {
      OppositesMeaning(l, n, at, v, g - 1);
      var two := [Row([(at + g - 1, 1.0), (l.CellCol(n, g - 1), 1.0)], At(1.0), At(1.0)),
                  Row([(at + g - 1, -1.0), (l.CellCol(n, g - 1), -1.0)], At(-1.0), At(-1.0))];
      RowsHoldConcat(OppositeRows(l, n, at, g - 1), two, v);
      OppositeRow(at + g - 1, l.CellCol(n, g - 1), v);
      assert RowsHold(two, v) <==> OppositeRight(l, n, at, v, g - 1);
    }
  }

  lemma OppositeRow(c: nat, source: nat, v: seq<real>)
    requires c < |v| && source < |v|
    ensures RowsHold([Row([(c, 1.0), (source, 1.0)], At(1.0), At(1.0)), Row([(c, -1.0), (source, -1.0)], At(-1.0), At(-1.0))], v)
      <==> v[c] == 1.0 - v[source]
  {
    var rows := [Row([(c, 1.0), (source, 1.0)], At(1.0), At(1.0)), Row([(c, -1.0), (source, -1.0)], At(-1.0), At(-1.0))];
    RowTwo((c, 1.0), (source, 1.0), At(1.0), At(1.0), v);
    RowTwo((c, -1.0), (source, -1.0), At(-1.0), At(-1.0), v);
    assert RowsHold(rows, v) <==> RowHolds(rows[0], v) && RowHolds(rows[1], v);
  }

  lemma OppositeShown(c: nat, source: nat, worked: bool, v: seq<real>)
    requires ShowsDay(source, worked, v) && c < |v| && v[c] == 1.0 - v[source]
    ensures ShowsDay(c, !worked, v)
  {
  }

  lemma OffShown(l: Layout, n: nat, act: Activity, v: seq<real>, at: nat)
    requires l.inst.WellFormed() && n < |l.inst.nurses| && WorkVisible(l, n, act, v) && OppositesRight(l, n, at, v, l.Days())
    ensures Shows(OffBlock(l, n, at), Complement(act), v)
  {
    var blk := OffBlock(l, n, at);
    forall g: nat | g < l.Days() ensures blk.active[g] < blk.base && ShowsDay(blk.active[g], Complement(act)[g], v) {
      assert OppositeRight(l, n, at, v, g) && WorkDay(l, n, act, v, g);
      OppositeShown(at + g, l.CellCol(n, g), act[g], v);
    }
    ContractMaxima(l.inst, n);
  }

  lemma VisibleColumns(l: Layout, n: nat, act: Activity, v: seq<real>)
    requires WorkVisible(l, n, act, v)
    ensures forall g: nat | g < l.Days() :: l.CellCol(n, g) < |v|
  {
    forall g: nat | g < l.Days() ensures l.CellCol(n, g) < |v| {
      assert WorkDay(l, n, act, v, g);
    }
  }

  lemma OffCovers(l: Layout, n: nat, act: Activity, at: nat, v: seq<real>)
    requires l.inst.WellFormed() && n < |l.inst.nurses| && WorkVisible(l, n, act, v)
    requires l.Days() > 0 && NurseOk(l, n) && RegularContract(l.inst.ContractOf(n))
    requires PartOk(OffPart(l, n, at), at, v)
    ensures PartCost(OffPart(l, n, at), at, v) >= BlockLeast(OffBlock(l, n, at), Complement(act)) as real
  {
    var first, blk := OppositePart(l, n, at), OffBlock(l, n, at);
    ThenOk(first, BlockPart(blk), at, v);
    VisibleColumns(l, n, act, v);
    OppositesMeaning(l, n, at, v, l.Days());
    OffShown(l, n, act, v, at);
    BlockCovers(blk, Complement(act), v);
    ThenCost(first, BlockPart(blk), at, v);
    FreeColumns(first.cols, v, at, l.Days());
  }

  // Values of the complement columns.
  ghost function Opposites(act: Activity): (w: seq<real>)
    ensures |w| == |act| && forall g | 0 <= g < |w| :: w[g] == Bit(!act[g])
  {
    seq(|act|, g requires 0 <= g < |act| => Bit(!act[g]))
  }

  lemma OppositesOk(l: Layout, n: nat, act: Activity, u: seq<real>) returns (v: seq<real>)
    requires WorkVisible(l, n, act, u)
    ensures u <= v && |v| == |u| + l.Days() && PartOk(OppositePart(l, n, |u|), |u|, v)
    ensures OppositesRight(l, n, |u|, v, l.Days())
  {
    v := u + Opposites(act);
    forall g: nat | g < l.Days() ensures OppositeRight(l, n, |u|, v, g) && 0.0 <= v[|u| + g] <= 1.0 {
      assert WorkDay(l, n, act, u, g);
      assert v[|u| + g] == Opposites(act)[g];
    }
    VisibleColumns(l, n, act, u);
    OppositesMeaning(l, n, |u|, v, l.Days());
  }

  lemma {:induction false} OppositesLookBack(l: Layout, n: nat, at: nat, g: nat, m: nat)
    requires at + g <= m && forall i: nat | i < g :: l.CellCol(n, i) < m
    ensures LooksBack(OppositeRows(l, n, at, g), m)
  {
    if g > 0 { OppositesLookBack(l, n, at, g - 1, m); }
  }

  lemma OffAttained(l: Layout, n: nat, act: Activity, u: seq<real>) returns (v: seq<real>)
    requires l.inst.WellFormed() && n < |l.inst.nurses| && WorkVisible(l, n, act, u)
    requires l.Days() > 0 && NurseOk(l, n) && RegularContract(l.inst.ContractOf(n))
    ensures u <= v && |v| == |u| + |OffPart(l, n, |u|).cols| && PartOk(OffPart(l, n, |u|), |u|, v)
    ensures PartCost(OffPart(l, n, |u|), |u|, v) == BlockLeast(OffBlock(l, n, |u|), Complement(act)) as real
    ensures LooksBack(OffPart(l, n, |u|).rows, |v|)
  {
    var first, blk := OppositePart(l, n, |u|), OffBlock(l, n, |u|);
    var w := OppositesOk(l, n, act, u);
    VisibleMore(l, n, act, u, w);
    VisibleColumns(l, n, act, w);
    OppositesLookBack(l, n, |u|, l.Days(), |w|);
    OffShown(l, n, act, w, |u|);
    v := BlockAttained(blk, Complement(act), w);
    BothAttained(first, BlockPart(blk), u, w, v);
    FreeColumns(first.cols, v, |u|, l.Days());
  }
}
