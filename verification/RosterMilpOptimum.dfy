// The rostering program, exactly: its feasible points are the acceptable rosters that are drawn
// from the demands and whose shortages fit their columns, and the least objective over each
// roster is the validator's charge and what leaks through the run rows.
module RosterMilpOptimum {
  import opened Milp
  import opened MilpParts
  import opened RosterRuns
  import opened RosterModel
  import opened RosterMilp
  import opened RosterMilpShared
  import opened RosterMilpLegal
  import opened RosterMilpRoster
  import opened RosterMilpCost
  import opened RosterMilpNurse
  import opened RosterMilpWeekends

  // ----- what one nurse's stages rely on -----

  ghost predicate TypesVisible(l: Layout, roster: Roster, v: seq<real>, n: nat) {
    forall t: nat | t < l.Types() :: TypeVisible(l, n, t, WorkedType(roster, n, t), v)
  }

  // The columns before position |v| show the nurse's part of the roster.
  ghost predicate Seen(l: Layout, x: Choice, roster: Roster, v: seq<real>, n: nat) {
    && NurseOk(l, n) && l.Days() > 0 && l.CellsEnd() <= |v| && Carries(v, x)
    && CountIs(l, x, n, Worked(roster, n)) && WorkVisible(l, n, Worked(roster, n), v) && TypesVisible(l, roster, v, n)
  }

  lemma NurseReady(l: Layout, n: nat)
    requires l.inst.WellFormed() && n < |l.inst.nurses|
    ensures NurseOk(l, n) && l.Days() > 0
    ensures Regular(l.inst) ==> RegularContract(l.inst.ContractOf(n))
  {
  }

  lemma EnvSeen(l: Layout, x: Choice, v: seq<real>, n: nat)
    requires Env(l, x, v) && n < |l.inst.nurses|
    ensures Seen(l, x, RosterOf(l, x), v, n)
  {
    NurseReady(l, n);
    MineIsCount(l, x, n);
    WorkSeen(l, x, v, n);
    forall t: nat | t < l.Types() ensures TypeVisible(l, n, t, WorkedType(RosterOf(l, x), n, t), v) {
      TypeSeen(l, x, v, n, t);
    }
  }

  lemma TypeMore(l: Layout, n: nat, t: nat, act: Activity, u: seq<real>, v: seq<real>)
    requires TypeVisible(l, n, t, act, u) && u <= v
    ensures TypeVisible(l, n, t, act, v)
  {
    forall g: nat | g < l.Days() ensures TypeDay(l, n, t, act, v, g) {
      assert TypeDay(l, n, t, act, u, g);
    }
  }

  lemma SeenMore(l: Layout, x: Choice, roster: Roster, u: seq<real>, v: seq<real>, n: nat)
    requires Seen(l, x, roster, u, n) && u <= v
    ensures Seen(l, x, roster, v, n)
  {
    VisibleMore(l, n, Worked(roster, n), u, v);
    forall t: nat | t < l.Types() ensures TypeVisible(l, n, t, WorkedType(roster, n, t), v) {
      TypeMore(l, n, t, WorkedType(roster, n, t), u, v);
    }
  }

  // ----- shift types -----

  lemma TypeLeast(l: Layout, n: nat, t: nat, act: Activity, at: nat, v: seq<real>)
    requires l.inst.WellFormed() && n < |l.inst.nurses| && t < l.Types() && l.Days() > 0 && Regular(l.inst)
    requires TypeVisible(l, n, t, act, v) && l.CellsEnd() <= at
    ensures Least(BlockPart(TypeBlock(l, n, t, at)), at, v, TypePrice(l.inst.shiftTypes[t], l.inst.history[n], t, act))
  {
    TypeShown(l, n, t, act, v, at);
    if PartOk(BlockPart(TypeBlock(l, n, t, at)), at, v) { BlockCovers(TypeBlock(l, n, t, at), act, v); }
  }

  lemma TypeReached(l: Layout, n: nat, t: nat, act: Activity, u: seq<real>)
    requires l.inst.WellFormed() && n < |l.inst.nurses| && t < l.Types() && l.Days() > 0 && Regular(l.inst)
    requires TypeVisible(l, n, t, act, u) && l.CellsEnd() <= |u|
    ensures Reached(BlockPart(TypeBlock(l, n, t, |u|)), u, TypePrice(l.inst.shiftTypes[t], l.inst.history[n], t, act))
  {
    TypeShown(l, n, t, act, u, |u|);
    var v := BlockAttained(TypeBlock(l, n, t, |u|), act, u);
    assert Attains(BlockPart(TypeBlock(l, n, t, |u|)), u, v, TypePrice(l.inst.shiftTypes[t], l.inst.history[n], t, act));
  }

  ghost function TypePricer(l: Layout, roster: Roster, n: nat): nat -> int {
    (t: nat) =>
      if n < |l.inst.history| && t < l.Types() then TypePrice(l.inst.shiftTypes[t], l.inst.history[n], t, WorkedType(roster, n, t))
      else 0
  }

  lemma {:induction false} TypesTotal(l: Layout, roster: Roster, n: nat, t: nat)
    requires n < |l.inst.history| && t <= l.Types()
    ensures Total(TypePricer(l, roster, n), t) == TypeCosts(l.inst, roster, n, t) + TypeExcesses(l.inst, roster, n, t)
  {
    if t > 0 { TypesTotal(l, roster, n, t - 1); }
  }

  lemma TypesPriced(l: Layout, roster: Roster, n: nat)
    requires l.inst.WellFormed() && n < |l.inst.nurses|
    ensures Total(TypePricer(l, roster, n), l.Types()) == StagePrice(l.inst, roster, n, 3)
  {
    TypesTotal(l, roster, n, l.Types());
  }

  lemma TypeLeastFrom(l: Layout, roster: Roster, n: nat, t: nat, at: nat, v: seq<real>)
    requires l.inst.WellFormed() && n < |l.inst.nurses| && t < l.Types() && l.Days() > 0 && Regular(l.inst)
    requires TypesVisible(l, roster, v, n) && l.CellsEnd() <= at
    ensures LeastFrom(TypeMaker(l, n), t, at, v, TypePricer(l, roster, n)(t))
  {
    forall from: nat | at <= from ensures Least(TypeMaker(l, n)(t, from), from, v, TypePricer(l, roster, n)(t)) {
      TypeLeast(l, n, t, WorkedType(roster, n, t), from, v);
    }
  }

  lemma TypesLeast(l: Layout, roster: Roster, n: nat, at: nat, v: seq<real>)
    requires l.inst.WellFormed() && n < |l.inst.nurses| && l.Days() > 0 && Regular(l.inst)
    requires TypesVisible(l, roster, v, n) && l.CellsEnd() <= at
    ensures Least(TypesPart(l, n, at), at, v, Total(TypePricer(l, roster, n), l.Types()))
  {
    forall t: nat | t < l.Types() ensures LeastFrom(TypeMaker(l, n), t, at, v, TypePricer(l, roster, n)(t)) {
      TypeLeastFrom(l, roster, n, t, at, v);
    }
    LaidLeast(TypeMaker(l, n), l.Types(), at, v, TypePricer(l, roster, n));
  }

  lemma TypeReachedFrom(l: Layout, roster: Roster, n: nat, t: nat, u: seq<real>)
    requires l.inst.WellFormed() && n < |l.inst.nurses| && t < l.Types() && l.Days() > 0 && Regular(l.inst)
    requires TypesVisible(l, roster, u, n) && l.CellsEnd() <= |u|
    ensures ReachedFrom(TypeMaker(l, n), t, u, TypePricer(l, roster, n)(t))
  {
    forall w | u <= w ensures ReachedAt(TypeMaker(l, n), t, w, TypePricer(l, roster, n)(t)) {
      TypeMore(l, n, t, WorkedType(roster, n, t), u, w);
      TypeReached(l, n, t, WorkedType(roster, n, t), w);
    }
  }

  lemma TypesReached(l: Layout, roster: Roster, n: nat, u: seq<real>)
    requires l.inst.WellFormed() && n < |l.inst.nurses| && l.Days() > 0 && Regular(l.inst)
    requires TypesVisible(l, roster, u, n) && l.CellsEnd() <= |u|
    ensures Reached(TypesPart(l, n, |u|), u, Total(TypePricer(l, roster, n), l.Types()))
  {
    forall t: nat | t < l.Types() ensures ReachedFrom(TypeMaker(l, n), t, u, TypePricer(l, roster, n)(t)) {
      TypeReachedFrom(l, roster, n, t, u);
    }
    LaidReached(TypeMaker(l, n), l.Types(), u, TypePricer(l, roster, n));
  }

  // ----- stages -----

  lemma StageLeast(l: Layout, x: Choice, roster: Roster, n: nat, k: nat, at: nat, v: seq<real>)
    requires l.inst.WellFormed() && Regular(l.inst) && n < |l.inst.nurses| && |roster| == |l.inst.weeks|
    requires Seen(l, x, roster, v, n) && k < 5 && l.CellsEnd() <= at
    ensures Least(StagePart(l, n, k, at), at, v, StagePrice(l.inst, roster, n, k))
  {
    var act := Worked(roster, n);
    NurseReady(l, n);
    if k == 3 {
      TypesLeast(l, roster, n, at, v);
      TypesPriced(l, roster, n);
    } else if PartOk(StagePart(l, n, k, at), at, v) {
      match k {
        case 0 => BoundsCovers(l, x, n, act, at, v);
        case 1 =>
          WorkShown(l, n, act, v, at);
          BlockCovers(WorkBlock(l, n, at), act, v);
        case 2 => OffCovers(l, n, act, at, v);
        case _ => WeekendCovers(l, n, act, at, v);
      }
    }
  }

  lemma StageReached(l: Layout, x: Choice, roster: Roster, n: nat, k: nat, u: seq<real>)
    requires l.inst.WellFormed() && Regular(l.inst) && n < |l.inst.nurses| && |roster| == |l.inst.weeks|
    requires Seen(l, x, roster, u, n) && k < 5 && NurseFits(l.inst, roster, n)
    ensures Reached(StagePart(l, n, k, |u|), u, StagePrice(l.inst, roster, n, k))
  {
    NurseReady(l, n);
    if k == 3 {
      TypesReached(l, roster, n, u);
      TypesPriced(l, roster, n);
    } else {
      var v := StageAttained(l, x, roster, n, k, u);
    }
  }

  lemma StageAttained(l: Layout, x: Choice, roster: Roster, n: nat, k: nat, u: seq<real>) returns (v: seq<real>)
    requires l.inst.WellFormed() && Regular(l.inst) && n < |l.inst.nurses| && |roster| == |l.inst.weeks|
    requires Seen(l, x, roster, u, n) && k < 5 && k != 3 && NurseFits(l.inst, roster, n)
    ensures Attains(StagePart(l, n, k, |u|), u, v, StagePrice(l.inst, roster, n, k))
  {
    var act := Worked(roster, n);
    NurseReady(l, n);
    match k {
      case 0 => v := BoundsAttained(l, x, n, act, u);
      case 1 =>
        WorkShown(l, n, act, u, |u|);
        v := BlockAttained(WorkBlock(l, n, |u|), act, u);
      case 2 => v := OffAttained(l, n, act, u);
      case _ => v := WeekendAttained(l, n, act, u);
    }
  }

  ghost function StagePricer(inst: Instance, roster: Roster, n: nat): nat -> int {
    (k: nat) => if inst.WellFormed() && n < |inst.nurses| then StagePrice(inst, roster, n, k) else 0
  }

  // What the program charges for nurse n altogether.
  ghost function NursePricer(inst: Instance, roster: Roster): nat -> int {
    (n: nat) => Total(StagePricer(inst, roster, n), 5)
  }

  lemma StageLeastFrom(l: Layout, x: Choice, roster: Roster, n: nat, k: nat, at: nat, v: seq<real>)
    requires l.inst.WellFormed() && Regular(l.inst) && n < |l.inst.nurses| && |roster| == |l.inst.weeks|
    requires Seen(l, x, roster, v, n) && k < 5 && l.CellsEnd() <= at
    ensures LeastFrom(StageMaker(l, n), k, at, v, StagePricer(l.inst, roster, n)(k))
  {
    forall from: nat | at <= from ensures Least(StageMaker(l, n)(k, from), from, v, StagePricer(l.inst, roster, n)(k)) {
      StageLeast(l, x, roster, n, k, from, v);
    }
  }

  lemma NurseLeastFrom(l: Layout, x: Choice, roster: Roster, n: nat, at: nat, v: seq<real>)
    requires l.inst.WellFormed() && Regular(l.inst) && n < |l.inst.nurses| && |roster| == |l.inst.weeks|
    requires Seen(l, x, roster, v, n) && l.CellsEnd() <= at
    ensures LeastFrom(NurseMaker(l), n, at, v, NursePricer(l.inst, roster)(n))
  {
    forall from: nat | at <= from ensures Least(NurseMaker(l)(n, from), from, v, NursePricer(l.inst, roster)(n)) {
      forall k: nat | k < 5 ensures LeastFrom(StageMaker(l, n), k, from, v, StagePricer(l.inst, roster, n)(k)) {
        StageLeastFrom(l, x, roster, n, k, from, v);
      }
      LaidLeast(StageMaker(l, n), 5, from, v, StagePricer(l.inst, roster, n));
    }
  }

  lemma StageReachedFrom(l: Layout, x: Choice, roster: Roster, n: nat, k: nat, u: seq<real>)
    requires l.inst.WellFormed() && Regular(l.inst) && n < |l.inst.nurses| && |roster| == |l.inst.weeks|
    requires Seen(l, x, roster, u, n) && k < 5 && NurseFits(l.inst, roster, n)
    ensures ReachedFrom(StageMaker(l, n), k, u, StagePricer(l.inst, roster, n)(k))
  {
    forall w | u <= w ensures ReachedAt(StageMaker(l, n), k, w, StagePricer(l.inst, roster, n)(k)) {
      SeenMore(l, x, roster, u, w, n);
      StageReached(l, x, roster, n, k, w);
    }
  }

  lemma NurseReachedFrom(l: Layout, x: Choice, roster: Roster, n: nat, u: seq<real>)
    requires l.inst.WellFormed() && Regular(l.inst) && n < |l.inst.nurses| && |roster| == |l.inst.weeks|
    requires Seen(l, x, roster, u, n) && NurseFits(l.inst, roster, n)
    ensures ReachedFrom(NurseMaker(l), n, u, NursePricer(l.inst, roster)(n))
  {
    forall w | u <= w ensures ReachedAt(NurseMaker(l), n, w, NursePricer(l.inst, roster)(n)) {
      SeenMore(l, x, roster, u, w, n);
      forall k: nat | k < 5 ensures ReachedFrom(StageMaker(l, n), k, w, StagePricer(l.inst, roster, n)(k)) {
        StageReachedFrom(l, x, roster, n, k, w);
      }
      LaidReached(StageMaker(l, n), 5, w, StagePricer(l.inst, roster, n));
    }
  }

  // ----- nurses -----

  ghost predicate AllSeen(l: Layout, x: Choice, roster: Roster, v: seq<real>) {
    forall n: nat | n < |l.inst.nurses| :: Seen(l, x, roster, v, n)
  }

  ghost function PriceSum(inst: Instance, roster: Roster): int { Total(NursePricer(inst, roster), |inst.nurses|) }

  lemma NursesLeast(l: Layout, x: Choice, roster: Roster, at: nat, v: seq<real>)
    requires l.inst.WellFormed() && Regular(l.inst) && |roster| == |l.inst.weeks|
    requires AllSeen(l, x, roster, v) && l.CellsEnd() <= at
    ensures Least(NursesPart(l, at), at, v, PriceSum(l.inst, roster))
  {
    forall n: nat | n < |l.inst.nurses| ensures LeastFrom(NurseMaker(l), n, at, v, NursePricer(l.inst, roster)(n)) {
      NurseLeastFrom(l, x, roster, n, at, v);
    }
    LaidLeast(NurseMaker(l), |l.inst.nurses|, at, v, NursePricer(l.inst, roster));
  }

  lemma NursesReached(l: Layout, x: Choice, roster: Roster, u: seq<real>)
    requires l.inst.WellFormed() && Regular(l.inst) && |roster| == |l.inst.weeks|
    requires AllSeen(l, x, roster, u) && ShortagesFit(l.inst, roster)
    ensures Reached(NursesPart(l, |u|), u, PriceSum(l.inst, roster))
  {
    forall n: nat | n < |l.inst.nurses| ensures ReachedFrom(NurseMaker(l), n, u, NursePricer(l.inst, roster)(n)) {
      assert Seen(l, x, roster, u, n) && NurseFits(l.inst, roster, n);
      NurseReachedFrom(l, x, roster, n, u);
    }
    LaidReached(NurseMaker(l), |l.inst.nurses|, u, NursePricer(l.inst, roster));
  }

  // ----- the validator's total -----

  // What the validator charges nurse n altogether.
  ghost function NurseCoster(inst: Instance, roster: Roster): nat -> int {
    (n: nat) => if inst.WellFormed() && n < |inst.nurses| then FiveCosts(inst, roster, n) else 0
  }

  ghost function FiveCosts(inst: Instance, roster: Roster, n: nat): int
    requires inst.WellFormed() && n < |inst.nurses|
  {
    StageCost(inst, roster, n, 0) + StageCost(inst, roster, n, 1) + StageCost(inst, roster, n, 2) +
    StageCost(inst, roster, n, 3) + StageCost(inst, roster, n, 4)
  }

  ghost function NurseSum(inst: Instance, roster: Roster): int { Total(NurseCoster(inst, roster), |inst.nurses|) }

  lemma NursePriced(inst: Instance, roster: Roster, n: nat)
    requires inst.WellFormed() && n < |inst.nurses|
    ensures NursePricer(inst, roster)(n) == NurseCoster(inst, roster)(n) + NurseExcess(inst, roster, n)
  {
    FiveTerms(StagePricer(inst, roster, n));
  }

  // Priced nurse by nurse: the validator's charges and the excess.
  lemma PricesAddUp(inst: Instance, roster: Roster)
    requires inst.WellFormed()
    ensures PriceSum(inst, roster) == NurseSum(inst, roster) + RosterExcess(inst, roster)
  {
    forall n: nat | n < |inst.nurses|
      ensures NursePricer(inst, roster)(n) == NurseCoster(inst, roster)(n) + NurseExcesser(inst, roster)(n)
    {
      NursePriced(inst, roster, n);
    }
    TotalsAdd(NurseCoster(inst, roster), NurseExcesser(inst, roster), NursePricer(inst, roster), |inst.nurses|);
  }

  lemma FiveStages(inst: Instance, roster: Roster, n: nat)
    requires inst.WellFormed() && n < |inst.nurses|
    ensures var c, types := CostsOf(inst, roster, n), TypeCosts(inst, roster, n, |inst.shiftTypes|);
      NurseCoster(inst, roster)(n) == c.assignments + c.work + c.off + types + c.weekends + c.split
  {
    StagesAddUp(inst, roster, n);
  }

  lemma FiveTerms(cost: nat -> int)
    ensures Total(cost, 5) == cost(0) + cost(1) + cost(2) + cost(3) + cost(4)
  {
    assert Total(cost, 2) == cost(0) + cost(1);
    assert Total(cost, 4) == Total(cost, 2) + cost(2) + cost(3);
  }

  lemma SumWithNurse(b: Breakdown, c: NurseCosts, types: int)
    ensures AddNurse(b, c, types).Sum() == b.Sum() + (c.assignments + c.work + c.off + types + c.weekends + c.split)
    ensures AddNurse(b, c, types).optimalCoverage == b.optimalCoverage && AddNurse(b, c, types).shiftOff == b.shiftOff
  {
  }

  ghost predicate Summed(b: Breakdown, total: int) { b.Sum() == total && b.optimalCoverage == 0 && b.shiftOff == 0 }

  lemma SummedStep(b: Breakdown, c: NurseCosts, types: int, total: int, cost: int)
    requires Summed(b, total) && cost == c.assignments + c.work + c.off + types + c.weekends + c.split
    ensures Summed(AddNurse(b, c, types), total + cost)
  {
    SumWithNurse(b, c, types);
  }

  lemma NurseSumStep(inst: Instance, roster: Roster, n: nat, total: int)
    requires inst.WellFormed() && n < |inst.nurses| && Summed(NurseCharges(inst, roster, n), total)
    ensures Summed(NurseCharges(inst, roster, n + 1), total + NurseCoster(inst, roster)(n))
  {
    FiveStages(inst, roster, n);
    SummedStep(NurseCharges(inst, roster, n), CostsOf(inst, roster, n), TypeCosts(inst, roster, n, |inst.shiftTypes|),
               total, NurseCoster(inst, roster)(n));
  }

  lemma TotalStep(cost: nat -> int, k: nat)
    ensures Total(cost, k + 1) == Total(cost, k) + cost(k)
  {
  }

  ghost predicate SummedTo(inst: Instance, roster: Roster, n: nat, total: int)
    requires inst.WellFormed() && n <= |inst.nurses|
  {
    Summed(NurseCharges(inst, roster, n), total)
  }

  lemma {:induction false} NurseSumExact(inst: Instance, roster: Roster, cost: nat -> int, n: nat)
    requires inst.WellFormed() && n <= |inst.nurses|
    requires forall i: nat, total: int | i < n && SummedTo(inst, roster, i, total) ::
      SummedTo(inst, roster, i + 1, total + cost(i))
    ensures SummedTo(inst, roster, n, Total(cost, n))
  {
    if n > 0 {
      NurseSumExact(inst, roster, cost, n - 1);
      TotalStep(cost, n - 1);
    }
  }

  lemma NursesSummed(inst: Instance, roster: Roster)
    requires inst.WellFormed()
    ensures SummedTo(inst, roster, |inst.nurses|, NurseSum(inst, roster))
  {
    var cost := NurseCoster(inst, roster);
    forall i: nat, total: int | i < |inst.nurses| && SummedTo(inst, roster, i, total)
      ensures SummedTo(inst, roster, i + 1, total + cost(i))
    {
      NurseSumStep(inst, roster, i, total);
    }
    NurseSumExact(inst, roster, cost, |inst.nurses|);
  }

  // What the program charges for a roster at least.
  ghost function Price(inst: Instance, roster: Roster): int
    requires inst.WellFormed()
  {
    BreakdownOf(inst, roster).Sum() + RosterExcess(inst, roster)
  }

  lemma TotalExact(l: Layout, x: Choice)
    requires Legal(l, x)
    ensures SharedCost(l, x) + PriceSum(l.inst, RosterOf(l, x)) == Price(l.inst, RosterOf(l, x))
  {
    SharedCostExact(l, x);
    NursesSummed(l.inst, RosterOf(l, x));
    PricesAddUp(l.inst, RosterOf(l, x));
  }

  // ----- the model -----

  lemma AllSeenBy(l: Layout, x: Choice, v: seq<real>)
    requires Env(l, x, v)
    ensures AllSeen(l, x, RosterOf(l, x), v)
  {
    forall n: nat | n < |l.inst.nurses| ensures Seen(l, x, RosterOf(l, x), v, n) {
      EnvSeen(l, x, v, n);
    }
  }

  // The nurses' columns start where the shared ones end.
  lemma ModelSplit(l: Layout, v: seq<real>)
    requires PairsInRange(l) && |v| == |ModelPart(l).cols|
    ensures l.CellsEnd() <= |v|
    ensures PartOk(ModelPart(l), 0, v) <==>
      PartOk(SharedPart(l), 0, v) && PartOk(NursesPart(l, l.CellsEnd()), l.CellsEnd(), v)
    ensures l.CellsEnd() + |NursesPart(l, l.CellsEnd()).cols| == |v|
    ensures PartCost(ModelPart(l), 0, v) ==
      PartCost(SharedPart(l), 0, v) + PartCost(NursesPart(l, l.CellsEnd()), l.CellsEnd(), v)
  {
    var nurses := NursesPart(l, l.CellsEnd());
    PieceSizes(l);
    ThenOk(SharedPart(l), nurses, 0, v);
    ThenCost(SharedPart(l), nurses, 0, v);
  }

  // A feasible point carries a legal choice and costs at least its total.
  lemma PointChoice(l: Layout, v: seq<real>)
    requires Ready(l) && Regular(l.inst) && |v| == |ModelPart(l).cols| && PartOk(ModelPart(l), 0, v)
    ensures |l.pairs| <= |v| && Legal(l, ChoiceIn(l, v))
    ensures PartCost(ModelPart(l), 0, v) >=
      (SharedCost(l, ChoiceIn(l, v)) + PriceSum(l.inst, RosterOf(l, ChoiceIn(l, v)))) as real
  {
    ModelSplit(l, v);
    SharedSound(l, v);
    var x := ChoiceIn(l, v);
    AllSeenBy(l, x, v);
    NursesLeast(l, x, RosterOf(l, x), l.CellsEnd(), v);
  }

  // The nurse's contract rows hold somewhere behind the shared columns.
  lemma StagePlaced(l: Layout, v: seq<real>, n: nat) returns (at: nat)
    requires l.inst.WellFormed() && n < |l.inst.nurses| && NurseOk(l, n) && l.Days() > 0
    requires PartOk(NursesPart(l, l.CellsEnd()), l.CellsEnd(), v)
    ensures PartOk(BoundsPart(l, n, at), at, v) && at + 1 < |v|
  {
    var nurse := LaidAt(NurseMaker(l), |l.inst.nurses|, l.CellsEnd(), v, n);
    at := LaidAt(StageMaker(l, n), 5, nurse, v, 0);
    assert StageMaker(l, n)(0, at) == BoundsPart(l, n, at);
  }

  // Every part of a layout holds at some position.
  lemma {:induction false} LaidAt(make: (nat, nat) -> Part, k: nat, at: nat, v: seq<real>, i: nat) returns (from: nat)
    requires i < k && PartOk(Laid(make, k, at), at, v)
    ensures at <= from && PartOk(make(i, from), from, v)
  {
    var before := Laid(make, k - 1, at);
    ThenOk(before, make(k - 1, at + |before.cols|), at, v);
    if i < k - 1 {
      from := LaidAt(make, k - 1, at, v, i);
    } else {
      from := at + |before.cols|;
    }
  }

  // No point gives a nurse so few assignments that the shortage exceeds its column.
  lemma ShortageFits(l: Layout, v: seq<real>, n: nat)
    requires Ready(l) && |v| == |ModelPart(l).cols| && PartOk(ModelPart(l), 0, v) && n < |l.inst.nurses|
    ensures |l.pairs| <= |v| && NurseFits(l.inst, RosterOf(l, ChoiceIn(l, v)), n)
  {
    ModelSplit(l, v);
    SharedSound(l, v);
    var x := ChoiceIn(l, v);
    EnvSeen(l, x, v, n);
    NurseReady(l, n);
    var at := StagePlaced(l, v, n);
    BoundsMeaning(l, x, n, at, v);
    assert ColOk(BoundsPart(l, n, at).cols[0], v[at + 0]);
  }

  lemma PointFits(l: Layout, v: seq<real>)
    requires Ready(l) && |v| == |ModelPart(l).cols| && PartOk(ModelPart(l), 0, v)
    ensures |l.pairs| <= |v| && ShortagesFit(l.inst, RosterOf(l, ChoiceIn(l, v)))
  {
    ModelSplit(l, v);
    SharedSound(l, v);
    forall n: nat | n < |l.inst.nurses| ensures NurseFits(l.inst, RosterOf(l, ChoiceIn(l, v)), n) {
      ShortageFits(l, v, n);
    }
  }

  // Soundness: the adapter reads an acceptable roster off every feasible point, and the
  // objective is at least its price.
  lemma PointsAreRosters(l: Layout, v: seq<real>)
    requires l.Ok() && PairsInRange(l) && Regular(l.inst) && Feasible(ModelPart(l).cols, ModelPart(l).rows, v)
    ensures |l.pairs| <= |v|
    ensures Accepted(l.inst, RosterOf(l, ChoiceIn(l, v))) && Drawn(l, RosterOf(l, ChoiceIn(l, v)))
    ensures ShortagesFit(l.inst, RosterOf(l, ChoiceIn(l, v)))
    ensures Objective(ModelPart(l).cols, v, |v|) >= Price(l.inst, RosterOf(l, ChoiceIn(l, v))) as real
  {
    LayoutReady(l);
    WholeModel(ModelPart(l), v);
    PointChoice(l, v);
    PointFits(l, v);
    TotalExact(l, ChoiceIn(l, v));
    LegalAccepted(l, ChoiceIn(l, v));
    LegalDrawn(l, ChoiceIn(l, v));
  }

  lemma NursesAttained(l: Layout, x: Choice, u: seq<real>) returns (v: seq<real>)
    requires Legal(l, x) && Regular(l.inst) && ShortagesFit(l.inst, RosterOf(l, x)) && Env(l, x, u)
    ensures Attains(NursesPart(l, |u|), u, v, PriceSum(l.inst, RosterOf(l, x)))
  {
    AllSeenBy(l, x, u);
    NursesReached(l, x, RosterOf(l, x), u);
    v :| Attains(NursesPart(l, |u|), u, v, PriceSum(l.inst, RosterOf(l, x)));
  }

  // Every legal choice whose shortages fit is a feasible point at exactly its total.
  lemma ChoicePoint(l: Layout, x: Choice) returns (v: seq<real>)
    requires Legal(l, x) && Regular(l.inst) && ShortagesFit(l.inst, RosterOf(l, x))
    ensures |v| == |ModelPart(l).cols| && PartOk(ModelPart(l), 0, v) && |l.pairs| <= |v| && ChoiceIn(l, v) == x
    ensures PartCost(ModelPart(l), 0, v) == (SharedCost(l, x) + PriceSum(l.inst, RosterOf(l, x))) as real
  {
    var u := SharedAttained(l, x);
    v := NursesAttained(l, x, u);
    SharedKept(l, x, u, v);
    ModelSplit(l, v);
  }

  ghost predicate PointOf(l: Layout, x: Choice, v: seq<real>)
    requires PairsInRange(l)
  {
    Feasible(ModelPart(l).cols, ModelPart(l).rows, v) && |l.pairs| <= |v| && ChoiceIn(l, v) == x
  }

  // The choices with a feasible point: the legal ones whose shortages fit.
  lemma ChoicesWithPoints(l: Layout, x: Choice)
    requires l.Ok() && PairsInRange(l) && Regular(l.inst)
    ensures (exists v :: PointOf(l, x, v)) <==> Legal(l, x) && ShortagesFit(l.inst, RosterOf(l, x))
  {
    LayoutReady(l);
    if v :| PointOf(l, x, v) {
      WholeModel(ModelPart(l), v);
      PointChoice(l, v);
      PointFits(l, v);
    }
    if Legal(l, x) && ShortagesFit(l.inst, RosterOf(l, x)) {
      var v := ChoicePoint(l, x);
      WholeModel(ModelPart(l), v);
      assert PointOf(l, x, v);
    }
  }

  lemma {:induction false} SameTypeExcesses(inst: Instance, a: Roster, b: Roster, n: nat, t: nat)
    requires SameEntries(inst, a, b) && n < |inst.nurses| == |inst.history| && t <= |inst.shiftTypes|
    ensures TypeExcesses(inst, a, n, t) == TypeExcesses(inst, b, n, t)
  {
    if t > 0 {
      SameTypeExcesses(inst, a, b, n, t - 1);
      SameWork(inst, a, b, n);
      assert WorkedType(a, n, t - 1) == WorkedType(b, n, t - 1);
    }
  }

  lemma SameNurse(inst: Instance, a: Roster, b: Roster, n: nat)
    requires inst.WellFormed() && SameEntries(inst, a, b) && n < |inst.nurses|
    ensures NurseExcess(inst, a, n) == NurseExcess(inst, b, n) && (NurseFits(inst, a, n) <==> NurseFits(inst, b, n))
  {
    SameWork(inst, a, b, n);
    SameTypeExcesses(inst, a, b, n, |inst.shiftTypes|);
  }

  lemma SameExcess(inst: Instance, a: Roster, b: Roster)
    requires inst.WellFormed() && SameEntries(inst, a, b)
    ensures RosterExcess(inst, a) == RosterExcess(inst, b)
  {
    forall n: nat | n < |inst.nurses| ensures NurseExcesser(inst, a)(n) == NurseExcesser(inst, b)(n) {
      SameNurse(inst, a, b, n);
    }
    TotalsAgree(NurseExcesser(inst, a), NurseExcesser(inst, b), |inst.nurses|);
  }

  lemma SameFit(inst: Instance, a: Roster, b: Roster)
    requires inst.WellFormed() && SameEntries(inst, a, b)
    ensures ShortagesFit(inst, a) <==> ShortagesFit(inst, b)
  {
    forall n: nat | n < |inst.nurses| ensures NurseFits(inst, a, n) <==> NurseFits(inst, b, n) {
      SameNurse(inst, a, b, n);
    }
  }

  // Completeness: every acceptable roster drawn from the demands, its shortages fitting, is a
  // feasible point whose objective is exactly the price.
  lemma RostersArePoints(l: Layout, roster: Roster) returns (v: seq<real>)
    requires l.Ok() && PairsInRange(l) && Regular(l.inst)
    requires Accepted(l.inst, roster) && Drawn(l, roster) && ShortagesFit(l.inst, roster)
    ensures Feasible(ModelPart(l).cols, ModelPart(l).rows, v) && |l.pairs| <= |v|
    ensures Objective(ModelPart(l).cols, v, |v|) == Price(l.inst, roster) as real
    ensures SameEntries(l.inst, roster, RosterOf(l, ChoiceIn(l, v)))
  {
    LayoutReady(l);
    RosterIsLegal(l, roster);
    ChoiceSameEntries(l, roster);
    var x := ChoiceOf(l, roster);
    SameFit(l.inst, roster, RosterOf(l, x));
    SameExcess(l.inst, roster, RosterOf(l, x));
    v := ChoicePoint(l, x);
    TotalExact(l, x);
    WholeModel(ModelPart(l), v);
  }

  ghost predicate PointFor(l: Layout, roster: Roster, v: seq<real>)
    requires PairsInRange(l)
  {
    Feasible(ModelPart(l).cols, ModelPart(l).rows, v) && |l.pairs| <= |v| &&
    SameEntries(l.inst, roster, RosterOf(l, ChoiceIn(l, v)))
  }

  lemma PointIsDrawn(l: Layout, roster: Roster, v: seq<real>)
    requires l.Ok() && PairsInRange(l) && Regular(l.inst) && Accepted(l.inst, roster) && PointFor(l, roster, v)
    ensures Drawn(l, roster) && ShortagesFit(l.inst, roster)
  {
    var x := ChoiceIn(l, v);
    LayoutReady(l);
    PointsAreRosters(l, v);
    SameFit(l.inst, roster, RosterOf(l, x));
    forall n: nat, g: nat | n < |l.inst.nurses| && g < 7 * |roster| ensures SameEntry(RosterOf(l, x), roster, n, g) {
      assert SameEntry(roster, RosterOf(l, x), n, g);
    }
    SameDrawn(l, RosterOf(l, x), roster);
  }

  // The acceptable rosters with a feasible point are those drawn from the demands whose
  // shortages fit.
  lemma RostersWithPoints(l: Layout, roster: Roster)
    requires l.Ok() && PairsInRange(l) && Regular(l.inst) && Accepted(l.inst, roster)
    ensures (exists v :: PointFor(l, roster, v)) <==> Drawn(l, roster) && ShortagesFit(l.inst, roster)
  {
    if v :| PointFor(l, roster, v) { PointIsDrawn(l, roster, v); }
    if Drawn(l, roster) && ShortagesFit(l.inst, roster) {
      var v := RostersArePoints(l, roster);
      assert PointFor(l, roster, v);
    }
  }

  lemma ChoiceKept(l: Layout, x: Choice, v: seq<real>)
    requires |x| == |l.pairs| && Carries(v, x)
    ensures ChoiceIn(l, v) == x
  {
    forall p | 0 <= p < |x| ensures ChoiceIn(l, v)[p] == x[p] {
      assert v[p] == Bit(x[p]);
    }
  }

  // Columns added later leave the shared part as it is.
  lemma SharedKept(l: Layout, x: Choice, u: seq<real>, v: seq<real>)
    requires Legal(l, x) && |u| == l.CellsEnd() && u <= v && PartOk(SharedPart(l), 0, u) && Env(l, x, u)
    ensures PartOk(SharedPart(l), 0, v) && PartCost(SharedPart(l), 0, v) == SharedCost(l, x) as real
    ensures |l.pairs| <= |v| && ChoiceIn(l, v) == x
  {
    EnvExtend(l, x, u, v);
    SharedSplit(l, u);
    ColumnsKept(AssignPart(l).cols, 0, u, v);
    ColumnsKept(CoverPart(l).cols, |l.pairs|, u, v);
    ColumnsKept(CellsPart(l).cols, l.CellBase(), u, v);
    CoverKept(l, x, u, v);
    CellsAreEntries(l, x, v);
    CellsMeaning(l, x, v, |l.inst.nurses|);
    SuccessionsMeaning(l, x, v);
    SharedSplit(l, v);
    SharedColumnsCost(l, x, v);
    ChoiceKept(l, x, v);
  }

  lemma ColumnsKept(cols: seq<Col>, at: nat, u: seq<real>, v: seq<real>)
    requires ColsOk(cols, at, u) && u <= v
    ensures ColsOk(cols, at, v)
  {
    forall i | 0 <= i < |cols| ensures ColOk(cols[i], v[at + i]) {
      assert ColOk(cols[i], u[at + i]);
    }
  }

  lemma CoverKept(l: Layout, x: Choice, u: seq<real>, v: seq<real>)
    requires |x| == |l.pairs| && Carries(u, x) && l.CellBase() <= |u| && u <= v && RowsHold(CoverPart(l).rows, u)
    ensures RowsHold(CoverPart(l).rows, v)
    ensures forall j | 0 <= j < |l.demands| :: |l.pairs| + j < |v| && UncoveredRight(l, x, v, j)
  {
    CoverMeaning(l, x, u, |l.demands|);
    forall j | 0 <= j < |l.demands| ensures |l.pairs| + j < |v| && UncoveredRight(l, x, v, j) {
      assert UncoveredRight(l, x, u, j);
    }
    CoverMeaning(l, x, v, |l.demands|);
  }

  ghost predicate PointWithin(l: Layout, bound: int, v: seq<real>)
    requires l.inst.WellFormed() && PairsInRange(l)
  {
    Feasible(ModelPart(l).cols, ModelPart(l).rows, v) && Objective(ModelPart(l).cols, v, |v|) <= bound as real
  }

  ghost predicate RosterWithin(l: Layout, bound: int, roster: Roster)
    requires l.inst.WellFormed()
  {
    Accepted(l.inst, roster) && Drawn(l, roster) && ShortagesFit(l.inst, roster) && Price(l.inst, roster) <= bound
  }

  // The price is no less than what the validator charges, and just that while every minimum
  // run fits.
  lemma PriceCovers(inst: Instance, roster: Roster)
    requires inst.WellFormed() && |roster| == |inst.weeks|
    ensures Price(inst, roster) >= BreakdownOf(inst, roster).Sum()
    ensures MinimaFit(inst) ==> Price(inst, roster) == BreakdownOf(inst, roster).Sum()
  {
    ExcessSign(inst, roster);
  }

  lemma PointCovers(l: Layout, v: seq<real>)
    requires l.Ok() && PairsInRange(l) && Regular(l.inst) && Feasible(ModelPart(l).cols, ModelPart(l).rows, v)
    ensures |l.pairs| <= |v|
    ensures Objective(ModelPart(l).cols, v, |v|) >= BreakdownOf(l.inst, RosterOf(l, ChoiceIn(l, v))).Sum() as real
  {
    PointsAreRosters(l, v);
    PriceCovers(l.inst, RosterOf(l, ChoiceIn(l, v)));
  }

  // For every bound, some feasible point is within it exactly when some acceptable roster,
  // drawn from the demands and its shortages fitting, is priced within it.
  lemma OptimaAgree(l: Layout, bound: int)
    requires l.Ok() && PairsInRange(l) && Regular(l.inst)
    ensures (exists v :: PointWithin(l, bound, v)) <==> (exists roster :: RosterWithin(l, bound, roster))
  {
    if v :| PointWithin(l, bound, v) {
      PointsAreRosters(l, v);
      assert RosterWithin(l, bound, RosterOf(l, ChoiceIn(l, v)));
    }
    if roster :| RosterWithin(l, bound, roster) {
      var v := RostersArePoints(l, roster);
      assert PointWithin(l, bound, v);
    }
  }
}
