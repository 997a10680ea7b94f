// The tail of the MILP adapter: reading the roster off the point the solver returns and
// validating it, and what the reported objective is worth.
module RosterMilpAnswer {
  import opened Wrappers
  import opened Milp
  import opened RosterModel
  import opened RosterValidate
  import opened RosterSlots
  import opened RosterParity
  import opened RosterConflicts
  import opened RosterCoverage
  import opened RosterMilp
  import opened RosterMilpBuild
  import opened RosterMilpShared
  import opened RosterMilpRoster
  import opened RosterMilpCost
  import opened RosterMilpNurse
  import opened RosterMilpOptimum

  // ----- layouts the adapter builds -----

  // Requirements and successions name shift types of the instance.
  ghost predicate TypesInRange(inst: Instance) {
    && (forall w | 0 <= w < |inst.weeks| :: WeekTypesInRange(inst, inst.weeks[w]))
    && (forall i | 0 <= i < |inst.forbidden| :: inst.forbidden[i].0 < |inst.shiftTypes| &&
          forall k | 0 <= k < |inst.forbidden[i].1| :: inst.forbidden[i].1[k] < |inst.shiftTypes|)
  }

  ghost predicate WeekTypesInRange(inst: Instance, week: Week) {
    forall r | 0 <= r < |week.requirements| :: week.requirements[r].shiftType < |inst.shiftTypes|
  }

  lemma {:induction false} NeedTypes(inst: Instance, w: nat, i: nat)
    requires TypesInRange(inst) && w <= |inst.weeks| && i < |NeedsBefore(inst.weeks, w)|
    ensures NeedsBefore(inst.weeks, w)[i].shiftType < |inst.shiftTypes|
  {
    var before := NeedsBefore(inst.weeks, w - 1);
    if i < |before| {
      NeedTypes(inst, w - 1, i);
    } else {
      var q := WeekNeedOrigin(w - 1, inst.weeks[w - 1], |inst.weeks[w - 1].requirements|, i - |before|);
      assert WeekTypesInRange(inst, inst.weeks[w - 1]);
    }
  }

  lemma DemandType(inst: Instance, d: Need)
    requires TypesInRange(inst) && FromNeed(Needs(inst), d)
    ensures d.shiftType < |inst.shiftTypes|
  {
    var needs := Needs(inst);
    var i :| 0 <= i < |needs| && needs[i].optimal > 0 && DemandFor(needs[i]) == d;
    NeedTypes(inst, |inst.weeks|, i);
  }

  lemma LayoutOk(inst: Instance, l: Layout)
    requires LayoutFor(inst, l) && TypesInRange(inst)
    ensures l.Ok()
  {
    CoverageMeaning(inst, l.demands);
    forall j | 0 <= j < |l.demands| ensures l.demands[j].shiftType < l.Types() {
      DemandType(inst, l.demands[j]);
    }
  }

  // ----- refusing to build -----

  lemma {:induction false} CoveredBySomebody(week: seq<Assignment>, need: Need, k: nat) returns (i: nat)
    requires k <= |week| && Coverage(week, need, k) > 0
    ensures i < k && Serves(week[i], need)
  {
    if Serves(week[k - 1], need) {
      i := k - 1;
    } else {
      i := CoveredBySomebody(week, need, k - 1);
    }
  }

  // A need that must be met has somebody to serve it, or there is no acceptable roster.
  lemma MetNeedIsServable(inst: Instance, roster: Roster, i: nat)
    requires inst.WellFormed() && Accepted(inst, roster) && i < |Needs(inst)| && Needs(inst)[i].minimum > 0
    ensures !Unservable(inst, Needs(inst)[i])
  {
    var need := Needs(inst)[i];
    assert NeedMet(roster, need);
    NeedsInRange(inst, |inst.weeks|);
    assert NeedInRange(inst, need);
    var week := roster[need.week];
    var p := CoveredBySomebody(week, need, |week|);
    assert WeekAssigned(inst, week) && AssignmentOk(inst, week[p]);
    var n, g := week[p].nurse, 7 * need.week + need.day;
    EntryIsAssignment(inst, week, p);
    assert Entry(roster, n, g) == Some(week[p]);
    assert SuccessionOk(inst, roster, n, g);
    assert IsCandidate(inst, DemandSlot(need), n);
  }

  // With an acceptable roster at hand, the program is built exactly when every optional need
  // has somebody to serve it.
  lemma RefusalExact(inst: Instance, roster: Roster)
    requires inst.WellFormed() && Accepted(inst, roster)
    ensures Buildable(inst) <==>
      forall i | 0 <= i < |Needs(inst)| && Needs(inst)[i].optimal > 0 && Needs(inst)[i].minimum <= 0 ::
        !Unservable(inst, Needs(inst)[i])
  {
    forall i | 0 <= i < |Needs(inst)| && Needs(inst)[i].minimum > 0 ensures !Unservable(inst, Needs(inst)[i]) {
      MetNeedIsServable(inst, roster, i);
    }
  }

  // Without minima nobody has to work, so a program refused for want of optional nurses still
  // has an acceptable roster.
  lemma RefusedThoughAcceptable(inst: Instance, i: nat)
    requires inst.WellFormed() && forall j | 0 <= j < |Needs(inst)| :: Needs(inst)[j].minimum <= 0
    requires i < |Needs(inst)| && Needs(inst)[i].optimal > 0 && Unservable(inst, Needs(inst)[i])
    ensures !Buildable(inst)
    ensures Accepted(inst, EmptyRoster(inst)) && Shortfalls(EmptyRoster(inst), Needs(inst)) >= 30
  {
    var roster := EmptyRoster(inst);
    NeedsInRange(inst, |inst.weeks|);
    forall j | 0 <= j < |Needs(inst)| ensures NeedMet(roster, Needs(inst)[j]) {
      assert NeedInRange(inst, Needs(inst)[j]);
    }
    assert NeedInRange(inst, Needs(inst)[i]);
    ShortfallsAtLeast(roster, Needs(inst), i);
  }

  ghost function EmptyRoster(inst: Instance): (roster: Roster)
    ensures |roster| == |inst.weeks| && forall w | 0 <= w < |roster| :: roster[w] == []
  {
    seq(|inst.weeks|, w => [])
  }

  lemma {:induction false} ShortfallsAtLeast(roster: Roster, needs: seq<Need>, i: nat)
    requires i < |needs|
    ensures Shortfalls(roster, needs) >= Shortfall(roster, needs[i]) >= 0
  {
    var init, last := needs[..|needs| - 1], needs[|needs| - 1];
    if i < |init| {
      ShortfallsAtLeast(roster, init, i);
    } else {
      NoNegativeShortfalls(roster, init);
    }
  }

  lemma {:induction false} NoNegativeShortfalls(roster: Roster, needs: seq<Need>)
    ensures Shortfalls(roster, needs) >= 0
  {
    if needs != [] { NoNegativeShortfalls(roster, needs[..|needs| - 1]); }
  }

  // ----- the answer -----

  method ReadChoice(l: Layout, v: seq<real>) returns (slots: seq<Slot>, nurses: Assigned)
    requires PairsInRange(l) && |l.pairs| <= |v|
    ensures slots == PairSlots(l) && nurses == PairNurses(l, ChoiceIn(l, v))
  {
    slots, nurses := [], [];
    for p := 0 to |l.pairs|
      invariant slots == PairSlots(l)[..p] && nurses == PairNurses(l, ChoiceIn(l, v))[..p]
    {
      slots := slots + [DemandSlot(l.demands[l.pairs[p].demand])];
      nurses := nurses + [if v[p] == 1.0 then Some(l.pairs[p].nurse) else None];
    }
  }

  // Reads the roster and validates it: never refused at a feasible point, and the reported
  // objective is no less than the validated cost.
  method Answer(l: Layout, v: seq<real>) returns (roster: Roster, r: Result<int, Violation>)
    requires l.Ok() && PairsInRange(l) && Regular(l.inst) && Feasible(ModelPart(l).cols, ModelPart(l).rows, v)
    ensures |l.pairs| <= |v| && roster == RosterOf(l, ChoiceIn(l, v))
    ensures r.Ok? && r.value == BreakdownOf(l.inst, roster).Sum()
    ensures Objective(ModelPart(l).cols, v, |v|) >= r.value as real
  {
    PointsAreRosters(l, v);
    PointCovers(l, v);
    LayoutReady(l);
    var slots, nurses := ReadChoice(l, v);
    roster := Extract(slots, nurses, |l.inst.weeks|);
    r := Validate(l.inst, roster);
  }

  ghost predicate Optimal(l: Layout, v: seq<real>)
    requires PairsInRange(l)
  {
    && Feasible(ModelPart(l).cols, ModelPart(l).rows, v)
    && forall w | Feasible(ModelPart(l).cols, ModelPart(l).rows, w) ::
         Objective(ModelPart(l).cols, v, |v|) <= Objective(ModelPart(l).cols, w, |w|)
  }

  // At an optimal point the model's objective is the price of its roster.
  lemma OptimumIsPrice(l: Layout, v: seq<real>)
    requires l.Ok() && PairsInRange(l) && Regular(l.inst) && Optimal(l, v)
    ensures |l.pairs| <= |v|
    ensures Objective(ModelPart(l).cols, v, |v|) == Price(l.inst, RosterOf(l, ChoiceIn(l, v))) as real
  {
    PointsAreRosters(l, v);
    var w := RostersArePoints(l, RosterOf(l, ChoiceIn(l, v)));
  }

  // Drift: how far the objective of a point is from the validated cost of its roster.
  ghost function Drift(l: Layout, v: seq<real>): real
    requires l.inst.WellFormed() && PairsInRange(l) && |l.pairs| <= |v| == |ModelPart(l).cols|
  {
    Objective(ModelPart(l).cols, v, |v|) - BreakdownOf(l.inst, RosterOf(l, ChoiceIn(l, v))).Sum() as real
  }

  // No point drifts by less than the excess of its roster, whose shortages fit.
  lemma DriftCovers(l: Layout, v: seq<real>)
    requires l.Ok() && PairsInRange(l) && Regular(l.inst) && Feasible(ModelPart(l).cols, ModelPart(l).rows, v)
    ensures |l.pairs| <= |v|
    ensures ShortagesFit(l.inst, RosterOf(l, ChoiceIn(l, v)))
    ensures Drift(l, v) >= RosterExcess(l.inst, RosterOf(l, ChoiceIn(l, v))) as real
  {
    PointsAreRosters(l, v);
  }

  // At an optimal point the score drifts by the excess: not at all exactly when nothing leaks,
  // which holds while every minimum run fits.
  lemma OptimumDrift(l: Layout, v: seq<real>)
    requires l.Ok() && PairsInRange(l) && Regular(l.inst) && Optimal(l, v)
    ensures |l.pairs| <= |v|
    ensures Drift(l, v) == RosterExcess(l.inst, RosterOf(l, ChoiceIn(l, v))) as real
    ensures MinimaFit(l.inst) ==> Drift(l, v) == 0.0
  {
    OptimumIsPrice(l, v);
    ExcessSign(l.inst, RosterOf(l, ChoiceIn(l, v)));
  }

  // ----- from the built program to its optimum -----

  // What the adapter builds has the optimum of the rosters its demands allow.
  lemma BuiltOptima(inst: Instance, l: Layout, bound: int)
    requires LayoutFor(inst, l) && TypesInRange(inst) && Regular(inst)
    ensures l.Ok() && ((exists v :: PointWithin(l, bound, v)) <==> (exists roster :: RosterWithin(l, bound, roster)))
  {
    LayoutOk(inst, l);
    OptimaAgree(l, bound);
  }
}
