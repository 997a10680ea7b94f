// Small instances on which the rostering program and the validator part: a shortage or a minimum
// run the columns cannot hold, and a nurse nobody asked for.
module RosterMilpExamples {
  import opened Wrappers
  import opened Milp
  import opened MilpParts
  import opened RosterRuns
  import opened RosterRunOptimum
  import opened RosterModel
  import opened RosterParity
  import opened RosterMilp
  import opened RosterMilpShared
  import opened RosterMilpLegal
  import opened RosterMilpCost
  import opened RosterMilpNurse
  import opened RosterMilpOptimum
  import opened RosterMilpAnswer

  // ----- a program without demands -----

  // One nurse, one week, nothing asked for: a minimum of a assignments and of runs of w days.
  function Quiet(a: nat, w: nat): Instance {
    Instance([], [Contract(a, a, w, w, 0, 7, 0, false)], [Nurse(0, [])], [History(0, 0, None, 0, 0, 0)], [], [Week([], [])])
  }

  function QuietLayout(a: nat, w: nat): Layout { Layout(Quiet(a, w), [], []) }

  lemma QuietNeeds(a: nat, w: nat)
    ensures Quiet(a, w).WellFormed() && Regular(Quiet(a, w)) && Needs(Quiet(a, w)) == []
  {
    assert NeedsBefore(Quiet(a, w).weeks, 0) == [] && WeekNeeds(0, Week([], []), 0) == [];
  }

  lemma QuietOk(a: nat, w: nat)
    ensures QuietLayout(a, w).Ok() && PairsInRange(QuietLayout(a, w)) && QuietLayout(a, w).inst.WellFormed()
  {
    QuietNeeds(a, w);
  }

  lemma NoEntries(inst: Instance, n: nat, g: nat)
    requires g < 7 * |inst.weeks|
    ensures Entry(EmptyRoster(inst), n, g) == None
  {
    assert EmptyRoster(inst)[g / 7] == [];
  }

  lemma QuietRoster(a: nat, w: nat)
    requires Quiet(a, w).WellFormed()
    ensures Accepted(Quiet(a, w), EmptyRoster(Quiet(a, w))) && Drawn(QuietLayout(a, w), EmptyRoster(Quiet(a, w)))
  {
    QuietNeeds(a, w);
    forall n, g | 0 <= n < 1 && 0 <= g < 7 ensures SuccessionOk(Quiet(a, w), EmptyRoster(Quiet(a, w)), n, g) {
      NoEntries(Quiet(a, w), n, g);
    }
  }

  // The empty roster's shortage fits up to seven assignments; a longer minimum run leaks.
  lemma QuietNurse(a: nat, w: nat)
    requires Quiet(a, w).WellFormed()
    ensures ShortagesFit(Quiet(a, w), EmptyRoster(Quiet(a, w))) <==> a <= 7
    ensures w > 7 ==> RosterExcess(Quiet(a, w), EmptyRoster(Quiet(a, w))) > 0
  {
    var inst, roster := Quiet(a, w), EmptyRoster(Quiet(a, w));
    var act := Worked(roster, 0);
    forall g | 0 <= g < |act| ensures !act[g] { NoEntries(inst, 0, g); }
    CountNone(act, |act|);
    assert NurseFits(inst, roster, 0) <==> a <= 7;
    if w > 7 {
      IdleLeak(act, 0, WorkBounds(inst.ContractOf(0)), 7, 6);
      assert StageExcess(inst, roster, 0, 1) > 0;
      assert NurseExcesser(inst, roster)(0) > 0;
      assert Total(NurseExcesser(inst, roster), 0) == 0;
    }
  }

  lemma QuietOnly(a: nat, w: nat, x: Choice)
    requires PairsInRange(QuietLayout(a, w)) && x == []
    ensures RosterOf(QuietLayout(a, w), x) == EmptyRoster(Quiet(a, w))
  {
  }

  lemma QuietPoint(a: nat, w: nat, v: seq<real>)
    requires PairsInRange(QuietLayout(a, w)) && Feasible(ModelPart(QuietLayout(a, w)).cols, ModelPart(QuietLayout(a, w)).rows, v)
    ensures a <= 7 && QuietLayout(a, w).inst.WellFormed() && (w > 7 ==> Drift(QuietLayout(a, w), v) > 0.0)
  {
    QuietNeeds(a, w);
    QuietOk(a, w);
    DriftCovers(QuietLayout(a, w), v);
    QuietOnly(a, w, ChoiceIn(QuietLayout(a, w), v));
    QuietNurse(a, w);
  }

  // With more than seven assignments asked for, the roster without assignments is accepted but
  // the program has no point at all; with a minimum run beyond the horizon every point's
  // objective exceeds the validated cost.
  lemma QuietProgram(a: nat, w: nat)
    ensures var l, inst := QuietLayout(a, w), Quiet(a, w);
      && l.Ok() && PairsInRange(l) && Regular(inst) && Accepted(inst, EmptyRoster(inst)) && Drawn(l, EmptyRoster(inst))
      && ((exists v :: Feasible(ModelPart(l).cols, ModelPart(l).rows, v)) <==> a <= 7)
      && (w > 7 ==> forall v | Feasible(ModelPart(l).cols, ModelPart(l).rows, v) :: Drift(l, v) > 0.0)
  {
    var l, inst := QuietLayout(a, w), Quiet(a, w);
    QuietNeeds(a, w);
    QuietOk(a, w);
    QuietRoster(a, w);
    if a <= 7 {
      QuietNurse(a, w);
      var v := RostersArePoints(l, EmptyRoster(inst));
    }
    forall v | Feasible(ModelPart(l).cols, ModelPart(l).rows, v) ensures a <= 7 && (w > 7 ==> Drift(l, v) > 0.0) {
      QuietPoint(a, w, v);
    }
  }

  // ----- rosters with more nurses than asked for -----

  // One nurse who should work at least once, and nothing asked for.
  function Eager(skill: nat): Instance {
    Instance([ShiftType(1, 7)], [Contract(1, 7, 1, 7, 0, 7, 1, false)], [Nurse(0, [skill])],
             [History(0, 0, None, 0, 0, 0)], [], [Week([], [])])
  }

  // Her working on Monday.
  ghost function Surplus(skill: nat): Roster { [[Assignment(0, 0, 0, skill)]] }

  function EagerLayout(skill: nat): Layout { Layout(Eager(skill), [], []) }

  lemma EagerOk(skill: nat)
    ensures Eager(skill).WellFormed() && Regular(Eager(skill)) && EagerLayout(skill).Ok() && PairsInRange(EagerLayout(skill))
    ensures Needs(Eager(skill)) == [] && Requests(Eager(skill)) == []
  {
    assert NeedsBefore(Eager(skill).weeks, 0) == [] && WeekNeeds(0, Week([], []), 0) == [];
    assert RequestsBefore(Eager(skill).weeks, 0) == [] && WeekRequests(0, Week([], []), 0) == [];
  }

  lemma NothingForbidden(inst: Instance, roster: Roster, n: nat, g: nat)
    requires inst.forbidden == [] && n < |inst.history| && g < 7 * |roster|
    ensures SuccessionOk(inst, roster, n, g)
  {
  }

  lemma EagerWeek(skill: nat)
    ensures WeekAssigned(Eager(skill), [Assignment(0, 0, 0, skill)])
  {
    assert AssignmentOk(Eager(skill), Assignment(0, 0, 0, skill));
  }

  lemma EagerAccepted(skill: nat)
    requires Eager(skill).WellFormed() && Needs(Eager(skill)) == []
    ensures Accepted(Eager(skill), Surplus(skill))
  {
    EagerWeek(skill);
    forall n, g | 0 <= n < 1 && 0 <= g < 7 ensures SuccessionOk(Eager(skill), Surplus(skill), n, g) {
      NothingForbidden(Eager(skill), Surplus(skill), n, g);
    }
  }

  // Bounds that no run within the horizon violates charge nothing.
  lemma {:induction false} WideClosed(act: Activity, initial: nat, b: Bounds, k: nat)
    requires k <= |act| && b.min <= 1 && |act| + initial <= b.max
    ensures Closed(act, initial, b, k) == 0 && OpenRun(act, initial, k) <= k + initial
  {
    if k > 0 { WideClosed(act, initial, b, k - 1); }
  }

  lemma WideFree(act: Activity, initial: nat, b: Bounds)
    requires b.min <= 1 && |act| + initial <= b.max
    ensures RunCost(act, initial, b) == 0
  {
    WideClosed(act, initial, b, |act|);
  }

  // Within a week her bounds charge nothing but a missing assignment.
  lemma EagerCosts(skill: nat, act: Activity)
    requires |act| == 7
    ensures var inst := Eager(skill);
      var c := NurseCost(inst.contracts[0], inst.history[0], act);
      c.assignments == AssignmentCost(Count(act, 7), inst.contracts[0]) && c.work == c.off == c.weekends == c.split == 0
  {
    WideFree(act, 0, Bounds(1, 7, 30));
    WideFree(Complement(act), 0, Bounds(0, 7, 30));
    assert Weekends(act, 0) == 0;
  }

  lemma EagerTypes(skill: nat, roster: Roster)
    requires |roster| == 1
    ensures TypeCosts(Eager(skill), roster, 0, 1) == 0
  {
    WideFree(WorkedType(roster, 0, 0), 0, Bounds(1, 7, 15));
    assert TypeCosts(Eager(skill), roster, 0, 0) == 0;
  }

  lemma EagerTotal(skill: nat, roster: Roster)
    requires |roster| == 1 && Eager(skill).WellFormed() && Needs(Eager(skill)) == [] && Requests(Eager(skill)) == []
    ensures BreakdownOf(Eager(skill), roster).Sum() == AssignmentCost(Count(Worked(roster, 0), 7), Eager(skill).contracts[0])
  {
    EagerCosts(skill, Worked(roster, 0));
    EagerTypes(skill, roster);
    var charges := NurseCharges(Eager(skill), roster, 1);
    assert NurseCharges(Eager(skill), roster, 0) == Breakdown(0, 0, 0, 0, 0, 0, 0, 0);
    assert charges == AddNurse(Breakdown(0, 0, 0, 0, 0, 0, 0, 0), CostsOf(Eager(skill), roster, 0), 0);
    assert Shortfalls(roster, []) == 0 && Refusals(roster, []) == 0;
  }

  lemma {:induction false} CountPositive(act: Activity, g: nat, k: nat)
    requires g < k <= |act| && act[g]
    ensures 0 < Count(act, k)
  {
    if g < k - 1 { CountPositive(act, g, k - 1); }
  }

  lemma SurplusFree(skill: nat)
    requires Eager(skill).WellFormed() && Needs(Eager(skill)) == [] && Requests(Eager(skill)) == []
    ensures BreakdownOf(Eager(skill), Surplus(skill)).Sum() == 0
  {
    var act := Worked(Surplus(skill), 0);
    assert EntryIn(Surplus(skill)[0], 0, 0, 1) == Some(Assignment(0, 0, 0, skill));
    CountPositive(act, 0, 7);
    CountBound(act, 7);
    EagerTotal(skill, Surplus(skill));
  }

  lemma EmptyCharged(skill: nat)
    requires Eager(skill).WellFormed() && Needs(Eager(skill)) == [] && Requests(Eager(skill)) == []
    ensures BreakdownOf(Eager(skill), EmptyRoster(Eager(skill))).Sum() == 20
  {
    var act := Worked(EmptyRoster(Eager(skill)), 0);
    forall g | 0 <= g < |act| ensures !act[g] { NoEntries(Eager(skill), 0, g); }
    CountNone(act, 7);
    EagerTotal(skill, EmptyRoster(Eager(skill)));
  }

  lemma EagerOnly(skill: nat, x: Choice)
    requires PairsInRange(EagerLayout(skill)) && x == []
    ensures RosterOf(EagerLayout(skill), x) == EmptyRoster(Eager(skill))
  {
  }

  lemma EagerPoint(skill: nat, v: seq<real>)
    requires PairsInRange(EagerLayout(skill))
    requires Feasible(ModelPart(EagerLayout(skill)).cols, ModelPart(EagerLayout(skill)).rows, v)
    ensures Objective(ModelPart(EagerLayout(skill)).cols, v, |v|) >= 20.0
  {
    EagerOk(skill);
    EmptyCharged(skill);
    PointCovers(EagerLayout(skill), v);
    EagerOnly(skill, ChoiceIn(EagerLayout(skill), v));
  }

  lemma NotDrawn(skill: nat)
    ensures !Drawn(EagerLayout(skill), Surplus(skill))
  {
    assert !Wanted([], 0, Surplus(skill)[0][0]);
    assert !WeekWanted([], 0, Surplus(skill)[0]);
  }

  // The validator accepts a nurse nobody asked for; no point of the program carries that roster.
  lemma SurplusAccepted(skill: nat)
    ensures var l, inst := EagerLayout(skill), Eager(skill);
      && l.Ok() && PairsInRange(l) && Regular(inst) && inst.WellFormed()
      && Accepted(inst, Surplus(skill)) && !Drawn(l, Surplus(skill)) && !exists v :: PointFor(l, Surplus(skill), v)
  {
    EagerOk(skill);
    EagerAccepted(skill);
    NotDrawn(skill);
    RostersWithPoints(EagerLayout(skill), Surplus(skill));
  }

  // What drawing from the demands costs here: the roster is free of charge, every point costs 20
  // or more.
  lemma SurplusIsCheaper(skill: nat)
    ensures var l, inst := EagerLayout(skill), Eager(skill);
      && l.Ok() && PairsInRange(l) && inst.WellFormed() && BreakdownOf(inst, Surplus(skill)).Sum() == 0
      && forall v | Feasible(ModelPart(l).cols, ModelPart(l).rows, v) :: Objective(ModelPart(l).cols, v, |v|) >= 20.0
  {
    var l := EagerLayout(skill);
    EagerOk(skill);
    SurplusFree(skill);
    forall v | Feasible(ModelPart(l).cols, ModelPart(l).rows, v) ensures Objective(ModelPart(l).cols, v, |v|) >= 20.0 {
      EagerPoint(skill, v);
    }
  }
}
