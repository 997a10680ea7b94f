// What the validator's breakdown counts: missing nurses, refused requests, days beyond and
// short of bounds over maximal runs, weekends; each priced per unit.
module RosterCharges {
  import opened Wrappers
  import opened RosterRuns
  import opened RosterModel
  import RosterSlots

  // ----- days of maximal runs -----

  function Below(length: int, bound: int): int { if length < bound then bound - length else 0 }

  function Above(length: int, bound: int): int { if length > bound then length - bound else 0 }

  // Length of a run; a first run that starts on day 0 goes on from the history.
  ghost function RunLength(rs: seq<Run>, i: nat, initial: nat): int
    requires i < |rs|
  {
    rs[i].end - rs[i].start + 1 + (if i == 0 && rs[0].start == 0 then initial else 0)
  }

  // Days over the maximum, and under the minimum for a run that ends before the horizon.
  ghost function RunUnits(rs: seq<Run>, i: nat, initial: nat, min: int, max: int, days: nat): int
    requires i < |rs|
  {
    Above(RunLength(rs, i, initial), max) + (if rs[i].end < days - 1 then Below(RunLength(rs, i, initial), min) else 0)
  }

  ghost function RunsUnits(rs: seq<Run>, k: nat, initial: nat, min: int, max: int, days: nat): int
    requires k <= |rs|
  {
    if k == 0 then 0 else RunsUnits(rs, k - 1, initial, min, max, days) + RunUnits(rs, k - 1, initial, min, max, days)
  }

  // A history run that no run of the horizon continues ended before day 0.
  ghost function HistoryUnits(act: Activity, initial: nat, min: int, max: int): int {
    if initial > 0 && act != [] && !act[0] then Below(initial, min) + Above(initial, max) else 0
  }

  // All chargeable days of an activity.
  ghost function Units(act: Activity, initial: nat, min: int, max: int): int {
    RunsUnits(Runs(act, |act|), |Runs(act, |act|)|, initial, min, max, |act|) + HistoryUnits(act, initial, min, max)
  }

  lemma WeighClosed(length: int, b: Bounds)
    requires length > 0
    ensures ClosedCost(length, b) == b.weight * (Above(length, b.max) + Below(length, b.min))
    ensures MaxCost(length, b) == b.weight * Above(length, b.max)
  {
  }

  // Whether the first run takes over the history run.
  lemma FirstRunStarts(act: Activity, rs: seq<Run>)
    requires act != [] && rs == Runs(act, |act|)
    ensures act[0] <==> rs != [] && rs[0].start == 0
    ensures forall i | 0 <= i < |rs| :: rs[i].start <= rs[i].end < |act|
  {
    RunsSpan(act, |act|);
    RunsCover(act, |act|, 0);
    if act[0] {
      var i :| 0 <= i < |rs| && rs[i].start <= 0 <= rs[i].end;
      RunsOrdered(act, rs, 0, i);
    }
    if rs != [] { assert Maximal(act, |act|, rs[0]); }
    forall i | 0 <= i < |rs| ensures rs[i].start <= rs[i].end < |act| {
      assert Maximal(act, |act|, rs[i]);
    }
  }

  // What the fold adds for a run is the weight of its days and, before the first, of the history.
  lemma WeighStep(rs: seq<Run>, i: nat, initial: nat, b: Bounds, days: nat)
    requires i < |rs| && rs[i].start <= rs[i].end < days
    ensures StepCost(rs, i, initial, b, days) ==
      b.weight * RunUnits(rs, i, initial, b.min, b.max, days) +
      (if i == 0 && initial > 0 && rs[0].start > 0 then b.weight * (Above(initial, b.max) + Below(initial, b.min)) else 0)
  {
    WeighClosed(RunLength(rs, i, initial), b);
    if initial > 0 { WeighClosed(initial, b); }
  }

  lemma {:induction false} WeighFold(rs: seq<Run>, k: nat, initial: nat, b: Bounds, days: nat)
    requires k <= |rs| && forall i | 0 <= i < |rs| :: rs[i].start <= rs[i].end < days
    ensures FoldSum(rs, k, initial, b, days) ==
      b.weight * RunsUnits(rs, k, initial, b.min, b.max, days) +
      (if k > 0 && initial > 0 && rs[0].start > 0 then b.weight * (Above(initial, b.max) + Below(initial, b.min)) else 0)
  {
    if k > 0 {
      WeighFold(rs, k - 1, initial, b, days);
      WeighStep(rs, k - 1, initial, b, days);
      Distribute(b.weight, RunsUnits(rs, k - 1, initial, b.min, b.max, days), RunUnits(rs, k - 1, initial, b.min, b.max, days));
    }
  }

  lemma Distribute(w: int, x: int, y: int)
    ensures w * (x + y) == w * x + w * y
  {
  }

  // The day-by-day scan charges its weight for every chargeable day of the maximal runs.
  lemma RunCostMeaning(act: Activity, initial: nat, b: Bounds)
    requires act != [] && b.max >= 0
    ensures RunCost(act, initial, b) == b.weight * Units(act, initial, b.min, b.max)
  {
    var rs := Runs(act, |act|);
    FoldMeaning(act, initial, b);
    FirstRunStarts(act, rs);
    WeighFold(rs, |rs|, initial, b, |act|);
    if initial > 0 { WeighClosed(initial, b); }
    Distribute(b.weight, RunsUnits(rs, |rs|, initial, b.min, b.max, |act|), HistoryUnits(act, initial, b.min, b.max));
  }

  // ----- days and weekends -----

  ghost function WorkedDays(act: Activity, k: nat): set<nat>
    requires k <= |act|
  {
    set g: nat | g < k && act[g]
  }

  // Weeks with a Saturday or Sunday worked.
  ghost function WorkedWeekends(act: Activity, weeks: nat): set<nat>
    requires 7 * weeks <= |act|
  {
    set w: nat | w < weeks && (act[7 * w + 5] || act[7 * w + 6])
  }

  // Weeks with only one of the two worked.
  ghost function SplitWeekends(act: Activity, weeks: nat): set<nat>
    requires 7 * weeks <= |act|
  {
    set w: nat | w < weeks && act[7 * w + 5] != act[7 * w + 6]
  }

  lemma {:induction false} CountMeaning(act: Activity, k: nat)
    requires k <= |act|
    ensures Count(act, k) == |WorkedDays(act, k)|
  {
    if k > 0 {
      CountMeaning(act, k - 1);
      assert WorkedDays(act, k) == WorkedDays(act, k - 1) + (if act[k - 1] then {k - 1} else {});
    }
  }

  lemma {:induction false} WeekendsMeaning(act: Activity, weeks: nat)
    requires 7 * weeks <= |act|
    ensures Weekends(act, weeks) == |WorkedWeekends(act, weeks)|
  {
    if weeks > 0 {
      WeekendsMeaning(act, weeks - 1);
      assert WorkedWeekends(act, weeks) ==
        WorkedWeekends(act, weeks - 1) + (if WeekendWorked(act, weeks - 1) then {weeks - 1} else {});
    }
  }

  lemma {:induction false} SplitsMeaning(act: Activity, weeks: nat)
    requires 7 * weeks <= |act|
    ensures Splits(act, weeks) == |SplitWeekends(act, weeks)|
  {
    if weeks > 0 {
      SplitsMeaning(act, weeks - 1);
      assert SplitWeekends(act, weeks) ==
        SplitWeekends(act, weeks - 1) + (if WeekendSplit(act, weeks - 1) then {weeks - 1} else {});
    }
  }

  // ----- nurses -----

  // Assignments missing to the minimum or beyond the maximum, chargeable days of work and of
  // free time, weekends beyond the maximum, and split weekends where they matter.
  ghost function NurseUnits(c: Contract, h: History, act: Activity): NurseCosts {
    var total, weeks := h.assignments + |WorkedDays(act, |act|)|, |act| / 7;
    NurseCosts(
      if total < c.minAssignments then c.minAssignments - total else Above(total, c.maxAssignments),
      Units(act, if h.lastType.Some? then h.work else 0, c.minWork, c.maxWork),
      Units(Complement(act), if h.lastType.None? then h.off else 0, c.minOff, c.maxOff),
      Above(h.weekends + |WorkedWeekends(act, weeks)|, c.maxWeekends),
      if c.completeWeekends then |SplitWeekends(act, weeks)| else 0)
  }

  function PricedNurse(u: NurseCosts): NurseCosts {
    NurseCosts(20 * u.assignments, 30 * u.work, 30 * u.off, 30 * u.weekends, 30 * u.split)
  }

  lemma NurseMeaning(c: Contract, h: History, act: Activity)
    requires act != [] && |act| % 7 == 0 && c.maxWork >= 0 && c.maxOff >= 0
    ensures NurseCost(c, h, act) == PricedNurse(NurseUnits(c, h, act))
  {
    CountMeaning(act, |act|);
    WeekendsMeaning(act, |act| / 7);
    SplitsMeaning(act, |act| / 7);
    RunCostMeaning(act, InitialWork(h), WorkBounds(c));
    RunCostMeaning(Complement(act), InitialOff(h), OffBounds(c));
  }

  // Chargeable days of the runs of each of the first t types.
  ghost function TypeUnits(inst: Instance, roster: Roster, n: nat, t: nat): int
    requires n < |inst.history| && t <= |inst.shiftTypes|
  {
    if t == 0 then 0
    else
      var h, st := inst.history[n], inst.shiftTypes[t - 1];
      TypeUnits(inst, roster, n, t - 1) +
      Units(WorkedType(roster, n, t - 1), if h.lastType == Some(t - 1) then h.sameType else 0,
            st.minConsecutive, st.maxConsecutive)
  }

  lemma {:induction false} TypesMeaning(inst: Instance, roster: Roster, n: nat, t: nat)
    requires inst.WellFormed() && roster != [] && n < |inst.history| && t <= |inst.shiftTypes|
    ensures TypeCosts(inst, roster, n, t) == 15 * TypeUnits(inst, roster, n, t)
  {
    if t > 0 {
      TypesMeaning(inst, roster, n, t - 1);
      RunCostMeaning(WorkedType(roster, n, t - 1), InitialType(inst.history[n], t - 1), TypeBounds(inst.shiftTypes[t - 1]));
    }
  }

  // ----- coverage and requests -----

  // Assignments of the need's week, type, skill and day.
  ghost function Serving(week: seq<Assignment>, need: Need, k: nat): set<nat>
    requires k <= |week|
  {
    set i: nat | i < k && week[i].shiftType == need.shiftType && week[i].skill == need.skill && week[i].day == need.day
  }

  lemma {:induction false} CoverageMeaning(week: seq<Assignment>, need: Need, k: nat)
    requires k <= |week|
    ensures Coverage(week, need, k) == |Serving(week, need, k)|
  {
    if k > 0 {
      CoverageMeaning(week, need, k - 1);
      assert Serving(week, need, k) == Serving(week, need, k - 1) + (if Serves(week[k - 1], need) then {k - 1} else {});
    }
  }

  // Nurses missing to the optimum of the first k needs.
  ghost function MissingNurses(roster: Roster, needs: seq<Need>, k: nat): int
    requires k <= |needs| && forall i | 0 <= i < |needs| :: needs[i].week < |roster|
  {
    if k == 0 then 0
    else
      var week := roster[needs[k - 1].week];
      MissingNurses(roster, needs, k - 1) + Below(|Serving(week, needs[k - 1], |week|)|, needs[k - 1].optimal)
  }

  lemma {:induction false} ShortfallsMeaning(roster: Roster, needs: seq<Need>, k: nat)
    requires k <= |needs| && forall i | 0 <= i < |needs| :: needs[i].week < |roster|
    ensures Shortfalls(roster, needs[..k]) == 30 * MissingNurses(roster, needs, k)
  {
    if k > 0 {
      ShortfallsMeaning(roster, needs, k - 1);
      assert needs[..k][..k - 1] == needs[..k - 1];
      var week := roster[needs[k - 1].week];
      CoverageMeaning(week, needs[k - 1], |week|);
    }
  }

  // The requests among the first k that the roster goes against.
  ghost function Refused(roster: Roster, requests: seq<DayRequest>, k: nat): set<nat>
    requires k <= |requests|
  {
    set q: nat | q < k && GoesAgainst(roster, requests[q])
  }

  ghost predicate GoesAgainst(roster: Roster, r: DayRequest) {
    && r.globalDay < 7 * |roster| && Entry(roster, r.nurse, r.globalDay).Some?
    && (r.shiftType.Some? ==> r.shiftType == Some(Entry(roster, r.nurse, r.globalDay).value.shiftType))
  }

  lemma RefusalMeaning(roster: Roster, r: DayRequest)
    ensures Refusal(roster, r) == if GoesAgainst(roster, r) then 10 else 0
  {
  }

  lemma RefusedStep(roster: Roster, requests: seq<DayRequest>, k: nat)
    requires 0 < k <= |requests|
    ensures |Refused(roster, requests, k)| ==
      |Refused(roster, requests, k - 1)| + (if GoesAgainst(roster, requests[k - 1]) then 1 else 0)
  {
    var before := Refused(roster, requests, k - 1);
    if GoesAgainst(roster, requests[k - 1]) {
      assert Refused(roster, requests, k) == before + {k - 1};
    } else {
      assert Refused(roster, requests, k) == before;
    }
  }

  lemma {:induction false} RefusalsMeaning(roster: Roster, requests: seq<DayRequest>, k: nat)
    requires k <= |requests|
    ensures Refusals(roster, requests[..k]) == 10 * |Refused(roster, requests, k)|
  {
    if k > 0 {
      RefusalsMeaning(roster, requests, k - 1);
      assert requests[..k][..k - 1] == requests[..k - 1];
      RefusalMeaning(roster, requests[k - 1]);
      RefusedStep(roster, requests, k);
    }
  }

  // ----- the breakdown -----

  ghost function RosterUnits(inst: Instance, roster: Roster, n: nat): NurseCosts
    requires inst.WellFormed() && n < |inst.nurses|
  {
    NurseUnits(inst.ContractOf(n), inst.history[n], Worked(roster, n))
  }

  lemma CostsMeaning(inst: Instance, roster: Roster, n: nat)
    requires inst.WellFormed() && roster != [] && n < |inst.nurses|
    ensures CostsOf(inst, roster, n) == PricedNurse(RosterUnits(inst, roster, n))
  {
    NurseMeaning(inst.ContractOf(n), inst.history[n], Worked(roster, n));
  }

  // Each rule's count grows by the nurse's.
  function Tally(b: Breakdown, u: NurseCosts, types: int): Breakdown {
    Breakdown(0, 0, b.assignments + u.assignments, b.work + u.work, b.off + u.off, b.shiftType + types,
              b.weekends + u.weekends, b.split + u.split)
  }

  // What each rule counts, over the first k nurses.
  ghost function NursesUnits(inst: Instance, roster: Roster, k: nat): (units: Breakdown)
    requires inst.WellFormed() && k <= |inst.nurses|
    ensures units.optimalCoverage == units.shiftOff == 0
  {
    if k == 0 then Breakdown(0, 0, 0, 0, 0, 0, 0, 0)
    else
      Tally(NursesUnits(inst, roster, k - 1), RosterUnits(inst, roster, k - 1),
            TypeUnits(inst, roster, k - 1, |inst.shiftTypes|))
  }

  ghost predicate NeedsInside(inst: Instance, roster: Roster) {
    forall i | 0 <= i < |Needs(inst)| :: Needs(inst)[i].week < |roster|
  }

  ghost function UnitsOf(inst: Instance, roster: Roster): Breakdown
    requires inst.WellFormed() && NeedsInside(inst, roster)
  {
    NursesUnits(inst, roster, |inst.nurses|).(
      optimalCoverage := MissingNurses(roster, Needs(inst), |Needs(inst)|),
      shiftOff := |Refused(roster, Requests(inst), |Requests(inst)|)|)
  }

  // The price of each unit.
  function Priced(u: Breakdown): Breakdown {
    Breakdown(30 * u.optimalCoverage, 10 * u.shiftOff, 20 * u.assignments, 30 * u.work, 30 * u.off, 15 * u.shiftType,
              30 * u.weekends, 30 * u.split)
  }

  lemma PricedAdd(b: Breakdown, u: NurseCosts, types: int, charges: Breakdown, costs: NurseCosts, typeCosts: int)
    requires b.optimalCoverage == b.shiftOff == 0
    requires charges == Priced(b) && costs == PricedNurse(u) && typeCosts == 15 * types
    ensures AddNurse(charges, costs, typeCosts) == Priced(Tally(b, u, types))
  {
  }

  lemma ChargesStep(inst: Instance, roster: Roster, n: nat)
    requires inst.WellFormed() && n < |inst.nurses|
    ensures NurseCharges(inst, roster, n + 1) ==
      AddNurse(NurseCharges(inst, roster, n), CostsOf(inst, roster, n), TypeCosts(inst, roster, n, |inst.shiftTypes|))
  {
  }

  lemma UnitsStep(inst: Instance, roster: Roster, n: nat)
    requires inst.WellFormed() && n < |inst.nurses|
    ensures NursesUnits(inst, roster, n + 1) ==
      Tally(NursesUnits(inst, roster, n), RosterUnits(inst, roster, n), TypeUnits(inst, roster, n, |inst.shiftTypes|))
  {
  }

  lemma {:induction false} NursesMeaning(inst: Instance, roster: Roster, k: nat)
    requires inst.WellFormed() && roster != [] && k <= |inst.nurses|
    ensures NurseCharges(inst, roster, k) == Priced(NursesUnits(inst, roster, k))
  {
    if k > 0 {
      var n := k - 1;
      NursesMeaning(inst, roster, n);
      CostsMeaning(inst, roster, n);
      TypesMeaning(inst, roster, n, |inst.shiftTypes|);
      ChargesStep(inst, roster, n);
      UnitsStep(inst, roster, n);
      PricedAdd(NursesUnits(inst, roster, n), RosterUnits(inst, roster, n), TypeUnits(inst, roster, n, |inst.shiftTypes|),
                NurseCharges(inst, roster, n), CostsOf(inst, roster, n), TypeCosts(inst, roster, n, |inst.shiftTypes|));
    }
  }

  lemma AllNeedsInside(inst: Instance, roster: Roster)
    requires inst.WellFormed() && |roster| == |inst.weeks|
    ensures NeedsInside(inst, roster)
  {
    RosterSlots.NeedsInRange(inst, |inst.weeks|);
    forall i | 0 <= i < |Needs(inst)| ensures Needs(inst)[i].week < |roster| {
      assert RosterSlots.NeedInRange(inst, Needs(inst)[i]);
    }
  }

  // Every rule charges its price per unit: 30 for a nurse missing to the optimum, 10 for a
  // refused request, 20 for an assignment outside the bounds, 30 for a day of work or of free
  // time outside its bounds, 15 for a day of one type, 30 for a weekend too many or split.
  lemma BreakdownMeaning(inst: Instance, roster: Roster)
    requires inst.WellFormed() && |roster| == |inst.weeks|
    ensures NeedsInside(inst, roster) && BreakdownOf(inst, roster) == Priced(UnitsOf(inst, roster))
  {
    AllNeedsInside(inst, roster);
    NursesMeaning(inst, roster, |inst.nurses|);
    ShortfallsMeaning(roster, Needs(inst), |Needs(inst)|);
    RefusalsMeaning(roster, Requests(inst), |Requests(inst)|);
    assert Needs(inst)[..|Needs(inst)|] == Needs(inst);
    assert Requests(inst)[..|Requests(inst)|] == Requests(inst);
  }
}
