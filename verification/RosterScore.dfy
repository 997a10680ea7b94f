// How the constraint solvers score a slot assignment: pairwise hard constraints, and soft
// penalties from presence folds with separate terms for nurses without any shift.
module RosterScore {
  import opened Wrappers
  import opened RosterRuns
  import opened RosterModel
  import opened RosterSlots
  import opened RosterParity
  import opened RosterViolations

  // ----- presence -----

  // Days and slots of one nurse, as the grouping collector holds them.
  method PresenceOf(slots: seq<Slot>, nurses: Assigned, days: nat, n: nat) returns (items: nat, act: Activity)
    requires |slots| == |nurses| && forall i | 0 <= i < |slots| :: slots[i].GlobalDay() < days
    ensures items == ItemCount(nurses, n, |nurses|) && act == Present(slots, nurses, days, n, |slots|)
  {
    items, act := 0, seq(days, g => false);
    for i := 0 to |slots|
      invariant items == ItemCount(nurses, n, i) && act == Present(slots, nurses, days, n, i)
    {
      if nurses[i] == Some(n) {
        items := items + 1;
        act := act[slots[i].GlobalDay() := true];
      }
    }
  }

  // The same for one shift type.
  ghost predicate TypePresent(slots: seq<Slot>, nurses: Assigned, n: nat, t: nat, g: nat, k: nat)
    requires k <= |slots| == |nurses|
  {
    exists i :: 0 <= i < k && nurses[i] == Some(n) && slots[i].shiftType == t && slots[i].GlobalDay() == g
  }

  method TypePresenceOf(slots: seq<Slot>, nurses: Assigned, days: nat, n: nat, t: nat) returns (any: bool, act: Activity)
    requires |slots| == |nurses| && forall i | 0 <= i < |slots| :: slots[i].GlobalDay() < days
    ensures |act| == days && (any <==> exists g :: 0 <= g < days && act[g])
    ensures OncePerDay(slots, nurses) ==> act == PresentType(slots, nurses, days, n, t)
  {
    any, act := false, seq(days, g => false);
    for i := 0 to |slots|
      invariant |act| == days && forall g | 0 <= g < days :: act[g] <==> TypePresent(slots, nurses, n, t, g, i)
      invariant any <==> exists g :: 0 <= g < days && act[g]
    {
      if nurses[i] == Some(n) && slots[i].shiftType == t {
        any := true;
        act := act[slots[i].GlobalDay() := true];
        assert act[slots[i].GlobalDay()];
      }
    }
    if OncePerDay(slots, nurses) {
      forall g: nat | g < days ensures act[g] == WorksType(slots, nurses, n, t, g) {
        TypePresentExact(slots, nurses, n, t, g);
      }
    }
  }

  lemma TypePresentExact(slots: seq<Slot>, nurses: Assigned, n: nat, t: nat, g: nat)
    requires |slots| == |nurses| && OncePerDay(slots, nurses)
    ensures TypePresent(slots, nurses, n, t, g, |slots|) <==> WorksType(slots, nurses, n, t, g)
  {
    SlotOfMeaning(slots, nurses, n, g, |slots|);
    if TypePresent(slots, nurses, n, t, g, |slots|) {
      var i :| 0 <= i < |slots| && nurses[i] == Some(n) && slots[i].shiftType == t && slots[i].GlobalDay() == g;
      var s := SlotOf(slots, nurses, n, g, |slots|);
      assert s.Some? && nurses[s.value] == nurses[i];
      assert s.value == i;
    }
  }

  // ----- one nurse -----

  lemma {:induction false} NoWeekends(act: Activity, w: nat)
    requires 7 * w <= |act| && Idle(act)
    ensures Weekends(act, w) == 0 && Splits(act, w) == 0
  {
    if w > 0 { NoWeekends(act, w - 1); }
  }

  method WeekendCounts(act: Activity) returns (worked: nat, split: nat)
    requires |act| % 7 == 0
    ensures worked == Weekends(act, |act| / 7) && split == Splits(act, |act| / 7)
  {
    worked, split := 0, 0;
    for w := 0 to |act| / 7
      invariant worked == Weekends(act, w) && split == Splits(act, w)
    {
      var saturday := w * 7 + 5;
      if act[saturday] || act[saturday + 1] { worked := worked + 1; }
      if act[saturday] != act[saturday + 1] { split := split + 1; }
    }
  }

  // Terms for a nurse who works nowhere.
  function EmptyCosts(c: Contract, h: History, days: nat): NurseCosts {
    NurseCosts(
      AssignmentCost(h.assignments, c),
      if h.lastType.Some? then ClosedCost(h.work, Bounds(c.minWork, c.maxWork, 30)) else 0,
      MaxCost(InitialOff(h) + days, Bounds(c.minOff, c.maxOff, 30)),
      MaxCost(h.weekends, Bounds(0, c.maxWeekends, 30)),
      0)
  }

  lemma EmptyCostsExact(c: Contract, h: History, act: Activity)
    requires act != [] && |act| % 7 == 0 && Idle(act) && c.maxWork >= 0
    ensures SlotNurse(c, h, 0, act) == EmptyCosts(c, h, |act|)
  {
    EmptyWorkCost(act, InitialWork(h), WorkBounds(c));
    EmptyOffCost(act, InitialOff(h), OffBounds(c));
    NoWeekends(act, |act| / 7);
  }

  lemma NoIdleCharge(act: Activity, b: Bounds)
    requires b.max >= 0
    ensures IdleEnd(act, b) == 0
  {
  }

  // Terms for a nurse with some shift.
  method PresentCosts(c: Contract, h: History, items: nat, act: Activity) returns (costs: NurseCosts)
    requires act != [] && |act| % 7 == 0 && c.maxWork >= 0 && c.maxOff >= 0
    ensures costs == SlotNurse(c, h, items, act)
  {
    var days := |act|;
    NoIdleCharge(act, WorkBounds(c));
    NoIdleCharge(Complement(act), OffBounds(c));
    var work := RunBoundsCost(Runs(act, days), days, InitialWork(h), Bounds(c.minWork, c.maxWork, 30));
    var off := RunBoundsCost(Runs(Complement(act), days), days, InitialOff(h), Bounds(c.minOff, c.maxOff, 30));
    var worked, split := WeekendCounts(act);
    costs := NurseCosts(AssignmentCost(items + h.assignments, c), work, off,
                        MaxCost(h.weekends + worked, Bounds(0, c.maxWeekends, 30)),
                        if c.completeWeekends then 30 * split else 0);
  }

  // One term or the other, depending on whether the nurse works at all.
  method NurseTerms(c: Contract, h: History, items: nat, act: Activity) returns (costs: NurseCosts)
    requires act != [] && |act| % 7 == 0 && c.maxWork >= 0 && c.maxOff >= 0 && (items == 0 <==> Idle(act))
    ensures costs == SlotNurse(c, h, items, act)
  {
    if items == 0 {
      EmptyCostsExact(c, h, act);
      costs := EmptyCosts(c, h, |act|);
    } else {
      costs := PresentCosts(c, h, items, act);
    }
  }

  function Minus(a: NurseCosts, b: NurseCosts): NurseCosts {
    NurseCosts(a.assignments - b.assignments, a.work - b.work, a.off - b.off, a.weekends - b.weekends, a.split - b.split)
  }

  function Both(a: NurseCosts, b: NurseCosts): NurseCosts {
    NurseCosts(a.assignments + b.assignments, a.work + b.work, a.off + b.off, a.weekends + b.weekends, a.split + b.split)
  }

  // The empty term for everyone, and the difference to it for nurses who work.
  method NurseDeltas(c: Contract, h: History, items: nat, act: Activity) returns (costs: NurseCosts)
    requires act != [] && |act| % 7 == 0 && c.maxWork >= 0 && c.maxOff >= 0 && (items == 0 <==> Idle(act))
    ensures costs == SlotNurse(c, h, items, act)
  {
    var empty := EmptyCosts(c, h, |act|);
    costs := empty;
    if items == 0 {
      EmptyCostsExact(c, h, act);
    } else {
      var full := PresentCosts(c, h, items, act);
      costs := Both(costs, Minus(full, empty));
    }
  }

  // The term of a type the nurse never works.
  function EmptyType(t: ShiftType, h: History, id: nat): int {
    if h.lastType == Some(id) then ClosedCost(h.sameType, Bounds(t.minConsecutive, t.maxConsecutive, 15)) else 0
  }

  // The same pair of terms for one shift type: one or the other.
  method TypeTerm(t: ShiftType, h: History, id: nat, any: bool, act: Activity) returns (cost: int)
    requires act != [] && t.maxConsecutive >= 0 && (any <==> exists g :: 0 <= g < |act| && act[g])
    ensures cost == TypeCost(t, h, id, act)
  {
    if !any {
      EmptyWorkCost(act, InitialType(h, id), TypeBounds(t));
      cost := EmptyType(t, h, id);
    } else {
      NoIdleCharge(act, TypeBounds(t));
      cost := RunBoundsCost(Runs(act, |act|), |act|, InitialType(h, id), Bounds(t.minConsecutive, t.maxConsecutive, 15));
    }
  }

  // The empty term for every type, and the difference to it for types the nurse works.
  method TypeDelta(t: ShiftType, h: History, id: nat, any: bool, act: Activity) returns (cost: int)
    requires act != [] && t.maxConsecutive >= 0 && (any <==> exists g :: 0 <= g < |act| && act[g])
    ensures cost == TypeCost(t, h, id, act)
  {
    cost := EmptyType(t, h, id);
    if any {
      NoIdleCharge(act, TypeBounds(t));
      var full := RunBoundsCost(Runs(act, |act|), |act|, InitialType(h, id), Bounds(t.minConsecutive, t.maxConsecutive, 15));
      cost := cost + (full - EmptyType(t, h, id));
    } else {
      EmptyWorkCost(act, InitialType(h, id), TypeBounds(t));
    }
  }

  // ----- the whole soft score -----

  // Slots of the shifts, in order.
  ghost predicate ShiftsOf(shifts: seq<Shift>, slots: seq<Slot>) {
    |shifts| == |slots| && forall i | 0 <= i < |slots| :: shifts[i].slot == slots[i]
  }

  ghost predicate NursesInRange(inst: Instance, nurses: Assigned) {
    forall i | 0 <= i < |nurses| && nurses[i].Some? :: nurses[i].value < |inst.nurses|
  }

  method OptionalTerm(slots: seq<Slot>, nurses: Assigned) returns (cost: int)
    requires |slots| == |nurses|
    ensures cost == 30 * VacantOptional(slots, nurses, |slots|)
  {
    cost := 0;
    for i := 0 to |slots|
      invariant cost == 30 * VacantOptional(slots, nurses, i)
    {
      if nurses[i].None? && !slots[i].isMinimum { cost := cost + 30; }
    }
  }

  method CountEntries(list: seq<nat>, n: nat) returns (count: nat)
    ensures count == Times(list, n)
  {
    count := 0;
    for i := 0 to |list|
      invariant count == Times(list[..i], n)
    {
      assert list[..i + 1] == list[..i] + [list[i]];
      if list[i] == n { count := count + 1; }
    }
    assert list[..|list|] == list;
  }

  method RequestTerm(inst: Instance, shifts: seq<Shift>, slots: seq<Slot>, nurses: Assigned) returns (cost: int)
    requires PlanOk(inst, shifts) && slots == Slots(Needs(inst)) && |slots| == |nurses| && NursesInRange(inst, nurses)
    ensures cost == RefusedSum(slots, nurses, Requests(inst), |slots|)
  {
    cost := 0;
    for i := 0 to |slots|
      invariant cost == RefusedSum(slots, nurses, Requests(inst), i)
    {
      if nurses[i].Some? {
        assert shifts[i].slot == slots[i] && FactsOk(inst, shifts[i]);
        var count := CountEntries(shifts[i].requestNurses, nurses[i].value);
        cost := cost + 10 * count;
      }
    }
  }

  method TypeTerms(inst: Instance, slots: seq<Slot>, nurses: Assigned, n: nat, deltas: bool) returns (cost: int)
    requires inst.WellFormed() && n < |inst.nurses| && |slots| == |nurses|
    requires InRange(slots, |inst.weeks|)
    ensures OncePerDay(slots, nurses) ==> cost == SlotTypes(inst, slots, nurses, n, |inst.shiftTypes|)
  {
    cost := 0;
    for t := 0 to |inst.shiftTypes|
      invariant OncePerDay(slots, nurses) ==> cost == SlotTypes(inst, slots, nurses, n, t)
    {
      var any, act := TypePresenceOf(slots, nurses, inst.TotalDays(), n, t);
      var term;
      if deltas {
        term := TypeDelta(inst.shiftTypes[t], inst.history[n], t, any, act);
      } else {
        term := TypeTerm(inst.shiftTypes[t], inst.history[n], t, any, act);
      }
      cost := cost + term;
    }
  }

  lemma {:induction false} ItemsOrIdle(slots: seq<Slot>, nurses: Assigned, days: nat, n: nat, k: nat)
    requires k <= |slots| == |nurses| && forall i | 0 <= i < |slots| :: slots[i].GlobalDay() < days
    ensures ItemCount(nurses, n, k) == 0 <==> Idle(Present(slots, nurses, days, n, k))
  {
    if k > 0 {
      ItemsOrIdle(slots, nurses, days, n, k - 1);
      var before, after := Present(slots, nurses, days, n, k - 1), Present(slots, nurses, days, n, k);
      if nurses[k - 1] == Some(n) {
        assert after[slots[k - 1].GlobalDay()];
      } else {
        assert after == before;
      }
    }
  }

  method NurseTotal(inst: Instance, slots: seq<Slot>, nurses: Assigned, n: nat, deltas: bool) returns (c: NurseCosts)
    requires inst.WellFormed() && n < |inst.nurses| && |slots| == |nurses| && InRange(slots, |inst.weeks|)
    ensures c == SlotCosts(inst, slots, nurses, n)
  {
    var items, act := PresenceOf(slots, nurses, inst.TotalDays(), n);
    ItemsOrIdle(slots, nurses, inst.TotalDays(), n, |slots|);
    if deltas {
      c := NurseDeltas(inst.ContractOf(n), inst.history[n], items, act);
    } else {
      c := NurseTerms(inst.ContractOf(n), inst.history[n], items, act);
    }
  }

  method NurseScores(inst: Instance, slots: seq<Slot>, nurses: Assigned, deltas: bool) returns (score: Breakdown)
    requires inst.WellFormed() && |slots| == |nurses| && InRange(slots, |inst.weeks|)
    ensures OncePerDay(slots, nurses) ==> score == SlotNurses(inst, slots, nurses, |inst.nurses|)
  {
    score := Breakdown(0, 0, 0, 0, 0, 0, 0, 0);
    for n := 0 to |inst.nurses|
      invariant OncePerDay(slots, nurses) ==> score == SlotNurses(inst, slots, nurses, n)
    {
      var c := NurseTotal(inst, slots, nurses, n, deltas);
      var types := TypeTerms(inst, slots, nurses, n, deltas);
      score := AddNurse(score, c, types);
    }
  }

  // Both adapters' soft score: terms per nurse and per type either alternate or add up as
  // differences.
  method SoftScore(inst: Instance, shifts: seq<Shift>, slots: seq<Slot>, nurses: Assigned, deltas: bool)
    returns (score: Breakdown)
    requires inst.WellFormed() && PlanOk(inst, shifts) && slots == Slots(Needs(inst)) && |slots| == |nurses|
    requires NursesInRange(inst, nurses)
    ensures OncePerDay(slots, nurses) ==> score == SlotBreakdown(inst, slots, nurses)
  {
    SlotsInRange(inst);
    score := NurseScores(inst, slots, nurses, deltas);
    var optional := OptionalTerm(slots, nurses);
    var off := RequestTerm(inst, shifts, slots, nurses);
    score := score.(optimalCoverage := optional, shiftOff := off);
  }

  // ----- the hard score -----

  method SingleTerm(inst: Instance, s: Shift, slots: seq<Slot>, nurses: Assigned, i: nat) returns (hard: nat)
    requires |inst.history| == |inst.nurses| && i < |slots| == |nurses| && s.slot == slots[i] && FactsOk(inst, s)
    requires NursesInRange(inst, nurses)
    ensures hard == (if IsVacant(slots, nurses, i) then 1000 else 0) +
      (if IsUnskilled(inst, slots, nurses, i) then 1 else 0) + (if IsBadStart(inst, slots, nurses, i) then 1 else 0)
  {
    hard := 0;
    if nurses[i].None? {
      if s.slot.isMinimum { hard := 1000; }
      return;
    }
    var n := nurses[i].value;
    if s.slot.skill !in inst.nurses[n].skills { hard := hard + 1; }
    if s.slot.week == 0 && s.slot.day == 0 && inst.history[n].lastType.Some? &&
       inst.history[n].lastType.value in s.forbiddenPredecessors
    {
      hard := hard + 1;
    }
  }

  // Pairs of one nurse's shifts, counted once per unordered pair.
  method PairTerm(inst: Instance, shifts: seq<Shift>, slots: seq<Slot>, nurses: Assigned, i: nat, j: nat) returns (hard: nat)
    requires ShiftsOf(shifts, slots) && |slots| == |nurses| && i < j < |slots|
    requires FactsOk(inst, shifts[i]) && FactsOk(inst, shifts[j])
    ensures hard == PairCount(inst, slots, nurses, i, j)
  {
    hard := 0;
    if nurses[i].None? || nurses[i] != nurses[j] { return; }
    var left, right := shifts[i], shifts[j];
    if left.slot.week == right.slot.week && left.slot.day == right.slot.day { hard := hard + 1; }
    if left.slot.GlobalDay() + 1 == right.slot.GlobalDay() {
      if left.slot.shiftType in right.forbiddenPredecessors { hard := hard + 1; }
    } else if right.slot.GlobalDay() + 1 == left.slot.GlobalDay() {
      if right.slot.shiftType in left.forbiddenPredecessors { hard := hard + 1; }
    }
  }

  method PairTerms(inst: Instance, shifts: seq<Shift>, slots: seq<Slot>, nurses: Assigned, j: nat) returns (hard: nat)
    requires ShiftsOf(shifts, slots) && |slots| == |nurses| && j < |slots|
    requires forall i | 0 <= i < |slots| :: FactsOk(inst, shifts[i])
    ensures hard == RowCount(inst, slots, nurses, j, j)
  {
    hard := 0;
    for i := 0 to j
      invariant hard == RowCount(inst, slots, nurses, j, i)
    {
      var term := PairTerm(inst, shifts, slots, nurses, i, j);
      RowStep(inst, slots, nurses, j, i);
      hard := hard + term;
    }
  }

  // The violations, counted and weighed.
  method HardScore(inst: Instance, shifts: seq<Shift>, slots: seq<Slot>, nurses: Assigned) returns (hard: nat)
    requires inst.WellFormed() && PlanOk(inst, shifts) && slots == Slots(Needs(inst)) && |slots| == |nurses|
    requires NursesInRange(inst, nurses)
    ensures hard == 1000 * |VacantSlots(slots, nurses, |slots|)| + |UnskilledSlots(inst, slots, nurses, |slots|)| +
      |BadStarts(inst, slots, nurses, |slots|)| + |Doubles(slots, nurses, |slots|)| + |Successions(inst, slots, nurses, |slots|)|
    ensures hard == 0 <==> HardOk(inst, slots, nurses)
  {
    hard := 0;
    for i := 0 to |slots|
      invariant hard == 1000 * |VacantSlots(slots, nurses, i)| + |UnskilledSlots(inst, slots, nurses, i)| +
        |BadStarts(inst, slots, nurses, i)|
    {
      assert shifts[i].slot == slots[i] && FactsOk(inst, shifts[i]);
      var term := SingleTerm(inst, shifts[i], slots, nurses, i);
      VacantStep(slots, nurses, i);
      UnskilledStep(inst, slots, nurses, i);
      BadStartsStep(inst, slots, nurses, i);
      hard := hard + term;
    }
    var pairs: nat := 0;
    for j := 0 to |slots|
      invariant pairs == |Doubles(slots, nurses, j)| + |Successions(inst, slots, nurses, j)|
    {
      var term := PairTerms(inst, shifts, slots, nurses, j);
      PairsStep(inst, slots, nurses, j);
      pairs := pairs + term;
    }
    HardCountZero(inst, slots, nurses);
    hard := hard + pairs;
  }

  // The adapter's answer: refused while a minimum slot is empty; otherwise, without hard
  // violation, a roster the validator accepts at exactly the reported cost.
  method Answer(inst: Instance, shifts: seq<Shift>, nurses: Assigned, deltas: bool)
    returns (r: Result<(Roster, int), seq<nat>>)
    requires inst.WellFormed() && PlanOk(inst, shifts) && |shifts| == |nurses| && NursesInRange(inst, nurses)
    ensures r.Err? <==> exists i :: 0 <= i < |shifts| && shifts[i].slot.isMinimum && nurses[i].None?
    ensures r.Err? ==> forall i: nat :: i in r.error <==> i < |shifts| && shifts[i].slot.isMinimum && nurses[i].None?
    ensures r.Ok? && HardOk(inst, Slots(Needs(inst)), nurses) ==>
      Accepted(inst, r.value.0) && r.value.1 == BreakdownOf(inst, r.value.0).Sum()
  {
    var missing: seq<nat> := [];
    for i := 0 to |shifts|
      invariant forall l: nat :: l in missing <==> l < i && shifts[l].slot.isMinimum && nurses[l].None?
    {
      if shifts[i].slot.isMinimum && nurses[i].None? { missing := missing + [i]; }
    }
    if missing != [] {
      assert missing[0] in missing;
      return Err(missing);
    }
    var slots := seq(|shifts|, i requires 0 <= i < |shifts| => shifts[i].slot);
    assert slots == Slots(Needs(inst));
    var score := SoftScore(inst, shifts, slots, nurses, deltas);
    SlotsInRange(inst);
    var roster := Extract(slots, nurses, |inst.weeks|);
    if HardOk(inst, slots, nurses) {
      OnceFromHard(inst, slots, nurses, |inst.weeks|);
      SlotParity(inst, nurses);
    }
    return Ok((roster, score.Sum()));
  }
}
