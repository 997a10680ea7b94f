// Nurse rostering instances and weekly assignments, and what makes an assignment acceptable
// and how much it costs. Nurses, skills, shift types and days are named by position.
module RosterModel {
  import opened Wrappers
  import opened RosterRuns

  datatype ShiftType = ShiftType(minConsecutive: int, maxConsecutive: int)

  datatype Contract = Contract(minAssignments: int, maxAssignments: int, minWork: int, maxWork: int,
                               minOff: int, maxOff: int, maxWeekends: int, completeWeekends: bool)

  datatype Nurse = Nurse(contract: nat, skills: seq<nat>)

  // State at the end of the previous period; lastType is empty after a day off.
  datatype History = History(assignments: nat, weekends: nat, lastType: Option<nat>, sameType: nat, work: nat, off: nat)

  datatype DayNeed = DayNeed(minimum: int, optimal: int)

  datatype Requirement = Requirement(shiftType: nat, skill: nat, days: seq<DayNeed>)

  // A request for any shift has no type.
  datatype Request = Request(nurse: nat, shiftType: Option<nat>, day: nat)

  datatype Week = Week(requirements: seq<Requirement>, requests: seq<Request>)

  datatype Instance = Instance(shiftTypes: seq<ShiftType>, contracts: seq<Contract>, nurses: seq<Nurse>,
                               history: seq<History>, forbidden: seq<(nat, seq<nat>)>, weeks: seq<Week>) {
    function TotalDays(): nat { |weeks| * 7 }

    function ContractOf(n: nat): Contract
      requires n < |nurses| && nurses[n].contract < |contracts|
    {
      contracts[nurses[n].contract]
    }

    ghost predicate WellFormed() {
      && weeks != [] && |history| == |nurses|
      && (forall n | 0 <= n < |nurses| :: nurses[n].contract < |contracts|)
      && (forall c | 0 <= c < |contracts| :: contracts[c].maxWork >= 0 && contracts[c].maxOff >= 0)
      && (forall t | 0 <= t < |shiftTypes| :: shiftTypes[t].maxConsecutive >= 0)
      && (forall i, j | 0 <= i < j < |forbidden| :: forbidden[i].0 != forbidden[j].0)
      && (forall w | 0 <= w < |weeks| :: WeekOk(weeks[w]))
    }

    ghost predicate WeekOk(week: Week) {
      && (forall r | 0 <= r < |week.requirements| :: RequirementOk(week.requirements[r]))
      && (forall r, s | 0 <= r < s < |week.requirements| ::
            week.requirements[r].shiftType != week.requirements[s].shiftType ||
            week.requirements[r].skill != week.requirements[s].skill)
      && (forall q | 0 <= q < |week.requests| :: week.requests[q].nurse < |nurses| && week.requests[q].day < 7)
    }

    ghost predicate RequirementOk(r: Requirement) {
      |r.days| == 7 && forall d | 0 <= d < 7 :: r.days[d].minimum <= r.days[d].optimal
    }
  }

  datatype Assignment = Assignment(nurse: nat, day: nat, shiftType: nat, skill: nat)

  type Roster = seq<seq<Assignment>>

  // ----- needs and requests, flattened in loop order -----

  datatype Need = Need(week: nat, day: nat, shiftType: nat, skill: nat, minimum: int, optimal: int)

  function DayNeeds(w: nat, r: Requirement, d: nat): (needs: seq<Need>)
    requires d <= |r.days|
    ensures |needs| == d
  {
    if d == 0 then []
    else DayNeeds(w, r, d - 1) + [Need(w, d - 1, r.shiftType, r.skill, r.days[d - 1].minimum, r.days[d - 1].optimal)]
  }

  function WeekNeeds(w: nat, week: Week, r: nat): seq<Need>
    requires r <= |week.requirements|
  {
    if r == 0 then [] else WeekNeeds(w, week, r - 1) + DayNeeds(w, week.requirements[r - 1], |week.requirements[r - 1].days|)
  }

  function NeedsBefore(weeks: seq<Week>, w: nat): seq<Need>
    requires w <= |weeks|
  {
    if w == 0 then [] else NeedsBefore(weeks, w - 1) + WeekNeeds(w - 1, weeks[w - 1], |weeks[w - 1].requirements|)
  }

  function Needs(inst: Instance): seq<Need> { NeedsBefore(inst.weeks, |inst.weeks|) }

  datatype DayRequest = DayRequest(nurse: nat, globalDay: nat, shiftType: Option<nat>)

  function WeekRequests(w: nat, week: Week, q: nat): seq<DayRequest>
    requires q <= |week.requests|
  {
    if q == 0 then []
    else
      var r := week.requests[q - 1];
      WeekRequests(w, week, q - 1) + [DayRequest(r.nurse, w * 7 + r.day, r.shiftType)]
  }

  function RequestsBefore(weeks: seq<Week>, w: nat): seq<DayRequest>
    requires w <= |weeks|
  {
    if w == 0 then [] else RequestsBefore(weeks, w - 1) + WeekRequests(w - 1, weeks[w - 1], |weeks[w - 1].requests|)
  }

  function Requests(inst: Instance): seq<DayRequest> { RequestsBefore(inst.weeks, |inst.weeks|) }

  predicate Matches(r: DayRequest, shiftType: nat) { r.shiftType.None? || r.shiftType.value == shiftType }

  // ----- the schedule -----

  // What the first k assignments of a week give a nurse on a day.
  ghost function EntryIn(week: seq<Assignment>, n: nat, day: nat, k: nat): Option<Assignment>
    requires k <= |week|
  {
    if k == 0 then None
    else if week[k - 1].nurse == n && week[k - 1].day == day then Some(week[k - 1])
    else EntryIn(week, n, day, k - 1)
  }

  ghost function Entry(roster: Roster, n: nat, g: nat): Option<Assignment>
    requires g < 7 * |roster|
  {
    EntryIn(roster[g / 7], n, g % 7, |roster[g / 7]|)
  }

  ghost function Worked(roster: Roster, n: nat): (act: Activity)
    ensures |act| == 7 * |roster| && forall g | 0 <= g < |act| :: act[g] == Entry(roster, n, g).Some?
  {
    seq(7 * |roster|, g requires 0 <= g < 7 * |roster| => Entry(roster, n, g).Some?)
  }

  ghost predicate OnType(roster: Roster, n: nat, t: nat, g: nat)
    requires g < 7 * |roster|
  {
    Entry(roster, n, g).Some? && Entry(roster, n, g).value.shiftType == t
  }

  ghost function WorkedType(roster: Roster, n: nat, t: nat): (act: Activity)
    ensures |act| == 7 * |roster| && forall g | 0 <= g < |act| :: act[g] == OnType(roster, n, t, g)
  {
    seq(7 * |roster|, g requires 0 <= g < 7 * |roster| => OnType(roster, n, t, g))
  }

  // Assignments of a week with the given type, skill and day.
  ghost function Coverage(week: seq<Assignment>, need: Need, k: nat): nat
    requires k <= |week|
  {
    if k == 0 then 0
    else Coverage(week, need, k - 1) + (if Serves(week[k - 1], need) then 1 else 0)
  }

  predicate Serves(a: Assignment, need: Need) {
    a.shiftType == need.shiftType && a.skill == need.skill && a.day == need.day
  }

  ghost function Covered(roster: Roster, need: Need): nat
    requires need.week < |roster|
  {
    Coverage(roster[need.week], need, |roster[need.week]|)
  }

  predicate Forbids(inst: Instance, previous: nat, current: nat) {
    exists i | 0 <= i < |inst.forbidden| :: inst.forbidden[i].0 == previous && current in inst.forbidden[i].1
  }

  // ----- hard rules -----

  ghost predicate AssignmentOk(inst: Instance, a: Assignment) {
    a.nurse < |inst.nurses| && a.day < 7 && a.skill in inst.nurses[a.nurse].skills
  }

  ghost predicate Clash(a: Assignment, b: Assignment) {
    a.nurse == b.nurse && a.day == b.day
  }

  ghost predicate WeekAssigned(inst: Instance, week: seq<Assignment>) {
    && (forall i | 0 <= i < |week| :: AssignmentOk(inst, week[i]))
    && (forall i, j | 0 <= i < j < |week| :: !Clash(week[i], week[j]))
  }

  ghost predicate NeedMet(roster: Roster, need: Need) {
    need.week < |roster| && Covered(roster, need) >= need.minimum
  }

  // Type worked the day before; day 0 looks at the history.
  ghost function PreviousType(inst: Instance, roster: Roster, n: nat, g: nat): Option<nat>
    requires n < |inst.history| && g < 7 * |roster|
  {
    if g == 0 then inst.history[n].lastType
    else if Entry(roster, n, g - 1).Some? then Some(Entry(roster, n, g - 1).value.shiftType)
    else None
  }

  ghost predicate SuccessionOk(inst: Instance, roster: Roster, n: nat, g: nat)
    requires n < |inst.history| && g < 7 * |roster|
  {
    var previous := PreviousType(inst, roster, n, g);
    Entry(roster, n, g).Some? && previous.Some? ==> !Forbids(inst, previous.value, Entry(roster, n, g).value.shiftType)
  }

  ghost predicate Accepted(inst: Instance, roster: Roster)
    requires |inst.history| == |inst.nurses|
  {
    && |roster| == |inst.weeks|
    && (forall w | 0 <= w < |roster| :: WeekAssigned(inst, roster[w]))
    && (forall i | 0 <= i < |Needs(inst)| :: NeedMet(roster, Needs(inst)[i]))
    && (forall n, g | 0 <= n < |inst.nurses| && 0 <= g < 7 * |roster| :: SuccessionOk(inst, roster, n, g))
  }

  // ----- costs -----

  // Outside min .. max, 20 for every assignment.
  function AssignmentCost(total: int, c: Contract): int {
    if total < c.minAssignments then 20 * (c.minAssignments - total)
    else if total > c.maxAssignments then 20 * (total - c.maxAssignments)
    else 0
  }

  ghost function Count(act: Activity, k: nat): nat
    requires k <= |act|
  {
    if k == 0 then 0 else Count(act, k - 1) + (if act[k - 1] then 1 else 0)
  }

  // Saturday or Sunday worked.
  ghost predicate WeekendWorked(act: Activity, w: nat)
    requires 7 * w + 6 < |act|
  {
    act[7 * w + 5] || act[7 * w + 6]
  }

  ghost predicate WeekendSplit(act: Activity, w: nat)
    requires 7 * w + 6 < |act|
  {
    act[7 * w + 5] != act[7 * w + 6]
  }

  ghost function Weekends(act: Activity, w: nat): nat
    requires 7 * w <= |act|
  {
    if w == 0 then 0 else Weekends(act, w - 1) + (if WeekendWorked(act, w - 1) then 1 else 0)
  }

  ghost function Splits(act: Activity, w: nat): nat
    requires 7 * w <= |act|
  {
    if w == 0 then 0 else Splits(act, w - 1) + (if WeekendSplit(act, w - 1) then 1 else 0)
  }

  function WorkBounds(c: Contract): Bounds { Bounds(c.minWork, c.maxWork, 30) }

  function OffBounds(c: Contract): Bounds { Bounds(c.minOff, c.maxOff, 30) }

  function TypeBounds(t: ShiftType): Bounds { Bounds(t.minConsecutive, t.maxConsecutive, 15) }

  function InitialWork(h: History): nat { if h.lastType.Some? then h.work else 0 }

  function InitialOff(h: History): nat { if h.lastType.None? then h.off else 0 }

  function InitialType(h: History, t: nat): nat { if h.lastType == Some(t) then h.sameType else 0 }

  function WeekendCost(weekends: int, c: Contract): int {
    if weekends > c.maxWeekends then 30 * (weekends - c.maxWeekends) else 0
  }

  // Charges of one nurse, apart from those per shift type.
  datatype NurseCosts = NurseCosts(assignments: int, work: int, off: int, weekends: int, split: int)

  ghost function NurseCost(c: Contract, h: History, act: Activity): NurseCosts
    requires |act| % 7 == 0
  {
    NurseCosts(
      AssignmentCost(Count(act, |act|) + h.assignments, c),
      RunCost(act, InitialWork(h), WorkBounds(c)),
      RunCost(Complement(act), InitialOff(h), OffBounds(c)),
      WeekendCost(h.weekends + Weekends(act, |act| / 7), c),
      if c.completeWeekends then 30 * Splits(act, |act| / 7) else 0)
  }

  ghost function TypeCost(t: ShiftType, h: History, id: nat, act: Activity): int {
    RunCost(act, InitialType(h, id), TypeBounds(t))
  }

  // Nurses missing to the optimum, 30 each.
  ghost function Shortfall(roster: Roster, need: Need): int {
    if need.week < |roster| && Covered(roster, need) < need.optimal then 30 * (need.optimal - Covered(roster, need)) else 0
  }

  ghost function Shortfalls(roster: Roster, needs: seq<Need>): int {
    if needs == [] then 0 else Shortfalls(roster, needs[..|needs| - 1]) + Shortfall(roster, needs[|needs| - 1])
  }

  lemma {:induction false} ShortfallsConcat(roster: Roster, a: seq<Need>, b: seq<Need>)
    ensures Shortfalls(roster, a + b) == Shortfalls(roster, a) + Shortfalls(roster, b)
  {
    if b == [] {
      assert a + b == a;
    } else {
      ShortfallsConcat(roster, a, b[..|b| - 1]);
      assert (a + b)[..|a + b| - 1] == a + b[..|b| - 1];
    }
  }

  // 10 when the nurse works on the day of the request, in a type it covers.
  ghost function Refusal(roster: Roster, r: DayRequest): int {
    if r.globalDay < 7 * |roster| && Entry(roster, r.nurse, r.globalDay).Some? &&
       Matches(r, Entry(roster, r.nurse, r.globalDay).value.shiftType) then 10 else 0
  }

  ghost function Refusals(roster: Roster, requests: seq<DayRequest>): int {
    if requests == [] then 0
    else Refusals(roster, requests[..|requests| - 1]) + Refusal(roster, requests[|requests| - 1])
  }

  ghost function CostsOf(inst: Instance, roster: Roster, n: nat): NurseCosts
    requires n < |inst.nurses| == |inst.history| && inst.nurses[n].contract < |inst.contracts|
  {
    NurseCost(inst.ContractOf(n), inst.history[n], Worked(roster, n))
  }

  // Consecutive-type charges of one nurse over the first t types.
  ghost function TypeCosts(inst: Instance, roster: Roster, n: nat, t: nat): int
    requires n < |inst.history| && t <= |inst.shiftTypes|
  {
    if t == 0 then 0
    else TypeCosts(inst, roster, n, t - 1) +
         TypeCost(inst.shiftTypes[t - 1], inst.history[n], t - 1, WorkedType(roster, n, t - 1))
  }

  datatype Breakdown = Breakdown(optimalCoverage: int, shiftOff: int, assignments: int, work: int, off: int,
                                 shiftType: int, weekends: int, split: int)
  {
    function Sum(): int { optimalCoverage + shiftOff + assignments + work + off + shiftType + weekends + split }
  }

  function AddNurse(b: Breakdown, c: NurseCosts, types: int): Breakdown {
    b.(assignments := b.assignments + c.assignments, work := b.work + c.work, off := b.off + c.off,
       shiftType := b.shiftType + types, weekends := b.weekends + c.weekends, split := b.split + c.split)
  }

  // Charges of the first k nurses.
  ghost function NurseCharges(inst: Instance, roster: Roster, k: nat): Breakdown
    requires inst.WellFormed() && k <= |inst.nurses|
  {
    if k == 0 then Breakdown(0, 0, 0, 0, 0, 0, 0, 0)
    else
      AddNurse(NurseCharges(inst, roster, k - 1), CostsOf(inst, roster, k - 1),
               TypeCosts(inst, roster, k - 1, |inst.shiftTypes|))
  }

  // The soft cost of an accepted roster, by rule.
  ghost function BreakdownOf(inst: Instance, roster: Roster): Breakdown
    requires inst.WellFormed()
  {
    NurseCharges(inst, roster, |inst.nurses|).(
      optimalCoverage := Shortfalls(roster, Needs(inst)), shiftOff := Refusals(roster, Requests(inst)))
  }
}
