// The validator: hard rules in the order they are checked, then the charges rule by rule.
module RosterValidate {
  import opened Wrappers
  import opened RosterRuns
  import opened RosterModel
  import opened RosterCharges

  datatype Violation =
    | WeekCount(weeks: nat)
    | UnknownNurse(week: nat, position: nat)
    | UnknownDay(week: nat, position: nat)
    | MultipleAssignments(week: nat, position: nat)
    | MissingSkill(week: nat, position: nat)
    | BelowMinimum(need: Need)
    | ForbiddenSuccession(nurse: nat, globalDay: nat)

  ghost predicate At(roster: Roster, w: nat, i: nat) {
    w < |roster| && i < |roster[w]|
  }

  // What each violation reports.
  ghost predicate ViolationHolds(inst: Instance, roster: Roster, v: Violation)
    requires |inst.history| == |inst.nurses|
  {
    match v
    case WeekCount(weeks) => weeks == |roster| != |inst.weeks|
    case UnknownNurse(w, i) => At(roster, w, i) && roster[w][i].nurse >= |inst.nurses|
    case UnknownDay(w, i) => At(roster, w, i) && roster[w][i].day >= 7
    case MultipleAssignments(w, i) => At(roster, w, i) && exists j :: 0 <= j < i && Clash(roster[w][j], roster[w][i])
    case MissingSkill(w, i) =>
      At(roster, w, i) && roster[w][i].nurse < |inst.nurses| && roster[w][i].skill !in inst.nurses[roster[w][i].nurse].skills
    case BelowMinimum(need) => need in Needs(inst) && !NeedMet(roster, need)
    case ForbiddenSuccession(n, g) => n < |inst.nurses| && g < 7 * |roster| && !SuccessionOk(inst, roster, n, g)
  }

  lemma ViolationRefutes(inst: Instance, roster: Roster, v: Violation)
    requires |inst.history| == |inst.nurses| && ViolationHolds(inst, roster, v)
    ensures !Accepted(inst, roster)
  {
    match v
    case WeekCount(_) =>
    case UnknownNurse(w, i) => assert !AssignmentOk(inst, roster[w][i]) && !WeekAssigned(inst, roster[w]);
    case UnknownDay(w, i) => assert !AssignmentOk(inst, roster[w][i]) && !WeekAssigned(inst, roster[w]);
    case MissingSkill(w, i) => assert !AssignmentOk(inst, roster[w][i]) && !WeekAssigned(inst, roster[w]);
    case MultipleAssignments(w, i) =>
      var j :| 0 <= j < i && Clash(roster[w][j], roster[w][i]);
      assert !WeekAssigned(inst, roster[w]);
    case BelowMinimum(need) =>
      var k :| 0 <= k < |Needs(inst)| && Needs(inst)[k] == need;
    case ForbiddenSuccession(n, g) =>
  }

  // ----- which violation comes first -----

  // The weeks before w and the assignments before i in week w are fine.
  ghost predicate FineBefore(inst: Instance, roster: Roster, w: nat, i: nat) {
    && |roster| == |inst.weeks| && At(roster, w, i)
    && (forall x | 0 <= x < w :: WeekAssigned(inst, roster[x])) && WeekPrefix(inst, roster[w], i)
  }

  ghost predicate AllAssigned(inst: Instance, roster: Roster) {
    |roster| == |inst.weeks| && forall w | 0 <= w < |roster| :: WeekAssigned(inst, roster[w])
  }

  // Day g of nurse n is scanned after all days of earlier nurses.
  ghost predicate SuccessionsFineBefore(inst: Instance, roster: Roster, n: nat, g: nat)
    requires n < |inst.history| && g <= 7 * |roster|
  {
    && (forall m, d | 0 <= m < n && 0 <= d < 7 * |roster| :: SuccessionOk(inst, roster, m, d))
    && (forall d | 0 <= d < g :: SuccessionOk(inst, roster, n, d))
  }

  ghost predicate NeedsMetBefore(roster: Roster, needs: seq<Need>, k: nat)
    requires k <= |needs|
  {
    forall i | 0 <= i < k :: NeedMet(roster, needs[i])
  }

  // The violation is the first in the order of the checks: the number of weeks; assignment by
  // assignment the nurse, the day, a second shift and the skill; the needs in order; then the
  // successions nurse by nurse and day by day.
  ghost predicate ComesFirst(inst: Instance, roster: Roster, v: Violation)
    requires |inst.history| == |inst.nurses| && ViolationHolds(inst, roster, v)
  {
    match v
    case WeekCount(_) => true
    case UnknownNurse(w, i) => FineBefore(inst, roster, w, i)
    case UnknownDay(w, i) => FineBefore(inst, roster, w, i) && roster[w][i].nurse < |inst.nurses|
    case MultipleAssignments(w, i) =>
      FineBefore(inst, roster, w, i) && roster[w][i].nurse < |inst.nurses| && roster[w][i].day < 7
    case MissingSkill(w, i) =>
      FineBefore(inst, roster, w, i) && roster[w][i].day < 7 && forall j | 0 <= j < i :: !Clash(roster[w][j], roster[w][i])
    case BelowMinimum(need) =>
      AllAssigned(inst, roster) &&
      exists k :: 0 <= k < |Needs(inst)| && Needs(inst)[k] == need && NeedsMetBefore(roster, Needs(inst), k)
    case ForbiddenSuccession(n, g) =>
      AllAssigned(inst, roster) && AllMet(roster, Needs(inst)) && SuccessionsFineBefore(inst, roster, n, g)
  }

  // ----- filling the schedule -----

  type Grid = array2<Option<Assignment>>

  // Entries after the weeks before w and the first k assignments of week w.
  ghost function FilledEntry(roster: Roster, n: nat, g: nat, w: nat, k: nat): Option<Assignment>
    requires w < |roster| ==> k <= |roster[w]|
  {
    if g >= 7 * |roster| then None
    else if g / 7 < w then Entry(roster, n, g)
    else if g / 7 == w then EntryIn(roster[w], n, g % 7, k)
    else None
  }

  ghost predicate GridIs(grid: Grid, roster: Roster, w: nat, k: nat)
    reads grid
    requires w < |roster| ==> k <= |roster[w]|
  {
    forall n: nat, g: nat | n < grid.Length0 && g < grid.Length1 :: grid[n, g] == FilledEntry(roster, n, g, w, k)
  }

  // The first k assignments of a week are fine.
  ghost predicate WeekPrefix(inst: Instance, week: seq<Assignment>, k: nat)
    requires k <= |week|
  {
    && (forall i | 0 <= i < k :: AssignmentOk(inst, week[i]))
    && (forall i, j | 0 <= i < j < k :: !Clash(week[i], week[j]))
  }

  lemma {:induction false} EntryOrigin(week: seq<Assignment>, n: nat, day: nat, k: nat)
    requires k <= |week|
    ensures EntryIn(week, n, day, k).Some? <==> exists j :: 0 <= j < k && week[j].nurse == n && week[j].day == day
  {
    if k > 0 { EntryOrigin(week, n, day, k - 1); }
  }

  lemma PlaceEntry(roster: Roster, w: nat, k: nat, n: nat, g: nat)
    requires w < |roster| && k < |roster[w]| && roster[w][k].day < 7
    ensures FilledEntry(roster, n, g, w, k + 1) ==
      if n == roster[w][k].nurse && g == w * 7 + roster[w][k].day then Some(roster[w][k]) else FilledEntry(roster, n, g, w, k)
  {
    if g / 7 == w { assert g == w * 7 + g % 7; }
  }

  method PlaceAssignment(inst: Instance, roster: Roster, grid: Grid, w: nat, k: nat) returns (r: Option<Violation>)
    requires |inst.history| == |inst.nurses| && FineBefore(inst, roster, w, k)
    requires grid.Length0 == |inst.nurses| && grid.Length1 == 7 * |roster| && GridIs(grid, roster, w, k)
    modifies grid
    ensures r.Some? ==> ViolationHolds(inst, roster, r.value) && ComesFirst(inst, roster, r.value)
    ensures r.None? ==> WeekPrefix(inst, roster[w], k + 1) && GridIs(grid, roster, w, k + 1)
  {
    var a := roster[w][k];
    if a.nurse >= |inst.nurses| { return Some(UnknownNurse(w, k)); }
    if a.day >= 7 { return Some(UnknownDay(w, k)); }
    var g := w * 7 + a.day;
    EntryOrigin(roster[w], a.nurse, a.day, k);
    if grid[a.nurse, g].Some? {
      return Some(MultipleAssignments(w, k));
    }
    forall j | 0 <= j < k ensures !Clash(roster[w][j], a) {
    }
    forall n: nat, d: nat
      ensures FilledEntry(roster, n, d, w, k + 1) == if n == a.nurse && d == g then Some(a) else FilledEntry(roster, n, d, w, k)
    {
      PlaceEntry(roster, w, k, n, d);
    }
    grid[a.nurse, g] := Some(a);
    if a.skill !in inst.nurses[a.nurse].skills { return Some(MissingSkill(w, k)); }
    return None;
  }

  lemma WeekDone(roster: Roster, w: nat)
    requires w < |roster|
    ensures forall n: nat, g: nat :: FilledEntry(roster, n, g, w, |roster[w]|) == FilledEntry(roster, n, g, w + 1, 0)
  {
  }

  method FillGrid(inst: Instance, roster: Roster) returns (r: Result<Grid, Violation>)
    requires |inst.history| == |inst.nurses| && |roster| == |inst.weeks|
    ensures r.Err? ==> ViolationHolds(inst, roster, r.error) && ComesFirst(inst, roster, r.error)
    ensures r.Ok? ==> AllAssigned(inst, roster)
    ensures r.Ok? ==> fresh(r.value) && r.value.Length0 == |inst.nurses| && r.value.Length1 == 7 * |roster|
    ensures r.Ok? ==> GridIs(r.value, roster, |roster|, 0)
  {
    var grid := new Option<Assignment>[|inst.nurses|, 7 * |roster|]((_, _) => None);
    for w := 0 to |roster|
      invariant forall i | 0 <= i < w :: WeekAssigned(inst, roster[i])
      invariant GridIs(grid, roster, w, 0)
    {
      for k := 0 to |roster[w]|
        invariant WeekPrefix(inst, roster[w], k) && GridIs(grid, roster, w, k)
      {
        var v := PlaceAssignment(inst, roster, grid, w, k);
        if v.Some? { return Err(v.value); }
      }
      WeekDone(roster, w);
    }
    return Ok(grid);
  }

  // ----- coverage -----

  type Key = (nat, nat, nat)

  // Counts by (shift type, skill, day) after the first k assignments.
  ghost predicate Counted(week: seq<Assignment>, k: nat, table: map<Key, nat>)
    requires k <= |week|
  {
    forall need: Need :: Lookup(table, need) == Coverage(week, need, k)
  }

  function Lookup(table: map<Key, nat>, need: Need): nat {
    var key := (need.shiftType, need.skill, need.day);
    if key in table then table[key] else 0
  }

  function Bump(table: map<Key, nat>, key: Key): map<Key, nat> {
    table[key := (if key in table then table[key] else 0) + 1]
  }

  lemma CountStep(week: seq<Assignment>, k: nat, table: map<Key, nat>)
    requires k < |week| && Counted(week, k, table)
    ensures Counted(week, k + 1, Bump(table, (week[k].shiftType, week[k].skill, week[k].day)))
  {
    var after := Bump(table, (week[k].shiftType, week[k].skill, week[k].day));
    forall need: Need ensures Lookup(after, need) == Coverage(week, need, k + 1) {
      assert Lookup(table, need) == Coverage(week, need, k);
    }
  }

  method CoverageTable(week: seq<Assignment>) returns (table: map<Key, nat>)
    ensures Counted(week, |week|, table)
  {
    table := map[];
    for k := 0 to |week|
      invariant Counted(week, k, table)
    {
      CountStep(week, k, table);
      table := Bump(table, (week[k].shiftType, week[k].skill, week[k].day));
    }
  }

  // Whether a need is below its minimum, and its charge, read off the week's counts.
  lemma NeedFromTable(roster: Roster, need: Need, table: map<Key, nat>)
    requires need.week < |roster| && Counted(roster[need.week], |roster[need.week]|, table)
    ensures NeedMet(roster, need) <==> Lookup(table, need) >= need.minimum
    ensures Shortfall(roster, need) ==
      if Lookup(table, need) < need.optimal then 30 * (need.optimal - Lookup(table, need)) else 0
  {
  }

  ghost predicate AllMet(roster: Roster, needs: seq<Need>) {
    forall i | 0 <= i < |needs| :: NeedMet(roster, needs[i])
  }

  lemma AllMetConcat(roster: Roster, a: seq<Need>, b: seq<Need>)
    requires AllMet(roster, a) && AllMet(roster, b)
    ensures AllMet(roster, a + b)
  {
  }

  method CheckRequirement(roster: Roster, w: nat, req: Requirement, table: map<Key, nat>) returns (r: Option<Violation>)
    requires w < |roster| && Counted(roster[w], |roster[w]|, table)
    ensures r.None? ==> AllMet(roster, DayNeeds(w, req, |req.days|))
    ensures r.Some? ==> FirstUnmet(roster, DayNeeds(w, req, |req.days|), r.value)
  {
    for d := 0 to |req.days|
      invariant AllMet(roster, DayNeeds(w, req, d))
    {
      var need := Need(w, d, req.shiftType, req.skill, req.days[d].minimum, req.days[d].optimal);
      NeedFromTable(roster, need, table);
      if Lookup(table, need) < need.minimum {
        DayNeedIn(w, req, d, |req.days|);
        DayNeedsPrefix(w, req, d, |req.days|);
        forall i | 0 <= i < d ensures NeedMet(roster, DayNeeds(w, req, |req.days|)[i]) {
          assert DayNeeds(w, req, |req.days|)[i] == DayNeeds(w, req, d)[i];
        }
        assert IsFirstUnmet(roster, DayNeeds(w, req, |req.days|), d, need);
        return Some(BelowMinimum(need));
      }
    }
    return None;
  }

  lemma {:induction false} DayNeedIn(w: nat, req: Requirement, d: nat, k: nat)
    requires d < k <= |req.days|
    ensures DayNeeds(w, req, k)[d] == Need(w, d, req.shiftType, req.skill, req.days[d].minimum, req.days[d].optimal)
  {
    if d < k - 1 { DayNeedIn(w, req, d, k - 1); }
  }

  lemma {:induction false} DayNeedsPrefix(w: nat, req: Requirement, d: nat, k: nat)
    requires d <= k <= |req.days|
    ensures DayNeeds(w, req, d) <= DayNeeds(w, req, k)
  {
    if d < k { DayNeedsPrefix(w, req, d, k - 1); }
  }

  lemma {:induction false} WeekNeedsPrefix(w: nat, week: Week, r: nat, k: nat)
    requires r <= k <= |week.requirements|
    ensures WeekNeeds(w, week, r) <= WeekNeeds(w, week, k)
  {
    if r < k { WeekNeedsPrefix(w, week, r, k - 1); }
  }

  lemma {:induction false} NeedsPrefix(weeks: seq<Week>, w: nat, k: nat)
    requires w <= k <= |weeks|
    ensures NeedsBefore(weeks, w) <= NeedsBefore(weeks, k)
  {
    if w < k { NeedsPrefix(weeks, w, k - 1); }
  }

  // v reports the first need of the list that is not met.
  ghost predicate FirstUnmet(roster: Roster, needs: seq<Need>, v: Violation) {
    v.BelowMinimum? && exists k :: 0 <= k < |needs| && IsFirstUnmet(roster, needs, k, v.need)
  }

  ghost predicate IsFirstUnmet(roster: Roster, needs: seq<Need>, k: nat, need: Need)
    requires k < |needs|
  {
    needs[k] == need && !NeedMet(roster, need) && NeedsMetBefore(roster, needs, k)
  }

  // Needs met before and any needs after do not change which one is first.
  lemma FirstStays(roster: Roster, before: seq<Need>, needs: seq<Need>, all: seq<Need>, v: Violation)
    requires AllMet(roster, before) && FirstUnmet(roster, needs, v) && before + needs <= all
    ensures FirstUnmet(roster, all, v)
  {
    var k :| 0 <= k < |needs| && IsFirstUnmet(roster, needs, k, v.need);
    forall i | 0 <= i < |before| + k ensures NeedMet(roster, all[i]) {
      assert all[i] == (before + needs)[i];
    }
    assert all[|before| + k] == (before + needs)[|before| + k];
    assert IsFirstUnmet(roster, all, |before| + k, v.need);
  }

  method CheckWeek(inst: Instance, roster: Roster, w: nat) returns (r: Option<Violation>)
    requires |inst.history| == |inst.nurses| && w < |roster| == |inst.weeks|
    ensures r.None? ==> AllMet(roster, WeekNeeds(w, inst.weeks[w], |inst.weeks[w].requirements|))
    ensures r.Some? ==> FirstUnmet(roster, WeekNeeds(w, inst.weeks[w], |inst.weeks[w].requirements|), r.value)
  {
    var table := CoverageTable(roster[w]);
    var week := inst.weeks[w];
    for i := 0 to |week.requirements|
      invariant AllMet(roster, WeekNeeds(w, week, i))
    {
      var req := week.requirements[i];
      r := CheckRequirement(roster, w, req, table);
      if r.Some? {
        WeekNeedsPrefix(w, week, i + 1, |week.requirements|);
        FirstStays(roster, WeekNeeds(w, week, i), DayNeeds(w, req, |req.days|),
                   WeekNeeds(w, week, |week.requirements|), r.value);
        return;
      }
      AllMetConcat(roster, WeekNeeds(w, week, i), DayNeeds(w, req, |req.days|));
    }
    return None;
  }

  method CheckCoverage(inst: Instance, roster: Roster) returns (r: Option<Violation>)
    requires |inst.history| == |inst.nurses| && |roster| == |inst.weeks|
    ensures r.None? ==> AllMet(roster, Needs(inst))
    ensures r.Some? ==> FirstUnmet(roster, Needs(inst), r.value)
  {
    for w := 0 to |inst.weeks|
      invariant AllMet(roster, NeedsBefore(inst.weeks, w))
    {
      r := CheckWeek(inst, roster, w);
      if r.Some? {
        NeedsPrefix(inst.weeks, w + 1, |inst.weeks|);
        FirstStays(roster, NeedsBefore(inst.weeks, w), WeekNeeds(w, inst.weeks[w], |inst.weeks[w].requirements|),
                   Needs(inst), r.value);
        return;
      }
      AllMetConcat(roster, NeedsBefore(inst.weeks, w), WeekNeeds(w, inst.weeks[w], |inst.weeks[w].requirements|));
    }
    return None;
  }

  lemma UnmetIsFirst(inst: Instance, roster: Roster, v: Violation)
    requires |inst.history| == |inst.nurses| && AllAssigned(inst, roster) && FirstUnmet(roster, Needs(inst), v)
    ensures ViolationHolds(inst, roster, v) && ComesFirst(inst, roster, v)
  {
    var k :| 0 <= k < |Needs(inst)| && IsFirstUnmet(roster, Needs(inst), k, v.need);
    assert Needs(inst)[k] in Needs(inst);
  }

  // ----- succession -----

  // The dictionary of forbidden successors; one row per preceding type.
  method SuccessorTable(inst: Instance) returns (table: map<nat, seq<nat>>)
    requires forall i, j | 0 <= i < j < |inst.forbidden| :: inst.forbidden[i].0 != inst.forbidden[j].0
    ensures forall p, c :: Forbids(inst, p, c) <==> p in table && c in table[p]
  {
    table := map[];
    for i := 0 to |inst.forbidden|
      invariant forall p | p in table :: exists j :: 0 <= j < i && inst.forbidden[j] == (p, table[p])
      invariant forall j | 0 <= j < i :: inst.forbidden[j].0 in table && table[inst.forbidden[j].0] == inst.forbidden[j].1
    {
      table := table[inst.forbidden[i].0 := inst.forbidden[i].1];
    }
  }

  method CheckSuccession(inst: Instance, roster: Roster, grid: Grid) returns (r: Option<Violation>)
    requires inst.WellFormed() && |roster| == |inst.weeks|
    requires grid.Length0 == |inst.nurses| && grid.Length1 == 7 * |roster| && GridIs(grid, roster, |roster|, 0)
    ensures r.Some? ==> r.value.ForbiddenSuccession? && ViolationHolds(inst, roster, r.value)
    ensures r.Some? ==> SuccessionsFineBefore(inst, roster, r.value.nurse, r.value.globalDay)
    ensures r.None? ==> forall n, g | 0 <= n < |inst.nurses| && 0 <= g < 7 * |roster| :: SuccessionOk(inst, roster, n, g)
  {
    var forbidden := SuccessorTable(inst);
    for n := 0 to |inst.nurses|
      invariant forall i, g | 0 <= i < n && 0 <= g < 7 * |roster| :: SuccessionOk(inst, roster, i, g)
    {
      for g := 0 to 7 * |roster|
        invariant forall i | 0 <= i < g :: SuccessionOk(inst, roster, n, i)
      {
        if grid[n, g].None? { continue; }
        var current := grid[n, g].value.shiftType;
        var previous := if g == 0 then inst.history[n].lastType
                        else if grid[n, g - 1].Some? then Some(grid[n, g - 1].value.shiftType) else None;
        assert previous == PreviousType(inst, roster, n, g);
        if previous.Some? && previous.value in forbidden && current in forbidden[previous.value] {
          return Some(ForbiddenSuccession(n, g));
        }
      }
    }
    return None;
  }

  // ----- charges -----

  method ChargeRequirement(roster: Roster, w: nat, req: Requirement, table: map<Key, nat>) returns (cost: int)
    requires w < |roster| && Counted(roster[w], |roster[w]|, table)
    ensures cost == Shortfalls(roster, DayNeeds(w, req, |req.days|))
  {
    cost := 0;
    for d := 0 to |req.days|
      invariant cost == Shortfalls(roster, DayNeeds(w, req, d))
    {
      var need := Need(w, d, req.shiftType, req.skill, req.days[d].minimum, req.days[d].optimal);
      NeedFromTable(roster, need, table);
      assert DayNeeds(w, req, d + 1)[..d] == DayNeeds(w, req, d);
      if Lookup(table, need) < need.optimal { cost := cost + 30 * (need.optimal - Lookup(table, need)); }
    }
  }

  method ChargeCoverage(inst: Instance, roster: Roster) returns (cost: int)
    requires |roster| == |inst.weeks|
    ensures cost == Shortfalls(roster, Needs(inst))
  {
    cost := 0;
    for w := 0 to |inst.weeks|
      invariant cost == Shortfalls(roster, NeedsBefore(inst.weeks, w))
    {
      var table := CoverageTable(roster[w]);
      var week, weekCost := inst.weeks[w], 0;
      for i := 0 to |week.requirements|
        invariant weekCost == Shortfalls(roster, WeekNeeds(w, week, i))
      {
        var req := week.requirements[i];
        var charge := ChargeRequirement(roster, w, req, table);
        ShortfallsConcat(roster, WeekNeeds(w, week, i), DayNeeds(w, req, |req.days|));
        weekCost := weekCost + charge;
      }
      ShortfallsConcat(roster, NeedsBefore(inst.weeks, w), WeekNeeds(w, week, |week.requirements|));
      cost := cost + weekCost;
    }
  }

  lemma RefusalsSnoc(roster: Roster, rs: seq<DayRequest>, more: seq<DayRequest>)
    ensures Refusals(roster, rs + more) == Refusals(roster, rs) + Refusals(roster, more)
  {
    if more == [] {
      assert rs + more == rs;
    } else {
      var init, last := more[..|more| - 1], more[|more| - 1];
      RefusalsSnoc(roster, rs, init);
      assert (rs + more)[..|rs + more| - 1] == rs + init;
    }
  }

  lemma WeekRequestsStep(roster: Roster, w: nat, week: Week, q: nat)
    requires q < |week.requests|
    ensures Refusals(roster, WeekRequests(w, week, q + 1)) == Refusals(roster, WeekRequests(w, week, q)) +
      Refusal(roster, DayRequest(week.requests[q].nurse, w * 7 + week.requests[q].day, week.requests[q].shiftType))
  {
    var all := WeekRequests(w, week, q + 1);
    assert all[..|all| - 1] == WeekRequests(w, week, q);
  }

  method ChargeWeek(inst: Instance, roster: Roster, grid: Grid, w: nat) returns (cost: int)
    requires inst.WellFormed() && |roster| == |inst.weeks| && w < |roster|
    requires grid.Length0 == |inst.nurses| && grid.Length1 == 7 * |roster| && GridIs(grid, roster, |roster|, 0)
    ensures cost == Refusals(roster, WeekRequests(w, inst.weeks[w], |inst.weeks[w].requests|))
  {
    var week := inst.weeks[w];
    assert inst.WeekOk(week);
    cost := 0;
    for q := 0 to |week.requests|
      invariant cost == Refusals(roster, WeekRequests(w, week, q))
    {
      var r := week.requests[q];
      WeekRequestsStep(roster, w, week, q);
      var entry := grid[r.nurse, w * 7 + r.day];
      assert entry == Entry(roster, r.nurse, w * 7 + r.day);
      if entry.Some? && (r.shiftType.None? || entry.value.shiftType == r.shiftType.value) {
        cost := cost + 10;
      }
    }
  }

  method ChargeRequests(inst: Instance, roster: Roster, grid: Grid) returns (cost: int)
    requires inst.WellFormed() && |roster| == |inst.weeks|
    requires grid.Length0 == |inst.nurses| && grid.Length1 == 7 * |roster| && GridIs(grid, roster, |roster|, 0)
    ensures cost == Refusals(roster, Requests(inst))
  {
    cost := 0;
    for w := 0 to |inst.weeks|
      invariant cost == Refusals(roster, RequestsBefore(inst.weeks, w))
    {
      var weekCost := ChargeWeek(inst, roster, grid, w);
      RefusalsSnoc(roster, RequestsBefore(inst.weeks, w), WeekRequests(w, inst.weeks[w], |inst.weeks[w].requests|));
      cost := cost + weekCost;
    }
  }

  // One nurse's row of the schedule.
  method ReadRow(grid: Grid, ghost roster: Roster, n: nat) returns (row: seq<Option<Assignment>>)
    requires n < grid.Length0 && grid.Length1 == 7 * |roster| && GridIs(grid, roster, |roster|, 0)
    ensures |row| == 7 * |roster| && forall g | 0 <= g < |row| :: row[g] == Entry(roster, n, g)
  {
    row := [];
    for g := 0 to grid.Length1
      invariant |row| == g && forall i | 0 <= i < g :: row[i] == Entry(roster, n, i)
    {
      row := row + [grid[n, g]];
    }
  }

  method CountWorked(act: Activity) returns (total: nat)
    ensures total == Count(act, |act|)
  {
    total := 0;
    for g := 0 to |act|
      invariant total == Count(act, g)
    {
      if act[g] { total := total + 1; }
    }
  }

  method CountWeekends(act: Activity, weeks: nat) returns (worked: nat, split: nat)
    requires |act| == 7 * weeks
    ensures worked == Weekends(act, weeks) && split == Splits(act, weeks)
  {
    worked, split := 0, 0;
    for w := 0 to weeks
      invariant worked == Weekends(act, w) && split == Splits(act, w)
    {
      if act[7 * w + 5] || act[7 * w + 6] { worked := worked + 1; }
      if act[7 * w + 5] != act[7 * w + 6] { split := split + 1; }
    }
  }

  method ChargeNurse(c: Contract, h: History, act: Activity, weeks: nat) returns (costs: NurseCosts)
    requires |act| == 7 * weeks
    ensures costs == NurseCost(c, h, act)
  {
    var total := CountWorked(act);
    var assignments := 0;
    if total + h.assignments < c.minAssignments {
      assignments := 20 * (c.minAssignments - (total + h.assignments));
    } else if total + h.assignments > c.maxAssignments {
      assignments := 20 * (total + h.assignments - c.maxAssignments);
    }
    var work := Scan(act, InitialWork(h), Bounds(c.minWork, c.maxWork, 30));
    var off := Scan(Complement(act), InitialOff(h), Bounds(c.minOff, c.maxOff, 30));
    var worked, split := CountWeekends(act, weeks);
    var weekends := 0;
    if h.weekends + worked > c.maxWeekends { weekends := 30 * (h.weekends + worked - c.maxWeekends); }
    costs := NurseCosts(assignments, work, off, weekends, if c.completeWeekends then 30 * split else 0);
  }

  method ChargeTypes(inst: Instance, ghost roster: Roster, n: nat, row: seq<Option<Assignment>>) returns (cost: int)
    requires n < |inst.history| && |row| == 7 * |roster| && forall g | 0 <= g < |row| :: row[g] == Entry(roster, n, g)
    ensures cost == TypeCosts(inst, roster, n, |inst.shiftTypes|)
  {
    cost := 0;
    for t := 0 to |inst.shiftTypes|
      invariant cost == TypeCosts(inst, roster, n, t)
    {
      var act := seq(|row|, g requires 0 <= g < |row| => row[g].Some? && row[g].value.shiftType == t);
      assert act == WorkedType(roster, n, t);
      var st := inst.shiftTypes[t];
      var charge := Scan(act, InitialType(inst.history[n], t), Bounds(st.minConsecutive, st.maxConsecutive, 15));
      cost := cost + charge;
    }
  }

  method ChargeRow(inst: Instance, roster: Roster, grid: Grid, n: nat) returns (c: NurseCosts, types: int)
    requires inst.WellFormed() && n < |inst.nurses|
    requires grid.Length0 == |inst.nurses| && grid.Length1 == 7 * |roster| && GridIs(grid, roster, |roster|, 0)
    ensures c == CostsOf(inst, roster, n) && types == TypeCosts(inst, roster, n, |inst.shiftTypes|)
  {
    var row := ReadRow(grid, roster, n);
    var act := seq(|row|, g requires 0 <= g < |row| => row[g].Some?);
    assert act == Worked(roster, n);
    c := ChargeNurse(inst.ContractOf(n), inst.history[n], act, |roster|);
    types := ChargeTypes(inst, roster, n, row);
  }

  method ChargeNurses(inst: Instance, roster: Roster, grid: Grid) returns (charges: Breakdown)
    requires inst.WellFormed()
    requires grid.Length0 == |inst.nurses| && grid.Length1 == 7 * |roster| && GridIs(grid, roster, |roster|, 0)
    ensures charges == NurseCharges(inst, roster, |inst.nurses|)
  {
    charges := Breakdown(0, 0, 0, 0, 0, 0, 0, 0);
    for n := 0 to |inst.nurses|
      invariant charges == NurseCharges(inst, roster, n)
    {
      var c, types := ChargeRow(inst, roster, grid, n);
      charges := AddNurse(charges, c, types);
    }
  }

  // Refuses exactly the rosters that break a hard rule, and charges the others rule by rule.
  method ValidateBreakdown(inst: Instance, roster: Roster) returns (r: Result<Breakdown, Violation>)
    requires inst.WellFormed()
    ensures r.Ok? <==> Accepted(inst, roster)
    ensures r.Ok? ==> r.value == BreakdownOf(inst, roster)
    ensures r.Ok? ==> NeedsInside(inst, roster) && r.value == Priced(UnitsOf(inst, roster))
    ensures r.Err? ==> ViolationHolds(inst, roster, r.error) && ComesFirst(inst, roster, r.error)
  {
    if |roster| != |inst.weeks| { return Err(WeekCount(|roster|)); }
    var filled := FillGrid(inst, roster);
    if filled.Err? { ViolationRefutes(inst, roster, filled.error); return Err(filled.error); }
    var grid := filled.value;
    var short := CheckCoverage(inst, roster);
    if short.Some? {
      UnmetIsFirst(inst, roster, short.value);
      ViolationRefutes(inst, roster, short.value);
      return Err(short.value);
    }
    var succession := CheckSuccession(inst, roster, grid);
    if succession.Some? { ViolationRefutes(inst, roster, succession.value); return Err(succession.value); }
    var optimal := ChargeCoverage(inst, roster);
    var off := ChargeRequests(inst, roster, grid);
    var charges := ChargeNurses(inst, roster, grid);
    BreakdownMeaning(inst, roster);
    return Ok(charges.(optimalCoverage := optimal, shiftOff := off));
  }

  method Validate(inst: Instance, roster: Roster) returns (r: Result<int, Violation>)
    requires inst.WellFormed()
    ensures r.Ok? <==> Accepted(inst, roster)
    ensures r.Ok? ==> r.value == BreakdownOf(inst, roster).Sum()
    ensures r.Err? ==> ViolationHolds(inst, roster, r.error) && ComesFirst(inst, roster, r.error)
  {
    var breakdown := ValidateBreakdown(inst, roster);
    if breakdown.Err? { return Err(breakdown.error); }
    return Ok(breakdown.value.Sum());
  }
}
