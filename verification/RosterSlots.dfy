// The slot model: one slot per nurse a need wants at best, each holding a nurse or nobody;
// building it from an instance, and reading weekly assignments back from it.
module RosterSlots {
  import opened Wrappers
  import opened RosterModel

  datatype Slot = Slot(week: nat, day: nat, shiftType: nat, skill: nat, isMinimum: bool) {
    function GlobalDay(): nat { week * 7 + day }
  }

  // A slot with what its constraints look up: types forbidden on the day before, and a nurse
  // entry per request it would refuse.
  datatype Shift = Shift(slot: Slot, forbiddenPredecessors: seq<nat>, requestNurses: seq<nat>)

  // ----- generation -----

  function Quantity(need: Need): nat { if need.optimal > 0 then need.optimal else 0 }

  function NeedSlots(need: Need, k: nat): (slots: seq<Slot>)
    ensures |slots| == k
  {
    if k == 0 then []
    else NeedSlots(need, k - 1) + [Slot(need.week, need.day, need.shiftType, need.skill, k - 1 < need.minimum)]
  }

  function Slots(needs: seq<Need>): seq<Slot> {
    if needs == [] then []
    else
      var last := needs[|needs| - 1];
      Slots(needs[..|needs| - 1]) + NeedSlots(last, Quantity(last))
  }

  lemma {:induction false} SlotsConcat(a: seq<Need>, b: seq<Need>)
    ensures Slots(a + b) == Slots(a) + Slots(b)
  {
    if b == [] {
      assert a + b == a;
    } else {
      SlotsConcat(a, b[..|b| - 1]);
      assert (a + b)[..|a + b| - 1] == a + b[..|b| - 1];
    }
  }

  method AddDaySlots(w: nat, req: Requirement) returns (slots: seq<Slot>)
    ensures slots == Slots(DayNeeds(w, req, |req.days|))
  {
    slots := [];
    for d := 0 to |req.days|
      invariant slots == Slots(DayNeeds(w, req, d))
    {
      var need := Need(w, d, req.shiftType, req.skill, req.days[d].minimum, req.days[d].optimal);
      var added: seq<Slot> := [];
      var slot := 0;
      while slot < req.days[d].optimal
        invariant 0 <= slot && |added| == slot && (slot > 0 ==> slot <= req.days[d].optimal)
        invariant added == NeedSlots(need, slot)
      {
        added := added + [Slot(w, d, req.shiftType, req.skill, slot < req.days[d].minimum)];
        slot := slot + 1;
      }
      assert DayNeeds(w, req, d + 1)[..d] == DayNeeds(w, req, d);
      slots := slots + added;
    }
  }

  method GenerateSlots(inst: Instance) returns (slots: seq<Slot>)
    ensures slots == Slots(Needs(inst))
  {
    slots := [];
    for w := 0 to |inst.weeks|
      invariant slots == Slots(NeedsBefore(inst.weeks, w))
    {
      var week: Week := inst.weeks[w];
      var weekSlots: seq<Slot> := [];
      for r := 0 to |week.requirements|
        invariant weekSlots == Slots(WeekNeeds(w, week, r))
      {
        var added := AddDaySlots(w, week.requirements[r]);
        SlotsConcat(WeekNeeds(w, week, r), DayNeeds(w, week.requirements[r], |week.requirements[r].days|));
        weekSlots := weekSlots + added;
      }
      SlotsConcat(NeedsBefore(inst.weeks, w), WeekNeeds(w, week, |week.requirements|));
      slots := slots + weekSlots;
    }
  }

  // ----- facts per slot -----

  // Requests of nurse n on a day that a shift of the given type would refuse.
  ghost function RequestCount(requests: seq<DayRequest>, n: nat, g: nat, t: nat): nat {
    if requests == [] then 0
    else
      var r := requests[|requests| - 1];
      RequestCount(requests[..|requests| - 1], n, g, t) +
      (if r.nurse == n && r.globalDay == g && Matches(r, t) then 1 else 0)
  }

  ghost function Times(s: seq<nat>, n: nat): nat { multiset(s)[n] }

  ghost predicate FactsOk(inst: Instance, s: Shift) {
    && (forall p :: p in s.forbiddenPredecessors <==> Forbids(inst, p, s.slot.shiftType))
    && (forall n: nat | n < |inst.nurses| ::
          Times(s.requestNurses, n) == RequestCount(Requests(inst), n, s.slot.GlobalDay(), s.slot.shiftType))
  }

  ghost predicate PlanOk(inst: Instance, shifts: seq<Shift>) {
    && |shifts| == |Slots(Needs(inst))|
    && forall i | 0 <= i < |shifts| :: shifts[i].slot == Slots(Needs(inst))[i] && FactsOk(inst, shifts[i])
  }

  method Predecessors(inst: Instance, t: nat) returns (ps: seq<nat>)
    ensures forall p :: p in ps <==> Forbids(inst, p, t)
  {
    ps := [];
    for i := 0 to |inst.forbidden|
      invariant forall p :: p in ps <==> exists j :: 0 <= j < i && inst.forbidden[j].0 == p && t in inst.forbidden[j].1
    {
      if t in inst.forbidden[i].1 { ps := ps + [inst.forbidden[i].0]; }
    }
  }

  // The types requested off by nurse n on day g, in request order.
  function TypesOff(requests: seq<DayRequest>, n: nat, g: nat): seq<Option<nat>> {
    if requests == [] then []
    else
      var r := requests[|requests| - 1];
      TypesOff(requests[..|requests| - 1], n, g) + (if r.nurse == n && r.globalDay == g then [r.shiftType] else [])
  }

  ghost function Hits(types: seq<Option<nat>>, t: nat): nat {
    if types == [] then 0
    else
      var last := types[|types| - 1];
      Hits(types[..|types| - 1], t) + (if last.None? || last.value == t then 1 else 0)
  }

  lemma {:induction false} HitsConcat(a: seq<Option<nat>>, x: Option<nat>, t: nat)
    ensures Hits(a + [x], t) == Hits(a, t) + (if x.None? || x.value == t then 1 else 0)
  {
    assert (a + [x])[..|a|] == a;
  }

  lemma {:induction false} TypesOffCount(requests: seq<DayRequest>, n: nat, g: nat, t: nat)
    ensures Hits(TypesOff(requests, n, g), t) == RequestCount(requests, n, g, t)
  {
    if requests != [] {
      var init, r := requests[..|requests| - 1], requests[|requests| - 1];
      TypesOffCount(init, n, g, t);
      assert TypesOff(init, n, g) + [] == TypesOff(init, n, g);
      if r.nurse == n && r.globalDay == g { HitsConcat(TypesOff(init, n, g), r.shiftType, t); }
    }
  }

  // The table of requested types by nurse and day.
  method RequestTable(inst: Instance) returns (table: array2<seq<Option<nat>>>)
    requires inst.WellFormed()
    ensures fresh(table) && table.Length0 == |inst.nurses| && table.Length1 == inst.TotalDays()
    ensures forall n, g | 0 <= n < table.Length0 && 0 <= g < table.Length1 :: table[n, g] == TypesOff(Requests(inst), n, g)
  {
    table := new seq<Option<nat>>[|inst.nurses|, inst.TotalDays()]((_, _) => []);
    var requests := Requests(inst);
    for q := 0 to |requests|
      invariant forall n, g | 0 <= n < table.Length0 && 0 <= g < table.Length1 :: table[n, g] == TypesOff(requests[..q], n, g)
    {
      var r := requests[q];
      assert requests[..q + 1][..q] == requests[..q];
      if r.nurse < table.Length0 && r.globalDay < table.Length1 {
        table[r.nurse, r.globalDay] := table[r.nurse, r.globalDay] + [r.shiftType];
      }
      forall n, g | 0 <= n < table.Length0 && 0 <= g < table.Length1
        ensures table[n, g] == TypesOff(requests[..q + 1], n, g)
      {
        assert TypesOff(requests[..q], n, g) + [] == TypesOff(requests[..q], n, g);
      }
    }
    assert requests[..|requests|] == requests;
  }

  method NursesOff(table: array2<seq<Option<nat>>>, slot: Slot) returns (nurses: seq<nat>)
    requires slot.GlobalDay() < table.Length1
    ensures forall n: nat | n < table.Length0 :: Times(nurses, n) == Hits(table[n, slot.GlobalDay()], slot.shiftType)
  {
    nurses := [];
    for n := 0 to table.Length0
      invariant forall m: nat | m < n :: Times(nurses, m) == Hits(table[m, slot.GlobalDay()], slot.shiftType)
      invariant forall m: nat | n <= m :: Times(nurses, m) == 0
    {
      ghost var before := nurses;
      var types := table[n, slot.GlobalDay()];
      assert types[..0] == [] && Hits(types[..0], slot.shiftType) == 0;
      for q := 0 to |types|
        invariant forall m: nat :: Times(nurses, m) == Times(before, m) + (if m == n then Hits(types[..q], slot.shiftType) else 0)
      {
        HitsConcat(types[..q], types[q], slot.shiftType);
        assert types[..q + 1] == types[..q] + [types[q]];
        if types[q].None? || types[q].value == slot.shiftType { nurses := nurses + [n]; }
      }
      assert types[..|types|] == types;
    }
  }

  lemma {:induction false} SlotOrigin(needs: seq<Need>, i: nat) returns (j: nat)
    requires i < |Slots(needs)|
    ensures j < |needs|
    ensures var s, need := Slots(needs)[i], needs[j];
      s.week == need.week && s.day == need.day && s.shiftType == need.shiftType && s.skill == need.skill
  {
    var init, last := needs[..|needs| - 1], needs[|needs| - 1];
    if i < |Slots(init)| {
      j := SlotOrigin(init, i);
    } else {
      j := |needs| - 1;
      NeedSlotsAre(last, Quantity(last), i - |Slots(init)|);
    }
  }

  lemma {:induction false} NeedSlotsAre(need: Need, k: nat, i: nat)
    requires i < k
    ensures NeedSlots(need, k)[i] == Slot(need.week, need.day, need.shiftType, need.skill, i < need.minimum)
  {
    if i < k - 1 { NeedSlotsAre(need, k - 1, i); }
  }

  ghost predicate NeedInRange(inst: Instance, need: Need) {
    need.week < |inst.weeks| && need.day < 7
  }

  lemma {:induction false} DayNeedsInRange(inst: Instance, w: nat, r: Requirement, d: nat)
    requires w < |inst.weeks| && d <= |r.days| == 7
    ensures forall i | 0 <= i < d :: NeedInRange(inst, DayNeeds(w, r, d)[i])
  {
    if d > 0 { DayNeedsInRange(inst, w, r, d - 1); }
  }

  lemma {:induction false} WeekNeedsInRange(inst: Instance, w: nat, r: nat)
    requires inst.WellFormed() && w < |inst.weeks| && r <= |inst.weeks[w].requirements|
    ensures forall i | 0 <= i < |WeekNeeds(w, inst.weeks[w], r)| :: NeedInRange(inst, WeekNeeds(w, inst.weeks[w], r)[i])
  {
    if r > 0 {
      WeekNeedsInRange(inst, w, r - 1);
      assert inst.WeekOk(inst.weeks[w]) && inst.RequirementOk(inst.weeks[w].requirements[r - 1]);
      DayNeedsInRange(inst, w, inst.weeks[w].requirements[r - 1], 7);
    }
  }

  lemma {:induction false} NeedsInRange(inst: Instance, w: nat)
    requires inst.WellFormed() && w <= |inst.weeks|
    ensures forall i | 0 <= i < |NeedsBefore(inst.weeks, w)| :: NeedInRange(inst, NeedsBefore(inst.weeks, w)[i])
  {
    if w > 0 {
      NeedsInRange(inst, w - 1);
      WeekNeedsInRange(inst, w - 1, |inst.weeks[w - 1].requirements|);
    }
  }

  lemma SlotInRange(inst: Instance, i: nat)
    requires inst.WellFormed() && i < |Slots(Needs(inst))|
    ensures var s := Slots(Needs(inst))[i]; s.week < |inst.weeks| && s.day < 7 && s.GlobalDay() < inst.TotalDays()
  {
    var j := SlotOrigin(Needs(inst), i);
    NeedsInRange(inst, |inst.weeks|);
    assert NeedInRange(inst, Needs(inst)[j]);
  }

  // The plan the solver starts from.
  method BuildPlan(inst: Instance) returns (shifts: seq<Shift>)
    requires inst.WellFormed()
    ensures PlanOk(inst, shifts)
  {
    var slots := GenerateSlots(inst);
    var table := RequestTable(inst);
    shifts := [];
    for i := 0 to |slots|
      invariant |shifts| == i && forall l | 0 <= l < i :: shifts[l].slot == slots[l] && FactsOk(inst, shifts[l])
      invariant forall n, g | 0 <= n < table.Length0 && 0 <= g < table.Length1 ::
        table[n, g] == TypesOff(Requests(inst), n, g)
    {
      SlotInRange(inst, i);
      var predecessors := Predecessors(inst, slots[i].shiftType);
      var nurses := NursesOff(table, slots[i]);
      forall n: nat | n < |inst.nurses|
        ensures Times(nurses, n) == RequestCount(Requests(inst), n, slots[i].GlobalDay(), slots[i].shiftType)
      {
        TypesOffCount(Requests(inst), n, slots[i].GlobalDay(), slots[i].shiftType);
      }
      shifts := shifts + [Shift(slots[i], predecessors, nurses)];
    }
  }

  // ----- weekly assignments -----

  // Nurse per slot.
  type Assigned = seq<Option<nat>>

  function AssignmentAt(slots: seq<Slot>, nurses: Assigned, i: nat): Assignment
    requires i < |slots| == |nurses| && nurses[i].Some?
  {
    Assignment(nurses[i].value, slots[i].day, slots[i].shiftType, slots[i].skill)
  }

  ghost function Weekly(slots: seq<Slot>, nurses: Assigned, w: nat, k: nat): seq<Assignment>
    requires k <= |slots| == |nurses|
  {
    if k == 0 then []
    else Weekly(slots, nurses, w, k - 1) +
         (if nurses[k - 1].Some? && slots[k - 1].week == w then [AssignmentAt(slots, nurses, k - 1)] else [])
  }

  ghost function Extracted(slots: seq<Slot>, nurses: Assigned, weeks: nat): (roster: Roster)
    requires |slots| == |nurses|
    ensures |roster| == weeks && forall w | 0 <= w < weeks :: roster[w] == Weekly(slots, nurses, w, |slots|)
  {
    seq(weeks, w requires 0 <= w < weeks => Weekly(slots, nurses, w, |slots|))
  }

  method Extract(slots: seq<Slot>, nurses: Assigned, weeks: nat) returns (roster: Roster)
    requires |slots| == |nurses| && forall i | 0 <= i < |slots| :: slots[i].week < weeks
    ensures roster == Extracted(slots, nurses, weeks)
  {
    var weekly := new seq<Assignment>[weeks](_ => []);
    for i := 0 to |slots|
      invariant forall w | 0 <= w < weeks :: weekly[w] == Weekly(slots, nurses, w, i)
    {
      if nurses[i].Some? {
        weekly[slots[i].week] := weekly[slots[i].week] + [AssignmentAt(slots, nurses, i)];
      }
      forall w | 0 <= w < weeks ensures weekly[w] == Weekly(slots, nurses, w, i + 1) {
        assert Weekly(slots, nurses, w, i) + [] == Weekly(slots, nurses, w, i);
      }
    }
    roster := weekly[..];
  }
}
