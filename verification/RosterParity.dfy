// Slot-model parity: for a slot assignment without hard violation, the weekly assignments
// read off it are accepted by the validator, and every rule charges the same on both sides.
module RosterParity {
  import opened Wrappers
  import opened RosterRuns
  import opened RosterModel
  import opened RosterSlots

  // ----- hard constraints of the slot model -----

  ghost predicate SameDay(slots: seq<Slot>, nurses: Assigned, i: nat, j: nat)
    requires i < |slots| == |nurses| && j < |slots|
  {
    nurses[i].Some? && nurses[i] == nurses[j] && slots[i].week == slots[j].week && slots[i].day == slots[j].day
  }

  // j's shift may not follow i's on the same nurse.
  ghost predicate Follows(inst: Instance, slots: seq<Slot>, nurses: Assigned, i: nat, j: nat)
    requires i < |slots| == |nurses| && j < |slots|
  {
    && nurses[i].Some? && nurses[i] == nurses[j] && slots[i].GlobalDay() + 1 == slots[j].GlobalDay()
    && Forbids(inst, slots[i].shiftType, slots[j].shiftType)
  }

  ghost predicate SlotOk(inst: Instance, s: Slot, nurse: Option<nat>)
    requires |inst.history| == |inst.nurses|
  {
    match nurse
    case None => !s.isMinimum
    case Some(n) =>
      && n < |inst.nurses| && s.skill in inst.nurses[n].skills
      && (s.GlobalDay() == 0 && inst.history[n].lastType.Some? ==> !Forbids(inst, inst.history[n].lastType.value, s.shiftType))
  }

  // No hard violation.
  ghost predicate HardOk(inst: Instance, slots: seq<Slot>, nurses: Assigned)
    requires |inst.history| == |inst.nurses|
  {
    && |slots| == |nurses|
    && (forall i | 0 <= i < |slots| :: SlotOk(inst, slots[i], nurses[i]))
    && (forall i, j | 0 <= i < j < |slots| :: !SameDay(slots, nurses, i, j))
    && (forall i, j | 0 <= i < |slots| && 0 <= j < |slots| :: !Follows(inst, slots, nurses, i, j))
  }

  ghost predicate InRange(slots: seq<Slot>, weeks: nat) {
    forall i | 0 <= i < |slots| :: slots[i].week < weeks && slots[i].day < 7
  }

  // ----- the slot a nurse works on a day -----

  ghost function SlotOf(slots: seq<Slot>, nurses: Assigned, n: nat, g: nat, k: nat): (s: Option<nat>)
    requires k <= |slots| == |nurses|
    ensures s.Some? ==> s.value < k && nurses[s.value] == Some(n) && slots[s.value].GlobalDay() == g
  {
    if k == 0 then None
    else if nurses[k - 1] == Some(n) && slots[k - 1].GlobalDay() == g then Some(k - 1)
    else SlotOf(slots, nurses, n, g, k - 1)
  }

  lemma {:induction false} SlotOfMeaning(slots: seq<Slot>, nurses: Assigned, n: nat, g: nat, k: nat)
    requires k <= |slots| == |nurses|
    ensures var s := SlotOf(slots, nurses, n, g, k);
      s.None? ==> forall i | 0 <= i < k :: !(nurses[i] == Some(n) && slots[i].GlobalDay() == g)
  {
    if k > 0 { SlotOfMeaning(slots, nurses, n, g, k - 1); }
  }

  lemma GlobalSplit(s: Slot, w: nat, d: nat)
    requires s.day < 7 && d < 7
    ensures s.GlobalDay() == w * 7 + d <==> s.week == w && s.day == d
  {
  }

  // A week's entry for a nurse and day is the slot they work then.
  lemma {:induction false} EntryOfWeekly(slots: seq<Slot>, nurses: Assigned, weeks: nat, w: nat, n: nat, d: nat, k: nat)
    requires k <= |slots| == |nurses| && InRange(slots, weeks) && d < 7
    ensures var week, s := Weekly(slots, nurses, w, k), SlotOf(slots, nurses, n, w * 7 + d, k);
      EntryIn(week, n, d, |week|) == if s.Some? then Some(AssignmentAt(slots, nurses, s.value)) else None
  {
    if k > 0 {
      EntryOfWeekly(slots, nurses, weeks, w, n, d, k - 1);
      SlotOfMeaning(slots, nurses, n, w * 7 + d, k - 1);
      GlobalSplit(slots[k - 1], w, d);
      var before, after := Weekly(slots, nurses, w, k - 1), Weekly(slots, nurses, w, k);
      if nurses[k - 1].Some? && slots[k - 1].week == w {
        assert after == before + [AssignmentAt(slots, nurses, k - 1)];
        EntryPrefix(before, after, n, d, |before|);
      } else {
        assert after == before;
      }
    }
  }

  lemma {:induction false} EntryPrefix(a: seq<Assignment>, b: seq<Assignment>, n: nat, d: nat, k: nat)
    requires k <= |a| && a <= b
    ensures EntryIn(a, n, d, k) == EntryIn(b, n, d, k)
  {
    if k > 0 { EntryPrefix(a, b, n, d, k - 1); }
  }

  lemma EntryOfSlot(slots: seq<Slot>, nurses: Assigned, weeks: nat, n: nat, g: nat)
    requires |slots| == |nurses| && InRange(slots, weeks) && g < 7 * weeks
    ensures var s := SlotOf(slots, nurses, n, g, |slots|);
      Entry(Extracted(slots, nurses, weeks), n, g) == if s.Some? then Some(AssignmentAt(slots, nurses, s.value)) else None
  {
    EntryOfWeekly(slots, nurses, weeks, g / 7, n, g % 7, |slots|);
    assert g == g / 7 * 7 + g % 7;
  }

  // ----- hard rules carry over -----

  lemma {:induction false} WeeklyOrigin(slots: seq<Slot>, nurses: Assigned, w: nat, k: nat, p: nat) returns (i: nat)
    requires k <= |slots| == |nurses| && p < |Weekly(slots, nurses, w, k)|
    ensures i < k && nurses[i].Some? && slots[i].week == w
    ensures Weekly(slots, nurses, w, k)[p] == AssignmentAt(slots, nurses, i)
  {
    if p < |Weekly(slots, nurses, w, k - 1)| {
      i := WeeklyOrigin(slots, nurses, w, k - 1, p);
    } else {
      i := k - 1;
    }
  }

  // Fit nurses, none twice a day: every week is well assigned.
  lemma {:induction false} WeeklyAssigned(inst: Instance, slots: seq<Slot>, nurses: Assigned, w: nat, k: nat)
    requires |inst.history| == |inst.nurses| && k <= |slots| == |nurses| && forall i | 0 <= i < |slots| :: slots[i].day < 7
    requires forall i | 0 <= i < |slots| :: SlotOk(inst, slots[i], nurses[i])
    requires forall i, j | 0 <= i < j < |slots| :: !SameDay(slots, nurses, i, j)
    ensures WeekAssigned(inst, Weekly(slots, nurses, w, k))
  {
    if k > 0 {
      WeeklyAssigned(inst, slots, nurses, w, k - 1);
      var before, after := Weekly(slots, nurses, w, k - 1), Weekly(slots, nurses, w, k);
      if nurses[k - 1].Some? && slots[k - 1].week == w {
        var a := AssignmentAt(slots, nurses, k - 1);
        assert after == before + [a];
        assert SlotOk(inst, slots[k - 1], nurses[k - 1]);
        assert AssignmentOk(inst, a);
        forall p | 0 <= p < |before| ensures !Clash(before[p], a) {
          var i := WeeklyOrigin(slots, nurses, w, k - 1, p);
          assert !SameDay(slots, nurses, i, k - 1);
        }
      } else {
        assert after == before;
      }
    }
  }

  lemma SuccessionCarries(inst: Instance, slots: seq<Slot>, nurses: Assigned, weeks: nat, n: nat, g: nat)
    requires |inst.history| == |inst.nurses| && HardOk(inst, slots, nurses) && InRange(slots, weeks)
    requires n < |inst.nurses| && g < 7 * weeks
    ensures SuccessionOk(inst, Extracted(slots, nurses, weeks), n, g)
  {
    EntryOfSlot(slots, nurses, weeks, n, g);
    SlotOfMeaning(slots, nurses, n, g, |slots|);
    var s := SlotOf(slots, nurses, n, g, |slots|);
    if g > 0 {
      EntryOfSlot(slots, nurses, weeks, n, g - 1);
      SlotOfMeaning(slots, nurses, n, g - 1, |slots|);
      var t := SlotOf(slots, nurses, n, g - 1, |slots|);
      if s.Some? && t.Some? { assert !Follows(inst, slots, nurses, t.value, s.value); }
    } else if s.Some? {
      assert SlotOk(inst, slots[s.value], nurses[s.value]);
    }
  }

  // ----- coverage -----

  ghost predicate SlotServes(s: Slot, need: Need) {
    s.week == need.week && s.day == need.day && s.shiftType == need.shiftType && s.skill == need.skill
  }

  // Filled slots among from .. to that serve the need.
  ghost function Filled(slots: seq<Slot>, nurses: Assigned, need: Need, k: nat): nat
    requires k <= |slots| == |nurses|
  {
    if k == 0 then 0
    else Filled(slots, nurses, need, k - 1) + (if nurses[k - 1].Some? && SlotServes(slots[k - 1], need) then 1 else 0)
  }

  lemma {:induction false} CoverageIsFilled(slots: seq<Slot>, nurses: Assigned, need: Need, k: nat)
    requires k <= |slots| == |nurses|
    ensures Coverage(Weekly(slots, nurses, need.week, k), need, |Weekly(slots, nurses, need.week, k)|) ==
      Filled(slots, nurses, need, k)
  {
    if k > 0 {
      CoverageIsFilled(slots, nurses, need, k - 1);
      var before, after := Weekly(slots, nurses, need.week, k - 1), Weekly(slots, nurses, need.week, k);
      if nurses[k - 1].Some? && slots[k - 1].week == need.week {
        assert after == before + [AssignmentAt(slots, nurses, k - 1)];
        CoveragePrefix(before, after, need, |before|);
      } else {
        assert after == before;
      }
    }
  }

  lemma {:induction false} CoveragePrefix(a: seq<Assignment>, b: seq<Assignment>, need: Need, k: nat)
    requires k <= |a| && a <= b
    ensures Coverage(a, need, k) == Coverage(b, need, k)
  {
    if k > 0 { CoveragePrefix(a, b, need, k - 1); }
  }

  ghost predicate SameKey(a: Need, b: Need) {
    a.week == b.week && a.day == b.day && a.shiftType == b.shiftType && a.skill == b.skill
  }

  ghost predicate KeysDiffer(needs: seq<Need>) {
    forall i, j | 0 <= i < j < |needs| :: !SameKey(needs[i], needs[j])
  }

  // Filled slots of the block [from, from + k).
  ghost function BlockFilled(nurses: Assigned, from: nat, k: nat): nat
    requires from + k <= |nurses|
  {
    if k == 0 then 0 else BlockFilled(nurses, from, k - 1) + (if nurses[from + k - 1].Some? then 1 else 0)
  }

  lemma BlockPrefix(slots: seq<Slot>, need: Need, from: nat, k: nat)
    requires k > 0 && from + k <= |slots| && slots[from..from + k] == NeedSlots(need, k)
    ensures slots[from..from + (k - 1)] == NeedSlots(need, k - 1)
    ensures slots[from + k - 1] == Slot(need.week, need.day, need.shiftType, need.skill, k - 1 < need.minimum)
  {
    var block := NeedSlots(need, k);
    assert block == NeedSlots(need, k - 1) + [Slot(need.week, need.day, need.shiftType, need.skill, k - 1 < need.minimum)];
    assert block[k - 1] == slots[from..from + k][k - 1];
    assert slots[from..from + (k - 1)] == slots[from..from + k][..k - 1];
  }

  // A block of slots made for need other: all of them serve a need with its key, none another.
  lemma {:induction false} FilledInBlock(slots: seq<Slot>, nurses: Assigned, need: Need, other: Need, from: nat, k: nat)
    requires |slots| == |nurses| && from + k <= |slots| && slots[from..from + k] == NeedSlots(other, k)
    ensures Filled(slots, nurses, need, from + k) ==
      Filled(slots, nurses, need, from) + (if SameKey(need, other) then BlockFilled(nurses, from, k) else 0)
  {
    if k > 0 {
      BlockPrefix(slots, other, from, k);
      FilledInBlock(slots, nurses, need, other, from, k - 1);
    }
  }

  // Where need j's block starts.
  ghost function Start(needs: seq<Need>, j: nat): nat
    requires j <= |needs|
  {
    |Slots(needs[..j])|
  }

  lemma BlockAt(needs: seq<Need>, j: nat)
    requires j < |needs|
    ensures Start(needs, j + 1) == Start(needs, j) + Quantity(needs[j]) <= |Slots(needs)|
    ensures Slots(needs)[Start(needs, j)..Start(needs, j + 1)] == NeedSlots(needs[j], Quantity(needs[j]))
  {
    var upTo := needs[..j + 1];
    assert upTo[..j] == needs[..j];
    assert Slots(upTo) == Slots(needs[..j]) + NeedSlots(needs[j], Quantity(needs[j]));
    assert needs == upTo + needs[j + 1..];
    SlotsConcat(upTo, needs[j + 1..]);
  }

  lemma {:induction false} FilledUpTo(needs: seq<Need>, nurses: Assigned, j: nat, m: nat)
    requires KeysDiffer(needs) && j < |needs| && m <= |needs| && |nurses| == |Slots(needs)| && Start(needs, m) <= |nurses|
    requires Start(needs, j) + Quantity(needs[j]) <= |nurses|
    ensures Filled(Slots(needs), nurses, needs[j], Start(needs, m)) ==
      if j < m then BlockFilled(nurses, Start(needs, j), Quantity(needs[j])) else 0
  {
    if m > 0 {
      BlockAt(needs, m - 1);
      FilledUpTo(needs, nurses, j, m - 1);
      FilledInBlock(Slots(needs), nurses, needs[j], needs[m - 1], Start(needs, m - 1), Quantity(needs[m - 1]));
      if m - 1 < j { assert !SameKey(needs[m - 1], needs[j]); }
      if j < m - 1 { assert !SameKey(needs[j], needs[m - 1]); }
    } else {
      assert needs[..0] == [];
    }
  }

  // The nurses a need gets are the filled slots of its own block.
  lemma CoveredByBlock(needs: seq<Need>, nurses: Assigned, weeks: nat, j: nat)
    requires KeysDiffer(needs) && j < |needs| && |nurses| == |Slots(needs)| && needs[j].week < weeks
    ensures Start(needs, j) + Quantity(needs[j]) <= |nurses|
    ensures Covered(Extracted(Slots(needs), nurses, weeks), needs[j]) ==
      BlockFilled(nurses, Start(needs, j), Quantity(needs[j]))
  {
    BlockAt(needs, j);
    assert needs[..|needs|] == needs;
    FilledUpTo(needs, nurses, j, |needs|);
    CoverageIsFilled(Slots(needs), nurses, needs[j], |nurses|);
  }

  // Minimum slots come first in a block, so filling them meets the minimum.
  lemma {:induction false} MinimumFilled(slots: seq<Slot>, nurses: Assigned, need: Need, from: nat, k: nat)
    requires |slots| == |nurses| && from + k <= |slots| && slots[from..from + k] == NeedSlots(need, k)
    requires forall i | 0 <= i < |slots| && slots[i].isMinimum :: nurses[i].Some?
    ensures BlockFilled(nurses, from, k) <= k
    ensures BlockFilled(nurses, from, k) >= if need.minimum < k then need.minimum else k
  {
    if k > 0 {
      BlockPrefix(slots, need, from, k);
      MinimumFilled(slots, nurses, need, from, k - 1);
    }
  }

  // Empty slots among the first k.
  ghost function Vacant(nurses: Assigned, k: nat): nat
    requires k <= |nurses|
  {
    if k == 0 then 0 else Vacant(nurses, k - 1) + (if nurses[k - 1].None? then 1 else 0)
  }

  lemma {:induction false} VacantBlock(nurses: Assigned, from: nat, k: nat)
    requires from + k <= |nurses|
    ensures Vacant(nurses, from + k) == Vacant(nurses, from) + k - BlockFilled(nurses, from, k)
  {
    if k > 0 { VacantBlock(nurses, from, k - 1); }
  }

  lemma {:induction false} ShortfallsAreVacancies(needs: seq<Need>, nurses: Assigned, weeks: nat, m: nat)
    requires KeysDiffer(needs) && |nurses| == |Slots(needs)| && forall j | 0 <= j < |needs| :: needs[j].week < weeks
    requires m <= |needs|
    ensures Start(needs, m) <= |nurses|
    ensures Shortfalls(Extracted(Slots(needs), nurses, weeks), needs[..m]) == 30 * Vacant(nurses, Start(needs, m))
  {
    if m > 0 {
      ShortfallsAreVacancies(needs, nurses, weeks, m - 1);
      BlockAt(needs, m - 1);
      CoveredByBlock(needs, nurses, weeks, m - 1);
      VacantBlock(nurses, Start(needs, m - 1), Quantity(needs[m - 1]));
      BlockBound(nurses, Start(needs, m - 1), Quantity(needs[m - 1]));
      assert needs[..m][..m - 1] == needs[..m - 1];
    } else {
      assert needs[..0] == [];
    }
  }

  lemma {:induction false} BlockBound(nurses: Assigned, from: nat, k: nat)
    requires from + k <= |nurses|
    ensures BlockFilled(nurses, from, k) <= k
  {
    if k > 0 { BlockBound(nurses, from, k - 1); }
  }

  // ----- needs of one instance have different keys -----

  lemma {:induction false} DayNeedKeys(w: nat, r: Requirement, d: nat)
    requires d <= |r.days|
    ensures forall i | 0 <= i < d :: SameKey(DayNeeds(w, r, d)[i], Need(w, i, r.shiftType, r.skill, 0, 0))
  {
    if d > 0 { DayNeedKeys(w, r, d - 1); }
  }

  lemma {:induction false} WeekNeedOrigin(w: nat, week: Week, r: nat, i: nat) returns (q: nat)
    requires r <= |week.requirements| && i < |WeekNeeds(w, week, r)|
    ensures q < r
    ensures var need := WeekNeeds(w, week, r)[i];
      need.week == w && need.shiftType == week.requirements[q].shiftType && need.skill == week.requirements[q].skill
  {
    if i < |WeekNeeds(w, week, r - 1)| {
      q := WeekNeedOrigin(w, week, r - 1, i);
    } else {
      q := r - 1;
      DayNeedKeys(w, week.requirements[q], |week.requirements[q].days|);
    }
  }

  lemma KeysDifferConcat(a: seq<Need>, b: seq<Need>)
    requires KeysDiffer(a) && KeysDiffer(b)
    requires forall i, j | 0 <= i < |a| && 0 <= j < |b| :: !SameKey(a[i], b[j])
    ensures KeysDiffer(a + b)
  {
  }

  lemma {:induction false} WeekKeysDiffer(inst: Instance, w: nat, r: nat)
    requires inst.WellFormed() && w < |inst.weeks| && r <= |inst.weeks[w].requirements|
    ensures KeysDiffer(WeekNeeds(w, inst.weeks[w], r))
  {
    if r > 0 {
      var week, last := inst.weeks[w], inst.weeks[w].requirements[r - 1];
      var before, added := WeekNeeds(w, week, r - 1), DayNeeds(w, last, |last.days|);
      WeekKeysDiffer(inst, w, r - 1);
      DayNeedKeys(w, last, |last.days|);
      assert inst.WeekOk(week);
      forall i, j | 0 <= i < |before| && 0 <= j < |added| ensures !SameKey(before[i], added[j]) {
        var q := WeekNeedOrigin(w, week, r - 1, i);
      }
      KeysDifferConcat(before, added);
    }
  }

  lemma {:induction false} NeedOrigin(weeks: seq<Week>, w: nat, i: nat)
    requires w <= |weeks| && i < |NeedsBefore(weeks, w)|
    ensures NeedsBefore(weeks, w)[i].week < w
  {
    var before := NeedsBefore(weeks, w - 1);
    if i < |before| {
      NeedOrigin(weeks, w - 1, i);
    } else {
      var q := WeekNeedOrigin(w - 1, weeks[w - 1], |weeks[w - 1].requirements|, i - |before|);
    }
  }

  lemma {:induction false} NeedsDiffer(inst: Instance, w: nat)
    requires inst.WellFormed() && w <= |inst.weeks|
    ensures KeysDiffer(NeedsBefore(inst.weeks, w))
  {
    if w > 0 {
      var n := |inst.weeks[w - 1].requirements|;
      var before, added := NeedsBefore(inst.weeks, w - 1), WeekNeeds(w - 1, inst.weeks[w - 1], n);
      NeedsDiffer(inst, w - 1);
      WeekKeysDiffer(inst, w - 1, n);
      forall i, j | 0 <= i < |before| && 0 <= j < |added| ensures !SameKey(before[i], added[j]) {
        NeedOrigin(inst.weeks, w - 1, i);
        var q := WeekNeedOrigin(w - 1, inst.weeks[w - 1], n, j);
      }
      KeysDifferConcat(before, added);
    }
  }

  // ----- requests -----

  // Charge of the first k slots for the requests they refuse.
  ghost function RefusedSum(slots: seq<Slot>, nurses: Assigned, requests: seq<DayRequest>, k: nat): int
    requires k <= |slots| == |nurses|
  {
    if k == 0 then 0
    else
      RefusedSum(slots, nurses, requests, k - 1) +
      (if nurses[k - 1].Some? then
         10 * RequestCount(requests, nurses[k - 1].value, slots[k - 1].GlobalDay(), slots[k - 1].shiftType)
       else 0)
  }

  // Slots among the first k that refuse the request.
  ghost function RefusedBy(slots: seq<Slot>, nurses: Assigned, r: DayRequest, k: nat): nat
    requires k <= |slots| == |nurses|
  {
    if k == 0 then 0
    else
      RefusedBy(slots, nurses, r, k - 1) +
      (if nurses[k - 1] == Some(r.nurse) && slots[k - 1].GlobalDay() == r.globalDay && Matches(r, slots[k - 1].shiftType)
       then 1 else 0)
  }

  lemma {:induction false} RefusedSplits(slots: seq<Slot>, nurses: Assigned, requests: seq<DayRequest>, k: nat)
    requires k <= |slots| == |nurses| && requests != []
    ensures var init, r := requests[..|requests| - 1], requests[|requests| - 1];
      RefusedSum(slots, nurses, requests, k) == RefusedSum(slots, nurses, init, k) + 10 * RefusedBy(slots, nurses, r, k)
  {
    if k > 0 { RefusedSplits(slots, nurses, requests, k - 1); }
  }

  lemma {:induction false} NothingRefused(slots: seq<Slot>, nurses: Assigned, k: nat)
    requires k <= |slots| == |nurses|
    ensures RefusedSum(slots, nurses, [], k) == 0
  {
    if k > 0 { NothingRefused(slots, nurses, k - 1); }
  }

  // A nurse works at most one slot a day.
  ghost predicate OncePerDay(slots: seq<Slot>, nurses: Assigned)
    requires |slots| == |nurses|
  {
    forall i, j | 0 <= i < j < |slots| && nurses[i].Some? && nurses[i] == nurses[j] ::
      slots[i].GlobalDay() != slots[j].GlobalDay()
  }

  lemma OnceFromHard(inst: Instance, slots: seq<Slot>, nurses: Assigned, weeks: nat)
    requires |inst.history| == |inst.nurses| && HardOk(inst, slots, nurses) && InRange(slots, weeks)
    ensures OncePerDay(slots, nurses)
  {
    forall i, j | 0 <= i < j < |slots| && nurses[i].Some? && nurses[i] == nurses[j]
      ensures slots[i].GlobalDay() != slots[j].GlobalDay()
    {
      assert !SameDay(slots, nurses, i, j);
      GlobalSplit(slots[i], slots[j].week, slots[j].day);
    }
  }

  lemma {:induction false} RefusedOnce(slots: seq<Slot>, nurses: Assigned, r: DayRequest, k: nat)
    requires k <= |slots| == |nurses| && OncePerDay(slots, nurses)
    ensures var s := SlotOf(slots, nurses, r.nurse, r.globalDay, k);
      RefusedBy(slots, nurses, r, k) == if s.Some? && Matches(r, slots[s.value].shiftType) then 1 else 0
  {
    if k > 0 { RefusedOnce(slots, nurses, r, k - 1); }
  }

  lemma {:induction false} RefusalsParity(slots: seq<Slot>, nurses: Assigned, weeks: nat, requests: seq<DayRequest>)
    requires |slots| == |nurses| && InRange(slots, weeks) && OncePerDay(slots, nurses)
    requires forall q | 0 <= q < |requests| :: requests[q].globalDay < 7 * weeks
    ensures Refusals(Extracted(slots, nurses, weeks), requests) == RefusedSum(slots, nurses, requests, |slots|)
  {
    if requests == [] {
      NothingRefused(slots, nurses, |slots|);
    } else {
      var init, r := requests[..|requests| - 1], requests[|requests| - 1];
      RefusalsParity(slots, nurses, weeks, init);
      RefusedSplits(slots, nurses, requests, |slots|);
      RefusedOnce(slots, nurses, r, |slots|);
      EntryOfSlot(slots, nurses, weeks, r.nurse, r.globalDay);
    }
  }

  lemma {:induction false} WeekRequestsInRange(inst: Instance, w: nat, q: nat)
    requires inst.WellFormed() && w < |inst.weeks| && q <= |inst.weeks[w].requests|
    ensures forall i | 0 <= i < |WeekRequests(w, inst.weeks[w], q)| ::
      WeekRequests(w, inst.weeks[w], q)[i].globalDay < 7 * (w + 1)
  {
    if q > 0 {
      WeekRequestsInRange(inst, w, q - 1);
      assert inst.WeekOk(inst.weeks[w]);
    }
  }

  lemma {:induction false} RequestsInRange(inst: Instance, w: nat)
    requires inst.WellFormed() && w <= |inst.weeks|
    ensures forall i | 0 <= i < |RequestsBefore(inst.weeks, w)| :: RequestsBefore(inst.weeks, w)[i].globalDay < 7 * w
  {
    if w > 0 {
      RequestsInRange(inst, w - 1);
      WeekRequestsInRange(inst, w - 1, |inst.weeks[w - 1].requests|);
    }
  }

  // ----- presence -----

  // Days nurse n works, and days in type t, over the first k slots.
  ghost function Present(slots: seq<Slot>, nurses: Assigned, days: nat, n: nat, k: nat): (act: Activity)
    requires k <= |slots| == |nurses|
    ensures |act| == days && forall g | 0 <= g < days :: act[g] == SlotOf(slots, nurses, n, g, k).Some?
  {
    seq(days, g requires 0 <= g < days => SlotOf(slots, nurses, n, g, k).Some?)
  }

  ghost predicate WorksType(slots: seq<Slot>, nurses: Assigned, n: nat, t: nat, g: nat)
    requires |slots| == |nurses|
  {
    var s := SlotOf(slots, nurses, n, g, |slots|);
    s.Some? && slots[s.value].shiftType == t
  }

  ghost function PresentType(slots: seq<Slot>, nurses: Assigned, days: nat, n: nat, t: nat): (act: Activity)
    requires |slots| == |nurses|
    ensures |act| == days && forall g | 0 <= g < days :: act[g] == WorksType(slots, nurses, n, t, g)
  {
    seq(days, g requires 0 <= g < days => WorksType(slots, nurses, n, t, g))
  }

  // Slots nurse n holds among the first k.
  ghost function ItemCount(nurses: Assigned, n: nat, k: nat): nat
    requires k <= |nurses|
  {
    if k == 0 then 0 else ItemCount(nurses, n, k - 1) + (if nurses[k - 1] == Some(n) then 1 else 0)
  }

  lemma WorkedIsPresent(slots: seq<Slot>, nurses: Assigned, weeks: nat, n: nat)
    requires |slots| == |nurses| && InRange(slots, weeks)
    ensures Worked(Extracted(slots, nurses, weeks), n) == Present(slots, nurses, 7 * weeks, n, |slots|)
  {
    forall g: nat | g < 7 * weeks
      ensures Worked(Extracted(slots, nurses, weeks), n)[g] == Present(slots, nurses, 7 * weeks, n, |slots|)[g]
    {
      EntryOfSlot(slots, nurses, weeks, n, g);
    }
  }

  lemma TypeIsPresent(slots: seq<Slot>, nurses: Assigned, weeks: nat, n: nat, t: nat)
    requires |slots| == |nurses| && InRange(slots, weeks)
    ensures WorkedType(Extracted(slots, nurses, weeks), n, t) == PresentType(slots, nurses, 7 * weeks, n, t)
  {
    forall g: nat | g < 7 * weeks
      ensures WorkedType(Extracted(slots, nurses, weeks), n, t)[g] == PresentType(slots, nurses, 7 * weeks, n, t)[g]
    {
      EntryOfSlot(slots, nurses, weeks, n, g);
    }
  }

  lemma {:induction false} CountSet(act: Activity, g: nat, k: nat)
    requires g < |act| && k <= |act| && !act[g]
    ensures Count(act[g := true], k) == Count(act, k) + (if g < k then 1 else 0)
  {
    if k > 0 { CountSet(act, g, k - 1); }
  }

  lemma {:induction false} CountNone(act: Activity, k: nat)
    requires k <= |act| && forall g | 0 <= g < k :: !act[g]
    ensures Count(act, k) == 0
  {
    if k > 0 { CountNone(act, k - 1); }
  }

  // With one slot a day, counting slots counts days.
  lemma {:induction false} ItemsAreDays(slots: seq<Slot>, nurses: Assigned, weeks: nat, n: nat, k: nat)
    requires k <= |slots| == |nurses| && InRange(slots, weeks) && OncePerDay(slots, nurses)
    ensures Count(Present(slots, nurses, 7 * weeks, n, k), 7 * weeks) == ItemCount(nurses, n, k)
  {
    if k == 0 {
      CountNone(Present(slots, nurses, 7 * weeks, n, 0), 7 * weeks);
    } else {
      ItemsAreDays(slots, nurses, weeks, n, k - 1);
      var before, after := Present(slots, nurses, 7 * weeks, n, k - 1), Present(slots, nurses, 7 * weeks, n, k);
      if nurses[k - 1] == Some(n) {
        var g := slots[k - 1].GlobalDay();
        assert g < 7 * weeks;
        assert !before[g];
        assert after == before[g := true];
        CountSet(before, g, 7 * weeks);
      } else {
        assert after == before;
      }
    }
  }

  // ----- the slot model's soft cost -----

  // Charges of one nurse, with slots counted instead of days.
  ghost function SlotNurse(c: Contract, h: History, items: nat, act: Activity): NurseCosts
    requires |act| % 7 == 0
  {
    NurseCost(c, h, act).(assignments := AssignmentCost(items + h.assignments, c))
  }

  ghost function SlotCosts(inst: Instance, slots: seq<Slot>, nurses: Assigned, n: nat): NurseCosts
    requires inst.WellFormed() && n < |inst.nurses| && |slots| == |nurses|
  {
    SlotNurse(inst.ContractOf(n), inst.history[n], ItemCount(nurses, n, |nurses|),
              Present(slots, nurses, inst.TotalDays(), n, |slots|))
  }

  ghost function SlotTypes(inst: Instance, slots: seq<Slot>, nurses: Assigned, n: nat, t: nat): int
    requires n < |inst.history| && t <= |inst.shiftTypes| && |slots| == |nurses|
  {
    if t == 0 then 0
    else
      SlotTypes(inst, slots, nurses, n, t - 1) +
      TypeCost(inst.shiftTypes[t - 1], inst.history[n], t - 1, PresentType(slots, nurses, inst.TotalDays(), n, t - 1))
  }

  ghost function SlotNurses(inst: Instance, slots: seq<Slot>, nurses: Assigned, k: nat): Breakdown
    requires inst.WellFormed() && k <= |inst.nurses| && |slots| == |nurses|
  {
    if k == 0 then Breakdown(0, 0, 0, 0, 0, 0, 0, 0)
    else
      AddNurse(SlotNurses(inst, slots, nurses, k - 1), SlotCosts(inst, slots, nurses, k - 1),
               SlotTypes(inst, slots, nurses, k - 1, |inst.shiftTypes|))
  }

  // Soft penalties of the slot model, by rule.
  ghost function SlotBreakdown(inst: Instance, slots: seq<Slot>, nurses: Assigned): Breakdown
    requires inst.WellFormed() && |slots| == |nurses|
  {
    SlotNurses(inst, slots, nurses, |inst.nurses|).(
      optimalCoverage := 30 * VacantOptional(slots, nurses, |slots|),
      shiftOff := RefusedSum(slots, nurses, Requests(inst), |slots|))
  }

  // Empty slots beyond the minimum.
  ghost function VacantOptional(slots: seq<Slot>, nurses: Assigned, k: nat): nat
    requires k <= |slots| == |nurses|
  {
    if k == 0 then 0
    else VacantOptional(slots, nurses, k - 1) + (if nurses[k - 1].None? && !slots[k - 1].isMinimum then 1 else 0)
  }

  lemma {:induction false} AllVacantOptional(slots: seq<Slot>, nurses: Assigned, k: nat)
    requires k <= |slots| == |nurses| && forall i | 0 <= i < |slots| && slots[i].isMinimum :: nurses[i].Some?
    ensures VacantOptional(slots, nurses, k) == Vacant(nurses, k)
  {
    if k > 0 { AllVacantOptional(slots, nurses, k - 1); }
  }

  ghost predicate SameDays(inst: Instance, roster: Roster, slots: seq<Slot>, nurses: Assigned, n: nat, id: nat)
    requires |slots| == |nurses|
  {
    WorkedType(roster, n, id) == PresentType(slots, nurses, inst.TotalDays(), n, id)
  }

  lemma {:induction false} TypesAdd(inst: Instance, roster: Roster, slots: seq<Slot>, nurses: Assigned, n: nat, t: nat)
    requires n < |inst.history| && t <= |inst.shiftTypes| && |slots| == |nurses|
    requires forall id: nat | id < t :: SameDays(inst, roster, slots, nurses, n, id)
    ensures TypeCosts(inst, roster, n, t) == SlotTypes(inst, slots, nurses, n, t)
  {
    if t > 0 {
      TypesAdd(inst, roster, slots, nurses, n, t - 1);
      assert SameDays(inst, roster, slots, nurses, n, t - 1);
    }
  }

  lemma TypesParity(inst: Instance, slots: seq<Slot>, nurses: Assigned, n: nat)
    requires n < |inst.history| && |slots| == |nurses| && InRange(slots, |inst.weeks|)
    ensures TypeCosts(inst, Extracted(slots, nurses, |inst.weeks|), n, |inst.shiftTypes|) ==
      SlotTypes(inst, slots, nurses, n, |inst.shiftTypes|)
  {
    var roster := Extracted(slots, nurses, |inst.weeks|);
    forall id: nat | id < |inst.shiftTypes| ensures SameDays(inst, roster, slots, nurses, n, id) {
      TypeIsPresent(slots, nurses, |inst.weeks|, n, id);
    }
    TypesAdd(inst, roster, slots, nurses, n, |inst.shiftTypes|);
  }

  lemma NurseParity(inst: Instance, slots: seq<Slot>, nurses: Assigned, n: nat)
    requires inst.WellFormed() && n < |inst.nurses| && |slots| == |nurses|
    requires InRange(slots, |inst.weeks|) && OncePerDay(slots, nurses)
    ensures CostsOf(inst, Extracted(slots, nurses, |inst.weeks|), n) == SlotCosts(inst, slots, nurses, n)
  {
    var act := Worked(Extracted(slots, nurses, |inst.weeks|), n);
    WorkedIsPresent(slots, nurses, |inst.weeks|, n);
    ItemsAreDays(slots, nurses, |inst.weeks|, n, |slots|);
    CountedAlike(inst.ContractOf(n), inst.history[n], ItemCount(nurses, n, |nurses|), act);
  }

  lemma CountedAlike(c: Contract, h: History, items: nat, act: Activity)
    requires |act| % 7 == 0 && items == Count(act, |act|)
    ensures SlotNurse(c, h, items, act) == NurseCost(c, h, act)
  {
  }

  ghost predicate SameCharges(inst: Instance, roster: Roster, slots: seq<Slot>, nurses: Assigned, n: nat)
    requires inst.WellFormed() && n < |inst.nurses| && |slots| == |nurses|
  {
    && CostsOf(inst, roster, n) == SlotCosts(inst, slots, nurses, n)
    && TypeCosts(inst, roster, n, |inst.shiftTypes|) == SlotTypes(inst, slots, nurses, n, |inst.shiftTypes|)
  }

  lemma ChargeStep(inst: Instance, roster: Roster, slots: seq<Slot>, nurses: Assigned, k: nat)
    requires inst.WellFormed() && k < |inst.nurses| && |slots| == |nurses|
    requires CostsOf(inst, roster, k) == SlotCosts(inst, slots, nurses, k)
    requires TypeCosts(inst, roster, k, |inst.shiftTypes|) == SlotTypes(inst, slots, nurses, k, |inst.shiftTypes|)
    requires NurseCharges(inst, roster, k) == SlotNurses(inst, slots, nurses, k)
    ensures NurseCharges(inst, roster, k + 1) == SlotNurses(inst, slots, nurses, k + 1)
  {
  }

  lemma {:induction false} ChargesAdd(inst: Instance, roster: Roster, slots: seq<Slot>, nurses: Assigned, k: nat)
    requires inst.WellFormed() && k <= |inst.nurses| && |slots| == |nurses|
    requires forall n: nat | n < |inst.nurses| :: SameCharges(inst, roster, slots, nurses, n)
    ensures NurseCharges(inst, roster, k) == SlotNurses(inst, slots, nurses, k)
  {
    if k > 0 {
      ChargesAdd(inst, roster, slots, nurses, k - 1);
      assert SameCharges(inst, roster, slots, nurses, k - 1);
      ChargeStep(inst, roster, slots, nurses, k - 1);
    }
  }

  lemma NursesParity(inst: Instance, slots: seq<Slot>, nurses: Assigned)
    requires inst.WellFormed() && |slots| == |nurses| && InRange(slots, |inst.weeks|) && OncePerDay(slots, nurses)
    ensures NurseCharges(inst, Extracted(slots, nurses, |inst.weeks|), |inst.nurses|) ==
      SlotNurses(inst, slots, nurses, |inst.nurses|)
  {
    var roster := Extracted(slots, nurses, |inst.weeks|);
    forall n: nat | n < |inst.nurses| ensures SameCharges(inst, roster, slots, nurses, n) {
      NurseParity(inst, slots, nurses, n);
      TypesParity(inst, slots, nurses, n);
    }
    ChargesAdd(inst, roster, slots, nurses, |inst.nurses|);
  }

  // ----- the theorem -----

  lemma SlotsInRange(inst: Instance)
    requires inst.WellFormed()
    ensures InRange(Slots(Needs(inst)), |inst.weeks|)
  {
    forall i | 0 <= i < |Slots(Needs(inst))| ensures Slots(Needs(inst))[i].week < |inst.weeks| && Slots(Needs(inst))[i].day < 7 {
      SlotInRange(inst, i);
    }
  }

  lemma NeedsCarry(inst: Instance, nurses: Assigned, j: nat)
    requires inst.WellFormed() && HardOk(inst, Slots(Needs(inst)), nurses) && j < |Needs(inst)|
    ensures NeedMet(Extracted(Slots(Needs(inst)), nurses, |inst.weeks|), Needs(inst)[j])
  {
    var needs, slots := Needs(inst), Slots(Needs(inst));
    NeedsDiffer(inst, |inst.weeks|);
    NeedOrigin(inst.weeks, |inst.weeks|, j);
    CoveredByBlock(needs, nurses, |inst.weeks|, j);
    BlockAt(needs, j);
    forall i | 0 <= i < |slots| && slots[i].isMinimum ensures nurses[i].Some? {
      assert SlotOk(inst, slots[i], nurses[i]);
    }
    MinimumFilled(slots, nurses, needs[j], Start(needs, j), Quantity(needs[j]));
    NeedOptimal(inst, |inst.weeks|, j);
  }

  lemma {:induction false} DayOptimal(w: nat, r: Requirement, d: nat)
    requires d <= |r.days| && forall i | 0 <= i < |r.days| :: r.days[i].minimum <= r.days[i].optimal
    ensures forall i | 0 <= i < d :: DayNeeds(w, r, d)[i].minimum <= DayNeeds(w, r, d)[i].optimal
  {
    if d > 0 { DayOptimal(w, r, d - 1); }
  }

  lemma {:induction false} WeekOptimal(inst: Instance, w: nat, r: nat)
    requires inst.WellFormed() && w < |inst.weeks| && r <= |inst.weeks[w].requirements|
    ensures forall i | 0 <= i < |WeekNeeds(w, inst.weeks[w], r)| ::
      WeekNeeds(w, inst.weeks[w], r)[i].minimum <= WeekNeeds(w, inst.weeks[w], r)[i].optimal
  {
    if r > 0 {
      WeekOptimal(inst, w, r - 1);
      assert inst.WeekOk(inst.weeks[w]) && inst.RequirementOk(inst.weeks[w].requirements[r - 1]);
      DayOptimal(w, inst.weeks[w].requirements[r - 1], 7);
    }
  }

  lemma {:induction false} NeedOptimal(inst: Instance, w: nat, j: nat)
    requires inst.WellFormed() && w <= |inst.weeks| && j < |NeedsBefore(inst.weeks, w)|
    ensures NeedsBefore(inst.weeks, w)[j].minimum <= NeedsBefore(inst.weeks, w)[j].optimal
  {
    if j < |NeedsBefore(inst.weeks, w - 1)| {
      NeedOptimal(inst, w - 1, j);
    } else {
      WeekOptimal(inst, w - 1, |inst.weeks[w - 1].requirements|);
    }
  }

  // A slot assignment without hard violation gives a roster the validator accepts.
  lemma ExtractedAccepted(inst: Instance, nurses: Assigned)
    requires inst.WellFormed() && HardOk(inst, Slots(Needs(inst)), nurses)
    ensures Accepted(inst, Extracted(Slots(Needs(inst)), nurses, |inst.weeks|))
  {
    var slots, weeks := Slots(Needs(inst)), |inst.weeks|;
    var roster := Extracted(slots, nurses, weeks);
    SlotsInRange(inst);
    forall w | 0 <= w < weeks ensures WeekAssigned(inst, roster[w]) {
      WeeklyAssigned(inst, slots, nurses, w, |slots|);
    }
    forall j | 0 <= j < |Needs(inst)| ensures NeedMet(roster, Needs(inst)[j]) {
      NeedsCarry(inst, nurses, j);
    }
    forall n, g | 0 <= n < |inst.nurses| && 0 <= g < 7 * |roster| ensures SuccessionOk(inst, roster, n, g) {
      SuccessionCarries(inst, slots, nurses, weeks, n, g);
    }
  }

  // Parity: accepted, and every rule charges the same in both models.
  lemma SlotParity(inst: Instance, nurses: Assigned)
    requires inst.WellFormed() && HardOk(inst, Slots(Needs(inst)), nurses)
    ensures Accepted(inst, Extracted(Slots(Needs(inst)), nurses, |inst.weeks|))
    ensures BreakdownOf(inst, Extracted(Slots(Needs(inst)), nurses, |inst.weeks|)) ==
      SlotBreakdown(inst, Slots(Needs(inst)), nurses)
  {
    var needs, slots, weeks := Needs(inst), Slots(Needs(inst)), |inst.weeks|;
    ExtractedAccepted(inst, nurses);
    SlotsInRange(inst);
    OnceFromHard(inst, slots, nurses, weeks);
    NursesParity(inst, slots, nurses);
    RequestsInRange(inst, weeks);
    RefusalsParity(slots, nurses, weeks, Requests(inst));
    CoverageParity(inst, nurses);
  }

  lemma CoverageParity(inst: Instance, nurses: Assigned)
    requires inst.WellFormed() && HardOk(inst, Slots(Needs(inst)), nurses)
    ensures Shortfalls(Extracted(Slots(Needs(inst)), nurses, |inst.weeks|), Needs(inst)) ==
      30 * VacantOptional(Slots(Needs(inst)), nurses, |Slots(Needs(inst))|)
  {
    var needs, slots, weeks := Needs(inst), Slots(Needs(inst)), |inst.weeks|;
    NeedsDiffer(inst, weeks);
    forall j | 0 <= j < |needs| ensures needs[j].week < weeks {
      NeedOrigin(inst.weeks, weeks, j);
    }
    forall i | 0 <= i < |slots| && slots[i].isMinimum ensures nurses[i].Some? {
      assert SlotOk(inst, slots[i], nurses[i]);
    }
    ShortfallsAreVacancies(needs, nurses, weeks, |needs|);
    assert needs[..|needs|] == needs;
    AllVacantOptional(slots, nurses, |slots|);
  }
}
