// Every acceptable roster drawn from the demands comes from a legal choice of pairs, and
// rosters with the same entries cost the same.
module RosterMilpRoster {
  import opened Wrappers
  import opened RosterModel
  import opened RosterSlots
  import opened RosterParity
  import opened RosterConflicts
  import opened RosterCoverage
  import opened MilpParts
  import opened RosterMilp
  import opened RosterMilpShared
  import opened RosterMilpLegal

  // ----- rosters with the same entries -----

  ghost predicate SameEntry(a: Roster, b: Roster, n: nat, g: nat)
    requires g < 7 * |a| == 7 * |b|
  {
    Entry(a, n, g) == Entry(b, n, g)
  }

  ghost predicate SameEntries(inst: Instance, a: Roster, b: Roster) {
    |a| == |b| == |inst.weeks| &&
    forall n: nat, g: nat | n < |inst.nurses| && g < 7 * |a| :: SameEntry(a, b, n, g)
  }

  // Whether nurse n's entry on the need's day answers it.
  ghost predicate Answers(week: seq<Assignment>, need: Need, n: nat, k: nat)
    requires k <= |week|
  {
    EntryIn(week, n, need.day, k).Some? && Serves(EntryIn(week, n, need.day, k).value, need)
  }

  ghost function Answering(week: seq<Assignment>, need: Need, n: nat, k: nat): nat
    requires k <= |week|
  {
    if n == 0 then 0 else Answering(week, need, n - 1, k) + (if Answers(week, need, n - 1, k) then 1 else 0)
  }

  lemma {:induction false} EntryInMeaning(week: seq<Assignment>, n: nat, day: nat, k: nat)
    requires k <= |week|
    ensures var e := EntryIn(week, n, day, k);
      && (e.Some? ==> e.value in week[..k] && e.value.nurse == n && e.value.day == day)
      && (e.None? ==> forall i | 0 <= i < k :: !(week[i].nurse == n && week[i].day == day))
  {
    if k > 0 { EntryInMeaning(week, n, day, k - 1); }
  }

  // No earlier assignment is on the nurse and day of the next one.
  lemma FreshEntry(inst: Instance, week: seq<Assignment>, k: nat)
    requires |inst.history| == |inst.nurses| && WeekAssigned(inst, week) && k < |week|
    ensures EntryIn(week, week[k].nurse, week[k].day, k).None?
  {
    forall i | 0 <= i < k ensures !(week[i].nurse == week[k].nurse && week[i].day == week[k].day) {
      assert !Clash(week[i], week[k]);
    }
    EntryInMeaning(week, week[k].nurse, week[k].day, k);
  }

  // The next assignment changes the answer of its own nurse only, and only from no to yes.
  lemma NextAnswer(inst: Instance, week: seq<Assignment>, need: Need, n: nat, k: nat)
    requires |inst.history| == |inst.nurses| && WeekAssigned(inst, week) && k < |week|
    ensures n != week[k].nurse ==> (Answers(week, need, n, k + 1) <==> Answers(week, need, n, k))
    ensures n == week[k].nurse && Serves(week[k], need) ==> !Answers(week, need, n, k) && Answers(week, need, n, k + 1)
    ensures n == week[k].nurse && !Serves(week[k], need) ==> (Answers(week, need, n, k + 1) <==> Answers(week, need, n, k))
  {
    FreshEntry(inst, week, k);
  }

  lemma {:induction false} AnsweringStep(inst: Instance, week: seq<Assignment>, need: Need, n: nat, k: nat)
    requires |inst.history| == |inst.nurses| && WeekAssigned(inst, week) && k < |week|
    ensures Answering(week, need, n, k + 1) ==
      Answering(week, need, n, k) + (if week[k].nurse < n && Serves(week[k], need) then 1 else 0)
  {
    if n > 0 {
      AnsweringStep(inst, week, need, n - 1, k);
      NextAnswer(inst, week, need, n - 1, k);
    }
  }

  lemma {:induction false} NobodyAnswers(week: seq<Assignment>, need: Need, n: nat)
    ensures Answering(week, need, n, 0) == 0
  {
    if n > 0 { NobodyAnswers(week, need, n - 1); }
  }

  // Coverage counts the nurses whose entries answer the need.
  lemma {:induction false} CoverageByNurse(inst: Instance, week: seq<Assignment>, need: Need, k: nat)
    requires |inst.history| == |inst.nurses| && WeekAssigned(inst, week) && k <= |week|
    ensures Coverage(week, need, k) == Answering(week, need, |inst.nurses|, k)
  {
    if k == 0 {
      NobodyAnswers(week, need, |inst.nurses|);
    } else {
      CoverageByNurse(inst, week, need, k - 1);
      AnsweringStep(inst, week, need, |inst.nurses|, k - 1);
      assert AssignmentOk(inst, week[k - 1]);
    }
  }

  lemma EntryIsAssignment(inst: Instance, week: seq<Assignment>, p: nat)
    requires |inst.history| == |inst.nurses| && WeekAssigned(inst, week) && p < |week|
    ensures EntryIn(week, week[p].nurse, week[p].day, |week|) == Some(week[p])
  {
    EntryKept(inst, week, p, |week|);
  }

  lemma {:induction false} EntryKept(inst: Instance, week: seq<Assignment>, p: nat, k: nat)
    requires |inst.history| == |inst.nurses| && WeekAssigned(inst, week) && p < k <= |week|
    ensures EntryIn(week, week[p].nurse, week[p].day, k) == Some(week[p])
  {
    if p < k - 1 {
      EntryKept(inst, week, p, k - 1);
      assert !Clash(week[p], week[k - 1]);
    }
  }

  lemma {:induction false} SameAnswers(a: seq<Assignment>, b: seq<Assignment>, need: Need, n: nat)
    requires forall i: nat | i < n :: EntryIn(a, i, need.day, |a|) == EntryIn(b, i, need.day, |b|)
    ensures Answering(a, need, n, |a|) == Answering(b, need, n, |b|)
  {
    if n > 0 { SameAnswers(a, b, need, n - 1); }
  }

  lemma SameCoverage(inst: Instance, a: Roster, b: Roster, need: Need)
    requires |inst.history| == |inst.nurses| && SameEntries(inst, a, b)
    requires need.week < |a| && need.day < 7 && WeekAssigned(inst, a[need.week]) && WeekAssigned(inst, b[need.week])
    ensures Covered(a, need) == Covered(b, need)
  {
    var wa, wb := a[need.week], b[need.week];
    CoverageByNurse(inst, wa, need, |wa|);
    CoverageByNurse(inst, wb, need, |wb|);
    forall i: nat | i < |inst.nurses| ensures EntryIn(wa, i, need.day, |wa|) == EntryIn(wb, i, need.day, |wb|) {
      assert SameEntry(a, b, i, 7 * need.week + need.day);
    }
    SameAnswers(wa, wb, need, |inst.nurses|);
  }

  lemma {:induction false} SameShortfalls(inst: Instance, a: Roster, b: Roster, needs: seq<Need>)
    requires |inst.history| == |inst.nurses| && SameEntries(inst, a, b)
    requires forall w | 0 <= w < |a| :: WeekAssigned(inst, a[w]) && WeekAssigned(inst, b[w])
    requires forall i | 0 <= i < |needs| :: NeedInRange(inst, needs[i])
    ensures Shortfalls(a, needs) == Shortfalls(b, needs)
  {
    if needs != [] {
      var last := needs[|needs| - 1];
      SameShortfalls(inst, a, b, needs[..|needs| - 1]);
      assert NeedInRange(inst, last);
      SameCoverage(inst, a, b, last);
    }
  }

  lemma {:induction false} SameRefusals(inst: Instance, a: Roster, b: Roster, requests: seq<DayRequest>)
    requires SameEntries(inst, a, b)
    requires forall q | 0 <= q < |requests| :: requests[q].nurse < |inst.nurses|
    ensures Refusals(a, requests) == Refusals(b, requests)
  {
    if requests != [] {
      var last := requests[|requests| - 1];
      SameRefusals(inst, a, b, requests[..|requests| - 1]);
      if last.globalDay < 7 * |a| { assert SameEntry(a, b, last.nurse, last.globalDay); }
    }
  }

  lemma SameWork(inst: Instance, a: Roster, b: Roster, n: nat)
    requires SameEntries(inst, a, b) && n < |inst.nurses|
    ensures Worked(a, n) == Worked(b, n) && forall t: nat :: WorkedType(a, n, t) == WorkedType(b, n, t)
  {
    forall g: nat | g < 7 * |a| ensures Worked(a, n)[g] == Worked(b, n)[g] {
      assert SameEntry(a, b, n, g);
    }
    assert Worked(a, n) == Worked(b, n);
    forall t: nat ensures WorkedType(a, n, t) == WorkedType(b, n, t) {
      forall g: nat | g < 7 * |a| ensures WorkedType(a, n, t)[g] == WorkedType(b, n, t)[g] {
        assert SameEntry(a, b, n, g);
      }
    }
  }

  lemma {:induction false} SameTypeCosts(inst: Instance, a: Roster, b: Roster, n: nat, t: nat)
    requires SameEntries(inst, a, b) && n < |inst.nurses| == |inst.history| && t <= |inst.shiftTypes|
    ensures TypeCosts(inst, a, n, t) == TypeCosts(inst, b, n, t)
  {
    if t > 0 {
      SameTypeCosts(inst, a, b, n, t - 1);
      SameWork(inst, a, b, n);
      assert WorkedType(a, n, t - 1) == WorkedType(b, n, t - 1);
    }
  }

  lemma SameCosts(inst: Instance, a: Roster, b: Roster, n: nat)
    requires inst.WellFormed() && SameEntries(inst, a, b) && n < |inst.nurses|
    ensures CostsOf(inst, a, n) == CostsOf(inst, b, n)
  {
    SameWork(inst, a, b, n);
  }

  lemma SameChargeStep(inst: Instance, a: Roster, b: Roster, k: nat)
    requires inst.WellFormed() && k < |inst.nurses| && CostsOf(inst, a, k) == CostsOf(inst, b, k)
    requires TypeCosts(inst, a, k, |inst.shiftTypes|) == TypeCosts(inst, b, k, |inst.shiftTypes|)
    requires NurseCharges(inst, a, k) == NurseCharges(inst, b, k)
    ensures NurseCharges(inst, a, k + 1) == NurseCharges(inst, b, k + 1)
  {
  }

  lemma {:induction false} SameCharges(inst: Instance, a: Roster, b: Roster, k: nat)
    requires inst.WellFormed() && SameEntries(inst, a, b) && k <= |inst.nurses|
    ensures NurseCharges(inst, a, k) == NurseCharges(inst, b, k)
  {
    if k > 0 {
      SameCharges(inst, a, b, k - 1);
      SameCosts(inst, a, b, k - 1);
      SameTypeCosts(inst, a, b, k - 1, |inst.shiftTypes|);
      SameChargeStep(inst, a, b, k - 1);
    }
  }

  lemma {:induction false} WeekRequestNurses(inst: Instance, w: nat, q: nat)
    requires inst.WellFormed() && w < |inst.weeks| && q <= |inst.weeks[w].requests|
    ensures forall i | 0 <= i < |WeekRequests(w, inst.weeks[w], q)| :: WeekRequests(w, inst.weeks[w], q)[i].nurse < |inst.nurses|
  {
    if q > 0 {
      WeekRequestNurses(inst, w, q - 1);
      assert inst.WeekOk(inst.weeks[w]);
    }
  }

  lemma {:induction false} RequestNurses(inst: Instance, w: nat)
    requires inst.WellFormed() && w <= |inst.weeks|
    ensures forall i | 0 <= i < |RequestsBefore(inst.weeks, w)| :: RequestsBefore(inst.weeks, w)[i].nurse < |inst.nurses|
  {
    if w > 0 {
      RequestNurses(inst, w - 1);
      WeekRequestNurses(inst, w - 1, |inst.weeks[w - 1].requests|);
    }
  }

  lemma SameWanted(l: Layout, a: Roster, b: Roster, w: nat, i: nat)
    requires l.inst.WellFormed() && Accepted(l.inst, a) && Accepted(l.inst, b) && SameEntries(l.inst, a, b)
    requires w < |b| && i < |b[w]| && WeekWanted(l.demands, w, a[w])
    ensures Wanted(l.demands, w, b[w][i])
  {
    var e := b[w][i];
    assert WeekAssigned(l.inst, b[w]) && AssignmentOk(l.inst, e);
    EntryIsAssignment(l.inst, b[w], i);
    assert SameEntry(a, b, e.nurse, 7 * w + e.day);
    EntryInMeaning(a[w], e.nurse, e.day, |a[w]|);
    assert e in a[w];
    var k :| 0 <= k < |a[w]| && a[w][k] == e;
  }

  // Being drawn from the demands depends on the entries only.
  lemma SameDrawn(l: Layout, a: Roster, b: Roster)
    requires Ready(l) && Accepted(l.inst, a) && Accepted(l.inst, b) && SameEntries(l.inst, a, b) && Drawn(l, a)
    ensures Drawn(l, b)
  {
    forall w, i | 0 <= w < |b| && 0 <= i < |b[w]| ensures Wanted(l.demands, w, b[w][i]) {
      SameWanted(l, a, b, w, i);
    }
    forall j | 0 <= j < |l.demands|
      ensures l.demands[j].week < |b| && Covered(b, l.demands[j]) <= l.demands[j].optimal
    {
      DemandInRange(l, j);
      SameCoverage(l.inst, a, b, l.demands[j]);
    }
  }

  lemma SameBreakdown(inst: Instance, a: Roster, b: Roster)
    requires inst.WellFormed() && Accepted(inst, a) && Accepted(inst, b) && SameEntries(inst, a, b)
    ensures BreakdownOf(inst, a) == BreakdownOf(inst, b)
  {
    SameCharges(inst, a, b, |inst.nurses|);
    NeedsInRange(inst, |inst.weeks|);
    SameShortfalls(inst, a, b, Needs(inst));
    RequestNurses(inst, |inst.weeks|);
    SameRefusals(inst, a, b, Requests(inst));
  }

  // ----- the choice behind a roster -----

  ghost predicate Taken(l: Layout, roster: Roster, p: nat)
    requires PairsInRange(l) && p < |l.pairs|
  {
    var d, n := l.demands[l.pairs[p].demand], l.pairs[p].nurse;
    && GlobalDay(d) < 7 * |roster| && Entry(roster, n, GlobalDay(d)).Some?
    && Entry(roster, n, GlobalDay(d)).value.shiftType == d.shiftType
    && Entry(roster, n, GlobalDay(d)).value.skill == d.skill
  }

  ghost function ChoiceOf(l: Layout, roster: Roster): (x: Choice)
    requires PairsInRange(l)
    ensures |x| == |l.pairs| && forall p | 0 <= p < |x| :: x[p] <==> Taken(l, roster, p)
  {
    seq(|l.pairs|, p requires 0 <= p < |l.pairs| => Taken(l, roster, p))
  }

  lemma DemandUnique(l: Layout, i: nat, j: nat)
    requires KeysDiffer(l.demands) && i < |l.demands| && j < |l.demands| && SameKey(l.demands[i], l.demands[j])
    ensures i == j
  {
  }

  // Two pairs behind the same entry are the same pair.
  lemma TakenUnique(l: Layout, roster: Roster, i: nat, j: nat)
    requires Ready(l) && i < |l.pairs| && j < |l.pairs| && Taken(l, roster, i) && Taken(l, roster, j)
    requires l.pairs[i].nurse == l.pairs[j].nurse && PairSlots(l)[i].GlobalDay() == PairSlots(l)[j].GlobalDay()
    ensures i == j
  {
    var a, b := PairSlots(l)[i], PairSlots(l)[j];
    assert a.day < 7 && b.day < 7;
    GlobalSplit(a, b.week, b.day);
    DemandUnique(l, l.pairs[i].demand, l.pairs[j].demand);
    AllPairsMeaning(l.inst, l.demands, |l.demands|);
  }

  lemma ChoiceOnce(l: Layout, roster: Roster)
    requires Ready(l)
    ensures Once(l, ChoiceOf(l, roster))
  {
    var slots, nurses := PairSlots(l), PairNurses(l, ChoiceOf(l, roster));
    forall i, j | 0 <= i < j < |slots| && nurses[i].Some? && nurses[i] == nurses[j]
      ensures slots[i].GlobalDay() != slots[j].GlobalDay()
    {
      if slots[i].GlobalDay() == slots[j].GlobalDay() {
        TakenUnique(l, roster, i, j);
      }
    }
  }

  // The demand an entry answers.
  lemma EntryWanted(l: Layout, roster: Roster, n: nat, g: nat) returns (j: nat)
    requires |l.inst.nurses| == |l.inst.history| && Accepted(l.inst, roster) && Drawn(l, roster)
    requires n < |l.inst.nurses| && g < 7 * |roster| && Entry(roster, n, g).Some?
    ensures j < |l.demands| && l.demands[j].week == g / 7 && Serves(Entry(roster, n, g).value, l.demands[j])
    ensures Entry(roster, n, g).value.nurse == n && Entry(roster, n, g).value.day == g % 7
    ensures AssignmentOk(l.inst, Entry(roster, n, g).value)
  {
    var w, week := g / 7, roster[g / 7];
    EntryInMeaning(week, n, g % 7, |week|);
    var i :| 0 <= i < |week| && week[i] == Entry(roster, n, g).value;
    assert WeekAssigned(l.inst, week) && AssignmentOk(l.inst, week[i]);
    assert WeekWanted(l.demands, w, week) && Wanted(l.demands, w, week[i]);
    j :| 0 <= j < |l.demands| && l.demands[j].week == w && Serves(week[i], l.demands[j]);
  }

  lemma WantedPair(l: Layout, j: nat, n: nat) returns (p: nat)
    requires |l.inst.nurses| == |l.inst.history| && l.pairs == AllPairs(l.inst, l.demands, |l.demands|)
    requires MayServe(l.inst, l.demands, Pair(j, n))
    ensures p < |l.pairs| && l.pairs[p] == Pair(j, n)
  {
    AllPairsMeaning(l.inst, l.demands, |l.demands|);
    assert Pair(j, n) in l.pairs;
    p :| 0 <= p < |l.pairs| && l.pairs[p] == Pair(j, n);
  }

  // An entry of an acceptable roster is the choice of some pair.
  lemma EntryHasPair(l: Layout, roster: Roster, n: nat, g: nat) returns (p: nat)
    requires Ready(l) && Accepted(l.inst, roster) && Drawn(l, roster)
    requires n < |l.inst.nurses| && g < 7 * |roster| && Entry(roster, n, g).Some?
    ensures p < |l.pairs| && l.pairs[p].nurse == n && PairSlots(l)[p].GlobalDay() == g && ChoiceOf(l, roster)[p]
    ensures Entry(roster, n, g).value == Assignment(n, PairSlots(l)[p].day, PairSlots(l)[p].shiftType, PairSlots(l)[p].skill)
  {
    var j := EntryWanted(l, roster, n, g);
    assert SuccessionOk(l.inst, roster, n, g);
    assert IsCandidate(l.inst, DemandSlot(l.demands[j]), n);
    p := WantedPair(l, j, n);
    assert GlobalDay(l.demands[j]) == g;
    assert Taken(l, roster, p);
  }

  lemma UntakenDay(l: Layout, roster: Roster, n: nat, g: nat)
    requires Ready(l) && g < 7 * |roster| && Entry(roster, n, g).None?
    ensures SlotOf(PairSlots(l), PairNurses(l, ChoiceOf(l, roster)), n, g, |l.pairs|).None?
  {
  }

  lemma SameEntryOf(l: Layout, roster: Roster, n: nat, g: nat)
    requires Ready(l) && Accepted(l.inst, roster) && Drawn(l, roster)
    requires n < |l.inst.nurses| && g < 7 * |roster| && Once(l, ChoiceOf(l, roster))
    ensures SameEntry(roster, RosterOf(l, ChoiceOf(l, roster)), n, g)
  {
    var x := ChoiceOf(l, roster);
    if Entry(roster, n, g).Some? {
      var p := EntryHasPair(l, roster, n, g);
      ChosenEntry(l, x, p);
    } else {
      UntakenDay(l, roster, n, g);
      EntryOfSlot(PairSlots(l), PairNurses(l, x), |l.inst.weeks|, n, g);
    }
  }

  lemma ChoiceSameEntries(l: Layout, roster: Roster)
    requires Ready(l) && Accepted(l.inst, roster) && Drawn(l, roster)
    ensures Once(l, ChoiceOf(l, roster)) && SameEntries(l.inst, roster, RosterOf(l, ChoiceOf(l, roster)))
  {
    ChoiceOnce(l, roster);
    forall n: nat, g: nat | n < |l.inst.nurses| && g < 7 * |roster|
      ensures SameEntry(roster, RosterOf(l, ChoiceOf(l, roster)), n, g)
    {
      SameEntryOf(l, roster, n, g);
    }
  }

  // ----- the choice is legal -----

  // A roster's coverage of a demand lies within its bounds.
  lemma DemandBounds(inst: Instance, roster: Roster, d: Need)
    requires |inst.history| == |inst.nurses| && Accepted(inst, roster) && d.week < |roster| && FromNeed(Needs(inst), d)
    ensures d.minimum <= Covered(roster, d)
  {
    var needs := Needs(inst);
    var i :| 0 <= i < |needs| && needs[i].optimal > 0 && DemandFor(needs[i]) == d;
    assert NeedMet(roster, needs[i]);
    DemandForKey(needs[i]);
    SameCovered(roster, needs[i], d);
  }

  lemma DemandForKey(need: Need)
    ensures SameKey(need, DemandFor(need))
  {
  }

  lemma ChoiceCovers(l: Layout, roster: Roster, j: nat)
    requires Ready(l) && Accepted(l.inst, roster) && Drawn(l, roster) && j < |l.demands|
    requires SameEntries(l.inst, roster, RosterOf(l, ChoiceOf(l, roster)))
    ensures l.demands[j].week < |roster|
    ensures Covered(roster, l.demands[j]) == Chosen(ChoiceOf(l, roster), ForDemand(l, j), |l.pairs|)
  {
    DemandInRange(l, j);
    DemandCovered(l, ChoiceOf(l, roster), j);
    ChoiceAssigned(l, roster, l.demands[j].week);
    SameCoverage(l.inst, roster, RosterOf(l, ChoiceOf(l, roster)), l.demands[j]);
  }

  lemma ChoiceMeets(l: Layout, roster: Roster, j: nat)
    requires Ready(l) && Accepted(l.inst, roster) && Drawn(l, roster) && j < |l.demands|
    requires SameEntries(l.inst, roster, RosterOf(l, ChoiceOf(l, roster)))
    ensures DemandMet(l, ChoiceOf(l, roster), j)
  {
    ChoiceCovers(l, roster, j);
    CoverageMeaning(l.inst, l.demands);
    DemandBounds(l.inst, roster, l.demands[j]);
  }

  lemma ChoiceAssigned(l: Layout, roster: Roster, w: nat)
    requires Ready(l) && Accepted(l.inst, roster) && Drawn(l, roster) && w < |roster|
    ensures WeekAssigned(l.inst, roster[w]) && WeekAssigned(l.inst, RosterOf(l, ChoiceOf(l, roster))[w])
  {
    var x := ChoiceOf(l, roster);
    var slots, nurses := PairSlots(l), PairNurses(l, x);
    ChoiceOnce(l, roster);
    forall i | 0 <= i < |slots| ensures SlotOk(l.inst, slots[i], nurses[i]) {
      PairServes(l, i);
    }
    forall i, j | 0 <= i < j < |slots| ensures !SameDay(slots, nurses, i, j) {
      assert nurses[i].Some? && nurses[i] == nurses[j] ==> slots[i].GlobalDay() != slots[j].GlobalDay();
    }
    WeeklyAssigned(l.inst, slots, nurses, w, |slots|);
  }

  lemma ChoiceApart(l: Layout, roster: Roster, n: nat, g: nat, e: nat, k: nat)
    requires Ready(l) && Accepted(l.inst, roster) && SameEntries(l.inst, roster, RosterOf(l, ChoiceOf(l, roster)))
    requires n < |l.inst.nurses| && g + 1 < l.Days() && e < |l.inst.forbidden| && k < |l.inst.forbidden[e].1|
    ensures Apart(l, ChoiceOf(l, roster), n, g, l.inst.forbidden[e].0, l.inst.forbidden[e].1[k])
  {
    var made := RosterOf(l, ChoiceOf(l, roster));
    assert SameEntry(roster, made, n, g) && SameEntry(roster, made, n, g + 1);
    assert SuccessionOk(l.inst, roster, n, g + 1);
  }

  lemma ChoiceKeeps(l: Layout, roster: Roster, n: nat)
    requires Ready(l) && Accepted(l.inst, roster) && SameEntries(l.inst, roster, RosterOf(l, ChoiceOf(l, roster)))
    requires n < |l.inst.nurses|
    ensures NurseApart(l, ChoiceOf(l, roster), n)
  {
    var x := ChoiceOf(l, roster);
    forall g: nat | g < l.Gaps() ensures TableApart(l, x, n, g, |l.inst.forbidden|) {
      forall e | 0 <= e < |l.inst.forbidden|
        ensures EntryApart(l, x, n, g, l.inst.forbidden[e], |l.inst.forbidden[e].1|)
      {
        forall k | 0 <= k < |l.inst.forbidden[e].1|
          ensures Apart(l, x, n, g, l.inst.forbidden[e].0, l.inst.forbidden[e].1[k])
        {
          ChoiceApart(l, roster, n, g, e, k);
        }
      }
    }
  }

  // Every acceptable roster drawn from the demands is a legal choice of the same cost.
  lemma RosterIsLegal(l: Layout, roster: Roster)
    requires l.Ok() && Accepted(l.inst, roster) && Ready(l) && Drawn(l, roster)
    ensures Legal(l, ChoiceOf(l, roster))
    ensures BreakdownOf(l.inst, RosterOf(l, ChoiceOf(l, roster))) == BreakdownOf(l.inst, roster)
  {
    ChoiceSameEntries(l, roster);
    forall j | 0 <= j < |l.demands| ensures DemandMet(l, ChoiceOf(l, roster), j) {
      ChoiceMeets(l, roster, j);
    }
    forall n: nat | n < |l.inst.nurses| ensures NurseApart(l, ChoiceOf(l, roster), n) {
      ChoiceKeeps(l, roster, n);
    }
    LegalAccepted(l, ChoiceOf(l, roster));
    SameBreakdown(l.inst, roster, RosterOf(l, ChoiceOf(l, roster)));
  }
}
