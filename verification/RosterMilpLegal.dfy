// Legal choices of pairs are the acceptable rosters drawn from the demands, at the same cost
// for coverage and requests.
module RosterMilpLegal {
  import opened Wrappers
  import opened MilpParts
  import opened RosterModel
  import opened RosterSlots
  import opened RosterParity
  import opened RosterCoverage
  import opened RosterMilp
  import opened RosterMilpShared

  ghost predicate Legal(l: Layout, x: Choice) {
    && Ready(l) && |x| == |l.pairs| && Once(l, x)
    && (forall j | 0 <= j < |l.demands| :: DemandMet(l, x, j))
    && SuccessionsKept(l, x, |l.inst.nurses|)
  }

  // ----- a legal choice makes an acceptable roster -----

  lemma PairServes(l: Layout, p: nat)
    requires Ready(l) && p < |l.pairs|
    ensures MayServe(l.inst, l.demands, l.pairs[p])
  {
    AllPairsMeaning(l.inst, l.demands, |l.demands|);
    assert l.pairs[p] in l.pairs;
  }

  // The roster's entry is the chosen pair of the day.
  lemma ChosenEntry(l: Layout, x: Choice, p: nat)
    requires Ready(l) && |x| == |l.pairs| && Once(l, x) && p < |x| && x[p]
    ensures var (n, g) := (l.pairs[p].nurse, PairSlots(l)[p].GlobalDay());
      && g < l.Days()
      && Entry(RosterOf(l, x), n, g) == Some(AssignmentAt(PairSlots(l), PairNurses(l, x), p))
  {
    var slots, nurses := PairSlots(l), PairNurses(l, x);
    var n, g := l.pairs[p].nurse, slots[p].GlobalDay();
    assert slots[p].week < |l.inst.weeks| && slots[p].day < 7;
    EntryOfSlot(slots, nurses, |l.inst.weeks|, n, g);
    SlotOfMeaning(slots, nurses, n, g, |slots|);
  }

  ghost predicate Consecutive(l: Layout, x: Choice, i: nat, j: nat)
    requires PairsInRange(l) && i < |x| == |l.pairs| && j < |x|
  {
    && x[i] && x[j] && l.pairs[i].nurse == l.pairs[j].nurse
    && PairSlots(l)[i].GlobalDay() + 1 == PairSlots(l)[j].GlobalDay()
  }

  lemma PairApart(l: Layout, x: Choice, i: nat, j: nat, e: nat, k: nat)
    requires Legal(l, x) && i < |x| && j < |x| && Consecutive(l, x, i, j)
    requires e < |l.inst.forbidden| && k < |l.inst.forbidden[e].1|
    ensures !(PairSlots(l)[i].shiftType == l.inst.forbidden[e].0 && PairSlots(l)[j].shiftType == l.inst.forbidden[e].1[k])
  {
    var n, g := l.pairs[i].nurse, PairSlots(l)[i].GlobalDay();
    ChosenEntry(l, x, i);
    ChosenEntry(l, x, j);
    PairServes(l, i);
    assert NurseApart(l, x, n) && TableApart(l, x, n, g, |l.inst.forbidden|);
    assert EntryApart(l, x, n, g, l.inst.forbidden[e], |l.inst.forbidden[e].1|);
    assert Apart(l, x, n, g, l.inst.forbidden[e].0, l.inst.forbidden[e].1[k]);
  }

  lemma NothingFollows(l: Layout, x: Choice, i: nat, j: nat)
    requires Legal(l, x) && i < |x| && j < |x|
    ensures !Follows(l.inst, PairSlots(l), PairNurses(l, x), i, j)
  {
    if Consecutive(l, x, i, j) {
      forall e, k | 0 <= e < |l.inst.forbidden| && 0 <= k < |l.inst.forbidden[e].1|
        ensures !(PairSlots(l)[i].shiftType == l.inst.forbidden[e].0 && PairSlots(l)[j].shiftType == l.inst.forbidden[e].1[k])
      {
        PairApart(l, x, i, j, e, k);
      }
    }
  }

  lemma LegalIsHard(l: Layout, x: Choice)
    requires Legal(l, x)
    ensures HardOk(l.inst, PairSlots(l), PairNurses(l, x))
  {
    var slots, nurses := PairSlots(l), PairNurses(l, x);
    forall p | 0 <= p < |slots| ensures SlotOk(l.inst, slots[p], nurses[p]) {
      PairServes(l, p);
    }
    forall i, j | 0 <= i < |slots| && 0 <= j < |slots| ensures !Follows(l.inst, slots, nurses, i, j) {
      NothingFollows(l, x, i, j);
    }
  }

  lemma DemandCovered(l: Layout, x: Choice, j: nat)
    requires Ready(l) && |x| == |l.pairs| && j < |l.demands|
    ensures l.demands[j].week < |l.inst.weeks|
    ensures Covered(RosterOf(l, x), l.demands[j]) == Chosen(x, ForDemand(l, j), |x|)
  {
    DemandInRange(l, j);
    CoverageIsFilled(PairSlots(l), PairNurses(l, x), l.demands[j], |x|);
    ChosenForDemand(l, x, j, |x|);
  }

  lemma NeedMetBy(l: Layout, x: Choice, i: nat)
    requires Legal(l, x) && i < |Needs(l.inst)|
    ensures NeedMet(RosterOf(l, x), Needs(l.inst)[i])
  {
    var need := Needs(l.inst)[i];
    NeedsInRange(l.inst, |l.inst.weeks|);
    assert NeedInRange(l.inst, need);
    NeedOptimal(l.inst, |l.inst.weeks|, i);
    if need.optimal > 0 {
      CoverageMeaning(l.inst, l.demands);
      var j :| 0 <= j < |l.demands| && l.demands[j] == DemandFor(need);
      DemandCovered(l, x, j);
      assert DemandMet(l, x, j);
      SameCovered(RosterOf(l, x), need, l.demands[j]);
    }
  }

  lemma {:induction false} CoverageKey(week: seq<Assignment>, a: Need, b: Need, k: nat)
    requires k <= |week| && SameKey(a, b)
    ensures Coverage(week, a, k) == Coverage(week, b, k)
  {
    if k > 0 { CoverageKey(week, a, b, k - 1); }
  }

  lemma SameCovered(roster: Roster, a: Need, b: Need)
    requires SameKey(a, b) && a.week < |roster|
    ensures Covered(roster, a) == Covered(roster, b)
  {
    CoverageKey(roster[a.week], a, b, |roster[a.week]|);
  }

  lemma LegalAccepted(l: Layout, x: Choice)
    requires Legal(l, x)
    ensures Accepted(l.inst, RosterOf(l, x))
  {
    var slots, nurses, weeks := PairSlots(l), PairNurses(l, x), |l.inst.weeks|;
    var roster := RosterOf(l, x);
    LegalIsHard(l, x);
    forall w | 0 <= w < weeks ensures WeekAssigned(l.inst, roster[w]) {
      WeeklyAssigned(l.inst, slots, nurses, w, |slots|);
    }
    forall i | 0 <= i < |Needs(l.inst)| ensures NeedMet(roster, Needs(l.inst)[i]) {
      NeedMetBy(l, x, i);
    }
    forall n, g | 0 <= n < |l.inst.nurses| && 0 <= g < 7 * |roster| ensures SuccessionOk(l.inst, roster, n, g) {
      SuccessionCarries(l.inst, slots, nurses, weeks, n, g);
    }
  }

  // ----- rosters drawn from the demands -----

  ghost predicate Wanted(ds: seq<Need>, w: nat, a: Assignment) {
    exists j :: 0 <= j < |ds| && ds[j].week == w && Serves(a, ds[j])
  }

  ghost predicate WeekWanted(ds: seq<Need>, w: nat, week: seq<Assignment>) {
    forall i | 0 <= i < |week| :: Wanted(ds, w, week[i])
  }

  // Every assignment answers a demand, and no demand gets more nurses than it wants.
  ghost predicate Drawn(l: Layout, roster: Roster) {
    && |roster| == |l.inst.weeks|
    && (forall w | 0 <= w < |roster| :: WeekWanted(l.demands, w, roster[w]))
    && (forall j | 0 <= j < |l.demands| :: l.demands[j].week < |roster| && Covered(roster, l.demands[j]) <= l.demands[j].optimal)
  }

  lemma LegalDrawn(l: Layout, x: Choice)
    requires Legal(l, x)
    ensures Drawn(l, RosterOf(l, x))
  {
    var slots, nurses, roster := PairSlots(l), PairNurses(l, x), RosterOf(l, x);
    forall w, i | 0 <= w < |roster| && 0 <= i < |roster[w]| ensures Wanted(l.demands, w, roster[w][i]) {
      var p := WeeklyOrigin(slots, nurses, w, |slots|, i);
      var j := l.pairs[p].demand;
      assert l.demands[j].week == w && Serves(roster[w][i], l.demands[j]);
    }
    forall j | 0 <= j < |l.demands|
      ensures l.demands[j].week < |roster| && Covered(roster, l.demands[j]) <= l.demands[j].optimal
    {
      DemandInRange(l, j);
      DemandCovered(l, x, j);
      assert DemandMet(l, x, j);
    }
  }
}
