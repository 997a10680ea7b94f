// The shared part of the rostering program as a whole: its feasible points are the legal
// choices, at the cost the validator charges for coverage and requests.
module RosterMilpCost {
  import opened Collections
  import opened Sorting
  import opened Milp
  import opened MilpParts
  import opened RosterModel
  import opened RosterParity
  import opened RosterCoverage
  import opened RosterMilp
  import opened RosterMilpShared
  import opened RosterMilpLegal
  import opened RosterMilpBuild

  // ----- shortfalls over demands instead of needs -----

  lemma ShortfallOne(roster: Roster, need: Need)
    ensures Shortfalls(roster, [need]) == Shortfall(roster, need)
  {
    assert [need][..0] == [];
  }

  // Reordering does not change the sum.
  lemma {:induction false} ShortfallsPermute(roster: Roster, a: seq<Need>, b: seq<Need>)
    requires Permutation(a, b)
    ensures Shortfalls(roster, a) == Shortfalls(roster, b)
  {
    if a == [] {
      assert |multiset(b)| == 0;
    } else {
      var j := PermutationMember(a, b, 0);
      var rest := b[..j] + b[j + 1..];
      RestPermutes(a, b, j);
      ShortfallsPermute(roster, a[1..], rest);
      assert a == [a[0]] + a[1..] && b == b[..j] + ([b[j]] + b[j + 1..]);
      ShortfallsConcat(roster, [a[0]], a[1..]);
      ShortfallsConcat(roster, b[..j], [b[j]] + b[j + 1..]);
      ShortfallsConcat(roster, [b[j]], b[j + 1..]);
      ShortfallsConcat(roster, b[..j], b[j + 1..]);
    }
  }

  lemma RestPermutes(a: seq<Need>, b: seq<Need>, j: nat)
    requires Permutation(a, b) && a != [] && j < |b| && b[j] == a[0]
    ensures Permutation(a[1..], b[..j] + b[j + 1..])
  {
    var x, front, back := a[0], b[..j], b[j + 1..];
    assert a == [x] + a[1..] && b == front + ([x] + back);
    assert multiset(a) == multiset{x} + multiset(a[1..]);
    assert multiset(b) == multiset(front) + (multiset{x} + multiset(back));
    assert multiset(front + back) == multiset(front) + multiset(back);
    assert multiset{x} + multiset(a[1..]) == multiset{x} + multiset(front + back);
    Cancel(multiset{x}, multiset(a[1..]), multiset(front + back));
  }

  lemma Cancel(x: multiset<Need>, a: multiset<Need>, b: multiset<Need>)
    requires x + a == x + b
    ensures a == b
  {
    forall e ensures a[e] == b[e] {
      assert (x + a)[e] == (x + b)[e];
    }
  }

  lemma SameMembersPermute<T>(a: seq<T>, b: seq<T>)
    requires NoRepeats(a) && NoRepeats(b) && forall x :: x in a <==> x in b
    ensures Permutation(a, b)
  {
    forall x ensures multiset(a)[x] == multiset(b)[x] {
      NoRepeatsCount(a, x);
      NoRepeatsCount(b, x);
      assert x in multiset(a) <==> x in a;
      assert x in multiset(b) <==> x in b;
    }
  }

  // The needs that ask for somebody, as demands.
  ghost function Positive(needs: seq<Need>): seq<Need> {
    if needs == [] then []
    else if needs[|needs| - 1].optimal > 0 then Positive(needs[..|needs| - 1]) + [DemandFor(needs[|needs| - 1])]
    else Positive(needs[..|needs| - 1])
  }

  lemma {:induction false} PositiveMeaning(needs: seq<Need>)
    requires KeysDiffer(needs)
    ensures KeysDiffer(Positive(needs))
    ensures forall d :: d in Positive(needs) <==> FromNeed(needs, d)
  {
    if needs != [] {
      var init, last := needs[..|needs| - 1], needs[|needs| - 1];
      PositiveMeaning(init);
      forall d ensures FromNeed(needs, d) <==> FromNeed(init, d) || (last.optimal > 0 && d == DemandFor(last)) {
        FromNeedSnoc(init, last, d);
        assert init + [last] == needs;
      }
      if last.optimal > 0 {
        forall i | 0 <= i < |Positive(init)| ensures !SameKey(Positive(init)[i], DemandFor(last)) {
          assert FromNeed(init, Positive(init)[i]);
        }
      }
    }
  }

  lemma FromNeedSnoc(needs: seq<Need>, last: Need, d: Need)
    ensures FromNeed(needs + [last], d) <==> FromNeed(needs, d) || (last.optimal > 0 && d == DemandFor(last))
  {
    if FromNeed(needs, d) {
      var j :| 0 <= j < |needs| && needs[j].optimal > 0 && DemandFor(needs[j]) == d;
      assert (needs + [last])[j] == needs[j];
    }
    if last.optimal > 0 && d == DemandFor(last) {
      assert (needs + [last])[|needs|] == last;
    }
  }

  lemma {:induction false} PositiveShortfalls(roster: Roster, needs: seq<Need>)
    ensures Shortfalls(roster, needs) == Shortfalls(roster, Positive(needs))
  {
    if needs != [] {
      var init, last := needs[..|needs| - 1], needs[|needs| - 1];
      PositiveShortfalls(roster, init);
      if last.optimal > 0 {
        ShortfallsConcat(roster, Positive(init), [DemandFor(last)]);
        ShortfallOne(roster, DemandFor(last));
        if last.week < |roster| { SameCovered(roster, last, DemandFor(last)); }
      }
    }
  }

  // The validator's coverage charge, demand by demand.
  lemma ShortfallsOfDemands(inst: Instance, roster: Roster, ds: seq<Need>)
    requires inst.WellFormed() && CoverageIs(Needs(inst), ds)
    ensures Shortfalls(roster, Needs(inst)) == Shortfalls(roster, ds)
  {
    var needs := Needs(inst);
    NeedsDiffer(inst, |inst.weeks|);
    PositiveMeaning(needs);
    PositiveShortfalls(roster, needs);
    forall d ensures d in ds <==> d in Positive(needs) {
      if FromNeed(needs, d) {
        var j :| 0 <= j < |needs| && needs[j].optimal > 0 && DemandFor(needs[j]) == d;
      }
    }
    KeysNoRepeats(ds);
    KeysNoRepeats(Positive(needs));
    SameMembersPermute(ds, Positive(needs));
    ShortfallsPermute(roster, ds, Positive(needs));
  }

  lemma KeysNoRepeats(ds: seq<Need>)
    requires KeysDiffer(ds)
    ensures NoRepeats(ds)
  {
    forall i, j | 0 <= i < j < |ds| ensures ds[i] != ds[j] {
      assert !SameKey(ds[i], ds[j]);
    }
  }

  // ----- the shared cost of a choice -----

  ghost function Uncovered(l: Layout, x: Choice, j: nat): int
    requires |x| == |l.pairs| && j <= |l.demands|
  {
    if j == 0 then 0
    else Uncovered(l, x, j - 1) + (l.demands[j - 1].optimal - Chosen(x, ForDemand(l, j - 1), |x|))
  }

  ghost function SharedCost(l: Layout, x: Choice): int
    requires PairsInRange(l) && |x| == |l.pairs|
  {
    RefusedSum(PairSlots(l), PairNurses(l, x), Requests(l.inst), |x|) + 30 * Uncovered(l, x, |l.demands|)
  }

  ghost predicate ShortBy(l: Layout, x: Choice, roster: Roster, j: nat)
    requires |x| == |l.pairs| && j < |l.demands|
  {
    Shortfall(roster, l.demands[j]) == 30 * (l.demands[j].optimal - Chosen(x, ForDemand(l, j), |x|))
  }

  lemma DemandShortfall(l: Layout, x: Choice, j: nat)
    requires Legal(l, x) && j < |l.demands|
    ensures ShortBy(l, x, RosterOf(l, x), j)
  {
    DemandCovered(l, x, j);
    assert DemandMet(l, x, j);
  }

  lemma {:induction false} UncoveredSum(l: Layout, x: Choice, roster: Roster, j: nat)
    requires |x| == |l.pairs| && j <= |l.demands| && forall i: nat | i < j :: ShortBy(l, x, roster, i)
    ensures Shortfalls(roster, l.demands[..j]) == 30 * Uncovered(l, x, j)
  {
    if j > 0 {
      UncoveredSum(l, x, roster, j - 1);
      assert l.demands[..j][..j - 1] == l.demands[..j - 1];
      assert ShortBy(l, x, roster, j - 1);
    }
  }

  lemma UncoveredIsShortfall(l: Layout, x: Choice)
    requires Legal(l, x)
    ensures Shortfalls(RosterOf(l, x), l.demands) == 30 * Uncovered(l, x, |l.demands|)
  {
    forall j: nat | j < |l.demands| ensures ShortBy(l, x, RosterOf(l, x), j) {
      DemandShortfall(l, x, j);
    }
    UncoveredSum(l, x, RosterOf(l, x), |l.demands|);
    assert l.demands[..|l.demands|] == l.demands;
  }

  lemma SharedCostExact(l: Layout, x: Choice)
    requires Legal(l, x)
    ensures SharedCost(l, x) == BreakdownOf(l.inst, RosterOf(l, x)).optimalCoverage + BreakdownOf(l.inst, RosterOf(l, x)).shiftOff
  {
    CoverageMeaning(l.inst, l.demands);
    ShortfallsOfDemands(l.inst, RosterOf(l, x), l.demands);
    UncoveredIsShortfall(l, x);
    RequestsInRange(l.inst, |l.inst.weeks|);
    RefusalsParity(PairSlots(l), PairNurses(l, x), |l.inst.weeks|, Requests(l.inst));
  }

  // ----- the columns' cost -----

  lemma {:induction false} AssignCost(l: Layout, x: Choice, v: seq<real>, k: nat)
    requires PairsInRange(l) && k <= |x| == |l.pairs| && Carries(v, x)
    ensures ObjectiveFrom(AssignPart(l).cols, v, 0, k) ==
      RefusedSum(PairSlots(l), PairNurses(l, x), Requests(l.inst), k) as real
  {
    if k > 0 {
      AssignCost(l, x, v, k - 1);
      assert AssignPart(l).cols[k - 1] == AssignCol(l, k - 1) && v[k - 1] == Bit(x[k - 1]);
      CostTimesBit(RequestCost(l, k - 1), x[k - 1]);
    }
  }

  lemma CostTimesBit(cost: real, b: bool)
    ensures cost * Bit(b) == if b then cost else 0.0
  {
  }

  lemma {:induction false} CoverCost(l: Layout, x: Choice, v: seq<real>, j: nat)
    requires |x| == |l.pairs| && j <= |l.demands| && |l.pairs| + |l.demands| <= |v|
    requires forall i | 0 <= i < j :: UncoveredRight(l, x, v, i)
    ensures ObjectiveFrom(CoverPart(l).cols, v, |l.pairs|, j) == (30 * Uncovered(l, x, j)) as real
  {
    if j > 0 {
      CoverCost(l, x, v, j - 1);
      assert CoverPart(l).cols[j - 1] == CoverCol(l, j - 1) && UncoveredRight(l, x, v, j - 1);
    }
  }

  lemma SharedColumnsCost(l: Layout, x: Choice, v: seq<real>)
    requires PairsInRange(l) && |x| == |l.pairs| && Carries(v, x) && l.CellsEnd() <= |v|
    requires forall i | 0 <= i < |l.demands| :: |l.pairs| + i < |v| && UncoveredRight(l, x, v, i)
    ensures |SharedPart(l).cols| == l.CellsEnd() && PartCost(SharedPart(l), 0, v) == SharedCost(l, x) as real
  {
    PieceSizes(l);
    ThenFour(AssignPart(l), CoverPart(l), CellsPart(l), SuccessionPart(l), 0, v);
    AssignCost(l, x, v, |x|);
    CoverCost(l, x, v, |l.demands|);
    CellsCost(l, v);
  }

  lemma PieceSizes(l: Layout)
    requires PairsInRange(l)
    ensures |AssignPart(l).cols| == |l.pairs| && |CoverPart(l).cols| == |l.demands|
    ensures l.CellBase() + |CellsPart(l).cols| == l.CellsEnd() && SuccessionPart(l).cols == []
    ensures |SharedPart(l).cols| == l.CellsEnd()
  {
  }

  lemma CellsCost(l: Layout, v: seq<real>)
    requires l.CellsEnd() <= |v|
    ensures l.CellBase() + |CellsPart(l).cols| == l.CellsEnd()
    ensures PartCost(CellsPart(l), l.CellBase(), v) == 0.0
  {
    FreeColumns(CellsPart(l).cols, v, l.CellBase(), |CellsPart(l).cols|);
  }

  // ----- points of the shared part -----

  ghost function ChoiceIn(l: Layout, v: seq<real>): (x: Choice)
    requires |l.pairs| <= |v|
    ensures |x| == |l.pairs| && forall p | 0 <= p < |x| :: x[p] <==> v[p] == 1.0
  {
    seq(|l.pairs|, p requires 0 <= p < |l.pairs| => v[p] == 1.0)
  }

  // The four pieces of the shared part.
  ghost predicate SharedPieces(l: Layout, v: seq<real>)
    requires PairsInRange(l)
  {
    && PartOk(AssignPart(l), 0, v) && PartOk(CoverPart(l), |l.pairs|, v)
    && PartOk(CellsPart(l), l.CellBase(), v) && RowsHold(AllSuccessions(l, |l.inst.nurses|), v)
  }

  lemma SharedSplit(l: Layout, v: seq<real>)
    requires PairsInRange(l) && l.CellsEnd() <= |v|
    ensures PartOk(SharedPart(l), 0, v) <==> SharedPieces(l, v)
  {
    var start := Then(AssignPart(l), CoverPart(l));
    ThenOk(AssignPart(l), CoverPart(l), 0, v);
    ThenOk(start, CellsPart(l), 0, v);
    ThenOk(Then(start, CellsPart(l)), SuccessionPart(l), 0, v);
  }

  lemma ChoiceCarried(l: Layout, v: seq<real>)
    requires PairsInRange(l) && PartOk(AssignPart(l), 0, v)
    ensures Carries(v, ChoiceIn(l, v))
  {
    forall p | 0 <= p < |l.pairs| ensures v[p] == Bit(ChoiceIn(l, v)[p]) {
      assert ColOk(AssignPart(l).cols[p], v[0 + p]);
      BinaryValue(v[p]);
    }
  }

  // Bounded by one, the day sums leave a nurse at most one shift a day.
  lemma CellsGiveOnce(l: Layout, x: Choice, v: seq<real>)
    requires Ready(l) && |x| == |l.pairs| && Carries(v, x) && PartOk(CellsPart(l), l.CellBase(), v) && l.CellsEnd() <= |v|
    ensures Once(l, x) && CellsRight(l, x, v, |l.inst.nurses|)
  {
    CellsMeaning(l, x, v, |l.inst.nurses|);
    forall n: nat, g: nat | n < |l.inst.nurses| && g < l.Days() ensures Chosen(x, OnDay(l, n, g), |x|) <= 1 {
      CellInside(l, n, g);
      assert NurseCellsRight(l, x, v, n, l.Days()) && CellRight(l, x, v, n, g);
      var i := l.CellCol(n, g) - l.CellBase();
      assert ColOk(CellsPart(l).cols[i], v[l.CellBase() + i]);
    }
    OnceExact(l, x);
  }

  // A feasible point of the shared part is a legal choice at its shared cost.
  lemma SharedSound(l: Layout, v: seq<real>)
    requires Ready(l) && l.CellsEnd() <= |v| && PartOk(SharedPart(l), 0, v)
    ensures |l.pairs| <= |v| && |SharedPart(l).cols| == l.CellsEnd()
    ensures Legal(l, ChoiceIn(l, v)) && Env(l, ChoiceIn(l, v), v)
    ensures PartCost(SharedPart(l), 0, v) == SharedCost(l, ChoiceIn(l, v)) as real
  {
    var x := ChoiceIn(l, v);
    SharedSplit(l, v);
    ChoiceCarried(l, v);
    CellsGiveOnce(l, x, v);
    CellsAreEntries(l, x, v);
    CoverMeaning(l, x, v, |l.demands|);
    SuccessionsMeaning(l, x, v);
    SharedColumnsCost(l, x, v);
  }

  // ----- a point for every legal choice -----

  ghost predicate DayFilled(l: Layout, x: Choice, v: seq<real>, n: nat, g: nat)
    requires |x| == |l.pairs|
  {
    CellInRange(l, v, n, g) && CellRight(l, x, v, n, g)
  }

  lemma DayKept(l: Layout, x: Choice, u: seq<real>, v: seq<real>, n: nat, g: nat)
    requires |x| == |l.pairs| && DayFilled(l, x, u, n, g) && u <= v
    ensures DayFilled(l, x, v, n, g)
  {
    forall t: nat | t < l.Types() ensures TypeRight(l, x, v, n, g, t) {
      assert TypeRight(l, x, u, n, g, t);
    }
  }

  ghost function TypeValues(l: Layout, x: Choice, n: nat, g: nat): (w: seq<real>)
    requires |x| == |l.pairs|
    ensures |w| == l.Types() && forall t | 0 <= t < |w| :: w[t] == Chosen(x, InType(l, n, g, t), |x|) as real
  {
    seq(l.Types(), t requires 0 <= t < l.Types() => Chosen(x, InType(l, n, g, t), |x|) as real)
  }

  lemma FillDay(l: Layout, x: Choice, u: seq<real>, n: nat, g: nat) returns (v: seq<real>)
    requires Ready(l) && |x| == |l.pairs| && Once(l, x) && g < l.Days()
    requires |u| == l.CellCol(n, g)
    ensures u <= v && |v| == l.CellCol(n, g + 1) && DayFilled(l, x, v, n, g) && (forall i | |u| <= i < |v| :: 0.0 <= v[i] <= 1.0)
  {
    v := u + [Chosen(x, OnDay(l, n, g), |x|) as real] + TypeValues(l, x, n, g);
    SumsAreEntries(l, x, n, g);
    CellStep(l, n, g);
    forall t: nat | t < l.Types() ensures TypeRight(l, x, v, n, g, t) {
      assert v[l.TypeCol(n, g, t)] == TypeValues(l, x, n, g)[t];
    }
    forall i | |u| <= i < |v| ensures 0.0 <= v[i] <= 1.0 {
      if i > |u| { assert v[i] == TypeValues(l, x, n, g)[i - |u| - 1]; }
    }
  }

  ghost predicate NurseFilled(l: Layout, x: Choice, v: seq<real>, n: nat, g: nat)
    requires |x| == |l.pairs|
  {
    forall i: nat | i < g :: DayFilled(l, x, v, n, i)
  }

  lemma {:induction false} FillNurse(l: Layout, x: Choice, u: seq<real>, n: nat, g: nat) returns (v: seq<real>)
    requires Ready(l) && |x| == |l.pairs| && Once(l, x) && g <= l.Days()
    requires |u| == l.CellCol(n, 0)
    ensures u <= v && |v| == l.CellCol(n, g) && NurseFilled(l, x, v, n, g) && (forall i | |u| <= i < |v| :: 0.0 <= v[i] <= 1.0)
  {
    if g == 0 {
      v := u;
    } else {
      var w := FillNurse(l, x, u, n, g - 1);
      v := FillDay(l, x, w, n, g - 1);
      forall i: nat | i < g ensures DayFilled(l, x, v, n, i) {
        if i < g - 1 { DayKept(l, x, w, v, n, i); }
      }
    }
  }

  ghost predicate NursesFilled(l: Layout, x: Choice, v: seq<real>, n: nat)
    requires |x| == |l.pairs|
  {
    forall i: nat | i < n :: NurseFilled(l, x, v, i, l.Days())
  }

  lemma {:induction false} FillCells(l: Layout, x: Choice, u: seq<real>, n: nat) returns (v: seq<real>)
    requires Ready(l) && |x| == |l.pairs| && Once(l, x) && |u| == l.CellBase()
    ensures u <= v && |v| == l.CellCol(n, 0) && NursesFilled(l, x, v, n) && (forall i | |u| <= i < |v| :: 0.0 <= v[i] <= 1.0)
  {
    if n == 0 {
      v := u;
    } else {
      var w := FillCells(l, x, u, n - 1);
      NurseStep(l, n - 1);
      v := FillNurse(l, x, w, n - 1, l.Days());
      forall i: nat | i < n ensures NurseFilled(l, x, v, i, l.Days()) {
        if i < n - 1 {
          forall g: nat | g < l.Days() ensures DayFilled(l, x, v, i, g) {
            assert NurseFilled(l, x, w, i, l.Days());
            DayKept(l, x, w, v, i, g);
          }
        }
      }
    }
  }

  ghost function StartValues(l: Layout, x: Choice): (u: seq<real>)
    requires |x| == |l.pairs|
    ensures |u| == l.CellBase() && Carries(u, x)
    ensures forall j | 0 <= j < |l.demands| ::
      u[|l.pairs| + j] == (l.demands[j].optimal - Chosen(x, ForDemand(l, j), |x|)) as real
  {
    seq(|x|, p requires 0 <= p < |x| => Bit(x[p])) +
    seq(|l.demands|, j requires 0 <= j < |l.demands| => (l.demands[j].optimal - Chosen(x, ForDemand(l, j), |x|)) as real)
  }

  lemma StartCarried(l: Layout, x: Choice, v: seq<real>)
    requires |x| == |l.pairs| && StartValues(l, x) <= v
    ensures Carries(v, x)
    ensures forall j | 0 <= j < |l.demands| :: |l.pairs| + j < |v| && UncoveredRight(l, x, v, j)
  {
    forall p | 0 <= p < |x| ensures v[p] == Bit(x[p]) {
      assert StartValues(l, x)[p] == Bit(x[p]);
    }
    forall j | 0 <= j < |l.demands| ensures |l.pairs| + j < |v| && UncoveredRight(l, x, v, j) {
      assert StartValues(l, x)[|l.pairs| + j] == v[|l.pairs| + j];
    }
  }

  lemma AssignOk(l: Layout, x: Choice, v: seq<real>)
    requires PairsInRange(l) && |x| == |l.pairs| && Carries(v, x)
    ensures PartOk(AssignPart(l), 0, v)
  {
    forall p | 0 <= p < |x| ensures ColOk(AssignPart(l).cols[p], v[0 + p]) {
      assert v[p] == Bit(x[p]);
    }
  }

  lemma ShortageColumn(l: Layout, x: Choice, v: seq<real>, j: nat)
    requires |x| == |l.pairs| && j < |l.demands| && |l.pairs| + j < |v|
    requires DemandMet(l, x, j) && UncoveredRight(l, x, v, j)
    ensures ColOk(CoverPart(l).cols[j], v[|l.pairs| + j])
  {
  }

  lemma StartOk(l: Layout, x: Choice, v: seq<real>)
    requires Legal(l, x) && StartValues(l, x) <= v
    ensures Carries(v, x) && PartOk(AssignPart(l), 0, v) && PartOk(CoverPart(l), |l.pairs|, v)
    ensures forall j | 0 <= j < |l.demands| :: |l.pairs| + j < |v| && UncoveredRight(l, x, v, j)
  {
    StartCarried(l, x, v);
    AssignOk(l, x, v);
    forall j | 0 <= j < |l.demands|
      ensures DemandMet(l, x, j) && UncoveredRight(l, x, v, j) && ColOk(CoverPart(l).cols[j], v[|l.pairs| + j])
    {
      assert DemandMet(l, x, j);
      ShortageColumn(l, x, v, j);
    }
    CoverMeaning(l, x, v, |l.demands|);
  }

  lemma FilledCells(l: Layout, x: Choice, v: seq<real>)
    requires Legal(l, x) && Carries(v, x) && l.CellsEnd() <= |v| && NursesFilled(l, x, v, |l.inst.nurses|)
    ensures Env(l, x, v) && RowsHold(AllCellRows(l, |l.inst.nurses|), v)
  {
    forall n: nat | n < |l.inst.nurses| ensures NurseCellsRight(l, x, v, n, l.Days()) {
      assert NurseFilled(l, x, v, n, l.Days());
      forall g: nat | g < l.Days() ensures CellInRange(l, v, n, g) && CellRight(l, x, v, n, g) {
        assert DayFilled(l, x, v, n, g);
      }
    }
    CellsMeaning(l, x, v, |l.inst.nurses|);
    CellsAreEntries(l, x, v);
  }

  // Every legal choice has a point of the shared part that carries it.
  lemma SharedAttained(l: Layout, x: Choice) returns (v: seq<real>)
    requires Legal(l, x)
    ensures |v| == l.CellsEnd() && |SharedPart(l).cols| == l.CellsEnd()
    ensures PartOk(SharedPart(l), 0, v) && Env(l, x, v) && ChoiceIn(l, v) == x
    ensures PartCost(SharedPart(l), 0, v) == SharedCost(l, x) as real
  {
    v := FillCells(l, x, StartValues(l, x), |l.inst.nurses|);
    StartOk(l, x, v);
    FilledCells(l, x, v);
    SuccessionsMeaning(l, x, v);
    forall i | 0 <= i < |CellsPart(l).cols| ensures ColOk(CellsPart(l).cols[i], v[l.CellBase() + i]) {
    }
    SharedSplit(l, v);
    SharedColumnsCost(l, x, v);
    forall p | 0 <= p < |x| ensures ChoiceIn(l, v)[p] == x[p] {
      assert v[p] == Bit(x[p]);
    }
    assert ChoiceIn(l, v) == x;
  }
}
