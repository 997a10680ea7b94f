// What the shared rows of the rostering program mean: a choice of pairs that covers every
// demand within its bounds, gives nobody two shifts a day and keeps the succession table.
module RosterMilpShared {
  import opened Wrappers
  import opened Milp
  import opened MilpParts
  import opened RosterModel
  import opened RosterSlots
  import opened RosterParity
  import opened RosterCoverage
  import opened RosterMilp

  // ----- choices as slot assignments -----

  type Choice = seq<bool>

  ghost function PairSlots(l: Layout): (slots: seq<Slot>)
    requires PairsInRange(l)
    ensures |slots| == |l.pairs|
    ensures forall p | 0 <= p < |slots| :: slots[p] == DemandSlot(l.demands[l.pairs[p].demand])
  {
    seq(|l.pairs|, p requires 0 <= p < |l.pairs| => DemandSlot(l.demands[l.pairs[p].demand]))
  }

  ghost function PairNurses(l: Layout, x: Choice): (nurses: Assigned)
    requires |x| == |l.pairs|
    ensures |nurses| == |x| && forall p | 0 <= p < |x| :: nurses[p] == if x[p] then Some(l.pairs[p].nurse) else None
  {
    seq(|x|, p requires 0 <= p < |x| => if x[p] then Some(l.pairs[p].nurse) else None)
  }

  // The roster the adapter reads off the chosen pairs.
  ghost function RosterOf(l: Layout, x: Choice): (roster: Roster)
    requires PairsInRange(l) && |x| == |l.pairs|
    ensures |roster| == |l.inst.weeks|
  {
    Extracted(PairSlots(l), PairNurses(l, x), |l.inst.weeks|)
  }

  ghost predicate Once(l: Layout, x: Choice)
    requires PairsInRange(l) && |x| == |l.pairs|
  {
    OncePerDay(PairSlots(l), PairNurses(l, x))
  }

  lemma {:induction false} ChosenOnDay(l: Layout, x: Choice, n: nat, g: nat, k: nat)
    requires PairsInRange(l) && k <= |x| == |l.pairs|
    ensures Chosen(x, OnDay(l, n, g), k) == RefusedBy(PairSlots(l), PairNurses(l, x), DayRequest(n, g, None), k)
  {
    if k > 0 { ChosenOnDay(l, x, n, g, k - 1); }
  }

  lemma {:induction false} ChosenInType(l: Layout, x: Choice, n: nat, g: nat, t: nat, k: nat)
    requires PairsInRange(l) && k <= |x| == |l.pairs|
    ensures Chosen(x, InType(l, n, g, t), k) == RefusedBy(PairSlots(l), PairNurses(l, x), DayRequest(n, g, Some(t)), k)
  {
    if k > 0 { ChosenInType(l, x, n, g, t, k - 1); }
  }

  lemma {:induction false} ChosenMine(l: Layout, x: Choice, n: nat, k: nat)
    requires PairsInRange(l) && k <= |x| == |l.pairs|
    ensures Chosen(x, Mine(l, n), k) == ItemCount(PairNurses(l, x), n, k)
  {
    if k > 0 { ChosenMine(l, x, n, k - 1); }
  }

  lemma {:induction false} ChosenForDemand(l: Layout, x: Choice, j: nat, k: nat)
    requires PairsInRange(l) && KeysDiffer(l.demands) && j < |l.demands| && k <= |x| == |l.pairs|
    ensures Chosen(x, ForDemand(l, j), k) == Filled(PairSlots(l), PairNurses(l, x), l.demands[j], k)
  {
    if k > 0 {
      ChosenForDemand(l, x, j, k - 1);
      var i := l.pairs[k - 1].demand;
      if i < j { assert !SameKey(l.demands[i], l.demands[j]); }
      if j < i { assert !SameKey(l.demands[j], l.demands[i]); }
    }
  }

  // ----- demands and pairs of a well-formed layout -----

  ghost predicate Ready(l: Layout) {
    l.Ok() && PairsInRange(l) && KeysDiffer(l.demands) && InRange(PairSlots(l), |l.inst.weeks|)
  }

  lemma LayoutReady(l: Layout)
    requires l.Ok()
    ensures Ready(l)
  {
    PairsAreInRange(l);
    CoverageMeaning(l.inst, l.demands);
    forall p | 0 <= p < |l.pairs|
      ensures PairSlots(l)[p].week < |l.inst.weeks| && PairSlots(l)[p].day < 7
    {
      DemandInRange(l, l.pairs[p].demand);
    }
  }

  lemma DemandInRange(l: Layout, j: nat)
    requires l.Ok() && j < |l.demands|
    ensures l.demands[j].week < |l.inst.weeks| && l.demands[j].day < 7
  {
    CoverageMeaning(l.inst, l.demands);
    assert FromNeed(Needs(l.inst), l.demands[j]);
    var i :| 0 <= i < |Needs(l.inst)| && DemandFor(Needs(l.inst)[i]) == l.demands[j];
    NeedsInRange(l.inst, |l.inst.weeks|);
    assert NeedInRange(l.inst, Needs(l.inst)[i]);
  }

  // ----- one shift a day -----

  // Two chosen pairs of one nurse and day count twice.
  lemma {:induction false} CountedTwice(l: Layout, x: Choice, i: nat, j: nat, k: nat)
    requires PairsInRange(l) && i < j < k <= |x| == |l.pairs| && x[i] && x[j]
    requires l.pairs[i].nurse == l.pairs[j].nurse
    requires GlobalDay(l.demands[l.pairs[i].demand]) == GlobalDay(l.demands[l.pairs[j].demand])
    ensures Chosen(x, OnDay(l, l.pairs[i].nurse, GlobalDay(l.demands[l.pairs[i].demand])), k) >= 2
  {
    if j < k - 1 {
      CountedTwice(l, x, i, j, k - 1);
    } else {
      CountedOnce(l, x, i, k - 1);
    }
  }

  lemma {:induction false} CountedOnce(l: Layout, x: Choice, i: nat, k: nat)
    requires PairsInRange(l) && i < k <= |x| == |l.pairs| && x[i]
    ensures Chosen(x, OnDay(l, l.pairs[i].nurse, GlobalDay(l.demands[l.pairs[i].demand])), k) >= 1
  {
    if i < k - 1 { CountedOnce(l, x, i, k - 1); }
  }

  ghost predicate AtMostOne(l: Layout, x: Choice)
    requires |x| == |l.pairs|
  {
    forall n: nat, g: nat | n < |l.inst.nurses| && g < l.Days() :: Chosen(x, OnDay(l, n, g), |x|) <= 1
  }

  lemma OnceExact(l: Layout, x: Choice)
    requires Ready(l) && |x| == |l.pairs|
    ensures Once(l, x) <==> AtMostOne(l, x)
  {
    var slots, nurses := PairSlots(l), PairNurses(l, x);
    if Once(l, x) {
      forall n: nat, g: nat | n < |l.inst.nurses| && g < l.Days() ensures Chosen(x, OnDay(l, n, g), |x|) <= 1 {
        ChosenOnDay(l, x, n, g, |x|);
        RefusedOnce(slots, nurses, DayRequest(n, g, None), |x|);
      }
    }
    if AtMostOne(l, x) {
      forall i, j | 0 <= i < j < |slots| && nurses[i].Some? && nurses[i] == nurses[j]
        ensures slots[i].GlobalDay() != slots[j].GlobalDay()
      {
        if slots[i].GlobalDay() == slots[j].GlobalDay() {
          CountedTwice(l, x, i, j, |x|);
        }
      }
    }
  }

  // With one shift a day the sums are the entries of the roster.
  lemma SumsAreEntries(l: Layout, x: Choice, n: nat, g: nat)
    requires Ready(l) && |x| == |l.pairs| && Once(l, x) && g < l.Days()
    ensures Chosen(x, OnDay(l, n, g), |x|) == if Worked(RosterOf(l, x), n)[g] then 1 else 0
    ensures forall t: nat :: Chosen(x, InType(l, n, g, t), |x|) == if WorkedType(RosterOf(l, x), n, t)[g] then 1 else 0
  {
    var slots, nurses := PairSlots(l), PairNurses(l, x);
    EntryOfSlot(slots, nurses, |l.inst.weeks|, n, g);
    ChosenOnDay(l, x, n, g, |x|);
    RefusedOnce(slots, nurses, DayRequest(n, g, None), |x|);
    forall t: nat ensures Chosen(x, InType(l, n, g, t), |x|) == if WorkedType(RosterOf(l, x), n, t)[g] then 1 else 0 {
      ChosenInType(l, x, n, g, t, |x|);
      RefusedOnce(slots, nurses, DayRequest(n, g, Some(t)), |x|);
    }
  }

  // ----- where the indicator columns are -----

  lemma CellInside(l: Layout, n: nat, g: nat)
    requires n < |l.inst.nurses| && g < l.Days()
    ensures l.CellBase() <= l.CellCol(n, g) && l.CellCol(n, g) + 1 + l.Types() <= l.CellsEnd()
  {
    GridInside(n, |l.inst.nurses|, g, l.Days());
    Ordered(n * l.Days() + g + 1, |l.inst.nurses| * l.Days(), 1 + l.Types());
    OneMore(n * l.Days() + g, 1 + l.Types());
  }

  lemma OneMore(a: nat, k: nat)
    ensures (a + 1) * k == a * k + k
  {
  }

  lemma GridInside(n: nat, nurses: nat, g: nat, days: nat)
    requires n < nurses && g < days
    ensures n * days + g + 1 <= nurses * days
  {
    OneMore(n, days);
    Ordered(n + 1, nurses, days);
  }

  lemma Ordered(a: nat, b: nat, k: nat)
    requires a <= b
    ensures a * k <= b * k
  {
  }

  // ----- the indicator rows -----

  ghost predicate TypeRight(l: Layout, x: Choice, v: seq<real>, n: nat, g: nat, t: nat)
    requires |x| == |l.pairs| && l.TypeCol(n, g, t) < |v|
  {
    v[l.TypeCol(n, g, t)] == Chosen(x, InType(l, n, g, t), |x|) as real
  }

  // The indicator columns of nurse n on day g are the sums they stand for.
  ghost predicate CellRight(l: Layout, x: Choice, v: seq<real>, n: nat, g: nat)
    requires |x| == |l.pairs| && l.CellCol(n, g) + l.Types() < |v|
  {
    && v[l.CellCol(n, g)] == Chosen(x, OnDay(l, n, g), |x|) as real
    && TypesRight(l, x, v, n, g, l.Types())
  }

  lemma IndicatorRow(l: Layout, x: Choice, v: seq<real>, c: nat, f: nat -> bool)
    requires |x| == |l.pairs| && Carries(v, x) && c < |v|
    ensures RowHolds(Row([(c, 1.0)] + Sum(l, f, -1.0), At(0.0), At(0.0)), v) <==> v[c] == Chosen(x, f, |x|) as real
  {
    DotLed((c, 1.0), f, |x|, -1.0, x, v);
    assert Scale(-1.0, Chosen(x, f, |x|)) == -(Chosen(x, f, |x|) as real);
  }

  lemma TypeRowMeaning(l: Layout, x: Choice, v: seq<real>, n: nat, g: nat, t: nat)
    requires |x| == |l.pairs| && Carries(v, x) && t < l.Types() && l.CellCol(n, g) + l.Types() < |v|
    ensures RowsHold([TypeRow(l, n, g, t)], v) <==> TypeRight(l, x, v, n, g, t)
  {
    IndicatorRow(l, x, v, l.TypeCol(n, g, t), InType(l, n, g, t));
    OneRow(TypeRow(l, n, g, t), v);
  }

  ghost predicate TypesRight(l: Layout, x: Choice, v: seq<real>, n: nat, g: nat, t: nat)
    requires |x| == |l.pairs| && l.CellCol(n, g) + l.Types() < |v| && t <= l.Types()
  {
    forall i: nat | i < t :: TypeRight(l, x, v, n, g, i)
  }

  lemma {:induction false} TypeRowsMeaning(l: Layout, x: Choice, v: seq<real>, n: nat, g: nat, t: nat)
    requires |x| == |l.pairs| && Carries(v, x) && t <= l.Types() && l.CellCol(n, g) + l.Types() < |v|
    ensures RowsHold(TypeRows(l, n, g, t), v) <==> TypesRight(l, x, v, n, g, t)
  {
    if t > 0 {
      TypeRowsMeaning(l, x, v, n, g, t - 1);
      RowsHoldConcat(TypeRows(l, n, g, t - 1), [TypeRow(l, n, g, t - 1)], v);
      TypeRowMeaning(l, x, v, n, g, t - 1);
    }
  }

  lemma OneRow(row: Row, v: seq<real>)
    ensures RowsHold([row], v) <==> RowHolds(row, v)
  {
    assert [row][0] == row;
  }

  lemma CellMeaning(l: Layout, x: Choice, v: seq<real>, n: nat, g: nat)
    requires |x| == |l.pairs| && Carries(v, x) && l.CellCol(n, g) + l.Types() < |v|
    ensures RowsHold([WorkRow(l, n, g)] + TypeRows(l, n, g, l.Types()), v) <==> CellRight(l, x, v, n, g)
  {
    RowsHoldConcat([WorkRow(l, n, g)], TypeRows(l, n, g, l.Types()), v);
    OneRow(WorkRow(l, n, g), v);
    IndicatorRow(l, x, v, l.CellCol(n, g), OnDay(l, n, g));
    TypeRowsMeaning(l, x, v, n, g, l.Types());
  }

  ghost predicate NurseCellsRight(l: Layout, x: Choice, v: seq<real>, n: nat, g: nat)
    requires |x| == |l.pairs| && l.CellsEnd() <= |v| && n < |l.inst.nurses| && g <= l.Days()
  {
    forall i: nat | i < g :: CellInRange(l, v, n, i) && CellRight(l, x, v, n, i)
  }

  ghost predicate CellInRange(l: Layout, v: seq<real>, n: nat, g: nat) { l.CellCol(n, g) + l.Types() < |v| }

  ghost predicate DayCellRows(l: Layout, v: seq<real>, n: nat, g: nat) {
    RowsHold([WorkRow(l, n, g)] + TypeRows(l, n, g, l.Types()), v)
  }

  lemma {:induction false} CellsByDay(l: Layout, v: seq<real>, n: nat, g: nat)
    ensures RowsHold(CellRows(l, n, g), v) <==> forall i: nat | i < g :: DayCellRows(l, v, n, i)
  {
    if g > 0 {
      CellsByDay(l, v, n, g - 1);
      RowsHoldConcat(CellRows(l, n, g - 1), [WorkRow(l, n, g - 1)] + TypeRows(l, n, g - 1, l.Types()), v);
      assert DayCellRows(l, v, n, g - 1) <==> RowsHold([WorkRow(l, n, g - 1)] + TypeRows(l, n, g - 1, l.Types()), v);
    }
  }

  lemma NurseCellsMeaning(l: Layout, x: Choice, v: seq<real>, n: nat, g: nat)
    requires |x| == |l.pairs| && Carries(v, x) && l.CellsEnd() <= |v| && n < |l.inst.nurses| && g <= l.Days()
    ensures RowsHold(CellRows(l, n, g), v) <==> NurseCellsRight(l, x, v, n, g)
  {
    CellsByDay(l, v, n, g);
    forall i: nat | i < g
      ensures CellInRange(l, v, n, i) && (DayCellRows(l, v, n, i) <==> CellRight(l, x, v, n, i))
    {
      CellInside(l, n, i);
      CellMeaning(l, x, v, n, i);
    }
  }

  ghost predicate CellsRight(l: Layout, x: Choice, v: seq<real>, n: nat)
    requires |x| == |l.pairs| && l.CellsEnd() <= |v| && n <= |l.inst.nurses|
  {
    forall i: nat | i < n :: NurseCellsRight(l, x, v, i, l.Days())
  }

  lemma {:induction false} CellsMeaning(l: Layout, x: Choice, v: seq<real>, n: nat)
    requires |x| == |l.pairs| && Carries(v, x) && l.CellsEnd() <= |v| && n <= |l.inst.nurses|
    ensures RowsHold(AllCellRows(l, n), v) <==> CellsRight(l, x, v, n)
  {
    if n > 0 {
      CellsMeaning(l, x, v, n - 1);
      NurseCellsMeaning(l, x, v, n - 1, l.Days());
      RowsHoldConcat(AllCellRows(l, n - 1), CellRows(l, n - 1, l.Days()), v);
    }
  }

  // ----- what the later parts rely on -----

  ghost predicate EntryRight(l: Layout, x: Choice, v: seq<real>, n: nat, g: nat)
    requires PairsInRange(l) && |x| == |l.pairs| && g < l.Days() && l.CellCol(n, g) + l.Types() < |v|
  {
    && v[l.CellCol(n, g)] == Bit(Worked(RosterOf(l, x), n)[g])
    && forall t: nat | t < l.Types() :: v[l.TypeCol(n, g, t)] == Bit(WorkedType(RosterOf(l, x), n, t)[g])
  }

  // The shared columns carry the choice and the roster it makes.
  ghost predicate Env(l: Layout, x: Choice, v: seq<real>) {
    && Ready(l) && |x| == |l.pairs| && Once(l, x) && Carries(v, x) && l.CellsEnd() <= |v|
    && forall n: nat, g: nat | n < |l.inst.nurses| && g < l.Days() :: CellInRange(l, v, n, g) && EntryRight(l, x, v, n, g)
  }

  lemma CellsAreEntries(l: Layout, x: Choice, v: seq<real>)
    requires Ready(l) && |x| == |l.pairs| && Once(l, x) && Carries(v, x) && l.CellsEnd() <= |v|
    ensures CellsRight(l, x, v, |l.inst.nurses|) <==> Env(l, x, v)
  {
    forall n: nat, g: nat | n < |l.inst.nurses| && g < l.Days()
      ensures CellInRange(l, v, n, g) && (CellRight(l, x, v, n, g) <==> EntryRight(l, x, v, n, g))
    {
      CellInside(l, n, g);
      EntryExact(l, x, v, n, g);
    }
    if CellsRight(l, x, v, |l.inst.nurses|) {
      forall n: nat, g: nat | n < |l.inst.nurses| && g < l.Days()
        ensures CellInRange(l, v, n, g) && EntryRight(l, x, v, n, g)
      {
        assert NurseCellsRight(l, x, v, n, l.Days());
      }
    }
  }

  lemma EntryExact(l: Layout, x: Choice, v: seq<real>, n: nat, g: nat)
    requires Ready(l) && |x| == |l.pairs| && Once(l, x) && g < l.Days() && l.CellCol(n, g) + l.Types() < |v|
    ensures CellRight(l, x, v, n, g) <==> EntryRight(l, x, v, n, g)
  {
    SumsAreEntries(l, x, n, g);
    if EntryRight(l, x, v, n, g) {
      forall t: nat | t < l.Types() ensures TypeRight(l, x, v, n, g, t) {
        assert v[l.TypeCol(n, g, t)] == Bit(WorkedType(RosterOf(l, x), n, t)[g]);
      }
    }
    if CellRight(l, x, v, n, g) {
      forall t: nat | t < l.Types() ensures v[l.TypeCol(n, g, t)] == Bit(WorkedType(RosterOf(l, x), n, t)[g]) {
        assert TypeRight(l, x, v, n, g, t);
      }
    }
  }

  lemma EnvExtend(l: Layout, x: Choice, u: seq<real>, v: seq<real>)
    requires Env(l, x, u) && u <= v
    ensures Env(l, x, v)
  {
    forall n: nat, g: nat | n < |l.inst.nurses| && g < l.Days()
      ensures CellInRange(l, v, n, g) && EntryRight(l, x, v, n, g)
    {
      CellInside(l, n, g);
      assert EntryRight(l, x, u, n, g);
      forall t: nat | t < l.Types() ensures v[l.TypeCol(n, g, t)] == Bit(WorkedType(RosterOf(l, x), n, t)[g]) {
        assert u[l.TypeCol(n, g, t)] == Bit(WorkedType(RosterOf(l, x), n, t)[g]);
      }
    }
  }

  // ----- coverage rows -----

  ghost predicate DemandMet(l: Layout, x: Choice, j: nat)
    requires |x| == |l.pairs| && j < |l.demands|
  {
    l.demands[j].minimum <= Chosen(x, ForDemand(l, j), |x|) <= l.demands[j].optimal
  }

  ghost predicate UncoveredRight(l: Layout, x: Choice, v: seq<real>, j: nat)
    requires |x| == |l.pairs| && j < |l.demands| && |l.pairs| + j < |v|
  {
    v[|l.pairs| + j] == (l.demands[j].optimal - Chosen(x, ForDemand(l, j), |x|)) as real
  }

  lemma DemandMeaning(l: Layout, x: Choice, v: seq<real>, j: nat)
    requires |x| == |l.pairs| && Carries(v, x) && j < |l.demands| && |l.pairs| + j < |v|
    ensures RowsHold(DemandRows(l, j), v) <==> DemandMet(l, x, j) && UncoveredRight(l, x, v, j)
  {
    var f, chosen, most := ForDemand(l, j), Chosen(x, ForDemand(l, j), |x|), At(l.demands[j].optimal as real);
    DotWhere(f, |x|, 1.0, x, v);
    DotLed((|l.pairs| + j, 1.0), f, |x|, 1.0, x, v);
    assert Scale(1.0, chosen) == chosen as real;
    var rows := DemandRows(l, j);
    assert RowsHold(rows, v) <==> RowHolds(rows[0], v) && RowHolds(rows[1], v);
  }

  lemma {:induction false} CoverMeaning(l: Layout, x: Choice, v: seq<real>, j: nat)
    requires |x| == |l.pairs| && Carries(v, x) && j <= |l.demands| && |l.pairs| + |l.demands| <= |v|
    ensures RowsHold(CoverRows(l, j), v) <==> forall i | 0 <= i < j :: DemandMet(l, x, i) && UncoveredRight(l, x, v, i)
  {
    if j > 0 {
      CoverMeaning(l, x, v, j - 1);
      RowsHoldConcat(CoverRows(l, j - 1), DemandRows(l, j - 1), v);
      DemandMeaning(l, x, v, j - 1);
    }
  }

  // ----- succession rows -----

  ghost predicate Apart(l: Layout, x: Choice, n: nat, g: nat, previous: nat, next: nat)
    requires PairsInRange(l) && |x| == |l.pairs| && g + 1 < l.Days()
  {
    !(WorkedType(RosterOf(l, x), n, previous)[g] && WorkedType(RosterOf(l, x), n, next)[g + 1])
  }

  lemma SuccessionMeaning(l: Layout, x: Choice, v: seq<real>, n: nat, g: nat, previous: nat, next: nat)
    requires Env(l, x, v) && n < |l.inst.nurses| && g + 1 < l.Days() && previous < l.Types() && next < l.Types()
    ensures RowHolds(SuccessionRow(l, n, g, previous, next), v) <==> Apart(l, x, n, g, previous, next)
  {
    CellInside(l, n, g);
    CellInside(l, n, g + 1);
    assert EntryRight(l, x, v, n, g) && EntryRight(l, x, v, n, g + 1);
    RowTwo((l.TypeCol(n, g, previous), 1.0), (l.TypeCol(n, g + 1, next), 1.0), NoBound, At(1.0), v);
  }

  ghost predicate EntryApart(l: Layout, x: Choice, n: nat, g: nat, entry: (nat, seq<nat>), k: nat)
    requires PairsInRange(l) && |x| == |l.pairs| && g + 1 < l.Days() && k <= |entry.1|
  {
    forall i | 0 <= i < k :: Apart(l, x, n, g, entry.0, entry.1[i])
  }

  ghost predicate PairRow(l: Layout, v: seq<real>, n: nat, g: nat, previous: nat, next: nat) {
    RowHolds(SuccessionRow(l, n, g, previous, next), v)
  }

  lemma {:induction false} SuccessorByOne(l: Layout, v: seq<real>, n: nat, g: nat, entry: (nat, seq<nat>), k: nat)
    requires k <= |entry.1|
    ensures RowsHold(SuccessorRows(l, n, g, entry, k), v) <==>
      forall i | 0 <= i < k :: PairRow(l, v, n, g, entry.0, entry.1[i])
  {
    if k > 0 {
      var row := SuccessionRow(l, n, g, entry.0, entry.1[k - 1]);
      SuccessorByOne(l, v, n, g, entry, k - 1);
      RowsHoldConcat(SuccessorRows(l, n, g, entry, k - 1), [row], v);
      OneRow(row, v);
      assert PairRow(l, v, n, g, entry.0, entry.1[k - 1]) <==> RowHolds(row, v);
    }
  }

  lemma SuccessorsMeaning(l: Layout, x: Choice, v: seq<real>, n: nat, g: nat, entry: (nat, seq<nat>), k: nat)
    requires Env(l, x, v) && n < |l.inst.nurses| && g + 1 < l.Days() && k <= |entry.1|
    requires entry.0 < l.Types() && forall i | 0 <= i < |entry.1| :: entry.1[i] < l.Types()
    ensures RowsHold(SuccessorRows(l, n, g, entry, k), v) <==> EntryApart(l, x, n, g, entry, k)
  {
    SuccessorByOne(l, v, n, g, entry, k);
    forall i | 0 <= i < k
      ensures PairRow(l, v, n, g, entry.0, entry.1[i]) <==> Apart(l, x, n, g, entry.0, entry.1[i])
    {
      SuccessionMeaning(l, x, v, n, g, entry.0, entry.1[i]);
    }
  }

  ghost predicate TableApart(l: Layout, x: Choice, n: nat, g: nat, i: nat)
    requires PairsInRange(l) && |x| == |l.pairs| && g + 1 < l.Days() && i <= |l.inst.forbidden|
  {
    forall e | 0 <= e < i :: EntryApart(l, x, n, g, l.inst.forbidden[e], |l.inst.forbidden[e].1|)
  }

  ghost predicate TableEntryRows(l: Layout, v: seq<real>, n: nat, g: nat, e: nat)
    requires e < |l.inst.forbidden|
  {
    RowsHold(SuccessorRows(l, n, g, l.inst.forbidden[e], |l.inst.forbidden[e].1|), v)
  }

  lemma {:induction false} TableByEntry(l: Layout, v: seq<real>, n: nat, g: nat, i: nat)
    requires i <= |l.inst.forbidden|
    ensures RowsHold(TableRows(l, n, g, i), v) <==> forall e | 0 <= e < i :: TableEntryRows(l, v, n, g, e)
  {
    if i > 0 {
      var entry := l.inst.forbidden[i - 1];
      TableByEntry(l, v, n, g, i - 1);
      RowsHoldConcat(TableRows(l, n, g, i - 1), SuccessorRows(l, n, g, entry, |entry.1|), v);
      assert TableEntryRows(l, v, n, g, i - 1) <==> RowsHold(SuccessorRows(l, n, g, entry, |entry.1|), v);
    }
  }

  lemma TableMeaning(l: Layout, x: Choice, v: seq<real>, n: nat, g: nat, i: nat)
    requires Env(l, x, v) && n < |l.inst.nurses| && g + 1 < l.Days() && i <= |l.inst.forbidden|
    ensures RowsHold(TableRows(l, n, g, i), v) <==> TableApart(l, x, n, g, i)
  {
    TableByEntry(l, v, n, g, i);
    forall e | 0 <= e < i
      ensures TableEntryRows(l, v, n, g, e) <==>
        EntryApart(l, x, n, g, l.inst.forbidden[e], |l.inst.forbidden[e].1|)
    {
      SuccessorsMeaning(l, x, v, n, g, l.inst.forbidden[e], |l.inst.forbidden[e].1|);
    }
  }

  ghost predicate DaysApart(l: Layout, x: Choice, n: nat, g: nat)
    requires PairsInRange(l) && |x| == |l.pairs| && g < l.Days()
  {
    forall i: nat | i < g :: TableApart(l, x, n, i, |l.inst.forbidden|)
  }

  // The rows of one day, and those of one nurse, say what they should.
  ghost predicate TableFact(l: Layout, x: Choice, v: seq<real>, n: nat, g: nat)
    requires PairsInRange(l) && |x| == |l.pairs| && g + 1 < l.Days()
  {
    RowsHold(TableRows(l, n, g, |l.inst.forbidden|), v) <==> TableApart(l, x, n, g, |l.inst.forbidden|)
  }

  ghost predicate NurseFact(l: Layout, x: Choice, v: seq<real>, n: nat)
    requires PairsInRange(l) && |x| == |l.pairs| && l.Days() > 0
  {
    RowsHold(DaySuccessions(l, n, l.Gaps()), v) <==> NurseApart(l, x, n)
  }

  ghost predicate DayRows(l: Layout, v: seq<real>, n: nat, g: nat) {
    RowsHold(TableRows(l, n, g, |l.inst.forbidden|), v)
  }

  // The rows of all days hold when those of each day do.
  lemma {:induction false} DayByDay(l: Layout, v: seq<real>, n: nat, g: nat)
    ensures RowsHold(DaySuccessions(l, n, g), v) <==> forall i: nat | i < g :: DayRows(l, v, n, i)
  {
    if g > 0 {
      DayByDay(l, v, n, g - 1);
      RowsHoldConcat(DaySuccessions(l, n, g - 1), TableRows(l, n, g - 1, |l.inst.forbidden|), v);
      assert DayRows(l, v, n, g - 1) <==> RowsHold(TableRows(l, n, g - 1, |l.inst.forbidden|), v);
    }
  }

  lemma DaySuccessionsMeaning(l: Layout, x: Choice, v: seq<real>, n: nat, g: nat)
    requires PairsInRange(l) && |x| == |l.pairs| && g < l.Days()
    requires forall i: nat | i < g :: TableFact(l, x, v, n, i)
    ensures RowsHold(DaySuccessions(l, n, g), v) <==> DaysApart(l, x, n, g)
  {
    DayByDay(l, v, n, g);
    forall i: nat | i < g ensures DayRows(l, v, n, i) <==> TableApart(l, x, n, i, |l.inst.forbidden|) {
      assert TableFact(l, x, v, n, i);
    }
  }

  lemma TableFactHolds(l: Layout, x: Choice, v: seq<real>, n: nat, g: nat)
    requires Env(l, x, v) && n < |l.inst.nurses| && g + 1 < l.Days()
    ensures TableFact(l, x, v, n, g)
  {
    TableMeaning(l, x, v, n, g, |l.inst.forbidden|);
  }

  lemma NurseSuccessionsMeaning(l: Layout, x: Choice, v: seq<real>, n: nat)
    requires Env(l, x, v) && n < |l.inst.nurses| && l.Days() > 0
    ensures NurseFact(l, x, v, n)
  {
    forall g: nat | g < l.Gaps() ensures TableFact(l, x, v, n, g) {
      TableFactHolds(l, x, v, n, g);
    }
    DaySuccessionsMeaning(l, x, v, n, l.Gaps());
  }

  ghost predicate SuccessionsKept(l: Layout, x: Choice, n: nat)
    requires PairsInRange(l) && |x| == |l.pairs| && l.Days() > 0
  {
    forall i: nat | i < n :: NurseApart(l, x, i)
  }

  ghost predicate NurseApart(l: Layout, x: Choice, n: nat)
    requires PairsInRange(l) && |x| == |l.pairs| && l.Days() > 0
  {
    DaysApart(l, x, n, l.Gaps())
  }

  lemma {:induction false} NursesApart(l: Layout, x: Choice, v: seq<real>, n: nat)
    requires PairsInRange(l) && |x| == |l.pairs| && l.Days() > 0
    requires forall i: nat | i < n :: NurseFact(l, x, v, i)
    ensures RowsHold(AllSuccessions(l, n), v) <==> SuccessionsKept(l, x, n)
  {
    if n > 0 {
      NursesApart(l, x, v, n - 1);
      assert NurseFact(l, x, v, n - 1);
      RowsHoldConcat(AllSuccessions(l, n - 1), DaySuccessions(l, n - 1, l.Gaps()), v);
    }
  }

  lemma SuccessionsMeaning(l: Layout, x: Choice, v: seq<real>)
    requires Env(l, x, v) && l.Days() > 0
    ensures RowsHold(AllSuccessions(l, |l.inst.nurses|), v) <==> SuccessionsKept(l, x, |l.inst.nurses|)
  {
    forall n: nat | n < |l.inst.nurses| ensures NurseFact(l, x, v, n) {
      NurseSuccessionsMeaning(l, x, v, n);
    }
    NursesApart(l, x, v, |l.inst.nurses|);
  }
}
