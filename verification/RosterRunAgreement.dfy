// Least objective of the enforced-literal block, and its agreement with the big-M block.
module RosterRunAgreement {
  import opened RosterRuns
  import opened RosterRunMilp
  import opened RosterRunExact
  import opened RosterRunOptimum
  import opened RosterRunCpSat

  // ----- points -----

  ghost predicate BinaryVar(x: seq<int>, i: nat) {
    i < |x| && (x[i] == 0 || x[i] == 1)
  }

  ghost predicate CpPoint(blk: CpBlock, x: seq<int>) {
    && blk.Ok() && blk.EndVar() < |x|
    && forall d | 0 <= d < blk.Days() :: BinaryVar(x, blk.active[d].index)
  }

  ghost function CpAct(blk: CpBlock, x: seq<int>): (act: Activity)
    requires CpPoint(blk, x)
    ensures |act| == blk.Days() && forall d | 0 <= d < |act| :: act[d] == LitHolds(blk.active[d], x)
  {
    seq(blk.Days(), d requires 0 <= d < blk.Days() => LitHolds(blk.active[d], x))
  }

  ghost predicate InDomain(d: (int, int), x: seq<int>, i: nat)
    requires i < |x|
  {
    d.0 <= x[i] <= d.1
  }

  ghost predicate InDomains(blk: CpBlock, x: seq<int>)
    requires CpPoint(blk, x)
  {
    forall i | 0 <= i < |BlockDomains(blk)| :: InDomain(BlockDomains(blk)[i], x, blk.base + i)
  }

  lemma {:induction false} CloseDomainAt(blk: CpBlock, k: nat, d: nat)
    requires 0 < d < k
    ensures CloseDomains(blk, k)[2 * (d - 1)] == (0, 1)
    ensures CloseDomains(blk, k)[2 * (d - 1) + 1] == (0, MaxClosed(blk.b, blk.Params().MaxLength() + 1))
  {
    if d < k - 1 { CloseDomainAt(blk, k - 1, d); }
  }

  lemma ClosingDomain(blk: CpBlock, x: seq<int>, d: nat)
    requires CpPoint(blk, x) && InDomains(blk, x) && 0 < d < blk.Days()
    ensures 0 <= x[blk.CloseVar(d)] <= 1 && 0 <= x[blk.PenaltyVar(d)]
  {
    CloseDomainAt(blk, blk.Days(), d);
    var i := blk.CloseVar(d) - blk.base;
    assert BlockDomains(blk)[i] == CloseDomains(blk, blk.Days())[2 * (d - 1)];
    assert BlockDomains(blk)[i + 1] == CloseDomains(blk, blk.Days())[2 * (d - 1) + 1];
    assert InDomain(BlockDomains(blk)[i], x, blk.base + i) && InDomain(BlockDomains(blk)[i + 1], x, blk.base + (i + 1));
  }

  lemma EndDomain(blk: CpBlock, x: seq<int>)
    requires CpPoint(blk, x) && InDomains(blk, x)
    ensures 0 <= x[blk.EndVar()]
  {
    var i := blk.EndVar() - blk.base;
    assert InDomain(BlockDomains(blk)[i], x, blk.base + i);
  }

  // ----- values of the short expressions -----

  lemma VarValue(i: nat, x: seq<int>)
    requires i < |x|
    ensures Value(Var(i), x) == x[i]
  {
    assert TermSum([(i, 1)], x, 0) == 0;
    assert TermSum([(i, 1)], x, 1) == x[i];
  }

  lemma ScaledValue(i: nat, c: int, offset: int, x: seq<int>)
    requires i < |x|
    ensures Value(Linear([(i, c)], offset), x) == c * x[i] + offset
  {
    assert TermSum([(i, c)], x, 0) == 0;
  }

  lemma NotHolds(l: Lit, x: seq<int>)
    requires l.index < |x|
    ensures LitHolds(l.Not(), x) <==> !LitHolds(l, x)
  {
  }

  lemma One(l: Lit, x: seq<int>)
    ensures AllHold([l], x) <==> LitHolds(l, x)
  {
    assert [l][0] == l;
  }

  lemma Two(l: Lit, m: Lit, x: seq<int>)
    ensures AllHold([l, m], x) <==> LitHolds(l, x) && LitHolds(m, x)
  {
    assert [l, m][0] == l && [l, m][1] == m;
  }

  // ----- run lengths -----

  ghost predicate CpRun(blk: CpBlock, x: seq<int>, d: nat)
    requires CpPoint(blk, x) && d < blk.Days()
  {
    x[blk.RunVar(d)] == OpenRun(CpAct(blk, x), blk.Params().Initial(), d + 1)
  }

  lemma FirstRunMeaning(blk: CpBlock, x: seq<int>)
    requires CpPoint(blk, x)
    ensures AllOf(RunConstraints(blk, 0), x) <==> CpRun(blk, x, 0)
  {
    var cs, a := RunConstraints(blk, 0), blk.active[0];
    assert BinaryVar(x, a.index);
    assert AllOf(cs, x) <==> Holds(cs[0], x) && Holds(cs[1], x);
    VarValue(blk.RunVar(0), x);
    NotHolds(a, x);
    One(a, x);
    One(a.Not(), x);
    assert OpenRun(CpAct(blk, x), blk.Params().Initial(), 0) == blk.Params().Initial();
  }

  lemma LaterRunMeaning(blk: CpBlock, x: seq<int>, d: nat)
    requires CpPoint(blk, x) && 0 < d < blk.Days() && CpRun(blk, x, d - 1)
    ensures AllOf(RunConstraints(blk, d), x) <==> CpRun(blk, x, d)
  {
    var cs, a, p := RunConstraints(blk, d), blk.active[d], blk.active[d - 1];
    assert BinaryVar(x, a.index) && BinaryVar(x, p.index);
    assert AllOf(cs, x) <==> Holds(cs[0], x) && Holds(cs[1], x) && Holds(cs[2], x);
    VarValue(blk.RunVar(d), x);
    ScaledValue(blk.RunVar(d - 1), 1, 1, x);
    NotHolds(a, x);
    NotHolds(p, x);
    One(a.Not(), x);
    Two(a, p.Not(), x);
    Two(a, p, x);
    var act, initial := CpAct(blk, x), blk.Params().Initial();
    assert OpenRun(act, initial, d) == if act[d - 1] then OpenRun(act, initial, d - 1) + 1 else 0;
    assert OpenRun(act, initial, d + 1) == if act[d] then OpenRun(act, initial, d) + 1 else 0;
  }

  ghost predicate CpRuns(blk: CpBlock, x: seq<int>, k: nat)
    requires CpPoint(blk, x) && k <= blk.Days()
  {
    forall d | 0 <= d < k :: CpRun(blk, x, d)
  }

  lemma {:induction false} RunsMeaning(blk: CpBlock, x: seq<int>, k: nat)
    requires CpPoint(blk, x) && k <= blk.Days()
    ensures AllOf(AllRuns(blk, k), x) <==> CpRuns(blk, x, k)
  {
    if k > 0 {
      RunsMeaning(blk, x, k - 1);
      AllOfConcat(AllRuns(blk, k - 1), RunConstraints(blk, k - 1), x);
      if k == 1 {
        FirstRunMeaning(blk, x);
      } else if CpRuns(blk, x, k - 1) {
        LaterRunMeaning(blk, x, k - 1);
      }
    }
  }

  // ----- closures and the end -----

  ghost predicate CpClose(blk: CpBlock, x: seq<int>, d: nat)
    requires CpPoint(blk, x) && 0 < d < blk.Days()
  {
    var closes, length, p := Closes(CpAct(blk, x), d), OpenRun(CpAct(blk, x), blk.Params().Initial(), d), x[blk.PenaltyVar(d)];
    && ((x[blk.CloseVar(d)] == 1) <==> closes)
    && (closes ==> Under(blk.b, length) <= p && Over(blk.b, length) <= p)
    && (!closes ==> p == 0)
  }

  lemma CloseLiteral(blk: CpBlock, x: seq<int>, d: nat)
    requires CpPoint(blk, x) && 0 < d < blk.Days()
    ensures AllOf(AndConstraints(Lit(blk.CloseVar(d), false), [blk.active[d - 1], blk.active[d].Not()]), x) <==>
      ((x[blk.CloseVar(d)] == 1) <==> Closes(CpAct(blk, x), d))
  {
    var lits := [blk.active[d - 1], blk.active[d].Not()];
    assert BinaryVar(x, blk.active[d].index) && BinaryVar(x, blk.active[d - 1].index);
    AndMeaning(Lit(blk.CloseVar(d), false), lits, x);
    Two(lits[0], lits[1], x);
    NotHolds(blk.active[d], x);
  }

  lemma ChargeValues(b: Bounds, run: nat, x: seq<int>)
    requires run < |x|
    ensures Value(UnderLinear(b, run), x) == Under(b, x[run]) && Value(OverLinear(b, run), x) == Over(b, x[run])
  {
    ScaledValue(run, -b.weight, b.min * b.weight, x);
    ScaledValue(run, b.weight, -b.max * b.weight, x);
    Charges(b, x[run]);
    assert -b.weight * x[run] + b.min * b.weight == b.min * b.weight - b.weight * x[run];
  }

  lemma PenaltyConstraints(blk: CpBlock, x: seq<int>, d: nat, cs: seq<Constraint>)
    requires CpPoint(blk, x) && 0 < d < blk.Days() && CpRun(blk, x, d - 1)
    requires (x[blk.CloseVar(d)] == 1) <==> Closes(CpAct(blk, x), d)
    requires var closes, penalty, run := Lit(blk.CloseVar(d), false), Var(blk.PenaltyVar(d)), blk.RunVar(d - 1);
      cs == [AtLeast(penalty, UnderLinear(blk.b, run), [closes]), AtLeast(penalty, OverLinear(blk.b, run), [closes]),
             Equal(penalty, Const(0), [closes.Not()])]
    ensures AllOf(cs, x) <==> CpClose(blk, x, d)
  {
    var closes := Lit(blk.CloseVar(d), false);
    assert AllOf(cs, x) <==> Holds(cs[0], x) && Holds(cs[1], x) && Holds(cs[2], x);
    VarValue(blk.PenaltyVar(d), x);
    ChargeValues(blk.b, blk.RunVar(d - 1), x);
    One(closes, x);
    One(closes.Not(), x);
    NotHolds(closes, x);
  }

  lemma CloseMeaning(blk: CpBlock, x: seq<int>, d: nat)
    requires CpPoint(blk, x) && 0 < d < blk.Days() && CpRun(blk, x, d - 1)
    ensures AllOf(CloseConstraints(blk, d), x) <==> CpClose(blk, x, d)
  {
    var closes, penalty, run := Lit(blk.CloseVar(d), false), Var(blk.PenaltyVar(d)), blk.RunVar(d - 1);
    var ands := AndConstraints(closes, [blk.active[d - 1], blk.active[d].Not()]);
    var rest := [AtLeast(penalty, UnderLinear(blk.b, run), [closes]), AtLeast(penalty, OverLinear(blk.b, run), [closes]),
                 Equal(penalty, Const(0), [closes.Not()])];
    AllOfConcat(ands, rest, x);
    CloseLiteral(blk, x, d);
    if AllOf(ands, x) { PenaltyConstraints(blk, x, d, rest); }
  }

  ghost predicate CpCloses(blk: CpBlock, x: seq<int>, k: nat)
    requires CpPoint(blk, x) && k <= blk.Days()
  {
    forall d | 0 < d < k :: CpClose(blk, x, d)
  }

  lemma {:induction false} ClosesMeaning(blk: CpBlock, x: seq<int>, k: nat)
    requires CpPoint(blk, x) && CpRuns(blk, x, blk.Days()) && 0 < k <= blk.Days()
    ensures AllOf(AllCloses(blk, k), x) <==> CpCloses(blk, x, k)
  {
    if k > 1 {
      ClosesMeaning(blk, x, k - 1);
      AllOfConcat(AllCloses(blk, k - 1), CloseConstraints(blk, k - 1), x);
      assert CpRun(blk, x, k - 2);
      CloseMeaning(blk, x, k - 1);
      assert CpCloses(blk, x, k) <==> CpCloses(blk, x, k - 1) && CpClose(blk, x, k - 1);
    }
  }

  ghost predicate CpEnd(blk: CpBlock, x: seq<int>)
    requires CpPoint(blk, x)
  {
    var act := CpAct(blk, x);
    if act[blk.Days() - 1] then Over(blk.b, OpenRun(act, blk.Params().Initial(), blk.Days())) <= x[blk.EndVar()]
    else x[blk.EndVar()] == 0
  }

  lemma EndMeaning(blk: CpBlock, x: seq<int>)
    requires CpPoint(blk, x) && CpRun(blk, x, blk.Days() - 1)
    ensures AllOf(EndConstraints(blk), x) <==> CpEnd(blk, x)
  {
    var cs, last := EndConstraints(blk), blk.active[blk.Days() - 1];
    assert BinaryVar(x, last.index);
    assert AllOf(cs, x) <==> Holds(cs[0], x) && Holds(cs[1], x);
    VarValue(blk.EndVar(), x);
    ChargeValues(blk.b, blk.RunVar(blk.Days() - 1), x);
    One(last, x);
    One(last.Not(), x);
    NotHolds(last, x);
  }

  ghost predicate CpFeasible(blk: CpBlock, x: seq<int>) {
    CpPoint(blk, x) && InDomains(blk, x) && AllOf(BlockConstraints(blk), x)
  }

  // Exactly one run-length vector per activity; closures and penalties follow it.
  lemma CpBlockMeaning(blk: CpBlock, x: seq<int>)
    requires CpPoint(blk, x)
    ensures AllOf(BlockConstraints(blk), x) <==>
      (CpRuns(blk, x, blk.Days()) && CpCloses(blk, x, blk.Days()) && CpEnd(blk, x))
  {
    AllOfConcat(AllRuns(blk, blk.Days()) + AllCloses(blk, blk.Days()), EndConstraints(blk), x);
    AllOfConcat(AllRuns(blk, blk.Days()), AllCloses(blk, blk.Days()), x);
    RunsMeaning(blk, x, blk.Days());
    if CpRuns(blk, x, blk.Days()) {
      ClosesMeaning(blk, x, blk.Days());
      assert CpRun(blk, x, blk.Days() - 1);
      EndMeaning(blk, x);
    }
  }

  // ----- objective -----

  lemma {:induction false} TermConcat(a: seq<(nat, int)>, b: seq<(nat, int)>, x: seq<int>, k: nat)
    requires k <= |b|
    ensures TermSum(a + b, x, |a| + k) == TermSum(a, x, |a|) + TermSum(b, x, k)
  {
    if k == 0 {
      TermPrefix(a, b, x, |a|);
    } else {
      TermConcat(a, b, x, k - 1);
      assert (a + b)[|a| + k - 1] == b[k - 1];
    }
  }

  lemma {:induction false} TermPrefix(a: seq<(nat, int)>, b: seq<(nat, int)>, x: seq<int>, k: nat)
    requires k <= |a|
    ensures TermSum(a + b, x, k) == TermSum(a, x, k)
  {
    if k > 0 { TermPrefix(a, b, x, k - 1); }
  }

  ghost function CpPenalties(blk: CpBlock, x: seq<int>, k: nat): int
    requires CpPoint(blk, x) && k <= blk.Days()
  {
    if k <= 1 then 0 else CpPenalties(blk, x, k - 1) + x[blk.PenaltyVar(k - 1)]
  }

  lemma {:induction false} PenaltyTermsSum(blk: CpBlock, x: seq<int>, k: nat)
    requires CpPoint(blk, x) && k <= blk.Days()
    ensures TermSum(PenaltyTerms(blk, k), x, |PenaltyTerms(blk, k)|) == CpPenalties(blk, x, k)
  {
    if k > 1 {
      PenaltyTermsSum(blk, x, k - 1);
      TermConcat(PenaltyTerms(blk, k - 1), [(blk.PenaltyVar(k - 1), 1)], x, 1);
      VarValue(blk.PenaltyVar(k - 1), x);
    }
  }

  lemma HistoryTermValue(blk: CpBlock, x: seq<int>)
    requires CpPoint(blk, x)
    ensures Value(HistoryTerm(blk), x) == HistoryPart(blk.Params(), CpAct(blk, x))
  {
    var a, c := blk.active[0], blk.Params().HistoryCost();
    assert BinaryVar(x, a.index);
    if c != 0 {
      ScaledValue(a.index, if a.negated then c else -c, if a.negated then 0 else c, x);
    } else {
      assert ClosedCost(blk.Params().Initial(), blk.b) == 0;
    }
  }

  ghost function CpCost(blk: CpBlock, x: seq<int>): int
    requires blk.active != []
  {
    Value(BlockObjectiveTerm(blk), x)
  }

  lemma CpCostParts(blk: CpBlock, x: seq<int>)
    requires CpPoint(blk, x)
    ensures CpCost(blk, x) ==
      HistoryPart(blk.Params(), CpAct(blk, x)) + CpPenalties(blk, x, blk.Days()) + x[blk.EndVar()]
  {
    var h, p, e := HistoryTerm(blk).terms, PenaltyTerms(blk, blk.Days()), [(blk.EndVar(), 1)];
    TermConcat(h + p, e, x, 1);
    TermConcat(h, p, x, |p|);
    PenaltyTermsSum(blk, x, blk.Days());
    HistoryTermValue(blk, x);
    VarValue(blk.EndVar(), x);
  }

  lemma {:induction false} CpPenaltiesCover(blk: CpBlock, x: seq<int>, k: nat)
    requires CpPoint(blk, x) && CpCloses(blk, x, blk.Days()) && 0 < k <= blk.Days() && blk.b.min <= blk.b.max
    requires forall d | 0 < d < blk.Days() :: x[blk.PenaltyVar(d)] >= 0
    ensures CpPenalties(blk, x, k) >= ChargeSum(blk.Params(), CpAct(blk, x), k)
  {
    if k > 1 {
      CpPenaltiesCover(blk, x, k - 1);
      var d, act := k - 1, CpAct(blk, x);
      assert CpClose(blk, x, d) && x[blk.PenaltyVar(d)] >= 0;
      OpenRunPositive(act, blk.Params().Initial(), d);
      if Closes(act, d) { OneSided(blk.b, OpenRun(act, blk.Params().Initial(), d)); }
    }
  }

  // Every feasible point of the enforced block costs at least what the scan charges.
  lemma CpCostCovers(blk: CpBlock, x: seq<int>)
    requires CpFeasible(blk, x) && blk.b.min <= blk.b.max
    ensures CpCost(blk, x) >= RunCost(CpAct(blk, x), blk.Params().Initial(), blk.b)
  {
    var act, n := CpAct(blk, x), blk.Days();
    CpBlockMeaning(blk, x);
    CpCostParts(blk, x);
    forall d | 0 < d < n ensures x[blk.PenaltyVar(d)] >= 0 {
      ClosingDomain(blk, x, d);
    }
    EndDomain(blk, x);
    CpPenaltiesCover(blk, x, n);
    ClosedSplits(blk.Params(), act, n);
    OpenRunPositive(act, blk.Params().Initial(), n);
    OverIsMax(blk.b, OpenRun(act, blk.Params().Initial(), n));
  }

  // ----- an attaining point -----

  ghost function CloseValues(blk: CpBlock, act: Activity, k: nat): (w: seq<int>)
    requires k <= |act|
    ensures |w| == if k <= 1 then 0 else 2 * (k - 1)
  {
    if k <= 1 then []
    else CloseValues(blk, act, k - 1) + [if Closes(act, k - 1) then 1 else 0, Charge(blk.Params(), act, k - 1)]
  }

  ghost function RunValues(blk: CpBlock, act: Activity): (w: seq<int>)
    requires |act| == blk.Days()
    ensures |w| == |act| && forall d | 0 <= d < |act| :: w[d] == OpenRun(act, blk.Params().Initial(), d + 1)
  {
    seq(|act|, d requires 0 <= d < |act| => OpenRun(act, blk.Params().Initial(), d + 1))
  }

  ghost function CpValues(blk: CpBlock, act: Activity): (w: seq<int>)
    requires act != [] && |act| == blk.Days()
    ensures |w| == |BlockDomains(blk)|
  {
    RunValues(blk, act) + CloseValues(blk, act, |act|) + [MaxCost(OpenRun(act, blk.Params().Initial(), |act|), blk.b)]
  }

  ghost predicate CpFixes(blk: CpBlock, w: seq<int>, act: Activity) {
    && |w| == blk.base && |act| == blk.Days()
    && forall d | 0 <= d < blk.Days() :: BinaryVar(w, blk.active[d].index) && act[d] == LitHolds(blk.active[d], w)
  }

  lemma {:induction false} CloseValueAt(blk: CpBlock, act: Activity, k: nat, d: nat)
    requires 0 < d < k <= |act|
    ensures CloseValues(blk, act, k)[2 * (d - 1)] == if Closes(act, d) then 1 else 0
    ensures CloseValues(blk, act, k)[2 * (d - 1) + 1] == Charge(blk.Params(), act, d)
  {
    if d < k - 1 { CloseValueAt(blk, act, k - 1, d); }
  }

  lemma ExtendedCpPoint(blk: CpBlock, w: seq<int>, act: Activity, x: seq<int>)
    requires blk.Ok() && CpFixes(blk, w, act) && x == w + CpValues(blk, act)
    ensures CpPoint(blk, x) && CpAct(blk, x) == act
  {
    forall d | 0 <= d < blk.Days()
      ensures BinaryVar(x, blk.active[d].index) && LitHolds(blk.active[d], x) == act[d]
    {
      assert BinaryVar(w, blk.active[d].index);
    }
  }

  lemma ExtendedClose(blk: CpBlock, w: seq<int>, act: Activity, x: seq<int>, d: nat)
    requires blk.Ok() && CpFixes(blk, w, act) && x == w + CpValues(blk, act) && 0 < d < blk.Days()
    ensures x[blk.CloseVar(d)] == if Closes(act, d) then 1 else 0
    ensures x[blk.PenaltyVar(d)] == Charge(blk.Params(), act, d)
  {
    CloseValueAt(blk, act, |act|, d);
    assert x[blk.CloseVar(d)] == CpValues(blk, act)[|act| + 2 * (d - 1)] == CloseValues(blk, act, |act|)[2 * (d - 1)];
    assert x[blk.PenaltyVar(d)] == CpValues(blk, act)[|act| + 2 * (d - 1) + 1] ==
      CloseValues(blk, act, |act|)[2 * (d - 1) + 1];
  }

  ghost predicate InAll(ds: seq<(int, int)>, w: seq<int>) {
    |ds| == |w| && forall i | 0 <= i < |ds| :: ds[i].0 <= w[i] <= ds[i].1
  }

  lemma {:induction false} CloseValuesIn(blk: CpBlock, act: Activity, k: nat)
    requires blk.Ok() && |act| == blk.Days() && k <= |act| && blk.b.min <= blk.b.max
    ensures InAll(CloseDomains(blk, k), CloseValues(blk, act, k))
  {
    if k > 1 {
      CloseValuesIn(blk, act, k - 1);
      var d, most := k - 1, blk.Params().MaxLength() + 1;
      OpenRunPositive(act, blk.Params().Initial(), d);
      MaxClosedBounds(blk.b, most, OpenRun(act, blk.Params().Initial(), d));
      if Closes(act, d) { OneSided(blk.b, OpenRun(act, blk.Params().Initial(), d)); }
    }
  }

  lemma CpValuesIn(blk: CpBlock, act: Activity)
    requires blk.Ok() && |act| == blk.Days() && blk.b.min <= blk.b.max
    ensures InAll(BlockDomains(blk), CpValues(blk, act))
  {
    var n, most := |act|, blk.Params().MaxLength();
    CloseValuesIn(blk, act, n);
    forall d | 0 < d <= n ensures OpenRun(act, blk.Params().Initial(), d) <= most {
      OpenRunPositive(act, blk.Params().Initial(), d);
    }
    MaxEndBounds(blk.b, most + 1, OpenRun(act, blk.Params().Initial(), n));
    OverIsMax(blk.b, OpenRun(act, blk.Params().Initial(), n));
    assert InAll(seq(n, i => (0, most)), RunValues(blk, act));
  }

  lemma ExtendedConstraints(blk: CpBlock, w: seq<int>, act: Activity, x: seq<int>)
    requires blk.Ok() && CpFixes(blk, w, act) && x == w + CpValues(blk, act) && blk.b.min <= blk.b.max
    requires CpPoint(blk, x) && CpAct(blk, x) == act
    ensures CpRuns(blk, x, blk.Days()) && CpCloses(blk, x, blk.Days()) && CpEnd(blk, x)
  {
    var n, initial := blk.Days(), blk.Params().Initial();
    forall d | 0 <= d < n ensures CpRun(blk, x, d) {
      assert x[blk.RunVar(d)] == RunValues(blk, act)[d];
    }
    forall d | 0 < d < n ensures CpClose(blk, x, d) {
      ExtendedClose(blk, w, act, x, d);
      OpenRunPositive(act, initial, d);
      if Closes(act, d) { OneSided(blk.b, OpenRun(act, initial, d)); }
    }
    assert x[blk.EndVar()] == MaxCost(OpenRun(act, initial, n), blk.b);
    OpenRunPositive(act, initial, n);
    OverIsMax(blk.b, OpenRun(act, initial, n));
  }

  lemma {:induction false} ExtendedPenaltySum(blk: CpBlock, w: seq<int>, act: Activity, x: seq<int>, k: nat)
    requires blk.Ok() && CpFixes(blk, w, act) && x == w + CpValues(blk, act) && CpPoint(blk, x) && k <= blk.Days()
    ensures CpPenalties(blk, x, k) == ChargeSum(blk.Params(), act, k)
  {
    if k > 1 {
      ExtendedPenaltySum(blk, w, act, x, k - 1);
      ExtendedClose(blk, w, act, x, k - 1);
    }
  }

  lemma ExtendedDomains(blk: CpBlock, w: seq<int>, act: Activity, x: seq<int>)
    requires blk.Ok() && CpFixes(blk, w, act) && x == w + CpValues(blk, act) && blk.b.min <= blk.b.max
    ensures forall i | 0 <= i < |BlockDomains(blk)| :: InDomain(BlockDomains(blk)[i], x, blk.base + i)
  {
    CpValuesIn(blk, act);
    forall i | 0 <= i < |BlockDomains(blk)| ensures InDomain(BlockDomains(blk)[i], x, blk.base + i) {
      assert x[blk.base + i] == CpValues(blk, act)[i];
    }
  }

  // Every activity has a point of the enforced block that costs what the scan charges.
  lemma CpCostAttained(blk: CpBlock, w: seq<int>, act: Activity, x: seq<int>)
    requires blk.Ok() && CpFixes(blk, w, act) && x == w + CpValues(blk, act) && blk.b.min <= blk.b.max
    ensures w <= x && CpFeasible(blk, x) && CpAct(blk, x) == act
    ensures CpCost(blk, x) == RunCost(act, blk.Params().Initial(), blk.b)
  {
    var n := blk.Days();
    ExtendedCpPoint(blk, w, act, x);
    ExtendedDomains(blk, w, act, x);
    ExtendedConstraints(blk, w, act, x);
    CpBlockMeaning(blk, x);
    CpCostParts(blk, x);
    ExtendedPenaltySum(blk, w, act, x, n);
    ClosedSplits(blk.Params(), act, n);
    assert x[blk.EndVar()] == MaxCost(OpenRun(act, blk.Params().Initial(), n), blk.b);
  }

  // ----- agreement -----

  ghost predicate SameRun(mb: Block, cb: CpBlock) {
    && mb.Days() == cb.Days() && mb.historyActive == cb.historyActive
    && mb.historyLength == cb.historyLength && mb.b == cb.b
  }

  // Some completion of the columns, or variables, before the block costs at most the bound.
  ghost predicate MilpWithin(mb: Block, u: seq<real>, act: Activity, bound: int) {
    exists v :: MilpAt(mb, u, act, bound, v)
  }

  ghost predicate MilpAt(mb: Block, u: seq<real>, act: Activity, bound: int, v: seq<real>) {
    u <= v && BlockFeasible(mb, v) && ActOf(mb, v) == act && BlockCost(mb, v) <= bound as real
  }

  ghost predicate CpWithin(cb: CpBlock, w: seq<int>, act: Activity, bound: int) {
    exists x :: CpAt(cb, w, act, bound, x)
  }

  ghost predicate CpAt(cb: CpBlock, w: seq<int>, act: Activity, bound: int, x: seq<int>) {
    w <= x && CpFeasible(cb, x) && CpAct(cb, x) == act && CpCost(cb, x) <= bound
  }

  lemma CpLeast(cb: CpBlock, w: seq<int>, act: Activity, bound: int)
    requires cb.Ok() && cb.b.min <= cb.b.max && CpFixes(cb, w, act)
    ensures CpWithin(cb, w, act, bound) <==> RunCost(act, cb.Params().Initial(), cb.b) <= bound
  {
    var x := w + CpValues(cb, act);
    CpCostAttained(cb, w, act, x);
    if RunCost(act, cb.Params().Initial(), cb.b) <= bound { assert CpAt(cb, w, act, bound, x); }
    if CpWithin(cb, w, act, bound) {
      var y :| CpAt(cb, w, act, bound, y);
      CpCostCovers(cb, y);
    }
  }

  lemma MilpLeast(mb: Block, u: seq<real>, act: Activity, bound: int)
    requires mb.Ok() && mb.b.min <= mb.b.max && Fixes(mb, u, act)
    ensures MilpWithin(mb, u, act, bound) <==> BlockLeast(mb, act) <= bound
  {
    var v := u + BlockValues(mb, act);
    BlockCostAttained(mb, u, act, v);
    if BlockLeast(mb, act) <= bound { assert MilpAt(mb, u, act, bound, v); }
    if MilpWithin(mb, u, act, bound) {
      var y :| MilpAt(mb, u, act, bound, y);
      BlockCostCovers(mb, y);
    }
  }

  ghost predicate BlocksEqual(mb: Block, cb: CpBlock) {
    forall u, w, act, bound | Fixes(mb, u, act) && CpFixes(cb, w, act) ::
      MilpWithin(mb, u, act, bound) <==> CpWithin(cb, w, act, bound)
  }

  // The two blocks have the same least objective for every activity exactly when the
  // minimum fits the longest run (or nothing depends on it).
  lemma BlocksAgree(mb: Block, cb: CpBlock)
    requires mb.Ok() && cb.Ok() && SameRun(mb, cb) && mb.b.min <= mb.b.max && Independent(cb)
    ensures BlocksEqual(mb, cb) <==> Releases(mb)
  {
    if Releases(mb) {
      forall u, w, act, bound | Fixes(mb, u, act) && CpFixes(cb, w, act)
        ensures MilpWithin(mb, u, act, bound) <==> CpWithin(cb, w, act, bound)
      {
        NoLeaks(act, mb.Initial(), mb.b, mb.MaxLength(), mb.Days());
        MilpLeast(mb, u, act, bound);
        CpLeast(cb, w, act, bound);
      }
    } else {
      IdleDisagree(mb, cb);
    }
  }

  // No variable serves two days.
  ghost predicate Independent(cb: CpBlock) {
    forall d, e | 0 <= d < cb.Days() && 0 <= e < cb.Days() && cb.active[d].index == cb.active[e].index :: d == e
  }

  ghost predicate NegatedSomewhere(cb: CpBlock, i: nat) {
    exists d :: 0 <= d < cb.Days() && cb.active[d] == Lit(i, true)
  }

  ghost function IdleVars(cb: CpBlock): (w: seq<int>)
    ensures |w| == cb.base && forall i | 0 <= i < |w| :: w[i] == if NegatedSomewhere(cb, i) then 1 else 0
  {
    seq(cb.base, i requires 0 <= i < cb.base => if NegatedSomewhere(cb, i) then 1 else 0)
  }

  lemma IdleLiteral(cb: CpBlock, d: nat)
    requires cb.Ok() && Independent(cb) && d < cb.Days()
    ensures BinaryVar(IdleVars(cb), cb.active[d].index) && !LitHolds(cb.active[d], IdleVars(cb))
  {
    var l := cb.active[d];
    assert NegatedSomewhere(cb, l.index) <==> l.negated;
  }

  lemma IdleFixed(cb: CpBlock, act: Activity)
    requires cb.Ok() && Independent(cb) && |act| == cb.Days() && Idle(act)
    ensures CpFixes(cb, IdleVars(cb), act)
  {
    forall d | 0 <= d < cb.Days() ensures BinaryVar(IdleVars(cb), cb.active[d].index) && !LitHolds(cb.active[d], IdleVars(cb)) {
      IdleLiteral(cb, d);
    }
  }

  lemma IdleDisagree(mb: Block, cb: CpBlock)
    requires mb.Ok() && cb.Ok() && SameRun(mb, cb) && mb.b.min <= mb.b.max && !Releases(mb)
    requires Independent(cb)
    ensures !BlocksEqual(mb, cb)
  {
    var u, w, act := seq(mb.base, i => 0.0), IdleVars(cb), seq(mb.Days(), i => false);
    var bound := RunCost(act, mb.Initial(), mb.b);
    assert Fixes(mb, u, act);
    IdleFixed(cb, act);
    CpLeast(cb, w, act, bound);
    IdleExcess(mb, act);
    MilpLeast(mb, u, act, bound);
    assert CpWithin(cb, w, act, bound) && !MilpWithin(mb, u, act, bound);
  }
}
