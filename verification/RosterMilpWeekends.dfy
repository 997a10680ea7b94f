// The weekend rows of one nurse: worked and split weekends as minimized envelopes, and the
// cap on worked ones.
module RosterMilpWeekends {
  import opened Milp
  import opened MilpParts
  import opened RosterRuns
  import opened RosterModel
  import opened RosterMilp
  import opened RosterMilpNurse

  // ----- one weekend -----

  function IfComplete(c: Contract, cost: int): int { if c.completeWeekends then cost else 0 }

  ghost predicate WeekHolds(c: Contract, saturday: real, sunday: real, at: nat, v: seq<real>)
    requires at + WeekWidth(c) <= |v|
  {
    && saturday <= v[at] && sunday <= v[at]
    && (c.completeWeekends ==> saturday - sunday <= v[at + 1] && sunday - saturday <= v[at + 1])
  }

  lemma WeekMeaning(l: Layout, n: nat, w: nat, at: nat, v: seq<real>)
    requires NurseOk(l, n) && at + WeekWidth(l.inst.ContractOf(n)) <= |v|
    requires l.CellCol(n, 7 * w + 5) < |v| && l.CellCol(n, 7 * w + 6) < |v|
    ensures RowsHold(WeekRows(l, n, w, at), v) <==>
      WeekHolds(l.inst.ContractOf(n), v[l.CellCol(n, 7 * w + 5)], v[l.CellCol(n, 7 * w + 6)], at, v)
  {
    var saturday, sunday, c := l.CellCol(n, 7 * w + 5), l.CellCol(n, 7 * w + 6), l.inst.ContractOf(n);
    var worked := [Row([(at, -1.0), (saturday, 1.0)], NoBound, At(0.0)), Row([(at, -1.0), (sunday, 1.0)], NoBound, At(0.0))];
    RowTwo((at, -1.0), (saturday, 1.0), NoBound, At(0.0), v);
    RowTwo((at, -1.0), (sunday, 1.0), NoBound, At(0.0), v);
    assert RowsHold(worked, v) <==> RowHolds(worked[0], v) && RowHolds(worked[1], v);
    if c.completeWeekends {
      var split := [Row([(at + 1, -1.0), (saturday, 1.0), (sunday, -1.0)], NoBound, At(0.0)),
                    Row([(at + 1, -1.0), (saturday, -1.0), (sunday, 1.0)], NoBound, At(0.0))];
      RowThree((at + 1, -1.0), (saturday, 1.0), (sunday, -1.0), NoBound, At(0.0), v);
      RowThree((at + 1, -1.0), (saturday, -1.0), (sunday, 1.0), NoBound, At(0.0), v);
      assert RowsHold(split, v) <==> RowHolds(split[0], v) && RowHolds(split[1], v);
      RowsHoldConcat(worked, split, v);
      assert WeekRows(l, n, w, at) == worked + split;
    } else {
      assert WeekRows(l, n, w, at) == worked;
    }
  }

  lemma WeekColumnsCost(l: Layout, n: nat, w: nat, at: nat, v: seq<real>)
    requires NurseOk(l, n) && at + WeekWidth(l.inst.ContractOf(n)) <= |v|
    ensures PartCost(WeekPart(l, n, w, at), at, v) == if l.inst.ContractOf(n).completeWeekends then 30.0 * v[at + 1] else 0.0
  {
    var cols := WeekPart(l, n, w, at).cols;
    assert ObjectiveFrom(cols, v, at, 0) == 0.0;
    assert ObjectiveFrom(cols, v, at, 1) == cols[0].cost * v[at];
  }

  lemma WeekInside(l: Layout, act: Activity, w: nat)
    requires |act| == l.Days() && w < |l.inst.weeks|
    ensures 7 * w + 6 < |act|
  {
  }

  lemma WeekCovers(l: Layout, n: nat, act: Activity, w: nat, at: nat, v: seq<real>)
    requires NurseOk(l, n) && WorkVisible(l, n, act, v) && w < |l.inst.weeks| && PartOk(WeekPart(l, n, w, at), at, v)
    ensures 7 * w + 6 < |act| && at < |v| && v[at] >= Bit(WeekendWorked(act, w))
    ensures PartCost(WeekPart(l, n, w, at), at, v) >=
      IfComplete(l.inst.ContractOf(n), if WeekendSplit(act, w) then 30 else 0) as real
  {
    WeekInside(l, act, w);
    assert WorkDay(l, n, act, v, 7 * w + 5) && WorkDay(l, n, act, v, 7 * w + 6);
    WeekMeaning(l, n, w, at, v);
    WeekColumnsCost(l, n, w, at, v);
    var p := WeekPart(l, n, w, at);
    assert ColOk(p.cols[0], v[at + 0]);
  }

  lemma WeekAttained(l: Layout, n: nat, act: Activity, w: nat, u: seq<real>) returns (v: seq<real>)
    requires NurseOk(l, n) && WorkVisible(l, n, act, u) && w < |l.inst.weeks|
    ensures 7 * w + 6 < |act| && u <= v && |v| == |u| + WeekWidth(l.inst.ContractOf(n))
    ensures PartOk(WeekPart(l, n, w, |u|), |u|, v) && v[|u|] == Bit(WeekendWorked(act, w))
    ensures PartCost(WeekPart(l, n, w, |u|), |u|, v) ==
      IfComplete(l.inst.ContractOf(n), if WeekendSplit(act, w) then 30 else 0) as real
    ensures LooksBack(WeekPart(l, n, w, |u|).rows, |v|)
  {
    WeekInside(l, act, w);
    assert WorkDay(l, n, act, u, 7 * w + 5) && WorkDay(l, n, act, u, 7 * w + 6);
    v := u + [Bit(WeekendWorked(act, w))] +
      (if l.inst.ContractOf(n).completeWeekends then [Bit(WeekendSplit(act, w))] else []);
    WeekMeaning(l, n, w, |u|, v);
    WeekColumnsCost(l, n, w, |u|, v);
  }

  // ----- all weekends -----

  // Worked-weekend columns over the first w weeks.
  ghost function WeekSum(v: seq<real>, from: nat, width: nat, w: nat): real
    requires forall i: nat | i < w :: from + i * width < |v|
  {
    if w == 0 then 0.0 else WeekSum(v, from, width, w - 1) + v[from + (w - 1) * width]
  }

  lemma {:induction false} WeekDot(v: seq<real>, from: nat, width: nat, w: nat)
    requires forall i: nat | i < w :: from + i * width < |v|
    ensures Dot(Terms(WeekendColumns(from, w, width), 1.0), v, w) == WeekSum(v, from, width, w)
  {
    if w > 0 {
      WeekDot(v, from, width, w - 1);
      var es := Terms(WeekendColumns(from, w - 1, width), 1.0);
      assert Terms(WeekendColumns(from, w, width), 1.0) == es + [(from + (w - 1) * width, 1.0)];
      DotSnoc(es, from + (w - 1) * width, 1.0, v);
    }
  }

  lemma Strides(width: nat, i: nat, w: nat)
    requires 0 < width && i < w
    ensures i * width + width <= w * width
  {
    assert (i + 1) * width <= w * width;
    assert (i + 1) * width == i * width + width;
  }

  lemma WeeksInside(c: Contract, from: nat, w: nat, v: seq<real>)
    requires from + w * WeekWidth(c) <= |v|
    ensures forall i: nat | i < w :: from + i * WeekWidth(c) < |v|
  {
    forall i: nat | i < w ensures from + i * WeekWidth(c) < |v| {
      Strides(WeekWidth(c), i, w);
    }
  }

  lemma {:induction false} WeeksCover(l: Layout, n: nat, act: Activity, w: nat, at: nat, v: seq<real>)
    requires NurseOk(l, n) && WorkVisible(l, n, act, v) && w <= |l.inst.weeks| && PartOk(WeeksPart(l, n, w, at), at, v)
    ensures 7 * w <= |act| && at + w * WeekWidth(l.inst.ContractOf(n)) <= |v|
    ensures forall i: nat | i < w :: at + i * WeekWidth(l.inst.ContractOf(n)) < |v|
    ensures WeekSum(v, at, WeekWidth(l.inst.ContractOf(n)), w) >= Weekends(act, w) as real
    ensures PartCost(WeeksPart(l, n, w, at), at, v) >= IfComplete(l.inst.ContractOf(n), 30 * Splits(act, w)) as real
  {
    var c := l.inst.ContractOf(n);
    WeeksInside(c, at, w, v);
    if w > 0 {
      var before, last := WeeksPart(l, n, w - 1, at), WeekPart(l, n, w - 1, at + (w - 1) * WeekWidth(c));
      ThenOk(before, last, at, v);
      ThenCost(before, last, at, v);
      WeeksCover(l, n, act, w - 1, at, v);
      WeekCovers(l, n, act, w - 1, at + (w - 1) * WeekWidth(c), v);
    }
  }

  lemma {:induction false} WeekSumKept(u: seq<real>, v: seq<real>, from: nat, width: nat, w: nat)
    requires u <= v && forall i: nat | i < w :: from + i * width < |u|
    ensures WeekSum(v, from, width, w) == WeekSum(u, from, width, w)
  {
    if w > 0 { WeekSumKept(u, v, from, width, w - 1); }
  }

  // The columns of w weeks behind u show the worked weekends and cost the split ones.
  ghost predicate WeeksAt(l: Layout, n: nat, act: Activity, w: nat, u: seq<real>, v: seq<real>)
    requires NurseOk(l, n)
  {
    var c := l.inst.ContractOf(n);
    && 7 * w <= |act| && u <= v && |v| == |u| + w * WeekWidth(c)
    && (forall i: nat | i < w :: |u| + i * WeekWidth(c) < |v|)
    && PartOk(WeeksPart(l, n, w, |u|), |u|, v) && LooksBack(WeeksPart(l, n, w, |u|).rows, |v|)
    && WeekSum(v, |u|, WeekWidth(c), w) == Weekends(act, w) as real
    && PartCost(WeeksPart(l, n, w, |u|), |u|, v) == IfComplete(c, 30 * Splits(act, w)) as real
  }

  lemma NextWeek(l: Layout, n: nat, act: Activity, w: nat, u: seq<real>, x: seq<real>) returns (v: seq<real>)
    requires NurseOk(l, n) && WorkVisible(l, n, act, u) && w < |l.inst.weeks| && WeeksAt(l, n, act, w, u, x)
    ensures WeeksAt(l, n, act, w + 1, u, v)
  {
    var c := l.inst.ContractOf(n);
    VisibleMore(l, n, act, u, x);
    v := WeekAttained(l, n, act, w, x);
    BothAttained(WeeksPart(l, n, w, |u|), WeekPart(l, n, w, |x|), u, x, v);
    WeekSumKept(x, v, |u|, WeekWidth(c), w);
    assert (w + 1) * WeekWidth(c) == w * WeekWidth(c) + WeekWidth(c);
    WeeksInside(c, |u|, w + 1, v);
  }

  lemma {:induction false} WeeksAttained(l: Layout, n: nat, act: Activity, w: nat, u: seq<real>) returns (v: seq<real>)
    requires NurseOk(l, n) && WorkVisible(l, n, act, u) && w <= |l.inst.weeks|
    ensures WeeksAt(l, n, act, w, u, v)
  {
    if w == 0 {
      v := u;
    } else {
      var x := WeeksAttained(l, n, act, w - 1, u);
      v := NextWeek(l, n, act, w - 1, u, x);
    }
  }

  // ----- the cap -----

  lemma CapMeaning(l: Layout, n: nat, from: nat, at: nat, v: seq<real>)
    requires NurseOk(l, n) && at < |v|
    requires forall i: nat | i < |l.inst.weeks| :: from + i * WeekWidth(l.inst.ContractOf(n)) < |v|
    ensures RowsHold(CapPart(l, n, from, at).rows, v) <==>
      WeekSum(v, from, WeekWidth(l.inst.ContractOf(n)), |l.inst.weeks|) - v[at] <=
        (l.inst.ContractOf(n).maxWeekends - l.inst.history[n].weekends) as real
    ensures PartCost(CapPart(l, n, from, at), at, v) == 30.0 * v[at]
  {
    var p, weeks, width := CapPart(l, n, from, at), |l.inst.weeks|, WeekWidth(l.inst.ContractOf(n));
    WeekDot(v, from, width, weeks);
    DotLead((at, -1.0), Terms(WeekendColumns(from, weeks, width), 1.0), v);
    assert RowsHold(p.rows, v) <==> RowHolds(p.rows[0], v);
    assert ObjectiveFrom(p.cols, v, at, 0) == 0.0;
  }

  lemma {:induction false} WeekendsBound(act: Activity, w: nat)
    requires 7 * w <= |act|
    ensures Weekends(act, w) <= w
  {
    if w > 0 { WeekendsBound(act, w - 1); }
  }

  lemma WeekendCovers(l: Layout, n: nat, act: Activity, at: nat, v: seq<real>)
    requires NurseOk(l, n) && WorkVisible(l, n, act, v) && PartOk(WeekendPart(l, n, at), at, v)
    ensures 7 * |l.inst.weeks| <= |act|
    ensures PartCost(WeekendPart(l, n, at), at, v) >=
      WeekendStage(act, |l.inst.weeks|, l.inst.ContractOf(n), l.inst.history[n]) as real
  {
    var weeks := WeeksPart(l, n, |l.inst.weeks|, at);
    var end := at + |weeks.cols|;
    var cap := CapPart(l, n, at, end);
    ThenOk(weeks, cap, at, v);
    ThenCost(weeks, cap, at, v);
    WeeksCover(l, n, act, |l.inst.weeks|, at, v);
    CapMeaning(l, n, at, end, v);
    assert ColOk(cap.cols[0], v[end + 0]);
  }

  lemma CapAttained(l: Layout, n: nat, from: nat, worked: nat, u: seq<real>) returns (v: seq<real>)
    requires NurseOk(l, n) && RegularContract(l.inst.ContractOf(n)) && worked <= |l.inst.weeks|
    requires forall i: nat | i < |l.inst.weeks| :: from + i * WeekWidth(l.inst.ContractOf(n)) < |u|
    requires WeekSum(u, from, WeekWidth(l.inst.ContractOf(n)), |l.inst.weeks|) == worked as real
    ensures u <= v && |v| == |u| + 1 && PartOk(CapPart(l, n, from, |u|), |u|, v) && LooksBack(CapPart(l, n, from, |u|).rows, |v|)
    ensures PartCost(CapPart(l, n, from, |u|), |u|, v) ==
      WeekendCost(l.inst.history[n].weekends + worked, l.inst.ContractOf(n)) as real
  {
    var c, total := l.inst.ContractOf(n), l.inst.history[n].weekends + worked;
    var over := if total > c.maxWeekends then total - c.maxWeekends else 0;
    v := u + [over as real];
    WeekSumKept(u, v, from, WeekWidth(c), |l.inst.weeks|);
    CapMeaning(l, n, from, |u|, v);
    assert ColOk(CapPart(l, n, from, |u|).cols[0], v[|u| + 0]);
    CapLooksBack(l, n, from, |u|);
  }

  lemma CapLooksBack(l: Layout, n: nat, from: nat, at: nat)
    requires NurseOk(l, n) && forall i: nat | i < |l.inst.weeks| :: from + i * WeekWidth(l.inst.ContractOf(n)) < at
    ensures LooksBack(CapPart(l, n, from, at).rows, at + 1)
  {
  }

  lemma WeekendAttained(l: Layout, n: nat, act: Activity, u: seq<real>) returns (v: seq<real>)
    requires NurseOk(l, n) && WorkVisible(l, n, act, u) && RegularContract(l.inst.ContractOf(n))
    ensures 7 * |l.inst.weeks| <= |act| && u <= v && |v| == |u| + |WeekendPart(l, n, |u|).cols|
    ensures PartOk(WeekendPart(l, n, |u|), |u|, v) && LooksBack(WeekendPart(l, n, |u|).rows, |v|)
    ensures PartCost(WeekendPart(l, n, |u|), |u|, v) ==
      WeekendStage(act, |l.inst.weeks|, l.inst.ContractOf(n), l.inst.history[n]) as real
  {
    var w := WeeksAttained(l, n, act, |l.inst.weeks|, u);
    WeekendsBound(act, |l.inst.weeks|);
    v := CapAttained(l, n, |u|, Weekends(act, |l.inst.weeks|), w);
    BothAttained(WeeksPart(l, n, |l.inst.weeks|, |u|), CapPart(l, n, |u|, |w|), u, w, v);
  }
}
