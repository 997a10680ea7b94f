// Consecutive-day costs of nurse rostering: the day-by-day scan that defines them and the
// fold over maximal runs that the constraint solvers use, with its empty-presence shortcuts.
module RosterRuns {
  // One flag per day of the horizon.
  type Activity = seq<bool>

  datatype Bounds = Bounds(min: int, max: int, weight: int)

  // A run that ended: charged below the minimum and above the maximum.
  function ClosedCost(length: int, b: Bounds): int {
    if length == 0 then 0
    else
      (if length < b.min then b.weight * (b.min - length) else 0) +
      (if length > b.max then b.weight * (length - b.max) else 0)
  }

  // A run still open at the horizon: charged above the maximum only.
  function MaxCost(length: int, b: Bounds): int {
    if length > b.max then b.weight * (length - b.max) else 0
  }

  // ----- the scan -----

  // Length of the run that is open after the first k days; initial days precede day 0.
  ghost function OpenRun(act: Activity, initial: nat, k: nat): nat
    requires k <= |act|
  {
    if k == 0 then initial else if act[k - 1] then OpenRun(act, initial, k - 1) + 1 else 0
  }

  // Cost of the runs that ended within the first k days.
  ghost function Closed(act: Activity, initial: nat, b: Bounds, k: nat): int
    requires k <= |act|
  {
    if k == 0 then 0
    else Closed(act, initial, b, k - 1) + (if act[k - 1] then 0 else ClosedCost(OpenRun(act, initial, k - 1), b))
  }

  // The whole horizon: ended runs, then the run still open.
  ghost function RunCost(act: Activity, initial: nat, b: Bounds): int {
    Closed(act, initial, b, |act|) + MaxCost(OpenRun(act, initial, |act|), b)
  }

  // The validator's loop over the days.
  method Scan(act: Activity, initial: nat, b: Bounds) returns (cost: int)
    ensures cost == RunCost(act, initial, b)
  {
    cost := 0;
    var open := initial;
    for day := 0 to |act|
      invariant open == OpenRun(act, initial, day) && cost == Closed(act, initial, b, day)
    {
      if act[day] {
        open := open + 1;
      } else {
        if open > 0 {
          if open < b.min { cost := cost + b.weight * (b.min - open); }
          if open > b.max { cost := cost + b.weight * (open - b.max); }
        }
        open := 0;
      }
    }
    if open > b.max { cost := cost + b.weight * (open - b.max); }
  }

  // ----- maximal runs -----

  // Days start .. end, both included.
  datatype Run = Run(start: nat, end: nat) {
    function PointCount(): int { end - start + 1 }
  }

  // The maximal runs among the first k days, in order: what the presence index hands out.
  function Runs(act: Activity, k: nat): seq<Run>
    requires k <= |act|
  {
    if k == 0 then []
    else
      var before := Runs(act, k - 1);
      if !act[k - 1] then before
      else if before != [] && before[|before| - 1].end == k - 2 then
        before[..|before| - 1] + [Run(before[|before| - 1].start, k - 1)]
      else before + [Run(k - 1, k - 1)]
  }

  // All days of the run are active and the days beside it are not.
  ghost predicate Maximal(act: Activity, k: nat, r: Run)
    requires k <= |act|
  {
    && r.start <= r.end < k
    && (forall d | r.start <= d <= r.end :: act[d])
    && (r.start > 0 ==> !act[r.start - 1])
    && (r.end + 1 < k ==> !act[r.end + 1])
  }

  ghost predicate Covers(rs: seq<Run>, d: nat) {
    exists i :: 0 <= i < |rs| && rs[i].start <= d <= rs[i].end
  }

  ghost predicate Separate(rs: seq<Run>) {
    forall i | 0 <= i < |rs| - 1 :: Gap(rs, i)
  }

  ghost predicate Gap(rs: seq<Run>, i: nat)
    requires i + 1 < |rs|
  {
    rs[i].end + 1 < rs[i + 1].start
  }

  lemma {:induction false} RunsSpan(act: Activity, k: nat)
    requires k <= |act|
    ensures forall i | 0 <= i < |Runs(act, k)| :: Maximal(act, k, Runs(act, k)[i])
    ensures Separate(Runs(act, k))
    ensures k > 0 && act[k - 1] ==> Runs(act, k) != [] && Runs(act, k)[|Runs(act, k)| - 1].end == k - 1
  {
    if k > 0 {
      RunsSpan(act, k - 1);
      var before, after := Runs(act, k - 1), Runs(act, k);
      if act[k - 1] && before != [] && before[|before| - 1].end == k - 2 {
        RunsExtend(act, k, before, after);
      } else if act[k - 1] {
        RunsStart(act, k, before, after);
      } else {
        forall i | 0 <= i < |after| ensures Maximal(act, k, after[i]) {
          assert Maximal(act, k - 1, before[i]);
        }
      }
    }
  }

  lemma RunsExtend(act: Activity, k: nat, before: seq<Run>, after: seq<Run>)
    requires 0 < k <= |act| && act[k - 1] && before != [] && before[|before| - 1].end == k - 2
    requires (forall i | 0 <= i < |before| :: Maximal(act, k - 1, before[i])) && Separate(before)
    requires after == before[..|before| - 1] + [Run(before[|before| - 1].start, k - 1)]
    ensures (forall i | 0 <= i < |after| :: Maximal(act, k, after[i])) && Separate(after)
  {
    forall i | 0 <= i < |after| ensures Maximal(act, k, after[i]) {
      assert Maximal(act, k - 1, before[i]);
      if i < |after| - 1 { BeforeLast(act, k - 1, before, i); }
    }
    forall i | 0 <= i < |after| - 1 ensures Gap(after, i) {
      assert Gap(before, i);
    }
  }

  lemma RunsStart(act: Activity, k: nat, before: seq<Run>, after: seq<Run>)
    requires 0 < k <= |act| && act[k - 1] && (before != [] ==> before[|before| - 1].end != k - 2)
    requires (forall i | 0 <= i < |before| :: Maximal(act, k - 1, before[i])) && Separate(before)
    requires k > 1 && act[k - 2] ==> before != [] && before[|before| - 1].end == k - 2
    requires after == before + [Run(k - 1, k - 1)]
    ensures (forall i | 0 <= i < |after| :: Maximal(act, k, after[i])) && Separate(after)
  {
    forall i | 0 <= i < |after| ensures Maximal(act, k, after[i]) {
      if i < |before| {
        assert Maximal(act, k - 1, before[i]);
        if i < |before| - 1 { BeforeLast(act, k - 1, before, i); } else { assert before[i].end < k - 2; }
      }
    }
    forall i | 0 <= i < |after| - 1 ensures Gap(after, i) {
      if i < |before| - 1 {
        assert Gap(before, i);
      } else {
        assert Maximal(act, k - 1, before[i]);
      }
    }
  }

  // All runs but the last end well before the horizon.
  lemma BeforeLast(act: Activity, k: nat, rs: seq<Run>, i: nat)
    requires k <= |act| && i < |rs| - 1 && Separate(rs) && forall j | 0 <= j < |rs| :: Maximal(act, k, rs[j])
    ensures rs[i].end + 1 < k && rs[i].end + 1 < rs[i + 1].start
  {
    assert Gap(rs, i) && Maximal(act, k, rs[i + 1]);
  }

  // The runs cover exactly the active days.
  lemma RunsCover(act: Activity, k: nat, d: nat)
    requires d < k <= |act|
    ensures act[d] <==> Covers(Runs(act, k), d)
  {
    RunsSpan(act, k);
    if Covers(Runs(act, k), d) {
      var i :| 0 <= i < |Runs(act, k)| && Runs(act, k)[i].start <= d <= Runs(act, k)[i].end;
      assert Maximal(act, k, Runs(act, k)[i]);
    } else if act[d] {
      RunsCoverActive(act, k, d);
    }
  }

  lemma {:induction false} RunsCoverActive(act: Activity, k: nat, d: nat)
    requires d < k <= |act| && act[d]
    ensures Covers(Runs(act, k), d)
  {
    RunsSpan(act, k);
    var after := Runs(act, k);
    if d == k - 1 {
      assert Maximal(act, k, after[|after| - 1]);
    } else {
      var before := Runs(act, k - 1);
      RunsCoverActive(act, k - 1, d);
      var i :| 0 <= i < |before| && before[i].start <= d <= before[i].end;
      assert after[i].start == before[i].start && after[i].end >= before[i].end;
    }
  }

  ghost predicate Idle(act: Activity) {
    forall d | 0 <= d < |act| :: !act[d]
  }

  // ----- the fold over runs -----

  lemma {:induction false} ScanInactive(act: Activity, initial: nat, b: Bounds, from: nat, to: nat)
    requires from < to <= |act| && forall d | from <= d < to :: !act[d]
    ensures OpenRun(act, initial, to) == 0
    ensures Closed(act, initial, b, to) == Closed(act, initial, b, from) + ClosedCost(OpenRun(act, initial, from), b)
  {
    if from + 1 < to { ScanInactive(act, initial, b, from, to - 1); }
  }

  lemma {:induction false} ScanActive(act: Activity, initial: nat, b: Bounds, from: nat, to: nat)
    requires from <= to <= |act| && forall d | from <= d < to :: act[d]
    ensures OpenRun(act, initial, to) == OpenRun(act, initial, from) + (to - from)
    ensures Closed(act, initial, b, to) == Closed(act, initial, b, from)
  {
    if from < to { ScanActive(act, initial, b, from, to - 1); }
  }

  // Cost charged after i runs, up to the idle day that ends run i - 1.
  ghost predicate FoldState(act: Activity, initial: nat, b: Bounds, rs: seq<Run>, i: nat, cost: int)
    requires i <= |rs|
  {
    var n := |act|;
    if i == 0 then cost == 0
    else if rs[i - 1].end + 1 < n then
      rs[i - 1].end + 2 <= n && cost == Closed(act, initial, b, rs[i - 1].end + 2) &&
      OpenRun(act, initial, rs[i - 1].end + 2) == 0
    else cost == RunCost(act, initial, b)
  }

  // The scan over an idle stretch, the run after it, and the day that ends the run.
  lemma ScanRun(act: Activity, initial: nat, b: Bounds, from: nat, r: Run, open: nat, cost: int)
    requires RunFrom(act, from, r)
    requires OpenRun(act, initial, from) == open && Closed(act, initial, b, from) == cost
    ensures var length := r.PointCount() + (if from < r.start then 0 else open);
      var early := if from < r.start then ClosedCost(open, b) else 0;
      if r.end + 1 < |act| then
        OpenRun(act, initial, r.end + 2) == 0 && Closed(act, initial, b, r.end + 2) == cost + early + ClosedCost(length, b)
      else RunCost(act, initial, b) == cost + early + MaxCost(length, b)
  {
    if from < r.start { ScanInactive(act, initial, b, from, r.start); }
    ScanActive(act, initial, b, r.start, r.end + 1);
    if r.end + 1 < |act| { ScanInactive(act, initial, b, r.end + 1, r.end + 2); }
  }

  // What the fold adds for run i.
  ghost function StepCost(rs: seq<Run>, i: nat, initial: nat, b: Bounds, n: nat): int
    requires i < |rs|
  {
    var first := i == 0 && initial > 0;
    var length := rs[i].PointCount() + (if first && rs[i].start == 0 then initial else 0);
    (if first && rs[i].start != 0 then ClosedCost(initial, b) else 0) +
    (if rs[i].end + 1 >= n then MaxCost(length, b) else ClosedCost(length, b))
  }

  ghost function FoldSum(rs: seq<Run>, k: nat, initial: nat, b: Bounds, n: nat): int
    requires k <= |rs|
  {
    if k == 0 then 0 else FoldSum(rs, k - 1, initial, b, n) + StepCost(rs, k - 1, initial, b, n)
  }

  // The fold over runs within n days; without runs only the history run is left to close.
  ghost function FoldCost(rs: seq<Run>, initial: nat, b: Bounds, n: nat): int {
    FoldSum(rs, |rs|, initial, b, n) + (if rs == [] && initial > 0 then ClosedCost(initial, b) else 0)
  }

  // Run i, the idle days before it and the day after it.
  ghost predicate RunFrom(act: Activity, from: nat, r: Run) {
    && from <= r.start <= r.end < |act|
    && (forall d | from <= d < r.start :: !act[d]) && (forall d | r.start <= d <= r.end :: act[d])
    && (r.end + 1 < |act| ==> !act[r.end + 1])
  }

  lemma RunFacts(act: Activity, rs: seq<Run>, i: nat)
    requires rs == Runs(act, |act|) && i < |rs|
    ensures RunFrom(act, if i == 0 then 0 else rs[i - 1].end + 2, rs[i])
    ensures i > 0 ==> rs[i - 1].end + 1 < |act|
  {
    RunsSpan(act, |act|);
    assert Maximal(act, |act|, rs[i]);
    if i > 0 { BeforeLast(act, |act|, rs, i - 1); }
    GapInactive(act, i, if i == 0 then 0 else rs[i - 1].end + 2);
  }

  // One run of the fold: the idle days before it, the run, and its end.
  lemma FoldStep(act: Activity, initial: nat, b: Bounds, rs: seq<Run>, i: nat, cost: int)
    requires rs == Runs(act, |act|) && i < |rs| && FoldState(act, initial, b, rs, i, cost)
    ensures FoldState(act, initial, b, rs, i + 1, cost + StepCost(rs, i, initial, b, |act|))
  {
    RunFacts(act, rs, i);
    if i == 0 {
      FirstRun(act, initial, b, rs);
    } else {
      LaterRun(act, initial, b, rs, i, cost);
    }
  }

  lemma FirstRun(act: Activity, initial: nat, b: Bounds, rs: seq<Run>)
    requires rs != [] && RunFrom(act, 0, rs[0])
    ensures FoldState(act, initial, b, rs, 1, StepCost(rs, 0, initial, b, |act|))
  {
    ScanRun(act, initial, b, 0, rs[0], initial, 0);
  }

  lemma LaterRun(act: Activity, initial: nat, b: Bounds, rs: seq<Run>, i: nat, cost: int)
    requires 0 < i < |rs| && rs[i - 1].end + 1 < |act| && RunFrom(act, rs[i - 1].end + 2, rs[i])
    requires FoldState(act, initial, b, rs, i, cost)
    ensures FoldState(act, initial, b, rs, i + 1, cost + StepCost(rs, i, initial, b, |act|))
  {
    ScanRun(act, initial, b, rs[i - 1].end + 2, rs[i], 0, cost);
    assert ClosedCost(0, b) == 0;
  }

  lemma {:induction false} RunsOrdered(act: Activity, rs: seq<Run>, l: nat, i: nat)
    requires l <= i < |rs| && Separate(rs) && forall j | 0 <= j < |rs| :: Maximal(act, |act|, rs[j])
    ensures rs[l].end <= rs[i].end && rs[l].start <= rs[i].start
  {
    if l < i {
      assert Gap(rs, i - 1) && Maximal(act, |act|, rs[i - 1]) && Maximal(act, |act|, rs[i]);
      RunsOrdered(act, rs, l, i - 1);
    }
  }

  // No run covers a day between two of them, or before the first.
  lemma GapUncovered(act: Activity, rs: seq<Run>, i: nat, from: nat, d: nat)
    requires i < |rs| && Separate(rs) && forall j | 0 <= j < |rs| :: Maximal(act, |act|, rs[j])
    requires (if i == 0 then from == 0 else from == rs[i - 1].end + 2) && from <= d < rs[i].start
    ensures !Covers(rs, d)
  {
    if Covers(rs, d) {
      var l :| 0 <= l < |rs| && rs[l].start <= d <= rs[l].end;
      if l < i { RunsOrdered(act, rs, l, i - 1); } else { RunsOrdered(act, rs, i, l); }
    }
  }

  lemma GapInactive(act: Activity, i: nat, from: nat)
    requires var rs := Runs(act, |act|); i < |rs| && (if i == 0 then from == 0 else from == rs[i - 1].end + 2)
    ensures var r := Runs(act, |act|)[i]; from <= r.start < |act| && forall d | from <= d < r.start :: !act[d]
  {
    var rs := Runs(act, |act|);
    RunsSpan(act, |act|);
    assert Maximal(act, |act|, rs[i]);
    if i > 0 { BeforeLast(act, |act|, rs, i - 1); }
    forall d: nat | from <= d < rs[i].start ensures !act[d] {
      GapUncovered(act, rs, i, from, d);
      RunsCover(act, |act|, d);
    }
  }

  // The charge the scan makes for an idle horizon end; only a negative maximum makes it count.
  ghost function IdleEnd(act: Activity, b: Bounds): int {
    if act != [] && !act[|act| - 1] then MaxCost(0, b) else 0
  }

  lemma FoldEnd(act: Activity, initial: nat, b: Bounds, cost: int)
    requires act != [] && Runs(act, |act|) != []
    requires FoldState(act, initial, b, Runs(act, |act|), |Runs(act, |act|)|, cost)
    ensures cost == RunCost(act, initial, b) - IdleEnd(act, b)
  {
    var rs, n := Runs(act, |act|), |act|;
    RunsSpan(act, n);
    var r := rs[|rs| - 1];
    assert Maximal(act, n, r);
    if r.end + 1 < n {
      if r.end + 2 < n {
        forall d: nat | r.end + 2 <= d < n ensures !act[d] {
          RunsCover(act, n, d);
          if Covers(rs, d) {
            var l :| 0 <= l < |rs| && rs[l].start <= d <= rs[l].end;
            RunsOrdered(act, rs, l, |rs| - 1);
          }
        }
        ScanInactive(act, initial, b, r.end + 2, n);
      }
    } else {
      assert act[n - 1];
    }
  }

  lemma NoRuns(act: Activity, initial: nat, b: Bounds)
    requires act != [] && Runs(act, |act|) == []
    ensures RunCost(act, initial, b) == ClosedCost(initial, b) + IdleEnd(act, b)
    ensures forall d | 0 <= d < |act| :: !act[d]
  {
    forall d: nat | d < |act| ensures !act[d] {
      RunsCover(act, |act|, d);
    }
    ScanInactive(act, initial, b, 0, |act|);
  }

  lemma {:induction false} FoldReaches(act: Activity, initial: nat, b: Bounds, rs: seq<Run>, k: nat)
    requires rs == Runs(act, |act|) && k <= |rs|
    ensures FoldState(act, initial, b, rs, k, FoldSum(rs, k, initial, b, |act|))
  {
    if k > 0 {
      FoldReaches(act, initial, b, rs, k - 1);
      FoldStep(act, initial, b, rs, k - 1, FoldSum(rs, k - 1, initial, b, |act|));
    }
  }

  // Over the maximal runs of an activity, the fold is the scan but for an idle end.
  lemma FoldMeaning(act: Activity, initial: nat, b: Bounds)
    requires act != []
    ensures FoldCost(Runs(act, |act|), initial, b, |act|) == RunCost(act, initial, b) - IdleEnd(act, b)
  {
    var rs := Runs(act, |act|);
    if rs == [] {
      NoRuns(act, initial, b);
    } else {
      FoldReaches(act, initial, b, rs, |rs|);
      FoldEnd(act, initial, b, FoldCost(rs, initial, b, |act|));
    }
  }

  // The adapters' fold over maximal runs.
  method RunBoundsCost(runs: seq<Run>, totalDays: nat, initialRun: nat, b: Bounds) returns (cost: int)
    ensures cost == FoldCost(runs, initialRun, b, totalDays)
    ensures forall act: Activity | |act| == totalDays > 0 && runs == Runs(act, totalDays) ::
      cost == RunCost(act, initialRun, b) - IdleEnd(act, b)
  {
    cost := 0;
    var initialConsumed := false;
    for i := 0 to |runs|
      invariant initialConsumed <==> i > 0 && initialRun > 0
      invariant cost == FoldSum(runs, i, initialRun, b, totalDays)
    {
      var length := runs[i].PointCount();
      if !initialConsumed && initialRun > 0 {
        if runs[i].start == 0 {
          length := length + initialRun;
        } else {
          cost := cost + ClosedCost(initialRun, b);
        }
        initialConsumed := true;
      }
      if runs[i].end + 1 >= totalDays {
        cost := cost + MaxCost(length, b);
      } else {
        cost := cost + ClosedCost(length, b);
      }
    }
    if !initialConsumed && initialRun > 0 {
      cost := cost + ClosedCost(initialRun, b);
    }
    forall act: Activity | |act| == totalDays > 0 && runs == Runs(act, totalDays)
      ensures cost == RunCost(act, initialRun, b) - IdleEnd(act, b)
    {
      FoldMeaning(act, initialRun, b);
    }
  }

  lemma FreeOfCharge(b: Bounds)
    ensures MaxCost(0, b) == 0 <==> b.max >= 0 || b.weight == 0
  {
    if b.max < 0 && b.weight != 0 { assert b.weight * (0 - b.max) != 0; }
  }

  // The fold agrees with the scan exactly unless an idle end meets a negative maximum.
  lemma FoldAgreesExactly(act: Activity, initial: nat, b: Bounds)
    requires act != []
    ensures FoldCost(Runs(act, |act|), initial, b, |act|) == RunCost(act, initial, b) <==>
      (act[|act| - 1] || b.max >= 0 || b.weight == 0)
  {
    FoldMeaning(act, initial, b);
    FreeOfCharge(b);
  }

  // ----- days off and empty presence -----

  function Complement(act: Activity): (off: Activity)
    ensures |off| == |act| && forall d | 0 <= d < |act| :: off[d] == !act[d]
  {
    seq(|act|, d requires 0 <= d < |act| => !act[d])
  }

  // A nurse without any assignment: only the history run can be charged for working days.
  lemma EmptyWorkCost(act: Activity, initial: nat, b: Bounds)
    requires act != [] && b.max >= 0 && forall d | 0 <= d < |act| :: !act[d]
    ensures RunCost(act, initial, b) == ClosedCost(initial, b)
  {
    ScanInactive(act, initial, b, 0, |act|);
  }

  // And the days off form one run, open at the horizon.
  lemma EmptyOffCost(act: Activity, initial: nat, b: Bounds)
    requires forall d | 0 <= d < |act| :: !act[d]
    ensures RunCost(Complement(act), initial, b) == MaxCost(initial + |act|, b)
  {
    ScanActive(Complement(act), initial, b, 0, |act|);
  }
}
