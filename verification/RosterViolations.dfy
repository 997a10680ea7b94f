// The hard violations of a slot assignment, counted: vacant minimum slots, missing skills,
// forbidden successions from the history, double bookings, and forbidden successions.
module RosterViolations {
  import opened Collections
  import opened RosterModel
  import opened RosterSlots
  import opened RosterParity

  // ----- single slots, among the first k -----

  ghost predicate IsVacant(slots: seq<Slot>, nurses: Assigned, i: nat)
    requires i < |slots| == |nurses|
  {
    nurses[i].None? && slots[i].isMinimum
  }

  ghost predicate IsUnskilled(inst: Instance, slots: seq<Slot>, nurses: Assigned, i: nat)
    requires i < |slots| == |nurses|
  {
    nurses[i].Some? && nurses[i].value < |inst.nurses| && slots[i].skill !in inst.nurses[nurses[i].value].skills
  }

  ghost predicate IsBadStart(inst: Instance, slots: seq<Slot>, nurses: Assigned, i: nat)
    requires i < |slots| == |nurses|
  {
    && nurses[i].Some? && nurses[i].value < |inst.history| && slots[i].week == slots[i].day == 0
    && inst.history[nurses[i].value].lastType.Some?
    && Forbids(inst, inst.history[nurses[i].value].lastType.value, slots[i].shiftType)
  }

  ghost function VacantSlots(slots: seq<Slot>, nurses: Assigned, k: nat): set<nat>
    requires k <= |slots| == |nurses|
  {
    set i: nat | i < k && IsVacant(slots, nurses, i)
  }

  ghost function UnskilledSlots(inst: Instance, slots: seq<Slot>, nurses: Assigned, k: nat): set<nat>
    requires k <= |slots| == |nurses|
  {
    set i: nat | i < k && IsUnskilled(inst, slots, nurses, i)
  }

  ghost function BadStarts(inst: Instance, slots: seq<Slot>, nurses: Assigned, k: nat): set<nat>
    requires k <= |slots| == |nurses|
  {
    set i: nat | i < k && IsBadStart(inst, slots, nurses, i)
  }

  lemma VacantStep(slots: seq<Slot>, nurses: Assigned, i: nat)
    requires i < |slots| == |nurses|
    ensures |VacantSlots(slots, nurses, i + 1)| ==
      |VacantSlots(slots, nurses, i)| + (if IsVacant(slots, nurses, i) then 1 else 0)
  {
    assert VacantSlots(slots, nurses, i + 1) ==
      VacantSlots(slots, nurses, i) + (if IsVacant(slots, nurses, i) then {i} else {});
  }

  lemma UnskilledStep(inst: Instance, slots: seq<Slot>, nurses: Assigned, i: nat)
    requires i < |slots| == |nurses|
    ensures |UnskilledSlots(inst, slots, nurses, i + 1)| ==
      |UnskilledSlots(inst, slots, nurses, i)| + (if IsUnskilled(inst, slots, nurses, i) then 1 else 0)
  {
    assert UnskilledSlots(inst, slots, nurses, i + 1) ==
      UnskilledSlots(inst, slots, nurses, i) + (if IsUnskilled(inst, slots, nurses, i) then {i} else {});
  }

  lemma BadStartsStep(inst: Instance, slots: seq<Slot>, nurses: Assigned, i: nat)
    requires i < |slots| == |nurses|
    ensures |BadStarts(inst, slots, nurses, i + 1)| ==
      |BadStarts(inst, slots, nurses, i)| + (if IsBadStart(inst, slots, nurses, i) then 1 else 0)
  {
    assert BadStarts(inst, slots, nurses, i + 1) ==
      BadStarts(inst, slots, nurses, i) + (if IsBadStart(inst, slots, nurses, i) then {i} else {});
  }

  // ----- pairs among the first k slots -----

  type Pair = (nat, nat)

  // Two slots of one nurse on one day, each pair once.
  ghost function Doubles(slots: seq<Slot>, nurses: Assigned, k: nat): set<Pair>
    requires k <= |slots| == |nurses|
  {
    set i: nat, j: nat | i < j < k && SameDay(slots, nurses, i, j) :: (i, j)
  }

  // A slot and one the next day whose type may not follow it.
  ghost function Successions(inst: Instance, slots: seq<Slot>, nurses: Assigned, k: nat): set<Pair>
    requires k <= |slots| == |nurses|
  {
    set i: nat, j: nat | i < k && j < k && Follows(inst, slots, nurses, i, j) :: (i, j)
  }

  // The pairs that slot j adds with the first i.
  ghost function DoublesOf(slots: seq<Slot>, nurses: Assigned, j: nat, i: nat): set<Pair>
    requires i <= j < |slots| == |nurses|
  {
    set l: nat | l < i && SameDay(slots, nurses, l, j) :: (l, j)
  }

  ghost function Into(inst: Instance, slots: seq<Slot>, nurses: Assigned, j: nat, i: nat): set<Pair>
    requires i <= j < |slots| == |nurses|
  {
    set l: nat | l < i && Follows(inst, slots, nurses, l, j) :: (l, j)
  }

  ghost function OutOf(inst: Instance, slots: seq<Slot>, nurses: Assigned, j: nat, i: nat): set<Pair>
    requires i <= j < |slots| == |nurses|
  {
    set l: nat | l < i && Follows(inst, slots, nurses, j, l) :: (j, l)
  }

  ghost function RowCount(inst: Instance, slots: seq<Slot>, nurses: Assigned, j: nat, i: nat): nat
    requires i <= j < |slots| == |nurses|
  {
    |DoublesOf(slots, nurses, j, i)| + |Into(inst, slots, nurses, j, i)| + |OutOf(inst, slots, nurses, j, i)|
  }

  // What one pair contributes.
  ghost function PairCount(inst: Instance, slots: seq<Slot>, nurses: Assigned, i: nat, j: nat): nat
    requires i < j < |slots| == |nurses|
  {
    (if SameDay(slots, nurses, i, j) then 1 else 0) +
    (if Follows(inst, slots, nurses, i, j) then 1 else 0) + (if Follows(inst, slots, nurses, j, i) then 1 else 0)
  }

  lemma DoublesOfStep(slots: seq<Slot>, nurses: Assigned, j: nat, i: nat)
    requires i < j < |slots| == |nurses|
    ensures |DoublesOf(slots, nurses, j, i + 1)| ==
      |DoublesOf(slots, nurses, j, i)| + (if SameDay(slots, nurses, i, j) then 1 else 0)
  {
    assert DoublesOf(slots, nurses, j, i + 1) ==
      DoublesOf(slots, nurses, j, i) + (if SameDay(slots, nurses, i, j) then {(i, j)} else {});
    assert (i, j) !in DoublesOf(slots, nurses, j, i);
  }

  lemma IntoStep(inst: Instance, slots: seq<Slot>, nurses: Assigned, j: nat, i: nat)
    requires i < j < |slots| == |nurses|
    ensures |Into(inst, slots, nurses, j, i + 1)| ==
      |Into(inst, slots, nurses, j, i)| + (if Follows(inst, slots, nurses, i, j) then 1 else 0)
  {
    assert Into(inst, slots, nurses, j, i + 1) ==
      Into(inst, slots, nurses, j, i) + (if Follows(inst, slots, nurses, i, j) then {(i, j)} else {});
    assert (i, j) !in Into(inst, slots, nurses, j, i);
  }

  lemma OutOfStep(inst: Instance, slots: seq<Slot>, nurses: Assigned, j: nat, i: nat)
    requires i < j < |slots| == |nurses|
    ensures |OutOf(inst, slots, nurses, j, i + 1)| ==
      |OutOf(inst, slots, nurses, j, i)| + (if Follows(inst, slots, nurses, j, i) then 1 else 0)
  {
    assert OutOf(inst, slots, nurses, j, i + 1) ==
      OutOf(inst, slots, nurses, j, i) + (if Follows(inst, slots, nurses, j, i) then {(j, i)} else {});
    assert (j, i) !in OutOf(inst, slots, nurses, j, i);
  }

  lemma RowStep(inst: Instance, slots: seq<Slot>, nurses: Assigned, j: nat, i: nat)
    requires i < j < |slots| == |nurses|
    ensures RowCount(inst, slots, nurses, j, i + 1) == RowCount(inst, slots, nurses, j, i) + PairCount(inst, slots, nurses, i, j)
  {
    DoublesOfStep(slots, nurses, j, i);
    IntoStep(inst, slots, nurses, j, i);
    OutOfStep(inst, slots, nurses, j, i);
  }

  lemma PairsStep(inst: Instance, slots: seq<Slot>, nurses: Assigned, j: nat)
    requires j < |slots| == |nurses|
    ensures |Doubles(slots, nurses, j + 1)| + |Successions(inst, slots, nurses, j + 1)| ==
      |Doubles(slots, nurses, j)| + |Successions(inst, slots, nurses, j)| + RowCount(inst, slots, nurses, j, j)
  {
    var double, into, out := DoublesOf(slots, nurses, j, j), Into(inst, slots, nurses, j, j), OutOf(inst, slots, nurses, j, j);
    assert Doubles(slots, nurses, j + 1) == Doubles(slots, nurses, j) + double;
    UnionSize(Doubles(slots, nurses, j), double);
    SuccessionsStep(inst, slots, nurses, j);
    UnionSize(Successions(inst, slots, nurses, j), into + out);
    UnionSize(into, out);
  }

  lemma SuccessionsStep(inst: Instance, slots: seq<Slot>, nurses: Assigned, j: nat)
    requires j < |slots| == |nurses|
    ensures Successions(inst, slots, nurses, j + 1) ==
      Successions(inst, slots, nurses, j) + (Into(inst, slots, nurses, j, j) + OutOf(inst, slots, nurses, j, j))
  {
    assert !Follows(inst, slots, nurses, j, j);
  }

  // ----- the count -----

  // 1000 for each vacant minimum slot, 1 for each other violation.
  ghost function HardCount(inst: Instance, slots: seq<Slot>, nurses: Assigned): nat
    requires |slots| == |nurses|
  {
    1000 * |VacantSlots(slots, nurses, |slots|)| + |UnskilledSlots(inst, slots, nurses, |slots|)| +
    |BadStarts(inst, slots, nurses, |slots|)| + |Doubles(slots, nurses, |slots|)| + |Successions(inst, slots, nurses, |slots|)|
  }

  // Nothing is counted exactly when no hard rule is violated.
  lemma HardCountZero(inst: Instance, slots: seq<Slot>, nurses: Assigned)
    requires |inst.history| == |inst.nurses| && |slots| == |nurses|
    requires forall i | 0 <= i < |nurses| && nurses[i].Some? :: nurses[i].value < |inst.nurses|
    ensures HardCount(inst, slots, nurses) == 0 <==> HardOk(inst, slots, nurses)
  {
    var k := |slots|;
    if HardCount(inst, slots, nurses) == 0 {
      forall i: nat | i < k ensures SlotOk(inst, slots[i], nurses[i]) {
        assert i !in VacantSlots(slots, nurses, k) && i !in UnskilledSlots(inst, slots, nurses, k);
        assert i !in BadStarts(inst, slots, nurses, k);
      }
      forall i: nat, j: nat | i < j < k ensures !SameDay(slots, nurses, i, j) {
        assert (i, j) !in Doubles(slots, nurses, k);
      }
      forall i: nat, j: nat | i < k && j < k ensures !Follows(inst, slots, nurses, i, j) {
        assert (i, j) !in Successions(inst, slots, nurses, k);
      }
    }
    if HardOk(inst, slots, nurses) {
      NothingCounted(inst, slots, nurses);
    }
  }

  lemma NothingCounted(inst: Instance, slots: seq<Slot>, nurses: Assigned)
    requires |inst.history| == |inst.nurses| && HardOk(inst, slots, nurses)
    ensures HardCount(inst, slots, nurses) == 0
  {
    var k := |slots|;
    forall i: nat | i < k
      ensures !IsVacant(slots, nurses, i) && !IsUnskilled(inst, slots, nurses, i) && !IsBadStart(inst, slots, nurses, i)
    {
      assert SlotOk(inst, slots[i], nurses[i]);
    }
    assert VacantSlots(slots, nurses, k) == {};
    assert UnskilledSlots(inst, slots, nurses, k) == {} && BadStarts(inst, slots, nurses, k) == {};
    assert Doubles(slots, nurses, k) == {} && Successions(inst, slots, nurses, k) == {};
  }
}
