// The assignment rules the solvers are given up front: candidate nurses, day capacity keys,
// and the day-bucketed conflict lists that stand for the pairwise succession rule.
module RosterConflicts {
  import opened Wrappers
  import opened Collections
  import opened RosterModel
  import opened RosterSlots
  import opened RosterParity

  // ----- candidates -----

  predicate SuccessorAllowed(inst: Instance, previous: Option<nat>, current: nat) {
    previous.None? || !Forbids(inst, previous.value, current)
  }

  predicate IsCandidate(inst: Instance, s: Slot, n: nat)
    requires n < |inst.nurses| == |inst.history|
  {
    s.skill in inst.nurses[n].skills &&
    (s.GlobalDay() != 0 || SuccessorAllowed(inst, inst.history[n].lastType, s.shiftType))
  }

  method Candidates(inst: Instance, s: Slot) returns (ns: seq<nat>)
    requires |inst.history| == |inst.nurses|
    ensures forall n: nat :: n in ns <==> n < |inst.nurses| && IsCandidate(inst, s, n)
    ensures forall i, j | 0 <= i < j < |ns| :: ns[i] < ns[j]
  {
    ns := [];
    for n := 0 to |inst.nurses|
      invariant forall m: nat :: m in ns <==> m < n && IsCandidate(inst, s, m)
      invariant forall i, j | 0 <= i < j < |ns| :: ns[i] < ns[j]
      invariant forall i | 0 <= i < |ns| :: ns[i] < n
    {
      if IsCandidate(inst, s, n) { ns := ns + [n]; }
    }
  }

  // ----- capacity -----

  function CapacityKey(n: nat, g: nat, totalDays: nat): nat { n * totalDays + g }

  // Keys collide exactly for the same nurse on the same day.
  lemma CapacityKeyExact(n: nat, g: nat, m: nat, h: nat, totalDays: nat)
    requires g < totalDays && h < totalDays
    ensures CapacityKey(n, g, totalDays) == CapacityKey(m, h, totalDays) <==> n == m && g == h
  {
    if n < m { Spread(n, m, totalDays); }
    if m < n { Spread(m, n, totalDays); }
  }

  lemma Spread(n: nat, m: nat, days: nat)
    requires n < m
    ensures n * days + days <= m * days
  {
    assert (n + 1) * days == n * days + days;
    Scaled(n + 1, m, days);
  }

  lemma Scaled(a: nat, b: nat, days: nat)
    requires a <= b
    ensures a * days <= b * days
  {
  }

  // ----- the pairwise rule -----

  // Whether two shifts may be given to nurses m and n, as the Rust adapter decides it.
  predicate AssignmentRule(shifts: seq<Shift>, i: nat, m: nat, j: nat, n: nat) {
    if m != n then true
    else if i >= |shifts| || j >= |shifts| then false
    else if shifts[i].slot.GlobalDay() + 1 == shifts[j].slot.GlobalDay() then
      shifts[i].slot.shiftType !in shifts[j].forbiddenPredecessors
    else if shifts[j].slot.GlobalDay() + 1 == shifts[i].slot.GlobalDay() then
      shifts[j].slot.shiftType !in shifts[i].forbiddenPredecessors
    else true
  }

  ghost predicate Conflict(shifts: seq<Shift>, i: nat, j: nat) {
    !AssignmentRule(shifts, i, 0, j, 0)
  }

  // ----- the conflict index -----

  // Slots of each day, in order.
  ghost predicate Bucketed(slots: seq<Slot>, k: nat, byDay: map<nat, seq<nat>>)
    requires k <= |slots|
  {
    forall g: nat :: BucketOk(slots, k, byDay, g)
  }

  ghost predicate BucketOk(slots: seq<Slot>, k: nat, byDay: map<nat, seq<nat>>, g: nat)
    requires k <= |slots|
  {
    && (forall l | 0 <= l < |Bucket(byDay, g)| :: Bucket(byDay, g)[l] < k && slots[Bucket(byDay, g)[l]].GlobalDay() == g)
    && (forall i | 0 <= i < k && slots[i].GlobalDay() == g :: i in Bucket(byDay, g))
  }

  function Bucket(byDay: map<nat, seq<nat>>, g: nat): seq<nat> {
    if g in byDay then byDay[g] else []
  }

  lemma BucketStep(slots: seq<Slot>, i: nat, byDay: map<nat, seq<nat>>)
    requires i < |slots| && Bucketed(slots, i, byDay)
    ensures Bucketed(slots, i + 1, byDay[slots[i].GlobalDay() := Bucket(byDay, slots[i].GlobalDay()) + [i]])
  {
    var after := byDay[slots[i].GlobalDay() := Bucket(byDay, slots[i].GlobalDay()) + [i]];
    var day, next := slots[i].GlobalDay(), i + 1;
    forall g: nat ensures BucketOk(slots, next, after, g) {
      assert BucketOk(slots, i, byDay, g);
      assert Bucket(after, g) == if g == day then Bucket(byDay, g) + [i] else Bucket(byDay, g);
    }
  }

  method BucketByDay(slots: seq<Slot>) returns (byDay: map<nat, seq<nat>>)
    ensures Bucketed(slots, |slots|, byDay)
  {
    byDay := map[];
    for i := 0 to |slots|
      invariant Bucketed(slots, i, byDay)
    {
      var g := slots[i].GlobalDay();
      BucketStep(slots, i, byDay);
      byDay := byDay[g := Bucket(byDay, g) + [i]];
    }
  }

  // j's predecessors forbid i the day before.
  ghost predicate Precedes(shifts: seq<Shift>, i: nat, j: nat) {
    && i < |shifts| && j < |shifts| && shifts[i].slot.GlobalDay() + 1 == shifts[j].slot.GlobalDay()
    && shifts[i].slot.shiftType in shifts[j].forbiddenPredecessors
  }

  // Conflicts found with the first k shifts on the right.
  ghost predicate IndexedTo(shifts: seq<Shift>, k: nat, conflicts: seq<set<nat>>) {
    |conflicts| == |shifts| && forall i: nat, j: nat | i < |shifts| ::
      j in conflicts[i] <==> (Precedes(shifts, i, j) && j < k) || (Precedes(shifts, j, i) && i < k)
  }

  // Conflicts so far, with the first l entries of the bucket before right done.
  ghost predicate IndexedWith(shifts: seq<Shift>, right: nat, bucket: seq<nat>, l: nat, conflicts: seq<set<nat>>)
    requires l <= |bucket|
  {
    |conflicts| == |shifts| && forall i: nat, j: nat | i < |shifts| ::
      j in conflicts[i] <==>
        (Precedes(shifts, i, j) && (j < right || (j == right && i in bucket[..l]))) ||
        (Precedes(shifts, j, i) && (i < right || (i == right && j in bucket[..l])))
  }

  method IndexBucket(shifts: seq<Shift>, right: nat, bucket: seq<nat>, conflicts: seq<set<nat>>)
    returns (conflicts': seq<set<nat>>)
    requires right < |shifts| && IndexedTo(shifts, right, conflicts)
    requires forall i: nat :: i in bucket <==> i < |shifts| && shifts[i].slot.GlobalDay() + 1 == shifts[right].slot.GlobalDay()
    ensures IndexedTo(shifts, right + 1, conflicts')
  {
    conflicts' := conflicts;
    for l := 0 to |bucket|
      invariant IndexedWith(shifts, right, bucket, l, conflicts')
    {
      var left := bucket[l];
      assert left in bucket;
      assert bucket[..l + 1] == bucket[..l] + [left];
      if shifts[left].slot.shiftType in shifts[right].forbiddenPredecessors {
        conflicts' := conflicts'[left := conflicts'[left] + {right}];
        conflicts' := conflicts'[right := conflicts'[right] + {left}];
      }
    }
    assert bucket[..|bucket|] == bucket;
  }

  ghost predicate ListOk(shifts: seq<Shift>, i: nat, list: seq<nat>) {
    && (forall p, q | 0 <= p < q < |list| :: list[p] < list[q])
    && (forall j: nat :: j in list <==> j < |shifts| && Conflict(shifts, i, j))
  }

  // Sorted lists holding exactly the shifts the pairwise rule forbids on one nurse.
  method SameValueConflicts(shifts: seq<Shift>) returns (lists: seq<seq<nat>>)
    ensures |lists| == |shifts| && forall i | 0 <= i < |shifts| :: ListOk(shifts, i, lists[i])
  {
    var slots := seq(|shifts|, i requires 0 <= i < |shifts| => shifts[i].slot);
    var byDay := BucketByDay(slots);
    var conflicts: seq<set<nat>> := seq(|shifts|, i => {});
    for right := 0 to |shifts|
      invariant IndexedTo(shifts, right, conflicts)
    {
      var g := shifts[right].slot.GlobalDay();
      var bucket := if g == 0 then [] else Bucket(byDay, g - 1);
      if g > 0 { assert BucketOk(slots, |slots|, byDay, g - 1); }
      conflicts := IndexBucket(shifts, right, bucket, conflicts);
    }
    lists := [];
    for i := 0 to |shifts|
      invariant |lists| == i && forall l | 0 <= l < i :: ListOk(shifts, l, lists[l])
    {
      AscendingMembers(conflicts[i], |shifts|);
      ConflictExact(shifts, conflicts, i);
      lists := lists + [Ascending(conflicts[i], |shifts|)];
    }
  }

  lemma ConflictExact(shifts: seq<Shift>, conflicts: seq<set<nat>>, i: nat)
    requires IndexedTo(shifts, |shifts|, conflicts) && i < |shifts|
    ensures forall j: nat | j < |shifts| :: j in conflicts[i] <==> Conflict(shifts, i, j)
  {
    forall j: nat | j < |shifts| ensures j in conflicts[i] <==> Conflict(shifts, i, j) {
    }
  }

  // The lists are symmetric and no shift conflicts with itself.
  lemma ConflictsSymmetric(shifts: seq<Shift>, i: nat, j: nat)
    requires i < |shifts| && j < |shifts|
    ensures Conflict(shifts, i, j) <==> Conflict(shifts, j, i)
    ensures !Conflict(shifts, i, i)
  {
  }

  // ----- what the rules guarantee together -----

  // Drawn from the candidates, every minimum slot filled, no shared capacity key, and no
  // conflicting pair on one nurse.
  ghost predicate RulesKept(inst: Instance, shifts: seq<Shift>, nurses: Assigned)
    requires inst.WellFormed() && PlanOk(inst, shifts) && |shifts| == |nurses|
  {
    && (forall i | 0 <= i < |shifts| :: nurses[i].None? ==> !shifts[i].slot.isMinimum)
    && (forall i | 0 <= i < |shifts| && nurses[i].Some? ::
          nurses[i].value < |inst.nurses| && IsCandidate(inst, shifts[i].slot, nurses[i].value))
    && (forall i, j | 0 <= i < j < |shifts| && nurses[i].Some? && nurses[j].Some? :: KeysApart(inst, shifts, nurses, i, j))
    && (forall i, j | 0 <= i < |shifts| && 0 <= j < |shifts| && nurses[i].Some? && nurses[i] == nurses[j] ::
          !Conflict(shifts, i, j))
  }

  ghost predicate KeysApart(inst: Instance, shifts: seq<Shift>, nurses: Assigned, i: nat, j: nat)
    requires i < |shifts| == |nurses| && j < |shifts| && nurses[i].Some? && nurses[j].Some?
  {
    CapacityKey(nurses[i].value, shifts[i].slot.GlobalDay(), inst.TotalDays()) !=
    CapacityKey(nurses[j].value, shifts[j].slot.GlobalDay(), inst.TotalDays())
  }

  lemma PairRules(inst: Instance, shifts: seq<Shift>, nurses: Assigned, i: nat, j: nat)
    requires inst.WellFormed() && PlanOk(inst, shifts) && |shifts| == |nurses| && i < |shifts| && j < |shifts|
    ensures var slots := Slots(Needs(inst));
      && (nurses[i].Some? && nurses[j].Some? ==> (KeysApart(inst, shifts, nurses, i, j) <==> !SameDay(slots, nurses, i, j)))
      && (nurses[i].Some? && nurses[i] == nurses[j] ==>
            (Conflict(shifts, i, j) <==> Follows(inst, slots, nurses, i, j) || Follows(inst, slots, nurses, j, i)))
  {
    SlotInRange(inst, i);
    SlotInRange(inst, j);
    assert FactsOk(inst, shifts[i]) && FactsOk(inst, shifts[j]);
    var s, t := shifts[i].slot, shifts[j].slot;
    GlobalSplit(s, t.week, t.day);
    if nurses[i].Some? && nurses[j].Some? {
      CapacityKeyExact(nurses[i].value, s.GlobalDay(), nurses[j].value, t.GlobalDay(), inst.TotalDays());
    }
  }

  lemma SingleRule(inst: Instance, shifts: seq<Shift>, nurses: Assigned, i: nat)
    requires inst.WellFormed() && PlanOk(inst, shifts) && |shifts| == |nurses| && i < |shifts|
    ensures SlotOk(inst, Slots(Needs(inst))[i], nurses[i]) <==>
      match nurses[i]
      case None => !shifts[i].slot.isMinimum
      case Some(n) => n < |inst.nurses| && IsCandidate(inst, shifts[i].slot, n)
  {
  }

  // Keeping the rules is the same as having no hard violation, so what the solver may
  // assign is what the validator accepts.
  lemma RulesAreHard(inst: Instance, shifts: seq<Shift>, nurses: Assigned)
    requires inst.WellFormed() && PlanOk(inst, shifts) && |shifts| == |nurses|
    ensures RulesKept(inst, shifts, nurses) <==> HardOk(inst, Slots(Needs(inst)), nurses)
  {
    var slots := Slots(Needs(inst));
    forall i, j | 0 <= i < |shifts| && 0 <= j < |shifts|
      ensures nurses[i].Some? && nurses[j].Some? ==> (KeysApart(inst, shifts, nurses, i, j) <==> !SameDay(slots, nurses, i, j))
      ensures nurses[i].Some? && nurses[i] == nurses[j] ==>
        (Conflict(shifts, i, j) <==> Follows(inst, slots, nurses, i, j) || Follows(inst, slots, nurses, j, i))
    {
      PairRules(inst, shifts, nurses, i, j);
    }
    forall i | 0 <= i < |shifts|
      ensures SlotOk(inst, slots[i], nurses[i]) <==>
        match nurses[i]
        case None => !shifts[i].slot.isMinimum
        case Some(n) => n < |inst.nurses| && IsCandidate(inst, shifts[i].slot, n)
    {
      SingleRule(inst, shifts, nurses, i);
    }
  }

  // Hence the validator raises nothing on an assignment that keeps the rules.
  lemma RulesAccepted(inst: Instance, shifts: seq<Shift>, nurses: Assigned)
    requires inst.WellFormed() && PlanOk(inst, shifts) && |shifts| == |nurses| && RulesKept(inst, shifts, nurses)
    ensures Accepted(inst, Extracted(Slots(Needs(inst)), nurses, |inst.weeks|))
  {
    RulesAreHard(inst, shifts, nurses);
    ExtractedAccepted(inst, nurses);
  }
}
