// Coverage demands as the two mathematical programs read them back from the slots: one per
// week, day, shift type and skill, in ascending order, with the nurses who could serve each.
module RosterCoverage {
  import opened Wrappers
  import opened Collections
  import opened Sorting
  import opened RosterModel
  import opened RosterSlots
  import opened RosterParity
  import opened RosterConflicts

  type DemandKey = (nat, nat, nat, nat)

  function KeyOf(s: Slot): DemandKey { (s.week, s.day, s.shiftType, s.skill) }

  function NeedOf(key: DemandKey, least: int, most: int): Need {
    Need(key.0, key.1, key.2, key.3, least, most)
  }

  // ----- counting slots -----

  ghost function AllBusy(slots: seq<Slot>): (nurses: Assigned)
    ensures |nurses| == |slots| && forall i | 0 <= i < |slots| :: nurses[i] == Some(0)
  {
    seq(|slots|, i => Some(0))
  }

  ghost function MinimumBusy(slots: seq<Slot>): (nurses: Assigned)
    ensures |nurses| == |slots| && forall i | 0 <= i < |slots| :: nurses[i] == if slots[i].isMinimum then Some(0) else None
  {
    seq(|slots|, i requires 0 <= i < |slots| => if slots[i].isMinimum then Some(0) else None)
  }

  // Slots with the key among the first k, and those of them that must be filled.
  ghost function SlotCount(slots: seq<Slot>, key: DemandKey, k: nat): nat
    requires k <= |slots|
  {
    Filled(slots, AllBusy(slots), NeedOf(key, 0, 0), k)
  }

  ghost function MinimumCount(slots: seq<Slot>, key: DemandKey, k: nat): nat
    requires k <= |slots|
  {
    Filled(slots, MinimumBusy(slots), NeedOf(key, 0, 0), k)
  }

  function Lookup(table: map<DemandKey, (nat, nat)>, key: DemandKey): (nat, nat) {
    if key in table then table[key] else (0, 0)
  }

  ghost predicate CountedAt(slots: seq<Slot>, k: nat, table: map<DemandKey, (nat, nat)>, key: DemandKey)
    requires k <= |slots|
  {
    && Lookup(table, key) == (MinimumCount(slots, key, k), SlotCount(slots, key, k))
    && (key in table <==> SlotCount(slots, key, k) > 0)
  }

  ghost predicate Counted(slots: seq<Slot>, k: nat, table: map<DemandKey, (nat, nat)>)
    requires k <= |slots|
  {
    forall key :: CountedAt(slots, k, table, key)
  }

  lemma CountStep(slots: seq<Slot>, k: nat, table: map<DemandKey, (nat, nat)>)
    requires k < |slots| && Counted(slots, k, table)
    ensures var (least, most) := Lookup(table, KeyOf(slots[k]));
      Counted(slots, k + 1, table[KeyOf(slots[k]) := (least + (if slots[k].isMinimum then 1 else 0), most + 1)])
  {
    var (least, most) := Lookup(table, KeyOf(slots[k]));
    var table' := table[KeyOf(slots[k]) := (least + (if slots[k].isMinimum then 1 else 0), most + 1)];
    var next := k + 1;
    forall key ensures CountedAt(slots, next, table', key) {
      assert CountedAt(slots, k, table, key);
      assert SlotServes(slots[k], NeedOf(key, 0, 0)) <==> key == KeyOf(slots[k]);
    }
  }

  method CountSlots(slots: seq<Slot>) returns (table: map<DemandKey, (nat, nat)>, order: seq<DemandKey>)
    ensures Counted(slots, |slots|, table)
    ensures NoRepeats(order) && forall key :: key in order <==> key in table
  {
    table, order := map[], [];
    for k := 0 to |slots|
      invariant Counted(slots, k, table)
      invariant NoRepeats(order) && forall key :: key in order <==> key in table
    {
      var key := KeyOf(slots[k]);
      CountStep(slots, k, table);
      if key !in table { order := order + [key]; }
      var (least, most) := Lookup(table, key);
      table := table[key := (least + (if slots[k].isMinimum then 1 else 0), most + 1)];
    }
  }

  // ----- the demand list -----

  ghost predicate DemandIs(slots: seq<Slot>, d: Need) {
    var key := (d.week, d.day, d.shiftType, d.skill);
    d.minimum == MinimumCount(slots, key, |slots|) && d.optimal == SlotCount(slots, key, |slots|) > 0
  }

  // By day of the horizon, then shift type, then skill.
  ghost predicate Ahead(a: Need, b: Need) {
    if a.week * 7 + a.day != b.week * 7 + b.day then a.week * 7 + a.day < b.week * 7 + b.day
    else if a.shiftType != b.shiftType then a.shiftType < b.shiftType
    else a.skill <= b.skill
  }

  ghost predicate Demanded(ds: seq<Need>, s: Slot) {
    exists i :: 0 <= i < |ds| && SlotServes(s, ds[i])
  }

  // One demand per key that has slots, in ascending order.
  ghost predicate CoverageOf(slots: seq<Slot>, ds: seq<Need>) {
    && (forall i | 0 <= i < |ds| :: DemandIs(slots, ds[i]))
    && KeysDiffer(ds) && (forall i, j | 0 <= i < j < |ds| :: Ahead(ds[i], ds[j]))
    && (forall i | 0 <= i < |slots| :: Demanded(ds, slots[i]))
  }

  method SortKeys(order: seq<DemandKey>) returns (keys: seq<DemandKey>)
    requires NoRepeats(order)
    ensures NoRepeats(keys) && forall key :: key in keys <==> key in order
    ensures forall i, j | 0 <= i < j < |keys| :: Ahead(NeedOf(keys[i], 0, 0), NeedOf(keys[j], 0, 0))
  {
    var keyed := seq(|order|, i requires 0 <= i < |order| =>
      Keyed(order[i].0 * 7 + order[i].1, order[i].2, order[i].3, order[i]));
    var sorted := Sort(keyed);
    keys := Values(sorted);
    SortedKeys(order, keyed, sorted);
  }

  ghost predicate KeyedBy(e: Keyed<DemandKey>) {
    e.major == e.value.0 * 7 + e.value.1 && e.middle == e.value.2 && e.minor == e.value.3
  }

  lemma {:induction false} SortedKeys(order: seq<DemandKey>, keyed: seq<Keyed<DemandKey>>, sorted: seq<Keyed<DemandKey>>)
    requires NoRepeats(order) && |keyed| == |order| && sorted == Sort(keyed)
    requires forall i | 0 <= i < |keyed| :: keyed[i].value == order[i] && KeyedBy(keyed[i])
    ensures NoRepeats(Values(sorted)) && forall key :: key in Values(sorted) <==> key in order
    ensures forall i, j | 0 <= i < j < |sorted| :: Ahead(NeedOf(sorted[i].value, 0, 0), NeedOf(sorted[j].value, 0, 0))
  {
    SortPermutes(keyed);
    SortSorted(keyed);
    PermutationNoRepeats(sorted, keyed);
    forall i | 0 <= i < |sorted| ensures KeyedBy(sorted[i]) && sorted[i].value in order {
      var j := PermutationMember(sorted, keyed, i);
    }
    forall i | 0 <= i < |order| ensures order[i] in Values(sorted) {
      var j := PermutationMember(keyed, sorted, i);
      assert Values(sorted)[j] == order[i];
    }
    forall i, j | 0 <= i < j < |sorted| ensures sorted[i].value != sorted[j].value {
      assert KeyedBy(sorted[i]) && KeyedBy(sorted[j]);
    }
    forall i, j | 0 <= i < j < |sorted| ensures Ahead(NeedOf(sorted[i].value, 0, 0), NeedOf(sorted[j].value, 0, 0)) {
      assert sorted[i].AtMost(sorted[j]) && KeyedBy(sorted[i]) && KeyedBy(sorted[j]);
    }
  }

  method BuildCoverage(slots: seq<Slot>) returns (ds: seq<Need>)
    ensures CoverageOf(slots, ds)
  {
    var table, order := CountSlots(slots);
    var keys := SortKeys(order);
    ds := [];
    for i := 0 to |keys|
      invariant |ds| == i && forall l | 0 <= l < i :: DemandIs(slots, ds[l]) && SameKey(ds[l], NeedOf(keys[l], 0, 0))
    {
      var (least, most) := Lookup(table, keys[i]);
      assert CountedAt(slots, |slots|, table, keys[i]);
      ds := ds + [NeedOf(keys[i], least, most)];
    }
    AllDemanded(slots, table, keys, ds);
  }

  lemma AllDemanded(slots: seq<Slot>, table: map<DemandKey, (nat, nat)>, keys: seq<DemandKey>, ds: seq<Need>)
    requires Counted(slots, |slots|, table) && forall key :: key in keys <==> key in table
    requires |ds| == |keys| && forall l | 0 <= l < |ds| :: SameKey(ds[l], NeedOf(keys[l], 0, 0))
    ensures forall i | 0 <= i < |slots| :: Demanded(ds, slots[i])
  {
    forall i | 0 <= i < |slots| ensures Demanded(ds, slots[i]) {
      var key := KeyOf(slots[i]);
      SlotCounts(slots, i, |slots|);
      assert CountedAt(slots, |slots|, table, key);
      assert key in keys;
      var l :| 0 <= l < |keys| && keys[l] == key;
      assert SlotServes(slots[i], ds[l]);
    }
  }

  lemma {:induction false} SlotCounts(slots: seq<Slot>, i: nat, k: nat)
    requires i < k <= |slots|
    ensures SlotCount(slots, KeyOf(slots[i]), k) > 0
  {
    if i < k - 1 { SlotCounts(slots, i, k - 1); }
  }

  // ----- demands against needs -----

  // What a need asks for once it is counted in slots.
  function DemandFor(need: Need): Need { need.(minimum := if need.minimum > 0 then need.minimum else 0) }

  // Both lists ask for the same nurses.
  ghost predicate CoverageIs(needs: seq<Need>, ds: seq<Need>) {
    && KeysDiffer(ds)
    && (forall i | 0 <= i < |ds| :: FromNeed(needs, ds[i]))
    && (forall j | 0 <= j < |needs| && needs[j].optimal > 0 :: DemandFor(needs[j]) in ds)
  }

  ghost predicate FromNeed(needs: seq<Need>, d: Need) {
    exists j :: 0 <= j < |needs| && needs[j].optimal > 0 && DemandFor(needs[j]) == d
  }

  lemma {:induction false} BlockCounts(slots: seq<Slot>, need: Need, from: nat, k: nat)
    requires from + k <= |slots| && slots[from..from + k] == NeedSlots(need, k)
    ensures BlockFilled(AllBusy(slots), from, k) == k
    ensures BlockFilled(MinimumBusy(slots), from, k) == if need.minimum <= 0 then 0 else if need.minimum < k then need.minimum else k
  {
    if k > 0 {
      BlockPrefix(slots, need, from, k);
      BlockCounts(slots, need, from, k - 1);
    }
  }

  lemma {:induction false} FilledKey(slots: seq<Slot>, nurses: Assigned, a: Need, b: Need, k: nat)
    requires k <= |slots| == |nurses| && SameKey(a, b)
    ensures Filled(slots, nurses, a, k) == Filled(slots, nurses, b, k)
  {
    if k > 0 { FilledKey(slots, nurses, a, b, k - 1); }
  }

  lemma NeedCounts(needs: seq<Need>, j: nat)
    requires KeysDiffer(needs) && j < |needs| && needs[j].minimum <= needs[j].optimal
    ensures var slots, key := Slots(needs), (needs[j].week, needs[j].day, needs[j].shiftType, needs[j].skill);
      && SlotCount(slots, key, |slots|) == Quantity(needs[j])
      && MinimumCount(slots, key, |slots|) == DemandFor(needs[j]).minimum
  {
    var slots, need := Slots(needs), needs[j];
    BlockAt(needs, j);
    BlockCounts(slots, need, Start(needs, j), Quantity(need));
    assert needs[..|needs|] == needs;
    FilledUpTo(needs, AllBusy(slots), j, |needs|);
    FilledUpTo(needs, MinimumBusy(slots), j, |needs|);
    var key := (need.week, need.day, need.shiftType, need.skill);
    FilledKey(slots, AllBusy(slots), NeedOf(key, 0, 0), need, |slots|);
    FilledKey(slots, MinimumBusy(slots), NeedOf(key, 0, 0), need, |slots|);
  }

  lemma {:induction false} SlotWithKey(slots: seq<Slot>, key: DemandKey, k: nat) returns (i: nat)
    requires k <= |slots| && SlotCount(slots, key, k) > 0
    ensures i < k && KeyOf(slots[i]) == key
  {
    if SlotServes(slots[k - 1], NeedOf(key, 0, 0)) {
      i := k - 1;
    } else {
      i := SlotWithKey(slots, key, k - 1);
    }
  }

  lemma {:induction false} DemandFromNeed(needs: seq<Need>, d: Need)
    requires KeysDiffer(needs) && forall j | 0 <= j < |needs| :: needs[j].minimum <= needs[j].optimal
    requires DemandIs(Slots(needs), d)
    ensures FromNeed(needs, d)
  {
    var key := (d.week, d.day, d.shiftType, d.skill);
    var i := SlotWithKey(Slots(needs), key, |Slots(needs)|);
    var j := SlotOrigin(needs, i);
    NeedCounts(needs, j);
    assert DemandFor(needs[j]) == d;
  }

  lemma {:induction false} NeedHasDemand(needs: seq<Need>, ds: seq<Need>, j: nat)
    requires KeysDiffer(needs) && CoverageOf(Slots(needs), ds)
    requires j < |needs| && needs[j].optimal > 0 && needs[j].minimum <= needs[j].optimal
    ensures DemandFor(needs[j]) in ds
  {
    var key := (needs[j].week, needs[j].day, needs[j].shiftType, needs[j].skill);
    NeedCounts(needs, j);
    var i := SlotWithKey(Slots(needs), key, |Slots(needs)|);
    assert Demanded(ds, Slots(needs)[i]);
    var l :| 0 <= l < |ds| && SlotServes(Slots(needs)[i], ds[l]);
    assert DemandIs(Slots(needs), ds[l]);
    assert DemandFor(needs[j]) == ds[l];
  }

  // The demands are the needs that ask for somebody, with the minimum cut off at zero.
  lemma CoverageMeaning(inst: Instance, ds: seq<Need>)
    requires inst.WellFormed() && CoverageOf(Slots(Needs(inst)), ds)
    ensures CoverageIs(Needs(inst), ds)
  {
    var needs := Needs(inst);
    NeedsDiffer(inst, |inst.weeks|);
    forall j | 0 <= j < |needs| ensures needs[j].minimum <= needs[j].optimal {
      NeedOptimal(inst, |inst.weeks|, j);
    }
    forall i | 0 <= i < |ds| ensures FromNeed(needs, ds[i]) {
      DemandFromNeed(needs, ds[i]);
    }
    forall j | 0 <= j < |needs| && needs[j].optimal > 0 ensures DemandFor(needs[j]) in ds {
      NeedHasDemand(needs, ds, j);
    }
  }

  // ----- who may serve -----

  // A demand and a nurse who may serve it.
  datatype Pair = Pair(demand: nat, nurse: nat)

  function DemandSlot(d: Need): Slot { Slot(d.week, d.day, d.shiftType, d.skill, false) }

  function DemandPairs(inst: Instance, ds: seq<Need>, j: nat, n: nat): seq<Pair>
    requires j < |ds| && n <= |inst.nurses| == |inst.history|
  {
    if n == 0 then []
    else if IsCandidate(inst, DemandSlot(ds[j]), n - 1) then DemandPairs(inst, ds, j, n - 1) + [Pair(j, n - 1)]
    else DemandPairs(inst, ds, j, n - 1)
  }

  function AllPairs(inst: Instance, ds: seq<Need>, j: nat): seq<Pair>
    requires j <= |ds| && |inst.nurses| == |inst.history|
  {
    if j == 0 then [] else AllPairs(inst, ds, j - 1) + DemandPairs(inst, ds, j - 1, |inst.nurses|)
  }

  method BuildPairs(inst: Instance, ds: seq<Need>) returns (pairs: seq<Pair>)
    requires |inst.nurses| == |inst.history|
    ensures pairs == AllPairs(inst, ds, |ds|)
  {
    pairs := [];
    for j := 0 to |ds|
      invariant pairs == AllPairs(inst, ds, j)
    {
      ghost var before := pairs;
      for n := 0 to |inst.nurses|
        invariant pairs == before + DemandPairs(inst, ds, j, n)
      {
        if IsCandidate(inst, DemandSlot(ds[j]), n) { pairs := pairs + [Pair(j, n)]; }
      }
    }
  }

  ghost predicate MayServe(inst: Instance, ds: seq<Need>, p: Pair)
    requires |inst.nurses| == |inst.history|
  {
    p.demand < |ds| && p.nurse < |inst.nurses| && IsCandidate(inst, DemandSlot(ds[p.demand]), p.nurse)
  }

  lemma {:induction false} DemandPairsMeaning(inst: Instance, ds: seq<Need>, j: nat, n: nat)
    requires j < |ds| && n <= |inst.nurses| == |inst.history|
    ensures NoRepeats(DemandPairs(inst, ds, j, n))
    ensures forall p :: p in DemandPairs(inst, ds, j, n) <==> MayServe(inst, ds, p) && p.demand == j && p.nurse < n
  {
    if n > 0 { DemandPairsMeaning(inst, ds, j, n - 1); }
  }

  lemma {:induction false} AllPairsMeaning(inst: Instance, ds: seq<Need>, j: nat)
    requires j <= |ds| && |inst.nurses| == |inst.history|
    ensures NoRepeats(AllPairs(inst, ds, j))
    ensures forall p :: p in AllPairs(inst, ds, j) <==> MayServe(inst, ds, p) && p.demand < j
  {
    if j > 0 {
      AllPairsMeaning(inst, ds, j - 1);
      DemandPairsMeaning(inst, ds, j - 1, |inst.nurses|);
      NoRepeatsConcat(AllPairs(inst, ds, j - 1), DemandPairs(inst, ds, j - 1, |inst.nurses|));
    }
  }

}
