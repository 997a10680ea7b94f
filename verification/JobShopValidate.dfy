// The schedule validator, step by step, against the declarative notion of acceptance.
module JobShopValidate {
  import opened Wrappers
  import opened Collections
  import opened Sorting
  import opened JobShop

  // ----- what the dictionaries hold -----

  ghost function Entries(ops: seq<Operation>, k: nat): map<Key, Operation>
    requires k <= |ops|
  {
    if k == 0 then map[] else Entries(ops, k - 1)[ops[k - 1].Id() := ops[k - 1]]
  }

  lemma {:induction false} EntriesMeaning(ops: seq<Operation>, k: nat)
    requires k <= |ops| && DistinctKeys(ops)
    ensures forall i | 0 <= i < k :: ops[i].Id() in Entries(ops, k) && Entries(ops, k)[ops[i].Id()] == ops[i]
    ensures forall key | key in Entries(ops, k) :: exists i :: 0 <= i < k && ops[i].Id() == key
  {
    if k > 0 {
      EntriesMeaning(ops, k - 1);
      assert forall i | 0 <= i < k - 1 :: ops[i].Id() != ops[k - 1].Id();
    }
  }

  function WindowOf(s: Scheduled): Window { Keyed(s.start, s.End(), 0, s.Id()) }

  // Windows of machine m among the first k scheduled operations.
  function WindowsOf(sops: seq<Scheduled>, k: nat, m: int): seq<Window>
    requires k <= |sops|
  {
    if k == 0 then []
    else WindowsOf(sops, k - 1, m) + (if sops[k - 1].machine == m then [WindowOf(sops[k - 1])] else [])
  }

  lemma {:induction false} StartsMeaning(sops: seq<Scheduled>, k: nat)
    requires k <= |sops|
    ensures forall key | key in Starts(sops, k) ::
      exists i :: 0 <= i < k && sops[i].Id() == key && sops[i].start == Starts(sops, k)[key]
    ensures forall i | 0 <= i < k :: sops[i].Id() in Starts(sops, k)
  {
    if k > 0 {
      StartsMeaning(sops, k - 1);
      forall key | key in Starts(sops, k)
        ensures exists i :: 0 <= i < k && sops[i].Id() == key && sops[i].start == Starts(sops, k)[key]
      {
        if key == sops[k - 1].Id() {
          assert sops[k - 1].start == Starts(sops, k)[key];
        } else {
          assert key in Starts(sops, k - 1);
        }
      }
    }
  }

  lemma StartOfDistinct(sops: seq<Scheduled>, i: nat)
    requires forall a, b | 0 <= a < |sops| && 0 <= b < |sops| && sops[a].Id() == sops[b].Id() :: a == b
    requires i < |sops|
    ensures sops[i].Id() in Starts(sops, |sops|) && Starts(sops, |sops|)[sops[i].Id()] == sops[i].start
  {
    StartsMeaning(sops, |sops|);
  }

  // ----- machine windows -----

  ghost predicate ApartFrom(sops: seq<Scheduled>, k: nat, m: int, s: Scheduled)
    requires k <= |sops|
  {
    forall i | 0 <= i < k && sops[i].machine == m :: Apart(sops[i], s)
  }

  lemma {:induction false} WindowsApartFrom(sops: seq<Scheduled>, k: nat, m: int, s: Scheduled)
    requires k <= |sops|
    ensures AllDisjoint(WindowOf(s), WindowsOf(sops, k, m)) <==> ApartFrom(sops, k, m, s)
  {
    if k > 0 {
      WindowsApartFrom(sops, k - 1, m, s);
      assert WindowsOf(sops, k - 1, m) + [] == WindowsOf(sops, k - 1, m);
      if sops[k - 1].machine == m { AllDisjointSnoc(WindowOf(s), WindowsOf(sops, k - 1, m), WindowOf(sops[k - 1])); }
    }
  }

  lemma AllDisjointSnoc(x: Window, s: seq<Window>, y: Window)
    ensures AllDisjoint(x, s + [y]) <==> AllDisjoint(x, s) && Disjoint(x, y)
  {
    var t := s + [y];
    if AllDisjoint(x, t) {
      assert Disjoint(x, t[|s|]);
      forall i | 0 <= i < |s| ensures Disjoint(x, s[i]) {
        assert Disjoint(x, t[i]);
      }
    }
  }

  ghost predicate MachineApart(sops: seq<Scheduled>, k: nat, m: int)
    requires k <= |sops|
  {
    forall i, l | 0 <= i < l < k && sops[i].machine == m && sops[l].machine == m :: Apart(sops[i], sops[l])
  }

  lemma {:induction false} WindowsPairwise(sops: seq<Scheduled>, k: nat, m: int)
    requires k <= |sops|
    ensures Pairwise(WindowsOf(sops, k, m)) <==> MachineApart(sops, k, m)
  {
    if k > 0 {
      WindowsPairwise(sops, k - 1, m);
      assert WindowsOf(sops, k - 1, m) + [] == WindowsOf(sops, k - 1, m);
      if sops[k - 1].machine == m {
        PairwiseSnoc(WindowsOf(sops, k - 1, m), WindowOf(sops[k - 1]));
        WindowsApartFrom(sops, k - 1, m, sops[k - 1]);
      }
    }
  }

  lemma {:induction false} WindowsIntervals(sops: seq<Scheduled>, k: nat, m: int)
    requires k <= |sops| && forall i | 0 <= i < k :: sops[i].duration >= 0
    ensures Intervals(WindowsOf(sops, k, m))
    ensures forall i | 0 <= i < |WindowsOf(sops, k, m)| :: WindowsOf(sops, k, m)[i].minor == 0
  {
    if k > 0 { WindowsIntervals(sops, k - 1, m); }
  }

  // The neighbour test on one machine's sorted windows decides that machine.
  lemma MachineTestExact(sops: seq<Scheduled>, m: int)
    requires forall i | 0 <= i < |sops| :: sops[i].duration >= 0
    ensures Neighbours(Sort(WindowsOf(sops, |sops|, m))) <==> MachineApart(sops, |sops|, m)
  {
    WindowsIntervals(sops, |sops|, m);
    NeighbourTestExact(WindowsOf(sops, |sops|, m));
    WindowsPairwise(sops, |sops|, m);
  }

  lemma MachinesApartByMachine(sops: seq<Scheduled>)
    ensures MachinesApart(sops) <==> forall i | 0 <= i < |sops| :: MachineApart(sops, |sops|, sops[i].machine)
  {
    if forall i | 0 <= i < |sops| :: MachineApart(sops, |sops|, sops[i].machine) {
      forall i, l | 0 <= i < l < |sops| && sops[i].machine == sops[l].machine ensures Apart(sops[i], sops[l]) {
        assert MachineApart(sops, |sops|, sops[i].machine);
      }
    }
  }

  // ----- the phases -----

  ghost predicate GoodBelow(inst: Instance, sops: seq<Scheduled>, k: nat)
    requires k <= |sops|
  {
    && (forall i | 0 <= i < k :: Matches(inst, sops[i]))
    && (forall i, l | 0 <= i < k && 0 <= l < k && sops[i].Id() == sops[l].Id() :: i == l)
  }

  // The windows dictionary after the first k operations, in first-use order of machines.
  ghost predicate WindowTable(sops: seq<Scheduled>, k: nat, table: map<int, seq<Window>>, order: seq<int>)
    requires k <= |sops|
  {
    && (forall m :: Windows(table, m) == WindowsOf(sops, k, m))
    && (forall m :: m in order <==> m in table)
    && (forall i | 0 <= i < k :: sops[i].machine in table)
    && InFirstUse(sops, k, order)
  }

  ghost predicate InFirstUse(sops: seq<Scheduled>, k: nat, order: seq<int>)
    requires k <= |sops|
  {
    NoRepeats(order) && forall p | 0 <= p < |order| :: FirstUsed(sops, k, order, p)
  }

  // Some operation uses machine order[p], and all before it use machines listed earlier.
  ghost predicate FirstUsed(sops: seq<Scheduled>, k: nat, order: seq<int>, p: nat)
    requires k <= |sops| && p < |order|
  {
    exists i :: 0 <= i < k && sops[i].machine == order[p] && forall l | 0 <= l < i :: sops[l].machine in order[..p]
  }

  function Windows(table: map<int, seq<Window>>, m: int): seq<Window> {
    if m in table then table[m] else []
  }

  // Which defect an error reports.
  ghost predicate ErrorHolds(inst: Instance, sops: seq<Scheduled>, e: ValidationError) {
    match e
    case UnknownOperation(key) => !Known(inst, key) && HasKey(sops, key)
    case DuplicateOperation(key) => Duplicated(sops, key)
    case NegativeStart(key) => exists i :: 0 <= i < |sops| && sops[i].Id() == key && sops[i].start < 0
    case Mismatched(key) => Known(inst, key) && exists i :: 0 <= i < |sops| && sops[i].Id() == key && !Matches(inst, sops[i])
    case MissingOperations(missing) => missing != {} && missing == Missing(inst, sops)
    case PrecedenceViolation(job) => Complete(inst, sops) && OutOfOrder(inst, sops, job)
    case MachineOverlap(m) => CompleteInOrder(inst, sops) && !MachineApart(sops, |sops|, m)
  }

  ghost predicate HasKey(sops: seq<Scheduled>, key: Key) {
    exists i :: 0 <= i < |sops| && sops[i].Id() == key
  }

  ghost predicate Duplicated(sops: seq<Scheduled>, key: Key) {
    exists i, l :: 0 <= i < l < |sops| && sops[i].Id() == key && sops[l].Id() == key
  }

  // Keys of the instance no scheduled operation has.
  ghost function Missing(inst: Instance, sops: seq<Scheduled>): set<Key> {
    set i | 0 <= i < |inst.Ops()| && inst.Ops()[i].Id() !in Starts(sops, |sops|) :: inst.Ops()[i].Id()
  }

  ghost predicate OutOfOrder(inst: Instance, sops: seq<Scheduled>, job: int) {
    0 <= job < |inst.jobs| &&
    exists k :: 0 <= k < |inst.jobs[job]| - 1 && !InOrder(inst, Starts(sops, |sops|), job, k)
  }

  ghost predicate CompleteInOrder(inst: Instance, sops: seq<Scheduled>) {
    Complete(inst, sops) && PrecedenceHolds(inst, Starts(sops, |sops|))
  }

  // ----- which defect comes first -----

  // Operation k is the first bad one, and this is the first thing wrong with it.
  ghost predicate FirstBad(inst: Instance, sops: seq<Scheduled>, k: nat, e: ValidationError)
    requires k < |sops|
  {
    var s := sops[k];
    var repeated := exists i :: 0 <= i < k && sops[i].Id() == s.Id();
    GoodBelow(inst, sops, k) &&
    match e
    case UnknownOperation(key) => key == s.Id() && !Known(inst, key)
    case DuplicateOperation(key) => key == s.Id() && Known(inst, key) && repeated
    case NegativeStart(key) => key == s.Id() && Known(inst, key) && !repeated && s.start < 0
    case Mismatched(key) => key == s.Id() && Known(inst, key) && !repeated && s.start >= 0 && !Matches(inst, s)
    case _ => false
  }

  // The machine of operation i overlaps; those used before it do not.
  ghost predicate FirstOverlap(sops: seq<Scheduled>, i: nat, m: int)
    requires i < |sops|
  {
    && sops[i].machine == m && !MachineApart(sops, |sops|, m)
    && forall l | 0 <= l < i :: sops[l].machine != m && MachineApart(sops, |sops|, sops[l].machine)
  }

  // The checks in order: the operations as listed, missing ones, the jobs in order, the machines
  // in the order of their first use.
  ghost predicate ComesFirst(inst: Instance, sops: seq<Scheduled>, e: ValidationError) {
    match e
    case MissingOperations(_) => GoodBelow(inst, sops, |sops|)
    case PrecedenceViolation(job) =>
      && Complete(inst, sops) && job <= |inst.jobs|
      && forall j, k | 0 <= j < job && 0 <= k < |inst.jobs[j]| - 1 :: InOrder(inst, Starts(sops, |sops|), j, k)
    case MachineOverlap(m) => CompleteInOrder(inst, sops) && exists i :: 0 <= i < |sops| && FirstOverlap(sops, i, m)
    case _ => exists k :: 0 <= k < |sops| && FirstBad(inst, sops, k, e)
  }

  lemma MatchedIsKnown(inst: Instance, s: Scheduled)
    requires Matches(inst, s)
    ensures Known(inst, s.Id())
  {
    var l :| 0 <= l < |inst.Ops()| && inst.Ops()[l] == Operation(s.job, s.index, s.machine, s.duration);
    assert inst.Ops()[l].Id() == s.Id();
  }

  // A reported defect is a real one: nothing acceptable is refused.
  lemma ErrorIsNotAccepted(inst: Instance, sops: seq<Scheduled>, e: ValidationError)
    requires ErrorHolds(inst, sops, e)
    ensures !Accepted(inst, sops)
  {
    match e {
      case UnknownOperation(key) =>
        var i :| 0 <= i < |sops| && sops[i].Id() == key;
        if Matches(inst, sops[i]) { MatchedIsKnown(inst, sops[i]); }
      case MissingOperations(missing) =>
        var key :| key in missing;
        var i :| 0 <= i < |inst.Ops()| && inst.Ops()[i].Id() == key && key !in Starts(sops, |sops|);
      case MachineOverlap(m) =>
        var i, l :| 0 <= i < l < |sops| && sops[i].machine == m && sops[l].machine == m && !Apart(sops[i], sops[l]);
      case DuplicateOperation(key) =>
        var i, l :| 0 <= i < l < |sops| && sops[i].Id() == key && sops[l].Id() == key;
      case NegativeStart(_) =>
      case Mismatched(_) =>
      case PrecedenceViolation(_) =>
    }
  }

  method BuildEntries(ops: seq<Operation>) returns (entries: map<Key, Operation>)
    ensures entries == Entries(ops, |ops|)
  {
    entries := map[];
    for k := 0 to |ops|
      invariant entries == Entries(ops, k)
    {
      entries := entries[ops[k].Id() := ops[k]];
    }
  }

  // The checks on one scheduled operation.
  method CheckOperation(inst: Instance, entries: map<Key, Operation>, sops: seq<Scheduled>, k: nat, starts: map<Key, int>)
    returns (r: Option<ValidationError>)
    requires inst.WellFormed() && entries == Entries(inst.Ops(), |inst.Ops()|)
    requires k < |sops| && GoodBelow(inst, sops, k) && starts == Starts(sops, k)
    ensures r.Some? ==> ErrorHolds(inst, sops, r.value) && FirstBad(inst, sops, k, r.value)
    ensures r.None? ==> GoodBelow(inst, sops, k + 1)
  {
    var s := sops[k];
    var key := s.Id();
    KeysDistinct(inst);
    if key !in entries {
      UnknownEntry(inst, key);
      return Some(UnknownOperation(key));
    }
    StartsMeaning(sops, k);
    KnownEntry(inst, s, entries[key]);
    if key in starts {
      return Some(DuplicateOperation(key));
    }
    if s.start < 0 {
      return Some(NegativeStart(key));
    }
    var src := entries[key];
    if s.machine != src.machine || s.duration != src.duration {
      return Some(Mismatched(key));
    }
    return None;
  }

  lemma UnknownEntry(inst: Instance, key: Key)
    requires DistinctKeys(inst.Ops()) && key !in Entries(inst.Ops(), |inst.Ops()|)
    ensures !Known(inst, key)
  {
    EntriesMeaning(inst.Ops(), |inst.Ops()|);
  }

  method FileWindow(sops: seq<Scheduled>, k: nat, windows: map<int, seq<Window>>, order: seq<int>)
    returns (windows': map<int, seq<Window>>, order': seq<int>)
    requires k < |sops| && WindowTable(sops, k, windows, order)
    ensures WindowTable(sops, k + 1, windows', order')
  {
    var m := sops[k].machine;
    TableStep(sops, k, windows, order);
    order' := if m in windows then order else order + [m];
    windows' := windows[m := Windows(windows, m) + [WindowOf(sops[k])]];
  }

  lemma NothingFiled(sops: seq<Scheduled>)
    ensures WindowTable(sops, 0, map[], [])
  {
  }

  method RecordStart(sops: seq<Scheduled>, k: nat, starts: map<Key, int>) returns (starts': map<Key, int>)
    requires k < |sops| && starts == Starts(sops, k)
    ensures starts' == Starts(sops, k + 1)
  {
    starts' := starts[sops[k].Id() := sops[k].start];
  }

  // Per-operation checks; fills the start dictionary and the windows per machine.
  method CheckOperations(inst: Instance, sops: seq<Scheduled>)
    returns (r: Result<(map<Key, int>, map<int, seq<Window>>, seq<int>), ValidationError>)
    requires inst.WellFormed()
    ensures r.Err? ==> ErrorHolds(inst, sops, r.error) && ComesFirst(inst, sops, r.error)
    ensures r.Ok? ==> GoodBelow(inst, sops, |sops|)
    ensures r.Ok? ==> r.value.0 == Starts(sops, |sops|) && WindowTable(sops, |sops|, r.value.1, r.value.2)
  {
    var entries := BuildEntries(inst.Ops());
    var starts: map<Key, int> := map[];
    var windows: map<int, seq<Window>> := map[];
    var order: seq<int> := [];
    NothingFiled(sops);
    for k := 0 to |sops|
      invariant GoodBelow(inst, sops, k)
      invariant starts == Starts(sops, k)
      invariant WindowTable(sops, k, windows, order)
    {
      var error := CheckOperation(inst, entries, sops, k, starts);
      if error.Some? { return Err(error.value); }
      starts := RecordStart(sops, k, starts);
      windows, order := FileWindow(sops, k, windows, order);
    }
    return Ok((starts, windows, order));
  }

  lemma KnownEntry(inst: Instance, s: Scheduled, src: Operation)
    requires inst.WellFormed() && DistinctKeys(inst.Ops())
    requires s.Id() in Entries(inst.Ops(), |inst.Ops()|) && src == Entries(inst.Ops(), |inst.Ops()|)[s.Id()]
    ensures Known(inst, s.Id())
    ensures s.start >= 0 ==> (Matches(inst, s) <==> s.machine == src.machine && s.duration == src.duration)
  {
    var ops := inst.Ops();
    EntriesMeaning(ops, |ops|);
    var i :| 0 <= i < |ops| && ops[i].Id() == s.Id();
    assert ops[i] == src;
    if Matches(inst, s) {
      var l :| 0 <= l < |ops| && ops[l] == Operation(s.job, s.index, s.machine, s.duration);
      assert ops[l].Id() == ops[i].Id();
    }
  }

  // The order grows by a machine used for the first time.
  lemma OrderStep(sops: seq<Scheduled>, k: nat, order: seq<int>, known: bool)
    requires k < |sops| && InFirstUse(sops, k, order)
    requires (known <==> sops[k].machine in order) && forall i | 0 <= i < k :: sops[i].machine in order
    ensures InFirstUse(sops, k + 1, if known then order else order + [sops[k].machine])
  {
    var next := k + 1;
    if known {
      forall p: nat | p < |order| ensures FirstUsed(sops, next, order, p) {
        assert FirstUsed(sops, k, order, p);
      }
    } else {
      var longer := order + [sops[k].machine];
      forall p: nat | p < |longer| ensures FirstUsed(sops, next, longer, p) {
        if p < |order| { assert FirstUsed(sops, k, order, p); }
        assert longer[..p] == if p < |order| then order[..p] else order;
      }
    }
  }

  lemma TableStep(sops: seq<Scheduled>, k: nat, table: map<int, seq<Window>>, order: seq<int>)
    requires k < |sops| && WindowTable(sops, k, table, order)
    ensures var m := sops[k].machine;
      WindowTable(sops, k + 1, table[m := Windows(table, m) + [WindowOf(sops[k])]],
                  if m in table then order else order + [m])
  {
    var m := sops[k].machine;
    var table' := table[m := Windows(table, m) + [WindowOf(sops[k])]];
    forall l ensures Windows(table', l) == WindowsOf(sops, k + 1, l) {
      assert WindowsOf(sops, k, l) + [] == WindowsOf(sops, k, l);
      assert Windows(table, l) == WindowsOf(sops, k, l);
    }
    OrderStep(sops, k, order, m in table);
  }

  method CheckMissing(inst: Instance, sops: seq<Scheduled>, starts: map<Key, int>)
    returns (r: Result<bool, ValidationError>)
    requires inst.WellFormed() && GoodBelow(inst, sops, |sops|) && starts == Starts(sops, |sops|)
    ensures r.Err? ==> ErrorHolds(inst, sops, r.error) && ComesFirst(inst, sops, r.error)
    ensures r.Ok? ==> Complete(inst, sops)
  {
    var ops := inst.Ops();
    var missing := set i | 0 <= i < |ops| && ops[i].Id() !in starts :: ops[i].Id();
    if missing != {} {
      return Err(MissingOperations(missing));
    }
    forall i | 0 <= i < |ops| ensures ops[i].Id() in starts {
      assert ops[i].Id() !in missing;
    }
    return Ok(true);
  }

  method CheckPrecedence(inst: Instance, sops: seq<Scheduled>, starts: map<Key, int>)
    returns (r: Result<bool, ValidationError>)
    requires inst.WellFormed() && Complete(inst, sops) && starts == Starts(sops, |sops|)
    ensures r.Err? ==> ErrorHolds(inst, sops, r.error) && ComesFirst(inst, sops, r.error)
    ensures r.Ok? ==> PrecedenceHolds(inst, starts)
  {
    for j := 0 to |inst.jobs|
      invariant forall i, k | 0 <= i < j && 0 <= k < |inst.jobs[i]| - 1 :: InOrder(inst, starts, i, k)
    {
      var job := inst.jobs[j];
      var k := 0;
      while k + 1 < |job|
        invariant 0 <= k && (k < |job| || job == [])
        invariant forall l | 0 <= l < k :: l + 1 < |job| && InOrder(inst, starts, j, l)
      {
        FlattenAt(inst.jobs, j, k);
        FlattenAt(inst.jobs, j, k + 1);
        if starts[job[k + 1].Id()] < starts[job[k].Id()] + job[k].duration {
          assert !InOrder(inst, starts, j, k);
          return Err(PrecedenceViolation(j));
        }
        k := k + 1;
      }
    }
    return Ok(true);
  }

  method CheckMachines(inst: Instance, sops: seq<Scheduled>, table: map<int, seq<Window>>, order: seq<int>)
    returns (r: Result<bool, ValidationError>)
    requires inst.WellFormed() && CompleteInOrder(inst, sops) && WindowTable(sops, |sops|, table, order)
    ensures r.Err? ==> ErrorHolds(inst, sops, r.error) && ComesFirst(inst, sops, r.error)
    ensures r.Ok? ==> MachinesApart(sops)
  {
    DurationsAreKnown(inst, sops);
    for i := 0 to |order|
      invariant forall l | 0 <= l < i :: MachineApart(sops, |sops|, order[l])
    {
      var m := order[i];
      assert Windows(table, m) == WindowsOf(sops, |sops|, m);
      MachineTestExact(sops, m);
      var windows := Sort(table[m]);
      var k := 0;
      while k + 1 < |windows|
        invariant 0 <= k && (k < |windows| || windows == [])
        invariant forall l | 0 <= l < k :: l + 1 < |windows| && NoOverlap(windows, l)
      {
        if windows[k + 1].major < windows[k].middle {
          assert !NoOverlap(windows, k);
          OverlapIsFirst(sops, table, order, i);
          return Err(MachineOverlap(m));
        }
        k := k + 1;
      }
    }
    MachinesApartByMachine(sops);
    forall i | 0 <= i < |sops| ensures MachineApart(sops, |sops|, sops[i].machine) {
      assert sops[i].machine in order;
    }
    return Ok(true);
  }

  lemma OverlapIsFirst(sops: seq<Scheduled>, table: map<int, seq<Window>>, order: seq<int>, p: nat)
    requires WindowTable(sops, |sops|, table, order) && p < |order| && !MachineApart(sops, |sops|, order[p])
    requires forall l | 0 <= l < p :: MachineApart(sops, |sops|, order[l])
    ensures exists i :: 0 <= i < |sops| && FirstOverlap(sops, i, order[p])
  {
    assert FirstUsed(sops, |sops|, order, p);
    var i :| 0 <= i < |sops| && sops[i].machine == order[p] && forall l | 0 <= l < i :: sops[l].machine in order[..p];
    forall l | 0 <= l < i ensures sops[l].machine != order[p] && MachineApart(sops, |sops|, sops[l].machine) {
      var q :| 0 <= q < p && order[..p][q] == sops[l].machine;
      assert order[q] == sops[l].machine;
    }
    assert FirstOverlap(sops, i, order[p]);
  }

  lemma DurationsAreKnown(inst: Instance, sops: seq<Scheduled>)
    requires inst.WellFormed() && Complete(inst, sops)
    ensures forall i | 0 <= i < |sops| :: sops[i].duration >= 0
  {
    forall i | 0 <= i < |sops| ensures sops[i].duration >= 0 {
      assert Matches(inst, sops[i]);
      var l :| 0 <= l < |inst.Ops()| &&
        inst.Ops()[l] == Operation(sops[i].job, sops[i].index, sops[i].machine, sops[i].duration);
      var j, k := FlatPosition(inst.jobs, l);
      assert inst.OperationOk(j, k);
    }
  }

  // Maximum end over the operations of the instance.
  method Makespan(inst: Instance, sops: seq<Scheduled>, starts: map<Key, int>) returns (m: int)
    requires inst.WellFormed() && Complete(inst, sops) && starts == Starts(sops, |sops|)
    ensures IsMakespan(sops, m)
  {
    var ops := inst.Ops();
    m := starts[ops[0].Id()] + ops[0].duration;
    for i := 1 to |ops|
      invariant forall l | 0 <= l < i :: starts[ops[l].Id()] + ops[l].duration <= m
      invariant exists l :: 0 <= l < i && starts[ops[l].Id()] + ops[l].duration == m
    {
      var end := starts[ops[i].Id()] + ops[i].duration;
      if end > m { m := end; }
    }
    forall i | 0 <= i < |sops| ensures sops[i].End() <= m {
      var l := OperationOf(inst, sops, i);
    }
    var l :| 0 <= l < |ops| && starts[ops[l].Id()] + ops[l].duration == m;
    var i := ScheduledOf(inst, sops, l);
  }

  // Scheduled operations and instance operations correspond.
  lemma OperationOf(inst: Instance, sops: seq<Scheduled>, i: nat) returns (l: nat)
    requires Complete(inst, sops) && i < |sops|
    ensures l < |inst.Ops()| && inst.Ops()[l] == Operation(sops[i].job, sops[i].index, sops[i].machine, sops[i].duration)
    ensures Starts(sops, |sops|)[inst.Ops()[l].Id()] + inst.Ops()[l].duration == sops[i].End()
  {
    assert Matches(inst, sops[i]);
    l :| 0 <= l < |inst.Ops()| &&
      inst.Ops()[l] == Operation(sops[i].job, sops[i].index, sops[i].machine, sops[i].duration);
    StartOfDistinct(sops, i);
  }

  lemma ScheduledOf(inst: Instance, sops: seq<Scheduled>, l: nat) returns (i: nat)
    requires inst.WellFormed() && Complete(inst, sops) && l < |inst.Ops()|
    ensures i < |sops| && inst.Ops()[l] == Operation(sops[i].job, sops[i].index, sops[i].machine, sops[i].duration)
    ensures Starts(sops, |sops|)[inst.Ops()[l].Id()] + inst.Ops()[l].duration == sops[i].End()
  {
    StartsMeaning(sops, |sops|);
    assert inst.Ops()[l].Id() in Starts(sops, |sops|);
    i :| 0 <= i < |sops| && sops[i].Id() == inst.Ops()[l].Id();
    var l' := OperationOf(inst, sops, i);
    KeysDistinct(inst);
    assert inst.Ops()[l'].Id() == inst.Ops()[l].Id();
  }

  method Validate(inst: Instance, sol: Solution) returns (r: Result<int, ValidationError>)
    requires inst.WellFormed()
    ensures r.Ok? <==> Accepted(inst, sol.operations)
    ensures r.Ok? ==> IsMakespan(sol.operations, r.value)
    ensures r.Err? ==> ErrorHolds(inst, sol.operations, r.error) && ComesFirst(inst, sol.operations, r.error)
  {
    var sops := sol.operations;
    var checked := CheckOperations(inst, sops);
    if checked.Err? { ErrorIsNotAccepted(inst, sops, checked.error); return Err(checked.error); }
    var (starts, windows, order) := checked.value;
    var complete := CheckMissing(inst, sops, starts);
    if complete.Err? { ErrorIsNotAccepted(inst, sops, complete.error); return Err(complete.error); }
    var ordered := CheckPrecedence(inst, sops, starts);
    if ordered.Err? { ErrorIsNotAccepted(inst, sops, ordered.error); return Err(ordered.error); }
    var apart := CheckMachines(inst, sops, windows, order);
    if apart.Err? { ErrorIsNotAccepted(inst, sops, apart.error); return Err(apart.error); }
    var m := Makespan(inst, sops, starts);
    return Ok(m);
  }
}
