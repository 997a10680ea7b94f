// The benchmark matrix: which rows a run must produce, and the tracker that checks off each
// one exactly once.
module HarnessMatrix {
  import opened Wrappers
  import opened Collections

  // ----- keys and their order -----

  datatype Key = Key(benchmark: string, dataset: string, datasetSet: string, instance: string, solver: string, limit: int)

  // Lexicographic comparison: negative, zero or positive.
  function CompareText(a: string, b: string): int {
    if a == [] then (if b == [] then 0 else -1)
    else if b == [] then 1
    else if a[0] != b[0] then a[0] as int - b[0] as int
    else CompareText(a[1..], b[1..])
  }

  lemma {:induction false} CompareTextOrder(a: string, b: string)
    ensures CompareText(a, b) == 0 <==> a == b
    ensures CompareText(a, b) < 0 <==> CompareText(b, a) > 0
  {
    if a != [] && b != [] && a[0] == b[0] {
      CompareTextOrder(a[1..], b[1..]);
      assert a == [a[0]] + a[1..] && b == [b[0]] + b[1..];
    }
  }

  lemma {:induction false} CompareTextTransitive(a: string, b: string, c: string)
    requires CompareText(a, b) <= 0 && CompareText(b, c) <= 0
    ensures CompareText(a, c) <= 0 && (CompareText(a, c) == 0 ==> CompareText(a, b) == 0 && CompareText(b, c) == 0)
  {
    if a != [] && b != [] && c != [] && a[0] == b[0] == c[0] { CompareTextTransitive(a[1..], b[1..], c[1..]); }
  }

  function Fields(k: Key): seq<string> { [k.benchmark, k.dataset, k.datasetSet, k.instance, k.solver] }

  function CompareFields(a: seq<string>, b: seq<string>): int
    requires |a| == |b|
  {
    if a == [] then 0
    else if CompareText(a[0], b[0]) != 0 then CompareText(a[0], b[0])
    else CompareFields(a[1..], b[1..])
  }

  lemma {:induction false} CompareFieldsOrder(a: seq<string>, b: seq<string>)
    requires |a| == |b|
    ensures CompareFields(a, b) == 0 <==> a == b
    ensures CompareFields(a, b) < 0 <==> CompareFields(b, a) > 0
  {
    if a != [] {
      CompareTextOrder(a[0], b[0]);
      CompareTextOrder(b[0], a[0]);
      CompareFieldsOrder(a[1..], b[1..]);
      assert a == [a[0]] + a[1..] && b == [b[0]] + b[1..];
    }
  }

  lemma {:induction false} CompareFieldsTransitive(a: seq<string>, b: seq<string>, c: seq<string>)
    requires |a| == |b| == |c| && CompareFields(a, b) <= 0 && CompareFields(b, c) <= 0
    ensures CompareFields(a, c) <= 0
    ensures CompareFields(a, c) == 0 ==> CompareFields(a, b) == 0 && CompareFields(b, c) == 0
  {
    if a != [] {
      CompareTextTransitive(a[0], b[0], c[0]);
      if CompareText(a[0], b[0]) == 0 && CompareText(b[0], c[0]) == 0 {
        CompareTextOrder(a[0], b[0]);
        CompareTextOrder(b[0], c[0]);
        CompareFieldsTransitive(a[1..], b[1..], c[1..]);
      }
    }
  }

  // The order of keys: field by field, the time limit last.
  predicate Before(a: Key, b: Key) {
    CompareFields(Fields(a), Fields(b)) < 0 || (CompareFields(Fields(a), Fields(b)) == 0 && a.limit < b.limit)
  }

  // Text order: a proper prefix, or smaller at the first character that differs.
  ghost predicate TextLess(a: string, b: string) {
    a < b || exists i :: 0 <= i < |a| && i < |b| && a[..i] == b[..i] && a[i] < b[i]
  }

  lemma {:induction false} CompareTextMeaning(a: string, b: string)
    ensures CompareText(a, b) < 0 <==> TextLess(a, b)
  {
    if a != [] && b != [] && a[0] == b[0] {
      CompareTextMeaning(a[1..], b[1..]);
      TextLessTail(a, b);
    } else if a != [] && b != [] {
      assert a[0] < b[0] ==> a[..0] == b[..0];
    }
  }

  lemma TextLessTail(a: string, b: string)
    requires a != [] && b != [] && a[0] == b[0]
    ensures TextLess(a, b) <==> TextLess(a[1..], b[1..])
  {
    assert a < b <==> a[1..] < b[1..] by {
      assert a == [a[0]] + a[1..] && b == [b[0]] + b[1..];
    }
    if i :| 0 <= i < |a| && i < |b| && a[..i] == b[..i] && a[i] < b[i] {
      assert a[1..][..i - 1] == a[..i][1..] == b[..i][1..] == b[1..][..i - 1];
    }
    if i :| 0 <= i < |a[1..]| && i < |b[1..]| && a[1..][..i] == b[1..][..i] && a[1..][i] < b[1..][i] {
      assert a[..i + 1] == [a[0]] + a[1..][..i] && b[..i + 1] == [b[0]] + b[1..][..i];
    }
  }

  // The first field that differs decides: benchmark, dataset, dataset set, instance, solver by
  // text, then the limit as a number.
  lemma BeforeMeaning(a: Key, b: Key)
    ensures Before(a, b) <==>
      if a.benchmark != b.benchmark then TextLess(a.benchmark, b.benchmark)
      else if a.dataset != b.dataset then TextLess(a.dataset, b.dataset)
      else if a.datasetSet != b.datasetSet then TextLess(a.datasetSet, b.datasetSet)
      else if a.instance != b.instance then TextLess(a.instance, b.instance)
      else if a.solver != b.solver then TextLess(a.solver, b.solver)
      else a.limit < b.limit
  {
    FieldDecides(Fields(a), Fields(b));
    FieldDecides(Fields(a)[1..], Fields(b)[1..]);
    FieldDecides(Fields(a)[2..], Fields(b)[2..]);
    FieldDecides(Fields(a)[3..], Fields(b)[3..]);
    FieldDecides(Fields(a)[4..], Fields(b)[4..]);
    assert Fields(a)[5..] == [] && Fields(b)[5..] == [];
  }

  lemma FieldDecides(a: seq<string>, b: seq<string>)
    requires |a| == |b| && a != []
    ensures CompareFields(a, b) == 0 <==> a[0] == b[0] && CompareFields(a[1..], b[1..]) == 0
    ensures CompareFields(a, b) < 0 <==> if a[0] != b[0] then TextLess(a[0], b[0]) else CompareFields(a[1..], b[1..]) < 0
  {
    CompareTextOrder(a[0], b[0]);
    CompareTextMeaning(a[0], b[0]);
  }

  lemma BeforeTotal(a: Key, b: Key)
    ensures a == b || Before(a, b) || Before(b, a)
    ensures !(Before(a, b) && Before(b, a)) && !Before(a, a)
  {
    CompareFieldsOrder(Fields(a), Fields(b));
    CompareFieldsOrder(Fields(b), Fields(a));
    CompareFieldsOrder(Fields(a), Fields(a));
    if Fields(a) == Fields(b) { FieldsDetermine(a, b); }
  }

  lemma FieldsDetermine(a: Key, b: Key)
    requires Fields(a) == Fields(b)
    ensures a.benchmark == b.benchmark && a.dataset == b.dataset && a.datasetSet == b.datasetSet
    ensures a.instance == b.instance && a.solver == b.solver
  {
    assert Fields(a)[0] == Fields(b)[0] && Fields(a)[1] == Fields(b)[1] && Fields(a)[2] == Fields(b)[2];
    assert Fields(a)[3] == Fields(b)[3] && Fields(a)[4] == Fields(b)[4];
  }

  lemma BeforeTransitive(a: Key, b: Key, c: Key)
    requires Before(a, b) && Before(b, c)
    ensures Before(a, c)
  {
    CompareFieldsTransitive(Fields(a), Fields(b), Fields(c));
  }

  // ----- sorting -----

  ghost predicate StrictlySorted(ks: seq<Key>) {
    forall i, j | 0 <= i < j < |ks| :: Before(ks[i], ks[j])
  }

  function Insert(k: Key, ks: seq<Key>): seq<Key> {
    if ks == [] then [k]
    else if Before(ks[0], k) then [ks[0]] + Insert(k, ks[1..])
    else [k] + ks
  }

  function Sorted(ks: seq<Key>): seq<Key> {
    if ks == [] then [] else Insert(ks[|ks| - 1], Sorted(ks[..|ks| - 1]))
  }

  lemma {:induction false} InsertMembers(k: Key, ks: seq<Key>)
    ensures |Insert(k, ks)| == |ks| + 1 && forall x :: x in Insert(k, ks) <==> x == k || x in ks
  {
    if ks != [] && Before(ks[0], k) {
      InsertMembers(k, ks[1..]);
      assert ks == [ks[0]] + ks[1..];
    }
  }

  lemma {:induction false} InsertSorted(k: Key, ks: seq<Key>)
    requires StrictlySorted(ks) && k !in ks
    ensures StrictlySorted(Insert(k, ks))
  {
    if ks != [] && Before(ks[0], k) {
      InsertSorted(k, ks[1..]);
      InsertMembers(k, ks[1..]);
      var rest := Insert(k, ks[1..]);
      forall j | 0 <= j < |rest| ensures Before(ks[0], rest[j]) {
        assert rest[j] in rest;
        if rest[j] != k {
          var i :| 0 <= i < |ks| - 1 && ks[1..][i] == rest[j];
          assert Before(ks[0], ks[i + 1]);
        }
      }
      SortedCons(ks[0], rest);
    } else {
      forall j | 0 <= j < |ks| ensures Before(k, ks[j]) {
        BeforeTotal(k, ks[0]);
        if j > 0 { BeforeTransitive(k, ks[0], ks[j]); }
      }
      SortedCons(k, ks);
    }
  }

  lemma SortedCons(k: Key, ks: seq<Key>)
    requires StrictlySorted(ks) && forall j | 0 <= j < |ks| :: Before(k, ks[j])
    ensures StrictlySorted([k] + ks)
  {
    var all := [k] + ks;
    forall i, j | 0 <= i < j < |all| ensures Before(all[i], all[j]) {
      if i > 0 { assert Before(ks[i - 1], ks[j - 1]); }
    }
  }

  lemma {:induction false} SortedMeaning(ks: seq<Key>)
    requires NoRepeats(ks)
    ensures StrictlySorted(Sorted(ks)) && |Sorted(ks)| == |ks| && forall x :: x in Sorted(ks) <==> x in ks
  {
    if ks != [] {
      var init, last := ks[..|ks| - 1], ks[|ks| - 1];
      SortedMeaning(init);
      assert last !in init;
      InsertSorted(last, Sorted(init));
      InsertMembers(last, Sorted(init));
      assert ks == init + [last];
    }
  }

  // A strictly sorted list is determined by its members.
  lemma {:induction false} SortedUnique(a: seq<Key>, b: seq<Key>)
    requires StrictlySorted(a) && StrictlySorted(b) && forall x :: x in a <==> x in b
    ensures a == b
  {
    if a == [] {
      HasMember(b);
    } else {
      assert a[0] in b;
      assert b != [] && b[0] in a;
      FirstIsLeast(a, b[0]);
      FirstIsLeast(b, a[0]);
      BeforeTotal(a[0], b[0]);
      TailMembers(a);
      TailMembers(b);
      SortedUnique(a[1..], b[1..]);
      assert a == [a[0]] + a[1..] && b == [b[0]] + b[1..];
    }
  }

  lemma HasMember(b: seq<Key>)
    ensures b == [] || exists k :: k in b
  {
    if b != [] { assert b[0] in b; }
  }

  lemma FirstIsLeast(a: seq<Key>, k: Key)
    requires StrictlySorted(a) && k in a
    ensures a[0] == k || Before(a[0], k)
  {
    var i :| 0 <= i < |a| && a[i] == k;
    if i > 0 { assert Before(a[0], a[i]); }
  }

  lemma TailMembers(a: seq<Key>)
    requires StrictlySorted(a) && a != []
    ensures StrictlySorted(a[1..]) && forall x :: x in a[1..] <==> x in a && x != a[0]
  {
    forall x ensures x in a[1..] <==> x in a && x != a[0] {
      if x in a[1..] {
        var i :| 0 <= i < |a| - 1 && a[1..][i] == x;
        assert Before(a[0], a[i + 1]);
        BeforeTotal(a[0], x);
      }
    }
  }

  // ----- the matrix -----

  datatype Case = Case(dataset: string, datasetSet: string, instance: string)

  datatype Matrix = Matrix(benchmark: string, cases: seq<Case>, solvers: seq<string>, limits: seq<int>, expected: seq<Key>) {
    // What building guarantees.
    ghost predicate Ok() {
      && NoRepeats(cases) && NoRepeats(solvers) && NoRepeats(limits)
      && expected == Sorted(LoopKeys(benchmark, cases, limits, solvers))
    }
  }

  function KeyOf(benchmark: string, c: Case, limit: int, solver: string): Key {
    Key(benchmark, c.dataset, c.datasetSet, c.instance, solver, limit)
  }

  function SolverKeys(benchmark: string, c: Case, limit: int, solvers: seq<string>): (ks: seq<Key>)
    ensures |ks| == |solvers| && forall i | 0 <= i < |ks| :: ks[i] == KeyOf(benchmark, c, limit, solvers[i])
  {
    seq(|solvers|, i requires 0 <= i < |solvers| => KeyOf(benchmark, c, limit, solvers[i]))
  }

  function LimitKeys(benchmark: string, c: Case, limits: seq<int>, solvers: seq<string>): seq<Key> {
    if limits == [] then []
    else LimitKeys(benchmark, c, limits[..|limits| - 1], solvers) +
         SolverKeys(benchmark, c, limits[|limits| - 1], solvers)
  }

  // Keys in loop order: cases, then limits, then solvers.
  function LoopKeys(benchmark: string, cases: seq<Case>, limits: seq<int>, solvers: seq<string>): seq<Key> {
    if cases == [] then []
    else LoopKeys(benchmark, cases[..|cases| - 1], limits, solvers) +
         LimitKeys(benchmark, cases[|cases| - 1], limits, solvers)
  }

  ghost predicate FromLimits(benchmark: string, c: Case, limits: seq<int>, solvers: seq<string>, k: Key) {
    k.limit in limits && k.solver in solvers && k == KeyOf(benchmark, c, k.limit, k.solver)
  }

  lemma {:induction false} LimitKeysMeaning(benchmark: string, c: Case, limits: seq<int>, solvers: seq<string>)
    requires NoRepeats(limits) && NoRepeats(solvers)
    ensures NoRepeats(LimitKeys(benchmark, c, limits, solvers))
    ensures |LimitKeys(benchmark, c, limits, solvers)| == |limits| * |solvers|
    ensures forall k :: k in LimitKeys(benchmark, c, limits, solvers) <==> FromLimits(benchmark, c, limits, solvers, k)
  {
    if limits != [] {
      var init, last := limits[..|limits| - 1], limits[|limits| - 1];
      LimitKeysMeaning(benchmark, c, init, solvers);
      var before, added := LimitKeys(benchmark, c, init, solvers), SolverKeys(benchmark, c, last, solvers);
      assert limits == init + [last] && last !in init;
      forall i, j | 0 <= i < j < |added| ensures added[i] != added[j] {
        assert added[i].solver != added[j].solver;
      }
      NoRepeatsConcat(before, added);
      forall k ensures k in added <==> k.solver in solvers && k == KeyOf(benchmark, c, last, k.solver) {
        if k.solver in solvers && k == KeyOf(benchmark, c, last, k.solver) {
          var i :| 0 <= i < |solvers| && solvers[i] == k.solver;
          assert added[i] == k;
        }
      }
    }
  }

  ghost predicate FromCases(benchmark: string, cases: seq<Case>, limits: seq<int>, solvers: seq<string>, k: Key) {
    Case(k.dataset, k.datasetSet, k.instance) in cases && k.benchmark == benchmark && k.limit in limits && k.solver in solvers
  }

  // The loop visits every combination exactly once.
  lemma {:induction false} LoopKeysMeaning(benchmark: string, cases: seq<Case>, limits: seq<int>, solvers: seq<string>)
    requires NoRepeats(cases) && NoRepeats(limits) && NoRepeats(solvers)
    ensures NoRepeats(LoopKeys(benchmark, cases, limits, solvers))
    ensures |LoopKeys(benchmark, cases, limits, solvers)| == |cases| * (|limits| * |solvers|)
    ensures forall k :: k in LoopKeys(benchmark, cases, limits, solvers) <==> FromCases(benchmark, cases, limits, solvers, k)
  {
    if cases != [] {
      var init, last := cases[..|cases| - 1], cases[|cases| - 1];
      LoopKeysMeaning(benchmark, init, limits, solvers);
      LimitKeysMeaning(benchmark, last, limits, solvers);
      assert cases == init + [last] && last !in init;
      NoRepeatsConcat(LoopKeys(benchmark, init, limits, solvers), LimitKeys(benchmark, last, limits, solvers));
      Distribute(|cases|, |limits| * |solvers|);
    }
  }

  lemma Distribute(n: int, x: int)
    ensures n * x == (n - 1) * x + x
  {
  }

  // Expected keys are strictly sorted, one for every case, limit and solver.
  lemma ExpectedMeaning(m: Matrix)
    requires m.Ok()
    ensures StrictlySorted(m.expected) && |m.expected| == |m.cases| * (|m.limits| * |m.solvers|)
    ensures forall k :: k in m.expected <==> FromCases(m.benchmark, m.cases, m.limits, m.solvers, k)
  {
    LoopKeysMeaning(m.benchmark, m.cases, m.limits, m.solvers);
    SortedMeaning(LoopKeys(m.benchmark, m.cases, m.limits, m.solvers));
  }

  datatype BuildError =
    | NoCases | NoSolvers | NoLimits
    | DuplicateCases(cases: set<Case>)
    | DuplicateSolvers(solvers: set<string>)
    | InvalidLimits(values: seq<int>)
    | DuplicateLimits(limits: set<int>)

  // d holds the values that occur more than once.
  ghost predicate RepeatedIn<T(!new)>(s: seq<T>, d: set<T>) {
    forall x :: x in d <==> multiset(s)[x] > 1
  }

  method Duplicates<T(==,!new)>(s: seq<T>) returns (d: set<T>)
    ensures d == {} <==> NoRepeats(s)
    ensures RepeatedIn(s, d)
  {
    d := {};
    for i := 0 to |s|
      invariant forall x :: x in d <==> x in s[..i] && multiset(s)[x] > 1
    {
      assert s[..i + 1] == s[..i] + [s[i]];
      if multiset(s)[s[i]] > 1 { d := d + {s[i]}; }
    }
    assert s[..|s|] == s;
    forall x ensures x in d <==> multiset(s)[x] > 1 {
      if multiset(s)[x] > 1 { assert x in s; }
    }
    DuplicatesMeaning(s);
  }

  lemma DuplicatesMeaning<T>(s: seq<T>)
    ensures NoRepeats(s) <==> forall x :: multiset(s)[x] <= 1
  {
    if NoRepeats(s) {
      forall x ensures multiset(s)[x] <= 1 { NoRepeatsCount(s, x); }
    } else {
      var i, j :| 0 <= i < j < |s| && s[i] == s[j];
      assert s == s[..i] + [s[i]] + s[i + 1..j] + [s[j]] + s[j + 1..];
      assert multiset(s) == multiset(s[..i]) + multiset{s[i]} + multiset(s[i + 1..j]) + multiset{s[j]} + multiset(s[j + 1..]);
      assert multiset(s)[s[i]] >= 2;
    }
  }

  ghost predicate Buildable(cases: seq<Case>, solvers: seq<string>, limits: seq<int>) {
    && cases != [] && solvers != [] && limits != []
    && NoRepeats(cases) && NoRepeats(solvers) && NoRepeats(limits)
    && forall i | 0 <= i < |limits| :: limits[i] > 0
  }

  // v lists the limits that are not positive, as often as they occur.
  ghost predicate NotPositive(limits: seq<int>, v: seq<int>) {
    forall x :: multiset(v)[x] == if x <= 0 then multiset(limits)[x] else 0
  }

  // The reported error is the first that applies: emptiness in the order cases, solvers,
  // limits, then repeated cases, repeated solvers, bad limits, repeated limits.
  ghost predicate FirstObstacle(cases: seq<Case>, solvers: seq<string>, limits: seq<int>, error: BuildError) {
    if cases == [] then error == NoCases
    else if solvers == [] then error == NoSolvers
    else if limits == [] then error == NoLimits
    else if !NoRepeats(cases) then error.DuplicateCases? && RepeatedIn(cases, error.cases)
    else if !NoRepeats(solvers) then error.DuplicateSolvers? && RepeatedIn(solvers, error.solvers)
    else if exists i :: 0 <= i < |limits| && limits[i] <= 0 then error.InvalidLimits? && NotPositive(limits, error.values)
    else error.DuplicateLimits? && RepeatedIn(limits, error.limits)
  }

  method InvalidLimitsOf(limits: seq<int>) returns (invalid: seq<int>)
    ensures invalid == [] <==> forall i | 0 <= i < |limits| :: limits[i] > 0
    ensures NotPositive(limits, invalid)
  {
    invalid := [];
    for i := 0 to |limits|
      invariant invalid == [] <==> forall l | 0 <= l < i :: limits[l] > 0
      invariant NotPositive(limits[..i], invalid)
    {
      assert limits[..i + 1] == limits[..i] + [limits[i]];
      if limits[i] <= 0 { invalid := invalid + [limits[i]]; }
    }
    assert limits[..|limits|] == limits;
  }

  // Refuses empty, repeated and non-positive inputs.
  method Build(benchmark: string, cases: seq<Case>, solvers: seq<string>, limits: seq<int>)
    returns (r: Result<Matrix, BuildError>)
    ensures r.Ok? <==> Buildable(cases, solvers, limits)
    ensures r.Ok? ==> r.value.Ok() && r.value == Matrix(benchmark, cases, solvers, limits, r.value.expected)
    ensures r.Err? ==> FirstObstacle(cases, solvers, limits, r.error)
  {
    if cases == [] { return Err(NoCases); }
    if solvers == [] { return Err(NoSolvers); }
    if limits == [] { return Err(NoLimits); }
    var repeatedCases := Duplicates(cases);
    if repeatedCases != {} { return Err(DuplicateCases(repeatedCases)); }
    var repeatedSolvers := Duplicates(solvers);
    if repeatedSolvers != {} { return Err(DuplicateSolvers(repeatedSolvers)); }
    var invalid := InvalidLimitsOf(limits);
    if invalid != [] { return Err(InvalidLimits(invalid)); }
    var repeatedLimits := Duplicates(limits);
    if repeatedLimits != {} { return Err(DuplicateLimits(repeatedLimits)); }
    return Ok(Matrix(benchmark, cases, solvers, limits, Sorted(LoopKeys(benchmark, cases, limits, solvers))));
  }

  // ----- the tracker -----

  datatype TrackError = Unexpected(key: Key) | Duplicate(key: Key) | Incomplete(missing: set<Key>)

  class Tracker {
    const matrix: Matrix
    var observed: set<Key>

    ghost predicate Valid()
      reads this
    {
      matrix.Ok() && forall k | k in observed :: k in matrix.expected
    }

    ghost predicate Complete()
      reads this
    {
      forall k | k in matrix.expected :: k in observed
    }

    constructor (m: Matrix)
      requires m.Ok()
      ensures Valid() && matrix == m && observed == {}
    {
      matrix, observed := m, {};
    }

    method EnsureCanObserve(key: Key) returns (r: Option<TrackError>)
      requires Valid()
      ensures r.None? <==> key in matrix.expected && key !in observed
      ensures r == Some(Unexpected(key)) <==> key !in matrix.expected
      ensures r == Some(Duplicate(key)) <==> key in observed
    {
      if key !in matrix.expected { return Some(Unexpected(key)); }
      if key in observed { return Some(Duplicate(key)); }
      return None;
    }

    method MarkObserved(key: Key) returns (r: Option<TrackError>)
      requires Valid()
      modifies this`observed
      ensures Valid()
      ensures r.None? <==> key in matrix.expected && key !in old(observed)
      ensures r == Some(Unexpected(key)) <==> key !in matrix.expected
      ensures r == Some(Duplicate(key)) <==> key in old(observed)
      ensures observed == if r.None? then old(observed) + {key} else old(observed)
    {
      r := EnsureCanObserve(key);
      if r.None? { observed := observed + {key}; }
    }

    method AssertComplete() returns (r: Option<TrackError>)
      requires Valid()
      ensures r.None? <==> Complete()
      ensures r.Some? ==> r.value == Incomplete(set k | k in matrix.expected && k !in observed)
    {
      var missing := set k | k in matrix.expected && k !in observed;
      if missing != {} { return Some(Incomplete(missing)); }
      forall k | k in matrix.expected ensures k in observed {
        assert k !in missing;
      }
      return None;
    }
  }

  // The canonical payload the hash is taken of: the keys, sorted.
  ghost predicate PayloadOf(keys: set<Key>, payload: seq<Key>) {
    StrictlySorted(payload) && forall k :: k in payload <==> k in keys
  }

  // Observed and expected payloads coincide exactly when the sets do.
  lemma PayloadsAgree(a: set<Key>, b: set<Key>, pa: seq<Key>, pb: seq<Key>)
    requires PayloadOf(a, pa) && PayloadOf(b, pb)
    ensures pa == pb <==> a == b
  {
    if a == b { SortedUnique(pa, pb); }
    if pa == pb {
      assert forall k :: k in a <==> k in b;
    }
  }

  // ----- the run loop -----

  // Observes the row of every case, limit and solver; the keys it emits, in order.
  method RunLoop(tracker: Tracker) returns (emitted: seq<Key>, r: Option<TrackError>)
    requires tracker.Valid() && tracker.observed == {}
    modifies tracker
    ensures tracker.Valid() && r.None? && tracker.Complete()
    ensures emitted == LoopKeys(tracker.matrix.benchmark, tracker.matrix.cases, tracker.matrix.limits, tracker.matrix.solvers)
    ensures NoRepeats(emitted) && forall k :: k in emitted <==> k in tracker.matrix.expected
  {
    var m := tracker.matrix;
    ghost var all := LoopKeys(m.benchmark, m.cases, m.limits, m.solvers);
    LoopKeysMeaning(m.benchmark, m.cases, m.limits, m.solvers);
    ExpectedMeaning(m);
    emitted := [];
    for c := 0 to |m.cases|
      invariant tracker.Valid() && emitted == LoopKeys(m.benchmark, m.cases[..c], m.limits, m.solvers)
      invariant emitted <= all && tracker.observed == set k | k in emitted
    {
      CasePrefix(m, c);
      emitted := RunCase(tracker, m.cases[c], emitted, all);
    }
    assert m.cases[..|m.cases|] == m.cases;
    r := tracker.AssertComplete();
  }

  lemma CasePrefix(m: Matrix, c: nat)
    requires c < |m.cases|
    ensures LoopKeys(m.benchmark, m.cases[..c + 1], m.limits, m.solvers) ==
      LoopKeys(m.benchmark, m.cases[..c], m.limits, m.solvers) + LimitKeys(m.benchmark, m.cases[c], m.limits, m.solvers)
    ensures LoopKeys(m.benchmark, m.cases[..c + 1], m.limits, m.solvers) <= LoopKeys(m.benchmark, m.cases, m.limits, m.solvers)
  {
    assert m.cases[..c + 1][..c] == m.cases[..c];
    LoopPrefix(m, c + 1, |m.cases|);
    assert m.cases[..|m.cases|] == m.cases;
  }

  lemma {:induction false} LoopPrefix(m: Matrix, c: nat, d: nat)
    requires c <= d <= |m.cases|
    ensures LoopKeys(m.benchmark, m.cases[..c], m.limits, m.solvers) <= LoopKeys(m.benchmark, m.cases[..d], m.limits, m.solvers)
    decreases d
  {
    if c < d {
      LoopPrefix(m, c, d - 1);
      assert m.cases[..d][..d - 1] == m.cases[..d - 1];
    }
  }

  method RunLimit(tracker: Tracker, c: Case, limit: int, before: seq<Key>, ghost all: seq<Key>) returns (emitted: seq<Key>)
    requires tracker.Valid() && tracker.observed == (set k | k in before)
    requires NoRepeats(all) && forall k | k in all :: k in tracker.matrix.expected
    requires before + SolverKeys(tracker.matrix.benchmark, c, limit, tracker.matrix.solvers) <= all
    modifies tracker
    ensures tracker.Valid() && tracker.observed == set k | k in emitted
    ensures emitted == before + SolverKeys(tracker.matrix.benchmark, c, limit, tracker.matrix.solvers)
  {
    var m := tracker.matrix;
    ghost var keys := SolverKeys(m.benchmark, c, limit, m.solvers);
    emitted := before;
    for s := 0 to |m.solvers|
      invariant tracker.Valid() && tracker.observed == set k | k in emitted
      invariant emitted == before + keys[..s]
    {
      var key := KeyOf(m.benchmark, c, limit, m.solvers[s]);
      PrefixNext(all, before, keys, s);
      NextIsNew(all, emitted, key);
      var error := tracker.MarkObserved(key);
      assert error.None?;
      emitted := emitted + [key];
    }
  }

  lemma PrefixNext(all: seq<Key>, before: seq<Key>, keys: seq<Key>, s: nat)
    requires before + keys <= all && s < |keys|
    ensures before + keys[..s] + [keys[s]] == before + keys[..s + 1] <= all
  {
    assert before + keys == before + keys[..s + 1] + keys[s + 1..];
  }

  method RunCase(tracker: Tracker, c: Case, before: seq<Key>, ghost all: seq<Key>) returns (emitted: seq<Key>)
    requires tracker.Valid() && tracker.observed == (set k | k in before)
    requires NoRepeats(all) && forall k | k in all :: k in tracker.matrix.expected
    requires before + LimitKeys(tracker.matrix.benchmark, c, tracker.matrix.limits, tracker.matrix.solvers) <= all
    modifies tracker
    ensures tracker.Valid() && tracker.observed == set k | k in emitted
    ensures emitted == before + LimitKeys(tracker.matrix.benchmark, c, tracker.matrix.limits, tracker.matrix.solvers)
  {
    var m := tracker.matrix;
    emitted := before;
    for t := 0 to |m.limits|
      invariant tracker.Valid() && tracker.observed == set k | k in emitted
      invariant emitted == before + LimitKeys(m.benchmark, c, m.limits[..t], m.solvers)
    {
      LimitPrefix(m, c, t, before, all);
      emitted := RunLimit(tracker, c, m.limits[t], emitted, all);
    }
    assert m.limits[..|m.limits|] == m.limits;
  }

  lemma NextIsNew(all: seq<Key>, done: seq<Key>, key: Key)
    requires NoRepeats(all) && done + [key] <= all
    ensures key in all && key !in done
  {
    assert all[|done|] == (done + [key])[|done|];
    forall i | 0 <= i < |done| ensures done[i] != key {
      assert all[i] == (done + [key])[i];
    }
  }

  lemma LimitPrefix(m: Matrix, c: Case, t: nat, before: seq<Key>, all: seq<Key>)
    requires t < |m.limits| && before + LimitKeys(m.benchmark, c, m.limits, m.solvers) <= all
    ensures var next := SolverKeys(m.benchmark, c, m.limits[t], m.solvers);
      && before + LimitKeys(m.benchmark, c, m.limits[..t + 1], m.solvers) ==
           before + LimitKeys(m.benchmark, c, m.limits[..t], m.solvers) + next
      && before + LimitKeys(m.benchmark, c, m.limits[..t], m.solvers) + next <= all
  {
    var done, next := LimitKeys(m.benchmark, c, m.limits[..t], m.solvers), SolverKeys(m.benchmark, c, m.limits[t], m.solvers);
    assert m.limits[..t + 1][..t] == m.limits[..t];
    assert LimitKeys(m.benchmark, c, m.limits[..t + 1], m.solvers) == done + next;
    assert before + (done + next) == before + done + next;
    LimitGrows(m, c, t + 1, |m.limits|);
    assert m.limits[..|m.limits|] == m.limits;
    PrefixKeeps(before, done + next, LimitKeys(m.benchmark, c, m.limits, m.solvers), all);
  }

  lemma PrefixKeeps(before: seq<Key>, a: seq<Key>, b: seq<Key>, all: seq<Key>)
    requires a <= b && before + b <= all
    ensures before + a <= all
  {
  }

  lemma {:induction false} LimitGrows(m: Matrix, c: Case, t: nat, d: nat)
    requires t <= d <= |m.limits|
    ensures LimitKeys(m.benchmark, c, m.limits[..t], m.solvers) <= LimitKeys(m.benchmark, c, m.limits[..d], m.solvers)
    decreases d
  {
    if t < d {
      LimitGrows(m, c, t, d - 1);
      assert m.limits[..d][..d - 1] == m.limits[..d - 1];
    }
  }
}
