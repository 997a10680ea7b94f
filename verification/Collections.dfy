// Sequences without repetition, and finite sets of numbers.
module Collections {
  ghost predicate NoRepeats<T>(s: seq<T>) {
    forall i, j | 0 <= i < j < |s| :: s[i] != s[j]
  }

  lemma {:induction false} NoRepeatsCount<T>(s: seq<T>, x: T)
    requires NoRepeats(s)
    ensures multiset(s)[x] <= 1
  {
    if s != [] {
      var init := s[..|s| - 1];
      NoRepeatsCount(init, x);
      assert s == init + [s[|s| - 1]];
      if s[|s| - 1] == x { assert x !in init; }
    }
  }

  lemma NoRepeatsConcat<T>(a: seq<T>, b: seq<T>)
    requires NoRepeats(a) && NoRepeats(b) && forall x | x in a :: x !in b
    ensures NoRepeats(a + b)
  {
    var s := a + b;
    forall i, j | 0 <= i < j < |s| ensures s[i] != s[j] {
      if i < |a| <= j { assert s[i] in a && s[j] in b; }
    }
  }

  lemma SubsetSize(a: set<nat>, b: set<nat>)
    requires a <= b
    ensures |a| <= |b| && (|a| == |b| ==> a == b)
  {
    assert |b - a| == |b| - |a|;
  }

  lemma UnionSize<T>(a: set<T>, b: set<T>)
    requires a !! b
    ensures |a + b| == |a| + |b|
  {
  }

  // The members of s below n, in ascending order.
  function Ascending(s: set<nat>, n: nat): seq<nat> {
    if n == 0 then [] else Ascending(s, n - 1) + (if n - 1 in s then [n - 1] else [])
  }

  lemma {:induction false} AscendingMembers(s: set<nat>, n: nat)
    ensures forall i | 0 <= i < |Ascending(s, n)| :: Ascending(s, n)[i] < n
    ensures forall i, j | 0 <= i < j < |Ascending(s, n)| :: Ascending(s, n)[i] < Ascending(s, n)[j]
    ensures forall v: nat :: v in Ascending(s, n) <==> v < n && v in s
  {
    if n > 0 { AscendingMembers(s, n - 1); }
  }

  lemma {:induction false} AscendingCount(s: set<nat>, n: nat, v: nat)
    ensures multiset(Ascending(s, n))[v] == if v < n && v in s then 1 else 0
  {
    if n > 0 { AscendingCount(s, n - 1, v); }
  }
}
