// Stable sorting by a lexicographic integer key, standing in for the library sorts.
module Sorting {
  import opened Collections

  datatype Keyed<+T> = Keyed(major: int, middle: int, minor: int, value: T) {
    // Key of this is at most the key of that.
    predicate AtMost<U>(that: Keyed<U>) {
      || major < that.major
      || (major == that.major && (middle < that.middle || (middle == that.middle && minor <= that.minor)))
    }
  }

  function Insert<T>(x: Keyed<T>, s: seq<Keyed<T>>): (r: seq<Keyed<T>>)
    ensures |r| == |s| + 1
  {
    if s == [] || !s[0].AtMost(x) then [x] + s else [s[0]] + Insert(x, s[1..])
  }

  function Sort<T>(s: seq<Keyed<T>>): (r: seq<Keyed<T>>)
    ensures |r| == |s|
  {
    if s == [] then [] else Insert(s[|s| - 1], Sort(s[..|s| - 1]))
  }

  ghost predicate Sorted<T>(s: seq<Keyed<T>>) {
    forall i, j | 0 <= i < j < |s| :: s[i].AtMost(s[j])
  }

  lemma {:induction false} InsertMembers<T>(x: Keyed<T>, s: seq<Keyed<T>>)
    ensures multiset(Insert(x, s)) == multiset(s) + multiset{x}
  {
    if s == [] || !s[0].AtMost(x) {
    } else {
      InsertMembers(x, s[1..]);
      assert s == [s[0]] + s[1..];
    }
  }

  // Sequences with the same elements up to order.
  ghost predicate Permutation<T>(a: seq<T>, b: seq<T>) {
    multiset(a) == multiset(b)
  }

  lemma PermutationMember<T>(a: seq<T>, b: seq<T>, i: nat) returns (j: nat)
    requires Permutation(a, b) && i < |a|
    ensures j < |b| && b[j] == a[i]
  {
    assert a[i] in multiset(b);
    j :| 0 <= j < |b| && b[j] == a[i];
  }

  lemma ConsSorted<T>(x: Keyed<T>, s: seq<Keyed<T>>)
    requires Sorted(s) && (s == [] || x.AtMost(s[0]))
    ensures Sorted([x] + s)
  {
    var t := [x] + s;
    forall i, j | 0 <= i < j < |t| ensures t[i].AtMost(t[j]) {
      if i == 0 {
        assert j > 1 ==> s[0].AtMost(s[j - 1]);
      } else {
        assert s[i - 1].AtMost(s[j - 1]);
      }
    }
  }

  lemma InsertAbove<T>(y: Keyed<T>, x: Keyed<T>, s: seq<Keyed<T>>)
    requires y.AtMost(x) && forall i | 0 <= i < |s| :: y.AtMost(s[i])
    ensures forall i | 0 <= i < |Insert(x, s)| :: y.AtMost(Insert(x, s)[i])
  {
    InsertMembers(x, s);
    forall i | 0 <= i < |Insert(x, s)| ensures y.AtMost(Insert(x, s)[i]) {
      var l := PermutationMember(Insert(x, s), [x] + s, i);
    }
  }

  lemma ConsAbove<T>(y: Keyed<T>, s: seq<Keyed<T>>)
    requires Sorted(s) && forall i | 0 <= i < |s| :: y.AtMost(s[i])
    ensures Sorted([y] + s)
  {
    var t := [y] + s;
    forall i, j | 0 <= i < j < |t| ensures t[i].AtMost(t[j]) {
      if i > 0 { assert s[i - 1].AtMost(s[j - 1]); }
    }
  }

  lemma {:induction false} InsertSorted<T>(x: Keyed<T>, s: seq<Keyed<T>>)
    requires Sorted(s)
    ensures Sorted(Insert(x, s))
  {
    if s == [] || !s[0].AtMost(x) {
      ConsSorted(x, s);
    } else {
      var tail := Insert(x, s[1..]);
      InsertSorted(x, s[1..]);
      InsertAbove(s[0], x, s[1..]);
      ConsAbove(s[0], tail);
    }
  }

  lemma {:induction false} SortSorted<T>(s: seq<Keyed<T>>)
    ensures Sorted(Sort(s))
  {
    if s != [] {
      SortSorted(s[..|s| - 1]);
      InsertSorted(s[|s| - 1], Sort(s[..|s| - 1]));
    }
  }

  lemma {:induction false} SortPermutes<T>(s: seq<Keyed<T>>)
    ensures Permutation(Sort(s), s)
  {
    if s != [] {
      var init, last := s[..|s| - 1], s[|s| - 1];
      SortPermutes(init);
      InsertMembers(last, Sort(init));
      assert s == init + [last];
    }
  }

  function Values<T>(s: seq<Keyed<T>>): (r: seq<T>)
    ensures |r| == |s| && forall i | 0 <= i < |s| :: r[i] == s[i].value
  {
    seq(|s|, i requires 0 <= i < |s| => s[i].value)
  }

  lemma PermutationNoRepeats<T>(a: seq<T>, b: seq<T>)
    requires Permutation(a, b) && NoRepeats(b)
    ensures NoRepeats(a)
  {
    forall i, j | 0 <= i < j < |a| ensures a[i] != a[j] {
      NoRepeatsCount(b, a[i]);
      assert a == a[..i] + [a[i]] + a[i + 1..];
      assert a[i + 1..][j - i - 1] == a[j];
      assert multiset(a) == multiset(a[..i]) + multiset{a[i]} + multiset(a[i + 1..]);
    }
  }
}
