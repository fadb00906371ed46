/** Identifiers in order: what sort.Slice leaves of a set of IDs. */
module Sorted {
  import opened Base
  import opened Text

  predicate IsLeast(m: Id, s: set<Id>) {
    m in s && forall x | x in s :: x == m || Less(m, x)
  }

  lemma {:induction false} LeastExists(s: set<Id>) returns (m: Id)
    requires s != {}
    ensures IsLeast(m, s)
  {
    m :| m in s;
    if s != {m} {
      var rest := LeastExists(s - {m});
      var first := m;
      CompareFlips(first, rest);
      CompareEqual(first, rest);
      if Less(rest, first) { m := rest; }
      forall x | x in s ensures x == m || Less(m, x) {
        if x != first && x != rest {
          assert x in s - {first};
          if m == first { CompareTransitive(first, rest, x); }
        }
      }
    }
  }

  lemma LeastIsUnique(a: Id, b: Id, s: set<Id>)
    requires IsLeast(a, s) && IsLeast(b, s)
    ensures a == b
  {
    CompareFlips(a, b);
  }

  lemma OneLeast(s: set<Id>)
    requires s != {}
    ensures exists m :: m in s && IsLeast(m, s)
    ensures forall a, b | IsLeast(a, s) && IsLeast(b, s) :: a == b
  {
    var m := LeastExists(s);
    forall a, b | IsLeast(a, s) && IsLeast(b, s) ensures a == b { LeastIsUnique(a, b, s); }
  }

  function Least(s: set<Id>): (m: Id)
    requires s != {}
    ensures IsLeast(m, s)
  {
    OneLeast(s);
    var m :| m in s && IsLeast(m, s);
    m
  }

  /** The elements of a set in increasing order. */
  function SortedIds(s: set<Id>): seq<Id>
    decreases |s|
  {
    if s == {} then [] else [Least(s)] + SortedIds(s - {Least(s)})
  }

  ghost predicate Increasing(ids: seq<Id>) {
    forall i, j | 0 <= i < j < |ids| :: Less(ids[i], ids[j])
  }

  lemma {:induction false} SortedHolds(s: set<Id>)
    ensures forall x :: x in SortedIds(s) <==> x in s
    ensures Increasing(SortedIds(s))
    decreases |s|
  {
    if s != {} {
      SortedHolds(s - {Least(s)});
    }
  }

  function Filter(ids: seq<Id>, keep: set<Id>): seq<Id> {
    if ids == [] then []
    else (if ids[0] in keep then [ids[0]] else []) + Filter(ids[1..], keep)
  }

  /** Sorting a subset is filtering the sorted set. */
  lemma {:induction false} SortedSubset(s: set<Id>, keep: set<Id>)
    requires keep <= s
    ensures Filter(SortedIds(s), keep) == SortedIds(keep)
    decreases |s|
  {
    if s != {} {
      var m := Least(s);
      assert SortedIds(s)[1..] == SortedIds(s - {m});
      if m in keep {
        LeastIsUnique(m, Least(keep), keep);
        FilterMore(SortedIds(s - {m}), keep, m);
        SortedHolds(s - {m});
        SortedSubset(s - {m}, keep - {m});
      } else {
        SortedSubset(s - {m}, keep);
      }
    }
  }

  lemma {:induction false} FilterMore(ids: seq<Id>, keep: set<Id>, x: Id)
    ensures x !in ids ==> Filter(ids, keep) == Filter(ids, keep - {x})
  {
    if ids != [] { FilterMore(ids[1..], keep, x); }
  }

  /** A strictly increasing list is the sorted list of its elements. */
  lemma {:induction false} IncreasingIsSorted(ids: seq<Id>, s: set<Id>)
    requires Increasing(ids) && forall x :: x in ids <==> x in s
    ensures ids == SortedIds(s)
  {
    if ids == [] {
      assert s == {};
    } else {
      assert ids[0] in ids;
      forall x | x in s ensures x == ids[0] || Less(ids[0], x) { assert x in ids; }
      LeastIsUnique(ids[0], Least(s), s);
      CompareEqual(ids[0], ids[0]);
      forall x ensures x in ids[1..] <==> x in s - {ids[0]} {
        if x in ids[1..] { assert Less(ids[0], x); }
      }
      IncreasingIsSorted(ids[1..], s - {ids[0]});
    }
  }

  predicate NoDup<T(==)>(s: seq<T>) {
    forall i, j | 0 <= i < j < |s| :: s[i] != s[j]
  }

  lemma IncreasingNoDup(ids: seq<Id>)
    requires Increasing(ids)
    ensures NoDup(ids)
  {
    forall i, j | 0 <= i < j < |ids| ensures ids[i] != ids[j] {
      CompareEqual(ids[i], ids[j]);
    }
  }

  lemma AppendNoDup<T>(s: seq<T>, t: seq<T>)
    requires NoDup(s) && NoDup(t) && forall x | x in s :: x !in t
    ensures NoDup(s + t)
  {
    forall i, j | 0 <= i < j < |s + t| ensures (s + t)[i] != (s + t)[j] {
      if i < |s| <= j { assert s[i] in s && t[j - |s|] in t; }
    }
  }

  lemma {:induction false} SubsetSize<T>(a: set<T>, b: set<T>)
    requires a <= b
    ensures |a| <= |b|
  {
    if a != {} {
      var x :| x in a;
      SubsetSize(a - {x}, b - {x});
    }
  }
}
