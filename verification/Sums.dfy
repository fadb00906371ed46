/** Sums over the values of a map, whatever order they are taken in. */
module Sums {
  import opened Base
  import opened Sorted

  function Sum(m: map<string, nat>): nat
    decreases |m|
  {
    if m == map[] then 0
    else
      var k := Least(m.Keys);
      assert |m - {k}| < |m| by { assert m.Keys == (m - {k}).Keys + {k}; }
      m[k] + Sum(m - {k})
  }

  lemma FewerKeys(m: map<string, nat>, k: string)
    requires k in m
    ensures |m - {k}| == |m| - 1
  {
    assert m.Keys == (m - {k}).Keys + {k};
  }

  /** Any key may be taken first. */
  lemma {:induction false} SumRemove(m: map<string, nat>, k: string)
    requires k in m
    ensures Sum(m) == m[k] + Sum(m - {k})
    decreases |m|
  {
    var least := Least(m.Keys);
    if k != least {
      FewerKeys(m, least);
      SumRemove(m - {least}, k);
      var rest := m - {k};
      LeastIsUnique(least, Least(rest.Keys), rest.Keys);
      assert rest - {least} == m - {least} - {k};
    }
  }

  /** Adding one key at a time, in any order. */
  lemma SumAdd(m: map<string, nat>, done: set<string>, k: string)
    requires k in m && k !in done && done <= m.Keys
    ensures Sum(Part(m, done + {k})) == Sum(Part(m, done)) + m[k]
  {
    SumRemove(Part(m, done + {k}), k);
    assert Part(m, done + {k}) - {k} == Part(m, done);
  }

  function Part(m: map<string, nat>, keys: set<string>): map<string, nat> {
    map k | k in m && k in keys :: m[k]
  }

  lemma {:induction false} PartIsLess(m: map<string, nat>, done: set<string>)
    ensures Sum(Part(m, done)) <= Sum(m)
    decreases |m|
  {
    if m == map[] {
      assert Part(m, done) == map[];
    } else {
      var k := Least(m.Keys);
      FewerKeys(m, k);
      PartIsLess(m - {k}, done);
      if k in done {
        SumRemove(Part(m, done), k);
        assert Part(m, done) - {k} == Part(m - {k}, done);
      } else {
        assert Part(m, done) == Part(m - {k}, done);
      }
    }
  }

  lemma {:induction false} SumOfOnes(m: map<string, nat>)
    requires forall k | k in m :: m[k] >= 1
    ensures |m| <= Sum(m)
    decreases |m|
  {
    if m != map[] {
      var k := Least(m.Keys);
      FewerKeys(m, k);
      SumOfOnes(m - {k});
    }
  }
}
