/** Sums of a measure over the values of a finite map. */
module Totals {

  ghost function Total<K, V>(m: map<K, V>, f: V -> nat): nat
    decreases |m|
  {
    if m == map[] then 0
    else
      var k := Pick(m);
      f(m[k]) + Total(m - {k}, f)
  }

  ghost function Pick<K, V>(m: map<K, V>): (k: K)
    requires m != map[]
    ensures k in m
  {
    NoKeysNoMap(m);
    var k :| k in m.Keys;
    k
  }

  lemma NoKeysNoMap<K, V>(m: map<K, V>)
    ensures m.Keys == {} ==> m == map[]
  {
  }

  /** A sum may be taken apart at any key. */
  lemma {:induction false} TotalRemove<K, V>(m: map<K, V>, f: V -> nat, k: K)
    requires k in m
    ensures Total(m, f) == f(m[k]) + Total(m - {k}, f)
    decreases |m|
  {
    var p := Pick(m);
    if p != k {
      TotalRemove(m - {p}, f, k);
      TotalRemove(m - {k}, f, p);
      assert m - {p} - {k} == m - {k} - {p};
    }
  }

  lemma TotalAdd<K, V>(m: map<K, V>, f: V -> nat, k: K, v: V)
    requires k !in m
    ensures Total(m[k := v], f) == Total(m, f) + f(v)
  {
    TotalRemove(m[k := v], f, k);
    assert m[k := v] - {k} == m;
  }

  lemma {:induction false} TotalOfUnion<K, V>(m: map<K, V>, n: map<K, V>, f: V -> nat)
    requires m.Keys !! n.Keys
    ensures Total(m + n, f) == Total(m, f) + Total(n, f)
    decreases |n|
  {
    if n == map[] {
      UnionNothing(m, n);
    } else {
      var k := Pick(n);
      TotalOfUnion(m, n - {k}, f);
      TotalRemove(n, f, k);
      TotalRemove(m + n, f, k);
      RemoveFromUnion(m, n, k);
    }
  }

  lemma UnionNothing<K, V>(m: map<K, V>, n: map<K, V>)
    requires n == map[]
    ensures m + n == m
  {
  }

  lemma RemoveFromUnion<K, V>(m: map<K, V>, n: map<K, V>, k: K)
    requires k !in m
    ensures m + n - {k} == m + (n - {k})
  {
  }

  lemma UnionSize<K, V>(m: map<K, V>, n: map<K, V>)
    requires m.Keys !! n.Keys
    ensures |m + n| == |m| + |n|
  {
    assert (m + n).Keys == m.Keys + n.Keys;
    assert |(m + n).Keys| == |m.Keys| + |n.Keys|;
  }

  ghost predicate SubMap<K, V>(m: map<K, V>, n: map<K, V>) {
    forall k :: k in m ==> k in n && n[k] == m[k]
  }

  lemma {:induction false} TotalSubMap<K, V>(m: map<K, V>, n: map<K, V>, f: V -> nat)
    requires SubMap(m, n)
    ensures Total(m, f) <= Total(n, f)
    decreases |m|
  {
    if m != map[] {
      var k := Pick(m);
      TotalSubMap(m - {k}, n - {k}, f);
      TotalRemove(m, f, k);
      TotalRemove(n, f, k);
    }
  }
}
