/** Removing a key from a map, and the sizes of maps: what the bounded tables need. */
module Maps {
  function Without<K, V>(m: map<K, V>, k: K): map<K, V> {
    map x | x in m && x != k :: m[x]
  }

  lemma WithoutSize<K, V>(m: map<K, V>, k: K)
    ensures Without(m, k).Keys == m.Keys - {k}
    ensures |Without(m, k)| == if k in m then |m| - 1 else |m|
  {
    assert Without(m, k).Keys == m.Keys - {k};
  }

  lemma InsertSize<K, V>(m: map<K, V>, k: K, v: V)
    ensures |m[k := v]| == if k in m then |m| else |m| + 1
  {
    assert m[k := v].Keys == m.Keys + {k};
  }

  lemma SubmapSize<K, V>(a: map<K, V>, b: map<K, V>)
    requires a.Keys <= b.Keys
    ensures |a| <= |b|
  {
    SubsetSize(a.Keys, b.Keys);
  }

  lemma {:induction false} SubsetSize<T>(a: set<T>, b: set<T>)
    requires a <= b
    ensures |a| <= |b|
  {
    if a != {} {
      var x :| x in a;
      SubsetSize(a - {x}, b - {x});
    }
  }
}
