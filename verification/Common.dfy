/** What several modules need and none of them is about: an optional value, and the sizes of maps and
    sets when an element is added or taken away.
    Nothing here models anything of the bindings.  The other modules import it whole, so its names are kept
    few and plain. */
module Common {

  datatype Option<+T> = None | Some(value: T)

  lemma SizeMinus<K, V>(m: map<K, V>, k: K)
    ensures |m - {k}| == if k in m then |m| - 1 else |m|
  {
    assert (m - {k}).Keys == m.Keys - {k};
    assert |m| == |m.Keys| && |m - {k}| == |(m - {k}).Keys|;
  }

  lemma SizePlus<K, V>(m: map<K, V>, k: K, v: V)
    ensures |m[k := v]| == if k in m then |m| else |m| + 1
  {
    assert m[k := v].Keys == m.Keys + {k};
    assert |m| == |m.Keys| && |m[k := v]| == |m[k := v].Keys|;
  }

  lemma {:induction false} SubsetSize<T>(a: set<T>, b: set<T>)
    requires a <= b
    ensures |a| <= |b|
    ensures |a| == |b| <==> a == b
    decreases a
  {
    if a != {} {
      var x :| x in a;
      SubsetSize(a - {x}, b - {x});
    }
  }
}
