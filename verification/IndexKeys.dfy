/** Index keys of different lengths, and which of them endpoints admit
    (database-jones/Adapter/common/IndexBounds.js, IndexValue). */
module IndexKeys {
  import opened Endpoints
  import opened NumberLines
  import opened Complements

  // ---------------------------------------------------------------- growing keys

  lemma {:induction false} KeyLessAppend(a: Key, b: Key, u: Value, v: Value)
    requires |a| == |b|
    ensures KeyLess(a + [u], b + [v]) <==> KeyLess(a, b) || (a == b && Less(u, v))
  {
    if a == [] {
      assert a + [u] == [u] && b + [v] == [v];
      OnePart([u], [v]);
    } else {
      KeyLessAppend(a[1..], b[1..], u, v);
      assert (a + [u])[1..] == a[1..] + [u] && (b + [v])[1..] == b[1..] + [v];
      assert a == [a[0]] + a[1..] && b == [b[0]] + b[1..];
    }
  }

  lemma {:induction false} KeyLessPrefix(a: Key, b: Key, m: nat)
    requires |a| == |b| && m <= |a| && KeyLess(a[..m], b[..m])
    ensures KeyLess(a, b)
  {
    if a[0] == b[0] {
      assert a[..m][1..] == a[1..][..m - 1] && b[..m][1..] == b[1..][..m - 1];
      if !Less(a[0], b[0]) {
        KeyLessPrefix(a[1..], b[1..], m - 1);
      }
    }
  }

  /** IndexValue.compare on keys of different lengths. */
  lemma {:induction false} CompareKeysPrefix(a: Key, b: Key, m: nat)
    requires m == (if |a| < |b| then |a| else |b|)
    ensures CompareKeys(a, b) == CompareKeys(a[..m], b[..m])
  {
    if m > 0 {
      assert a[..m][1..] == a[1..][..m - 1] && b[..m][1..] == b[1..][..m - 1];
      CompareKeysPrefix(a[1..], b[1..], m - 1);
    }
  }

  predicate AboveLow(e: Endpoint, y: Key) {
    && |e.value| <= |y|
    && (if e.inclusive then !KeyLess(y[..|e.value|], e.value) else KeyLess(e.value, y[..|e.value|]))
  }

  predicate BelowHigh(e: Endpoint, y: Key) {
    && |e.value| <= |y|
    && (if e.inclusive then !KeyLess(e.value, y[..|e.value|]) else KeyLess(y[..|e.value|], e.value))
  }

  predicate ColumnKey(y: Key) {
    forall i :: 0 <= i < |y| ==> y[i].IsColumnValue()
  }

  /** A key all of whose parts but the last are finite. */
  predicate FiniteInside(k: Key) {
    forall i :: 0 <= i < |k| - 1 ==> k[i].Val?
  }

  lemma {:induction false} Between(a: Key, k: Key, b: Key)
    requires |a| == |k| == |b| && !KeyLess(k, a) && !KeyLess(b, k)
    ensures KeyLess(a, b) || (a == k == b)
  {
    KeyLessTotal(a, k);
    KeyLessTotal(k, b);
    if KeyLess(a, k) && KeyLess(k, b) {
      KeyLessTransitive(a, k, b);
    }
  }
}
