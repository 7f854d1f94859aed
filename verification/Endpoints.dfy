/** Column values, index keys and the endpoints of ranges over them
    (database-jones/Adapter/common/IndexBounds.js).

    A plain column value and the one-part IndexValue made from it compare alike,
    so an endpoint always holds a key: a sequence of parts, of length one for a
    single column. */
module Endpoints {

  /** What a column can hold, between the two sentinels of the key space. NULL sorts
      below every other column value; any linearly ordered column type embeds in Val. */
  datatype Value = NegInf | Null | Val(n: real) | PosInf {
    predicate IsColumnValue() {
      Null? || Val?
    }
  }

  type Key = seq<Value>

  /** Unmarked is the state of an endpoint that no Segment has claimed yet. */
  datatype Side = Unmarked | Low | High

  datatype Endpoint = Endpoint(value: Key, inclusive: bool, side: Side)

  // ---------------------------------------------------------------- comparing values

  function CompareValues(a: Value, b: Value): int {
    if a == NegInf || b == PosInf then -1
    else if a == PosInf || b == NegInf then 1
    else if a == Null || b == Null then
      if a == b then 0 else if a == Null then -1 else 1
    else if a.n == b.n then 0
    else if a.n < b.n then -1
    else 1
  }

  function Rank(v: Value): int {
    match v
    case NegInf => 0
    case Null => 1
    case Val(_) => 2
    case PosInf => 3
  }

  /** The linear order the comments of IndexBounds.js describe. */
  predicate Less(a: Value, b: Value) {
    Rank(a) < Rank(b) || (a.Val? && b.Val? && a.n < b.n)
  }

  /** compareValues agrees with that order except that an infinity is never equal to itself. */
  lemma {:induction false} CompareValuesSign(a: Value, b: Value)
    ensures CompareValues(a, b) == 1 <==> Less(b, a)
    ensures CompareValues(a, b) == 0 <==> a == b && a.IsColumnValue()
    ensures CompareValues(a, b) == -1 <==> Less(a, b) || (a == b && !a.IsColumnValue())
  {
  }

  /** IndexValue.compare looks at the common prefix only. */
  function CompareKeys(a: Key, b: Key): int {
    if a == [] || b == [] then 0
    else
      var cmp := CompareValues(a[0], b[0]);
      if cmp != 0 then cmp else CompareKeys(a[1..], b[1..])
  }

  /** The loop of IndexValue.compare. */
  method CompareIndexValues(a: Key, b: Key) returns (cmp: int)
    ensures cmp == CompareKeys(a, b)
  {
    var len := if |a| < |b| then |a| else |b|;
    for n := 0 to len
      invariant CompareKeys(a, b) == CompareKeys(a[n..], b[n..])
    {
      cmp := CompareValues(a[n], b[n]);
      if cmp != 0 {
        return;
      }
      assert a[n..][1..] == a[n + 1..] && b[n..][1..] == b[n + 1..];
    }
    cmp := 0;
  }

  /** Lexicographic order on keys of one length. */
  predicate KeyLess(a: Key, b: Key)
    requires |a| == |b|
  {
    a != [] && (Less(a[0], b[0]) || (a[0] == b[0] && KeyLess(a[1..], b[1..])))
  }

  lemma {:induction false} KeyLessTransitive(a: Key, b: Key, c: Key)
    requires |a| == |b| == |c|
    requires KeyLess(a, b) && KeyLess(b, c)
    ensures KeyLess(a, c)
  {
    if a[0] == b[0] == c[0] {
      KeyLessTransitive(a[1..], b[1..], c[1..]);
    }
  }

  lemma {:induction false} KeyLessTotal(a: Key, b: Key)
    requires |a| == |b|
    ensures KeyLess(a, b) || a == b || KeyLess(b, a)
    ensures !(KeyLess(a, b) && KeyLess(b, a))
    ensures !KeyLess(a, a)
  {
    if a != [] {
      KeyLessTotal(a[1..], b[1..]);
      assert a == [a[0]] + a[1..] && b == [b[0]] + b[1..];
    }
  }

  /** Only the last part of a key may be an infinity: consolidation stops there. */
  predicate ProperKey(k: Key) {
    forall i :: 0 <= i < |k| - 1 ==> k[i].IsColumnValue()
  }

  /** On proper keys of one length IndexValue.compare is the lexicographic order, an equal
      pair that ends in an infinity comparing as less. */
  lemma {:induction false} CompareKeysSign(a: Key, b: Key)
    requires |a| == |b| && ProperKey(a) && ProperKey(b)
    ensures CompareKeys(a, b) in {-1, 0, 1}
    ensures CompareKeys(a, b) == 1 <==> KeyLess(b, a)
    ensures CompareKeys(a, b) == 0 <==> a == b && (a == [] || a[|a| - 1].IsColumnValue())
  {
    if a != [] {
      CompareValuesSign(a[0], b[0]);
      if |a| > 1 {
        assert ProperKey(a[1..]) && ProperKey(b[1..]) by {
          forall i | 0 <= i < |a| - 2
            ensures a[1..][i].IsColumnValue() && b[1..][i].IsColumnValue()
          {
            assert a[1..][i] == a[i + 1] && b[1..][i] == b[i + 1];
          }
        }
        assert a[0].IsColumnValue() && b[0].IsColumnValue();
      }
      CompareKeysSign(a[1..], b[1..]);
      assert a == [a[0]] + a[1..] && b == [b[0]] + b[1..];
      KeyLessTotal(a[1..], b[1..]);
    }
  }

  // ---------------------------------------------------------------- comparing endpoints

  function CompareEndpoints(p: Endpoint, q: Endpoint): int {
    var cmp := CompareKeys(p.value, q.value);
    if cmp != 0 then cmp
    else if p.side.Low? && q.side.Low? && p.inclusive != q.inclusive then
      if p.inclusive then -1 else 1
    else if p.side == q.side && p.inclusive != q.inclusive then
      if p.inclusive then 1 else -1
    else if p.inclusive && q.inclusive then
      if p.side.Low? then -1 else 1
    else
      if p.side.Low? then 1 else -1
  }

  /** Position of a marked endpoint among the endpoints at one value. */
  function Place(e: Endpoint): int {
    if e.side.Low? then (if e.inclusive then 1 else 3)
    else (if e.inclusive then 2 else 0)
  }

  /** ByPlace tells all four places at one value apart; ByCut only tells whether the endpoint
      lies just before the value or just after it. */
  datatype Order = ByPlace | ByCut

  function Level(e: Endpoint, order: Order): int {
    if order.ByPlace? then Place(e) else Place(e) / 2
  }

  predicate Precedes(p: Endpoint, q: Endpoint)
    requires |p.value| == |q.value|
  {
    KeyLess(p.value, q.value) || (p.value == q.value && Place(p) < Place(q))
  }

  predicate NotAfter(p: Endpoint, q: Endpoint, order: Order)
    requires |p.value| == |q.value|
  {
    KeyLess(p.value, q.value) || (p.value == q.value && Level(p, order) <= Level(q, order))
  }

  /** The endpoints that lines are made of: marked, and inclusive and outward at an infinity. */
  predicate Standard(e: Endpoint) {
    && e.value != [] && ProperKey(e.value)
    && !e.side.Unmarked?
    && (e.value[|e.value| - 1] == NegInf ==> e.side.Low? && e.inclusive)
    && (e.value[|e.value| - 1] == PosInf ==> e.side.High? && e.inclusive)
  }

  /** At one value: high-exclusive < low-inclusive < high-inclusive < low-exclusive.
      Endpoint.compare decides strictly by that order and never answers 0. */
  lemma {:induction false} CompareRealisesOrder(p: Endpoint, q: Endpoint)
    requires Standard(p) && Standard(q) && |p.value| == |q.value|
    ensures CompareEndpoints(p, q) == -1 || CompareEndpoints(p, q) == 1
    ensures Precedes(p, q) ==> CompareEndpoints(p, q) == -1
    ensures Precedes(q, p) ==> CompareEndpoints(p, q) == 1
  {
    CompareKeysSign(p.value, q.value);
    CompareKeysSign(q.value, p.value);
    KeyLessTotal(p.value, q.value);
  }

  lemma {:induction false} CompareNotAfter(p: Endpoint, q: Endpoint, order: Order)
    requires Standard(p) && Standard(q) && |p.value| == |q.value|
    ensures CompareEndpoints(p, q) < 1 ==> NotAfter(p, q, order)
    ensures CompareEndpoints(p, q) >= 1 ==> NotAfter(q, p, order)
  {
    CompareRealisesOrder(p, q);
    KeyLessTotal(p.value, q.value);
  }

  lemma {:induction false} NotAfterTransitive(p: Endpoint, q: Endpoint, r: Endpoint, order: Order)
    requires |p.value| == |q.value| == |r.value|
    requires NotAfter(p, q, order) && NotAfter(q, r, order)
    ensures NotAfter(p, r, order)
  {
    if KeyLess(p.value, q.value) && KeyLess(q.value, r.value) {
      KeyLessTransitive(p.value, q.value, r.value);
    }
  }

  // ---------------------------------------------------------------- points

  /** Is a point beyond the endpoint, so that a low one has let it in or a high one out?
      A point longer than the endpoint's key is judged by its leading parts. */
  predicate Passed(e: Endpoint, x: Key)
    requires |e.value| <= |x|
  {
    var k := x[..|e.value|];
    if e.side.Low? == e.inclusive then !KeyLess(k, e.value) else KeyLess(e.value, k)
  }

  predicate InSegment(low: Endpoint, high: Endpoint, x: Key)
    requires |low.value| <= |x| && |high.value| <= |x|
  {
    var l := x[..|low.value|];
    var h := x[..|high.value|];
    && (if low.inclusive then !KeyLess(l, low.value) else KeyLess(low.value, l))
    && (if high.inclusive then !KeyLess(high.value, h) else KeyLess(h, high.value))
  }

  lemma {:induction false} NotAfterPassed(p: Endpoint, q: Endpoint, x: Key, order: Order)
    requires |p.value| == |q.value| <= |x|
    requires NotAfter(p, q, order) && Passed(q, x)
    ensures Passed(p, x)
  {
    var k := x[..|p.value|];
    KeyLessTotal(k, p.value);
    KeyLessTotal(k, q.value);
    if KeyLess(p.value, q.value) {
      if KeyLess(q.value, k) {
        KeyLessTransitive(p.value, q.value, k);
      }
      if KeyLess(k, p.value) {
        KeyLessTransitive(k, p.value, q.value);
      }
    }
  }
}
