/** Consolidated ranges when all segments of a column but the last are closed
    (database-jones/Adapter/common/IndexBounds.js, IndexBoundVisitor.consolidate). */
module IndexRuns {
  import opened Endpoints
  import opened NumberLines
  import opened Complements
  import opened Consolidation
  import opened IndexKeys
  import opened Insertions

  // ---------------------------------------------------------------- comparing ends of different lengths

  /** A low end of an index range over n columns: only its last part may be NULL or infinite, and it
      is shorter only if its last part stopped it. */
  predicate LowEnd(e: Endpoint, n: nat) {
    && e.side.Low? && 0 < |e.value| <= n && FiniteInside(e.value) && (|e.value| < n ==> !Continues(e))
    && (e.value[|e.value| - 1] == NegInf ==> e.inclusive) && e.value[|e.value| - 1] != PosInf
  }

  predicate HighEnd(e: Endpoint, n: nat) {
    && e.side.High? && 0 < |e.value| <= n && FiniteInside(e.value) && (|e.value| < n ==> !Continues(e))
    && (e.value[|e.value| - 1] == PosInf ==> e.inclusive) && e.value[|e.value| - 1] != NegInf
  }

  /** The parts two keys have in common places, and those of a third. */
  lemma {:induction false} Common(a: Key, b: Key, x: Key) returns (m: nat)
    requires |a| <= |x| && |b| <= |x| && FiniteInside(a) && FiniteInside(b)
    ensures m == (if |a| < |b| then |a| else |b|)
    ensures CompareKeys(a, b) == CompareKeys(a[..m], b[..m])
    ensures ProperKey(a[..m]) && ProperKey(b[..m])
    ensures x[..|a|][..m] == x[..m] && x[..|b|][..m] == x[..m]
  {
    m := if |a| < |b| then |a| else |b|;
    CompareKeysPrefix(a, b, m);
    forall i | 0 <= i < m - 1
      ensures a[..m][i].IsColumnValue() && b[..m][i].IsColumnValue()
    {
      assert a[..m][i] == a[i] && b[..m][i] == b[i];
    }
  }

  /** Keys that differ in a common place are ordered there, whatever follows. */
  lemma {:induction false} Apart(a: Key, b: Key, x: Key, m: nat)
    requires m <= |a| <= |x| && m <= |b| <= |x| && KeyLess(a[..m], b[..m])
    ensures !KeyLess(x[..m], b[..m]) ==> KeyLess(a, x[..|a|])
    ensures !KeyLess(a[..m], x[..m]) ==> KeyLess(x[..|b|], b)
  {
    assert x[..|a|][..m] == x[..m] && x[..|b|][..m] == x[..m];
    KeyLessTotal(x[..m], b[..m]);
    KeyLessTotal(x[..m], a[..m]);
    if !KeyLess(x[..m], b[..m]) {
      if KeyLess(b[..m], x[..m]) {
        KeyLessTransitive(a[..m], b[..m], x[..m]);
      }
      KeyLessPrefix(a, x[..|a|], m);
    }
    if !KeyLess(a[..m], x[..m]) {
      if KeyLess(x[..m], a[..m]) {
        KeyLessTransitive(x[..m], a[..m], b[..m]);
      }
      KeyLessPrefix(x[..|b|], b, m);
    }
  }

  /** A key is not below the first parts of a key it is not below. */
  lemma {:induction false} NotBelowPrefix(a: Key, x: Key, m: nat)
    requires m <= |a| <= |x|
    ensures !KeyLess(x[..|a|], a) ==> !KeyLess(x[..m], a[..m])
    ensures !KeyLess(a, x[..|a|]) ==> !KeyLess(a[..m], x[..m])
  {
    assert x[..|a|][..m] == x[..m];
    if KeyLess(x[..m], a[..m]) {
      KeyLessPrefix(x[..|a|], a, m);
    }
    if KeyLess(a[..m], x[..m]) {
      KeyLessPrefix(a, x[..|a|], m);
    }
  }

  /** Two low ends, the second of which is not what the first extends. */
  lemma {:induction false} LowsSettled(l: Endpoint, e: Endpoint, x: Key, n: nat)
    requires LowEnd(l, n) && LowEnd(e, n) && ColumnKey(x) && n <= |x| && !(e.value < l.value)
    ensures SettlesLow(l, e, x)
  {
    var m := Common(l.value, e.value, x);
    var a, b := l.value[..m], e.value[..m];
    CompareKeysSign(a, b);
    KeyLessTotal(a, b);
    NotBelowPrefix(l.value, x, m);
    NotBelowPrefix(e.value, x, m);
    KeyLessTotal(x[..|l.value|], l.value);
    KeyLessTotal(x[..|e.value|], e.value);
    if KeyLess(a, b) {
      Apart(l.value, e.value, x, m);
    } else if KeyLess(b, a) {
      Apart(e.value, l.value, x, m);
    } else {
      LowsTied(l, e, x, n, m);
    }
  }

  lemma {:induction false} LowsTied(l: Endpoint, e: Endpoint, x: Key, n: nat, m: nat)
    requires LowEnd(l, n) && LowEnd(e, n) && ColumnKey(x) && n <= |x| && !(e.value < l.value)
    requires m == (if |l.value| < |e.value| then |l.value| else |e.value|) && l.value[..m] == e.value[..m]
    requires CompareKeys(l.value, e.value) == CompareKeys(l.value[..m], e.value[..m])
    ensures SettlesLow(l, e, x)
  {
    CompareKeysSignSame(l.value[..m]);
    if |l.value| < |e.value| {
      assert e.value[m - 1] == l.value[m - 1] by {
        assert e.value[m - 1] == e.value[..m][m - 1] && l.value[m - 1] == l.value[..m][m - 1];
      }
      assert e.value[m - 1].Val? && l.value[..m] == l.value;
      assert !l.inclusive;
      KeyLessTotal(x[..m], l.value);
      assert x[..|e.value|][..m] == x[..m];
      if KeyLess(l.value, x[..m]) {
        KeyLessPrefix(e.value, x[..|e.value|], m);
        KeyLessTotal(e.value, x[..|e.value|]);
      }
    } else {
      assert e.value == e.value[..m] <= l.value;
      assert l.value == e.value;
      KeyLessTotal(x[..m], l.value);
    }
  }

  lemma {:induction false} CompareKeysSignSame(a: Key)
    requires a != [] && ProperKey(a)
    ensures CompareKeys(a, a) == if a[|a| - 1].IsColumnValue() then 0 else -1
  {
    CompareKeysSign(a, a);
    KeyLessTotal(a, a);
  }

  /** Two high ends, the second of which is not what the first extends. */
  lemma {:induction false} HighsSettled(h: Endpoint, e: Endpoint, x: Key, n: nat)
    requires HighEnd(h, n) && HighEnd(e, n) && ColumnKey(x) && n <= |x| && !(e.value < h.value)
    ensures SettlesHigh(h, e, x)
  {
    var m := Common(h.value, e.value, x);
    var a, b := h.value[..m], e.value[..m];
    CompareKeysSign(a, b);
    KeyLessTotal(a, b);
    NotBelowPrefix(h.value, x, m);
    NotBelowPrefix(e.value, x, m);
    KeyLessTotal(x[..|h.value|], h.value);
    KeyLessTotal(x[..|e.value|], e.value);
    if KeyLess(a, b) {
      Apart(h.value, e.value, x, m);
    } else if KeyLess(b, a) {
      Apart(e.value, h.value, x, m);
    } else {
      HighsTied(h, e, x, n, m);
    }
  }

  lemma {:induction false} HighsTied(h: Endpoint, e: Endpoint, x: Key, n: nat, m: nat)
    requires HighEnd(h, n) && HighEnd(e, n) && ColumnKey(x) && n <= |x| && !(e.value < h.value)
    requires m == (if |h.value| < |e.value| then |h.value| else |e.value|) && h.value[..m] == e.value[..m]
    requires CompareKeys(h.value, e.value) == CompareKeys(h.value[..m], e.value[..m])
    ensures SettlesHigh(h, e, x)
  {
    CompareKeysSignSame(h.value[..m]);
    if |h.value| < |e.value| {
      assert e.value[m - 1] == h.value[m - 1] by {
        assert e.value[m - 1] == e.value[..m][m - 1] && h.value[m - 1] == h.value[..m][m - 1];
      }
      assert e.value[m - 1].Val? && h.value[..m] == h.value;
      assert !h.inclusive;
      KeyLessTotal(x[..m], h.value);
      assert x[..|e.value|][..m] == x[..m];
      if KeyLess(x[..m], h.value) {
        KeyLessPrefix(x[..|e.value|], e.value, m);
        KeyLessTotal(e.value, x[..|e.value|]);
      }
    } else {
      assert e.value == e.value[..m] <= h.value;
      assert h.value == e.value;
      KeyLessTotal(x[..m], h.value);
    }
  }

  /** A low and a high end between which there is a key are in order. */
  lemma {:induction false} EndsOrdered(l: Endpoint, h: Endpoint, x: Key, n: nat)
    requires LowEnd(l, n) && HighEnd(h, n) && ColumnKey(x) && n <= |x| && AboveLow(l, x) && BelowHigh(h, x)
    ensures SegmentOf(l, h) == [l, h]
  {
    var m := Common(l.value, h.value, x);
    var a, b := l.value[..m], h.value[..m];
    CompareKeysSign(a, b);
    NotBelowPrefix(l.value, x, m);
    NotBelowPrefix(h.value, x, m);
    KeyLessTotal(l.value, x[..|l.value|]);
    KeyLessTotal(x[..|h.value|], h.value);
    Between(a, x[..m], b);
    KeyLessTotal(a, b);
    if !KeyLess(a, b) {
      EndsTied(l, h, x, n, m);
    }
  }

  lemma {:induction false} EndsTied(l: Endpoint, h: Endpoint, x: Key, n: nat, m: nat)
    requires LowEnd(l, n) && HighEnd(h, n) && ColumnKey(x) && n <= |x| && AboveLow(l, x) && BelowHigh(h, x)
    requires m == (if |l.value| < |h.value| then |l.value| else |h.value|)
    requires l.value[..m] == h.value[..m] == x[..m]
    ensures l.inclusive && h.inclusive && x[..m][m - 1].IsColumnValue()
  {
    var u := x[..m][m - 1];
    assert u == x[m - 1];
    assert l.value[m - 1] == l.value[..m][m - 1] == u && h.value[m - 1] == h.value[..m][m - 1] == u;
    KeyLessTotal(x[..m], x[..m]);
    if |l.value| == m {
      assert l.value == x[..m];
    }
    if |h.value| == m {
      assert h.value == x[..m];
    }
  }

  // ---------------------------------------------------------------- all but the last segment closed

  /** A segment that is in order: not two ends at one value of which one excludes it. */
  predicate NotEmpty(lo: Endpoint, hi: Endpoint) {
    lo.value == hi.value ==> lo.inclusive && hi.inclusive
  }

  predicate ClosedButLast(line: seq<Endpoint>) {
    WellFormed(line, COLUMN) && forall k :: 0 <= k < |line| - 2 ==> Continues(line[k])
  }

  predicate Tidy(line: seq<Endpoint>) {
    ClosedButLast(line) && |line| >= 2 && NotEmpty(line[|line| - 2], line[|line| - 1])
  }

  predicate TidyRun(columns: seq<nat>, bounds: Bounds) {
    columns == [] || columns[0] !in bounds || (Tidy(bounds[columns[0]]) && TidyRun(columns[1..], bounds))
  }

  /** The parts of a key lie in the bounds of the leading run of bounded columns. */
  predicate KeyInBounds(columns: seq<nat>, bounds: Bounds, x: Key) {
    && |x| == |columns|
    && (columns == [] || columns[0] !in bounds
        || (FitsLine(bounds[columns[0]], [x[0]]) && Holds(bounds[columns[0]], [x[0]])
            && KeyInBounds(columns[1..], bounds, x[1..])))
  }

  function RunLength(columns: seq<nat>, bounds: Bounds): nat {
    if columns == [] || columns[0] !in bounds then 0 else 1 + RunLength(columns[1..], bounds)
  }

  /** The first segment of such a line. */
  lemma {:induction false} FirstSegment(line: seq<Endpoint>)
    requires Tidy(line)
    ensures |line[0].value| == |line[1].value| == 1 && line[0].side.Low? && line[1].side.High?
    ensures Standard(line[0]) && Standard(line[1]) && SegmentOf(line[0], line[1]) == [line[0], line[1]]
    ensures Less(line[0].value[0], line[1].value[0])
            || (line[0].value == line[1].value && line[0].inclusive && line[1].inclusive
               && line[0].value[0].IsColumnValue())
    ensures |line| > 2 ==> Continues(line[0]) && Continues(line[1]) && Tidy(line[2..])
  {
    var lo, hi := line[0], line[1];
    assert Standard(lo) && Standard(hi) && NotAfter(lo, hi, ByCut);
    OnePart(lo.value, hi.value);
    CompareKeysSign(lo.value, hi.value);
    if |line| > 2 {
      AlternatesTail(line);
      TidyTail(line);
    }
  }

  lemma {:induction false} TidyTail(line: seq<Endpoint>)
    requires Tidy(line) && |line| > 2 && Alternates(line[2..])
    ensures Tidy(line[2..])
  {
    var rest := line[2..];
    forall i | 0 <= i < |rest|
      ensures rest[i] == line[i + 2]
    {
    }
  }

  /** A later segment of the line starts at another value, or excludes the one it starts at. */
  lemma {:induction false} LaterLow(line: seq<Endpoint>, k: nat)
    requires Tidy(line) && 2 <= k < |line| && k % 2 == 0
    ensures |line[k].value| == 1 && (line[k].value == line[0].value ==> !Continues(line[k]))
  {
    var lo, hi, e := line[0], line[1], line[k];
    FirstSegment(line);
    assert e.side.Low? && Standard(e) && NotAfter(hi, e, ByCut) && NotAfter(lo, hi, ByCut);
    OnePart(hi.value, e.value);
    OnePart(lo.value, hi.value);
    OnePart(lo.value, e.value);
  }

  lemma {:induction false} LaterHigh(line: seq<Endpoint>, k: nat)
    requires Tidy(line) && 2 <= k < |line| && k % 2 == 1
    ensures |line[k].value| == 1 && line[k].value != line[1].value
  {
    var hi, low, e := line[1], line[k - 1], line[k];
    FirstSegment(line);
    assert e.side.High? && low.side.Low? && Standard(e) && Standard(low);
    assert NotAfter(hi, low, ByCut) && NotAfter(low, e, ByCut);
    OnePart(hi.value, low.value);
    OnePart(low.value, e.value);
    OnePart(hi.value, e.value);
    assert k < |line| - 2 ==> Continues(low) && Continues(e);
  }

  // ---------------------------------------------------------------- partial bounds

  /** A partial low end after k columns: it takes more parts, or its last part stopped it. */
  predicate LowState(low: Endpoint, doLow: bool, k: nat, n: nat) {
    && low.side.Low?
    && if doLow then |low.value| == k && low.inclusive && forall i :: 0 <= i < k ==> low.value[i].Val?
       else LowEnd(low, n) && !Continues(low) && |low.value| <= k
  }

  predicate HighState(high: Endpoint, doHigh: bool, k: nat, n: nat) {
    && high.side.High?
    && if doHigh then |high.value| == k && high.inclusive && forall i :: 0 <= i < k ==> high.value[i].Val?
       else HighEnd(high, n) && !Continues(high) && |high.value| <= k
  }

  function Shorter(a: Key, b: Key): nat {
    if |a| < |b| then |a| else |b|
  }

  /** The partial ends are apart already, or still the same. */
  predicate EndsInOrder(low: Endpoint, doLow: bool, high: Endpoint, doHigh: bool) {
    var m := Shorter(low.value, high.value);
    KeyLess(low.value[..m], high.value[..m]) || (low.value == high.value && doLow && doHigh)
  }

  lemma {:induction false} StatesInOrder(low: Endpoint, doLow: bool, high: Endpoint, doHigh: bool, k: nat, n: nat)
    requires LowState(low, doLow, k, n) && HighState(high, doHigh, k, n) && EndsInOrder(low, doLow, high, doHigh)
    ensures SegmentOf(low, high) == [low, high]
  {
    var m := Shorter(low.value, high.value);
    CompareKeysPrefix(low.value, high.value, m);
    var a, b := low.value[..m], high.value[..m];
    assert ProperKey(a) && ProperKey(b);
    CompareKeysSign(a, b);
    KeyLessTotal(a, b);
  }

  lemma {:induction false} PushLow(low: Endpoint, doLow: bool, lo: Endpoint, k: nat, n: nat)
    requires LowState(low, doLow, k, n) && k < n && |lo.value| == 1 && Standard(lo) && lo.side.Low?
    ensures LowState(Extended(low, lo, doLow), doLow && Continues(lo), k + 1, n)
    ensures low.value <= Extended(low, lo, doLow).value
  {
    var low' := Extended(low, lo, doLow);
    if doLow {
      assert low'.value == low.value + [lo.value[0]] && low'.value[k] == lo.value[0];
      assert forall i :: 0 <= i < k ==> low'.value[i] == low.value[i];
    }
  }

  lemma {:induction false} PushHigh(high: Endpoint, doHigh: bool, hi: Endpoint, k: nat, n: nat)
    requires HighState(high, doHigh, k, n) && k < n && |hi.value| == 1 && Standard(hi) && hi.side.High?
    ensures HighState(Extended(high, hi, doHigh), doHigh && Continues(hi), k + 1, n)
    ensures high.value <= Extended(high, hi, doHigh).value
  {
    var high' := Extended(high, hi, doHigh);
    if doHigh {
      assert high'.value == high.value + [hi.value[0]] && high'.value[k] == hi.value[0];
      assert forall i :: 0 <= i < k ==> high'.value[i] == high.value[i];
    }
  }

  lemma {:induction false} StillInOrder(low: Endpoint, doLow: bool, high: Endpoint, doHigh: bool, lo: Endpoint,
                                        hi: Endpoint)
    requires EndsInOrder(low, doLow, high, doHigh) && |lo.value| == |hi.value| == 1
    requires Less(lo.value[0], hi.value[0]) || (lo.value == hi.value && lo.inclusive && hi.inclusive)
    ensures var doLow', doHigh' := doLow && Continues(lo), doHigh && Continues(hi);
            doLow' || doHigh' ==> EndsInOrder(Extended(low, lo, doLow), doLow', Extended(high, hi, doHigh), doHigh')
  {
    var low', high' := Extended(low, lo, doLow), Extended(high, hi, doHigh);
    var m := Shorter(low.value, high.value);
    var m' := Shorter(low'.value, high'.value);
    if KeyLess(low.value[..m], high.value[..m]) {
      var a, b := low'.value[..m'], high'.value[..m'];
      assert a[..m] == low.value[..m] && b[..m] == high.value[..m];
      KeyLessPrefix(a, b, m);
    } else {
      assert lo.value == [lo.value[0]] && hi.value == [hi.value[0]];
      KeyLessAppend(low.value, high.value, lo.value[0], hi.value[0]);
      assert low'.value[..m'] == low'.value && high'.value[..m'] == high'.value;
    }
  }

  // ---------------------------------------------------------------- ends inserted before

  /** Neither key extends the other. */
  predicate Clear(a: Key, b: Key) {
    !(a <= b) && !(b <= a)
  }

  /** No key that a partial end may become extends the key of an end inserted before. */
  predicate Ready(e: Endpoint, partial: Endpoint, takes: bool) {
    if takes then Clear(partial.value, e.value) else !(e.value < partial.value)
  }

  /** The same for the remaining segments of a column, which start at the given position of its line. */
  predicate ReadyFor(e: Endpoint, partial: Endpoint, takes: bool, line: seq<Endpoint>, k: nat) {
    k < |line| ==> if takes then Ready(e, Push(partial, line[k]), Continues(line[k])) else !(e.value < partial.value)
  }

  ghost predicate ElementReady(e: Endpoint, low: Endpoint, doLow: bool, high: Endpoint, doHigh: bool,
                               line: seq<Endpoint>) {
    if e.side.Low? then forall k: nat {:trigger ReadyFor(e, low, doLow, line, k)} :: k % 2 == 0 ==>
        ReadyFor(e, low, doLow, line, k)
    else forall k: nat {:trigger ReadyFor(e, high, doHigh, line, k)} :: k % 2 == 1 ==>
        ReadyFor(e, high, doHigh, line, k)
  }

  ghost predicate LineReady(inserted: seq<Endpoint>, low: Endpoint, doLow: bool, high: Endpoint, doHigh: bool,
                            line: seq<Endpoint>) {
    forall e {:trigger ElementReady(e, low, doLow, high, doHigh, line)} :: e in inserted ==>
        ElementReady(e, low, doLow, high, doHigh, line)
  }

  predicate EndReady(e: Endpoint, low: Endpoint, doLow: bool, high: Endpoint, doHigh: bool) {
    if e.side.Low? then Ready(e, low, doLow) else Ready(e, high, doHigh)
  }

  ghost predicate EndsReady(inserted: seq<Endpoint>, low: Endpoint, doLow: bool, high: Endpoint, doHigh: bool) {
    forall e {:trigger EndReady(e, low, doLow, high, doHigh)} :: e in inserted ==> EndReady(e, low, doLow, high, doHigh)
  }

  /** An end made from a partial one. */
  predicate MadeFrom(e: Endpoint, low: Endpoint, doLow: bool, high: Endpoint, doHigh: bool) {
    if e.side.Low? then low.value <= e.value && (!doLow ==> e.value == low.value)
    else high.value <= e.value && (!doHigh ==> e.value == high.value)
  }

  lemma {:induction false} ReadyFirst(inserted: seq<Endpoint>, low: Endpoint, doLow: bool, high: Endpoint, doHigh: bool,
                                      line: seq<Endpoint>)
    requires LineReady(inserted, low, doLow, high, doHigh, line) && |line| >= 2
    ensures EndsReady(inserted, Extended(low, line[0], doLow), doLow && Continues(line[0]),
                      Extended(high, line[1], doHigh), doHigh && Continues(line[1]))
  {
    forall e | e in inserted
      ensures EndReady(e, Extended(low, line[0], doLow), doLow && Continues(line[0]),
                       Extended(high, line[1], doHigh), doHigh && Continues(line[1]))
    {
      assert ElementReady(e, low, doLow, high, doHigh, line);
      assert ReadyFor(e, low, doLow, line, 0) || !e.side.Low?;
      assert ReadyFor(e, high, doHigh, line, 1) || e.side.Low?;
    }
  }

  lemma {:induction false} DifferentPart(a: Key, b: Key, m: nat) returns (i: nat)
    requires m <= |a| && m <= |b| && a[..m] != b[..m]
    ensures i < m && a[i] != b[i]
  {
    if a[m - 1] != b[m - 1] {
      i := m - 1;
    } else {
      assert a[..m] == a[..m - 1] + [a[m - 1]] && b[..m] == b[..m - 1] + [b[m - 1]];
      i := DifferentPart(a, b, m - 1);
    }
  }

  lemma {:induction false} ClearExtends(a: Key, b: Key, part: Key)
    requires Clear(a, b)
    ensures Clear(a + part, b) && !(b < a + part)
  {
    var m := Shorter(a, b);
    assert a[..m] != b[..m];
    var i := DifferentPart(a, b, m);
    assert (a + part)[i] == a[i];
  }

  /** What is ready for a partial end is ready for all its segments of the next column. */
  lemma {:induction false} ReadyNext(inserted: seq<Endpoint>, low: Endpoint, doLow: bool, high: Endpoint, doHigh: bool,
                                     line: seq<Endpoint>)
    requires EndsReady(inserted, low, doLow, high, doHigh)
    ensures LineReady(inserted, low, doLow, high, doHigh, line)
  {
    forall e | e in inserted
      ensures ElementReady(e, low, doLow, high, doHigh, line)
    {
      assert EndReady(e, low, doLow, high, doHigh);
      forall k: nat
        ensures e.side.Low? ==> ReadyFor(e, low, doLow, line, k)
        ensures !e.side.Low? ==> ReadyFor(e, high, doHigh, line, k)
      {
        if k < |line| {
          if e.side.Low? && doLow {
            ClearExtends(low.value, e.value, line[k].value);
          } else if !e.side.Low? && doHigh {
            ClearExtends(high.value, e.value, line[k].value);
          }
        }
      }
    }
  }

  /** Keys that go on differently. */
  lemma {:induction false} OtherPart(a: Key, u: Value, v: Value, b: Key)
    requires a + [u] <= b && u != v
    ensures Clear(a + [v], b)
  {
    assert b[|a|] == (a + [u])[|a|] == u && (a + [v])[|a|] == v;
  }

  /** The ends made from the first segment of a line leave the other segments ready. */
  lemma {:induction false} MadeReady(e: Endpoint, low: Endpoint, doLow: bool, high: Endpoint, doHigh: bool,
                                     line: seq<Endpoint>)
    requires Tidy(line) && |line| > 2
    requires MadeFrom(e, Extended(low, line[0], doLow), doLow && Continues(line[0]),
                      Extended(high, line[1], doHigh), doHigh && Continues(line[1]))
    ensures ElementReady(e, low, doLow, high, doHigh, line[2..])
  {
    FirstSegment(line);
    var rest := line[2..];
    forall k: nat | k < |rest|
      ensures e.side.Low? && k % 2 == 0 ==> ReadyFor(e, low, doLow, rest, k)
      ensures !e.side.Low? && k % 2 == 1 ==> ReadyFor(e, high, doHigh, rest, k)
    {
      assert rest[k] == line[k + 2];
      if e.side.Low? && k % 2 == 0 && doLow {
        LaterLow(line, k + 2);
        LowMadeReady(e, low, line[0], rest[k]);
      }
      if !e.side.Low? && k % 2 == 1 && doHigh {
        LaterHigh(line, k + 2);
        LowMadeReady(e, high, line[1], rest[k]);
      }
    }
  }

  lemma {:induction false} LowMadeReady(e: Endpoint, partial: Endpoint, part: Endpoint, next: Endpoint)
    requires Push(partial, part).value <= e.value && |part.value| == |next.value| == 1
    requires part.value == next.value ==> !Continues(next)
    ensures Ready(e, Push(partial, next), Continues(next))
  {
    assert part.value == [part.value[0]] && next.value == [next.value[0]];
    if Continues(next) {
      OtherPart(partial.value, part.value[0], next.value[0], e.value);
    }
  }

  lemma {:induction false} ReadyRest(e: Endpoint, low: Endpoint, doLow: bool, high: Endpoint, doHigh: bool,
                                     line: seq<Endpoint>)
    requires ElementReady(e, low, doLow, high, doHigh, line) && |line| >= 2
    ensures ElementReady(e, low, doLow, high, doHigh, line[2..])
  {
    var rest := line[2..];
    forall k: nat | k < |rest|
      ensures e.side.Low? && k % 2 == 0 ==> ReadyFor(e, low, doLow, rest, k)
      ensures !e.side.Low? && k % 2 == 1 ==> ReadyFor(e, high, doHigh, rest, k)
    {
      assert rest[k] == line[k + 2];
      assert e.side.Low? && k % 2 == 0 ==> ReadyFor(e, low, doLow, line, k + 2);
      assert !e.side.Low? && k % 2 == 1 ==> ReadyFor(e, high, doHigh, line, k + 2);
    }
  }

  // ---------------------------------------------------------------- inserting all pieces

  predicate Ends(inserted: seq<Endpoint>, n: nat) {
    forall k :: 0 <= k < |inserted| ==> LowEnd(inserted[k], n) || HighEnd(inserted[k], n)
  }

  /** A line made of pieces, as far as one key is concerned. */
  ghost predicate Made(inserted: seq<Endpoint>, n: nat, x: Key) {
    Paired(inserted) && LowsRise(inserted, x) && Ends(inserted, n) && ColumnKey(x) && n <= |x|
  }

  predicate Within(low: Endpoint, high: Endpoint, x: Key) {
    AboveLow(low, x) && BelowHigh(high, x)
  }

  /** What inserting pieces made from partial ends has led to. */
  ghost predicate Grown(after: seq<Endpoint>, before: seq<Endpoint>, low: Endpoint, doLow: bool, high: Endpoint,
                        doHigh: bool, n: nat, x: Key) {
    && Made(after, n, x) && (InPairs(before, x) ==> InPairs(after, x))
    && forall e {:trigger MadeFrom(e, low, doLow, high, doHigh)} :: e in after ==>
       e in before || MadeFrom(e, low, doLow, high, doHigh)
  }

  lemma {:induction false} PieceInserted(inserted: seq<Endpoint>, low: Endpoint, doLow: bool, high: Endpoint,
                                         doHigh: bool, n: nat, x: Key)
    requires Made(inserted, n, x) && EndsReady(inserted, low, doLow, high, doHigh) && LowEnd(low, n) && HighEnd(high, n)
    ensures var after := InsertedAll(inserted, [[low, high]]);
            && Grown(after, inserted, low, doLow, high, doHigh, n, x)
            && (Within(low, high, x) ==> InPairs(after, x))
  {
    forall k: nat
      ensures SettlesAt(inserted, low, high, x, k)
    {
      if k < |inserted| {
        var e := inserted[k];
        assert EndReady(e, low, doLow, high, doHigh);
        if k % 2 == 0 {
          LowsSettled(low, e, x, n);
        } else {
          HighsSettled(high, e, x, n);
        }
      }
    }
    InsertedKeeps(inserted, low, high, x);
    var after := Inserted(inserted, [low, high]);
    assert [[low, high]][1..] == [] && InsertedAll(inserted, [[low, high]]) == after;
    forall k | 0 <= k < |after|
      ensures LowEnd(after[k], n) || HighEnd(after[k], n)
    {
      var e := after[k];
      assert e in inserted || e == low || e == high;
    }
  }

  lemma {:induction false} PushedAbove(low: Endpoint, doLow: bool, lo: Endpoint, x: Key, k: nat, n: nat)
    requires LowState(low, doLow, k, n) && k < n <= |x| && |lo.value| == 1 && AboveLow(low, x) && AboveLow(lo, [x[k]])
    ensures AboveLow(Extended(low, lo, doLow), x)
  {
    if doLow {
      assert x[..k + 1] == x[..k] + [x[k]] && [x[k]][..1] == [x[k]] && lo.value == [lo.value[0]];
      KeyLessAppend(x[..k], low.value, x[k], lo.value[0]);
      KeyLessAppend(low.value, x[..k], lo.value[0], x[k]);
      KeyLessTotal(x[..k], low.value);
      OnePart([x[k]], lo.value);
      OnePart(lo.value, [x[k]]);
    }
  }

  lemma {:induction false} PushedBelow(high: Endpoint, doHigh: bool, hi: Endpoint, x: Key, k: nat, n: nat)
    requires HighState(high, doHigh, k, n) && k < n <= |x| && |hi.value| == 1 && BelowHigh(high, x)
             && BelowHigh(hi, [x[k]])
    ensures BelowHigh(Extended(high, hi, doHigh), x)
  {
    if doHigh {
      assert x[..k + 1] == x[..k] + [x[k]] && [x[k]][..1] == [x[k]] && hi.value == [hi.value[0]];
      KeyLessAppend(high.value, x[..k], hi.value[0], x[k]);
      KeyLessAppend(x[..k], high.value, x[k], hi.value[0]);
      KeyLessTotal(x[..k], high.value);
      OnePart([x[k]], hi.value);
      OnePart(hi.value, [x[k]]);
    }
  }

  lemma {:induction false} MadeFromFirst(after: seq<Endpoint>, before: seq<Endpoint>, low: Endpoint, doLow: bool,
                                         high: Endpoint, doHigh: bool, lo: Endpoint, hi: Endpoint, n: nat, x: Key)
    requires Grown(after, before, Extended(low, lo, doLow), doLow && Continues(lo),
                   Extended(high, hi, doHigh), doHigh && Continues(hi), n, x)
    requires low.value <= Extended(low, lo, doLow).value && high.value <= Extended(high, hi, doHigh).value
    ensures Grown(after, before, low, doLow, high, doHigh, n, x)
  {
    forall e | e in after && e !in before
      ensures MadeFrom(e, low, doLow, high, doHigh)
    {
      assert MadeFrom(e, Extended(low, lo, doLow), doLow && Continues(lo),
                      Extended(high, hi, doHigh), doHigh && Continues(hi));
    }
  }

  lemma {:induction false} RestReady(after: seq<Endpoint>, before: seq<Endpoint>, low: Endpoint, doLow: bool,
                                     high: Endpoint, doHigh: bool, line: seq<Endpoint>, n: nat, x: Key)
    requires LineReady(before, low, doLow, high, doHigh, line) && Tidy(line) && |line| > 2
    requires Grown(after, before, Extended(low, line[0], doLow), doLow && Continues(line[0]),
                   Extended(high, line[1], doHigh), doHigh && Continues(line[1]), n, x)
    ensures LineReady(after, low, doLow, high, doHigh, line[2..])
  {
    forall e | e in after
      ensures ElementReady(e, low, doLow, high, doHigh, line[2..])
    {
      if e in before {
        assert ElementReady(e, low, doLow, high, doHigh, line);
        ReadyRest(e, low, doLow, high, doHigh, line);
      } else {
        assert MadeFrom(e, Extended(low, line[0], doLow), doLow && Continues(line[0]),
                        Extended(high, line[1], doHigh), doHigh && Continues(line[1]));
        MadeReady(e, low, doLow, high, doHigh, line);
      }
    }
  }

  /** Partial ends after k columns that take more parts, unless the run is over. */
  predicate Partial(low: Endpoint, doLow: bool, high: Endpoint, doHigh: bool, k: nat, n: nat) {
    && LowState(low, doLow, k, n) && HighState(high, doHigh, k, n)
    && (doLow || doHigh ==> EndsInOrder(low, doLow, high, doHigh))
  }

  lemma {:induction false} FirstPushed(line: seq<Endpoint>, low: Endpoint, doLow: bool, high: Endpoint, doHigh: bool,
                                       k: nat, n: nat)
    requires Tidy(line) && (doLow || doHigh) && k < n && Partial(low, doLow, high, doHigh, k, n)
    ensures Partial(Extended(low, line[0], doLow), doLow && Continues(line[0]),
                    Extended(high, line[1], doHigh), doHigh && Continues(line[1]), k + 1, n)
    ensures low.value <= Extended(low, line[0], doLow).value && high.value <= Extended(high, line[1], doHigh).value
    ensures SegmentOf(low, high) == [low, high] && SegmentOf(line[0], line[1]) == [line[0], line[1]]
  {
    FirstSegment(line);
    StatesInOrder(low, doLow, high, doHigh, k, n);
    PushLow(low, doLow, line[0], k, n);
    PushHigh(high, doHigh, line[1], k, n);
    StillInOrder(low, doLow, high, doHigh, line[0], line[1]);
  }

  lemma {:induction false} PushedWithin(low: Endpoint, doLow: bool, high: Endpoint, doHigh: bool, lo: Endpoint,
                                        hi: Endpoint, x: Key, k: nat, n: nat)
    requires Partial(low, doLow, high, doHigh, k, n) && k < n <= |x| && |lo.value| == |hi.value| == 1
    requires Within(low, high, x) && InSegment(lo, hi, [x[k]])
    ensures Within(Extended(low, lo, doLow), Extended(high, hi, doHigh), x)
  {
    PushedAbove(low, doLow, lo, x, k, n);
    PushedBelow(high, doHigh, hi, x, k, n);
  }

  lemma {:induction false} PiecesUnfold(columns: seq<nat>, bounds: Bounds, line: seq<Endpoint>, low: Endpoint,
                                        doLow: bool, high: Endpoint, doHigh: bool, inserted: seq<Endpoint>)
    requires columns != [] && |line| >= 2
    requires SegmentOf(low, high) == [low, high] && SegmentOf(line[0], line[1]) == [line[0], line[1]]
    ensures var doLow', doHigh' := doLow && Continues(line[0]), doHigh && Continues(line[1]);
            var here := Here(columns, bounds, Extended(low, line[0], doLow), Extended(high, line[1], doHigh), doLow',
                doHigh');
            var rest := Pieces(columns, bounds, line[2..], low, high, doLow', doHigh');
            && InsertedAll(inserted, Pieces(columns, bounds, line, low, high, doLow, doHigh))
               == InsertedAll(InsertedAll(inserted, here), rest)
            && (|line| == 2 ==> rest == [])
  {
    var doLow', doHigh' := doLow && Continues(line[0]), doHigh && Continues(line[1]);
    var here := Here(columns, bounds, Extended(low, line[0], doLow), Extended(high, line[1], doHigh), doLow', doHigh');
    var rest := Pieces(columns, bounds, line[2..], low, high, doLow', doHigh');
    InsertedAllAppend(inserted, here, rest);
  }

  lemma {:induction false} HoldsOnce(line: seq<Endpoint>, u: Value)
    requires FitsLine(line, [u]) && |line| == 2 && Holds(line, [u])
    ensures InSegment(line[0], line[1], [u])
  {
    assert line[2..] == [];
  }

  lemma {:induction false} GrownTwice(two: seq<Endpoint>, one: seq<Endpoint>, before: seq<Endpoint>,
                                      low: Endpoint, doLow: bool, high: Endpoint, doHigh: bool, n: nat, x: Key)
    requires Grown(one, before, low, doLow, high, doHigh, n, x) && Grown(two, one, low, doLow, high, doHigh, n, x)
    ensures Grown(two, before, low, doLow, high, doHigh, n, x)
  {
    forall e | e in two && e !in before
      ensures MadeFrom(e, low, doLow, high, doHigh)
    {
      assert e in one || MadeFrom(e, low, doLow, high, doHigh);
    }
  }

  /** A column with its remaining segments, and the columns after it. */
  lemma {:induction false} PiecesInserted(columns: seq<nat>, bounds: Bounds, line: seq<Endpoint>, low: Endpoint,
                                          high: Endpoint, doLow: bool, doHigh: bool, inserted: seq<Endpoint>, k: nat,
                                          n: nat, x: Key)
    requires columns != [] && Tidy(line) && TidyRun(columns[1..], bounds)
    requires (doLow || doHigh) && k + 1 + RunLength(columns[1..], bounds) == n
             && Partial(low, doLow, high, doHigh, k, n)
    requires Made(inserted, n, x) && |x| == k + |columns| && LineReady(inserted, low, doLow, high, doHigh, line)
    ensures var after := InsertedAll(inserted, Pieces(columns, bounds, line, low, high, doLow, doHigh));
            && Grown(after, inserted, low, doLow, high, doHigh, n, x)
            && (Within(low, high, x) && Holds(line, [x[k]]) && KeyInBounds(columns[1..], bounds, x[k + 1..]) ==>
               InPairs(after, x))
    decreases |columns|, 1, |line|
  {
    var lo, hi := line[0], line[1];
    var low', high' := Extended(low, lo, doLow), Extended(high, hi, doHigh);
    var doLow', doHigh' := doLow && Continues(lo), doHigh && Continues(hi);
    FirstSegment(line);
    FirstPushed(line, low, doLow, high, doHigh, k, n);
    ReadyFirst(inserted, low, doLow, high, doHigh, line);
    HereInserted(columns, bounds, low', high', doLow', doHigh', inserted, k, n, x);
    var here := Here(columns, bounds, low', high', doLow', doHigh');
    var rest := Pieces(columns, bounds, line[2..], low, high, doLow', doHigh');
    var one := InsertedAll(inserted, here);
    PiecesUnfold(columns, bounds, line, low, doLow, high, doHigh, inserted);
    MadeFromFirst(one, inserted, low, doLow, high, doHigh, lo, hi, n, x);
    if Within(low, high, x) && InSegment(lo, hi, [x[k]]) {
      PushedWithin(low, doLow, high, doHigh, lo, hi, x, k, n);
    }
    if |line| > 2 {
      RestReady(one, inserted, low, doLow, high, doHigh, line, n, x);
      PiecesInserted(columns, bounds, line[2..], low, high, doLow, doHigh, one, k, n, x);
      GrownTwice(InsertedAll(one, rest), one, inserted, low, doLow, high, doHigh, n, x);
    } else if Holds(line, [x[k]]) {
      HoldsOnce(line, x[k]);
    }
  }

  lemma {:induction false} EndsAfterRun(low: Endpoint, doLow: bool, high: Endpoint, doHigh: bool, k: nat, n: nat)
    requires Partial(low, doLow, high, doHigh, k, n) && 0 < k && (doLow || doHigh ==> k == n)
    ensures LowEnd(low, n) && HighEnd(high, n)
  {
  }

  lemma {:induction false} NextColumn(columns: seq<nat>, bounds: Bounds, line: seq<Endpoint>, x: Key, k: nat)
    requires columns != [] && columns[0] in bounds && bounds[columns[0]] == line && TidyRun(columns, bounds)
    requires |x| == k + |columns|
    ensures Tidy(line) && TidyRun(columns[1..], bounds)
    ensures RunLength(columns, bounds) == 1 + RunLength(columns[1..], bounds)
    ensures KeyInBounds(columns, bounds, x[k..])
       <==> FitsLine(line, [x[k]]) && Holds(line, [x[k]]) && KeyInBounds(columns[1..], bounds, x[k + 1..])
  {
    assert x[k..][1..] == x[k + 1..] && x[k..][0] == x[k];
  }

  /** What is inserted for some ends, and for the keys within them whose further parts are in bounds. */
  ghost predicate Served(after: seq<Endpoint>, inserted: seq<Endpoint>, low: Endpoint, doLow: bool, high: Endpoint,
                         doHigh: bool, n: nat, x: Key, inBounds: bool) {
    && Grown(after, inserted, low, doLow, high, doHigh, n, x)
    && (Within(low, high, x) && inBounds ==> InPairs(after, x))
  }

  /** One segment of a column, pushed, and the columns after it. */
  lemma {:induction false} HereInserted(columns: seq<nat>, bounds: Bounds, low: Endpoint, high: Endpoint, doLow: bool,
                                        doHigh: bool, inserted: seq<Endpoint>, k: nat, n: nat, x: Key)
    requires columns != [] && TidyRun(columns[1..], bounds) && k + 1 + RunLength(columns[1..], bounds) == n
    requires Partial(low, doLow, high, doHigh, k + 1, n)
    requires Made(inserted, n, x) && |x| == k + |columns| && EndsReady(inserted, low, doLow, high, doHigh)
    ensures Served(InsertedAll(inserted, Here(columns, bounds, low, high, doLow, doHigh)), inserted,
                   low, doLow, high, doHigh, n, x, KeyInBounds(columns[1..], bounds, x[k + 1..]))
    decreases |columns|, 0
  {
    if |columns| > 1 && (doLow || doHigh) && columns[1] in bounds {
      NextInserted(columns[1..], bounds, bounds[columns[1]], low, high, doLow, doHigh, inserted, k + 1, n, x);
    } else {
      LastInserted(columns, bounds, low, high, doLow, doHigh, inserted, k, n, x);
    }
  }

  lemma {:induction false} LastInserted(columns: seq<nat>, bounds: Bounds, low: Endpoint, high: Endpoint, doLow: bool,
                                        doHigh: bool, inserted: seq<Endpoint>, k: nat, n: nat, x: Key)
    requires columns != [] && k + 1 + RunLength(columns[1..], bounds) == n
    requires Partial(low, doLow, high, doHigh, k + 1, n)
    requires |columns| == 1 || !(doLow || doHigh) || columns[1] !in bounds
    requires Made(inserted, n, x) && EndsReady(inserted, low, doLow, high, doHigh)
    ensures Served(InsertedAll(inserted, [[low, high]]), inserted, low, doLow, high, doHigh, n, x, true)
  {
    EndsAfterRun(low, doLow, high, doHigh, k + 1, n);
    PieceInserted(inserted, low, doLow, high, doHigh, n, x);
  }

  lemma {:induction false} NextInserted(columns: seq<nat>, bounds: Bounds, line: seq<Endpoint>, low: Endpoint,
                                        high: Endpoint, doLow: bool, doHigh: bool, inserted: seq<Endpoint>, k: nat,
                                        n: nat, x: Key)
    requires columns != [] && columns[0] in bounds && bounds[columns[0]] == line && TidyRun(columns, bounds)
    requires (doLow || doHigh) && k + RunLength(columns, bounds) == n && Partial(low, doLow, high, doHigh, k, n)
    requires Made(inserted, n, x) && |x| == k + |columns| && EndsReady(inserted, low, doLow, high, doHigh)
    ensures Served(InsertedAll(inserted, Pieces(columns, bounds, line, low, high, doLow, doHigh)), inserted,
                   low, doLow, high, doHigh, n, x, KeyInBounds(columns, bounds, x[k..]))
    decreases |columns|, 2
  {
    NextColumn(columns, bounds, line, x, k);
    ReadyNext(inserted, low, doLow, high, doHigh, line);
    PiecesInserted(columns, bounds, line, low, high, doLow, doHigh, inserted, k, n, x);
  }
}
