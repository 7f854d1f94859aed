/** Complementing a number line in place (database-jones/Adapter/common/IndexBounds.js). */
module Complements {
  import opened Endpoints
  import opened NumberLines

  /** The lines of a single column. */
  const COLUMN := Shape(1, ByCut)

  /** Endpoint.isFinite: the last part decides; neither NULL nor an infinity is finite. */
  predicate IsFinite(value: Key) {
    value != [] && value[|value| - 1].Val?
  }

  function FlipSide(side: Side): Side {
    match side
    case Low => High
    case High => Low
    case Unmarked => Unmarked
  }

  /** Endpoint.complement. */
  function Flipped(e: Endpoint): Endpoint {
    Endpoint(e.value, if IsFinite(e.value) then !e.inclusive else e.inclusive, FlipSide(e.side))
  }

  function AllFlipped(list: seq<Endpoint>): seq<Endpoint> {
    seq(|list|, i requires 0 <= i < |list| => Flipped(list[i]))
  }

  /** A finite outer endpoint flips and opens the line to infinity; any other is dropped. */
  function OpenLow(e: Endpoint): seq<Endpoint> {
    if IsFinite(e.value) then [NegativeInfinity(), Flipped(e)] else []
  }

  function OpenHigh(e: Endpoint): seq<Endpoint> {
    if IsFinite(e.value) then [Flipped(e), PositiveInfinity()] else []
  }

  /** The transitions that are not at the two ends. */
  function Inner(line: seq<Endpoint>): seq<Endpoint>
    requires |line| >= 2
  {
    line[1..|line| - 1]
  }

  /** The line a complement leaves behind. */
  function Complemented(line: seq<Endpoint>): seq<Endpoint>
    requires |line| >= 2
  {
    OpenLow(line[0]) + AllFlipped(Inner(line)) + OpenHigh(line[|line| - 1])
  }

  /** A number line is the ordered list of its transition points. */
  class NumberLine {
    var transitions: seq<Endpoint>

    constructor (line: seq<Endpoint>)
      ensures transitions == line
    {
      transitions := line;
    }

    method FlipAll()
      modifies this
      ensures transitions == AllFlipped(old(transitions))
    {
      var flipped := [];
      for i := 0 to |transitions|
        invariant transitions == old(transitions)
        invariant flipped == AllFlipped(transitions[..i])
      {
        flipped := flipped + [Flipped(transitions[i])];
      }
      assert transitions[..|transitions|] == transitions;
      transitions := flipped;
    }

    /** Exclude NULL; only used for the != comparator. */
    method NonNull()
      requires transitions != []
      modifies this
      ensures transitions == old(transitions)[0 := Endpoint([Null], false, Low)]
    {
      transitions := transitions[0 := MarkLow(Endpoint([Null], false, Unmarked))];
    }

    /** Lines have an even number of transitions. The empty line has no lower bound to ask
        for (the source calls a method of the function posInf), so ok is false there. */
    method Complement() returns (ok: bool)
      requires |transitions| % 2 == 0
      modifies this
      ensures ok <==> old(transitions) != []
      ensures transitions == if ok then Complemented(old(transitions)) else []
    {
      ghost var was := transitions;
      FlipAll();
      if transitions == [] {
        return false;
      }
      ghost var first, inner, last := Flipped(was[0]), AllFlipped(Inner(was)), Flipped(was[|was| - 1]);
      assert transitions == [first] + inner + [last];
      if !IsFinite(transitions[0].value) {
        transitions := transitions[1..];
      } else {
        transitions := [NegativeInfinity()] + transitions;
      }
      assert transitions == OpenLow(was[0]) + inner + [last];
      if !IsFinite(transitions[|transitions| - 1].value) {
        transitions := transitions[..|transitions| - 1];
      } else {
        transitions := transitions + [PositiveInfinity()];
      }
      return true;
    }
  }

  // ---------------------------------------------------------------- exactness

  /** A column value other than NULL, as a point of a one-column line. */
  predicate NonNullPoint(x: Key) {
    |x| == 1 && x[0].Val?
  }

  /** Flipping a finite endpoint keeps its place on the line, as does flipping one at NULL
      for every point above NULL. */
  lemma {:induction false} FlipKeepsPlace(e: Endpoint, x: Key)
    requires Standard(e) && |e.value| == 1 && NonNullPoint(x) && (IsFinite(e.value) || e.value == [Null])
    ensures Passed(Flipped(e), x) <==> Passed(e, x)
    ensures Delta(Flipped(e)) == -Delta(e)
  {
    assert x[..1] == x;
    KeyLessTotal(x, e.value);
  }

  predicate Flippable(list: seq<Endpoint>) {
    forall i :: 0 <= i < |list| ==>
      Standard(list[i]) && |list[i].value| == 1 && (IsFinite(list[i].value) || list[i].value == [Null])
  }

  lemma {:induction false} FlippedDepth(list: seq<Endpoint>, x: Key)
    requires Flippable(list) && NonNullPoint(x)
    ensures FitsLine(AllFlipped(list), x) && Depth(AllFlipped(list), x) == -Depth(list, x)
  {
    if list != [] {
      FlipKeepsPlace(list[0], x);
      FlippedDepth(list[1..], x);
      assert AllFlipped(list) == [Flipped(list[0])] + AllFlipped(list[1..]);
      DepthCons(Flipped(list[0]), AllFlipped(list[1..]), x);
    }
  }

  lemma {:induction false} OnePart(a: Key, b: Key)
    requires |a| == |b| == 1
    ensures KeyLess(a, b) <==> Less(a[0], b[0])
    ensures a == b <==> a[0] == b[0]
  {
  }

  /** Inside a one-column line, infinities can only stand at its two ends. */
  lemma {:induction false} InnerColumnValue(line: seq<Endpoint>, i: int)
    requires WellFormed(line, COLUMN) && 0 < i < |line| - 1
    ensures Standard(line[i]) && |line[i].value| == 1 && line[i].value[0].IsColumnValue()
  {
    OnePart(line[i - 1].value, line[i].value);
    OnePart(line[i].value, line[i + 1].value);
    assert NotAfter(line[i - 1], line[i], COLUMN.order) && NotAfter(line[i], line[i + 1], COLUMN.order);
    assert Standard(line[i - 1]) && Standard(line[i + 1]) && Standard(line[i]);
  }

  lemma {:induction false} InnerFlippable(line: seq<Endpoint>)
    requires WellFormed(line, COLUMN) && |line| >= 2
    ensures Flippable(Inner(line))
  {
    forall i | 0 <= i < |Inner(line)|
      ensures Standard(Inner(line)[i]) && |Inner(line)[i].value| == 1 && Inner(line)[i].value[0].IsColumnValue()
    {
      InnerColumnValue(line, i + 1);
    }
  }

  lemma {:induction false} DepthAppend(a: seq<Endpoint>, b: seq<Endpoint>, x: Key)
    requires FitsLine(a, x) && FitsLine(b, x)
    ensures FitsLine(a + b, x) && Depth(a + b, x) == Depth(a, x) + Depth(b, x)
  {
    if a == [] {
      assert a + b == b;
    } else {
      DepthAppend(a[1..], b, x);
      assert a + b == [a[0]] + (a[1..] + b);
      DepthCons(a[0], a[1..] + b, x);
    }
  }

  lemma {:induction false} DepthAppendThree(a: seq<Endpoint>, b: seq<Endpoint>, c: seq<Endpoint>, x: Key)
    requires FitsLine(a, x) && FitsLine(b, x) && FitsLine(c, x)
    ensures FitsLine(a + b + c, x) && Depth(a + b + c, x) == Depth(a, x) + Depth(b, x) + Depth(c, x)
  {
    DepthAppend(a, b, x);
    DepthAppend(a + b, c, x);
  }

  lemma {:induction false} DepthOne(e: Endpoint, x: Key)
    requires |e.value| <= |x|
    ensures Depth([e], x) == if Passed(e, x) then Delta(e) else 0
  {
    assert [e] + [] == [e];
    DepthCons(e, [], x);
  }

  lemma {:induction false} OpenLowDepth(e: Endpoint, x: Key)
    requires Standard(e) && |e.value| == 1 && e.side.Low? && NonNullPoint(x)
    ensures FitsLine(OpenLow(e), x) && Depth(OpenLow(e), x) == 1 - Depth([e], x)
  {
    assert x[..1] == x;
    OnePart(x, e.value);
    OnePart(e.value, x);
    DepthOne(e, x);
    if IsFinite(e.value) {
      FlipKeepsPlace(e, x);
      DepthOne(Flipped(e), x);
      OnePart(x, [NegInf]);
      DepthCons(NegativeInfinity(), [Flipped(e)], x);
    }
  }

  lemma {:induction false} OpenHighDepth(e: Endpoint, x: Key)
    requires Standard(e) && |e.value| == 1 && e.side.High? && NonNullPoint(x)
    ensures FitsLine(OpenHigh(e), x)
    ensures Depth(OpenHigh(e), x) == if e.value == [Null] then 0 else -Depth([e], x)
  {
    assert x[..1] == x;
    OnePart(x, e.value);
    OnePart(e.value, x);
    DepthOne(e, x);
    if IsFinite(e.value) {
      FlipKeepsPlace(e, x);
      DepthOne(PositiveInfinity(), x);
      OnePart([PosInf], x);
      DepthCons(Flipped(e), [PositiveInfinity()], x);
    }
  }

  predicate EndsAtNull(line: seq<Endpoint>) {
    line != [] && line[|line| - 1].value == [Null]
  }

  lemma {:induction false} OpenedDepth(first: Endpoint, inner: seq<Endpoint>, last: Endpoint, x: Key)
    requires Standard(first) && |first.value| == 1 && first.side.Low?
    requires Standard(last) && |last.value| == 1 && last.side.High?
    requires Flippable(inner) && NonNullPoint(x)
    ensures FitsLine([first] + inner + [last], x)
    ensures FitsLine(OpenLow(first) + AllFlipped(inner) + OpenHigh(last), x)
    ensures Depth(OpenLow(first) + AllFlipped(inner) + OpenHigh(last), x)
         == 1 - Depth([first] + inner + [last], x)
            + (if last.value == [Null] then Depth([last], x) else 0)
  {
    FlippedDepth(inner, x);
    OpenLowDepth(first, x);
    OpenHighDepth(last, x);
    DepthAppendThree([first], inner, [last], x);
    DepthAppendThree(OpenLow(first), AllFlipped(inner), OpenHigh(last), x);
  }

  /** At a non-null point the complement has one depth where the line has the other, unless
      the line ends at NULL. */
  lemma {:induction false} ComplementDepth(line: seq<Endpoint>, x: Key)
    requires WellFormed(line, COLUMN) && |line| >= 2 && NonNullPoint(x)
    ensures FitsLine(Complemented(line), x) && FitsLine(line, x)
    ensures Depth(Complemented(line), x) == if EndsAtNull(line) then 0 else 1 - Depth(line, x)
  {
    var n := |line| - 1;
    assert line[0].side.Low? && line[n].side.High? && Standard(line[0]) && Standard(line[n]);
    InnerFlippable(line);
    assert line == [line[0]] + Inner(line) + [line[n]];
    OpenedDepth(line[0], Inner(line), line[n], x);
    if EndsAtNull(line) {
      NullEndDepth(line, x);
    }
  }

  /** A line that ends at NULL has no non-null point. */
  lemma {:induction false} NullEndDepth(line: seq<Endpoint>, x: Key)
    requires WellFormed(line, COLUMN) && EndsAtNull(line) && NonNullPoint(x)
    ensures Depth(line, x) == 0 && Depth([line[|line| - 1]], x) == -1
  {
    var n := |line| - 1;
    LineNeverNegative(line);
    assert Passed(line[n], x) by { assert x[..1] == x; OnePart([Null], x); OnePart(x, [Null]); }
    forall i | 0 <= i < n
      ensures Passed(line[i], x)
    {
      NotAfterPassed(line[i], line[n], x, COLUMN.order);
    }
    AllPassed(line, x);
    DepthOne(line[n], x);
  }

  lemma {:induction false} AllPassed(list: seq<Endpoint>, x: Key)
    requires FitsLine(list, x) && (forall i :: 0 <= i < |list| ==> Passed(list[i], x))
    ensures Depth(list, x) == Balance(list)
  {
    if list != [] {
      AllPassed(list[1..], x);
    }
  }

  // ---------------------------------------------------------------- shape of the complement

  /** By how much complementing moves the transitions along. */
  function Shift(line: seq<Endpoint>): int
    requires |line| >= 2
  {
    if IsFinite(line[0].value) then 1 else -1
  }

  function Growth(line: seq<Endpoint>): int
    requires |line| >= 2
  {
    Shift(line) + if IsFinite(line[|line| - 1].value) then 1 else -1
  }

  /** The k-th transition of the complement. */
  function ComplementPoint(line: seq<Endpoint>, k: int): Endpoint
    requires |line| >= 2
  {
    var i := k - Shift(line);
    if i < 0 then NegativeInfinity()
    else if i >= |line| then PositiveInfinity()
    else Flipped(line[i])
  }

  predicate IsComplement(c: seq<Endpoint>, line: seq<Endpoint>)
    requires |line| >= 2
  {
    |c| == |line| + Growth(line) && forall k :: 0 <= k < |c| ==> c[k] == ComplementPoint(line, k)
  }

  lemma {:induction false} ComplementedAt(line: seq<Endpoint>)
    requires |line| >= 2
    ensures IsComplement(Complemented(line), line)
  {
  }

  lemma {:induction false} ComplementAlternates(c: seq<Endpoint>, line: seq<Endpoint>)
    requires Paired(line) && |line| >= 2 && IsComplement(c, line)
    ensures Paired(c)
  {
    forall k | 0 <= k < |c|
      ensures c[k].side == (if k % 2 == 0 then Low else High)
    {
      var i := k - Shift(line);
      if 0 <= i < |line| {
        assert line[i].side == (if i % 2 == 0 then Low else High);
      }
    }
  }

  /** The transitions of the complement stand at column values or at the ends. */
  lemma {:induction false} ComplementPointStandard(c: seq<Endpoint>, line: seq<Endpoint>, k: int)
    requires WellFormed(line, COLUMN) && |line| >= 2 && IsComplement(c, line) && 0 <= k < |c|
    ensures Standard(c[k]) && |c[k].value| == 1
    ensures var i := k - Shift(line);
            0 <= i < |line| ==> Standard(line[i]) && |line[i].value| == 1 && line[i].value[0].IsColumnValue()
  {
    var i := k - Shift(line);
    if 0 <= i < |line| {
      assert Standard(line[i]) && |line[i].value| == 1;
      if 0 < i < |line| - 1 {
        InnerColumnValue(line, i);
      }
    }
  }

  /** A non-null point passes the complement's transitions as it passed the line's. */
  lemma {:induction false} ComplementPassedAt(c: seq<Endpoint>, line: seq<Endpoint>, k: int, x: Key)
    requires WellFormed(line, COLUMN) && |line| >= 2 && IsComplement(c, line)
    requires NonNullPoint(x) && 0 <= k < |c|
    ensures |c[k].value| == 1
    ensures var i := k - Shift(line);
            Passed(c[k], x) <==> i < 0 || (i < |line| && Passed(line[i], x))
  {
    var i := k - Shift(line);
    ComplementPointStandard(c, line, k);
    if 0 <= i < |line| {
      FlipKeepsPlace(line[i], x);
    } else {
      assert x[..1] == x;
      OnePart(x, [NegInf]);
      OnePart([PosInf], x);
    }
  }

  lemma {:induction false} PairwisePassedInOrder(list: seq<Endpoint>, x: Key)
    requires FitsLine(list, x)
    requires forall i, j :: 0 <= i < j < |list| && Passed(list[j], x) ==> Passed(list[i], x)
    ensures PassedInOrder(list, x)
  {
    if list != [] && Passed(list[0], x) {
      PairwisePassedInOrder(list[1..], x);
    }
  }

  lemma {:induction false} ComplementPassedInOrder(c: seq<Endpoint>, line: seq<Endpoint>, x: Key)
    requires WellFormed(line, COLUMN) && |line| >= 2 && IsComplement(c, line) && NonNullPoint(x)
    ensures FitsLine(c, x) && PassedInOrder(c, x)
  {
    var s := Shift(line);
    forall k | 0 <= k < |c|
      ensures |c[k].value| == 1
    {
      ComplementPassedAt(c, line, k, x);
    }
    forall i, j | 0 <= i < j < |c| && Passed(c[j], x)
      ensures Passed(c[i], x)
    {
      ComplementPassedAt(c, line, i, x);
      ComplementPassedAt(c, line, j, x);
      if i - s >= 0 {
        NotAfterPassed(line[i - s], line[j - s], x, ByCut);
      }
    }
    PairwisePassedInOrder(c, x);
  }

  lemma {:induction false} ComplementHolds(line: seq<Endpoint>, x: Key)
    requires WellFormed(line, COLUMN) && |line| >= 2 && NonNullPoint(x)
    ensures FitsLine(Complemented(line), x) && FitsLine(line, x)
    ensures Holds(Complemented(line), x) <==> !EndsAtNull(line) && !Holds(line, x)
  {
    var c := Complemented(line);
    ComplementDepth(line, x);
    ComplementedAt(line);
    ComplementAlternates(c, line);
    ComplementPassedInOrder(c, line, x);
    DepthIsHolds(c, x);
    LineDepthIsHolds(line, COLUMN, x);
  }

  /** Complementing is exact on non-null values precisely when the line does not end at NULL:
      on [null, null], for one, nothing is left where everything should be. */
  lemma {:induction false} ComplementExact(line: seq<Endpoint>)
    requires WellFormed(line, COLUMN) && |line| >= 2
    ensures forall x: Key :: NonNullPoint(x) ==> FitsLine(line, x) && FitsLine(Complemented(line), x)
    ensures !EndsAtNull(line) <==>
              forall x: Key :: NonNullPoint(x) ==> (Holds(Complemented(line), x) <==> !Holds(line, x))
  {
    forall x: Key | NonNullPoint(x)
      ensures FitsLine(line, x) && FitsLine(Complemented(line), x)
      ensures Holds(Complemented(line), x) <==> !EndsAtNull(line) && !Holds(line, x)
    {
      ComplementHolds(line, x);
    }
    if EndsAtNull(line) {
      var x := [Val(0.0)];
      assert NonNullPoint(x);
      NullEndDepth(line, x);
      LineDepthIsHolds(line, COLUMN, x);
    }
  }

  /** Inner transitions at NULL keep their inclusiveness and so change sides of NULL. */
  predicate InnerNullsAlign(line: seq<Endpoint>) {
    forall i, j :: 0 < i < j < |line| - 1 && line[i].value == [Null] && line[j].value == [Null] ==>
      Level(line[i], ByCut) == Level(line[j], ByCut)
  }

  lemma {:induction false} FlippedNotAfter(p: Endpoint, q: Endpoint)
    requires Standard(p) && Standard(q) && |p.value| == |q.value| == 1
    requires p.value[0].IsColumnValue() && q.value[0].IsColumnValue()
    requires NotAfter(p, q, ByCut)
    ensures NotAfter(Flipped(p), Flipped(q), ByCut) <==>
              !(p.value == q.value == [Null] && Level(p, ByCut) < Level(q, ByCut))
  {
    KeyLessTotal(p.value, q.value);
  }

  /** The mutated line is well formed again unless two inner transitions lie on different
      sides of NULL. */
  lemma {:induction false} ComplementWellFormed(line: seq<Endpoint>)
    requires WellFormed(line, COLUMN) && |line| >= 2
    ensures WellFormed(Complemented(line), COLUMN) <==> InnerNullsAlign(line)
  {
    var c := Complemented(line);
    ComplementedAt(line);
    ComplementAlternates(c, line);
    forall k | 0 <= k < |c|
      ensures Standard(c[k]) && |c[k].value| == 1
    {
      ComplementPointStandard(c, line, k);
    }
    if InnerNullsAlign(line) {
      forall i, j | 0 <= i < j < |c|
        ensures NotAfter(c[i], c[j], ByCut)
      {
        ComplementSortedAt(c, line, i, j);
      }
    } else {
      var i, j :| 0 < i < j < |line| - 1 && line[i].value == [Null] && line[j].value == [Null]
                  && Level(line[i], ByCut) != Level(line[j], ByCut);
      NullsCross(c, line, i, j);
      assert !NotAfter(c[i + Shift(line)], c[j + Shift(line)], COLUMN.order);
    }
  }

  lemma {:induction false} ComplementSortedAt(c: seq<Endpoint>, line: seq<Endpoint>, i: int, j: int)
    requires WellFormed(line, COLUMN) && |line| >= 2 && IsComplement(c, line) && InnerNullsAlign(line)
    requires 0 <= i < j < |c|
    ensures |c[i].value| == |c[j].value| == 1 && NotAfter(c[i], c[j], ByCut)
  {
    ComplementPointStandard(c, line, i);
    ComplementPointStandard(c, line, j);
    var p, q := i - Shift(line), j - Shift(line);
    if 0 <= p && q < |line| {
      assert NotAfter(line[p], line[q], ByCut);
      FlippedNotAfter(line[p], line[q]);
    } else {
      OnePart(c[i].value, c[j].value);
    }
  }

  lemma {:induction false} NullsCross(c: seq<Endpoint>, line: seq<Endpoint>, i: int, j: int)
    requires WellFormed(line, COLUMN) && |line| >= 2 && IsComplement(c, line)
    requires 0 < i < j < |line| - 1 && line[i].value == [Null] && line[j].value == [Null]
    requires Level(line[i], ByCut) != Level(line[j], ByCut)
    ensures var s := Shift(line);
            && 0 <= i + s < j + s < |c| && |c[i + s].value| == |c[j + s].value|
            && !NotAfter(c[i + s], c[j + s], ByCut)
  {
    assert NotAfter(line[i], line[j], ByCut) && Standard(line[i]) && Standard(line[j]);
    FlippedNotAfter(line[i], line[j]);
    KeyLessTotal([Null], [Null]);
  }

  predicate HasNull(line: seq<Endpoint>) {
    exists i :: 0 <= i < |line| && line[i].value == [Null]
  }

  lemma {:induction false} NullComesEarly(line: seq<Endpoint>)
    requires WellFormed(line, COLUMN) && |line| >= 2 && HasNull(line) && !EndsAtNull(line)
    ensures !IsFinite(line[0].value) && (line[0].value == [Null] || (|line| > 2 && line[1].value == [Null]))
  {
    var i :| 0 <= i < |line| && line[i].value == [Null];
    if i > 0 {
      OnePart(line[0].value, line[i].value);
      OnePart(line[1].value, line[i].value);
      assert NotAfter(line[0], line[i], ByCut) && (i > 1 ==> NotAfter(line[1], line[i], ByCut));
      InnerColumnValue(line, 1);
    }
  }

  /** An end of the complement is finite when the line was unbounded there and the next
      transition inwards is finite. */
  lemma {:induction false} ComplementEnds(c: seq<Endpoint>, line: seq<Endpoint>)
    requires |line| >= 2 && IsComplement(c, line) && |c| >= 2
    ensures IsFinite(c[0].value) <==> !IsFinite(line[0].value) && IsFinite(line[1].value)
    ensures IsFinite(c[|c| - 1].value) <==>
            !IsFinite(line[|line| - 1].value) && IsFinite(line[|line| - 2].value)
  {
    assert c[0] == ComplementPoint(line, 0) && c[|c| - 1] == ComplementPoint(line, |c| - 1);
  }

  lemma {:induction false} NullNotRestored(c: seq<Endpoint>, d: seq<Endpoint>, line: seq<Endpoint>)
    requires WellFormed(line, COLUMN) && |line| >= 2 && HasNull(line)
    requires IsComplement(c, line) && |c| >= 2 && IsComplement(d, c)
    ensures d != line
  {
    ComplementEnds(c, line);
    if !EndsAtNull(line) {
      NullComesEarly(line);
    }
    if |d| > 0 {
      assert d[0] == ComplementPoint(c, 0) && d[|d| - 1] == ComplementPoint(c, |d| - 1);
    }
  }

  lemma {:induction false} Restored(c: seq<Endpoint>, d: seq<Endpoint>, line: seq<Endpoint>)
    requires WellFormed(line, COLUMN) && |line| >= 2 && !HasNull(line)
    requires IsComplement(c, line) && |c| >= 2 && IsComplement(d, c)
    ensures d == line
  {
    ComplementEnds(c, line);
    if |line| > 2 {
      InnerColumnValue(line, 1);
      InnerColumnValue(line, |line| - 2);
    }
    assert |d| == |line|;
    forall i | 0 <= i < |line|
      ensures d[i] == line[i]
    {
      assert Standard(line[i]) && |line[i].value| == 1;
      assert line[i].side == (if i % 2 == 0 then Low else High);
      RestoredAt(c, d, line, i);
    }
  }

  lemma {:induction false} RestoredAt(c: seq<Endpoint>, d: seq<Endpoint>, line: seq<Endpoint>, i: int)
    requires |line| >= 2 && IsComplement(c, line) && |c| >= 2 && IsComplement(d, c)
    requires |d| == |line| && Shift(c) == -Shift(line) && 0 <= i < |line| && |line| % 2 == 0
    requires Standard(line[i]) && |line[i].value| == 1 && line[i].value != [Null]
    requires line[i].side == (if i % 2 == 0 then Low else High)
    ensures d[i] == line[i]
  {
    assert d[i] == ComplementPoint(c, i);
    var k := i + Shift(line);
    if 0 <= k < |c| {
      assert c[k] == ComplementPoint(line, k);
    }
  }

  /** Complementing twice restores the line exactly when no endpoint is NULL and the first
      complement is not the empty line. */
  lemma {:induction false} ComplementInvolution(line: seq<Endpoint>)
    requires WellFormed(line, COLUMN) && |line| >= 2
    ensures (|Complemented(line)| >= 2 && Complemented(Complemented(line)) == line)
            <==> (!HasNull(line) && |line| + Growth(line) > 0)
  {
    var c := Complemented(line);
    ComplementedAt(line);
    ComplementAlternates(c, line);
    if |c| >= 2 {
      ComplementedAt(c);
      if HasNull(line) {
        NullNotRestored(c, Complemented(c), line);
      } else {
        Restored(c, Complemented(c), line);
      }
    }
  }
}
