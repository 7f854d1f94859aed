/** Segments, number lines, and the merge-and-sweep computation of their unions and
    intersections (database-jones/Adapter/common/IndexBounds.js). */
module NumberLines {
  import opened Endpoints

  // ---------------------------------------------------------------- segments

  function MarkLow(e: Endpoint): Endpoint {
    e.(side := Low)
  }

  function MarkHigh(e: Endpoint): Endpoint {
    e.(side := High)
  }

  /** The Segment constructor as the two-transition line it stands for. */
  function SegmentOf(p: Endpoint, q: Endpoint): seq<Endpoint> {
    if CompareEndpoints(p, q) == -1 then [MarkLow(p), MarkHigh(q)] else [MarkLow(q), MarkHigh(p)]
  }

  function NegativeInfinity(): Endpoint { Endpoint([NegInf], true, Low) }

  function PositiveInfinity(): Endpoint { Endpoint([PosInf], true, High) }

  function UnboundedLine(): seq<Endpoint> {
    [NegativeInfinity(), PositiveInfinity()]
  }

  /** unboundedSegment. */
  method UnboundedSegment() returns (line: seq<Endpoint>)
    ensures line == UnboundedLine()
  {
    line := SegmentOf(NegativeInfinity(), PositiveInfinity());
  }

  // ---------------------------------------------------------------- well-formed lines

  /** How many parts the keys of a line have, and how finely the line is sorted. */
  datatype Shape = Shape(parts: nat, order: Order)

  predicate Alternates(line: seq<Endpoint>) {
    forall i :: 0 <= i < |line| ==> line[i].side == (if i % 2 == 0 then Low else High)
  }

  predicate Sorted(line: seq<Endpoint>, shape: Shape) {
    && (forall i :: 0 <= i < |line| ==> |line[i].value| == shape.parts)
    && (forall i, j :: 0 <= i < j < |line| ==> NotAfter(line[i], line[j], shape.order))
  }

  predicate AllStandard(line: seq<Endpoint>) {
    forall i :: 0 <= i < |line| ==> Standard(line[i])
  }

  /** Segments run from transition 0 to 1, from 2 to 3, and so on. */
  predicate Paired(line: seq<Endpoint>) {
    |line| % 2 == 0 && Alternates(line)
  }

  predicate WellFormed(line: seq<Endpoint>, shape: Shape) {
    Paired(line) && Sorted(line, shape) && AllStandard(line)
  }

  predicate FitsLine(line: seq<Endpoint>, x: Key) {
    forall i :: 0 <= i < |line| ==> |line[i].value| <= |x|
  }

  /** Does some segment of the line hold the point? */
  predicate Holds(line: seq<Endpoint>, x: Key)
    requires FitsLine(line, x)
  {
    |line| >= 2 && (InSegment(line[0], line[1], x) || Holds(line[2..], x))
  }

  lemma {:induction false} SegmentOfOrdered(p: Endpoint, q: Endpoint, shape: Shape)
    requires Standard(p) && Standard(q) && |p.value| == |q.value| == shape.parts
    requires p.side.Low? && q.side.High? && NotAfter(p, q, ByPlace)
    ensures SegmentOf(p, q) == [p, q]
    ensures WellFormed([p, q], shape)
  {
    KeyLessTotal(p.value, q.value);
    CompareRealisesOrder(p, q);
  }

  // ---------------------------------------------------------------- depth

  function Delta(e: Endpoint): int {
    if e.side.Low? then 1 else -1
  }

  /** Lows less highs. */
  function Balance(list: seq<Endpoint>): int {
    if list == [] then 0 else Delta(list[0]) + Balance(list[1..])
  }

  /** Lows passed less highs passed on the way to the point. */
  function Depth(list: seq<Endpoint>, x: Key): int
    requires FitsLine(list, x)
  {
    if list == [] then 0
    else (if Passed(list[0], x) then Delta(list[0]) else 0) + Depth(list[1..], x)
  }

  function CoverCount(lines: seq<seq<Endpoint>>, x: Key): nat
    requires forall i :: 0 <= i < |lines| ==> FitsLine(lines[i], x)
  {
    if lines == [] then 0
    else (if Holds(lines[0], x) then 1 else 0) + CoverCount(lines[1..], x)
  }

  lemma {:induction false} NothingPassed(list: seq<Endpoint>, x: Key)
    requires FitsLine(list, x)
    requires forall i :: 0 <= i < |list| ==> !Passed(list[i], x)
    ensures Depth(list, x) == 0
  {
    if list != [] {
      NothingPassed(list[1..], x);
    }
  }

  lemma {:induction false} InSegmentPassed(low: Endpoint, high: Endpoint, x: Key)
    requires |low.value| <= |x| && |high.value| <= |x| && low.side.Low? && high.side.High?
    ensures InSegment(low, high, x) <==> Passed(low, x) && !Passed(high, x)
  {
  }

  predicate NonePassed(list: seq<Endpoint>, x: Key)
    requires FitsLine(list, x)
  {
    forall i :: 0 <= i < |list| ==> !Passed(list[i], x)
  }

  /** A sorted list is passed from the front: nothing is passed after something that is not. */
  predicate PassedInOrder(list: seq<Endpoint>, x: Key)
    requires FitsLine(list, x)
  {
    list == [] || (if Passed(list[0], x) then PassedInOrder(list[1..], x) else NonePassed(list, x))
  }

  lemma {:induction false} SortedPassedInOrder(list: seq<Endpoint>, shape: Shape, x: Key)
    requires Sorted(list, shape) && shape.parts <= |x|
    ensures PassedInOrder(list, x)
  {
    if list != [] {
      if Passed(list[0], x) {
        SortedPassedInOrder(list[1..], shape, x);
      } else {
        forall i | 0 <= i < |list|
          ensures !Passed(list[i], x)
        {
          if i > 0 && Passed(list[i], x) {
            NotAfterPassed(list[0], list[i], x, shape.order);
          }
        }
      }
    }
  }

  lemma {:induction false} NoneHeld(line: seq<Endpoint>, x: Key)
    requires Alternates(line) && FitsLine(line, x) && NonePassed(line, x)
    ensures !Holds(line, x)
  {
    if |line| >= 2 {
      AlternatesTail(line);
      InSegmentPassed(line[0], line[1], x);
      NoneHeld(line[2..], x);
    }
  }

  lemma {:induction false} AlternatesTail(line: seq<Endpoint>)
    requires Alternates(line) && |line| >= 2
    ensures Alternates(line[2..]) && line[0].side.Low? && line[1].side.High?
    ensures line[1..][0] == line[1] && line[1..][1..] == line[2..]
  {
    forall i | 0 <= i < |line[2..]|
      ensures line[2..][i].side == (if i % 2 == 0 then Low else High)
    {
      assert line[2..][i] == line[i + 2];
    }
  }

  /** Where the transitions are passed in order, the depth is 1 inside a segment and 0 outside. */
  lemma {:induction false} DepthIsHolds(line: seq<Endpoint>, x: Key)
    requires Paired(line) && FitsLine(line, x) && PassedInOrder(line, x)
    ensures Depth(line, x) == if Holds(line, x) then 1 else 0
  {
    if |line| >= 2 {
      AlternatesTail(line);
      InSegmentPassed(line[0], line[1], x);
      if !Passed(line[0], x) {
        NothingPassed(line, x);
        NoneHeld(line, x);
      } else if !Passed(line[1], x) {
        NothingPassed(line[1..], x);
      } else {
        DepthIsHolds(line[2..], x);
      }
    }
  }

  lemma {:induction false} LineDepthIsHolds(line: seq<Endpoint>, shape: Shape, x: Key)
    requires WellFormed(line, shape) && shape.parts <= |x|
    ensures Depth(line, x) == if Holds(line, x) then 1 else 0
  {
    SortedPassedInOrder(line, shape, x);
    DepthIsHolds(line, x);
  }

  // ---------------------------------------------------------------- merging

  function Merge(a: seq<Endpoint>, b: seq<Endpoint>): seq<Endpoint> {
    if a == [] then b
    else if b == [] then a
    else if CompareEndpoints(a[0], b[0]) < 1 then [a[0]] + Merge(a[1..], b)
    else [b[0]] + Merge(a, b[1..])
  }

  method MergeSortEndpoints(list1: seq<Endpoint>, list2: seq<Endpoint>) returns (result: seq<Endpoint>)
    ensures result == Merge(list1, list2)
  {
    result := [];
    var idx1, idx2 := 0, 0;
    while idx1 < |list1| && idx2 < |list2|
      invariant idx1 <= |list1| && idx2 <= |list2|
      invariant MergedSoFar(list1, list2, idx1, idx2, result)
      decreases |list1| - idx1 + |list2| - idx2
    {
      MergeTakes(list1, list2, idx1, idx2, result);
      if CompareEndpoints(list1[idx1], list2[idx2]) < 1 {
        result := result + [list1[idx1]];
        idx1 := idx1 + 1;
      } else {
        result := result + [list2[idx2]];
        idx2 := idx2 + 1;
      }
    }
    MergeEnds(list1, list2, idx1, idx2, result);
    result := result + list1[idx1..] + list2[idx2..];
  }

  /** The result is what merging starts with, up to the positions reached in the two lists. */
  ghost predicate MergedSoFar(list1: seq<Endpoint>, list2: seq<Endpoint>, i: nat, j: nat, result: seq<Endpoint>) {
    i <= |list1| && j <= |list2| && Merge(list1, list2) == result + Merge(list1[i..], list2[j..])
  }

  lemma {:induction false} MergeTakes(list1: seq<Endpoint>, list2: seq<Endpoint>, i: nat, j: nat, result: seq<Endpoint>)
    requires MergedSoFar(list1, list2, i, j, result) && i < |list1| && j < |list2|
    ensures if CompareEndpoints(list1[i], list2[j]) < 1 then MergedSoFar(list1, list2, i + 1, j, result + [list1[i]])
            else MergedSoFar(list1, list2, i, j + 1, result + [list2[j]])
  {
    var a, b := list1[i..], list2[j..];
    assert a[1..] == list1[i + 1..] && b[1..] == list2[j + 1..];
    Appended(result, list1[i], Merge(a[1..], b));
    Appended(result, list2[j], Merge(a, b[1..]));
  }

  lemma {:induction false} Appended(result: seq<Endpoint>, e: Endpoint, rest: seq<Endpoint>)
    ensures result + ([e] + rest) == result + [e] + rest
  {
  }

  lemma {:induction false} MergeEnds(list1: seq<Endpoint>, list2: seq<Endpoint>, i: nat, j: nat, result: seq<Endpoint>)
    requires MergedSoFar(list1, list2, i, j, result) && (i == |list1| || j == |list2|)
    ensures Merge(list1, list2) == result + list1[i..] + list2[j..]
  {
  }

  lemma {:induction false} SortedTail(a: seq<Endpoint>, shape: Shape)
    requires Sorted(a, shape) && AllStandard(a) && a != []
    ensures Sorted(a[1..], shape) && AllStandard(a[1..])
  {
  }

  lemma {:induction false} MergeElements(a: seq<Endpoint>, b: seq<Endpoint>)
    ensures |Merge(a, b)| == |a| + |b|
    ensures forall e :: e in Merge(a, b) <==> e in a || e in b
    decreases |a| + |b|
  {
    if a != [] && b != [] {
      assert a == [a[0]] + a[1..] && b == [b[0]] + b[1..];
      MergeElements(a[1..], b);
      MergeElements(a, b[1..]);
    }
  }

  lemma {:induction false} MergeSorted(a: seq<Endpoint>, b: seq<Endpoint>, shape: Shape)
    requires Sorted(a, shape) && Sorted(b, shape) && AllStandard(a) && AllStandard(b)
    ensures Sorted(Merge(a, b), shape) && AllStandard(Merge(a, b))
    decreases |a| + |b|
  {
    if a != [] && b != [] {
      SortedTail(a, shape);
      SortedTail(b, shape);
      CompareNotAfter(a[0], b[0], shape.order);
      if CompareEndpoints(a[0], b[0]) < 1 {
        MergeSorted(a[1..], b, shape);
        MergeElements(a[1..], b);
        PrependSorted(a[0], a[1..], b, Merge(a[1..], b), shape);
      } else {
        MergeSorted(a, b[1..], shape);
        MergeElements(a, b[1..]);
        PrependSorted(b[0], b[1..], a, Merge(a, b[1..]), shape);
      }
    }
  }

  lemma {:induction false} PrependSorted(e: Endpoint, rest: seq<Endpoint>, other: seq<Endpoint>, merged: seq<Endpoint>,
                                         shape: Shape)
    requires Standard(e) && |e.value| == shape.parts
    requires Sorted([e] + rest, shape) && Sorted(other, shape) && other != [] && NotAfter(e, other[0], shape.order)
    requires Sorted(merged, shape) && AllStandard(merged)
    requires forall m :: m in merged ==> m in rest || m in other
    ensures Sorted([e] + merged, shape) && AllStandard([e] + merged)
  {
    forall m | m in merged
      ensures |m.value| == shape.parts && NotAfter(e, m, shape.order)
    {
      if m in rest {
        var k :| 0 <= k < |rest| && rest[k] == m;
        assert ([e] + rest)[k + 1] == m && ([e] + rest)[0] == e;
      } else {
        var k :| 0 <= k < |other| && other[k] == m;
        if k > 0 {
          NotAfterTransitive(e, other[0], other[k], shape.order);
        }
      }
    }
  }

  lemma {:induction false} MergeDepth(a: seq<Endpoint>, b: seq<Endpoint>, x: Key)
    requires FitsLine(a, x) && FitsLine(b, x)
    ensures FitsLine(Merge(a, b), x)
    ensures Depth(Merge(a, b), x) == Depth(a, x) + Depth(b, x)
    decreases |a| + |b|
  {
    if a != [] && b != [] {
      if CompareEndpoints(a[0], b[0]) < 1 {
        MergeDepth(a[1..], b, x);
        assert Merge(a, b)[1..] == Merge(a[1..], b);
      } else {
        MergeDepth(a, b[1..], x);
        assert Merge(a, b)[1..] == Merge(a, b[1..]);
      }
    }
  }

  /** Starting from depth d, no prefix of the list takes the depth below zero. */
  predicate NeverNegative(list: seq<Endpoint>, depth: int) {
    depth >= 0 && (list == [] || NeverNegative(list[1..], depth + Delta(list[0])))
  }

  lemma {:induction false} MergeNeverNegative(a: seq<Endpoint>, d: int, b: seq<Endpoint>, e: int)
    requires NeverNegative(a, d) && NeverNegative(b, e)
    ensures NeverNegative(Merge(a, b), d + e)
    ensures Balance(Merge(a, b)) == Balance(a) + Balance(b)
    decreases |a| + |b|
  {
    if a == [] {
      Deeper(b, e, d);
    } else if b == [] {
      Deeper(a, d, e);
    } else if CompareEndpoints(a[0], b[0]) < 1 {
      MergeNeverNegative(a[1..], d + Delta(a[0]), b, e);
      assert Merge(a, b)[1..] == Merge(a[1..], b);
    } else {
      MergeNeverNegative(a, d, b[1..], e + Delta(b[0]));
      assert Merge(a, b)[1..] == Merge(a, b[1..]);
    }
  }

  lemma {:induction false} Deeper(a: seq<Endpoint>, d: int, more: nat)
    requires NeverNegative(a, d)
    ensures NeverNegative(a, d + more)
  {
    if a != [] {
      Deeper(a[1..], d + Delta(a[0]), more);
    }
  }

  lemma {:induction false} LineNeverNegative(line: seq<Endpoint>)
    requires Paired(line)
    ensures NeverNegative(line, 0) && Balance(line) == 0
  {
    if |line| >= 2 {
      AlternatesTail(line);
      LineNeverNegative(line[2..]);
    }
  }

  // ---------------------------------------------------------------- stacks

  /** All the transition points of a stack in one sorted list; lines are taken from the end. */
  function Stacked(lines: seq<seq<Endpoint>>): seq<Endpoint>
    requires lines != []
  {
    if |lines| == 1 then lines[0] else Merge(Stacked(lines[1..]), lines[0])
  }

  predicate AllWellFormed(lines: seq<seq<Endpoint>>, shape: Shape) {
    forall i :: 0 <= i < |lines| ==> WellFormed(lines[i], shape)
  }

  lemma {:induction false} StackedBalanced(lines: seq<seq<Endpoint>>)
    requires lines != [] && forall i :: 0 <= i < |lines| ==> Paired(lines[i])
    ensures NeverNegative(Stacked(lines), 0) && Balance(Stacked(lines)) == 0
  {
    LineNeverNegative(lines[0]);
    if |lines| > 1 {
      StackedBalanced(lines[1..]);
      MergeNeverNegative(Stacked(lines[1..]), 0, lines[0], 0);
    }
  }

  lemma {:induction false} StackedElements(lines: seq<seq<Endpoint>>, e: Endpoint)
    requires lines != [] && e in Stacked(lines)
    ensures exists i :: 0 <= i < |lines| && e in lines[i]
  {
    if |lines| == 1 {
      assert e in lines[0];
    } else {
      MergeElements(Stacked(lines[1..]), lines[0]);
      if e !in lines[0] {
        StackedElements(lines[1..], e);
        var i :| 0 <= i < |lines[1..]| && e in lines[1..][i];
        assert e in lines[i + 1];
      }
    }
  }

  lemma {:induction false} StackedSorted(lines: seq<seq<Endpoint>>, shape: Shape)
    requires lines != [] && AllWellFormed(lines, shape)
    ensures Sorted(Stacked(lines), shape) && AllStandard(Stacked(lines))
  {
    if |lines| > 1 {
      StackedSorted(lines[1..], shape);
      MergeSorted(Stacked(lines[1..]), lines[0], shape);
    }
  }

  lemma {:induction false} StackedDepth(lines: seq<seq<Endpoint>>, shape: Shape, x: Key)
    requires lines != [] && AllWellFormed(lines, shape) && shape.parts <= |x|
    ensures FitsLine(Stacked(lines), x)
    ensures Depth(Stacked(lines), x) == CoverCount(lines, x)
  {
    LineDepthIsHolds(lines[0], shape, x);
    if |lines| > 1 {
      StackedDepth(lines[1..], shape, x);
      MergeDepth(Stacked(lines[1..]), lines[0], x);
    } else {
      assert lines[1..] == [];
    }
  }

  // ---------------------------------------------------------------- sweeping

  /** The point is pushed when it takes the depth up to the target or down from it. */
  predicate Crosses(point: Endpoint, depth: int, target: int) {
    if point.side.Low? then depth + 1 == target else depth == target
  }

  function Swept(list: seq<Endpoint>, depth: int, target: int): seq<Endpoint> {
    if list == [] then []
    else
      var rest := Swept(list[1..], depth + Delta(list[0]), target);
      if Crosses(list[0], depth, target) then [list[0]] + rest else rest
  }

  lemma {:induction false} SweptElements(list: seq<Endpoint>, depth: int, target: int, shape: Shape)
    requires Sorted(list, shape) && AllStandard(list)
    ensures forall e :: e in Swept(list, depth, target) ==> e in list
    ensures Sorted(Swept(list, depth, target), shape) && AllStandard(Swept(list, depth, target))
  {
    if list != [] {
      SortedTail(list, shape);
      var next := depth + Delta(list[0]);
      SweptElements(list[1..], next, target, shape);
      forall e | e in Swept(list[1..], next, target)
        ensures NotAfter(list[0], e, shape.order) && e in list
      {
        var k :| 0 <= k < |list[1..]| && list[1..][k] == e;
        assert list[k + 1] == e;
      }
    }
  }

  /** From below the target depth the output starts with a low endpoint, else with a high one. */
  predicate AlternatesFrom(line: seq<Endpoint>, low: bool) {
    line == [] || (line[0].side == (if low then Low else High) && AlternatesFrom(line[1..], !low))
  }

  lemma {:induction false} SweptAlternates(list: seq<Endpoint>, depth: int, target: int)
    requires target >= 1 && NeverNegative(list, depth) && (forall e :: e in list ==> !e.side.Unmarked?)
    ensures AlternatesFrom(Swept(list, depth, target), depth < target)
    ensures (|Swept(list, depth, target)| % 2 == 0) <==> ((depth < target) == (depth + Balance(list) < target))
  {
    if list != [] {
      var next := depth + Delta(list[0]);
      SweptAlternates(list[1..], next, target);
      var rest := Swept(list[1..], next, target);
      var all := Swept(list, depth, target);
      assert list[0] in list;
      if all != rest {
        assert all == [list[0]] + rest && all[1..] == rest;
      }
    }
  }

  lemma {:induction false} AlternatesFromLow(line: seq<Endpoint>, low: bool)
    requires AlternatesFrom(line, low)
    ensures forall i :: 0 <= i < |line| ==> line[i].side == (if (i % 2 == 0) == low then Low else High)
  {
    if line != [] {
      AlternatesFromLow(line[1..], !low);
      forall i | 0 < i < |line|
        ensures line[i].side == (if (i % 2 == 0) == low then Low else High)
      {
        assert line[i] == line[1..][i - 1];
      }
    }
  }

  function AtLeast(depth: int, target: int): int {
    if depth >= target then 1 else 0
  }

  lemma {:induction false} SweptNonePassed(list: seq<Endpoint>, depth: int, target: int, x: Key)
    requires FitsLine(list, x) && NonePassed(list, x)
    ensures FitsLine(Swept(list, depth, target), x)
    ensures Depth(Swept(list, depth, target), x) == 0
  {
    if list != [] {
      SweptNonePassed(list[1..], depth + Delta(list[0]), target, x);
      DepthCons(list[0], Swept(list[1..], depth + Delta(list[0]), target), x);
    }
  }

  lemma {:induction false} DepthCons(e: Endpoint, rest: seq<Endpoint>, x: Key)
    requires |e.value| <= |x| && FitsLine(rest, x)
    ensures FitsLine([e] + rest, x)
    ensures Depth([e] + rest, x) == (if Passed(e, x) then Delta(e) else 0) + Depth(rest, x)
  {
    assert ([e] + rest)[1..] == rest;
  }

  lemma {:induction false} SweptDepth(list: seq<Endpoint>, depth: int, target: int, x: Key)
    requires FitsLine(list, x) && PassedInOrder(list, x)
    ensures FitsLine(Swept(list, depth, target), x)
    ensures AtLeast(depth, target) + Depth(Swept(list, depth, target), x)
         == AtLeast(depth + Depth(list, x), target)
  {
    if list == [] {
    } else if !Passed(list[0], x) {
      NothingPassed(list, x);
      SweptNonePassed(list, depth, target, x);
    } else {
      SweptDepth(list[1..], depth + Delta(list[0]), target, x);
      DepthCons(list[0], Swept(list[1..], depth + Delta(list[0]), target), x);
    }
  }

  lemma {:induction false} SweptStackDepth(lines: seq<seq<Endpoint>>, target: nat, shape: Shape, x: Key)
    requires lines != [] && AllWellFormed(lines, shape) && target >= 1 && shape.parts <= |x|
    ensures FitsLine(Swept(Stacked(lines), 0, target), x)
    ensures Depth(Swept(Stacked(lines), 0, target), x) == AtLeast(CoverCount(lines, x), target)
  {
    StackedDepth(lines, shape, x);
    assert PassedInOrder(Stacked(lines), x) by {
      StackedSorted(lines, shape);
      SortedPassedInOrder(Stacked(lines), shape, x);
    }
    SweptDepth(Stacked(lines), 0, target, x);
  }

  lemma {:induction false} SweptHolds(lines: seq<seq<Endpoint>>, target: nat, shape: Shape, x: Key)
    requires lines != [] && AllWellFormed(lines, shape) && target >= 1 && shape.parts <= |x|
    requires WellFormed(Swept(Stacked(lines), 0, target), shape)
    ensures Holds(Swept(Stacked(lines), 0, target), x) <==> CoverCount(lines, x) >= target
  {
    var line := Swept(Stacked(lines), 0, target);
    SweptStackDepth(lines, target, shape, x);
    LineDepthIsHolds(line, shape, x);
  }

  /** The sweep theorem: sweeping a stack of well-formed lines at depth target gives a
      well-formed line that holds exactly the points covered by at least target lines. */
  lemma {:induction false} SweepTheorem(lines: seq<seq<Endpoint>>, target: nat, shape: Shape)
    requires lines != [] && AllWellFormed(lines, shape) && target >= 1
    ensures WellFormed(Swept(Stacked(lines), 0, target), shape)
    ensures forall x: Key :: shape.parts <= |x| ==>
              (Holds(Swept(Stacked(lines), 0, target), x) <==> CoverCount(lines, x) >= target)
  {
    SweptWellFormed(lines, target, shape);
    forall x: Key | shape.parts <= |x|
      ensures Holds(Swept(Stacked(lines), 0, target), x) <==> CoverCount(lines, x) >= target
    {
      SweptHolds(lines, target, shape, x);
    }
  }

  /** A sweep keeps lines paired whatever the order of their transitions. */
  lemma {:induction false} SweptPaired(lines: seq<seq<Endpoint>>, target: nat)
    requires lines != [] && target >= 1
    requires forall i :: 0 <= i < |lines| ==> Paired(lines[i])
    ensures Paired(Swept(Stacked(lines), 0, target))
  {
    var list := Stacked(lines);
    StackedBalanced(lines);
    forall e | e in list
      ensures !e.side.Unmarked?
    {
      StackedElements(lines, e);
    }
    SweptAlternates(list, 0, target);
    AlternatesFromLow(Swept(list, 0, target), true);
  }

  lemma {:induction false} SweptWellFormed(lines: seq<seq<Endpoint>>, target: nat, shape: Shape)
    requires lines != [] && AllWellFormed(lines, shape) && target >= 1
    ensures WellFormed(Swept(Stacked(lines), 0, target), shape)
  {
    SweptPaired(lines, target);
    StackedSorted(lines, shape);
    SweptElements(Stacked(lines), 0, target, shape);
  }

  predicate HeldByAll(lines: seq<seq<Endpoint>>, x: Key)
    requires forall i :: 0 <= i < |lines| ==> FitsLine(lines[i], x)
  {
    forall i :: 0 <= i < |lines| ==> Holds(lines[i], x)
  }

  predicate HeldBySome(lines: seq<seq<Endpoint>>, x: Key)
    requires forall i :: 0 <= i < |lines| ==> FitsLine(lines[i], x)
  {
    exists i :: 0 <= i < |lines| && Holds(lines[i], x)
  }

  lemma {:induction false} CoverCountMeaning(lines: seq<seq<Endpoint>>, x: Key)
    requires forall i :: 0 <= i < |lines| ==> FitsLine(lines[i], x)
    ensures CoverCount(lines, x) <= |lines|
    ensures CoverCount(lines, x) == |lines| <==> HeldByAll(lines, x)
    ensures CoverCount(lines, x) >= 1 <==> HeldBySome(lines, x)
  {
    if lines != [] {
      CoverCountMeaning(lines[1..], x);
      assert forall i :: 0 < i < |lines| ==> lines[i] == lines[1..][i - 1];
      if HeldBySome(lines[1..], x) {
        var i :| 0 <= i < |lines[1..]| && Holds(lines[1..][i], x);
        assert Holds(lines[i + 1], x);
      }
    }
  }

  /** A stack holds the merged transition points of its lines. */
  class NumberLineStack {
    var size: nat
    var list: seq<Endpoint>

    constructor (lines: seq<seq<Endpoint>>)
      requires lines != []
      ensures size == |lines| && list == Stacked(lines)
    {
      var arrays := lines;
      var merged;
      if |arrays| < 2 {
        merged := arrays[0];
      } else {
        merged := arrays[|arrays| - 1];
        arrays := arrays[..|arrays| - 1];
        while arrays != []
          invariant |arrays| < |lines| && arrays == lines[..|arrays|]
          invariant merged == Stacked(lines[|arrays|..])
        {
          var ins := arrays[|arrays| - 1];
          arrays := arrays[..|arrays| - 1];
          assert lines[|arrays|..][1..] == lines[|arrays| + 1..];
          merged := MergeSortEndpoints(merged, ins);
        }
        assert lines[0..] == lines;
      }
      size := |lines|;
      list := merged;
    }

    method Sweep(targetDepth: nat) returns (result: seq<Endpoint>)
      ensures result == Swept(list, 0, targetDepth)
    {
      var depth := 0;
      result := [];
      for i := 0 to |list|
        invariant Swept(list, 0, targetDepth) == result + Swept(list[i..], depth, targetDepth)
      {
        var point := list[i];
        assert list[i..][0] == point && list[i..][1..] == list[i + 1..];
        if point.side.Low? {
          depth := depth + 1;
          if depth == targetDepth {
            result := result + [point];
          }
        } else {
          if depth == targetDepth {
            result := result + [point];
          }
          depth := depth - 1;
        }
      }
    }
  }

  /** NumberLineStack.intersection over given lines. */
  method IntersectionOf(lines: seq<seq<Endpoint>>, ghost shape: Shape) returns (line: seq<Endpoint>)
    requires lines != [] && AllWellFormed(lines, shape)
    ensures line == Swept(Stacked(lines), 0, |lines|)
    ensures WellFormed(line, shape)
    ensures forall x: Key :: shape.parts <= |x| ==> (Holds(line, x) <==> HeldByAll(lines, x))
  {
    var stack := new NumberLineStack(lines);
    line := stack.Sweep(stack.size);
    SweepTheorem(lines, |lines|, shape);
    forall x: Key | shape.parts <= |x|
      ensures Holds(line, x) <==> HeldByAll(lines, x)
    {
      CoverCountMeaning(lines, x);
    }
  }

  /** NumberLineStack.union over given lines. */
  method UnionOf(lines: seq<seq<Endpoint>>, ghost shape: Shape) returns (line: seq<Endpoint>)
    requires lines != [] && AllWellFormed(lines, shape)
    ensures line == Swept(Stacked(lines), 0, 1)
    ensures WellFormed(line, shape)
    ensures forall x: Key :: shape.parts <= |x| ==> (Holds(line, x) <==> HeldBySome(lines, x))
  {
    var stack := new NumberLineStack(lines);
    line := stack.Sweep(1);
    SweepTheorem(lines, 1, shape);
    forall x: Key | shape.parts <= |x|
      ensures Holds(line, x) <==> HeldBySome(lines, x)
    {
      CoverCountMeaning(lines, x);
    }
  }
}
