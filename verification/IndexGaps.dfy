/** Which keys consolidation loses when it does not reset its flags from one segment of a column to the next
    (database-jones/Adapter/common/IndexBounds.js, IndexBoundVisitor.consolidate). */
module IndexGaps {
  import opened Endpoints
  import opened NumberLines
  import opened Complements
  import opened QueryTrees
  import opened ColumnMasks
  import opened ColumnBounds
  import opened ColumnCover
  import opened Consolidation
  import opened IndexKeys
  import opened Insertions
  import opened IndexRuns
  import opened IndexCover
  import opened IndexBounds

  // ---------------------------------------------------------------- pieces of one column

  /** The segments of a single bounded column: an end that takes no more parts is left without any. */
  function Cuts(line: seq<Endpoint>, doLow: bool, doHigh: bool): seq<seq<Endpoint>> {
    if |line| < 2 then []
    else [Cut(line[0], line[1], doLow, doHigh)]
         + Cuts(line[2..], doLow && Continues(line[0]), doHigh && Continues(line[1]))
  }

  predicate SolidAt(line: seq<Endpoint>, i: nat, j: nat) {
    i < |line| ==>
      && |line[i].value| == 1 && Standard(line[i]) && line[i].side == (if i % 2 == 0 then Low else High)
      && (i < j < |line| && |line[j].value| == 1 ==> NotAfter(line[i], line[j], ByCut))
      && (i + 1 < |line| && i % 2 == 0 ==> NotEmpty(line[i], line[i + 1]))
  }

  /** A column's line none of whose segments is empty. */
  ghost predicate Solid(line: seq<Endpoint>) {
    |line| % 2 == 0 && forall i: nat, j: nat {:trigger SolidAt(line, i, j)} :: SolidAt(line, i, j)
  }

  lemma {:induction false} InOrder(line: seq<Endpoint>, i: nat, j: nat)
    requires Solid(line) && i < j < |line|
    ensures |line[i].value| == |line[j].value| == 1 && Standard(line[i]) && Standard(line[j])
    ensures NotAfter(line[i], line[j], ByCut)
    ensures line[i].side == (if i % 2 == 0 then Low else High) && line[j].side == (if j % 2 == 0 then Low else High)
  {
    assert SolidAt(line, i, j) && SolidAt(line, j, j);
  }

  lemma {:induction false} SolidWellFormed(line: seq<Endpoint>)
    requires Solid(line)
    ensures WellFormed(line, COLUMN)
  {
    forall i | 0 <= i < |line|
      ensures |line[i].value| == 1 && Standard(line[i]) && line[i].side == (if i % 2 == 0 then Low else High)
    {
      assert SolidAt(line, i, i);
    }
    forall i, j | 0 <= i < j < |line|
      ensures NotAfter(line[i], line[j], ByCut)
    {
      InOrder(line, i, j);
    }
  }

  /** Lines sorted by place, as all unions and intersections of comparisons are, have no empty segment. */
  lemma {:induction false} PlacedIsSolid(line: seq<Endpoint>)
    requires WellFormed(line, COLUMN_BY_PLACE)
    ensures Solid(line)
  {
    forall i: nat, j: nat
      ensures SolidAt(line, i, j)
    {
      if i < |line| {
        assert |line[i].value| == 1 && Standard(line[i]);
        if i < j < |line| {
          assert NotAfter(line[i], line[j], ByPlace);
        }
        if i % 2 == 0 {
          assert NotAfter(line[i], line[i + 1], ByPlace);
          OnePart(line[i].value, line[i + 1].value);
        }
      }
    }
  }

  lemma {:induction false} SolidSegment(line: seq<Endpoint>, k: nat)
    requires Solid(line) && k % 2 == 0 && k + 1 < |line|
    ensures |line[k].value| == |line[k + 1].value| == 1 && line[k].side.Low? && line[k + 1].side.High?
    ensures Standard(line[k]) && Standard(line[k + 1]) && SegmentOf(line[k], line[k + 1]) == [line[k], line[k + 1]]
    ensures Less(line[k].value[0], line[k + 1].value[0])
            || (line[k].value == line[k + 1].value && line[k].inclusive && line[k + 1].inclusive
               && line[k].value[0].IsColumnValue())
  {
    var lo, hi := line[k], line[k + 1];
    InOrder(line, k, k + 1);
    assert SolidAt(line, k, k);
    OnePart(lo.value, hi.value);
    CompareKeysSign(lo.value, hi.value);
  }

  lemma {:induction false} SolidRest(line: seq<Endpoint>)
    requires Solid(line) && |line| >= 2
    ensures Solid(line[2..])
  {
    forall i: nat, j: nat
      ensures SolidAt(line[2..], i, j)
    {
      assert SolidAt(line, i + 2, j + 2);
    }
  }

  function Cut(lo: Endpoint, hi: Endpoint, doLow: bool, doHigh: bool): seq<Endpoint> {
    [if doLow then lo else InitialLow(), if doHigh then hi else InitialHigh()]
  }

  lemma {:induction false} FirstPiece(columns: seq<nat>, bounds: Bounds, line: seq<Endpoint>, doLow: bool, doHigh: bool)
    requires columns != [] && (|columns| > 1 ==> columns[1] !in bounds) && |line| >= 2
    requires SegmentOf(line[0], line[1]) == [line[0], line[1]] && line[0].side.Low? && line[1].side.High?
    ensures Pieces(columns, bounds, line, InitialLow(), InitialHigh(), doLow, doHigh)
         == [Cut(line[0], line[1], doLow, doHigh)]
            + Pieces(columns, bounds, line[2..], InitialLow(), InitialHigh(),
                     doLow && Continues(line[0]), doHigh && Continues(line[1]))
  {
    var low, high := InitialLow(), InitialHigh();
    assert Push(low, line[0]) == line[0] && Push(high, line[1]) == line[1];
    assert SegmentOf(low, high) == [low, high];
    var cut := Cut(line[0], line[1], doLow, doHigh);
    assert Here(columns, bounds, cut[0], cut[1], doLow && Continues(line[0]), doHigh && Continues(line[1])) == [cut];
  }

  lemma {:induction false} PiecesAreCuts(columns: seq<nat>, bounds: Bounds, line: seq<Endpoint>, doLow: bool,
                                         doHigh: bool)
    requires columns != [] && (|columns| > 1 ==> columns[1] !in bounds) && Solid(line)
    ensures Pieces(columns, bounds, line, InitialLow(), InitialHigh(), doLow, doHigh) == Cuts(line, doLow, doHigh)
    decreases |line|
  {
    if |line| >= 2 {
      SolidSegment(line, 0);
      SolidRest(line);
      FirstPiece(columns, bounds, line, doLow, doHigh);
      PiecesAreCuts(columns, bounds, line[2..], doLow && Continues(line[0]), doHigh && Continues(line[1]));
    }
  }

  // ---------------------------------------------------------------- comparing with an end without parts

  lemma {:induction false} NoParts(e: Endpoint)
    requires !e.side.Unmarked?
    ensures CompareEndpoints(InitialLow(), e) == if e.side.High? && !e.inclusive then 1 else -1
    ensures CompareEndpoints(InitialHigh(), e) == if e.side.Low? && !e.inclusive then -1 else 1
    ensures e.side.High? ==> CompareEndpoints(e, InitialLow()) == if e.inclusive then 1 else -1
    ensures e.side.Low? ==> CompareEndpoints(e, InitialHigh()) == if e.inclusive then -1 else 1
  {
  }

  lemma {:induction false} StopAtEnd(e: Endpoint, line: seq<Endpoint>, i: nat)
    requires i <= |line| && forall k :: i <= k < |line| ==> CompareEndpoints(e, line[k]) >= 1
    ensures Stop(e, line, i) == |line|
  {
  }

  /** A low end comes after all ends before it in the line. */
  lemma {:induction false} LowAfter(line: seq<Endpoint>, n: nat, k: nat)
    requires Solid(line) && k < n < |line| && n % 2 == 0
    ensures CompareEndpoints(line[n], line[k]) == 1
  {
    var l, e := line[n], line[k];
    InOrder(line, k, n);
    OnePart(e.value, l.value);
    OnePart(l.value, e.value);
    CompareKeysSign(l.value, e.value);
    if k % 2 == 0 && e.value == l.value {
      SolidSegment(line, k);
      InOrder(line, k + 1, n);
      OnePart(line[k + 1].value, l.value);
    }
  }

  /** So does a high end. */
  lemma {:induction false} HighAfter(line: seq<Endpoint>, n: nat, k: nat)
    requires Solid(line) && k + 1 < n < |line| && n % 2 == 1
    ensures CompareEndpoints(line[n], line[k]) == 1
  {
    var h, e, l := line[n], line[k], line[n - 1];
    SolidSegment(line, n - 1);
    InOrder(line, k, n - 1);
    OnePart(e.value, l.value);
    OnePart(h.value, e.value);
    OnePart(e.value, h.value);
    CompareKeysSign(h.value, e.value);
    if e.value == h.value {
      HighAtPoint(line, n, k);
    }
  }

  /** Only a high end that excludes a point can come before that point. */
  lemma {:induction false} HighAtPoint(line: seq<Endpoint>, n: nat, k: nat)
    requires Solid(line) && k + 1 < n < |line| && n % 2 == 1 && line[k].value == line[n].value
    ensures line[n].inclusive && !line[k].inclusive && line[k].side.High?
    ensures |line[n].value| == 1 && line[n].value[0].IsColumnValue()
  {
    var h, e, l := line[n], line[k], line[n - 1];
    SolidSegment(line, n - 1);
    InOrder(line, k, n - 1);
    OnePart(e.value, l.value);
    if k % 2 == 0 {
      SolidSegment(line, k);
      InOrder(line, k + 1, n - 1);
      OnePart(line[k + 1].value, l.value);
    }
  }

  // ---------------------------------------------------------------- while both ends take parts

  lemma {:induction false} Appended(line: seq<Endpoint>, l: Endpoint, h: Endpoint)
    requires Paired(line) && l.side.Low? && h.side.High? && forall k :: 0 <= k < |line| ==>
               CompareEndpoints(l, line[k]) >= 1
    ensures Inserted(line, [l, h]) == line + [l, h]
  {
    StopAtEnd(l, line, 0);
    InsertedForm(line, l, h);
    assert line[..|line|] == line && line[|line|..] == [];
  }

  lemma {:induction false} PairedUpTo(whole: seq<Endpoint>, n: nat)
    requires Solid(whole) && n % 2 == 0 && n <= |whole|
    ensures Paired(whole[..n])
  {
    forall i | 0 <= i < n
      ensures whole[..n][i].side == (if i % 2 == 0 then Low else High)
    {
      assert SolidAt(whole, i, i);
    }
  }

  lemma {:induction false} RebuiltStep(whole: seq<Endpoint>, a: nat)
    requires Solid(whole) && a % 2 == 0 && a + 1 < |whole|
    ensures InsertedAll(whole[..a], Cuts(whole[a..], true, true))
         == InsertedAll(whole[..a + 2], Cuts(whole[a + 2..], Continues(whole[a]), Continues(whole[a + 1])))
  {
    var l, h, before, rest := whole[a], whole[a + 1], whole[..a], whole[a..];
    forall k | 0 <= k < a
      ensures CompareEndpoints(l, before[k]) >= 1
    {
      LowAfter(whole, a, k);
    }
    PairedUpTo(whole, a);
    SolidSegment(whole, a);
    Appended(before, l, h);
    assert rest[0] == l && rest[1] == h && rest[2..] == whole[a + 2..];
    assert before + [l, h] == whole[..a + 2];
    var cuts := Cuts(rest, true, true);
    assert cuts[0] == [l, h] && cuts[1..] == Cuts(whole[a + 2..], Continues(l), Continues(h));
  }

  /** As long as all ends continue, the line of the column is rebuilt. */
  lemma {:induction false} Rebuilt(whole: seq<Endpoint>, a: nat, m: nat)
    requires Solid(whole) && a % 2 == 0 && m % 2 == 0 && a <= m && m + 1 < |whole|
    requires forall k :: a <= k < m ==> Continues(whole[k])
    ensures InsertedAll(whole[..a], Cuts(whole[a..], true, true))
         == InsertedAll(whole[..m + 2], Cuts(whole[m + 2..], Continues(whole[m]), Continues(whole[m + 1])))
    decreases m - a
  {
    RebuiltStep(whole, a);
    if a < m {
      Rebuilt(whole, a + 2, m);
    }
  }

  // ---------------------------------------------------------------- when both ends have stopped

  /** The first range takes in every key. */
  predicate Everything(line: seq<Endpoint>) {
    |line| >= 2 && line[0] == InitialLow() && line[1] == InitialHigh()
  }

  lemma {:induction false} InsertBoth(line: seq<Endpoint>)
    requires Paired(line)
    ensures var r := Inserted(line, [InitialLow(), InitialHigh()]); Paired(r) && Everything(r)
  {
    var l, h := InitialLow(), InitialHigh();
    var i := Stop(l, line, 0);
    var j := Stop(h, line, i);
    if line != [] {
      NoParts(line[0]);
    }
    assert i == 0;
    if j < |line| {
      NoParts(line[j]);
    }
    InsertedForm(line, l, h);
    var p := SegmentPlaced(line, l, h, i, j);
    PlacedPaired(WithSegment(line, l, h, i, j), line, l, h, i, j, p);
  }

  lemma {:induction false} BothStopped(line: seq<Endpoint>, rest: seq<Endpoint>)
    requires Paired(line) && (Everything(line) || |rest| >= 2)
    ensures Everything(InsertedAll(line, Cuts(rest, false, false)))
    decreases |rest|
  {
    if |rest| >= 2 {
      var one := Inserted(line, [InitialLow(), InitialHigh()]);
      InsertBoth(line);
      var cuts := Cuts(rest, false, false);
      assert cuts[0] == [InitialLow(), InitialHigh()] && cuts[1..] == Cuts(rest[2..], false, false);
      BothStopped(one, rest[2..]);
    }
  }

  // ---------------------------------------------------------------- when the low ends have stopped

  /** Does an end of one side stop taking parts before the last segment? */
  ghost predicate Stops(line: seq<Endpoint>, side: nat) {
    exists k: nat {:trigger StopsAt(line, side, k)} :: StopsAt(line, side, k)
  }

  predicate StopsAt(line: seq<Endpoint>, side: nat, k: nat) {
    k + 2 < |line| && k % 2 == side && !Continues(line[k])
  }

  lemma {:induction false} StopsRest(line: seq<Endpoint>, side: nat)
    requires |line| >= 4 && side < 2 && |line| % 2 == 0
    ensures Stops(line, side) <==> !Continues(line[side]) || Stops(line[2..], side)
  {
    var rest := line[2..];
    if Stops(line, side) {
      var k: nat :| StopsAt(line, side, k);
      if k >= 2 {
        assert StopsAt(rest, side, k - 2);
      }
    }
    if !Continues(line[side]) {
      assert StopsAt(line, side, side);
    }
    if Stops(rest, side) {
      var k: nat :| StopsAt(rest, side, k);
      assert StopsAt(line, side, k + 2);
    }
  }

  /** What is left: everything up to the last high end, unless that excludes its value. */
  function UpToLast(h: Endpoint, rest: seq<Endpoint>): seq<Endpoint> {
    if |rest| < 2 then [InitialLow(), h]
    else
      var last := rest[|rest| - 1];
      var before := if |rest| < 4 then h else rest[|rest| - 3];
      if last.inclusive then [InitialLow(), last] else [InitialLow(), last, InitialLow(), before]
  }

  lemma {:induction false} InsertUpTo(h: Endpoint, hi: Endpoint)
    requires h.side.High? && hi.side.High? && CompareEndpoints(hi, h) == 1
    ensures Inserted([InitialLow(), h], [InitialLow(), hi])
         == if hi.inclusive then [InitialLow(), hi] else [InitialLow(), hi, InitialLow(), h]
  {
    var line := [InitialLow(), h];
    NoParts(InitialLow());
    NoParts(hi);
    InsertedForm(line, InitialLow(), hi);
    assert Stop(InitialLow(), line, 0) == 0;
    if hi.inclusive {
      assert CompareEndpoints(hi, line[0]) == 1 && CompareEndpoints(hi, line[1]) == 1;
      StopAtEnd(hi, line, 0);
      assert line[..0] == [] && line[2..] == [];
    } else {
      assert Stop(hi, line, 0) == 0;
      assert line[..0] == [] && line[0..] == line;
    }
  }

  predicate BeyondAt(rest: seq<Endpoint>, h: Endpoint, k: nat) {
    k < |rest| && k % 2 == 1 ==> CompareEndpoints(rest[k], h) == 1
  }

  /** The high ends come after the given one. */
  ghost predicate HighsBeyond(rest: seq<Endpoint>, h: Endpoint) {
    forall k: nat {:trigger BeyondAt(rest, h, k)} :: BeyondAt(rest, h, k)
  }

  lemma {:induction false} LowStep(h: Endpoint, rest: seq<Endpoint>)
    requires h.side.High? && Solid(rest) && HighsBeyond(rest, h) && |rest| >= 2
    ensures InsertedAll([InitialLow(), h], Cuts(rest, false, true))
         == InsertedAll(UpToLast(h, rest[..2]), Cuts(rest[2..], false, Continues(rest[1])))
    ensures rest[1].side.High? && Paired(UpToLast(h, rest[..2]))
  {
    SolidSegment(rest, 0);
    assert BeyondAt(rest, h, 1);
    InsertUpTo(h, rest[1]);
    var cuts := Cuts(rest, false, true);
    assert cuts[0] == [InitialLow(), rest[1]] && cuts[1..] == Cuts(rest[2..], false, Continues(rest[1]));
  }

  lemma {:induction false} HighsBeyondRest(rest: seq<Endpoint>)
    requires Solid(rest) && |rest| >= 2
    ensures HighsBeyond(rest[2..], rest[1])
  {
    forall k: nat
      ensures BeyondAt(rest[2..], rest[1], k)
    {
      if k + 2 < |rest| && k % 2 == 1 {
        HighAfter(rest, k + 2, 1);
      }
    }
  }

  lemma {:induction false} LowsStopped(h: Endpoint, rest: seq<Endpoint>)
    requires h.side.High? && Solid(rest) && HighsBeyond(rest, h)
    ensures var r := InsertedAll([InitialLow(), h], Cuts(rest, false, true));
            if Stops(rest, 1) then Everything(r) else r == UpToLast(h, rest)
    decreases |rest|
  {
    if |rest| >= 2 {
      var tail := rest[2..];
      LowStep(h, rest);
      if |rest| >= 4 {
        StopsRest(rest, 1);
        if Continues(rest[1]) {
          SolidRest(rest);
          HighsBeyondRest(rest);
          LowsStopped(rest[1], tail);
          assert tail[|tail| - 1] == rest[|rest| - 1] && (|tail| >= 4 ==> tail[|tail| - 3] == rest[|rest| - 3]);
        } else {
          BothStopped(UpToLast(h, rest[..2]), tail);
        }
      } else {
        assert tail == [] && rest[..2] == rest;
      }
    }
  }

  // ---------------------------------------------------------------- when the high ends have stopped

  lemma {:induction false} InsertFrom(line: seq<Endpoint>, lo: Endpoint)
    requires Paired(line) && |line| >= 2 && line[|line| - 1] == InitialHigh() && lo.side.Low?
    requires forall k :: 0 <= k < |line| - 1 ==> CompareEndpoints(lo, line[k]) == 1
    ensures Inserted(line, [lo, InitialHigh()]) == WithLow(line, lo)
  {
    NoParts(lo);
    NoParts(InitialHigh());
    if lo.inclusive {
      InsertedForm(line, lo, InitialHigh());
      StopBeforeLast(lo, line, 0);
      StopAtEnd(InitialHigh(), line, |line| - 1);
      assert line[..|line| - 1] + ([] + ([InitialHigh()] + line[|line|..])) == line;
    } else {
      Appended(line, lo, InitialHigh());
    }
  }

  lemma {:induction false} StopBeforeLast(e: Endpoint, line: seq<Endpoint>, i: nat)
    requires i < |line| && CompareEndpoints(e, line[|line| - 1]) < 1
    requires forall k :: i <= k < |line| - 1 ==> CompareEndpoints(e, line[k]) >= 1
    ensures Stop(e, line, i) == |line| - 1
    decreases |line| - i
  {
    if i < |line| - 1 {
      StopBeforeLast(e, line, i + 1);
    }
  }

  predicate AfterAt(rest: seq<Endpoint>, line: seq<Endpoint>, n: nat, k: nat) {
    n < |rest| && n % 2 == 0 && k + 1 < |line| ==> CompareEndpoints(rest[n], line[k]) == 1
  }

  /** The low ends come after all but the last end of the line. */
  ghost predicate LowsAfter(rest: seq<Endpoint>, line: seq<Endpoint>) {
    forall n: nat, k: nat {:trigger AfterAt(rest, line, n, k)} :: AfterAt(rest, line, n, k)
  }

  /** A line that is open above stays as it is when a low end that includes its value comes on top. */
  function WithLow(line: seq<Endpoint>, lo: Endpoint): seq<Endpoint> {
    if lo.inclusive then line else line + [lo, InitialHigh()]
  }

  function FromLast(line: seq<Endpoint>, rest: seq<Endpoint>): seq<Endpoint> {
    if |rest| >= 2 then WithLow(line, rest[|rest| - 2]) else line
  }

  predicate OpenAbove(line: seq<Endpoint>) {
    Paired(line) && |line| >= 2 && line[|line| - 1] == InitialHigh()
  }

  lemma {:induction false} WithLowPaired(line: seq<Endpoint>, lo: Endpoint)
    requires Paired(line) && lo.side.Low?
    ensures Paired(WithLow(line, lo))
  {
  }

  lemma {:induction false} HighStep(line: seq<Endpoint>, rest: seq<Endpoint>)
    requires OpenAbove(line) && Solid(rest) && LowsAfter(rest, line) && |rest| >= 2
    ensures InsertedAll(line, Cuts(rest, true, false))
         == InsertedAll(WithLow(line, rest[0]), Cuts(rest[2..], Continues(rest[0]), false))
    ensures Paired(WithLow(line, rest[0]))
  {
    var lo := rest[0];
    SolidSegment(rest, 0);
    forall k | 0 <= k < |line| - 1
      ensures CompareEndpoints(lo, line[k]) == 1
    {
      assert AfterAt(rest, line, 0, k);
    }
    InsertFrom(line, lo);
    WithLowPaired(line, lo);
    var cuts := Cuts(rest, true, false);
    assert cuts[0] == [lo, InitialHigh()] && cuts[1..] == Cuts(rest[2..], Continues(lo), false);
  }

  lemma {:induction false} LowsAfterRest(rest: seq<Endpoint>, line: seq<Endpoint>)
    requires LowsAfter(rest, line) && |rest| >= 2
    ensures LowsAfter(rest[2..], line)
  {
    forall n: nat, k: nat
      ensures AfterAt(rest[2..], line, n, k)
    {
      assert AfterAt(rest, line, n + 2, k);
    }
  }

  lemma {:induction false} HighsStopped(line: seq<Endpoint>, rest: seq<Endpoint>)
    requires OpenAbove(line) && Solid(rest) && LowsAfter(rest, line)
    ensures var r := InsertedAll(line, Cuts(rest, true, false));
            if Stops(rest, 0) then Everything(r) else r == FromLast(line, rest)
    decreases |rest|
  {
    if |rest| >= 2 {
      var tail := rest[2..];
      HighStep(line, rest);
      if |rest| >= 4 {
        StopsRest(rest, 0);
        if Continues(rest[0]) {
          SolidRest(rest);
          LowsAfterRest(rest, line);
          HighsStopped(line, tail);
          assert tail[|tail| - 2] == rest[|rest| - 2];
        } else {
          BothStopped(WithLow(line, rest[0]), tail);
        }
      } else {
        assert tail == [];
      }
    }
  }

  // ---------------------------------------------------------------- the consolidated line

  predicate ContinuesAt(line: seq<Endpoint>, k: nat) {
    k < |line| ==> Continues(line[k])
  }

  /** All ends before position m take further parts. */
  ghost predicate GoesOn(line: seq<Endpoint>, m: nat) {
    forall k: nat {:trigger ContinuesAt(line, k)} :: k < m ==> ContinuesAt(line, k)
  }

  /** The segment at m is the first one with an end that takes no more parts, and not the last. */
  ghost predicate FirstStop(line: seq<Endpoint>, m: nat) {
    && m % 2 == 0 && m + 2 < |line| && |line| % 2 == 0 && GoesOn(line, m)
    && !(Continues(line[m]) && Continues(line[m + 1]))
  }

  lemma {:induction false} FindFirstStop(line: seq<Endpoint>) returns (m: nat)
    requires |line| % 2 == 0 && (Stops(line, 0) || Stops(line, 1))
    ensures FirstStop(line, m)
  {
    m := 0;
    while m + 2 < |line| && Continues(line[m]) && Continues(line[m + 1])
      invariant m % 2 == 0 && m <= |line| && GoesOn(line, m)
    {
      m := m + 2;
    }
    forall k: nat | k < m
      ensures !StopsAt(line, 0, k) && !StopsAt(line, 1, k)
    {
      assert ContinuesAt(line, k);
    }
  }

  lemma {:induction false} StopsLater(line: seq<Endpoint>, m: nat, side: nat)
    requires FirstStop(line, m) && side < 2
    ensures Stops(line, side) <==> !Continues(line[m + side]) || Stops(line[m + 2..], side)
  {
    var rest := line[m + 2..];
    if Stops(line, side) && Continues(line[m + side]) {
      var k: nat :| StopsAt(line, side, k);
      assert k < m ==> ContinuesAt(line, k);
      assert StopsAt(rest, side, k - m - 2);
    }
    if !Continues(line[m + side]) {
      assert StopsAt(line, side, m + side);
    }
    if Stops(rest, side) {
      var k: nat :| StopsAt(rest, side, k);
      assert StopsAt(line, side, k + m + 2);
    }
  }

  lemma {:induction false} SolidFrom(line: seq<Endpoint>, m: nat)
    requires Solid(line) && m % 2 == 0 && m <= |line|
    ensures Solid(line[m..])
    decreases m
  {
    if m == 0 {
      assert line[0..] == line;
    } else {
      SolidRest(line);
      SolidFrom(line[2..], m - 2);
      assert line[2..][m - 2..] == line[m..];
    }
  }

  /** The low ends have stopped at a segment that is not the last, and the high ends have not. */
  lemma {:induction false} AfterLowStop(line: seq<Endpoint>, m: nat)
    requires Solid(line) && m % 2 == 0 && m + 2 < |line|
    ensures var r := InsertedAll(line[..m + 2], Cuts(line[m + 2..], false, true)); var rest := line[m + 4..];
            if Stops(line[m + 2..], 1) then Everything(r)
            else r == UpToLast(line[m + 3], rest)
  {
    var before, rest, hi := line[..m + 2], line[m + 2..], line[m + 3];
    FirstUpTo(line, m);
    SolidSegment(line, m + 2);
    SolidFrom(line, m + 2);
    SolidFrom(line, m + 4);
    var cuts := Cuts(rest, false, true);
    assert rest[1] == hi && rest[2..] == line[m + 4..];
    assert cuts[0] == [InitialLow(), hi] && cuts[1..] == Cuts(rest[2..], false, Continues(hi));
    if |rest| >= 4 {
      StopsRest(rest, 1);
    }
    if Continues(hi) {
      HighsBeyondRest(rest);
      LowsStopped(hi, rest[2..]);
    } else if rest[2..] != [] {
      BothStopped([InitialLow(), hi], rest[2..]);
    } else {
      assert cuts[1..] == [];
    }
  }

  lemma {:induction false} FirstUpTo(line: seq<Endpoint>, m: nat)
    requires Solid(line) && m % 2 == 0 && m + 2 < |line|
    ensures Inserted(line[..m + 2], [InitialLow(), line[m + 3]]) == [InitialLow(), line[m + 3]]
  {
    var before, hi := line[..m + 2], line[m + 3];
    PairedUpTo(line, m + 2);
    SolidSegment(line, 0);
    SolidSegment(line, m + 2);
    assert before[0] == line[0];
    NoParts(line[0]);
    forall k | 0 <= k < |before|
      ensures CompareEndpoints(hi, before[k]) >= 1
    {
      HighAfter(line, m + 3, k);
    }
    assert Stop(InitialLow(), before, 0) == 0;
    StopAtEnd(hi, before, 0);
    InsertedForm(before, InitialLow(), hi);
    assert before[..0] == [] && before[|before|..] == [];
  }

  /** A line that is open above from the segment after m on, and what follows. */
  function Opened(line: seq<Endpoint>, m: nat, more: seq<Endpoint>): seq<Endpoint>
    requires m + 2 < |line|
  {
    line[..m + 2] + [line[m + 2], InitialHigh()] + more
  }

  /** The high ends have stopped at a segment that is not the last, and the low ends have not. */
  lemma {:induction false} AfterHighStop(line: seq<Endpoint>, m: nat)
    requires Solid(line) && m % 2 == 0 && m + 2 < |line|
    ensures var r := InsertedAll(line[..m + 2], Cuts(line[m + 2..], true, false)); var rest := line[m + 4..];
            if Stops(line[m + 2..], 0) then Everything(r)
            else r == FromLast(Opened(line, m, []), rest)
  {
    var before, rest, lo := line[..m + 2], line[m + 2..], line[m + 2];
    var one := Opened(line, m, []);
    PairedUpTo(line, m + 2);
    SolidSegment(line, m + 2);
    forall k | 0 <= k < |before|
      ensures CompareEndpoints(lo, before[k]) >= 1
    {
      LowAfter(line, m + 2, k);
    }
    Appended(before, lo, InitialHigh());
    assert before + [lo, InitialHigh()] == one;
    SolidFrom(line, m + 2);
    SolidFrom(line, m + 4);
    var cuts := Cuts(rest, true, false);
    assert rest[0] == lo && rest[2..] == line[m + 4..];
    assert cuts[0] == [lo, InitialHigh()] && cuts[1..] == Cuts(rest[2..], Continues(lo), false);
    if |rest| >= 4 {
      StopsRest(rest, 0);
    }
    if Continues(lo) {
      AllLowsAfter(line, m);
      HighsStopped(one, rest[2..]);
    } else if rest[2..] != [] {
      BothStopped(one, rest[2..]);
    } else {
      assert cuts[1..] == [];
    }
  }

  lemma {:induction false} AllLowsAfter(line: seq<Endpoint>, m: nat)
    requires Solid(line) && m % 2 == 0 && m + 2 < |line|
    ensures LowsAfter(line[m + 4..], Opened(line, m, []))
  {
    var one, rest := Opened(line, m, []), line[m + 4..];
    forall n: nat, k: nat
      ensures AfterAt(rest, one, n, k)
    {
      if n < |rest| && n % 2 == 0 && k + 1 < |one| {
        LowAfter(line, n + m + 4, k);
      }
    }
  }

  // ---------------------------------------------------------------- which values are scanned

  predicate Over(e: Endpoint, u: Value)
    requires |e.value| == 1
  {
    if e.inclusive then !Less(u, e.value[0]) else Less(e.value[0], u)
  }

  predicate Under(e: Endpoint, u: Value)
    requires |e.value| == 1
  {
    if e.inclusive then !Less(e.value[0], u) else Less(u, e.value[0])
  }

  lemma {:induction false} OnePartRange(lo: Endpoint, hi: Endpoint, x: Key)
    requires |x| >= 1
    ensures |lo.value| == |hi.value| == 1 ==> (InRange([lo, hi], x) <==> Over(lo, x[0]) && Under(hi, x[0]))
    ensures |lo.value| == |hi.value| == 1 ==> (InSegment(lo, hi, [x[0]]) <==> Over(lo, x[0]) && Under(hi, x[0]))
    ensures lo.value == [] && |hi.value| == 1 && lo.inclusive ==> (InRange([lo, hi], x) <==> Under(hi, x[0]))
    ensures hi.value == [] && |lo.value| == 1 && hi.inclusive ==> (InRange([lo, hi], x) <==> Over(lo, x[0]))
  {
    assert x[..1] == [x[0]] && [x[0]][..1] == [x[0]] && x[..0] == [];
    if |lo.value| == 1 {
      OnePart(lo.value, [x[0]]);
      OnePart([x[0]], lo.value);
    }
    if |hi.value| == 1 {
      OnePart(hi.value, [x[0]]);
      OnePart([x[0]], hi.value);
    }
  }

  /** Does the segment at position k hold the value? */
  predicate SegmentHolds(line: seq<Endpoint>, k: nat, u: Value) {
    && k % 2 == 0 && k + 1 < |line| && |line[k].value| == |line[k + 1].value| == 1
    && Over(line[k], u) && Under(line[k + 1], u)
  }

  lemma {:induction false} HeldSomewhere(line: seq<Endpoint>, u: Value)
    requires Solid(line)
    ensures FitsLine(line, [u])
    ensures Holds(line, [u]) <==> exists k: nat :: SegmentHolds(line, k, u)
    decreases |line|
  {
    if |line| >= 2 {
      var rest := line[2..];
      SolidRest(line);
      SolidSegment(line, 0);
      OnePartRange(line[0], line[1], [u]);
      HeldSomewhere(rest, u);
      if InSegment(line[0], line[1], [u]) {
        assert SegmentHolds(line, 0, u);
      } else if Holds(rest, [u]) {
        var k: nat :| SegmentHolds(rest, k, u);
        assert SegmentHolds(line, k + 2, u);
      }
      forall k: nat | SegmentHolds(line, k, u)
        ensures Holds(line, [u])
      {
        if k > 0 {
          assert SegmentHolds(rest, k - 2, u);
        }
      }
    }
  }

  lemma {:induction false} ExportedEach(line: seq<Endpoint>)
    ensures |Exported(line)| == |line| / 2
    ensures forall i {:trigger Exported(line)[i]} :: 0 <= i < |line| / 2 ==>
              Exported(line)[i] == SegmentOf(line[2 * i], line[2 * i + 1])
  {
    if |line| >= 2 {
      ExportedEach(line[2..]);
      forall i | 0 <= i < |line| / 2
        ensures Exported(line)[i] == SegmentOf(line[2 * i], line[2 * i + 1])
      {
        if i > 0 {
          assert Exported(line)[i] == Exported(line[2..])[i - 1];
        }
      }
    }
  }

  lemma {:induction false} EverythingScans(line: seq<Endpoint>, x: Key)
    requires Everything(line)
    ensures Scans(Exported(line), x)
  {
    assert SegmentOf(InitialLow(), InitialHigh()) == [InitialLow(), InitialHigh()];
    assert InRange(Exported(line)[0], x);
  }

  /** Everything up to a last value that is included. */
  lemma {:induction false} UpToLastScans(line: seq<Endpoint>, x: Key, k: nat)
    requires Solid(line) && |x| >= 1 && SegmentHolds(line, k, x[0]) && line[|line| - 1].inclusive
    ensures Scans(Exported([InitialLow(), line[|line| - 1]]), x)
  {
    var n := |line| - 1;
    var last := line[n];
    SolidSegment(line, n - 1);
    NoParts(last);
    OnePartRange(InitialLow(), last, x);
    OnePart(line[k + 1].value, last.value);
    if k + 1 < n {
      InOrder(line, k + 1, n);
    }
    assert Exported([InitialLow(), last])[0] == SegmentOf(InitialLow(), last) == [InitialLow(), last];
  }

  /** Everything up to a last value that is excluded: the export turns the range round. */
  lemma {:induction false} LastTurned(last: Endpoint, x: Key)
    requires last.side.High? && !last.inclusive && |last.value| == 1 && |x| >= 1 && Under(last, x[0])
    ensures !Scans(Exported([InitialLow(), last]), x)
  {
    var turned := [MarkLow(last), MarkHigh(InitialLow())];
    NoParts(last);
    OnePartRange(turned[0], turned[1], x);
    assert [InitialLow(), last][2..] == [];
    assert Exported([InitialLow(), last]) == [turned];
  }

  lemma {:induction false} LastTurnedTwice(last: Endpoint, before: Endpoint, x: Key)
    requires last.side.High? && !last.inclusive && |last.value| == 1 && |x| >= 1 && Under(last, x[0])
    requires before.side.High? && before.inclusive && |before.value| == 1 && !Under(before, x[0])
    ensures !Scans(Exported([InitialLow(), last, InitialLow(), before]), x)
  {
    var line := [InitialLow(), last, InitialLow(), before];
    var turned := [MarkLow(last), MarkHigh(InitialLow())];
    NoParts(last);
    NoParts(before);
    OnePartRange(turned[0], turned[1], x);
    OnePartRange(InitialLow(), before, x);
    ExportedEach(line);
    assert SegmentOf(InitialLow(), last) == turned && SegmentOf(InitialLow(), before) == [InitialLow(), before];
    assert Exported(line)[0] == turned && Exported(line)[1] == [InitialLow(), before];
  }

  lemma {:induction false} OpenedEach(line: seq<Endpoint>, m: nat, more: seq<Endpoint>, i: nat)
    requires m % 2 == 0 && m + 2 < |line| && 2 * i <= m + 2
    ensures i < |Exported(Opened(line, m, more))|
    ensures Exported(Opened(line, m, more))[i]
         == if 2 * i < m + 2 then SegmentOf(line[2 * i], line[2 * i + 1]) else SegmentOf(line[m + 2], InitialHigh())
  {
    ExportedEach(Opened(line, m, more));
  }

  lemma {:induction false} ScansBefore(line: seq<Endpoint>, m: nat, more: seq<Endpoint>, x: Key, i: nat)
    requires Solid(line) && m % 2 == 0 && 2 * i < m + 2 < |line|
    requires |x| >= 1 && SegmentHolds(line, 2 * i, x[0])
    ensures Scans(Exported(Opened(line, m, more)), x)
  {
    OpenedEach(line, m, more, i);
    SolidSegment(line, 2 * i);
    OnePartRange(line[2 * i], line[2 * i + 1], x);
  }

  lemma {:induction false} ScansAfter(line: seq<Endpoint>, m: nat, more: seq<Endpoint>, x: Key, k: nat)
    requires Solid(line) && m % 2 == 0 && m + 2 < |line| && line[m + 2].inclusive
    requires |x| >= 1 && k >= m + 2 && SegmentHolds(line, k, x[0])
    ensures Scans(Exported(Opened(line, m, more)), x)
  {
    var lo := line[m + 2];
    OpenedEach(line, m, more, (m + 2) / 2);
    SolidSegment(line, m + 2);
    NoParts(lo);
    OnePartRange(lo, InitialHigh(), x);
    OnePart(lo.value, line[k].value);
    if k > m + 2 {
      InOrder(line, m + 2, k);
    }
  }

  /** The segments before an open range, whose low end is included. */
  lemma {:induction false} OpenScans(line: seq<Endpoint>, m: nat, more: seq<Endpoint>, x: Key, k: nat)
    requires Solid(line) && m % 2 == 0 && m + 2 < |line| && line[m + 2].inclusive
    requires |x| >= 1 && SegmentHolds(line, k, x[0])
    ensures Scans(Exported(Opened(line, m, more)), x)
  {
    if k < m + 2 {
      assert k == 2 * (k / 2);
      ScansBefore(line, m, more, x, k / 2);
    } else {
      ScansAfter(line, m, more, x, k);
    }
  }

  lemma {:induction false} BeforeLast(line: seq<Endpoint>, k: nat, x: Key)
    requires Solid(line) && k % 2 == 0 && k + 2 < |line| && |x| >= 1 && |line[|line| - 2].value| == 1
    requires Less(line[|line| - 2].value[0], x[0])
    ensures !InRange(SegmentOf(line[k], line[k + 1]), x)
  {
    var hi, lo := line[k + 1], line[|line| - 2];
    SolidSegment(line, k);
    OnePartRange(line[k], hi, x);
    InOrder(line, k + 1, |line| - 2);
    OnePart(hi.value, lo.value);
  }

  /** The segments before an open range, whose low end is excluded: it is turned round. */
  lemma {:induction false} OpenTurned(line: seq<Endpoint>, x: Key)
    requires Solid(line) && |line| >= 4 && !line[|line| - 2].inclusive && |line[|line| - 2].value| == 1
    requires |x| >= 1 && Less(line[|line| - 2].value[0], x[0])
    ensures !Scans(Exported(Opened(line, |line| - 4, [])), x)
  {
    var ranges := Exported(Opened(line, |line| - 4, []));
    forall i | 0 <= i < |ranges|
      ensures !InRange(ranges[i], x)
    {
      OpenTurnedAt(line, x, i);
    }
  }

  lemma {:induction false} OpenTurnedAt(line: seq<Endpoint>, x: Key, i: nat)
    requires Solid(line) && |line| >= 4 && !line[|line| - 2].inclusive && |line[|line| - 2].value| == 1
    requires |x| >= 1 && Less(line[|line| - 2].value[0], x[0])
    requires i < |Exported(Opened(line, |line| - 4, []))|
    ensures !InRange(Exported(Opened(line, |line| - 4, []))[i], x)
  {
    OpenedLength(line, |line| - 4);
    OpenedEach(line, |line| - 4, [], i);
    if 2 * i < |line| - 2 {
      BeforeLast(line, 2 * i, x);
    } else {
      SolidSegment(line, |line| - 2);
      LastOpenTurned(line[|line| - 2], x);
    }
  }

  lemma {:induction false} OpenedLength(line: seq<Endpoint>, m: nat)
    requires m % 2 == 0 && m + 2 < |line|
    ensures |Exported(Opened(line, m, []))| == m / 2 + 2
  {
    ExportedEach(Opened(line, m, []));
  }

  lemma {:induction false} LastOpenTurned(lo: Endpoint, x: Key)
    requires lo.side.Low? && !lo.inclusive && |lo.value| == 1 && |x| >= 1 && Less(lo.value[0], x[0])
    ensures !InRange(SegmentOf(lo, InitialHigh()), x)
  {
    NoParts(lo);
    OnePartRange(MarkLow(InitialHigh()), MarkHigh(lo), x);
  }

  // ---------------------------------------------------------------- one bounded column

  /** Does the consolidation lose keys? The ends of one side have stopped taking parts before the last segment,
      those of the other have not, and the last segment's end on that other side is excluded; where the high
      ends have stopped, they did so at the segment just before the last. */
  ghost predicate Gap(line: seq<Endpoint>) {
    && |line| >= 4
    && if Stops(line, 0) then !Stops(line, 1) && !line[|line| - 1].inclusive
       else Stops(line, 1) && !line[|line| - 2].inclusive && !Stops(line[..|line| - 2], 1)
  }

  ghost predicate AllScanned(columns: seq<nat>, bounds: Bounds)
    requires columns != [] && columns[0] in bounds
  {
    forall x {:trigger KeyInBounds(columns, bounds, x)} ::
      ColumnKey(x) && KeyInBounds(columns, bounds, x) ==> Scans(Exported(Consolidated(columns, bounds)), x)
  }

  /** A value inside the last of several segments. */
  lemma {:induction false} InsideLast(line: seq<Endpoint>) returns (u: Value)
    requires Solid(line) && |line| >= 4 && (!line[|line| - 1].inclusive || !line[|line| - 2].inclusive)
    ensures u.IsColumnValue() && SegmentHolds(line, |line| - 2, u) && Less(line[|line| - 2].value[0], u)
    ensures |line[|line| - 3].value| == 1 && Less(line[|line| - 3].value[0], u)
  {
    var n := |line| - 2;
    SolidSegment(line, n);
    SolidSegment(line, n - 2);
    var a, b, before := line[n].value[0], line[n + 1].value[0], line[n - 1].value[0];
    InOrder(line, n - 1, n);
    OnePart(line[n - 1].value, line[n].value);
    assert before != NegInf && a != NegInf;
    u := if a.Val? && b.Val? then Val((a.n + b.n) / 2.0) else if a.Val? then Val(a.n + 1.0)
         else if b.Val? then Val(b.n - 1.0) else Val(0.0);
  }

  function KeyOfOne(u: Value, n: nat): (x: Key)
    requires n > 0 && u.IsColumnValue()
    ensures |x| == n && x[0] == u && ColumnKey(x)
  {
    seq(n, i requires 0 <= i < n => if i == 0 then u else Null)
  }

  lemma {:induction false} OneInBounds(columns: seq<nat>, bounds: Bounds, x: Key)
    requires columns != [] && columns[0] in bounds && (|columns| > 1 ==> columns[1] !in bounds)
    requires Solid(bounds[columns[0]]) && |x| == |columns|
    ensures KeyInBounds(columns, bounds, x) <==> exists k: nat :: SegmentHolds(bounds[columns[0]], k, x[0])
  {
    HeldSomewhere(bounds[columns[0]], x[0]);
    assert KeyInBounds(columns[1..], bounds, x[1..]);
  }

  /** The line rebuilt as far as the segment at m, and what the segments after it add. */
  function FromSegment(line: seq<Endpoint>, m: nat): seq<Endpoint>
    requires m + 1 < |line|
  {
    InsertedAll(line[..m + 2], Cuts(line[m + 2..], Continues(line[m]), Continues(line[m + 1])))
  }

  lemma {:induction false} ConsolidatedOne(columns: seq<nat>, bounds: Bounds, m: nat)
    requires columns != [] && columns[0] in bounds && (|columns| > 1 ==> columns[1] !in bounds)
    requires var line := bounds[columns[0]];
             Solid(line) && m % 2 == 0 && m + 1 < |line| && GoesOn(line, m)
    ensures Consolidated(columns, bounds) == FromSegment(bounds[columns[0]], m)
  {
    var line := bounds[columns[0]];
    PiecesAreCuts(columns, bounds, line, true, true);
    forall k | 0 <= k < m
      ensures Continues(line[k])
    {
      assert ContinuesAt(line, k);
    }
    Rebuilt(line, 0, m);
    assert line[..0] == [] && line[0..] == line;
  }

  ghost predicate HeldIn(line: seq<Endpoint>, u: Value) {
    exists k: nat :: SegmentHolds(line, k, u)
  }

  /** Are all keys that start with a value of the line scanned? */
  ghost predicate ScansHeld(line: seq<Endpoint>, r: seq<Endpoint>) {
    forall x: Key {:trigger Scans(Exported(r), x)} :: |x| >= 1 && HeldIn(line, x[0]) ==> Scans(Exported(r), x)
  }

  /** A value in the last segment none of whose keys is scanned. */
  ghost predicate Lost(line: seq<Endpoint>, r: seq<Endpoint>, u: Value) {
    && u.IsColumnValue() && |line| >= 2 && SegmentHolds(line, |line| - 2, u)
    && forall x: Key {:trigger Scans(Exported(r), x)} :: |x| >= 1 && x[0] == u ==> !Scans(Exported(r), x)
  }

  ghost predicate Loses(line: seq<Endpoint>, r: seq<Endpoint>) {
    exists u {:trigger Lost(line, r, u)} :: Lost(line, r, u)
  }

  lemma {:induction false} EverythingHeld(line: seq<Endpoint>, r: seq<Endpoint>)
    requires Everything(r)
    ensures ScansHeld(line, r)
  {
    forall x: Key
      ensures Scans(Exported(r), x)
    {
      EverythingScans(r, x);
    }
  }

  lemma {:induction false} UpToLastHeld(line: seq<Endpoint>, m: nat, r: seq<Endpoint>)
    requires Solid(line) && m % 2 == 0 && m + 2 < |line| && line[|line| - 1].inclusive
    requires r == UpToLast(line[m + 3], line[m + 4..])
    ensures ScansHeld(line, r)
  {
    var rest := line[m + 4..];
    assert |rest| >= 2 ==> rest[|rest| - 1] == line[|line| - 1];
    assert r == [InitialLow(), line[|line| - 1]];
    forall x: Key | |x| >= 1 && HeldIn(line, x[0])
      ensures Scans(Exported(r), x)
    {
      var k: nat :| SegmentHolds(line, k, x[0]);
      UpToLastScans(line, x, k);
    }
  }

  lemma {:induction false} OpenHeld(line: seq<Endpoint>, m: nat, more: seq<Endpoint>)
    requires Solid(line) && m % 2 == 0 && m + 2 < |line| && line[m + 2].inclusive
    ensures ScansHeld(line, Opened(line, m, more))
  {
    var r := Opened(line, m, more);
    forall x: Key | |x| >= 1 && HeldIn(line, x[0])
      ensures Scans(Exported(r), x)
    {
      var k: nat :| SegmentHolds(line, k, x[0]);
      OpenScans(line, m, more, x, k);
    }
  }

  lemma {:induction false} LostOnce(line: seq<Endpoint>)
    requires Solid(line) && |line| >= 4 && !line[|line| - 1].inclusive
    ensures Loses(line, [InitialLow(), line[|line| - 1]])
  {
    var last, r := line[|line| - 1], [InitialLow(), line[|line| - 1]];
    var u := InsideLast(line);
    SolidSegment(line, |line| - 2);
    forall x: Key | |x| >= 1 && x[0] == u
      ensures !Scans(Exported(r), x)
    {
      LastTurned(last, x);
    }
    assert Lost(line, r, u);
  }

  lemma {:induction false} LostTwice(line: seq<Endpoint>)
    requires Solid(line) && |line| >= 4 && !line[|line| - 1].inclusive && line[|line| - 3].inclusive
    ensures Loses(line, [InitialLow(), line[|line| - 1], InitialLow(), line[|line| - 3]])
  {
    var last, before := line[|line| - 1], line[|line| - 3];
    var r := [InitialLow(), last, InitialLow(), before];
    var u := InsideLast(line);
    SolidSegment(line, |line| - 2);
    SolidSegment(line, |line| - 4);
    forall x: Key | |x| >= 1 && x[0] == u
      ensures !Scans(Exported(r), x)
    {
      LastTurnedTwice(last, before, x);
    }
    assert Lost(line, r, u);
  }

  lemma {:induction false} LostAbove(line: seq<Endpoint>, m: nat, r: seq<Endpoint>)
    requires Solid(line) && m % 2 == 0 && m + 2 < |line| && !Stops(line, 1) && !line[|line| - 1].inclusive
    requires r == UpToLast(line[m + 3], line[m + 4..])
    ensures Loses(line, r)
  {
    var rest := line[m + 4..];
    if rest == [] {
      LostOnce(line);
    } else {
      assert rest[|rest| - 1] == line[|line| - 1];
      assert |rest| >= 4 ==> rest[|rest| - 3] == line[|line| - 3];
      assert !StopsAt(line, 1, |line| - 3);
      LostTwice(line);
    }
  }

  lemma {:induction false} LostBelow(line: seq<Endpoint>)
    requires Solid(line) && |line| >= 4 && !line[|line| - 2].inclusive
    ensures Loses(line, Opened(line, |line| - 4, []))
  {
    var r := Opened(line, |line| - 4, []);
    var u := InsideLast(line);
    forall x: Key | |x| >= 1 && x[0] == u
      ensures !Scans(Exported(r), x)
    {
      OpenTurned(line, x);
    }
    assert Lost(line, r, u);
  }

  // ---------------------------------------------------------------- whether keys are lost

  lemma {:induction false} LowStopBoth(line: seq<Endpoint>, m: nat)
    requires Solid(line) && FirstStop(line, m) && Continues(line[m + 1]) && Stops(line, 1)
    ensures ScansHeld(line, FromSegment(line, m))
  {
    StopsLater(line, m, 1);
    AfterLowStop(line, m);
    EverythingHeld(line, FromSegment(line, m));
  }

  lemma {:induction false} LowStopOnly(line: seq<Endpoint>, m: nat)
    requires Solid(line) && FirstStop(line, m) && Continues(line[m + 1]) && !Stops(line, 1)
    ensures if line[|line| - 1].inclusive then ScansHeld(line, FromSegment(line, m))
            else Loses(line, FromSegment(line, m))
  {
    StopsLater(line, m, 1);
    AfterLowStop(line, m);
    if line[|line| - 1].inclusive {
      UpToLastHeld(line, m, FromSegment(line, m));
    } else {
      LostAbove(line, m, FromSegment(line, m));
    }
  }

  lemma {:induction false} HighStopBoth(line: seq<Endpoint>, m: nat)
    requires Solid(line) && FirstStop(line, m) && Continues(line[m]) && Stops(line, 0)
    ensures ScansHeld(line, FromSegment(line, m))
  {
    StopsLater(line, m, 0);
    AfterHighStop(line, m);
    EverythingHeld(line, FromSegment(line, m));
  }

  lemma {:induction false} HighStopOnly(line: seq<Endpoint>, m: nat)
    requires Solid(line) && FirstStop(line, m) && Continues(line[m]) && !Stops(line, 0) && line[m + 2].inclusive
    ensures ScansHeld(line, FromSegment(line, m))
  {
    StopsLater(line, m, 0);
    AfterHighStop(line, m);
    OpenFromLast(line, m);
  }

  lemma {:induction false} HighStopLoses(line: seq<Endpoint>, m: nat)
    requires Solid(line) && FirstStop(line, m) && Continues(line[m]) && !Stops(line, 0)
    requires m + 4 == |line| && !line[m + 2].inclusive
    ensures Loses(line, FromSegment(line, m))
  {
    StopsLater(line, m, 0);
    AfterHighStop(line, m);
    LostBelow(line);
  }

  /** The high ends stop at the segment just before the last exactly if they do not stop before it. */
  lemma {:induction false} HighStopAt(line: seq<Endpoint>, m: nat)
    requires FirstStop(line, m) && !Continues(line[m + 1])
    ensures Stops(line[..|line| - 2], 1) <==> m + 4 < |line|
    ensures m + 4 < |line| && !Stops(line, 0) ==> line[m + 2].inclusive
  {
    var but := line[..|line| - 2];
    if m + 4 < |line| {
      assert StopsAt(but, 1, m + 1);
      if !Stops(line, 0) {
        assert !StopsAt(line, 0, m + 2);
      }
    } else {
      forall k: nat | k < m
        ensures !StopsAt(but, 1, k)
      {
        assert ContinuesAt(line, k);
      }
    }
  }

  lemma {:induction false} OpenFromLast(line: seq<Endpoint>, m: nat)
    requires Solid(line) && m % 2 == 0 && m + 2 < |line| && line[m + 2].inclusive
    ensures ScansHeld(line, FromLast(Opened(line, m, []), line[m + 4..]))
  {
    var more := FromLastOpened(line, m);
    OpenHeld(line, m, more);
  }

  lemma {:induction false} FromLastOpened(line: seq<Endpoint>, m: nat) returns (more: seq<Endpoint>)
    requires m + 2 < |line|
    ensures m + 4 <= |line| ==> FromLast(Opened(line, m, []), line[m + 4..]) == Opened(line, m, more)
  {
    more := [];
    if m + 6 <= |line| && !line[|line| - 2].inclusive {
      more := [line[|line| - 2], InitialHigh()];
    }
  }

  lemma {:induction false} BothStop(line: seq<Endpoint>, m: nat)
    requires Solid(line) && FirstStop(line, m) && !Continues(line[m]) && !Continues(line[m + 1])
    ensures ScansHeld(line, FromSegment(line, m))
  {
    PairedUpTo(line, m + 2);
    BothStopped(line[..m + 2], line[m + 2..]);
    EverythingHeld(line, FromSegment(line, m));
  }

  lemma {:induction false} LowStopIff(line: seq<Endpoint>, m: nat)
    requires Solid(line) && FirstStop(line, m) && !Continues(line[m])
    ensures if Stops(line, 1) || line[|line| - 1].inclusive then ScansHeld(line, FromSegment(line, m))
            else Loses(line, FromSegment(line, m))
  {
    if !Continues(line[m + 1]) {
      assert StopsAt(line, 1, m + 1);
      BothStop(line, m);
    } else if Stops(line, 1) {
      LowStopBoth(line, m);
    } else {
      LowStopOnly(line, m);
    }
  }

  lemma {:induction false} HighStopIff(line: seq<Endpoint>, m: nat)
    requires Solid(line) && FirstStop(line, m) && Continues(line[m])
    ensures if Stops(line, 0) || line[m + 2].inclusive then ScansHeld(line, FromSegment(line, m))
            else m + 4 == |line| && Loses(line, FromSegment(line, m))
  {
    if Stops(line, 0) {
      HighStopBoth(line, m);
    } else if line[m + 2].inclusive {
      HighStopOnly(line, m);
    } else {
      HighStopAt(line, m);
      HighStopLoses(line, m);
    }
  }

  lemma {:induction false} StopIff(line: seq<Endpoint>, m: nat)
    requires Solid(line) && FirstStop(line, m)
    ensures if Gap(line) then Loses(line, FromSegment(line, m)) else ScansHeld(line, FromSegment(line, m))
  {
    if Continues(line[m]) {
      assert StopsAt(line, 1, m + 1);
      HighStopAt(line, m);
      HighStopIff(line, m);
    } else {
      assert StopsAt(line, 0, m);
      LowStopIff(line, m);
    }
  }

  /** With one bounded column, every key in its bound is scanned exactly if the line has no gap. */
  lemma {:induction false} OneColumnIff(columns: seq<nat>, bounds: Bounds)
    requires columns != [] && columns[0] in bounds && (|columns| > 1 ==> columns[1] !in bounds)
    requires Solid(bounds[columns[0]])
    ensures AllScanned(columns, bounds) <==> !Gap(bounds[columns[0]])
  {
    var line := bounds[columns[0]];
    if Stops(line, 0) || Stops(line, 1) {
      var m := FindFirstStop(line);
      ConsolidatedOne(columns, bounds, m);
      StopIff(line, m);
      ScannedIff(columns, bounds, FromSegment(line, m));
    } else {
      NoStopScans(columns, bounds);
    }
  }

  lemma {:induction false} ScannedIff(columns: seq<nat>, bounds: Bounds, r: seq<Endpoint>)
    requires columns != [] && columns[0] in bounds && (|columns| > 1 ==> columns[1] !in bounds)
    requires Solid(bounds[columns[0]]) && r == Consolidated(columns, bounds)
    ensures ScansHeld(bounds[columns[0]], r) ==> AllScanned(columns, bounds)
    ensures Loses(bounds[columns[0]], r) ==> !AllScanned(columns, bounds)
  {
    var line := bounds[columns[0]];
    if ScansHeld(line, r) {
      forall x | ColumnKey(x) && KeyInBounds(columns, bounds, x)
        ensures Scans(Exported(r), x)
      {
        OneInBounds(columns, bounds, x);
      }
    }
    if Loses(line, r) {
      var u :| Lost(line, r, u);
      var x := KeyOfOne(u, |columns|);
      OneInBounds(columns, bounds, x);
      assert KeyInBounds(columns, bounds, x) && !Scans(Exported(r), x);
    }
  }

  lemma {:induction false} NoStopScans(columns: seq<nat>, bounds: Bounds)
    requires columns != [] && columns[0] in bounds && (|columns| > 1 ==> columns[1] !in bounds)
    requires Solid(bounds[columns[0]]) && !Stops(bounds[columns[0]], 0) && !Stops(bounds[columns[0]], 1)
    ensures AllScanned(columns, bounds)
  {
    var line := bounds[columns[0]];
    forall k | 0 <= k < |line| - 2
      ensures Continues(line[k])
    {
      assert !StopsAt(line, k % 2, k);
    }
    SolidWellFormed(line);
    assert |line| > 2 ==> SolidAt(line, |line| - 2, 0);
    assert ClosedRun(columns, bounds);
    forall x | ColumnKey(x) && KeyInBounds(columns, bounds, x)
      ensures Scans(Exported(Consolidated(columns, bounds)), x)
    {
      ClosedRunCover(columns, bounds, x);
    }
  }

  // ---------------------------------------------------------------- queries

  /** Predicates without NOT. */
  predicate NotFree(p: Pred) {
    match p
    case And(ps) => forall i :: 0 <= i < |ps| ==> NotFree(ps[i])
    case Or(ps) => forall i :: 0 <= i < |ps| ==> NotFree(ps[i])
    case Not(_) => false
    case _ => true
  }

  predicate ColumnEnds(lo: Endpoint, hi: Endpoint) {
    && Standard(lo) && Standard(hi) && lo.side.Low? && hi.side.High? && |lo.value| == |hi.value| == 1
    && (Less(lo.value[0], hi.value[0]) || (lo.value == hi.value && lo.inclusive && hi.inclusive))
  }

  lemma {:induction false} TwoPlaced(lo: Endpoint, hi: Endpoint)
    requires ColumnEnds(lo, hi)
    ensures WellFormed([lo, hi], COLUMN_BY_PLACE)
  {
    OnePart(lo.value, hi.value);
  }

  /** Two segments that leave out a value. */
  lemma {:induction false} FourPlaced(a: Endpoint, b: Endpoint, c: Endpoint, d: Endpoint)
    requires ColumnEnds(a, b) && ColumnEnds(c, d) && b.value == c.value && !b.inclusive && !c.inclusive
    ensures WellFormed([a, b, c, d], COLUMN_BY_PLACE)
  {
    var line := [a, b, c, d];
    OnePart(a.value, b.value);
    OnePart(c.value, d.value);
    KeyLessTransitive(a.value, b.value, d.value);
    assert NotAfter(a, b, ByPlace) && NotAfter(a, c, ByPlace) && NotAfter(a, d, ByPlace);
    assert NotAfter(b, c, ByPlace) && NotAfter(b, d, ByPlace) && NotAfter(c, d, ByPlace);
  }

  lemma {:induction false} LeafLine(p: Pred, params: Params, c: nat)
    requires c in Marked(p) && !p.And? && !p.Or? && !p.Not?
    ensures WellFormed(LineAt(p, params, c), COLUMN_BY_PLACE)
  {
    var line := LineAt(p, params, c);
    if p.Compare? && p.op == Ne {
      FourPlaced(line[0], line[1], line[2], line[3]);
    } else {
      TwoPlaced(line[0], line[1]);
      assert line == [line[0], line[1]];
    }
  }

  /** Without NOT, lines are sorted by place. */
  lemma {:induction false} NotFreeLine(p: Pred, params: Params, c: nat)
    requires NotFree(p) && Grouped(p)
    ensures WellFormed(LineAt(p, params, c), COLUMN_BY_PLACE)
  {
    if c in Marked(p) && (p.And? || p.Or?) {
      var lines := LinesAt(p.preds, params, c);
      forall i | 0 <= i < |p.preds|
        ensures WellFormed(lines[i], COLUMN_BY_PLACE)
      {
        NotFreeLine(p.preds[i], params, c);
      }
      SweptWellFormed(lines, Quorum(p), COLUMN_BY_PLACE);
      GroupLine(p, params, c);
    } else if c in Marked(p) {
      LeafLine(p, params, c);
    } else {
      OnePart([NegInf], [PosInf]);
    }
  }

  ghost predicate QueryScanned(p: Pred, params: Params, columns: seq<nat>)
    requires columns != [] && (|columns| > 1 ==> columns[0] in Marked(p))
  {
    forall x {:trigger Scans(RangesOf(p, params, columns), x)} ::
      ColumnKey(x) && KeyInBounds(columns, BoundsOf(p, params), x) ==> Scans(RangesOf(p, params, columns), x)
  }

  /** A query that bounds the first of several index columns, and not the second, has all keys within that bound
      scanned exactly if the bound has no gap. */
  lemma {:induction false} QueryScannedIff(p: Pred, params: Params, columns: seq<nat>)
    requires NotFree(p) && Grouped(p)
    requires |columns| > 1 && columns[0] in Marked(p) && columns[1] !in Marked(p)
    ensures QueryScanned(p, params, columns) <==> !Gap(LineAt(p, params, columns[0]))
  {
    var bounds := BoundsOf(p, params);
    NotFreeLine(p, params, columns[0]);
    PlacedIsSolid(bounds[columns[0]]);
    OneColumnIff(columns, bounds);
    if AllScanned(columns, bounds) {
      forall x | ColumnKey(x) && KeyInBounds(columns, bounds, x)
        ensures Scans(RangesOf(p, params, columns), x)
      {
      }
    }
    if QueryScanned(p, params, columns) {
      forall x | ColumnKey(x) && KeyInBounds(columns, bounds, x)
        ensures Scans(Exported(Consolidated(columns, bounds)), x)
      {
        assert Scans(RangesOf(p, params, columns), x);
      }
    }
  }

  // ---------------------------------------------------------------- a query that loses rows

  /** a >= 1 AND a <> 3. */
  function AroundThree(): Pred {
    And([Compare(0, Ge, Literal(1.0)), Compare(0, Ne, Literal(3.0))])
  }

  function AroundThreeLine(): seq<Endpoint> {
    [Endpoint([Val(1.0)], true, Low), Endpoint([Val(3.0)], false, High), Endpoint([Val(3.0)], false, Low),
        PositiveInfinity()]
  }

  lemma {:induction false} AroundThreeMerged(nul: Endpoint, line: seq<Endpoint>)
    requires line == AroundThreeLine() && nul == Endpoint([Null], false, Low)
    ensures Stacked([[line[0], line[3]], [nul, line[1], line[2], line[3]]]) == [nul] + line + [line[3]]
  {
    var one, h, l, inf := line[0], line[1], line[2], line[3];
    var above, around: seq<Endpoint> := [one, inf], [nul, h, l, inf];
    assert [above, around][1..] == [around];
    assert around[1..] == [h, l, inf] && [h, l, inf][1..] == [l, inf] && [l, inf][1..] == [inf];
    assert above[1..] == [inf] && [inf][1..] == [];
    assert CompareEndpoints(nul, one) == -1 && CompareEndpoints(h, one) == 1;
    assert Merge([inf], [inf]) == [inf, inf];
    assert Merge([l, inf], [inf]) == [l, inf, inf];
    assert Merge([h, l, inf], [inf]) == [h, l, inf, inf];
    assert Merge([h, l, inf], above) == [one, h, l, inf, inf];
    assert Merge(around, above) == [nul, one, h, l, inf, inf];
  }

  lemma {:induction false} AroundThreeSwept(nul: Endpoint, line: seq<Endpoint>)
    requires line == AroundThreeLine() && nul == Endpoint([Null], false, Low)
    ensures Swept([nul] + line + [line[3]], 0, 2) == line
  {
    var one, h, l, inf := line[0], line[1], line[2], line[3];
    var all := [nul, one, h, l, inf, inf];
    assert [nul] + line + [inf] == all;
    assert all[1..] == [one, h, l, inf, inf] && all[1..][1..] == [h, l, inf, inf];
    assert [h, l, inf, inf][1..] == [l, inf, inf] && [l, inf, inf][1..] == [inf, inf] && [inf, inf][1..] == [inf];
    assert Swept([inf], 1, 2) == [];
    assert Swept([inf, inf], 2, 2) == [inf];
    assert Swept([l, inf, inf], 1, 2) == [l, inf];
    assert Swept([h, l, inf, inf], 2, 2) == [h, l, inf];
    assert Swept([one, h, l, inf, inf], 1, 2) == [one, h, l, inf];
  }

  lemma {:induction false} AroundThreeBound(params: Params)
    ensures BoundsOf(AroundThree(), params) == map[0 := AroundThreeLine()]
  {
    var p, line, nul := AroundThree(), AroundThreeLine(), Endpoint([Null], false, Low);
    assert Marked(p) == {0} by {
      assert 0 in Marked(p.preds[0]);
    }
    assert LinesAt(p.preds, params, 0) == [[line[0], line[3]], [nul, line[1], line[2], line[3]]];
    AroundThreeMerged(nul, line);
    AroundThreeSwept(nul, line);
  }

  /** The line [1, 3) and (3, inf]: the high ends stop at 3, so that the second segment is left open above, and the
      export turns "above 3, open" round into "below 3". Everything above 3 is lost. */
  lemma {:induction false} AroundThreeScans(bounds: Bounds, x: Key)
    requires bounds == map[0 := AroundThreeLine()] && |x| == 2 && Less(Val(3.0), x[0])
    ensures !Scans(Exported(Consolidated([0, 1], bounds)), x)
  {
    var line := AroundThreeLine();
    AroundThreeSolid(line);
    ConsolidatedOne([0, 1], bounds, 0);
    AfterHighStop(line, 0);
    OpenTurned(line, x);
  }

  lemma {:induction false} AroundThreeSolid(line: seq<Endpoint>)
    requires line == AroundThreeLine()
    ensures Solid(line) && !Stops(line[2..], 0)
  {
    FourPlaced(line[0], line[1], line[2], line[3]);
    PlacedIsSolid(line);
  }

  lemma {:induction false} AroundThreeSelects(params: Params, row: Row)
    requires row(0) == Val(4.0)
    ensures Selects(AroundThree(), params, row)
  {
    var p := AroundThree();
    assert Eval(p.preds[0], params, row) == True && Eval(p.preds[1], params, row) == True;
  }

  /** The query a >= 1 AND a <> 3 on an index whose first column is a selects the row with 4, which no range has. */
  lemma {:induction false} ReusedFlagsMiss(params: Params, row: Row)
    requires row(0) == Val(4.0)
    ensures IsConjunction(AroundThree()) && Selects(AroundThree(), params, row) && 0 in Marked(AroundThree())
    ensures !Scans(RangesOf(AroundThree(), params, [0, 1]), KeyOf(row, [0, 1]))
  {
    var bounds := BoundsOf(AroundThree(), params);
    AroundThreeSelects(params, row);
    AroundThreeBound(params);
    assert 0 in bounds;
    AroundThreeScans(bounds, KeyOf(row, [0, 1]));
  }
}
