/** What consolidated index ranges promise about full keys. */
module IndexCover {
  import opened Endpoints
  import opened NumberLines
  import opened Complements
  import opened Consolidation
  import opened IndexKeys
  import opened Insertions
  import opened IndexRuns

  // ---------------------------------------------------------------- closed but for the last segment

  /** Every column of the leading run of bounded columns has a single segment. */
  predicate SingleSegments(columns: seq<nat>, bounds: Bounds) {
    columns == [] || columns[0] !in bounds
    || (|bounds[columns[0]]| == 2 && WellFormed(bounds[columns[0]], COLUMN)
        && SingleSegments(columns[1..], bounds))
  }

  lemma {:induction false} SegmentNotEmpty(line: seq<Endpoint>, u: Value)
    requires |line| == 2 && WellFormed(line, COLUMN) && u.IsColumnValue() && Holds(line, [u])
    ensures SegmentOf(line[0], line[1]) == line
    ensures line[0].side.Low? && line[1].side.High? && |line[0].value| == |line[1].value| == 1
    ensures if line[0].inclusive then !Less(u, line[0].value[0]) else Less(line[0].value[0], u)
    ensures if line[1].inclusive then !Less(line[1].value[0], u) else Less(u, line[1].value[0])
  {
    var lo, hi := line[0], line[1];
    assert [u][..1] == [u] && line[2..] == [] && lo.side.Low? && hi.side.High?;
    assert Standard(lo) && Standard(hi);
    OnePart([u], lo.value);
    OnePart(lo.value, [u]);
    OnePart([u], hi.value);
    OnePart(hi.value, [u]);
    OnePart(lo.value, hi.value);
    CompareRealisesOrder(lo, hi);
  }

  lemma {:induction false} InsertedFirst(low: Endpoint, high: Endpoint)
    requires low.side.Low? && high.side.High?
    ensures InsertedAll([], [[low, high]]) == [low, high]
  {
    var lines: seq<seq<Endpoint>> := [[], [low, high]];
    assert lines[1..] == [[low, high]];
    assert Stacked(lines) == [low, high];
    assert [low, high][1..] == [high] && [high][1..] == [];
    assert Swept([high], 1, 1) == [high];
    assert [[low, high]][1..] == [];
  }

  /** In the leading run of bounded columns all endpoints are finite and inclusive. */
  predicate InclusiveRun(columns: seq<nat>, bounds: Bounds) {
    columns == [] || columns[0] !in bounds
    || (&& WellFormed(bounds[columns[0]], COLUMN)
       && (forall i :: 0 <= i < |bounds[columns[0]]| ==> Continues(bounds[columns[0]][i]))
        && InclusiveRun(columns[1..], bounds))
  }

  /** In the leading run of bounded columns every segment but a column's last has both ends finite and
      inclusive, and the last of several is not empty. */
  predicate ClosedRun(columns: seq<nat>, bounds: Bounds) {
    columns == [] || columns[0] !in bounds
    || (&& ClosedButLast(bounds[columns[0]])
        && (|bounds[columns[0]]| > 2 ==>
           NotEmpty(bounds[columns[0]][|bounds[columns[0]]| - 2], bounds[columns[0]][|bounds[columns[0]]| - 1]))
        && ClosedRun(columns[1..], bounds))
  }

  /** Columns with a single segment are such a run, and so are columns all of whose ends are finite and inclusive. */
  lemma {:induction false} RunsAreClosed(columns: seq<nat>, bounds: Bounds)
    requires SingleSegments(columns, bounds) || InclusiveRun(columns, bounds)
    ensures ClosedRun(columns, bounds)
  {
    if columns != [] && columns[0] in bounds {
      RunsAreClosed(columns[1..], bounds);
    }
  }

  /** A column whose bound holds some value. */
  lemma {:induction false} HoldsTidy(line: seq<Endpoint>, u: Value)
    requires ClosedButLast(line) && u.IsColumnValue() && FitsLine(line, [u]) && Holds(line, [u])
    requires |line| > 2 ==> NotEmpty(line[|line| - 2], line[|line| - 1])
    ensures Tidy(line)
  {
    if |line| == 2 {
      SegmentNotEmpty(line, u);
    }
  }

  lemma {:induction false} HeldRunTidy(columns: seq<nat>, bounds: Bounds, x: Key)
    requires ClosedRun(columns, bounds) && ColumnKey(x) && KeyInBounds(columns, bounds, x)
    ensures TidyRun(columns, bounds)
  {
    if columns != [] && columns[0] in bounds {
      HoldsTidy(bounds[columns[0]], x[0]);
      HeldRunTidy(columns[1..], bounds, x[1..]);
    }
  }

  lemma {:induction false} RunWithin(columns: seq<nat>, bounds: Bounds)
    ensures RunLength(columns, bounds) <= |columns|
  {
    if columns != [] && columns[0] in bounds {
      RunWithin(columns[1..], bounds);
    }
  }

  lemma {:induction false} ExportedAt(line: seq<Endpoint>, k: nat)
    requires k % 2 == 0 && k + 1 < |line|
    ensures |Exported(line)| > k / 2 && Exported(line)[k / 2] == SegmentOf(line[k], line[k + 1])
  {
    if k > 0 {
      ExportedAt(line[2..], k - 2);
      assert (k - 2) / 2 == k / 2 - 1;
    }
  }

  /** A key that the line of all pieces holds is scanned. */
  lemma {:induction false} PairScanned(line: seq<Endpoint>, n: nat, x: Key)
    requires Made(line, n, x) && InPairs(line, x)
    ensures Scans(Exported(line), x)
  {
    var k: nat :| PairHolds(line, k, x);
    assert line[k].side.Low? && line[k + 1].side.High?;
    EndsOrdered(line[k], line[k + 1], x, n);
    ExportedAt(line, k);
    assert InRange(Exported(line)[k / 2], x);
  }

  /** Every key whose parts lie in their column bounds is scanned. */
  lemma {:induction false} ClosedRunCover(columns: seq<nat>, bounds: Bounds, x: Key)
    requires columns != [] && columns[0] in bounds && ClosedRun(columns, bounds)
    requires ColumnKey(x) && KeyInBounds(columns, bounds, x)
    ensures Scans(Exported(Consolidated(columns, bounds)), x)
  {
    var line, n := bounds[columns[0]], RunLength(columns, bounds);
    var low, high := InitialLow(), InitialHigh();
    HeldRunTidy(columns, bounds, x);
    RunWithin(columns, bounds);
    assert x[0..] == x && x[0 + 1..] == x[1..];
    PiecesInserted(columns, bounds, line, low, high, true, true, [], 0, n, x);
    PairScanned(Consolidated(columns, bounds), n, x);
  }

  // ---------------------------------------------------------------- points before the last column

  const COLUMN_BY_PLACE := Shape(1, ByPlace)

  predicate IsPoint(line: seq<Endpoint>) {
    && |line| == 2 && line[0].value == line[1].value && |line[0].value| == 1 && line[0].value[0].Val?
    && line[0].inclusive && line[1].inclusive && line[0].side.Low? && line[1].side.High?
  }

  /** In the leading run of bounded columns, each has one segment, a single point in all but
      the last. */
  predicate PointsButLast(columns: seq<nat>, bounds: Bounds) {
    columns == [] || columns[0] !in bounds
    || (&& |bounds[columns[0]]| == 2 && WellFormed(bounds[columns[0]], COLUMN_BY_PLACE)
        && (|columns| > 1 && columns[1] in bounds ==> IsPoint(bounds[columns[0]]))
        && PointsButLast(columns[1..], bounds))
  }

  lemma {:induction false} InPushedRange(low: Endpoint, high: Endpoint, lo: Endpoint, hi: Endpoint, z: Key, k: nat)
    requires low.value == high.value && low.inclusive && high.inclusive && |low.value| == k < |z|
    requires |lo.value| == |hi.value| == 1
    ensures InRange([Push(low, lo), Push(high, hi)], z)
        <==> z[..k] == low.value && InSegment(lo, hi, [z[k]])
  {
    var u := z[k];
    assert z[..k + 1] == z[..k] + [u] && [u][..1] == [u];
    assert lo.value == [lo.value[0]] && hi.value == [hi.value[0]];
    KeyLessAppend(z[..k], low.value, u, lo.value[0]);
    KeyLessAppend(low.value, z[..k], lo.value[0], u);
    KeyLessAppend(z[..k], low.value, u, hi.value[0]);
    KeyLessAppend(low.value, z[..k], hi.value[0], u);
    OnePart([u], lo.value);
    OnePart(lo.value, [u]);
    OnePart([u], hi.value);
    OnePart(hi.value, [u]);
    KeyLessTotal(z[..k], low.value);
  }

  lemma {:induction false} PointHolds(line: seq<Endpoint>, u: Value)
    requires IsPoint(line) && u.IsColumnValue()
    ensures FitsLine(line, [u]) && (Holds(line, [u]) <==> [u] == line[0].value)
    ensures SegmentOf(line[0], line[1]) == line
  {
    assert [u][..1] == [u] && line[2..] == [];
    OnePart([u], line[0].value);
    OnePart(line[0].value, [u]);
  }

  lemma {:induction false} EqualKeysOrdered(low: Endpoint, high: Endpoint)
    requires low.value == high.value && low.inclusive && high.inclusive
    requires low.side.Low? && high.side.High? && (forall i :: 0 <= i < |low.value| ==> low.value[i].Val?)
    ensures SegmentOf(low, high) == [low, high]
  {
    CompareKeysSign(low.value, high.value);
    KeyLessTotal(low.value, high.value);
  }

  lemma {:induction false} ColumnSegment(line: seq<Endpoint>, u: Value)
    requires |line| == 2 && WellFormed(line, COLUMN_BY_PLACE)
    ensures SegmentOf(line[0], line[1]) == line && line[0].side.Low? && line[1].side.High?
    ensures |line[0].value| == |line[1].value| == 1 && FitsLine(line, [u])
    ensures Holds(line, [u]) <==> InSegment(line[0], line[1], [u])
  {
    assert line[0].side.Low? && line[1].side.High? && NotAfter(line[0], line[1], ByPlace);
    assert Standard(line[0]) && Standard(line[1]) && line == [line[0], line[1]] && line[2..] == [];
    SegmentOfOrdered(line[0], line[1], COLUMN_BY_PLACE);
  }

  /** The one piece lies exactly where the fixed parts and the last segment say. */
  lemma {:induction false} PointPiece(columns: seq<nat>, bounds: Bounds, low: Endpoint, high: Endpoint, z: Key)
    requires columns != [] && columns[0] in bounds && PointsButLast(columns, bounds)
    requires low.value == high.value && low.inclusive && high.inclusive && low.side.Low? && high.side.High?
    requires forall i :: 0 <= i < |low.value| ==> low.value[i].Val?
    requires ColumnKey(z) && |z| == |low.value| + |columns|
    ensures var pieces := Pieces(columns, bounds, bounds[columns[0]], low, high, true, true);
            && |pieces| == 1 && |pieces[0]| == 2
            && pieces[0][0].side.Low? && pieces[0][1].side.High?
            && (InRange(pieces[0], z) <==>
                z[..|low.value|] == low.value && KeyInBounds(columns, bounds, z[|low.value|..]))
    decreases |columns|
  {
    var line, k := bounds[columns[0]], |low.value|;
    OnePiece(columns, bounds, line, low, high, z[k]);
    if |columns| > 1 && columns[1] in bounds {
      PointHolds(line, z[k]);
      PointPiece(columns[1..], bounds, Push(low, line[0]), Push(high, line[1]), z);
      NextPoint(columns, bounds, low, line, z, k);
    } else {
      InPushedRange(low, high, line[0], line[1], z, k);
      LastPoint(columns, bounds, z[k..]);
    }
  }

  /** A column with one segment extends the partial bounds once. */
  lemma {:induction false} OnePiece(columns: seq<nat>, bounds: Bounds, line: seq<Endpoint>, low: Endpoint,
                                    high: Endpoint, u: Value)
    requires columns != [] && |line| == 2 && WellFormed(line, COLUMN_BY_PLACE)
    requires low.value == high.value && low.inclusive && high.inclusive && low.side.Low? && high.side.High?
    requires forall i :: 0 <= i < |low.value| ==> low.value[i].Val?
    ensures Pieces(columns, bounds, line, low, high, true, true)
         == Here(columns, bounds, Push(low, line[0]), Push(high, line[1]), Continues(line[0]), Continues(line[1]))
    ensures line[0].side.Low? && line[1].side.High? && |line[0].value| == |line[1].value| == 1
    ensures FitsLine(line, [u]) && (Holds(line, [u]) <==> InSegment(line[0], line[1], [u]))
  {
    ColumnSegment(line, u);
    EqualKeysOrdered(low, high);
    assert line[2..] == [];
    assert Pieces(columns, bounds, line[2..], low, high, Continues(line[0]), Continues(line[1])) == [];
  }

  lemma {:induction false} NextPoint(columns: seq<nat>, bounds: Bounds, low: Endpoint, line: seq<Endpoint>, z: Key,
                                     k: nat)
    requires |columns| > 1 && columns[0] in bounds && bounds[columns[0]] == line && |line| == 2
    requires k == |low.value| && |z| == k + |columns| && |line[0].value| == 1 && FitsLine(line, [z[k]])
    requires Holds(line, [z[k]]) <==> [z[k]] == line[0].value
    ensures (z[..k] == low.value && KeyInBounds(columns, bounds, z[k..]))
       <==> (z[..k + 1] == Push(low, line[0]).value && KeyInBounds(columns[1..], bounds, z[k + 1..]))
  {
    assert z[..k + 1] == z[..k] + [z[k]] && line[0].value == [line[0].value[0]];
    assert z[k..][0] == z[k] && z[k..][1..] == z[k + 1..];
  }

  lemma {:induction false} LastPoint(columns: seq<nat>, bounds: Bounds, rest: Key)
    requires columns != [] && columns[0] in bounds && (|columns| > 1 ==> columns[1] !in bounds)
    requires |rest| == |columns| && FitsLine(bounds[columns[0]], [rest[0]])
    ensures KeyInBounds(columns, bounds, rest) <==> Holds(bounds[columns[0]], [rest[0]])
  {
    assert KeyInBounds(columns[1..], bounds, rest[1..]);
  }

  /** With a point in every bounded column but the last, the range holds exactly the keys
      whose parts lie in the column bounds. */
  lemma {:induction false} PointsExact(columns: seq<nat>, bounds: Bounds, x: Key)
    requires columns != [] && columns[0] in bounds && PointsButLast(columns, bounds)
    requires ColumnKey(x) && |x| == |columns|
    ensures InRange(Consolidated(columns, bounds), x) <==> KeyInBounds(columns, bounds, x)
  {
    PointPiece(columns, bounds, InitialLow(), InitialHigh(), x);
    var pieces := Pieces(columns, bounds, bounds[columns[0]], InitialLow(), InitialHigh(), true, true);
    var piece := pieces[0];
    assert piece == [piece[0], piece[1]] && pieces == [piece] && x[0..] == x && x[..0] == [];
    InsertedFirst(piece[0], piece[1]);
  }
}
