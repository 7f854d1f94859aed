/** From a query and an index to the ranges to scan
    (database-jones/Adapter/common/IndexBounds.js, getIndexBounds). */
module IndexBounds {
  import opened Endpoints
  import opened NumberLines
  import opened Complements
  import opened QueryTrees
  import opened ColumnMasks
  import opened ColumnBounds
  import opened ColumnCover
  import opened Consolidation
  import opened IndexKeys
  import opened IndexRuns
  import opened IndexCover

  /** No AND, and no NOT over a group: the index visitor writes nothing the root depends on. */
  predicate Inert(p: Pred) {
    match p
    case And(_) => false
    case Or(ps) => forall i :: 0 <= i < |ps| ==> Inert(ps[i])
    case Not(q) => Operands(q) == []
    case _ => true
  }

  predicate IsConjunction(p: Pred) {
    p.And? && forall i :: 0 <= i < |p.preds| ==> Inert(p.preds[i])
  }

  /** The ranges of a first evaluation. */
  function RangesOf(p: Pred, params: Params, columns: seq<nat>): seq<seq<Endpoint>>
    requires columns != [] && (|columns| > 1 ==> columns[0] in Marked(p))
  {
    if |columns| == 1 then Exported(LineAt(p, params, columns[0]))
    else Exported(Consolidated(columns, BoundsOf(p, params)))
  }

  method Export(line: seq<Endpoint>) returns (ranges: seq<seq<Endpoint>>)
    requires |line| % 2 == 0
    ensures ranges == Exported(line)
  {
    ranges := [];
    var n := 0;
    while n < |line|
      invariant 0 <= n <= |line| && n % 2 == 0
      invariant Exported(line) == ranges + Exported(line[n..])
    {
      assert line[n..][2..] == line[n + 2..];
      ranges := ranges + [SegmentOf(line[n], line[n + 1])];
      n := n + 2;
    }
  }

  // ---------------------------------------------------------------- an index of one column

  /** Of the keys with a number in the one column, exactly those are scanned that the predicate
      allows there. */
  ghost predicate ScansAllowed(ranges: seq<seq<Endpoint>>, p: Pred, params: Params, c: nat) {
    forall n: real {:trigger Allows(p, params, c, n)} :: Scans(ranges, [Val(n)]) <==> Allows(p, params, c, n)
  }

  /** A segment whose ends are at most out of order at one cut holds the same with its ends turned. */
  lemma {:induction false} SegmentTurned(low: Endpoint, high: Endpoint, v: Value)
    requires Standard(low) && Standard(high) && |low.value| == |high.value| == 1 && low.side.Low? && high.side.High?
    requires NotAfter(low, high, ByCut)
    ensures InRange(SegmentOf(low, high), [v]) <==> InSegment(low, high, [v])
  {
    assert [v][..1] == [v];
    CompareRealisesOrder(low, high);
    OnePart([v], low.value);
    OnePart(low.value, [v]);
    OnePart([v], high.value);
    OnePart(high.value, [v]);
    OnePart(low.value, high.value);
  }

  lemma {:induction false} ScansMore(first: seq<Endpoint>, rest: seq<seq<Endpoint>>, x: Key)
    ensures Scans([first] + rest, x) <==> InRange(first, x) || Scans(rest, x)
  {
    var ranges := [first] + rest;
    assert ranges[0] == first;
    if i :| 0 <= i < |rest| && InRange(rest[i], x) {
      assert ranges[i + 1] == rest[i];
    }
    if i :| 0 < i < |ranges| && InRange(ranges[i], x) {
      assert ranges[i] == rest[i - 1];
    }
  }

  lemma {:induction false} ExportedColumnScans(line: seq<Endpoint>, v: Value)
    requires WellFormed(line, COLUMN)
    ensures FitsLine(line, [v])
    ensures Scans(Exported(line), [v]) <==> Holds(line, [v])
  {
    if |line| >= 2 {
      AlternatesTail(line);
      SegmentTurned(line[0], line[1], v);
      ExportedColumnScans(line[2..], v);
      ScansMore(SegmentOf(line[0], line[1]), Exported(line[2..]), [v]);
    }
  }

  lemma {:induction false} OneColumnScanned(p: Pred, params: Params, c: nat)
    requires Boundable(p, params) && !Fails(p, params)
    ensures ScansAllowed(RangesOf(p, params, [c]), p, params, c)
  {
    forall n: real
      ensures Scans(RangesOf(p, params, [c]), [Val(n)]) <==> Allows(p, params, c, n)
    {
      BoundIsExact(p, params, c, n);
      ExportedColumnScans(LineAt(p, params, c), Val(n));
    }
  }

  /** With a predicate over the column of the index alone, a number is scanned if and only if the
      predicate selects it. */
  lemma {:induction false} ScannedIffSelected(p: Pred, params: Params, c: nat, row: Row)
    requires OneColumn(p, params, c) && !Fails(p, params) && c in Marked(p) && row(c).Val?
    ensures Scans(RangesOf(p, params, [c]), [row(c)]) <==> Selects(p, params, row)
  {
    OneColumnExact(p, params, c, row);
    OneColumnLine(p, params, c);
    ExportedColumnScans(LineAt(p, params, c), row(c));
  }

  /** A multi-part index is modelled for conjunctions. The range consolidated at the root is
      kept in the node, and a later evaluation uses it whatever its parameters are. */
  method GetIndexBounds(root: QueryNode, columns: seq<nat>, params: Params)
    returns (ok: bool, ranges: seq<seq<Endpoint>>)
    requires root.Valid() && columns != [] && (|columns| > 1 ==> IsConjunction(root.pred))
    requires root.hasIndexRange ==> |root.indexRange| % 2 == 0
    modifies root.repr`columnBound, root`hasIndexRange, root`indexRange
    ensures ok ==> !Fails(root.pred, params)
    ensures !old(root.hasIndexRange) || |columns| == 1 ==>
              (ok <==> !Fails(root.pred, params) && (|columns| > 1 ==> columns[0] in Marked(root.pred)))
    ensures ok && (!old(root.hasIndexRange) || |columns| == 1) ==>
              ranges == RangesOf(root.pred, params, columns)
    ensures ok && old(root.hasIndexRange) && |columns| > 1 ==> ranges == Exported(old(root.indexRange))
    ensures ok && |columns| == 1 && Boundable(root.pred, params) ==>
              ScansAllowed(ranges, root.pred, params, columns[0])
  {
    ranges := [];
    var visitor := new ColumnBoundVisitor(params);
    ok := visitor.Visit(root);
    if !ok {
      return;
    }
    if |columns| == 1 {
      LinePaired(root.pred, params, columns[0]);
      var line;
      if columns[0] in root.columnBound {
        line := root.columnBound[columns[0]];
      } else {
        line := UnboundedSegment();
      }
      ranges := Export(line);
      if Boundable(root.pred, params) {
        OneColumnScanned(root.pred, params, columns[0]);
      }
      return;
    }
    if !root.hasIndexRange {
      forall c | c in root.columnBound
        ensures |root.columnBound[c]| % 2 == 0
      {
        LinePaired(root.pred, params, c);
      }
      var range;
      ok, range := Consolidate(columns, root.columnBound);
      if !ok {
        return;
      }
      ConsolidatedEven(columns, root.columnBound);
      root.hasIndexRange, root.indexRange := true, range;
    }
    ranges := Export(root.indexRange);
  }

  // ---------------------------------------------------------------- even lengths

  predicate MarkedPairs(pieces: seq<seq<Endpoint>>) {
    forall i :: 0 <= i < |pieces| ==> Paired(pieces[i])
  }

  lemma {:induction false} InsertedAllPaired(line: seq<Endpoint>, pieces: seq<seq<Endpoint>>)
    requires Paired(line) && MarkedPairs(pieces)
    ensures Paired(InsertedAll(line, pieces))
    decreases |pieces|
  {
    if pieces != [] {
      SweptPaired([line, pieces[0]], 1);
      InsertedAllPaired(Inserted(line, pieces[0]), pieces[1..]);
    }
  }

  lemma {:induction false} PiecesMarked(columns: seq<nat>, bounds: Bounds, line: seq<Endpoint>,
                                        low: Endpoint, high: Endpoint, doLow: bool, doHigh: bool)
    requires columns != []
    ensures MarkedPairs(Pieces(columns, bounds, line, low, high, doLow, doHigh))
    decreases |columns|, 1, |line|
  {
    if |line| >= 2 {
      var segment, partial := SegmentOf(line[0], line[1]), SegmentOf(low, high);
      var low', high' := Extended(partial[0], segment[0], doLow), Extended(partial[1], segment[1], doHigh);
      var doLow', doHigh' := doLow && Continues(segment[0]), doHigh && Continues(segment[1]);
      HereMarked(columns, bounds, low', high', doLow', doHigh');
      PiecesMarked(columns, bounds, line[2..], low, high, doLow', doHigh');
      MarkedJoin(Here(columns, bounds, low', high', doLow', doHigh'),
                 Pieces(columns, bounds, line[2..], low, high, doLow', doHigh'));
    }
  }

  lemma {:induction false} HereMarked(columns: seq<nat>, bounds: Bounds, low: Endpoint, high: Endpoint,
                                      doLow: bool, doHigh: bool)
    requires columns != [] && low.side.Low? && high.side.High?
    ensures MarkedPairs(Here(columns, bounds, low, high, doLow, doHigh))
    decreases |columns|, 0, 0
  {
    if |columns| > 1 && (doLow || doHigh) && columns[1] in bounds {
      PiecesMarked(columns[1..], bounds, bounds[columns[1]], low, high, doLow, doHigh);
    }
  }

  lemma {:induction false} MarkedJoin(a: seq<seq<Endpoint>>, b: seq<seq<Endpoint>>)
    requires MarkedPairs(a) && MarkedPairs(b)
    ensures MarkedPairs(a + b)
  {
  }

  lemma {:induction false} ConsolidatedEven(columns: seq<nat>, bounds: Bounds)
    requires columns != [] && columns[0] in bounds
    ensures |Consolidated(columns, bounds)| % 2 == 0
  {
    PiecesMarked(columns, bounds, bounds[columns[0]], InitialLow(), InitialHigh(), true, true);
    InsertedAllPaired([], Pieces(columns, bounds, bounds[columns[0]], InitialLow(), InitialHigh(), true, true));
  }

  // ---------------------------------------------------------------- the scan covers the query

  function KeyOf(row: Row, columns: seq<nat>): Key {
    seq(|columns|, i requires 0 <= i < |columns| => row(columns[i]))
  }

  lemma {:induction false} SelectedKeyInBounds(p: Pred, params: Params, columns: seq<nat>, row: Row)
    requires Boundable(p, params) && !Fails(p, params) && IsRow(row) && Selects(p, params, row)
    ensures KeyInBounds(columns, BoundsOf(p, params), KeyOf(row, columns))
  {
    if columns != [] && columns[0] in Marked(p) {
      Covers(p, params, columns[0], row);
      SelectedKeyInBounds(p, params, columns[1..], row);
      assert KeyOf(row, columns)[1..] == KeyOf(row, columns[1..]);
    }
  }

  /** What every line of the source is for: a row that the predicate selects has its key in one
      of the ranges that are scanned, for an index of one column, and for a conjunction over
      more columns all but the last of whose segments are closed. */
  lemma {:induction false} ScanCoversQuery(p: Pred, params: Params, columns: seq<nat>, row: Row)
    requires Boundable(p, params) && !Fails(p, params) && IsRow(row) && Selects(p, params, row)
    requires columns != [] && (|columns| > 1 ==> columns[0] in Marked(p) && ClosedRun(columns, BoundsOf(p, params)))
    ensures Scans(RangesOf(p, params, columns), KeyOf(row, columns))
  {
    if |columns| == 1 {
      Covers(p, params, columns[0], row);
      ExportedColumnScans(LineAt(p, params, columns[0]), row(columns[0]));
      assert KeyOf(row, columns) == [row(columns[0])];
    } else {
      SelectedKeyInBounds(p, params, columns, row);
      ClosedRunCover(columns, BoundsOf(p, params), KeyOf(row, columns));
    }
  }
}
