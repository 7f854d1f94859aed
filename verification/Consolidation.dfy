/** Consolidating column bounds into ranges of a multi-part index
    (database-jones/Adapter/common/IndexBounds.js, IndexBoundVisitor.consolidate). */
module Consolidation {
  import opened Endpoints
  import opened NumberLines
  import opened Complements

  type Bounds = map<nat, seq<Endpoint>>

  /** Endpoint.push: one more part, whose inclusiveness the endpoint takes over. */
  function Push(e: Endpoint, part: Endpoint): Endpoint {
    Endpoint(e.value + part.value, part.inclusive, e.side)
  }

  /** Parts are added to an endpoint as long as the last one was inclusive and finite. */
  predicate Continues(e: Endpoint) {
    e.inclusive && IsFinite(e.value)
  }

  /** NumberLine.insertSegment. */
  function Inserted(line: seq<Endpoint>, piece: seq<Endpoint>): seq<Endpoint> {
    Swept(Stacked([line, piece]), 0, 1)
  }

  function InsertedAll(line: seq<Endpoint>, pieces: seq<seq<Endpoint>>): seq<Endpoint>
    decreases |pieces|
  {
    if pieces == [] then line else InsertedAll(Inserted(line, pieces[0]), pieces[1..])
  }

  function InitialLow(): Endpoint { Endpoint([], true, Low) }

  function InitialHigh(): Endpoint { Endpoint([], true, High) }

  function Extended(e: Endpoint, part: Endpoint, take: bool): Endpoint {
    if take then Push(e, part) else e
  }

  /** The index segments made from the rest of one column's line and the columns after it:
      every segment of the line extends the partial bounds, and the two flags say whether the
      low and the high endpoint still take parts. The flags are not reset between segments. */
  function Pieces(columns: seq<nat>, bounds: Bounds, line: seq<Endpoint>,
                  low: Endpoint, high: Endpoint, doLow: bool, doHigh: bool): seq<seq<Endpoint>>
    requires columns != []
    decreases |columns|, 1, |line|
  {
    if |line| < 2 then []
    else
      var segment := SegmentOf(line[0], line[1]);
      var partial := SegmentOf(low, high);
      var low' := Extended(partial[0], segment[0], doLow);
      var high' := Extended(partial[1], segment[1], doHigh);
      var doLow' := doLow && Continues(segment[0]);
      var doHigh' := doHigh && Continues(segment[1]);
      Here(columns, bounds, low', high', doLow', doHigh')
      + Pieces(columns, bounds, line[2..], low, high, doLow', doHigh')
  }

  /** One extended pair of endpoints is handed to the next column or inserted as it is. */
  function Here(columns: seq<nat>, bounds: Bounds, low: Endpoint, high: Endpoint,
                doLow: bool, doHigh: bool): seq<seq<Endpoint>>
    requires columns != []
    decreases |columns|, 0
  {
    if |columns| > 1 && (doLow || doHigh) && columns[1] in bounds then
      Pieces(columns[1..], bounds, bounds[columns[1]], low, high, doLow, doHigh)
    else [[low, high]]
  }

  function Consolidated(columns: seq<nat>, bounds: Bounds): seq<Endpoint>
    requires columns != [] && columns[0] in bounds
  {
    InsertedAll([], Pieces(columns, bounds, bounds[columns[0]], InitialLow(), InitialHigh(), true, true))
  }

  lemma {:induction false} InsertedAllAppend(line: seq<Endpoint>, a: seq<seq<Endpoint>>, b: seq<seq<Endpoint>>)
    ensures InsertedAll(line, a + b) == InsertedAll(InsertedAll(line, a), b)
    decreases |a|
  {
    if a == [] {
      assert a + b == b;
    } else {
      assert (a + b)[1..] == a[1..] + b;
      InsertedAllAppend(Inserted(line, a[0]), a[1..], b);
    }
  }

  /** The consolidation of one node's column bounds. */
  class Consolidator {
    const bounds: Bounds
    var allBounds: seq<Endpoint>

    constructor (bounds: Bounds)
      ensures this.bounds == bounds && allBounds == []
    {
      this.bounds := bounds;
      allBounds := [];
    }

    method InsertSegment(segment: seq<Endpoint>)
      modifies this`allBounds
      ensures allBounds == Inserted(old(allBounds), segment)
    {
      var stack := new NumberLineStack([allBounds, segment]);
      allBounds := stack.Sweep(1);
    }

    /** Consolidator.consolidate for the column at the head of columns, which has a bound. */
    method ConsolidateColumn(columns: seq<nat>, low: Endpoint, high: Endpoint, doLow: bool, doHigh: bool)
      requires columns != [] && columns[0] in bounds
      requires forall c :: c in bounds ==> |bounds[c]| % 2 == 0
      modifies this`allBounds
      ensures allBounds == InsertedAll(old(allBounds),
                             Pieces(columns, bounds, bounds[columns[0]], low, high, doLow, doHigh))
      decreases |columns|, 1
    {
      var line := bounds[columns[0]];
      var takeLow, takeHigh := doLow, doHigh;
      var n := 0;
      while n < |line|
        invariant 0 <= n <= |line| && n % 2 == 0
        invariant InsertedAll(allBounds, Pieces(columns, bounds, line[n..], low, high, takeLow, takeHigh))
               == InsertedAll(old(allBounds), Pieces(columns, bounds, line, low, high, doLow, doHigh))
      {
        ghost var before := allBounds;
        var segment := SegmentOf(line[n], line[n + 1]);
        var idxBounds := SegmentOf(low, high);
        var idxLow, idxHigh := Extended(idxBounds[0], segment[0], takeLow),
            Extended(idxBounds[1], segment[1], takeHigh);
        takeLow := takeLow && Continues(segment[0]);
        takeHigh := takeHigh && Continues(segment[1]);
        ghost var here := Here(columns, bounds, idxLow, idxHigh, takeLow, takeHigh);
        ConsolidateNext(columns, idxLow, idxHigh, takeLow, takeHigh);
        assert line[n..][2..] == line[n + 2..];
        InsertedAllAppend(before, here, Pieces(columns, bounds, line[n + 2..], low, high, takeLow, takeHigh));
        n := n + 2;
      }
    }

    /** Pass extended bounds on to the next column, or insert them if no part can be added. */
    method ConsolidateNext(columns: seq<nat>, low: Endpoint, high: Endpoint, doLow: bool, doHigh: bool)
      requires columns != [] && forall c :: c in bounds ==> |bounds[c]| % 2 == 0
      modifies this`allBounds
      ensures allBounds == InsertedAll(old(allBounds), Here(columns, bounds, low, high, doLow, doHigh))
      decreases |columns|, 0
    {
      if |columns| > 1 && (doLow || doHigh) && columns[1] in bounds {
        ConsolidateColumn(columns[1..], low, high, doLow, doHigh);
      } else {
        assert [[low, high]][1..] == [];
        InsertSegment([low, high]);
      }
    }
  }

  /** The first index column must have a bound: the source fails otherwise. */
  method Consolidate(columns: seq<nat>, bounds: Bounds) returns (ok: bool, range: seq<Endpoint>)
    requires columns != [] && forall c :: c in bounds ==> |bounds[c]| % 2 == 0
    ensures ok <==> columns[0] in bounds
    ensures ok ==> range == Consolidated(columns, bounds)
  {
    range := [];
    ok := columns[0] in bounds;
    if ok {
      var consolidator := new Consolidator(bounds);
      var initial := SegmentOf(Endpoint([], true, Unmarked), Endpoint([], true, Unmarked));
      consolidator.ConsolidateColumn(columns, initial[0], initial[1], true, true);
      range := consolidator.allBounds;
    }
  }

  // ---------------------------------------------------------------- exported bounds

  /** getIndexBounds turns every pair of transitions into a Segment once more. */
  function Exported(line: seq<Endpoint>): seq<seq<Endpoint>> {
    if |line| < 2 then [] else [SegmentOf(line[0], line[1])] + Exported(line[2..])
  }

  predicate Scans(ranges: seq<seq<Endpoint>>, x: Key) {
    exists i :: 0 <= i < |ranges| && InRange(ranges[i], x)
  }

  /** A key lies in an index bound when its leading parts do. */
  predicate InRange(range: seq<Endpoint>, x: Key) {
    && |range| == 2 && |range[0].value| <= |x| && |range[1].value| <= |x|
    && InSegment(range[0], range[1], x)
  }
}
