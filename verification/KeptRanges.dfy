/** When the ranges kept from the first evaluation of a query are right for a later one
    (database-jones/Adapter/common/IndexBounds.js, IndexBoundVisitor.consolidate). */
module KeptRanges {
  import opened Endpoints
  import opened NumberLines
  import opened Complements
  import opened QueryTrees
  import opened ColumnMasks
  import opened ColumnBounds
  import opened ColumnCover
  import opened Consolidation
  import opened IndexKeys
  import opened IndexRuns
  import opened IndexCover
  import opened IndexBounds

  // ---------------------------------------------------------------- parameters with the same values

  function NameOf(operand: Operand): set<string> {
    match operand
    case Literal(_) => {}
    case Param(name) => {name}
  }

  /** The parameters a predicate mentions. */
  function Mentioned(p: Pred): set<string> {
    match p
    case Compare(_, _, operand) => NameOf(operand)
    case Between(_, lower, upper) => NameOf(lower) + NameOf(upper)
    case IsNull(_) => {}
    case IsNotNull(_) => {}
    case And(ps) => set i, name | 0 <= i < |ps| && name in Mentioned(ps[i]) :: name
    case Or(ps) => set i, name | 0 <= i < |ps| && name in Mentioned(ps[i]) :: name
    case Not(q) => Mentioned(q)
  }

  predicate AgreeOn(names: set<string>, first: Params, second: Params) {
    forall name :: name in names ==> first(name) == second(name)
  }

  lemma {:induction false} SameLine(p: Pred, first: Params, second: Params, c: nat)
    requires AgreeOn(Mentioned(p), first, second)
    ensures LineAt(p, first, c) == LineAt(p, second, c)
    decreases p, 1
  {
    match p
    case And(ps) => SameLines(p, first, second, c);
    case Or(ps) => SameLines(p, first, second, c);
    case Not(q) => SameLine(q, first, second, c);
    case _ =>
  }

  lemma {:induction false} SameLines(p: Pred, first: Params, second: Params, c: nat)
    requires (p.And? || p.Or?) && AgreeOn(Mentioned(p), first, second)
    ensures LinesAt(p.preds, first, c) == LinesAt(p.preds, second, c)
    decreases p, 0
  {
    forall i | 0 <= i < |p.preds|
      ensures LineAt(p.preds[i], first, c) == LineAt(p.preds[i], second, c)
    {
      assert Mentioned(p.preds[i]) <= Mentioned(p);
      SameLine(p.preds[i], first, second, c);
    }
  }

  /** The ranges depend on the values of the mentioned parameters only. */
  lemma {:induction false} SameRanges(p: Pred, first: Params, second: Params, columns: seq<nat>)
    requires AgreeOn(Mentioned(p), first, second)
    requires columns != [] && (|columns| > 1 ==> columns[0] in Marked(p))
    ensures RangesOf(p, first, columns) == RangesOf(p, second, columns)
  {
    forall c | c in Marked(p)
      ensures LineAt(p, first, c) == LineAt(p, second, c)
    {
      SameLine(p, first, second, c);
    }
    SameLine(p, first, second, columns[0]);
    assert BoundsOf(p, first) == BoundsOf(p, second);
  }

  /** Ranges kept from an evaluation with the same values cover what a later one selects. */
  lemma {:induction false} KeptRangesCover(p: Pred, first: Params, second: Params, columns: seq<nat>, row: Row)
    requires AgreeOn(Mentioned(p), first, second)
    requires Boundable(p, second) && !Fails(p, second) && IsRow(row) && Selects(p, second, row)
    requires |columns| > 1 && columns[0] in Marked(p) && ClosedRun(columns, BoundsOf(p, second))
    ensures Scans(RangesOf(p, first, columns), KeyOf(row, columns))
  {
    SameRanges(p, first, second, columns);
    ScanCoversQuery(p, second, columns, row);
  }

  // ---------------------------------------------------------------- conjunctions of equalities

  function PointLine(n: real): seq<Endpoint> { [Endpoint([Val(n)], true, Low), Endpoint([Val(n)], true, High)] }

  predicate EqualsAt(p: Pred, m: nat)
    requires p.And?
  {
    m < |p.preds| ==> p.preds[m].Compare? && p.preds[m].op == Eq
  }

  predicate DifferAt(p: Pred, i: nat, j: nat)
    requires p.And?
  {
    i < |p.preds| && j < |p.preds| && i != j && p.preds[i].Compare? && p.preds[j].Compare? ==>
        p.preds[i].column != p.preds[j].column
  }

  /** Equalities on different columns. */
  ghost predicate Equalities(p: Pred) {
    && p.And? && p.preds != []
    && (forall m: nat {:trigger EqualsAt(p, m)} :: EqualsAt(p, m))
    && (forall i: nat, j: nat {:trigger DifferAt(p, i, j)} :: DifferAt(p, i, j))
  }

  /** The column of an equality, and the value it asks for. */
  ghost function ColumnAt(p: Pred, m: nat): nat
    requires Equalities(p) && m < |p.preds|
  {
    assert EqualsAt(p, m);
    p.preds[m].column
  }

  ghost function AskedBy(p: Pred, params: Params, m: nat): real
    requires Equalities(p) && m < |p.preds|
  {
    assert EqualsAt(p, m);
    ValueOf(p.preds[m].operand, params)
  }

  predicate IsPointEnd(e: Endpoint, n: real) {
    e == NegativeInfinity() || e == PositiveInfinity() || e in PointLine(n)
  }

  lemma {:induction false} PointShape(n: real, u: Value)
    requires u.IsColumnValue()
    ensures WellFormed(PointLine(n), COLUMN_BY_PLACE) && WellFormed(UnboundedLine(), COLUMN_BY_PLACE)
    ensures FitsLine(PointLine(n), [u]) && FitsLine(UnboundedLine(), [u])
    ensures Holds(PointLine(n), [u]) <==> u == Val(n)
    ensures Holds(UnboundedLine(), [u])
  {
    var p, q := PointLine(n), UnboundedLine();
    assert [u][..1] == [u] && p[2..] == [] && q[2..] == [];
    OnePart([u], p[0].value);
    OnePart(p[0].value, [u]);
    OnePart([u], q[0].value);
    OnePart(q[1].value, [u]);
    OnePart(q[0].value, q[1].value);
    KeyLessTotal(p[0].value, p[1].value);
    KeyLessTotal(q[0].value, q[1].value);
  }

  /** A line made of a point's ends and infinities that holds the point only. */
  lemma {:induction false} OnlyPoint(line: seq<Endpoint>, n: real)
    requires WellFormed(line, COLUMN_BY_PLACE) && forall e :: e in line ==> IsPointEnd(e, n)
    requires forall u: Value :: u.IsColumnValue() ==> FitsLine(line, [u]) && (Holds(line, [u]) <==> u == Val(n))
    ensures line == PointLine(n)
  {
    assert Holds(line, [Val(n)]);
    assert IsPointEnd(line[0], n) && IsPointEnd(line[1], n) && line[0].side.Low? && line[1].side.High?;
    if |line| >= 4 {
      assert IsPointEnd(line[2], n) && line[2].side.Low? && NotAfter(line[1], line[2], ByPlace);
      OnePart(line[1].value, line[2].value);
      assert false;
    }
    assert line == [line[0], line[1]] && line[2..] == [];
    var below, above := [Val(n - 1.0)], [Val(n + 1.0)];
    assert below[..1] == below && above[..1] == above;
    assert !InSegment(line[0], line[1], below) && !InSegment(line[0], line[1], above);
    OnePart(below, line[0].value);
    OnePart(line[1].value, below);
    OnePart(above, line[0].value);
    OnePart(line[1].value, above);
  }

  /** Intersecting a point with unbounded lines leaves the point. */
  lemma {:induction false} PointIntersected(lines: seq<seq<Endpoint>>, n: real, m: nat)
    requires m < |lines| && lines[m] == PointLine(n)
    requires forall i :: 0 <= i < |lines| ==> lines[i] == PointLine(n) || lines[i] == UnboundedLine()
    ensures Swept(Stacked(lines), 0, |lines|) == PointLine(n)
  {
    var line := Swept(Stacked(lines), 0, |lines|);
    PointShape(n, Null);
    SweepTheorem(lines, |lines|, COLUMN_BY_PLACE);
    StackedSorted(lines, COLUMN_BY_PLACE);
    SweptElements(Stacked(lines), 0, |lines|, COLUMN_BY_PLACE);
    forall e | e in line
      ensures IsPointEnd(e, n)
    {
      StackedElements(lines, e);
      assert e in PointLine(n) || e in UnboundedLine();
    }
    forall u: Value | u.IsColumnValue()
      ensures FitsLine(line, [u]) && (Holds(line, [u]) <==> u == Val(n))
    {
      PointShape(n, u);
      CoverCountMeaning(lines, [u]);
    }
    OnlyPoint(line, n);
  }

  lemma {:induction false} EqualityLine(p: Pred, params: Params, m: nat)
    requires Equalities(p) && m < |p.preds| && ColumnAt(p, m) in Marked(p)
    ensures LineAt(p, params, ColumnAt(p, m)) == PointLine(AskedBy(p, params, m))
  {
    var c, n := ColumnAt(p, m), AskedBy(p, params, m);
    var lines := LinesAt(p.preds, params, c);
    assert EqualsAt(p, m) && c in Marked(p.preds[m]);
    forall i: nat | i < |lines|
      ensures if i == m then lines[i] == PointLine(n) else lines[i] == UnboundedLine()
    {
      assert EqualsAt(p, i) && EqualsAt(p, m) && DifferAt(p, i, m);
      assert lines[i] == LineAt(p.preds[i], params, c) && Marked(p.preds[i]) == {p.preds[i].column};
    }
    GroupLine(p, params, c);
    PointIntersected(lines, n, m);
  }

  // ---------------------------------------------------------------- what a kept range covers

  /** The leading columns of an index that a predicate's mask marks as used. */
  function Leading(columns: seq<nat>, used: set<nat>): (r: seq<nat>)
    ensures r <= columns && forall i :: 0 <= i < |r| ==> r[i] in used
  {
    if columns == [] || columns[0] !in used then [] else [columns[0]] + Leading(columns[1..], used)
  }

  predicate IsPointLine(line: seq<Endpoint>) {
    |line| == 2 && |line[0].value| == 1 && line[0].value[0].Val? && line == PointLine(line[0].value[0].n)
  }

  predicate AllPoints(bounds: Bounds) {
    forall c :: c in bounds ==> IsPointLine(bounds[c])
  }

  /** The points of the given columns. */
  function PointsOf(columns: seq<nat>, bounds: Bounds): (r: Key)
    requires AllPoints(bounds) && forall i :: 0 <= i < |columns| ==> columns[i] in bounds
    ensures |r| == |columns| && forall i :: 0 <= i < |r| ==> r[i] == bounds[columns[i]][0].value[0] && r[i].Val?
  {
    if columns == [] then [] else [bounds[columns[0]][0].value[0]] + PointsOf(columns[1..], bounds)
  }

  lemma {:induction false} OnePartMore(key: Key, v: Value, rest: Key)
    ensures key + ([v] + rest) == key + [v] + rest
  {
  }

  lemma {:induction false} PointsStep(columns: seq<nat>, bounds: Bounds, key: Key)
    requires columns != [] && columns[0] in bounds && AllPoints(bounds)
    ensures key + PointsOf(Leading(columns, bounds.Keys), bounds)
         == key + [bounds[columns[0]][0].value[0]] + PointsOf(Leading(columns[1..], bounds.Keys), bounds)
  {
    var c, rest := columns[0], Leading(columns[1..], bounds.Keys);
    var lead := [c] + rest;
    assert Leading(columns, bounds.Keys) == lead && lead[1..] == rest && lead[0] == c;
    OnePartMore(key, bounds[c][0].value[0], PointsOf(rest, bounds));
  }

  lemma {:induction false} NoMorePoints(columns: seq<nat>, bounds: Bounds, key: Key)
    requires columns == [] || columns[0] !in bounds
    requires AllPoints(bounds)
    ensures key + PointsOf(Leading(columns, bounds.Keys), bounds) == key
  {
  }

  /** One column with a point. */
  lemma {:induction false} PointPiece(columns: seq<nat>, bounds: Bounds, key: Key, v: Value)
    requires columns != [] && columns[0] in bounds && v.Val? && bounds[columns[0]] == PointLine(v.n)
    requires forall i :: 0 <= i < |key| ==> key[i].Val?
    ensures Pieces(columns, bounds, bounds[columns[0]], Endpoint(key, true, Low), Endpoint(key, true, High), true, true)
         == Here(columns, bounds, Endpoint(key + [v], true, Low), Endpoint(key + [v], true, High), true, true)
  {
    var line := bounds[columns[0]];
    var low, high := Endpoint(key, true, Low), Endpoint(key, true, High);
    EqualKeysOrdered(low, high);
    EqualKeysOrdered(line[0], line[1]);
    assert Push(low, line[0]) == Endpoint(key + [v], true, Low)
           && Push(high, line[1]) == Endpoint(key + [v], true, High);
    assert line[2..] == [] && Pieces(columns, bounds, line[2..], low, high, true, true) == [];
  }

  lemma {:induction false} PointPieces(columns: seq<nat>, bounds: Bounds, key: Key)
    requires columns != [] && columns[0] in bounds && AllPoints(bounds) && (forall i :: 0 <= i < |key| ==> key[i].Val?)
    ensures var whole := key + PointsOf(Leading(columns, bounds.Keys), bounds);
            Pieces(columns, bounds, bounds[columns[0]], Endpoint(key, true, Low), Endpoint(key, true, High), true, true)
            == [[Endpoint(whole, true, Low), Endpoint(whole, true, High)]]
    decreases |columns|
  {
    var v, tail := bounds[columns[0]][0].value[0], columns[1..];
    PointPiece(columns, bounds, key, v);
    PointsStep(columns, bounds, key);
    if tail != [] && tail[0] in bounds {
      PointPieces(tail, bounds, key + [v]);
    } else {
      NoMorePoints(tail, bounds, key + [v]);
    }
  }

  lemma {:induction false} PointRange(columns: seq<nat>, bounds: Bounds, low: Endpoint, high: Endpoint)
    requires columns != [] && columns[0] in bounds && AllPoints(bounds)
    requires low == Endpoint(PointsOf(Leading(columns, bounds.Keys), bounds), true, Low)
    requires high == Endpoint(low.value, true, High)
    ensures Exported(Consolidated(columns, bounds)) == [[low, high]]
  {
    PointPieces(columns, bounds, []);
    assert [] + low.value == low.value;
    InsertedFirst(low, high);
    EqualKeysOrdered(low, high);
    assert [low, high][2..] == [];
  }

  lemma {:induction false} PointRangeScans(whole: Key, x: Key)
    requires |whole| <= |x|
    ensures Scans([[Endpoint(whole, true, Low), Endpoint(whole, true, High)]], x) <==> whole <= x
  {
    var range := [Endpoint(whole, true, Low), Endpoint(whole, true, High)];
    KeyLessTotal(whole, x[..|whole|]);
    KeyLessTotal(whole, whole);
    assert InRange(range, x) <==> whole == x[..|whole|];
    assert [range][0] == range;
  }

  /** A range made of points scans the keys that begin with them. */
  lemma {:induction false} PointsScanned(columns: seq<nat>, bounds: Bounds, x: Key)
    requires columns != [] && columns[0] in bounds && AllPoints(bounds) && |x| == |columns|
    ensures Scans(Exported(Consolidated(columns, bounds)), x) <==> PointsOf(Leading(columns, bounds.Keys), bounds) <= x
  {
    var whole := PointsOf(Leading(columns, bounds.Keys), bounds);
    PointRange(columns, bounds, Endpoint(whole, true, Low), Endpoint(whole, true, High));
    PointRangeScans(whole, x);
  }

  lemma {:induction false} EqualityOn(p: Pred, c: nat) returns (m: nat)
    requires Equalities(p) && c in Marked(p)
    ensures m < |p.preds| && ColumnAt(p, m) == c
  {
    MarkedUsed(p, c);
    m :| 0 <= m < |p.preds| && c in Used(p.preds[m]);
    assert EqualsAt(p, m) && Used(p.preds[m]) == {p.preds[m].column};
  }

  lemma {:induction false} OneEquality(p: Pred, i: nat, j: nat)
    requires Equalities(p) && i < |p.preds| && j < |p.preds| && ColumnAt(p, i) == ColumnAt(p, j)
    ensures i == j
  {
    assert EqualsAt(p, i) && EqualsAt(p, j) && DifferAt(p, i, j);
  }

  predicate PointAt(bounds: Bounds, c: nat, n: real) {
    c in bounds && bounds[c] == PointLine(n)
  }

  /** The bounds are points, those that the equalities ask for. */
  ghost predicate PointsAsked(p: Pred, params: Params, bounds: Bounds)
    requires Equalities(p)
  {
    && bounds.Keys == Marked(p) && AllPoints(bounds)
    && forall m: nat {:trigger AskedBy(p, params, m)} :: m < |p.preds| && ColumnAt(p, m) in Marked(p) ==>
         PointAt(bounds, ColumnAt(p, m), AskedBy(p, params, m))
  }

  lemma {:induction false} EqualityBounds(p: Pred, params: Params, bounds: Bounds)
    requires Equalities(p) && bounds == BoundsOf(p, params)
    ensures PointsAsked(p, params, bounds)
  {
    forall m: nat | m < |p.preds| && ColumnAt(p, m) in Marked(p)
      ensures PointAt(bounds, ColumnAt(p, m), AskedBy(p, params, m))
    {
      EqualityLine(p, params, m);
    }
    forall c | c in bounds
      ensures IsPointLine(bounds[c])
    {
      var m := EqualityOn(p, c);
      EqualityLine(p, params, m);
    }
    assert bounds.Keys == Marked(p);
  }

  lemma {:induction false} EqualitySelects(p: Pred, params: Params, row: Row, m: nat)
    requires Equalities(p) && m < |p.preds|
    ensures Eval(p.preds[m], params, row).True? <==> row(ColumnAt(p, m)) == Val(AskedBy(p, params, m))
  {
    assert EqualsAt(p, m);
  }

  lemma {:induction false} EqualitiesSelect(p: Pred, params: Params, row: Row)
    requires Equalities(p)
    ensures Selects(p, params, row) <==>
              forall m: nat {:trigger AskedBy(p, params, m)} :: m < |p.preds| ==>
                  row(ColumnAt(p, m)) == Val(AskedBy(p, params, m))
  {
    forall m: nat | m < |p.preds|
      ensures Eval(p.preds[m], params, row).True? <==> row(ColumnAt(p, m)) == Val(AskedBy(p, params, m))
    {
      EqualitySelects(p, params, row, m);
    }
    if forall m: nat {:trigger AskedBy(p, params, m)} :: m < |p.preds| ==>
        row(ColumnAt(p, m)) == Val(AskedBy(p, params, m)) {
      forall m: nat | m < |p.preds|
        ensures Eval(p.preds[m], params, row).True?
      {
        var n := AskedBy(p, params, m);
      }
    }
  }

  /** Do the equalities on the leading columns of the index ask for the same values? */
  ghost predicate LeadingAgree(p: Pred, columns: seq<nat>, first: Params, second: Params)
    requires Equalities(p)
  {
    forall m: nat {:trigger AskedBy(p, first, m)} :: m < |p.preds| && ColumnAt(p, m) in Leading(columns, Marked(p)) ==>
      AskedBy(p, first, m) == AskedBy(p, second, m)
  }

  /** The key of a row that is selected, at a leading column. */
  lemma {:induction false} LeadingPart(p: Pred, columns: seq<nat>, first: Params, second: Params, bounds: Bounds,
                                       row: Row, i: nat)
    returns (m: nat)
    requires Equalities(p) && PointsAsked(p, first, bounds) && Selects(p, second, row)
             && i < |Leading(columns, Marked(p))|
    ensures var lead := Leading(columns, Marked(p));
            && m < |p.preds| && ColumnAt(p, m) == lead[i]
            && PointsOf(lead, bounds)[i] == Val(AskedBy(p, first, m))
               && KeyOf(row, columns)[i] == Val(AskedBy(p, second, m))
  {
    var lead := Leading(columns, Marked(p));
    m := EqualityOn(p, lead[i]);
    assert lead[i] == columns[i];
    EqualitiesSelect(p, second, row);
    assert PointAt(bounds, lead[i], AskedBy(p, first, m));
    var n := AskedBy(p, second, m);
  }

  /** A row that a later evaluation selects is scanned exactly if the leading equalities ask for the same values. */
  lemma {:induction false} KeptRangeScans(p: Pred, columns: seq<nat>, first: Params, second: Params, row: Row)
    requires Equalities(p) && |columns| > 1 && columns[0] in Marked(p) && Selects(p, second, row)
    ensures Scans(RangesOf(p, first, columns), KeyOf(row, columns)) <==> LeadingAgree(p, columns, first, second)
  {
    var bounds := BoundsOf(p, first);
    EqualityBounds(p, first, bounds);
    PointsScanned(columns, bounds, KeyOf(row, columns));
    PointsKept(p, columns, first, second, bounds, row);
  }

  lemma {:induction false} PointsKept(p: Pred, columns: seq<nat>, first: Params, second: Params, bounds: Bounds,
                                      row: Row)
    requires Equalities(p) && PointsAsked(p, first, bounds) && Selects(p, second, row)
    ensures PointsOf(Leading(columns, Marked(p)), bounds) <= KeyOf(row, columns)
       <==> LeadingAgree(p, columns, first, second)
  {
    var lead := Leading(columns, Marked(p));
    var whole, x := PointsOf(lead, bounds), KeyOf(row, columns);
    if whole <= x {
      forall k: nat | k < |p.preds| && ColumnAt(p, k) in lead
        ensures AskedBy(p, first, k) == AskedBy(p, second, k)
      {
        var i: nat :| i < |lead| && lead[i] == ColumnAt(p, k);
        var m := LeadingPart(p, columns, first, second, bounds, row, i);
        OneEquality(p, k, m);
      }
    }
    if LeadingAgree(p, columns, first, second) {
      forall i: nat | i < |whole|
        ensures whole[i] == x[i]
      {
        var m := LeadingPart(p, columns, first, second, bounds, row, i);
      }
    }
  }

  /** The ranges kept from one evaluation cover all rows that another selects if and only if its leading
      equalities ask for the same values. */
  lemma {:induction false} KeptRangesCoverIff(p: Pred, columns: seq<nat>, first: Params, second: Params)
    requires Equalities(p) && |columns| > 1 && columns[0] in Marked(p)
    ensures (forall row {:trigger Selects(p, second, row)} :: IsRow(row) && Selects(p, second, row) ==>
               Scans(RangesOf(p, first, columns), KeyOf(row, columns)))
        <==> LeadingAgree(p, columns, first, second)
  {
    var row := RowFor(p, second);
    KeptRangeScans(p, columns, first, second, row);
    forall other: Row | Selects(p, second, other)
      ensures Scans(RangesOf(p, first, columns), KeyOf(other, columns)) <==> LeadingAgree(p, columns, first, second)
    {
      KeptRangeScans(p, columns, first, second, other);
    }
  }

  ghost function Asked(p: Pred, params: Params, c: nat): Value
    requires Equalities(p)
  {
    if m: nat :| m < |p.preds| && ColumnAt(p, m) == c then Val(AskedBy(p, params, m)) else Null
  }

  /** A row with the values that equalities ask for. */
  lemma {:induction false} RowFor(p: Pred, params: Params) returns (row: Row)
    requires Equalities(p)
    ensures IsRow(row) && Selects(p, params, row)
  {
    row := (c: nat) => Asked(p, params, c);
    forall m: nat | m < |p.preds|
      ensures row(ColumnAt(p, m)) == Val(AskedBy(p, params, m))
    {
      var k: nat :| k < |p.preds| && ColumnAt(p, k) == ColumnAt(p, m)
          && Asked(p, params, ColumnAt(p, m)) == Val(AskedBy(p, params, k));
      OneEquality(p, k, m);
    }
    EqualitiesSelect(p, params, row);
  }

  function ParameterAnd(): Pred {
    And([Compare(0, Eq, Param("v")), Compare(1, Eq, Literal(5.0))])
  }

  lemma {:induction false} ParameterEqualities()
    ensures Equalities(ParameterAnd()) && 0 in Marked(ParameterAnd())
            && Leading([0, 1], Marked(ParameterAnd()))[..1] == [0]
  {
    var p := ParameterAnd();
    assert 0 in Used(p.preds[0]);
    MarkedUsed(p, 0);
    forall m: nat
      ensures EqualsAt(p, m)
    {
    }
    forall i: nat, j: nat
      ensures DifferAt(p, i, j)
    {
    }
  }

  /** a = ? AND b = 5, evaluated with 1 and then with 2: the second evaluation is answered with
      the ranges of the first, which leave out the rows it selects. */
  lemma {:induction false} StaleRangeMisses(first: Params, second: Params, row: Row)
    requires first("v") == 1.0 && second("v") == 2.0 && row(0) == Val(2.0) && row(1) == Val(5.0)
    ensures 0 in Marked(ParameterAnd()) && Selects(ParameterAnd(), second, row)
    ensures !Scans(RangesOf(ParameterAnd(), first, [0, 1]), KeyOf(row, [0, 1]))
  {
    var p := ParameterAnd();
    ParameterEqualities();
    EqualitiesSelect(p, second, row);
    KeptRangeScans(p, [0, 1], first, second, row);
    var lead := Leading([0, 1], Marked(p));
    assert lead[0] == lead[..1][0] == ColumnAt(p, 0) && AskedBy(p, first, 0) == 1.0 && AskedBy(p, second, 0) == 2.0;
  }
}
