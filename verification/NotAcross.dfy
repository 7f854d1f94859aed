/** NOT over a predicate on several columns: when complementing its column bounds is safe
    (database-jones/Adapter/common/IndexBounds.js, visitQueryUnaryPredicate). */
module NotAcross {
  import opened Endpoints
  import opened NumberLines
  import opened Complements
  import opened QueryTrees
  import opened ColumnMasks
  import opened ColumnBounds
  import opened ColumnCover

  /** Boundable, and without null tests or reversed BETWEENs. */
  ghost predicate Plain(p: Pred, params: Params) {
    match p
    case Between(_, lower, upper) => ValueOf(lower, params) <= ValueOf(upper, params)
    case IsNull(_) => false
    case IsNotNull(_) => false
    case And(ps) => ps != [] && forall i :: 0 <= i < |ps| ==> Plain(ps[i], params)
    case Or(ps) => ps != [] && forall i :: 0 <= i < |ps| ==> Plain(ps[i], params)
    case Not(q) => exists c :: OneColumn(q, params, c)
    case _ => true
  }

  lemma {:induction false} PlainBoundable(p: Pred, params: Params)
    requires Plain(p, params)
    ensures Boundable(p, params)
  {
    match p
    case And(ps) => forall i | 0 <= i < |ps| { PlainBoundable(ps[i], params); }
    case Or(ps) => forall i | 0 <= i < |ps| { PlainBoundable(ps[i], params); }
    case _ =>
  }

  lemma {:induction false} PlainOneColumn(p: Pred, params: Params, c: nat)
    requires Plain(p, params) && Used(p) <= {c}
    ensures OneColumn(p, params, c)
  {
    match p
    case And(ps) =>
      forall i | 0 <= i < |ps|
        ensures OneColumn(ps[i], params, c)
      {
        assert Used(ps[i]) <= Used(p);
        PlainOneColumn(ps[i], params, c);
      }
    case Or(ps) =>
      forall i | 0 <= i < |ps|
        ensures OneColumn(ps[i], params, c)
      {
        assert Used(ps[i]) <= Used(p);
        PlainOneColumn(ps[i], params, c);
      }
    case Not(q) =>
      var d :| OneColumn(q, params, d);
      OneColumnUsed(q, params, d);
      assert d in Used(p);
    case _ =>
      assert p.column in Used(p);
  }

  lemma {:induction false} PlainLine(p: Pred, params: Params, c: nat)
    requires Plain(p, params) && !Fails(p, params)
    ensures WellFormed(LineAt(p, params, c), COLUMN) && NullFree(LineAt(p, params, c))
    decreases p, 1
  {
    UnboundedHolds(Null);
    if c in Marked(p) {
      match p
      case And(ps) =>
        PlainLines(p, params, c);
        SweptNullFree(LinesAt(ps, params, c), |ps|);
      case Or(ps) =>
        PlainLines(p, params, c);
        SweptNullFree(LinesAt(ps, params, c), 1);
      case Not(q) =>
        var d :| OneColumn(q, params, d);
        OneColumnUsed(q, params, d);
        MarkedUsed(q, c);
        OneColumnLine(p, params, c);
      case _ =>
        OneColumnLine(p, params, c);
    }
  }

  lemma {:induction false} PlainLines(p: Pred, params: Params, c: nat)
    requires (p.And? || p.Or?) && Plain(p, params) && !Fails(p, params)
    ensures var lines := LinesAt(p.preds, params, c);
            AllWellFormed(lines, COLUMN) && forall i :: 0 <= i < |lines| ==> NullFree(lines[i])
    decreases p, 0
  {
    forall i | 0 <= i < |p.preds|
      ensures WellFormed(LineAt(p.preds[i], params, c), COLUMN) && NullFree(LineAt(p.preds[i], params, c))
    {
      PlainLine(p.preds[i], params, c);
    }
  }

  // ---------------------------------------------------------------- rows

  ghost predicate Refines(r: Row, s: Row) {
    forall c :: r(c).Val? ==> s(c) == r(c)
  }

  /** Filling in NULLs can only settle unknowns. */
  lemma {:induction false} RefinementKeepsTruth(p: Pred, params: Params, c: nat, r: Row, s: Row)
    requires Plain(p, params) || OneColumn(p, params, c)
    requires Refines(r, s)
    ensures Eval(p, params, r).Unknown? || Eval(p, params, s) == Eval(p, params, r)
  {
    match p
    case And(ps) => forall i | 0 <= i < |ps| { RefinementKeepsTruth(ps[i], params, c, r, s); }
    case Or(ps) => forall i | 0 <= i < |ps| { RefinementKeepsTruth(ps[i], params, c, r, s); }
    case Not(q) =>
      var d :| OneColumn(q, params, d);
      RefinementKeepsTruth(q, params, d, r, s);
    case _ =>
  }

  lemma {:induction false} TwoValued(p: Pred, params: Params, c: nat, r: Row)
    requires Plain(p, params) || OneColumn(p, params, c)
    requires forall d :: r(d).Val?
    ensures !Eval(p, params, r).Unknown?
  {
    match p
    case And(ps) => forall i | 0 <= i < |ps| { TwoValued(ps[i], params, c, r); }
    case Or(ps) => forall i | 0 <= i < |ps| { TwoValued(ps[i], params, c, r); }
    case Not(q) =>
      var d :| OneColumn(q, params, d);
      TwoValued(q, params, d, r);
    case _ =>
  }

  function Filled(r: Row): Row {
    (c: nat) => if r(c).Val? then r(c) else Val(0.0)
  }

  function Replaced(r: Row, b: nat, n: real): Row {
    (c: nat) => if c == b then Val(n) else r(c)
  }

  // ---------------------------------------------------------------- the condition

  predicate Admits(line: seq<Endpoint>, v: Value) {
    FitsLine(line, [v]) && Holds(line, [v])
  }

  ghost predicate HasPoint(line: seq<Endpoint>) {
    exists n: real :: Admits(line, Val(n))
  }

  ghost predicate RowCovered(q: Pred, params: Params, row: Row) {
    forall c :: c in Marked(q) ==> Admits(LineAt(Not(q), params, c), row(c))
  }

  /** Every row that NOT q selects has its values inside the complemented bounds. */
  ghost predicate NotCovered(q: Pred, params: Params) {
    forall row: Row :: IsRow(row) && Selects(Not(q), params, row) ==> RowCovered(q, params, row)
  }

  ghost predicate NotSelectsNothing(q: Pred, params: Params) {
    forall row: Row :: IsRow(row) ==> !Selects(Not(q), params, row)
  }

  lemma {:induction false} NotLineExact(q: Pred, params: Params, c: nat, n: real)
    requires Plain(q, params) && !Fails(Not(q), params) && c in Marked(q)
    ensures Admits(LineAt(Not(q), params, c), Val(n)) <==> !Admits(LineAt(q, params, c), Val(n))
  {
    PlainLine(q, params, c);
    NullFreeHolds(LineAt(q, params, c), Val(n));
  }

  /** A value at which q itself can be true lies outside the complemented bound. */
  lemma {:induction false} ComplementMisses(q: Pred, params: Params, c: nat, row: Row)
    requires Plain(q, params) && !Fails(Not(q), params) && c in Marked(q)
    requires IsRow(row) && row(c).Val? && Selects(q, params, row)
    ensures !Admits(LineAt(Not(q), params, c), row(c))
  {
    PlainBoundable(q, params);
    Covers(q, params, c, row);
    NotLineExact(q, params, c, row(c).n);
  }

  /** A row without NULLs that q does not select is selected by NOT q; if it is covered, none
      of its values is admitted by the bounds of q. */
  lemma {:induction false} CoveredOutside(q: Pred, params: Params, c: nat, row: Row)
    requires Plain(q, params) && !Fails(Not(q), params) && c in Marked(q) && NotCovered(q, params)
    requires (forall d :: row(d).Val?) && !Selects(q, params, row)
    ensures !Admits(LineAt(q, params, c), row(c))
  {
    TwoValued(q, params, c, row);
    assert IsRow(row) && Selects(Not(q), params, row);
    assert RowCovered(q, params, row);
    NotLineExact(q, params, c, row(c).n);
  }

  /** Two rows without NULLs that agree on column a cannot both be covered when the second
      has in column b a value q's bound admits. */
  lemma {:induction false} MovedUncovered(q: Pred, params: Params, a: nat, b: nat, full: Row, moved: Row)
    requires Plain(q, params) && !Fails(Not(q), params) && a in Marked(q) && b in Marked(q)
    requires (forall d :: full(d).Val?) && (forall d :: moved(d).Val?)
    requires Selects(Not(q), params, full) && moved(a) == full(a)
    requires Admits(LineAt(q, params, b), moved(b))
    ensures !NotCovered(q, params)
  {
    if Selects(q, params, moved) {
      PlainBoundable(q, params);
      Covers(q, params, a, moved);
      if NotCovered(q, params) {
        CoveredOutside(q, params, a, full);
      }
    } else if NotCovered(q, params) {
      CoveredOutside(q, params, b, moved);
    }
  }

  /** If NOT over two columns covered its rows, every row it selects could be changed in one
      column into a row it still selects and does not cover. */
  lemma {:induction false} TwoColumnsUncovered(q: Pred, params: Params, a: nat, b: nat, row: Row)
    requires Plain(q, params) && !Fails(Not(q), params) && IsRow(row)
    requires a in Marked(q) && b in Marked(q) && a != b && HasPoint(LineAt(q, params, b))
    requires Selects(Not(q), params, row)
    ensures !NotCovered(q, params)
  {
    var n: real :| Admits(LineAt(q, params, b), Val(n));
    var full := Filled(row);
    RefinementKeepsTruth(q, params, a, row, full);
    MovedUncovered(q, params, a, b, full, Replaced(full, b, n));
  }

  lemma {:induction false} OneColumnCovered(q: Pred, params: Params, c: nat)
    requires Plain(q, params) && !Fails(Not(q), params) && Used(q) == {c}
    ensures NotCovered(q, params)
  {
    PlainOneColumn(q, params, c);
    assert Boundable(Not(q), params);
    forall row: Row | IsRow(row) && Selects(Not(q), params, row)
      ensures RowCovered(q, params, row)
    {
      Covers(Not(q), params, c, row);
      forall d | d in Marked(q)
        ensures d == c
      {
        MarkedUsed(q, d);
      }
    }
  }

  /** A line that holds no number, and no NULL, starts at a number. */
  lemma {:induction false} PointlessLow(line: seq<Endpoint>)
    requires WellFormed(line, COLUMN) && NullFree(line) && |line| >= 2 && !HasPoint(line)
    ensures |line[0].value| == 1 && line[0].value[0].Val?
  {
    var lo, hi := line[0], line[1];
    assert lo.side.Low? && hi.side.High? && Standard(lo) && Standard(hi) && NotAfter(lo, hi, ByCut);
    assert |lo.value| == |hi.value| == 1;
    if !lo.value[0].Val? {
      var n := if hi.value[0].Val? then hi.value[0].n - 1.0 else 0.0;
      FirstHolds(line, Val(n));
    }
  }

  lemma {:induction false} FirstHolds(line: seq<Endpoint>, v: Value)
    requires WellFormed(line, COLUMN) && |line| >= 2 && |line[0].value| == |line[1].value| == 1
    requires Less(line[0].value[0], v) && Less(v, line[1].value[0])
    ensures Admits(line, v)
  {
    assert [v][..1] == [v];
    OnePart([v], line[0].value);
    OnePart(line[0].value, [v]);
    OnePart([v], line[1].value);
    OnePart(line[1].value, [v]);
  }

  /** The complement of a line without points takes in every value, NULL included. */
  lemma {:induction false} PointlessComplement(q: Pred, params: Params, c: nat, v: Value)
    requires Plain(q, params) && !Fails(Not(q), params) && c in Marked(q) && v.IsColumnValue()
    requires !HasPoint(LineAt(q, params, c))
    ensures Admits(LineAt(Not(q), params, c), v)
  {
    var line := LineAt(q, params, c);
    if v.Val? {
      assert !Admits(line, v);
      NotLineExact(q, params, c, v.n);
    } else {
      PlainLine(q, params, c);
      PointlessLow(line);
      ComplementedAt(line);
      NullFreeComplement(line);
      var other := Complemented(line);
      assert other[0] == ComplementPoint(line, 0) && other[1] == ComplementPoint(line, 1);
      FirstHolds(other, Null);
    }
  }

  lemma {:induction false} PointlessCovered(q: Pred, params: Params)
    requires Plain(q, params) && !Fails(Not(q), params)
    requires forall c :: c in Marked(q) ==> !HasPoint(LineAt(q, params, c))
    ensures NotCovered(q, params)
  {
    forall row: Row | IsRow(row) && Selects(Not(q), params, row)
      ensures RowCovered(q, params, row)
    {
      forall c | c in Marked(q)
        ensures Admits(LineAt(Not(q), params, c), row(c))
      {
        PointlessComplement(q, params, c, row(c));
      }
    }
  }

  /** Complementing the bounds of a plain predicate covers the rows its NOT selects exactly
      when it mentions a single column, when none of its bounds holds a number, or when its NOT
      selects nothing at all. Masks that have lost all but one of several columns are left out. */
  lemma {:induction false} NotCoveredIff(q: Pred, params: Params)
    requires Plain(q, params) && !Fails(Not(q), params)
    requires |Marked(q)| == 1 ==> Marked(q) == Used(q)
    ensures NotCovered(q, params)
       <==> || |Used(q)| == 1
            || (forall c :: c in Marked(q) ==> !HasPoint(LineAt(q, params, c)))
            || NotSelectsNothing(q, params)
  {
    if c :| c in Marked(q) && HasPoint(LineAt(q, params, c)) {
      MarkedUsed(q, c);
      if Marked(q) == {c} {
        OneColumnCovered(q, params, c);
      } else {
        var a := OtherColumn(Marked(q), c);
        MarkedUsed(q, a);
        var _ := OtherColumn(Used(q), c);
        if row: Row :| IsRow(row) && Selects(Not(q), params, row) {
          TwoColumnsUncovered(q, params, a, c, row);
        }
      }
    } else {
      PointlessCovered(q, params);
    }
  }

  lemma {:induction false} OtherColumn(columns: set<nat>, a: nat) returns (b: nat)
    requires a in columns && columns != {a}
    ensures b in columns && b != a && |columns| != 1
  {
    assert columns - {a} != {};
    b :| b in columns - {a};
    assert {a, b} <= columns && |columns| >= |{a, b}| by {
      assert |columns| == |columns - {a, b}| + |{a, b}|;
    }
  }

  /** a = 1 AND b = 2. */
  function OneAndTwo(): Pred {
    And([Compare(0, Eq, Literal(1.0)), Compare(1, Eq, Literal(2.0))])
  }

  lemma {:induction false} OneAndTwoSelects(params: Params, both: Row, row: Row)
    requires both(0) == Val(1.0) && both(1) == Val(2.0) && row(1) == Val(3.0)
    ensures Selects(OneAndTwo(), params, both) && Selects(Not(OneAndTwo()), params, row)
  {
    var q := OneAndTwo();
    assert Eval(q.preds[0], params, both) == True && Eval(q.preds[1], params, both) == True;
    assert Eval(q.preds[1], params, row) == False;
  }

  /** NOT (a = 1 AND b = 2) selects the row a = 1, b = 3, whose a the complemented bound
      leaves out. */
  lemma {:induction false} NotAcrossColumnsMisses(params: Params, row: Row)
    requires row(0) == Val(1.0) && row(1) == Val(3.0)
    ensures !Fails(Not(OneAndTwo()), params) && Selects(Not(OneAndTwo()), params, row)
    ensures !Admits(LineAt(Not(OneAndTwo()), params, 0), row(0))
  {
    var q := OneAndTwo();
    var both: Row := (c: nat) => if c == 0 then Val(1.0) else Val(2.0);
    assert 0 in Used(q.preds[0]);
    MarkedUsed(q, 0);
    OneAndTwoSelects(params, both, row);
    SelectingDoesNotFail(q, params, both);
    ComplementMisses(q, params, 0, both);
  }

  /** NOT over a predicate that can be true finds no empty line. */
  lemma {:induction false} SelectingDoesNotFail(q: Pred, params: Params, row: Row)
    requires Plain(q, params) && !Fails(q, params) && IsRow(row) && Selects(q, params, row)
    ensures !Fails(Not(q), params)
  {
    PlainBoundable(q, params);
    forall c | c in Marked(q)
      ensures LineAt(q, params, c) != []
    {
      Covers(q, params, c, row);
    }
  }
}
