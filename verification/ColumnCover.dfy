/** What the column bounds of a query tree promise: no selected row lies outside them. */
module ColumnCover {
  import opened Endpoints
  import opened NumberLines
  import opened Complements
  import opened QueryTrees
  import opened ColumnMasks
  import opened ColumnBounds

  /** A predicate over column c alone, without null tests and with every BETWEEN in order. */
  predicate OneColumn(p: Pred, params: Params, c: nat) {
    match p
    case Compare(d, _, _) => d == c
    case Between(d, lower, upper) => d == c && ValueOf(lower, params) <= ValueOf(upper, params)
    case IsNull(_) => false
    case IsNotNull(_) => false
    case And(ps) => ps != [] && forall i :: 0 <= i < |ps| ==> OneColumn(ps[i], params, c)
    case Or(ps) => ps != [] && forall i :: 0 <= i < |ps| ==> OneColumn(ps[i], params, c)
    case Not(q) => OneColumn(q, params, c)
  }

  /** The predicates whose bounds can be trusted: whatever stands under a NOT is about one column. */
  ghost predicate Boundable(p: Pred, params: Params) {
    match p
    case And(ps) => ps != [] && forall i :: 0 <= i < |ps| ==> Boundable(ps[i], params)
    case Or(ps) => ps != [] && forall i :: 0 <= i < |ps| ==> Boundable(ps[i], params)
    case Not(q) => exists c :: OneColumn(q, params, c)
    case _ => true
  }

  lemma {:induction false} OneColumnUsed(p: Pred, params: Params, c: nat)
    requires OneColumn(p, params, c)
    ensures Used(p) == {c} && Grouped(p)
  {
    match p
    case And(ps) =>
      forall i | 0 <= i < |ps|
        ensures Used(ps[i]) == {c} && Grouped(ps[i])
      {
        OneColumnUsed(ps[i], params, c);
      }
      assert c in Used(ps[0]);
    case Or(ps) =>
      forall i | 0 <= i < |ps|
        ensures Used(ps[i]) == {c} && Grouped(ps[i])
      {
        OneColumnUsed(ps[i], params, c);
      }
      assert c in Used(ps[0]);
    case Not(q) => OneColumnUsed(q, params, c);
    case _ =>
  }

  // ---------------------------------------------------------------- leaves

  /** A transition at NULL, if any, only keeps NULL out. */
  predicate NullFree(line: seq<Endpoint>) {
    forall i :: 0 <= i < |line| && line[i].value == [Null] ==> line[i].side.Low? && !line[i].inclusive
  }

  lemma {:induction false} TwoPoints(low: Endpoint, high: Endpoint, v: Value)
    requires Standard(low) && Standard(high) && low.side.Low? && high.side.High?
    requires |low.value| == |high.value| == 1
    requires Less(low.value[0], high.value[0]) || (low.value == high.value && low.inclusive && high.inclusive)
    ensures WellFormed([low, high], COLUMN)
    ensures Holds([low, high], [v]) <==>
            && (if low.inclusive then !Less(v, low.value[0]) else Less(low.value[0], v))
            && (if high.inclusive then !Less(high.value[0], v) else Less(v, high.value[0]))
  {
    OnePart(low.value, high.value);
    OnePart([v], low.value);
    OnePart(low.value, [v]);
    OnePart([v], high.value);
    OnePart(high.value, [v]);
    assert [v][..1] == [v];
    assert [low, high][2..] == [];
  }

  lemma {:induction false} FourPoints(a: Endpoint, b: Endpoint, c: Endpoint, d: Endpoint, v: Value)
    requires Standard(a) && Standard(b) && Standard(c) && Standard(d)
    requires a.side.Low? && b.side.High? && c.side.Low? && d.side.High?
    requires |a.value| == |b.value| == |c.value| == |d.value| == 1
    requires Less(a.value[0], b.value[0]) && b.value == c.value && Less(c.value[0], d.value[0])
    requires !b.inclusive && !c.inclusive
    ensures WellFormed([a, b, c, d], COLUMN)
    ensures Holds([a, b, c, d], [v]) <==> Holds([a, b], [v]) || Holds([c, d], [v])
  {
    OnePart(a.value, b.value);
    OnePart(a.value, d.value);
    OnePart(c.value, d.value);
    assert [a, b, c, d][2..] == [c, d] && [a, b][2..] == [] && [c, d][2..] == [];
  }

  lemma {:induction false} UnboundedHolds(v: Value)
    requires v.IsColumnValue()
    ensures WellFormed(UnboundedLine(), COLUMN) && NullFree(UnboundedLine())
    ensures Holds(UnboundedLine(), [v])
  {
    TwoPoints(NegativeInfinity(), PositiveInfinity(), v);
  }

  /** A comparator's segments hold the column values that satisfy it, and no other. */
  lemma {:induction false} ComparatorExact(op: Comparator, n: real, v: Value)
    requires v.IsColumnValue()
    ensures var line := ComparatorLine(op, n);
            && WellFormed(line, COLUMN) && NullFree(line) && |line| >= 2
            && (Holds(line, [v]) <==> v.Val? && Relates(op, v.n, n))
  {
    var e := Val(n);
    assert Less(Null, e) && Less(e, PosInf);
    match op
    case Le => TwoPoints(MarkLow(OpenPoint(Null)), MarkHigh(Point(e)), v);
    case Lt => TwoPoints(MarkLow(OpenPoint(Null)), MarkHigh(OpenPoint(e)), v);
    case Ge => TwoPoints(MarkLow(Point(e)), PositiveInfinity(), v);
    case Gt => TwoPoints(MarkLow(OpenPoint(e)), PositiveInfinity(), v);
    case Eq => TwoPoints(MarkLow(Point(e)), MarkHigh(Point(e)), v);
    case Ne => NotEqualExact(n, v);
  }

  lemma {:induction false} NotEqualExact(n: real, v: Value)
    requires v.IsColumnValue()
    ensures var line := ComparatorLine(Ne, n);
            && WellFormed(line, COLUMN) && NullFree(line) && |line| >= 2
            && (Holds(line, [v]) <==> v.Val? && v.n != n)
  {
    var line := ComparatorLine(Ne, n);
    var below, above := MarkHigh(OpenPoint(Val(n))), MarkLow(OpenPoint(Val(n)));
    assert line == [MarkLow(OpenPoint(Null)), below, above, PositiveInfinity()];
    FourPoints(MarkLow(OpenPoint(Null)), below, above, PositiveInfinity(), v);
    TwoPoints(MarkLow(OpenPoint(Null)), below, v);
    TwoPoints(above, PositiveInfinity(), v);
  }

  lemma {:induction false} BetweenCovers(a: real, b: real, v: Value)
    requires v.IsColumnValue()
    ensures var line := BetweenLine(a, b);
            && WellFormed(line, COLUMN) && NullFree(line) && |line| >= 2
            && (v.Val? && a <= v.n <= b ==> Holds(line, [v]))
            && (a <= b && Holds(line, [v]) ==> v.Val? && a <= v.n <= b)
  {
    if a < b {
      TwoPoints(MarkLow(Point(Val(a))), MarkHigh(Point(Val(b))), v);
    } else {
      TwoPoints(MarkLow(Point(Val(b))), MarkHigh(Point(Val(a))), v);
    }
  }

  lemma {:induction false} NullTestsExact(v: Value)
    requires v.IsColumnValue()
    ensures WellFormed(NullLine(), COLUMN) && WellFormed(NotNullLine(), COLUMN)
    ensures Holds(NullLine(), [v]) <==> v.Null?
    ensures Holds(NotNullLine(), [v]) <==> !v.Null?
  {
    TwoPoints(MarkLow(Point(Null)), MarkHigh(Point(Null)), v);
    TwoPoints(MarkLow(OpenPoint(Null)), PositiveInfinity(), v);
  }

  // ---------------------------------------------------------------- one column

  lemma {:induction false} SweptNullFree(lines: seq<seq<Endpoint>>, target: nat)
    requires lines != [] && AllWellFormed(lines, COLUMN) && target >= 1
    requires forall i :: 0 <= i < |lines| ==> NullFree(lines[i])
    ensures WellFormed(Swept(Stacked(lines), 0, target), COLUMN)
    ensures NullFree(Swept(Stacked(lines), 0, target))
  {
    SweptWellFormed(lines, target, COLUMN);
    var line := Swept(Stacked(lines), 0, target);
    StackedSorted(lines, COLUMN);
    SweptElements(Stacked(lines), 0, target, COLUMN);
    forall k | 0 <= k < |line| && line[k].value == [Null]
      ensures line[k].side.Low? && !line[k].inclusive
    {
      assert line[k] in Stacked(lines);
      StackedElements(lines, line[k]);
      var i :| 0 <= i < |lines| && line[k] in lines[i];
      var j :| 0 <= j < |lines[i]| && lines[i][j] == line[k];
    }
  }

  /** Only the first transition of such a line can be at NULL. */
  lemma {:induction false} NullFreeInside(line: seq<Endpoint>, i: int)
    requires WellFormed(line, COLUMN) && NullFree(line) && 0 < i < |line|
    ensures |line[i].value| == 1 && line[i].value != [Null]
  {
    OnePart(line[i - 1].value, line[i].value);
    assert NotAfter(line[i - 1], line[i], ByCut) && Standard(line[i - 1]) && Standard(line[i]);
    assert line[i - 1].side != line[i].side;
  }

  lemma {:induction false} NullFreeComplement(line: seq<Endpoint>)
    requires WellFormed(line, COLUMN) && NullFree(line) && |line| >= 2
    ensures WellFormed(Complemented(line), COLUMN) && NullFree(Complemented(line)) && !EndsAtNull(line)
  {
    var c := Complemented(line);
    NullFreeInside(line, |line| - 1);
    ComplementedAt(line);
    forall i | 0 < i < |line| - 1
      ensures line[i].value != [Null]
    {
      NullFreeInside(line, i);
    }
    ComplementWellFormed(line);
    forall k | 0 <= k < |c|
      ensures c[k].value != [Null]
    {
      assert c[k] == ComplementPoint(line, k);
      if 0 < k - Shift(line) < |line| {
        NullFreeInside(line, k - Shift(line));
      }
    }
  }

  lemma {:induction false} OneColumnLine(p: Pred, params: Params, c: nat)
    requires OneColumn(p, params, c) && !Fails(p, params)
    ensures WellFormed(LineAt(p, params, c), COLUMN) && NullFree(LineAt(p, params, c))
    decreases p, 1
  {
    if c !in Marked(p) {
      UnboundedHolds(Null);
      return;
    }
    match p
    case Compare(_, op, operand) => ComparatorExact(op, ValueOf(operand, params), Null);
    case Between(_, lower, upper) => BetweenCovers(ValueOf(lower, params), ValueOf(upper, params), Null);
    case And(ps) =>
      OneColumnLines(p, params, c);
      SweptNullFree(LinesAt(ps, params, c), |ps|);
    case Or(ps) =>
      OneColumnLines(p, params, c);
      SweptNullFree(LinesAt(ps, params, c), 1);
    case Not(q) =>
      OneColumnLine(q, params, c);
      NullFreeComplement(LineAt(q, params, c));
  }

  lemma {:induction false} OneColumnLines(p: Pred, params: Params, c: nat)
    requires (p.And? || p.Or?) && OneColumn(p, params, c) && !Fails(p, params)
    ensures var lines := LinesAt(p.preds, params, c);
            AllWellFormed(lines, COLUMN) && forall i :: 0 <= i < |lines| ==> NullFree(lines[i])
    decreases p, 0
  {
    forall i | 0 <= i < |p.preds|
      ensures WellFormed(LineAt(p.preds[i], params, c), COLUMN) && NullFree(LineAt(p.preds[i], params, c))
    {
      OneColumnLine(p.preds[i], params, c);
    }
  }

  /** The line decides on numbers what the truth value is, and a NULL leaves it unknown. */
  predicate Decides(line: seq<Endpoint>, v: Value, truth: Truth) {
    && FitsLine(line, [v]) && (v.Val? ==> truth == Truly(Holds(line, [v]))) && (v.Null? ==> truth == Unknown)
  }

  /** On a tree over one column without null tests, the bound is exact on non-null values,
      and a NULL makes the predicate unknown. */
  lemma {:induction false} OneColumnExact(p: Pred, params: Params, c: nat, row: Row)
    requires OneColumn(p, params, c) && !Fails(p, params) && row(c).IsColumnValue() && c in Marked(p)
    ensures Decides(LineAt(p, params, c), row(c), Eval(p, params, row))
    decreases p, 1
  {
    match p
    case Compare(_, op, operand) => ComparatorExact(op, ValueOf(operand, params), row(c));
    case Between(_, lower, upper) => BetweenCovers(ValueOf(lower, params), ValueOf(upper, params), row(c));
    case And(_) => OneColumnGroup(p, params, c, row);
    case Or(_) => OneColumnGroup(p, params, c, row);
    case Not(q) =>
      OneColumnExact(q, params, c, row);
      OneColumnLine(q, params, c);
      NullFreeHolds(LineAt(q, params, c), row(c));
  }

  lemma {:induction false} NullFreeHolds(line: seq<Endpoint>, v: Value)
    requires WellFormed(line, COLUMN) && NullFree(line) && |line| >= 2
    ensures FitsLine(Complemented(line), [v]) && FitsLine(line, [v])
    ensures v.Val? ==> (Holds(Complemented(line), [v]) <==> !Holds(line, [v]))
  {
    NullFreeComplement(line);
    if v.Val? {
      ComplementHolds(line, [v]);
    }
  }

  lemma {:induction false} OneColumnGroup(p: Pred, params: Params, c: nat, row: Row)
    requires (p.And? || p.Or?) && OneColumn(p, params, c) && !Fails(p, params) && row(c).IsColumnValue()
    requires c in Marked(p)
    ensures Decides(LineAt(p, params, c), row(c), Eval(p, params, row))
    decreases p, 0
  {
    var lines := LinesAt(p.preds, params, c);
    OneColumnUsed(p, params, c);
    SingleMarked(p, c);
    forall i | 0 <= i < |lines|
      ensures Decides(lines[i], row(c), Eval(p.preds[i], params, row))
    {
      OneColumnUsed(p.preds[i], params, c);
      MarkedUsed(p.preds[i], c);
      OneColumnExact(p.preds[i], params, c, row);
    }
    OneColumnLines(p, params, c);
    GroupDecides(p, params, row, lines, row(c));
    GroupLine(p, params, c);
  }

  lemma {:induction false} GroupDecides(p: Pred, params: Params, row: Row, lines: seq<seq<Endpoint>>, v: Value)
    requires (p.And? || p.Or?) && |lines| == |p.preds| > 0 && AllWellFormed(lines, COLUMN) && v.IsColumnValue()
    requires forall i :: 0 <= i < |lines| ==> Decides(lines[i], v, Eval(p.preds[i], params, row))
    ensures Decides(Swept(Stacked(lines), 0, Quorum(p)), v, Eval(p, params, row))
  {
    GroupExact(lines, [v]);
  }

  lemma {:induction false} GroupExact(lines: seq<seq<Endpoint>>, x: Key)
    requires lines != [] && AllWellFormed(lines, COLUMN) && |x| == 1
    ensures FitsLine(Swept(Stacked(lines), 0, |lines|), x) && FitsLine(Swept(Stacked(lines), 0, 1), x)
    ensures Holds(Swept(Stacked(lines), 0, |lines|), x) <==> HeldByAll(lines, x)
    ensures Holds(Swept(Stacked(lines), 0, 1), x) <==> HeldBySome(lines, x)
  {
    SweepTheorem(lines, |lines|, COLUMN);
    SweepTheorem(lines, 1, COLUMN);
    CoverCountMeaning(lines, x);
  }

  // ---------------------------------------------------------------- all columns

  /** Every line a boundable tree stores is well formed, and holds the column's value on
      every row the tree selects. */
  lemma {:induction false} Covers(p: Pred, params: Params, c: nat, row: Row)
    requires Boundable(p, params) && !Fails(p, params) && IsRow(row)
    ensures WellFormed(LineAt(p, params, c), COLUMN)
    ensures Selects(p, params, row) ==> Holds(LineAt(p, params, c), [row(c)])
    decreases p, 1
  {
    UnboundedHolds(row(c));
    if c in Marked(p) {
      match p
      case Compare(_, op, operand) => ComparatorExact(op, ValueOf(operand, params), row(c));
      case Between(_, lower, upper) => BetweenCovers(ValueOf(lower, params), ValueOf(upper, params), row(c));
      case IsNull(_) => NullTestsExact(row(c));
      case IsNotNull(_) => NullTestsExact(row(c));
      case And(ps) =>
        GroupCovers(p, params, c, row);
        SweptWellFormed(LinesAt(ps, params, c), |ps|, COLUMN);
      case Or(ps) =>
        GroupCovers(p, params, c, row);
        SweptWellFormed(LinesAt(ps, params, c), 1, COLUMN);
      case Not(q) =>
        var d :| OneColumn(q, params, d);
        OneColumnUsed(q, params, d);
        MarkedUsed(q, c);
        OneColumnLine(p, params, c);
        OneColumnExact(p, params, c, row);
    }
  }

  lemma {:induction false} GroupCovers(p: Pred, params: Params, c: nat, row: Row)
    requires (p.And? || p.Or?) && Boundable(p, params) && !Fails(p, params) && IsRow(row) && c in Marked(p)
    ensures AllWellFormed(LinesAt(p.preds, params, c), COLUMN)
    ensures Selects(p, params, row) ==>
              FitsLine(LineAt(p, params, c), [row(c)]) && Holds(LineAt(p, params, c), [row(c)])
    decreases p, 0
  {
    var lines := LinesAt(p.preds, params, c);
    forall i | 0 <= i < |p.preds|
      ensures WellFormed(lines[i], COLUMN)
      ensures Selects(p.preds[i], params, row) ==> Holds(lines[i], [row(c)])
    {
      Covers(p.preds[i], params, c, row);
    }
    GroupExact(lines, [row(c)]);
  }

  /** The claim of IndexBounds.js for its column bounds: when the evaluation succeeds, every
      row the predicate selects has each used column's value inside the bound stored for it. */
  lemma {:induction false} BoundsCoverPredicate(p: Pred, params: Params, row: Row)
    requires Boundable(p, params) && !Fails(p, params) && IsRow(row) && Selects(p, params, row)
    ensures forall c :: c in Marked(p) ==>
              && FitsLine(BoundsOf(p, params)[c], [row(c)])
              && Holds(BoundsOf(p, params)[c], [row(c)])
  {
    forall c | c in Marked(p)
      ensures FitsLine(LineAt(p, params, c), [row(c)]) && Holds(LineAt(p, params, c), [row(c)])
    {
      Covers(p, params, c, row);
    }
  }

  // ---------------------------------------------------------------- exactly which numbers

  /** Does what p says about column c allow it to be n? Operands that have lost the column or do not
      mention it allow every number; a BETWEEN is read with its lower limit first. */
  predicate Allows(p: Pred, params: Params, c: nat, n: real) {
    c in Marked(p) ==>
      match p
      case Compare(_, op, operand) => Relates(op, n, ValueOf(operand, params))
      case Between(_, lower, upper) =>
        || ValueOf(lower, params) <= n <= ValueOf(upper, params)
        || ValueOf(upper, params) <= n <= ValueOf(lower, params)
      case IsNull(_) => false
      case IsNotNull(_) => true
      case And(ps) => forall i :: 0 <= i < |ps| ==> Allows(ps[i], params, c, n)
      case Or(ps) => exists i :: 0 <= i < |ps| && Allows(ps[i], params, c, n)
      case Not(q) => !Allows(q, params, c, n)
  }

  lemma {:induction false} OneColumnBoundable(p: Pred, params: Params, c: nat)
    requires OneColumn(p, params, c)
    ensures Boundable(p, params)
  {
    match p
    case And(ps) =>
      forall i | 0 <= i < |ps|
        ensures Boundable(ps[i], params)
      {
        OneColumnBoundable(ps[i], params, c);
      }
    case Or(ps) =>
      forall i | 0 <= i < |ps|
        ensures Boundable(ps[i], params)
      {
        OneColumnBoundable(ps[i], params, c);
      }
    case _ =>
  }

  /** The line stored for a column holds exactly the numbers that the predicate allows there. */
  lemma {:induction false} BoundIsExact(p: Pred, params: Params, c: nat, n: real)
    requires Boundable(p, params) && !Fails(p, params)
    ensures WellFormed(LineAt(p, params, c), COLUMN)
    ensures FitsLine(LineAt(p, params, c), [Val(n)])
    ensures Holds(LineAt(p, params, c), [Val(n)]) <==> Allows(p, params, c, n)
    decreases p, 1
  {
    UnboundedHolds(Val(n));
    if c in Marked(p) {
      match p
      case Compare(_, op, operand) => ComparatorExact(op, ValueOf(operand, params), Val(n));
      case Between(_, lower, upper) =>
        BetweenCovers(ValueOf(lower, params), ValueOf(upper, params), Val(n));
        BetweenCovers(ValueOf(upper, params), ValueOf(lower, params), Val(n));
      case IsNull(_) => NullTestsExact(Val(n));
      case IsNotNull(_) => NullTestsExact(Val(n));
      case And(_) => GroupIsExact(p, params, c, n);
      case Or(_) => GroupIsExact(p, params, c, n);
      case Not(q) => NotIsExact(q, params, c, n);
    }
  }

  lemma {:induction false} NotIsExact(q: Pred, params: Params, c: nat, n: real)
    requires Boundable(Not(q), params) && !Fails(Not(q), params) && c in Marked(q)
    ensures WellFormed(LineAt(Not(q), params, c), COLUMN)
    ensures FitsLine(LineAt(Not(q), params, c), [Val(n)])
    ensures Holds(LineAt(Not(q), params, c), [Val(n)]) <==> !Allows(q, params, c, n)
    decreases q, 2
  {
    var d :| OneColumn(q, params, d);
    OneColumnUsed(q, params, d);
    MarkedUsed(q, c);
    OneColumnBoundable(q, params, c);
    BoundIsExact(q, params, c, n);
    OneColumnLine(q, params, c);
    OneColumnLine(Not(q), params, c);
    NotLine(q, params, c);
    NullFreeHolds(LineAt(q, params, c), Val(n));
  }

  lemma {:induction false} GroupIsExact(p: Pred, params: Params, c: nat, n: real)
    requires (p.And? || p.Or?) && Boundable(p, params) && !Fails(p, params) && c in Marked(p)
    ensures WellFormed(LineAt(p, params, c), COLUMN)
    ensures FitsLine(LineAt(p, params, c), [Val(n)])
    ensures Holds(LineAt(p, params, c), [Val(n)]) <==> Allows(p, params, c, n)
    decreases p, 0
  {
    var lines := LinesAt(p.preds, params, c);
    forall i | 0 <= i < |lines|
      ensures WellFormed(lines[i], COLUMN) && FitsLine(lines[i], [Val(n)])
      ensures Holds(lines[i], [Val(n)]) <==> Allows(p.preds[i], params, c, n)
    {
      BoundIsExact(p.preds[i], params, c, n);
    }
    GroupExact(lines, [Val(n)]);
    SweptWellFormed(lines, Quorum(p), COLUMN);
    GroupLine(p, params, c);
  }
}
