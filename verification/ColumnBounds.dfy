/** Evaluating a query tree into bounds on its columns
    (database-jones/Adapter/common/IndexBounds.js, ColumnBoundVisitor). */
module ColumnBounds {
  import opened Endpoints
  import opened NumberLines
  import opened Complements
  import opened QueryTrees
  import opened ColumnMasks

  function Point(v: Value): Endpoint { Endpoint([v], true, Unmarked) }

  function OpenPoint(v: Value): Endpoint { Endpoint([v], false, Unmarked) }

  /** What a comparator selects: the values before, at, after or around n, and never NULL. */
  function ComparatorLine(op: Comparator, n: real): seq<Endpoint> {
    var v := [Val(n)];
    match op
    case Le => [Endpoint([Null], false, Low), Endpoint(v, true, High)]
    case Lt => [Endpoint([Null], false, Low), Endpoint(v, false, High)]
    case Ge => [Endpoint(v, true, Low), PositiveInfinity()]
    case Gt => [Endpoint(v, false, Low), PositiveInfinity()]
    case Eq => [Endpoint(v, true, Low), Endpoint(v, true, High)]
    case Ne => [Endpoint([Null], false, Low), Endpoint(v, false, High), Endpoint(v, false, Low), PositiveInfinity()]
  }

  /** The segment between two values, whichever comes first. */
  function BetweenLine(a: real, b: real): seq<Endpoint> {
    if a <= b then [Endpoint([Val(a)], true, Low), Endpoint([Val(b)], true, High)]
    else [Endpoint([Val(b)], true, Low), Endpoint([Val(a)], true, High)]
  }

  function NullLine(): seq<Endpoint> {
    [Endpoint([Null], true, Low), Endpoint([Null], true, High)]
  }

  function NotNullLine(): seq<Endpoint> {
    [Endpoint([Null], false, Low), PositiveInfinity()]
  }

  method CreateSegmentForComparator(op: Comparator, n: real) returns (line: seq<Endpoint>)
    ensures line == ComparatorLine(op, n)
  {
    var value := Val(n);
    match op
    case Le => line := SegmentOf(OpenPoint(Null), Point(value));
    case Lt => line := SegmentOf(OpenPoint(Null), OpenPoint(value));
    case Ge => line := SegmentOf(Point(value), PositiveInfinity());
    case Gt => line := SegmentOf(OpenPoint(value), PositiveInfinity());
    case Eq => line := SegmentOf(Point(value), Point(value));
    case Ne =>
      var numberLine := new NumberLine(SegmentOf(Point(value), Point(value)));
      var _ := numberLine.Complement();
      numberLine.NonNull();
      line := numberLine.transitions;
  }

  method CreateSegmentBetween(a: real, b: real) returns (line: seq<Endpoint>)
    ensures line == BetweenLine(a, b)
  {
    line := SegmentOf(Point(Val(a)), Point(Val(b)));
  }

  /** The line a node stores for a column, or the unbounded line if it stores none. */
  function LineAt(p: Pred, params: Params, c: nat): seq<Endpoint>
    decreases p, 1
  {
    if c !in Marked(p) then UnboundedLine()
    else
      match p
      case Compare(_, op, operand) => ComparatorLine(op, ValueOf(operand, params))
      case Between(_, lower, upper) => BetweenLine(ValueOf(lower, params), ValueOf(upper, params))
      case IsNull(_) => NullLine()
      case IsNotNull(_) => NotNullLine()
      case And(ps) => Swept(Stacked(LinesAt(ps, params, c)), 0, |ps|)
      case Or(ps) => Swept(Stacked(LinesAt(ps, params, c)), 0, 1)
      case Not(q) =>
        var line := LineAt(q, params, c);
        if |line| >= 2 then Complemented(line) else []
  }

  function LinesAt(ps: seq<Pred>, params: Params, c: nat): seq<seq<Endpoint>>
    decreases ps, 0
  {
    seq(|ps|, i requires 0 <= i < |ps| => LineAt(ps[i], params, c))
  }

  /** How many operands have to hold for the group to hold. */
  function Quorum(p: Pred): nat
    requires p.And? || p.Or?
  {
    if p.And? then |p.preds| else 1
  }

  lemma {:induction false} GroupLine(p: Pred, params: Params, c: nat)
    requires (p.And? || p.Or?) && c in Marked(p)
    ensures LineAt(p, params, c) == Swept(Stacked(LinesAt(p.preds, params, c)), 0, Quorum(p))
  {
  }

  /** The evaluation fails when a NOT meets an empty line. */
  predicate Fails(p: Pred, params: Params) {
    match p
    case And(ps) => exists i :: 0 <= i < |ps| && Fails(ps[i], params)
    case Or(ps) => exists i :: 0 <= i < |ps| && Fails(ps[i], params)
    case Not(q) => Fails(q, params) || exists c :: c in Marked(q) && LineAt(q, params, c) == []
    case _ => false
  }

  function BoundsOf(p: Pred, params: Params): map<nat, seq<Endpoint>> {
    map c | c in Marked(p) :: LineAt(p, params, c)
  }

  /** Every line a visit stores has an even number of alternating transitions. */
  lemma {:induction false} LinePaired(p: Pred, params: Params, c: nat)
    requires Grouped(p)
    ensures Paired(LineAt(p, params, c))
    decreases p, 1
  {
    if c in Marked(p) {
      match p
      case And(ps) => GroupPaired(p, params, c);
      case Or(ps) => GroupPaired(p, params, c);
      case Not(q) =>
        LinePaired(q, params, c);
        ComplementPaired(LineAt(q, params, c));
      case _ =>
    }
  }

  lemma {:induction false} NotLine(q: Pred, params: Params, c: nat)
    requires Grouped(q) && c in Marked(q)
    ensures |LineAt(q, params, c)| % 2 == 0
    ensures LineAt(q, params, c) != [] ==>
              |LineAt(q, params, c)| >= 2 && LineAt(Not(q), params, c) == Complemented(LineAt(q, params, c))
  {
    LinePaired(q, params, c);
  }

  lemma {:induction false} NotFails(q: Pred, params: Params, c: nat)
    requires c in Marked(q) && LineAt(q, params, c) == []
    ensures Fails(Not(q), params)
  {
  }

  lemma {:induction false} ComplementPaired(line: seq<Endpoint>)
    requires Paired(line)
    ensures |line| >= 2 ==> Paired(Complemented(line))
  {
    if |line| >= 2 {
      ComplementedAt(line);
      ComplementAlternates(Complemented(line), line);
    }
  }

  lemma {:induction false} GroupPaired(p: Pred, params: Params, c: nat)
    requires Grouped(p) && (p.And? || p.Or?) && c in Marked(p)
    ensures Paired(LineAt(p, params, c))
    decreases p, 0
  {
    var lines := LinesAt(p.preds, params, c);
    forall i | 0 <= i < |lines|
      ensures Paired(lines[i])
    {
      LinePaired(p.preds[i], params, c);
    }
    SweptPaired(lines, Quorum(p));
    GroupLine(p, params, c);
  }

  // ---------------------------------------------------------------- the visitor

  /** A node of the query tree. Its shape never changes; evaluation writes columnBound. */
  class QueryNode {
    /** The operation code and operands of the node. */
    const pred: Pred
    const predicates: seq<QueryNode>
    ghost const repr: set<QueryNode>
    /** The columns listed by usedColumnMask.toArray. */
    const usedColumns: seq<nat>
    var columnBound: map<nat, seq<Endpoint>>
    /** Unset until an index range has been consolidated at this node. */
    var hasIndexRange: bool
    var indexRange: seq<Endpoint>

    ghost predicate Linked() {
      && Grouped(pred)
      && (forall c :: c in usedColumns <==> c in Marked(pred))
      && |predicates| == |Operands(pred)|
      && (forall i :: 0 <= i < |predicates| ==> predicates[i].pred == Operands(pred)[i])
    }

    ghost predicate Valid()
      decreases pred
    {
      && Linked()
      && repr == {this} + (set i, n | 0 <= i < |predicates| && n in predicates[i].repr :: n)
      && (forall i :: 0 <= i < |predicates| ==> this !in predicates[i].repr && predicates[i].Valid())
      && (forall i, j :: 0 <= i < j < |predicates| ==> predicates[i].repr !! predicates[j].repr)
    }
  }

  lemma {:induction false} OperandsApart(node: QueryNode)
    requires node.Valid()
    ensures forall i :: 0 <= i < |node.predicates| ==>
              && node.predicates[i].Valid() && node.predicates[i] in node.predicates[i].repr
              && node.predicates[i].repr <= node.repr - {node}
    ensures forall i, j :: 0 <= i < |node.predicates| && 0 <= j < |node.predicates| && i != j ==>
              node.predicates[i] !in node.predicates[j].repr
  {
  }

  class ColumnBoundVisitor {
    const params: Params

    constructor (params: Params)
      ensures this.params == params
    {
      this.params := params;
    }

    predicate Evaluated(node: QueryNode)
      reads node
    {
      !Fails(node.pred, params) && node.columnBound == BoundsOf(node.pred, params)
    }

    predicate OperandsEvaluated(node: QueryNode)
      reads node.predicates
    {
      forall i :: 0 <= i < |node.predicates| ==> Evaluated(node.predicates[i])
    }

    /** visitQueryNaryPredicate, visitQueryUnaryPredicate and the leaf visits, by node kind.
        The result is false when a NOT finds an empty line, which the source throws on. */
    method Visit(node: QueryNode) returns (ok: bool)
      requires node.Valid()
      modifies node.repr`columnBound
      ensures ok <==> !Fails(node.pred, params)
      ensures ok ==> node.columnBound == BoundsOf(node.pred, params)
      decreases node.pred
    {
      if |Operands(node.pred)| == 0 {
        Store(node);
        return true;
      }
      ok := VisitOperands(node);
      if ok {
        if node.pred.Not? {
          ok := ComplementOperand(node);
        } else {
          Combine(node);
        }
      }
    }

    /** Store a single segment at a leaf. */
    method Store(node: QueryNode)
      requires node.Linked() && Operands(node.pred) == []
      modifies node`columnBound
      ensures Evaluated(node)
    {
      var segment;
      match node.pred {
        case Compare(_, op, operand) =>
          segment := CreateSegmentForComparator(op, ValueOf(operand, params));
        case Between(_, lower, upper) =>
          segment := CreateSegmentBetween(ValueOf(lower, params), ValueOf(upper, params));
        case IsNull(_) =>
          segment := SegmentOf(Point(Null), Point(Null));
        case IsNotNull(_) =>
          segment := SegmentOf(OpenPoint(Null), PositiveInfinity());
      }
      node.columnBound := map[node.pred.column := segment];
    }

    method VisitOperands(node: QueryNode) returns (ok: bool)
      requires node.Valid()
      modifies (node.repr - {node})`columnBound
      ensures ok ==> OperandsEvaluated(node)
      ensures !ok ==> exists i :: 0 <= i < |node.predicates| && Fails(node.predicates[i].pred, params)
      decreases node.pred, 0
    {
      OperandsApart(node);
      for i := 0 to |node.predicates|
        invariant forall j :: 0 <= j < i ==> Evaluated(node.predicates[j])
      {
        ok := Visit(node.predicates[i]);
        if !ok {
          return;
        }
      }
      ok := true;
    }

    lemma {:induction false} BoundsComplete(node: QueryNode, bounds: map<nat, seq<Endpoint>>)
      requires node.Linked()
      requires forall j :: 0 <= j < |node.usedColumns| ==> node.usedColumns[j] in bounds
      requires forall c :: c in bounds ==> c in node.usedColumns && bounds[c] == LineAt(node.pred, params, c)
      ensures bounds == BoundsOf(node.pred, params)
    {
      assert bounds.Keys == Marked(node.pred);
    }

    /** Store the union or intersection of the operands' bounds for every column used. */
    method Combine(node: QueryNode)
      requires node.Linked() && OperandsEvaluated(node) && (node.pred.And? || node.pred.Or?)
      modifies node`columnBound
      ensures node.columnBound == BoundsOf(node.pred, params)
    {
      var bounds: map<nat, seq<Endpoint>> := map[];
      var doColumns := node.usedColumns;
      for k := |doColumns| downto 0
        invariant forall j :: k <= j < |doColumns| ==> doColumns[j] in bounds
        invariant forall c :: c in bounds ==> c in doColumns && bounds[c] == LineAt(node.pred, params, c)
      {
        var c := doColumns[k];
        var line := UnionOrIntersection(node, c);
        bounds := bounds[c := line];
      }
      BoundsComplete(node, bounds);
      node.columnBound := bounds;
    }

    /** unionForColumn or intersectionForColumn, as the operation code says. */
    method UnionOrIntersection(node: QueryNode, c: nat) returns (line: seq<Endpoint>)
      requires node.Linked() && OperandsEvaluated(node) && (node.pred.And? || node.pred.Or?)
      requires c in node.usedColumns
      ensures line == LineAt(node.pred, params, c)
    {
      var lines := OperandLines(node, c);
      var stack := new NumberLineStack(lines);
      line := stack.Sweep(if node.pred.And? then stack.size else 1);
      GroupLine(node.pred, params, c);
    }

    /** evaluateNodeForColumn over the operands of a node. */
    method OperandLines(node: QueryNode, c: nat) returns (lines: seq<seq<Endpoint>>)
      requires node.Linked() && OperandsEvaluated(node) && (node.pred.And? || node.pred.Or?)
      ensures lines == LinesAt(node.pred.preds, params, c) && lines != []
    {
      lines := [];
      for i := 0 to |node.predicates|
        invariant |lines| == i
        invariant forall j :: 0 <= j < i ==> lines[j] == LineAt(node.pred.preds[j], params, c)
      {
        var child := node.predicates[i];
        assert Evaluated(child) && child.pred == node.pred.preds[i];
        var line;
        if c in child.columnBound {
          line := child.columnBound[c];
        } else {
          line := UnboundedSegment();
        }
        lines := lines + [line];
      }
    }

    method ComplementOperand(node: QueryNode) returns (ok: bool)
      requires node.Linked() && node.pred.Not? && OperandsEvaluated(node)
      modifies node`columnBound
      ensures ok <==> !Fails(node.pred, params)
      ensures ok ==> node.columnBound == BoundsOf(node.pred, params)
    {
      var child := node.predicates[0];
      assert Evaluated(child) && child.pred == node.pred.pred;
      var bounds: map<nat, seq<Endpoint>> := map[];
      var doColumns := node.usedColumns;
      for k := |doColumns| downto 0
        invariant ComplementedFrom(node, k, bounds)
      {
        var c := doColumns[k];
        var line;
        ok, line := ComplementColumn(child, c);
        if !ok {
          NotFails(child.pred, params, c);
          return;
        }
        OneComplemented(node, k, bounds, line);
        bounds := bounds[c := line];
      }
      AllComplemented(node, bounds);
      node.columnBound := bounds;
      ok := true;
    }

    predicate ComplementedAs(node: QueryNode, c: nat, line: seq<Endpoint>) {
      && node.pred.Not? && c in node.usedColumns && line == LineAt(node.pred, params, c)
      && LineAt(node.pred.pred, params, c) != []
    }

    /** The bounds are those of the columns from position k on, none of them from an empty line. */
    ghost predicate ComplementedFrom(node: QueryNode, k: nat, bounds: map<nat, seq<Endpoint>>) {
      && (forall j :: k <= j < |node.usedColumns| ==> node.usedColumns[j] in bounds)
      && (forall c {:trigger ComplementedAs(node, c, bounds[c])} :: c in bounds ==> ComplementedAs(node, c, bounds[c]))
    }

    lemma {:induction false} OneComplemented(node: QueryNode, k: nat, bounds: map<nat, seq<Endpoint>>,
                                             line: seq<Endpoint>)
      requires k < |node.usedColumns| && ComplementedFrom(node, k + 1, bounds)
      requires ComplementedAs(node, node.usedColumns[k], line)
      ensures ComplementedFrom(node, k, bounds[node.usedColumns[k] := line])
    {
      var after := bounds[node.usedColumns[k] := line];
      forall c | c in after
        ensures ComplementedAs(node, c, after[c])
      {
        assert c in bounds ==> ComplementedAs(node, c, bounds[c]);
      }
    }

    lemma {:induction false} AllComplemented(node: QueryNode, bounds: map<nat, seq<Endpoint>>)
      requires node.Linked() && node.pred.Not? && !Fails(node.pred.pred, params) && ComplementedFrom(node, 0, bounds)
      ensures bounds == BoundsOf(node.pred, params) && !Fails(node.pred, params)
    {
      forall c | c in bounds
        ensures ComplementedAs(node, c, bounds[c])
      {
      }
      BoundsComplete(node, bounds);
      forall c | c in Marked(node.pred.pred)
        ensures LineAt(node.pred.pred, params, c) != []
      {
        assert c in node.usedColumns;
        assert ComplementedAs(node, c, bounds[c]);
      }
    }

    /** Complement the line an operand stores for one column. */
    method ComplementColumn(child: QueryNode, c: nat) returns (ok: bool, complement: seq<Endpoint>)
      requires Evaluated(child) && Grouped(child.pred) && c in Marked(child.pred)
      ensures ok <==> LineAt(child.pred, params, c) != []
      ensures ok ==> complement == LineAt(Not(child.pred), params, c)
    {
      NotLine(child.pred, params, c);
      var line := new NumberLine(child.columnBound[c]);
      ok := line.Complement();
      complement := line.transitions;
    }
  }
}
