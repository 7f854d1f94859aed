/** How SQLVisitor writes the text of a predicate, and when it is right
    (database-jones/Adapter/api/Query.js). Nodes inherit their sql object from the prototype of
    their kind, so that all nodes of a kind but the root write into the same one. */
module SqlVisitor {
  import opened QueryTrees
  import opened SqlText

  datatype Kind = Root | Nary | Unary | Comparative | NullTesting

  /** The sqlText of the sql object of each kind. */
  datatype Cells = Cells(root: seq<Token>, nary: seq<Token>, unary: seq<Token>, comparing: seq<Token>,
      nullTesting: seq<Token>)

  function KindOf(p: Pred, isRoot: bool): Kind {
    if isRoot then Root
    else match p
      case Compare(_, _, _) => Comparative
      case Between(_, _, _) => Comparative
      case IsNull(_) => NullTesting
      case IsNotNull(_) => NullTesting
      case And(_) => Nary
      case Or(_) => Nary
      case Not(_) => Unary
  }

  function TextIn(cells: Cells, kind: Kind): seq<Token> {
    match kind
    case Root => cells.root
    case Nary => cells.nary
    case Unary => cells.unary
    case Comparative => cells.comparing
    case NullTesting => cells.nullTesting
  }

  function Written(cells: Cells, kind: Kind, text: seq<Token>): Cells {
    match kind
    case Root => cells.(root := text)
    case Nary => cells.(nary := text)
    case Unary => cells.(unary := text)
    case Comparative => cells.(comparing := text)
    case NullTesting => cells.(nullTesting := text)
  }

  // ---------------------------------------------------------------- what visiting writes

  function Visited(cells: Cells, p: Pred, isRoot: bool): (r: Cells)
    ensures !isRoot ==> r.root == cells.root
    decreases p, 0
  {
    match p
    case And(ps) => AfterOperands(cells, ps, KindOf(p, isRoot), Word(p), |ps|)
    case Or(ps) => AfterOperands(cells, ps, KindOf(p, isRoot), Word(p), |ps|)
    case Not(q) =>
      var after := Visited(cells, q, false);
      Written(after, KindOf(p, isRoot), [NotWord] + InParens(TextIn(after, KindOf(q, false))))
    case _ => Written(cells, KindOf(p, isRoot), Render(p))
  }

  /** After n operands of AND or OR, whose own text is in the cell of its kind. */
  function AfterOperands(cells: Cells, ps: seq<Pred>, kind: Kind, word: Token, n: nat): (r: Cells)
    requires n <= |ps|
    ensures kind != Root ==> r.root == cells.root
    decreases ps, n, 1
  {
    if n == 0 then cells
    else AfterOperand(AfterOperands(cells, ps, kind, word, n - 1), ps[n - 1], kind, word, n == 1)
  }

  /** The operator and the next operand are appended; only the operand if it is the first. */
  function AfterOperand(cells: Cells, p: Pred, kind: Kind, word: Token, first: bool): (r: Cells)
    ensures kind != Root ==> r.root == cells.root
    decreases p, 1
  {
    var before := if first then cells else Written(cells, kind, TextIn(cells, kind) + [word]);
    var after := Visited(before, p, false);
    var operand := InParens(TextIn(after, KindOf(p, false)));
    Written(after, kind, if first then operand else TextIn(after, kind) + operand)
  }

  class SQLVisitor {
    var cells: Cells
    var formalParameters: seq<string>

    constructor ()
      ensures formalParameters == []
    {
      cells := Cells([], [], [], [], []);
      formalParameters := [];
    }

    method WriteOperand(operand: Operand) returns (text: seq<Token>)
      modifies this
      ensures text == OperandText(operand) && cells == old(cells)
      ensures formalParameters == old(formalParameters) + OperandName(operand)
    {
      match operand {
        case Literal(v) => text := [Constant(v)];
        case Param(name) =>
          text := [Question];
          formalParameters := formalParameters + [name];
      }
    }

    method Visit(p: Pred, isRoot: bool)
      modifies this
      ensures cells == Visited(old(cells), p, isRoot)
      ensures formalParameters == old(formalParameters) + Names(p)
      decreases p, 1
    {
      match p {
        case Compare(c, op, operand) =>
          var value := WriteOperand(operand);
          cells := Written(cells, KindOf(p, isRoot), [Column(c), Comparing(op)] + value);
        case Between(c, lower, upper) =>
          var leftValue := WriteOperand(lower);
          var rightValue := WriteOperand(upper);
          cells := Written(cells, KindOf(p, isRoot), [Column(c), BetweenWord] + leftValue + [AndWord] + rightValue);
        case IsNull(c) =>
          cells := Written(cells, KindOf(p, isRoot), [Column(c), NullTest]);
        case IsNotNull(c) =>
          cells := Written(cells, KindOf(p, isRoot), [Column(c), NotNullTest]);
        case And(ps) => VisitNary(p, ps, isRoot);
        case Or(ps) => VisitNary(p, ps, isRoot);
        case Not(q) =>
          Visit(q, false);
          cells := Written(cells, KindOf(p, isRoot), [NotWord] + InParens(TextIn(cells, KindOf(q, false))));
      }
    }

    method VisitNary(p: Pred, ps: seq<Pred>, isRoot: bool)
      requires p == And(ps) || p == Or(ps)
      modifies this
      ensures cells == AfterOperands(old(cells), ps, KindOf(p, isRoot), Word(p), |ps|)
      ensures formalParameters == old(formalParameters) + AllNames(ps)
      decreases p, 0
    {
      var kind := KindOf(p, isRoot);
      ghost var cells0 := cells;
      for i := 0 to |ps|
        invariant Progress(ps, kind, Word(p), i, cells0, old(formalParameters))
      {
        ProgressStep(ps, kind, Word(p), i, cells0, old(formalParameters));
        assert ps[i] in Operands(p);
        VisitOperand(ps[i], kind, Word(p), i == 0);
      }
      assert ps[..|ps|] == ps;
    }

    /** The first n operands have been visited. */
    ghost predicate Progress(ps: seq<Pred>, kind: Kind, word: Token, n: nat, cells0: Cells, names0: seq<string>)
      requires n <= |ps|
      reads this
    {
      cells == AfterOperands(cells0, ps, kind, word, n) && formalParameters == names0 + AllNames(ps[..n])
    }

    lemma ProgressStep(ps: seq<Pred>, kind: Kind, word: Token, n: nat, cells0: Cells, names0: seq<string>)
      requires n < |ps| && Progress(ps, kind, word, n, cells0, names0)
      ensures AfterOperand(cells, ps[n], kind, word, n == 0) == AfterOperands(cells0, ps, kind, word, n + 1)
      ensures formalParameters + Names(ps[n]) == names0 + AllNames(ps[..n + 1])
    {
      NamesStep(ps, n);
    }

    method VisitOperand(p: Pred, kind: Kind, word: Token, first: bool)
      modifies this
      ensures cells == AfterOperand(old(cells), p, kind, word, first)
      ensures formalParameters == old(formalParameters) + Names(p)
      decreases p, 2
    {
      if !first {
        cells := Written(cells, kind, TextIn(cells, kind) + [word]);
      }
      Visit(p, false);
      var operand := InParens(TextIn(cells, KindOf(p, false)));
      cells := Written(cells, kind, if first then operand else TextIn(cells, kind) + operand);
    }
  }
}
