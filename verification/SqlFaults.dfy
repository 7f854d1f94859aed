/** The text that SQLVisitor writes is that of the predicate exactly if no AND or OR but the root
    has an AND or OR inside a later operand (database-jones/Adapter/api/Query.js). */
module SqlFaults {
  import opened QueryTrees
  import opened SqlText
  import opened SqlVisitor

  /** No AND or OR in it. */
  predicate NaryFree(p: Pred) {
    match p
    case And(_) => false
    case Or(_) => false
    case Not(q) => NaryFree(q)
    case _ => true
  }

  /** Below the root: only first operands have AND or OR in them. */
  predicate Clean(p: Pred)
    decreases p
  {
    match p
    case And(ps) => CleanUpTo(ps, |ps|)
    case Or(ps) => CleanUpTo(ps, |ps|)
    case Not(q) => Clean(q)
    case _ => true
  }

  predicate CleanUpTo(ps: seq<Pred>, n: nat)
    requires n <= |ps|
    decreases ps, n
  {
    n == 0 || if n == 1 then Clean(ps[0]) else CleanUpTo(ps, n - 1) && NaryFree(ps[n - 1])
  }

  predicate AllClean(ps: seq<Pred>, n: nat)
    requires n <= |ps|
  {
    n == 0 || (AllClean(ps, n - 1) && Clean(ps[n - 1]))
  }

  lemma {:induction false} OneClean(ps: seq<Pred>)
    requires ps != []
    ensures AllClean(ps, 1) <==> Clean(ps[0])
  {
    assert AllClean(ps, 0);
  }

  predicate CleanRoot(p: Pred) {
    AllClean(Operands(p), |Operands(p)|)
  }

  function OwnText(cells: Cells, p: Pred): seq<Token> {
    TextIn(Visited(cells, p, false), KindOf(p, false))
  }

  // ---------------------------------------------------------------- parentheses that meet

  /** A closing parenthesis is followed by an opening one: no text of a predicate has that. */
  ghost predicate Broken(s: seq<Token>) {
    exists i {:trigger BreakAt(s, i)} :: BreakAt(s, i)
  }

  ghost predicate BreakAt(s: seq<Token>, i: int) {
    0 <= i < |s| - 1 && s[i] == Close && s[i + 1] == Open
  }

  lemma {:induction false} BrokenConcat(a: seq<Token>, b: seq<Token>)
    ensures Broken(a + b) <==>
              Broken(a) || Broken(b) || (a != [] && b != [] && a[|a| - 1] == Close && b[0] == Open)
  {
    var s := a + b;
    if i :| BreakAt(s, i) {
      if i < |a| - 1 {
        assert BreakAt(a, i);
      } else if i >= |a| {
        assert BreakAt(b, i - |a|);
      }
    }
    if i :| BreakAt(a, i) {
      assert BreakAt(s, i);
    }
    if i :| BreakAt(b, i) {
      assert BreakAt(s, i + |a|);
    }
    if a != [] && b != [] && a[|a| - 1] == Close && b[0] == Open {
      assert BreakAt(s, |a| - 1);
    }
  }

  lemma {:induction false} BrokenParens(s: seq<Token>)
    ensures Broken(InParens(s)) <==> Broken(s)
  {
    BrokenConcat([Open], s);
    BrokenConcat([Open] + s, [Close]);
  }

  lemma {:induction false} ShortUnbroken(s: seq<Token>)
    requires forall i :: 0 <= i < |s| ==> s[i] != Close
    ensures !Broken(s)
  {
  }

  lemma {:induction false} RenderUnbroken(p: Pred)
    ensures !Broken(Render(p))
    decreases p, 1
  {
    match p
    case And(ps) => AllUnbroken(p, ps, |ps|);
    case Or(ps) => AllUnbroken(p, ps, |ps|);
    case Not(q) =>
      RenderUnbroken(q);
      BrokenParens(Render(q));
      BrokenConcat([NotWord], InParens(Render(q)));
    case _ => ShortUnbroken(Render(p));
  }

  lemma {:induction false} AllUnbroken(p: Pred, ps: seq<Pred>, n: nat)
    requires (p == And(ps) || p == Or(ps)) && n <= |ps|
    ensures ps[..|ps|] == ps && !Broken(RenderAll(ps[..n], Word(p)))
    decreases p, 0, n
  {
    if n > 0 {
      assert ps[n - 1] in Operands(p);
      RenderUnbroken(ps[n - 1]);
      BrokenParens(Render(ps[n - 1]));
      if n == 1 {
        assert ps[..1] == [ps[0]];
      } else {
        AllUnbroken(p, ps, n - 1);
        RenderStep(ps, n - 1, Word(p));
        StaysUnbroken(RenderAll(ps[..n - 1], Word(p)), Word(p), InParens(Render(ps[n - 1])));
      }
    }
  }

  lemma {:induction false} StaysUnbroken(text: seq<Token>, word: Token, last: seq<Token>)
    requires !Broken(text) && !Broken(last) && word != Open && word != Close
    ensures !Broken(text + [word] + last)
  {
    BrokenConcat(text, [word]);
    BrokenConcat(text + [word], last);
  }

  // ---------------------------------------------------------------- what visiting leaves alone

  /** A predicate without AND and OR leaves their text alone and writes its own. */
  lemma {:induction false} NaryKept(cells: Cells, p: Pred)
    requires NaryFree(p)
    ensures Visited(cells, p, false).nary == cells.nary && OwnText(cells, p) == Render(p)
  {
    if p.Not? {
      NaryKept(cells, p.pred);
    }
  }

  predicate EndsClosed(s: seq<Token>) {
    s != [] && s[|s| - 1] == Close
  }

  /** One with AND or OR leaves a text there that ends with a parenthesis. */
  lemma {:induction false} NaryWritten(cells: Cells, p: Pred)
    requires !NaryFree(p) && Paired(p)
    ensures EndsClosed(Visited(cells, p, false).nary)
  {
    match p
    case Not(q) => NaryWritten(cells, q);
    case And(ps) => OperandsClosed(cells, ps, AndWord, |ps|);
    case Or(ps) => OperandsClosed(cells, ps, OrWord, |ps|);
    case _ =>
  }

  lemma {:induction false} OperandsClosed(cells: Cells, ps: seq<Pred>, word: Token, n: nat)
    requires 0 < n <= |ps|
    ensures EndsClosed(AfterOperands(cells, ps, Nary, word, n).nary)
  {
  }

  // ---------------------------------------------------------------- when the text is right

  /** Below the root, the text is right if the predicate is clean, and broken if it is not. */
  lemma {:induction false} BelowRoot(cells: Cells, p: Pred)
    requires Paired(p)
    ensures if Clean(p) then OwnText(cells, p) == Render(p) else Broken(OwnText(cells, p))
    decreases p, 1
  {
    match p
    case And(ps) => NaryText(cells, p, ps, |ps|); assert ps[..|ps|] == ps;
    case Or(ps) => NaryText(cells, p, ps, |ps|); assert ps[..|ps|] == ps;
    case Not(q) =>
      BelowRoot(cells, q);
      BrokenParens(OwnText(cells, q));
      BrokenConcat([NotWord], InParens(OwnText(cells, q)));
    case _ =>
  }

  ghost predicate RightIf(clean: bool, text: seq<Token>, rendered: seq<Token>) {
    if clean then text == rendered else Broken(text)
  }

  lemma {:induction false} NaryText(cells: Cells, p: Pred, ps: seq<Pred>, n: nat)
    requires (p == And(ps) || p == Or(ps)) && Paired(p) && n <= |ps|
    ensures n > 0 ==> RightIf(CleanUpTo(ps, n), AfterOperands(cells, ps, Nary, Word(p), n).nary,
            RenderAll(ps[..n], Word(p)))
    decreases p, 0, n
  {
    if n > 0 {
      assert ps[n - 1] in Operands(p);
      var before := AfterOperands(cells, ps, Nary, Word(p), n - 1);
      if n == 1 {
        FirstOperand(before, ps[0], Nary, Word(p));
        assert ps[..1] == [ps[0]];
      } else {
        NaryText(cells, p, ps, n - 1);
        NextText(before, Word(p), ps, n);
      }
    }
  }

  lemma {:induction false} NextText(before: Cells, word: Token, ps: seq<Pred>, n: nat)
    requires 1 < n <= |ps| && Paired(ps[n - 1]) && (word == AndWord || word == OrWord)
    requires RightIf(CleanUpTo(ps, n - 1), before.nary, RenderAll(ps[..n - 1], word))
    ensures RightIf(CleanUpTo(ps, n), AfterOperand(before, ps[n - 1], Nary, word, false).nary, RenderAll(ps[..n], word))
    decreases ps[n - 1], 3
  {
    RenderStep(ps, n - 1, word);
    NextOperand(CleanUpTo(ps, n - 1), before, RenderAll(ps[..n - 1], word), ps[n - 1], word);
  }

  lemma {:induction false} FirstOperand(before: Cells, q: Pred, kind: Kind, word: Token)
    requires Paired(q)
    ensures var text := TextIn(AfterOperand(before, q, kind, word, true), kind);
            if Clean(q) then text == InParens(Render(q)) else Broken(text)
    decreases q, 2
  {
    BelowRoot(before, q);
    BrokenParens(OwnText(before, q));
  }

  /** An operand without AND and OR is appended; another one breaks the text. */
  lemma {:induction false} NextOperand(clean: bool, before: Cells, rendered: seq<Token>, q: Pred, word: Token)
    requires Paired(q) && word != Open && RightIf(clean, before.nary, rendered)
    ensures RightIf(clean && NaryFree(q), AfterOperand(before, q, Nary, word, false).nary,
                    rendered + [word] + InParens(Render(q)))
  {
    var c := Written(before, Nary, before.nary + [word]);
    var operand := InParens(OwnText(c, q));
    BrokenConcat(before.nary, [word]);
    if NaryFree(q) {
      NaryKept(c, q);
      BrokenConcat(before.nary + [word], operand);
    } else {
      NaryWritten(c, q);
      BrokenConcat(Visited(c, q, false).nary, operand);
    }
  }

  /** At the root every operand is appended to the text. */
  lemma {:induction false} RootText(cells: Cells, p: Pred, ps: seq<Pred>, n: nat)
    requires (p == And(ps) || p == Or(ps)) && Paired(p) && 0 < n <= |ps|
    ensures RightIf(AllClean(ps, n), AfterOperands(cells, ps, Root, Word(p), n).root, RenderAll(ps[..n], Word(p)))
    decreases n
  {
    if n == 1 {
      FirstAtRoot(cells, ps, Word(p));
    } else {
      RootText(cells, p, ps, n - 1);
      LaterAtRoot(AfterOperands(cells, ps, Root, Word(p), n - 1), ps, n, Word(p));
    }
  }

  lemma {:induction false} FirstAtRoot(cells: Cells, ps: seq<Pred>, word: Token)
    requires ps != [] && Paired(ps[0])
    ensures RightIf(AllClean(ps, 1), AfterOperand(cells, ps[0], Root, word, true).root, RenderAll(ps[..1], word))
  {
    FirstOperand(cells, ps[0], Root, word);
    OneClean(ps);
    assert ps[..1] == [ps[0]];
  }

  lemma {:induction false} LaterAtRoot(before: Cells, ps: seq<Pred>, n: nat, word: Token)
    requires 1 < n <= |ps| && Paired(ps[n - 1]) && word != Open && word != Close
    requires RightIf(AllClean(ps, n - 1), before.root, RenderAll(ps[..n - 1], word))
    ensures RightIf(AllClean(ps, n), AfterOperand(before, ps[n - 1], Root, word, false).root, RenderAll(ps[..n], word))
  {
    RenderStep(ps, n - 1, word);
    NextAtRoot(AllClean(ps, n - 1), before, RenderAll(ps[..n - 1], word), ps[n - 1], word);
  }

  lemma {:induction false} NextAtRoot(clean: bool, before: Cells, rendered: seq<Token>, q: Pred, word: Token)
    requires Paired(q) && word != Open && word != Close && RightIf(clean, before.root, rendered)
    ensures RightIf(clean && Clean(q), AfterOperand(before, q, Root, word, false).root,
                    rendered + [word] + InParens(Render(q)))
  {
    var c := Written(before, Root, before.root + [word]);
    BelowRoot(c, q);
    BrokenParens(OwnText(c, q));
    BrokenConcat(before.root, [word]);
    BrokenConcat(before.root + [word], InParens(OwnText(c, q)));
  }

  /** SQLVisitor's text is the predicate's exactly if no AND or OR but the root has an AND or OR
      inside a later operand. */
  lemma {:induction false} TextRight(cells: Cells, p: Pred)
    requires Paired(p)
    ensures Visited(cells, p, true).root == Render(p) <==> CleanRoot(p)
  {
    RenderUnbroken(p);
    match p
    case And(ps) => NaryRight(cells, p, ps);
    case Or(ps) => NaryRight(cells, p, ps);
    case Not(q) =>
      BelowRoot(cells, q);
      BrokenParens(OwnText(cells, q));
      BrokenConcat([NotWord], InParens(OwnText(cells, q)));
      OneClean([q]);
    case _ =>
  }

  lemma {:induction false} NaryRight(cells: Cells, p: Pred, ps: seq<Pred>)
    requires (p == And(ps) || p == Or(ps)) && Paired(p)
    ensures if CleanRoot(p) then Visited(cells, p, true).root == Render(p) else Broken(Visited(cells, p, true).root)
  {
    RootText(cells, p, ps, |ps|);
    assert ps[..|ps|] == ps && Operands(p) == ps;
  }

  /** What the server reads then is the predicate, its i-th parameter the i-th formal parameter. */
  method GetSQL(p: Pred) returns (sqlText: seq<Token>, formalParameters: seq<string>)
    requires Paired(p)
    ensures formalParameters == Names(p)
    ensures sqlText == Render(p) <==> CleanRoot(p)
    ensures CleanRoot(p) ==> ReadPred(sqlText, formalParameters) == Read(p, [], [])
  {
    var visitor := new SQLVisitor();
    ghost var cells := visitor.cells;
    visitor.Visit(p, true);
    sqlText, formalParameters := visitor.cells.root, visitor.formalParameters;
    TextRight(cells, p);
    TextReadsBack(p);
  }
}
