/** The SQL text of a predicate: what it should be, and reading it back
    (database-jones/Adapter/api/Query.js, SQLVisitor). */
module SqlText {
  import opened QueryTrees

  /** The words of a WHERE clause; each ? stands for the next of the formal parameters. */
  datatype Token =
    | Column(column: nat) | Comparing(op: Comparator) | Question | Constant(value: real)
    | BetweenWord | NullTest | NotNullTest | Open | Close | AndWord | OrWord | NotWord

  function OperandText(operand: Operand): seq<Token> {
    match operand
    case Literal(v) => [Constant(v)]
    case Param(_) => [Question]
  }

  function OperandName(operand: Operand): seq<string> {
    match operand
    case Literal(_) => []
    case Param(name) => [name]
  }

  function Word(p: Pred): Token {
    if p.Or? then OrWord else AndWord
  }

  predicate IsNary(p: Pred) {
    p.And? || p.Or?
  }

  function InParens(text: seq<Token>): seq<Token> {
    [Open] + text + [Close]
  }

  /** The text of a predicate: operands of AND and OR stand in parentheses. */
  function Render(p: Pred): seq<Token>
    decreases p
  {
    match p
    case Compare(c, op, operand) => [Column(c), Comparing(op)] + OperandText(operand)
    case Between(c, lower, upper) => [Column(c), BetweenWord] + OperandText(lower) + [AndWord] + OperandText(upper)
    case IsNull(c) => [Column(c), NullTest]
    case IsNotNull(c) => [Column(c), NotNullTest]
    case And(ps) => RenderAll(ps, AndWord)
    case Or(ps) => RenderAll(ps, OrWord)
    case Not(q) => [NotWord] + InParens(Render(q))
  }

  function RenderAll(ps: seq<Pred>, word: Token): seq<Token>
    decreases ps
  {
    if ps == [] then []
    else
      var last := InParens(Render(ps[|ps| - 1]));
      if |ps| == 1 then last else RenderAll(ps[..|ps| - 1], word) + [word] + last
  }

  /** The parameters a predicate mentions, from left to right. */
  function Names(p: Pred): seq<string>
    decreases p
  {
    match p
    case Compare(_, _, operand) => OperandName(operand)
    case Between(_, lower, upper) => OperandName(lower) + OperandName(upper)
    case IsNull(_) => []
    case IsNotNull(_) => []
    case And(ps) => AllNames(ps)
    case Or(ps) => AllNames(ps)
    case Not(q) => Names(q)
  }

  function AllNames(ps: seq<Pred>): seq<string>
    decreases ps
  {
    if ps == [] then [] else AllNames(ps[..|ps| - 1]) + Names(ps[|ps| - 1])
  }

  /** AND and OR always have two or more operands. */
  predicate Paired(p: Pred)
    decreases p
  {
    match p
    case And(ps) => |ps| >= 2 && forall i :: 0 <= i < |ps| ==> Paired(ps[i])
    case Or(ps) => |ps| >= 2 && forall i :: 0 <= i < |ps| ==> Paired(ps[i])
    case Not(q) => Paired(q)
    case _ => true
  }

  // ---------------------------------------------------------------- reading the text

  datatype Parsed<T> = Failed | Read(value: T, rest: seq<Token>, names: seq<string>)

  function ReadOperand(ts: seq<Token>, names: seq<string>): (r: Parsed<Operand>)
    ensures r.Read? ==> |r.rest| < |ts|
  {
    if ts != [] && ts[0].Constant? then Read(Literal(ts[0].value), ts[1..], names)
    else if ts != [] && ts[0].Question? && names != [] then Read(Param(names[0]), ts[1..], names[1..])
    else Failed
  }

  /** A condition on one column. */
  function ReadLeaf(ts: seq<Token>, names: seq<string>): (r: Parsed<Pred>)
    ensures r.Read? ==> |r.rest| < |ts|
  {
    if |ts| < 2 || !ts[0].Column? then Failed
    else
      var c := ts[0].column;
      match ts[1]
      case NullTest => Read(IsNull(c), ts[2..], names)
      case NotNullTest => Read(IsNotNull(c), ts[2..], names)
      case Comparing(op) =>
        var o := ReadOperand(ts[2..], names);
        if o.Failed? then Failed else Read(Compare(c, op, o.value), o.rest, o.names)
      case BetweenWord =>
        var lower := ReadOperand(ts[2..], names);
        if lower.Failed? || lower.rest == [] || lower.rest[0] != AndWord then Failed
        else
          var upper := ReadOperand(lower.rest[1..], lower.names);
          if upper.Failed? then Failed else Read(Between(c, lower.value, upper.value), upper.rest, upper.names)
      case _ => Failed
  }

  /** A predicate in parentheses. */
  function ReadGroup(ts: seq<Token>, names: seq<string>): (r: Parsed<Pred>)
    ensures r.Read? ==> |r.rest| < |ts|
    decreases |ts|, 0
  {
    if ts == [] || ts[0] != Open then Failed
    else
      var q := ReadPred(ts[1..], names);
      if q.Failed? || q.rest == [] || q.rest[0] != Close then Failed else Read(q.value, q.rest[1..], q.names)
  }

  /** More operands after the same word. */
  function ReadMore(word: Token, operands: seq<Pred>, ts: seq<Token>, names: seq<string>): (r: Parsed<seq<Pred>>)
    ensures r.Read? ==> |r.rest| <= |ts|
    decreases |ts|, 2
  {
    if ts == [] || ts[0] != word then Read(operands, ts, names)
    else
      var q := ReadGroup(ts[1..], names);
      if q.Failed? then Failed else ReadMore(word, operands + [q.value], q.rest, q.names)
  }

  function ReadPred(ts: seq<Token>, names: seq<string>): (r: Parsed<Pred>)
    ensures r.Read? ==> |r.rest| < |ts|
    decreases |ts|, 1
  {
    if ts == [] then Failed
    else if ts[0] == NotWord then
      var q := ReadGroup(ts[1..], names);
      if q.Failed? then Failed else Read(Not(q.value), q.rest, q.names)
    else if ts[0] == Open then
      var q := ReadGroup(ts, names);
      if q.Failed? || q.rest == [] || q.rest[0] !in [AndWord, OrWord] then Failed
      else
        var word := q.rest[0];
        var all := ReadMore(word, [q.value], q.rest, q.names);
        if all.Failed? then Failed
        else Read(if word == AndWord then And(all.value) else Or(all.value), all.rest, all.names)
    else ReadLeaf(ts, names)
  }

  // ---------------------------------------------------------------- the text in front of more text

  function OperandOnto(operand: Operand, rest: seq<Token>): seq<Token> {
    match operand
    case Literal(v) => [Constant(v)] + rest
    case Param(_) => [Question] + rest
  }

  function OperandNameOnto(operand: Operand, more: seq<string>): seq<string> {
    match operand
    case Literal(_) => more
    case Param(name) => [name] + more
  }

  function Onto(p: Pred, rest: seq<Token>): seq<Token>
    decreases p
  {
    match p
    case Compare(c, op, operand) => [Column(c)] + ([Comparing(op)] + OperandOnto(operand, rest))
    case Between(c, lower, upper) =>
      [Column(c)] + ([BetweenWord] + OperandOnto(lower, [AndWord] + OperandOnto(upper, rest)))
    case IsNull(c) => [Column(c)] + ([NullTest] + rest)
    case IsNotNull(c) => [Column(c)] + ([NotNullTest] + rest)
    case And(ps) => if ps == [] then rest else [Open] + Onto(ps[0], [Close] + MoreOnto(ps, 1, AndWord, rest))
    case Or(ps) => if ps == [] then rest else [Open] + Onto(ps[0], [Close] + MoreOnto(ps, 1, OrWord, rest))
    case Not(q) => [NotWord] + ([Open] + Onto(q, [Close] + rest))
  }

  function MoreOnto(ps: seq<Pred>, k: nat, word: Token, rest: seq<Token>): seq<Token>
    requires k <= |ps|
    decreases ps, |ps| - k
  {
    if k == |ps| then rest else [word] + ([Open] + Onto(ps[k], [Close] + MoreOnto(ps, k + 1, word, rest)))
  }

  function NamesOnto(p: Pred, more: seq<string>): seq<string>
    decreases p
  {
    match p
    case Compare(_, _, operand) => OperandNameOnto(operand, more)
    case Between(_, lower, upper) => OperandNameOnto(lower, OperandNameOnto(upper, more))
    case IsNull(_) => more
    case IsNotNull(_) => more
    case And(ps) => AllNamesOnto(ps, 0, more)
    case Or(ps) => AllNamesOnto(ps, 0, more)
    case Not(q) => NamesOnto(q, more)
  }

  function AllNamesOnto(ps: seq<Pred>, k: nat, more: seq<string>): seq<string>
    requires k <= |ps|
    decreases ps, |ps| - k
  {
    if k == |ps| then more else NamesOnto(ps[k], AllNamesOnto(ps, k + 1, more))
  }

  lemma {:induction false} Associative(a: seq<Token>, w: Token, r: seq<Token>, m: seq<Token>)
    ensures a + [w] + InParens(r) + m == a + ([w] + ([Open] + (r + ([Close] + m))))
    ensures InParens(r) + m == [Open] + (r + ([Close] + m))
  {
  }

  lemma {:induction false} LeafOnto(p: Pred, rest: seq<Token>)
    requires p.Compare? || p.Between? || p.IsNull? || p.IsNotNull?
    ensures Onto(p, rest) == Render(p) + rest
  {
    match p
    case Between(c, lower, upper) =>
      var after := [AndWord] + OperandOnto(upper, rest);
      assert OperandOnto(upper, rest) == OperandText(upper) + rest;
      assert OperandOnto(lower, after) == OperandText(lower) + after;
    case Compare(c, op, operand) =>
      assert OperandOnto(operand, rest) == OperandText(operand) + rest;
    case _ =>
  }

  lemma {:induction false} OntoIsText(p: Pred, rest: seq<Token>)
    requires Paired(p)
    ensures Onto(p, rest) == Render(p) + rest
    decreases p, 1
  {
    match p
    case And(ps) => AllOnto(p, ps, rest);
    case Or(ps) => AllOnto(p, ps, rest);
    case Not(q) =>
      OntoIsText(q, [Close] + rest);
      Associative([], NotWord, Render(q), rest);
      assert [] + [NotWord] + InParens(Render(q)) == Render(p);
      assert [] + ([NotWord] + ([Open] + (Render(q) + ([Close] + rest)))) == Onto(p, rest);
    case _ => LeafOnto(p, rest);
  }

  lemma {:induction false} AllOnto(p: Pred, ps: seq<Pred>, rest: seq<Token>)
    requires (p == And(ps) || p == Or(ps)) && Paired(p)
    ensures Onto(p, rest) == Render(p) + rest
    decreases p, 0, |ps|
  {
    var tail := MoreOnto(ps, 1, Word(p), rest);
    assert ps[0] in Operands(p);
    OntoIsText(ps[0], [Close] + tail);
    Associative([], Word(p), Render(ps[0]), tail);
    assert ps[..1] == [ps[0]] && RenderAll([ps[0]], Word(p)) == InParens(Render(ps[0]));
    TailOnto(ps, Word(p), 1, rest);
  }

  /** The text of the first k operands, and what the others put before the rest. */
  function FirstAndMore(ps: seq<Pred>, word: Token, k: nat, rest: seq<Token>): seq<Token>
    requires k <= |ps|
  {
    RenderAll(ps[..k], word) + MoreOnto(ps, k, word, rest)
  }

  lemma {:induction false} TailOnto(ps: seq<Pred>, word: Token, k: nat, rest: seq<Token>)
    requires 1 <= k <= |ps| && forall i :: 0 <= i < |ps| ==> Paired(ps[i])
    ensures FirstAndMore(ps, word, k, rest) == RenderAll(ps, word) + rest
    decreases ps, 0, |ps| - k
  {
    if k == |ps| {
      assert ps[..k] == ps;
    } else {
      TailOnto(ps, word, k + 1, rest);
      NextOnto(ps, word, k, rest);
    }
  }

  lemma {:induction false} NextOnto(ps: seq<Pred>, word: Token, k: nat, rest: seq<Token>)
    requires 1 <= k < |ps| && Paired(ps[k])
    ensures FirstAndMore(ps, word, k, rest) == FirstAndMore(ps, word, k + 1, rest)
    decreases ps[k], 2
  {
    var tail := MoreOnto(ps, k + 1, word, rest);
    OntoIsText(ps[k], [Close] + tail);
    RenderStep(ps, k, word);
    Associative(RenderAll(ps[..k], word), word, Render(ps[k]), tail);
  }

  lemma {:induction false} RenderStep(ps: seq<Pred>, k: nat, word: Token)
    requires 1 <= k < |ps|
    ensures RenderAll(ps[..k + 1], word) == RenderAll(ps[..k], word) + [word] + InParens(Render(ps[k]))
  {
    var start := ps[..k + 1];
    assert start[..|start| - 1] == ps[..k] && start[|start| - 1] == ps[k];
  }

  lemma {:induction false} NamesOntoIsNames(p: Pred, more: seq<string>)
    ensures NamesOnto(p, more) == Names(p) + more
    decreases p, 1
  {
    match p
    case And(ps) => TailNames(p, ps, 0, more);
    case Or(ps) => TailNames(p, ps, 0, more);
    case Not(q) => NamesOntoIsNames(q, more);
    case _ =>
  }

  lemma {:induction false} TailNames(p: Pred, ps: seq<Pred>, k: nat, more: seq<string>)
    requires (p == And(ps) || p == Or(ps)) && k <= |ps|
    ensures AllNames(ps[..k]) + AllNamesOnto(ps, k, more) == AllNames(ps) + more
    decreases p, 0, |ps| - k
  {
    if k == |ps| {
      assert ps[..k] == ps;
    } else {
      assert ps[k] in Operands(p);
      NamesOntoIsNames(ps[k], AllNamesOnto(ps, k + 1, more));
      TailNames(p, ps, k + 1, more);
      NamesStep(ps, k);
      assert AllNames(ps[..k]) + Names(ps[k]) + AllNamesOnto(ps, k + 1, more) ==
             AllNames(ps[..k]) + (Names(ps[k]) + AllNamesOnto(ps, k + 1, more));
    }
  }

  lemma {:induction false} NamesStep(ps: seq<Pred>, k: nat)
    requires k < |ps|
    ensures AllNames(ps[..k + 1]) == AllNames(ps[..k]) + Names(ps[k])
  {
    var start := ps[..k + 1];
    assert start[..|start| - 1] == ps[..k] && start[|start| - 1] == ps[k];
  }

  // ---------------------------------------------------------------- the text reads back

  predicate Ends(rest: seq<Token>) {
    rest == [] || rest[0] == Close
  }

  lemma {:induction false} OperandReads(operand: Operand, rest: seq<Token>, more: seq<string>)
    ensures ReadOperand(OperandOnto(operand, rest), OperandNameOnto(operand, more)) == Read(operand, rest, more)
  {
  }

  lemma {:induction false} LeafReads(p: Pred, rest: seq<Token>, more: seq<string>)
    requires p.Compare? || p.Between? || p.IsNull? || p.IsNotNull?
    ensures ReadLeaf(Onto(p, rest), NamesOnto(p, more)) == Read(p, rest, more)
  {
    match p
    case Compare(c, op, operand) =>
      assert Onto(p, rest)[2..] == OperandOnto(operand, rest);
      OperandReads(operand, rest, more);
    case Between(c, lower, upper) =>
      var after := OperandOnto(upper, rest);
      var names := OperandNameOnto(upper, more);
      assert Onto(p, rest)[2..] == OperandOnto(lower, [AndWord] + after);
      OperandReads(lower, [AndWord] + after, names);
      assert ([AndWord] + after)[1..] == after;
      OperandReads(upper, rest, more);
    case IsNull(c) =>
      assert Onto(p, rest)[2..] == rest;
    case IsNotNull(c) =>
      assert Onto(p, rest)[2..] == rest;
    case _ =>
  }

  /** Reading the text of a predicate gives the predicate, each ? taken for the next name. */
  lemma {:induction false} ReadsBack(p: Pred, rest: seq<Token>, more: seq<string>)
    requires Paired(p) && Ends(rest)
    ensures ReadPred(Onto(p, rest), NamesOnto(p, more)) == Read(p, rest, more)
    decreases p, 1
  {
    match p
    case And(ps) => AllRead(p, ps, rest, more);
    case Or(ps) => AllRead(p, ps, rest, more);
    case Not(q) =>
      GroupReads(q, rest, more);
      assert Onto(p, rest)[1..] == [Open] + Onto(q, [Close] + rest);
    case _ => LeafReads(p, rest, more);
  }

  lemma {:induction false} GroupReads(q: Pred, rest: seq<Token>, more: seq<string>)
    requires Paired(q)
    ensures ReadGroup([Open] + Onto(q, [Close] + rest), NamesOnto(q, more)) == Read(q, rest, more)
    decreases q, 2
  {
    ReadsBack(q, [Close] + rest, more);
    assert ([Open] + Onto(q, [Close] + rest))[1..] == Onto(q, [Close] + rest);
    assert ([Close] + rest)[1..] == rest;
  }

  lemma {:induction false} MoreReads(p: Pred, ps: seq<Pred>, k: nat, done: seq<Pred>, rest: seq<Token>,
                                     more: seq<string>)
    requires (p == And(ps) || p == Or(ps)) && Paired(p) && 1 <= k <= |ps| && Ends(rest) && done == ps[..k]
    ensures ReadMore(Word(p), done, MoreOnto(ps, k, Word(p), rest), AllNamesOnto(ps, k, more)) == Read(ps, rest, more)
    decreases p, 0, |ps| - k
  {
    if k == |ps| {
      assert done == ps;
    } else {
      var tail, names := MoreOnto(ps, k + 1, Word(p), rest), AllNamesOnto(ps, k + 1, more);
      var group := [Open] + Onto(ps[k], [Close] + tail);
      assert ps[k] in Operands(p);
      GroupReads(ps[k], tail, names);
      MoreReads(p, ps, k + 1, done + [ps[k]], rest, more);
      assert ([Word(p)] + group)[1..] == group;
      ReadMoreStep(Word(p), done, [Word(p)] + group, AllNamesOnto(ps, k, more), ps[k], tail, names);
    }
  }

  lemma {:induction false} ReadMoreStep(word: Token, operands: seq<Pred>, ts: seq<Token>, names: seq<string>,
                                        q: Pred, after: seq<Token>, names': seq<string>)
    requires ts != [] && ts[0] == word && ReadGroup(ts[1..], names) == Read(q, after, names')
    ensures ReadMore(word, operands, ts, names) == ReadMore(word, operands + [q], after, names')
  {
  }

  lemma {:induction false} FirstOnto(p: Pred, ps: seq<Pred>, rest: seq<Token>, more: seq<string>,
                                     tail: seq<Token>, names: seq<string>)
    requires (p == And(ps) || p == Or(ps)) && |ps| >= 2
    requires tail == MoreOnto(ps, 1, Word(p), rest) && names == AllNamesOnto(ps, 1, more)
    ensures Onto(p, rest) == [Open] + Onto(ps[0], [Close] + tail) && NamesOnto(p, more) == NamesOnto(ps[0], names)
    ensures tail != [] && tail[0] == Word(p)
  {
  }

  lemma {:induction false} ReadPredStep(p: Pred, ps: seq<Pred>, ts: seq<Token>, names: seq<string>, q: Pred,
                                        after: seq<Token>, names': seq<string>, rest: seq<Token>, more: seq<string>)
    requires (p == And(ps) || p == Or(ps)) && ts != [] && ts[0] == Open
    requires ReadGroup(ts, names) == Read(q, after, names') && after != [] && after[0] == Word(p)
    requires ReadMore(Word(p), [q], after, names') == Read(ps, rest, more)
    ensures ReadPred(ts, names) == Read(p, rest, more)
  {
  }

  lemma {:induction false} AllRead(p: Pred, ps: seq<Pred>, rest: seq<Token>, more: seq<string>)
    requires (p == And(ps) || p == Or(ps)) && Paired(p) && Ends(rest)
    ensures ReadPred(Onto(p, rest), NamesOnto(p, more)) == Read(p, rest, more)
    decreases p, 0, |ps|
  {
    assert ps[0] in Operands(p);
    var tail, names := MoreOnto(ps, 1, Word(p), rest), AllNamesOnto(ps, 1, more);
    FirstOnto(p, ps, rest, more, tail, names);
    GroupReads(ps[0], tail, names);
    MoreReads(p, ps, 1, [ps[0]], rest, more);
    ReadPredStep(p, ps, Onto(p, rest), NamesOnto(p, more), ps[0], tail, names, rest, more);
  }

  /** The whole text with the whole list of names reads back as the predicate. */
  lemma {:induction false} TextReadsBack(p: Pred)
    requires Paired(p)
    ensures ReadPred(Render(p), Names(p)) == Read(p, [], [])
  {
    ReadsBack(p, [], []);
    WholeText(p);
  }

  lemma {:induction false} WholeText(p: Pred)
    requires Paired(p)
    ensures Onto(p, []) == Render(p) && NamesOnto(p, []) == Names(p)
  {
    OntoIsText(p, []);
    NamesOntoIsNames(p, []);
    assert Render(p) + [] == Render(p) && Names(p) + [] == Names(p);
  }
}
