/** The parser in place: it advances its index and fills in the children of nodes
    (loader/lib/Parser.js). */
module Parsing {
  import opened Grammars

  class Parser {
    const tokens: seq<Token>
    /** The current token. */
    var index: nat

    constructor (tokens: seq<Token>)
      ensures this.tokens == tokens && index == 0
    {
      this.tokens := tokens;
      index := 0;
    }

    /** What a call has done, as an outcome: the index only counts if no error was thrown. */
    ghost predicate Did(outcome: Outcome<Match>, r: Match, thrown: bool)
      reads this
    {
      if thrown then outcome.Thrown? else outcome == Done(r, index)
    }

    method Evaluate(sym: Symbol, strict: bool) returns (r: Match, thrown: bool)
      requires Defined(sym) && index <= |tokens|
      modifies this`index
      ensures old(index) <= index <= |tokens| && Did(Grammars.Evaluate(sym, tokens, old(index), strict), r, thrown)
      decreases |tokens| - index, sym, 2
    {
      r, thrown := NoMatch, false;
      if index < |tokens| {
        match sym {
          case Terminal(name) =>
            if Matches(tokens[index], name) {
              r := Leaf(tokens[index]);
              index := index + 1;
            }
          case Series(_) => r, thrown := EvalSeries(sym);
          case OptionOf(_) => r, thrown := EvalSeries(sym);
          case Alts(_) => r, thrown := EvalAlternates(sym);
          case Several(_) => r, thrown := EvalSeveral(sym);
        }
        if !thrown && strict && r.NoMatch? {
          thrown := true;
        }
      }
    }

    method EvalSeries(sym: Symbol) returns (r: Match, thrown: bool)
      requires !sym.Terminal? && Defined(sym) && index <= |tokens|
      modifies this`index
      ensures old(index) <= index <= |tokens|
      ensures Did(EvaluateSeries(sym, tokens, old(index), 0, [], old(index)), r, thrown)
      decreases |tokens| - index, sym, 1, |sym.members|
    {
      ghost var start := index;
      ghost var expected := EvaluateSeries(sym, tokens, start, 0, [], start);
      var i, s, children, stopped := 0, 0, [], false;
      thrown := false;
      while !stopped
        invariant start <= index <= |tokens| && (s > 0 <==> index > start)
        invariant !stopped ==> i < |sym.members| && EvaluateSeries(sym, tokens, start, i, children, index) == expected
        invariant stopped ==> expected == Done(if s == 0 then NoMatch else Node(sym, children), index)
        decreases !stopped, |sym.members| - i
      {
        var member := sym.members[i];
        var m: Match;
        m, thrown := Evaluate(member, sym.Series? && StrictSymbol(member) && s > 0);
        if thrown {
          return NoMatch, true;
        }
        children := children + [m];
        if !m.NoMatch? {
          s := s + 1;
        }
        i := i + 1;
        stopped := i == |sym.members| || (m.NoMatch? && StrictSymbol(member));
      }
      r := if s == 0 then NoMatch else Node(sym, children);
    }

    method EvalAlternates(sym: Symbol) returns (r: Match, thrown: bool)
      requires sym.Alts? && Defined(sym) && index <= |tokens|
      modifies this`index
      ensures old(index) <= index <= |tokens| && Did(EvaluateAlternates(sym, tokens, old(index), 0), r, thrown)
      decreases |tokens| - index, sym, 1, |sym.members|
    {
      for i := 0 to |sym.members|
        invariant index == old(index)
        invariant EvaluateAlternates(sym, tokens, index, i) == EvaluateAlternates(sym, tokens, index, 0)
      {
        var m, threw := Evaluate(sym.members[i], false);
        if threw {
          return NoMatch, true;
        }
        if !m.NoMatch? {
          return Node(sym, [m]), false;
        }
      }
      return NoMatch, false;
    }

    /** Rounds until one matches nothing; every other round consumes a token. */
    method EvalSeveral(sym: Symbol) returns (r: Match, thrown: bool)
      requires sym.Several? && Defined(sym) && index <= |tokens|
      modifies this`index
      ensures old(index) <= index <= |tokens|
              && Did(EvaluateSeveral(sym, tokens, old(index), [], old(index)), r, thrown)
      decreases |tokens| - index, sym, 1, |sym.members| + 1
    {
      ghost var start := index;
      ghost var expected := EvaluateSeveral(sym, tokens, start, [], start);
      var m: Match;
      m, thrown := EvalSeries(sym);
      if thrown {
        return NoMatch, true;
      }
      if m.NoMatch? {
        return NoMatch, false;
      }
      var rounds := [];
      ghost var before := start;
      while !m.NoMatch?
        invariant start <= before <= index <= |tokens| && (rounds == [] <==> before == start)
        invariant m.NoMatch? ==> rounds != []
        invariant EvaluateSeries(sym, tokens, before, 0, [], before) == Done(m, index)
        invariant EvaluateSeveral(sym, tokens, start, rounds, before) == expected
        decreases |tokens| - before
      {
        rounds := rounds + [m];
        before := index;
        m, thrown := EvalSeries(sym);
        if thrown {
          return NoMatch, true;
        }
      }
      return Node(sym, rounds), false;
    }

    /** Does the statement end here? An empty list of tokens is an error too. */
    method Finish() returns (failed: bool)
      requires index <= |tokens|
      ensures failed <==> index < |tokens| || tokens == []
    {
      failed := index < |tokens| || |tokens| == 0;
    }
  }

  /** Parses a whole statement. */
  method Parse(grammar: Symbol, tokens: seq<Token>) returns (r: Match, ok: bool)
    requires Defined(grammar)
    ensures ok ==> r != NoMatch && Conforms(grammar, r) && Leaves(r) == tokens
    ensures ok <==> tokens != [] && Grammars.Evaluate(grammar, tokens, 0, false) == Done(r, |tokens|)
  {
    var parser := new Parser(tokens);
    var thrown: bool;
    r, thrown := parser.Evaluate(grammar, false);
    if thrown {
      return NoMatch, false;
    }
    LeavesAreConsumed(grammar, tokens, 0, false);
    MatchConforms(grammar, tokens, 0, false);
    var failed := parser.Finish();
    ok := !failed;
    assert ok ==> tokens[0..parser.index] == tokens;
  }
}
