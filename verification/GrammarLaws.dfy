/** What symbols match, as laws between evaluations: a repetition goes on as long as it can, the
    first alternative that matches is taken, and the members of a series are tried in turn
    (loader/lib/Parser.js). */
module GrammarLaws {
  import opened Grammars

  // ---------------------------------------------------------------- series

  /** Member j tried before the token at place: strict members of a series must be there once a token
      has been consumed since start. */
  function Try(sym: Symbol, ts: seq<Token>, start: nat, j: nat, place: nat): Outcome<Match>
    requires !sym.Terminal? && Defined(sym) && j < |sym.members| && place <= |ts|
  {
    Evaluate(sym.members[j], ts, place, sym.Series? && StrictSymbol(sym.members[j]) && place > start)
  }

  ghost predicate TriedAt(sym: Symbol, ts: seq<Token>, places: seq<nat>, children: seq<Match>, j: nat)
    requires !sym.Terminal? && Defined(sym) && j < |children| < |places| && |children| <= |sym.members|
  {
    places[j] <= |ts| && Try(sym, ts, places[0], j, places[j]) == Done(children[j], places[j + 1])
  }

  predicate Missing(sym: Symbol, children: seq<Match>, j: nat)
    requires !sym.Terminal? && j < |children| <= |sym.members|
  {
    children[j].NoMatch? && StrictSymbol(sym.members[j])
  }

  /** Members of sym have been tried in turn, the j-th one before the token at places[j], with these
      results; no strict one was missing before the last. */
  ghost predicate Tried(sym: Symbol, ts: seq<Token>, places: seq<nat>, children: seq<Match>)
    requires !sym.Terminal? && Defined(sym)
  {
    && |places| == |children| + 1 && |children| <= |sym.members| && places[0] <= places[|children|] <= |ts|
    && (forall j {:trigger TriedAt(sym, ts, places, children, j)} :: 0 <= j < |children| ==>
          TriedAt(sym, ts, places, children, j))
    && (forall j {:trigger Missing(sym, children, j)} :: 0 <= j < |children| - 1 ==> !Missing(sym, children, j))
  }

  /** No further member is to be tried. */
  predicate Ended(sym: Symbol, children: seq<Match>)
    requires !sym.Terminal? && |children| <= |sym.members|
  {
    |children| == |sym.members| || (children != [] && Missing(sym, children, |children| - 1))
  }

  /** The next member throws. */
  ghost predicate Breaks(sym: Symbol, ts: seq<Token>, places: seq<nat>, children: seq<Match>)
    requires !sym.Terminal? && Defined(sym) && Tried(sym, ts, places, children)
  {
    !Ended(sym, children) && Try(sym, ts, places[0], |children|, places[|children|]).Thrown?
  }

  lemma {:induction false} TriedOn(sym: Symbol, ts: seq<Token>, places: seq<nat>, children: seq<Match>)
    requires !sym.Terminal? && Defined(sym) && Tried(sym, ts, places, children) && !Ended(sym, children)
    requires !Breaks(sym, ts, places, children)
    ensures var r := Try(sym, ts, places[0], |children|, places[|children|]);
            Tried(sym, ts, places + [r.next], children + [r.result])
  {
    var r := Try(sym, ts, places[0], |children|, places[|children|]);
    var places', children' := places + [r.next], children + [r.result];
    forall j | 0 <= j < |children'|
      ensures TriedAt(sym, ts, places', children', j)
    {
      assert j < |children| ==> TriedAt(sym, ts, places, children, j);
    }
    forall j | 0 <= j < |children'| - 1
      ensures !Missing(sym, children', j)
    {
      assert !Missing(sym, children, j);
    }
  }

  /** Members from here on, as the loop goes through them. */
  lemma {:induction false} SeriesTried(sym: Symbol, ts: seq<Token>, places: seq<nat>, children: seq<Match>)
      returns (all: seq<nat>, results: seq<Match>)
    requires !sym.Terminal? && Defined(sym) && Tried(sym, ts, places, children) && !Ended(sym, children)
    ensures Tried(sym, ts, all, results) && all[0] == places[0]
    ensures EvaluateSeries(sym, ts, places[0], |children|, children, places[|children|])
         == (if Breaks(sym, ts, all, results) then Thrown else SeriesResult(sym, all, results))
    ensures Breaks(sym, ts, all, results) || Ended(sym, results)
    decreases |sym.members| - |children|
  {
    all, results := places, children;
    if !Breaks(sym, ts, places, children) {
      var r := Try(sym, ts, places[0], |children|, places[|children|]);
      TriedOn(sym, ts, places, children);
      all, results := places + [r.next], children + [r.result];
      if !Ended(sym, results) {
        all, results := SeriesTried(sym, ts, all, results);
      }
    }
  }

  /** What has been tried is a match if a token has been consumed. */
  function SeriesResult(sym: Symbol, places: seq<nat>, children: seq<Match>): Outcome<Match>
    requires |places| == |children| + 1
  {
    var next := places[|children|];
    Done(if next == places[0] then NoMatch else Node(sym, children), next)
  }

  /** A series or option: its members are tried in turn, each where the one before has stopped, until
      all have been, a strict one is missing, or one throws. Once a token has been consumed, strict
      members of a series must be there. */
  lemma {:induction false} MembersInTurn(sym: Symbol, ts: seq<Token>, i: nat)
      returns (places: seq<nat>, children: seq<Match>)
    requires (sym.Series? || sym.OptionOf?) && Defined(sym) && i < |ts|
    ensures Tried(sym, ts, places, children) && places[0] == i
    ensures Breaks(sym, ts, places, children) || Ended(sym, children)
    ensures Evaluate(sym, ts, i, false)
         == if Breaks(sym, ts, places, children) then Thrown else SeriesResult(sym, places, children)
  {
    places, children := SeriesTried(sym, ts, [i], []);
  }

  // ---------------------------------------------------------------- alternatives

  /** The first alternative that does not fail to match decides; there is no match without one. */
  lemma {:induction false} FirstAlternative(sym: Symbol, ts: seq<Token>, i: nat) returns (k: nat)
    requires sym.Alts? && Defined(sym) && i < |ts|
    ensures k <= |sym.members|
    ensures forall j :: 0 <= j < k ==> Evaluate(sym.members[j], ts, i, false) == Done(NoMatch, i)
    ensures k == |sym.members| ==> Evaluate(sym, ts, i, false) == Done(NoMatch, i)
    ensures k < |sym.members| ==>
              var r := Evaluate(sym.members[k], ts, i, false);
              && r != Done(NoMatch, i)
              && Evaluate(sym, ts, i, false) == if r.Thrown? then Thrown else Done(Node(sym, [r.result]), r.next)
  {
    k := 0;
    while k < |sym.members| && Evaluate(sym.members[k], ts, i, false) == Done(NoMatch, i)
      invariant k <= |sym.members|
      invariant forall j :: 0 <= j < k ==> Evaluate(sym.members[j], ts, i, false) == Done(NoMatch, i)
      invariant EvaluateAlternates(sym, ts, i, 0) == EvaluateAlternates(sym, ts, i, k)
    {
      k := k + 1;
    }
  }

  // ---------------------------------------------------------------- repetition

  /** The node of an option with the same members, as one round of a repetition. */
  function Round(sym: Symbol, r: Outcome<Match>): Outcome<Match> {
    if r.Done? && r.result.Node? then Done(Node(sym, r.result.children), r.next) else r
  }

  lemma {:induction false} RoundIsOption(members: seq<Symbol>, ts: seq<Token>, start: nat, k: nat,
                                         children: seq<Match>, i: nat)
    requires Defined(Several(members)) && Defined(OptionOf(members)) && start <= i <= |ts| && k < |members|
    ensures EvaluateSeries(Several(members), ts, start, k, children, i)
         == Round(Several(members), EvaluateSeries(OptionOf(members), ts, start, k, children, i))
    decreases |members| - k
  {
    var r := Evaluate(members[k], ts, i, false);
    if r.Done? && k + 1 < |members| && !(r.result.NoMatch? && StrictSymbol(members[k])) {
      RoundIsOption(members, ts, start, k + 1, children + [r.result], r.next);
    }
  }

  /** These rounds, and then what a repetition that starts after them matches. */
  function Before(sym: Symbol, rounds: seq<Match>, rest: Outcome<Match>): Outcome<Match> {
    if rest.Thrown? then Thrown
    else Done(Node(sym, rounds + if rest.result.Node? then rest.result.children else []), rest.next)
  }

  lemma {:induction false} SeveralBefore(sym: Symbol, ts: seq<Token>, start: nat, rounds: seq<Match>, i: nat)
    requires sym.Several? && Defined(sym) && start < i <= |ts| && rounds != []
    ensures EvaluateSeveral(sym, ts, start, rounds, i) == Before(sym, rounds, EvaluateSeveral(sym, ts, i, [], i))
    decreases |ts| - i
  {
    var r := EvaluateSeries(sym, ts, i, 0, [], i);
    if r.Done? && !r.result.NoMatch? {
      var rest := EvaluateSeveral(sym, ts, r.next, [], r.next);
      SeveralBefore(sym, ts, start, rounds + [r.result], r.next);
      SeveralBefore(sym, ts, i, [] + [r.result], r.next);
      if rest.Done? {
        var more := if rest.result.Node? then rest.result.children else [];
        assert rounds + [r.result] + more == rounds + ([] + [r.result] + more);
      }
    } else if r.Done? {
      assert rounds + [] == rounds;
    }
  }

  lemma {:induction false} SeveralNode(sym: Symbol, ts: seq<Token>, i: nat)
    requires sym.Several? && Defined(sym) && i <= |ts|
    ensures Evaluate(sym, ts, i, false) == EvaluateSeveral(sym, ts, i, [], i)
  {
    if i == |ts| {
      NoSeriesLeft(sym, ts, 0, []);
    }
  }

  /** Repetition: if its members match as an option does, that is a round, and the repetition goes on
      behind it; otherwise it is over. */
  lemma {:induction false} GoesOnWhileItCan(members: seq<Symbol>, ts: seq<Token>, i: nat)
    requires Defined(Several(members)) && Defined(OptionOf(members)) && i < |ts|
    ensures var sym, first := Several(members), Evaluate(OptionOf(members), ts, i, false);
            var all := Evaluate(sym, ts, i, false);
            if first.Thrown? || first.result.NoMatch? then all == first
            else all == Before(sym, [Round(sym, first).result], Evaluate(sym, ts, first.next, false))
  {
    var sym := Several(members);
    RoundIsOption(members, ts, i, 0, [], i);
    var r := EvaluateSeries(sym, ts, i, 0, [], i);
    if r.Done? && !r.result.NoMatch? {
      OptionNode(OptionOf(members), ts, i, 0, [], i);
      SeveralBefore(sym, ts, i, [] + [r.result], r.next);
      SeveralNode(sym, ts, r.next);
      assert [] + [r.result] == [r.result];
    }
  }

  lemma {:induction false} OptionNode(sym: Symbol, ts: seq<Token>, start: nat, k: nat, children: seq<Match>, i: nat)
    requires sym.OptionOf? && Defined(sym) && start <= i <= |ts| && k < |sym.members|
    ensures var r := EvaluateSeries(sym, ts, start, k, children, i);
            r.Done? && !r.result.NoMatch? ==> r.result.Node? && r.result.nonTerminal == sym
    decreases |sym.members| - k
  {
    var r := Evaluate(sym.members[k], ts, i, false);
    if r.Done? && k + 1 < |sym.members| {
      OptionNode(sym, ts, start, k + 1, children + [r.result], r.next);
    }
  }

  /** Where a repetition has stopped, its members do not match once more. */
  lemma {:induction false} StopsWhenItMust(members: seq<Symbol>, ts: seq<Token>, i: nat)
    requires Defined(Several(members)) && Defined(OptionOf(members)) && i <= |ts|
    ensures var r := Evaluate(Several(members), ts, i, false);
            r.Done? ==> Evaluate(OptionOf(members), ts, r.next, false) == Done(NoMatch, r.next)
    decreases |ts| - i
  {
    if i < |ts| {
      GoesOnWhileItCan(members, ts, i);
      var first := Evaluate(OptionOf(members), ts, i, false);
      if first.Done? && !first.result.NoMatch? {
        StopsWhenItMust(members, ts, first.next);
      }
    }
  }

  /** Any number of tokens that match one terminal is taken by its repetition, up to the first that
      does not match it. */
  lemma {:induction false} RepeatsTaken(name: string, ts: seq<Token>, i: nat, n: nat, strict: bool)
    requires i < n <= |ts| && (forall j :: i <= j < n ==> Matches(ts[j], name))
    requires n < |ts| ==> !Matches(ts[n], name)
    ensures var r := Evaluate(Several([Terminal(name)]), ts, i, strict); r.Done? && r.next == n && !r.result.NoMatch?
    decreases n - i
  {
    var members := [Terminal(name)];
    OneTerminal(name, ts, i);
    GoesOnWhileItCan(members, ts, i);
    if i + 1 < n {
      RepeatsTaken(name, ts, i + 1, n, false);
    } else if n < |ts| {
      OneTerminal(name, ts, n);
      GoesOnWhileItCan(members, ts, n);
    }
  }

  lemma {:induction false} OneTerminal(name: string, ts: seq<Token>, i: nat)
    requires i < |ts|
    ensures Defined(OptionOf([Terminal(name)])) && Defined(Several([Terminal(name)]))
    ensures var r := Evaluate(OptionOf([Terminal(name)]), ts, i, false);
            r.Done? && (if Matches(ts[i], name) then r.next == i + 1 && r.result.Node? else r == Done(NoMatch, i))
  {
    var members := [Terminal(name)];
    assert members[0] == Terminal(name) && |members| == 1;
    var places, children := MembersInTurn(OptionOf(members), ts, i);
    assert |children| > 0 ==> TriedAt(OptionOf(members), ts, places, children, 0);
  }
}
