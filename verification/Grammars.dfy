/** Evaluating a grammar on a list of tokens (loader/lib/Parser.js). */
module Grammars {

  datatype Token = Token(kind: string, value: string, isString: bool)

  /** A terminal, or a nonterminal with its members. */
  datatype Symbol =
    | Terminal(name: string)
    | Series(members: seq<Symbol>)
    | OptionOf(members: seq<Symbol>)
    | Alts(members: seq<Symbol>)
    | Several(members: seq<Symbol>)

  /** Nonterminals have members. */
  predicate Defined(sym: Symbol)
    decreases sym
  {
    sym.Terminal? || (sym.members != [] && forall k :: 0 <= k < |sym.members| ==> Defined(sym.members[k]))
  }

  /** What a symbol has been matched with: nothing, one token, or a node with the nonterminal and its children. */
  datatype Match = NoMatch | Leaf(token: Token) | Node(nonTerminal: Symbol, children: seq<Match>)

  /** An evaluation ends before the token at next, or with an error. */
  datatype Outcome<+T> = Thrown | Done(result: T, next: nat)

  function UpperChar(c: char): char {
    if 'a' <= c <= 'z' then c - 32 as char else c
  }

  function Upper(s: string): string {
    seq(|s|, i requires 0 <= i < |s| => UpperChar(s[i]))
  }

  predicate Matches(t: Token, name: string) {
    "{" + t.kind + "}" == name || (t.isString && (t.value == name || Upper(t.value) == Upper(name)))
  }

  /** Terminals, series and alternatives insist on being matched once a series has begun. */
  predicate StrictSymbol(sym: Symbol) {
    sym.Terminal? || sym.Series? || sym.Alts?
  }

  // ---------------------------------------------------------------- evaluation

  ghost predicate Advances(r: Outcome<Match>, i: nat, n: nat) {
    r.Done? ==> i <= r.next <= n && (r.result.NoMatch? ==> r.next == i) && (!r.result.NoMatch? ==> r.next > i)
  }

  function Evaluate(sym: Symbol, ts: seq<Token>, i: nat, strict: bool): (r: Outcome<Match>)
    requires i <= |ts| && Defined(sym)
    ensures Advances(r, i, |ts|)
    decreases |ts| - i, sym, 2
  {
    if i == |ts| then Done(NoMatch, i)
    else
      var r := match sym
        case Terminal(name) => if Matches(ts[i], name) then Done(Leaf(ts[i]), i + 1) else Done(NoMatch, i)
        case Series(members) => EvaluateSeries(sym, ts, i, 0, [], i)
        case OptionOf(members) => EvaluateSeries(sym, ts, i, 0, [], i)
        case Alts(members) => EvaluateAlternates(sym, ts, i, 0)
        case Several(members) => EvaluateSeveral(sym, ts, i, [], i);
      if strict && r.Done? && r.result.NoMatch? then Thrown else r
  }

  /** Members from k on, after a series that began before the token at start has the given children. */
  function EvaluateSeries(sym: Symbol, ts: seq<Token>, start: nat, k: nat, children: seq<Match>,
                          i: nat): (r: Outcome<Match>)
    requires !sym.Terminal? && Defined(sym) && start <= i <= |ts| && k < |sym.members|
    ensures r.Done? ==> i <= r.next <= |ts| && (r.result.NoMatch? <==> r.next == start)
    decreases |ts| - start, sym, 1, |sym.members| - k
  {
    var member := sym.members[k];
    var r := Evaluate(member, ts, i, sym.Series? && StrictSymbol(member) && i > start);
    if r.Thrown? then Thrown
    else
      var more := children + [r.result];
      if k + 1 < |sym.members| && !(r.result.NoMatch? && StrictSymbol(member)) then
        EvaluateSeries(sym, ts, start, k + 1, more, r.next)
      else Done(if r.next == start then NoMatch else Node(sym, more), r.next)
  }

  function EvaluateAlternates(sym: Symbol, ts: seq<Token>, i: nat, k: nat): (r: Outcome<Match>)
    requires sym.Alts? && Defined(sym) && i <= |ts| && k <= |sym.members|
    ensures Advances(r, i, |ts|)
    decreases |ts| - i, sym, 1, |sym.members| - k
  {
    if k == |sym.members| then Done(NoMatch, i)
    else
      var r := Evaluate(sym.members[k], ts, i, false);
      if r.Thrown? then Thrown
      else if r.result.NoMatch? then EvaluateAlternates(sym, ts, i, k + 1)
      else Done(Node(sym, [r.result]), r.next)
  }

  /** More rounds after those whose nodes are given. */
  function EvaluateSeveral(sym: Symbol, ts: seq<Token>, start: nat, rounds: seq<Match>, i: nat): (r: Outcome<Match>)
    requires sym.Several? && Defined(sym) && start <= i <= |ts| && (rounds == [] <==> i == start)
    ensures r.Done? ==> i <= r.next <= |ts| && (r.result.NoMatch? <==> r.next == start)
    decreases |ts| - i, sym, 1, |sym.members| + 1
  {
    var r := EvaluateSeries(sym, ts, i, 0, [], i);
    if r.Thrown? then Thrown
    else if r.result.NoMatch? then Done(if rounds == [] then NoMatch else Node(sym, rounds), i)
    else EvaluateSeveral(sym, ts, start, rounds + [r.result], r.next)
  }

  // ---------------------------------------------------------------- leaves

  function Leaves(m: Match): seq<Token>
    decreases m
  {
    match m
    case NoMatch => []
    case Leaf(t) => [t]
    case Node(_, children) => AllLeaves(children)
  }

  function AllLeaves(ms: seq<Match>): seq<Token>
    decreases ms
  {
    if ms == [] then [] else AllLeaves(ms[..|ms| - 1]) + Leaves(ms[|ms| - 1])
  }

  lemma {:induction false} LeavesStep(ms: seq<Match>, m: Match)
    ensures AllLeaves(ms + [m]) == AllLeaves(ms) + Leaves(m)
  {
    assert (ms + [m])[..|ms|] == ms;
  }

  lemma {:induction false} LeavesJoin(ts: seq<Token>, start: nat, i: nat, next: nat, ms: seq<Match>, m: Match)
    requires start <= i <= next <= |ts| && AllLeaves(ms) == ts[start..i] && Leaves(m) == ts[i..next]
    ensures AllLeaves(ms + [m]) == ts[start..next]
  {
    LeavesStep(ms, m);
    assert ts[start..i] + ts[i..next] == ts[start..next];
  }

  /** The leaves of what has been matched are the tokens that have been consumed, in their order. */
  lemma {:induction false} LeavesAreConsumed(sym: Symbol, ts: seq<Token>, i: nat, strict: bool)
    requires i <= |ts| && Defined(sym) && Evaluate(sym, ts, i, strict).Done?
    ensures var r := Evaluate(sym, ts, i, strict); Leaves(r.result) == ts[i..r.next]
    decreases |ts| - i, sym, 2
  {
    if i < |ts| {
      match sym
      case Terminal(name) =>
      case Series(members) => SeriesLeaves(sym, ts, i, 0, [], i);
      case OptionOf(members) => SeriesLeaves(sym, ts, i, 0, [], i);
      case Alts(members) => AlternateLeaves(sym, ts, i, 0);
      case Several(members) => SeveralLeaves(sym, ts, i, [], i);
    }
  }

  lemma {:induction false} SeriesLeaves(sym: Symbol, ts: seq<Token>, start: nat, k: nat, children: seq<Match>, i: nat)
    requires !sym.Terminal? && Defined(sym) && start <= i <= |ts| && k < |sym.members|
    requires AllLeaves(children) == ts[start..i] && EvaluateSeries(sym, ts, start, k, children, i).Done?
    ensures var r := EvaluateSeries(sym, ts, start, k, children, i); Leaves(r.result) == ts[start..r.next]
    decreases |ts| - start, sym, 1, |sym.members| - k
  {
    var member := sym.members[k];
    var strict := sym.Series? && StrictSymbol(member) && i > start;
    LeavesAreConsumed(member, ts, i, strict);
    var r := Evaluate(member, ts, i, strict);
    LeavesJoin(ts, start, i, r.next, children, r.result);
    if k + 1 < |sym.members| && !(r.result.NoMatch? && StrictSymbol(member)) {
      SeriesLeaves(sym, ts, start, k + 1, children + [r.result], r.next);
    }
  }

  lemma {:induction false} AlternateLeaves(sym: Symbol, ts: seq<Token>, i: nat, k: nat)
    requires sym.Alts? && Defined(sym) && i <= |ts| && k <= |sym.members|
    requires EvaluateAlternates(sym, ts, i, k).Done?
    ensures var r := EvaluateAlternates(sym, ts, i, k); Leaves(r.result) == ts[i..r.next]
    decreases |ts| - i, sym, 1, |sym.members| - k
  {
    if k < |sym.members| {
      LeavesAreConsumed(sym.members[k], ts, i, false);
      var r := Evaluate(sym.members[k], ts, i, false);
      if r.result.NoMatch? {
        AlternateLeaves(sym, ts, i, k + 1);
      } else {
        LeavesStep([], r.result);
        assert [] + [r.result] == [r.result];
      }
    }
  }

  lemma {:induction false} SeveralLeaves(sym: Symbol, ts: seq<Token>, start: nat, rounds: seq<Match>, i: nat)
    requires sym.Several? && Defined(sym) && start <= i <= |ts| && (rounds == [] <==> i == start)
    requires AllLeaves(rounds) == ts[start..i] && EvaluateSeveral(sym, ts, start, rounds, i).Done?
    ensures var r := EvaluateSeveral(sym, ts, start, rounds, i); Leaves(r.result) == ts[start..r.next]
    decreases |ts| - i, sym, 1, |sym.members| + 1
  {
    var r := EvaluateSeries(sym, ts, i, 0, [], i);
    SeriesLeaves(sym, ts, i, 0, [], i);
    if !r.result.NoMatch? {
      LeavesJoin(ts, start, i, r.next, rounds, r.result);
      SeveralLeaves(sym, ts, start, rounds + [r.result], r.next);
    }
  }

  // ---------------------------------------------------------------- what has been matched fits the grammar

  ghost predicate Conforms(sym: Symbol, m: Match)
    decreases sym, 1
  {
    match sym
    case Terminal(name) => m.Leaf? && Matches(m.token, name)
    case Series(members) => NodeOf(sym, m) && SeriesConforms(members, m)
    case OptionOf(members) => NodeOf(sym, m) && SeriesConforms(members, m)
    case Alts(members) =>
      NodeOf(sym, m) && |m.children| == 1 && exists k :: 0 <= k < |members| && Conforms(members[k], m.children[0])
    case Several(members) =>
      && NodeOf(sym, m) && m.children != []
      && forall j :: 0 <= j < |m.children| ==> NodeOf(sym, m.children[j]) && SeriesConforms(members, m.children[j])
  }

  predicate NodeOf(sym: Symbol, m: Match) {
    m.Node? && m.nonTerminal == sym
  }

  /** Children are matches of the first members, missing only where the member is not strict or
      where the series was cut short. */
  ghost predicate SeriesConforms(members: seq<Symbol>, m: Match)
    decreases members, 0
  {
    && m.Node? && 0 < |m.children| <= |members|
    && forall j :: 0 <= j < |m.children| ==>
         if m.children[j].NoMatch? then j == |m.children| - 1 || !StrictSymbol(members[j])
         else Conforms(members[j], m.children[j])
  }

  /** All members have been tried, and all strict ones matched. */
  predicate Whole(members: seq<Symbol>, m: Match) {
    && m.Node? && |m.children| == |members| && members != []
    && (m.children[|members| - 1].NoMatch? ==> !StrictSymbol(members[|members| - 1]))
  }

  ghost predicate PartConforms(members: seq<Symbol>, children: seq<Match>) {
    && |children| <= |members|
    && forall j :: 0 <= j < |children| ==>
         if children[j].NoMatch? then !StrictSymbol(members[j]) else Conforms(members[j], children[j])
  }

  lemma {:induction false} MatchConforms(sym: Symbol, ts: seq<Token>, i: nat, strict: bool)
    requires i <= |ts| && Defined(sym) && Evaluate(sym, ts, i, strict).Done?
    ensures var r := Evaluate(sym, ts, i, strict); !r.result.NoMatch? ==> Conforms(sym, r.result)
    decreases |ts| - i, sym, 2
  {
    if i < |ts| {
      match sym
      case Terminal(name) =>
      case Series(members) => SeriesFits(sym, ts, i, 0, [], i);
      case OptionOf(members) => SeriesFits(sym, ts, i, 0, [], i);
      case Alts(members) => AlternateFits(sym, ts, i, 0);
      case Several(members) => SeveralFits(sym, ts, i, [], i);
    }
  }

  lemma {:induction false} SeriesFits(sym: Symbol, ts: seq<Token>, start: nat, k: nat, children: seq<Match>, i: nat)
    requires !sym.Terminal? && Defined(sym) && start <= i <= |ts| && k < |sym.members|
    requires |children| == k && PartConforms(sym.members, children)
    requires EvaluateSeries(sym, ts, start, k, children, i).Done?
    ensures var r := EvaluateSeries(sym, ts, start, k, children, i);
            !r.result.NoMatch? ==>
              && NodeOf(sym, r.result) && SeriesConforms(sym.members, r.result)
              && (sym.Series? && !Whole(sym.members, r.result) ==> r.next == |ts|)
    decreases |ts| - start, sym, 1, |sym.members| - k
  {
    var member := sym.members[k];
    var strict := sym.Series? && StrictSymbol(member) && i > start;
    MatchConforms(member, ts, i, strict);
    var r := Evaluate(member, ts, i, strict);
    var more := children + [r.result];
    if k + 1 < |sym.members| && !(r.result.NoMatch? && StrictSymbol(member)) {
      SeriesFits(sym, ts, start, k + 1, more, r.next);
    }
  }

  lemma {:induction false} AlternateFits(sym: Symbol, ts: seq<Token>, i: nat, k: nat)
    requires sym.Alts? && Defined(sym) && i <= |ts| && k <= |sym.members|
    requires EvaluateAlternates(sym, ts, i, k).Done?
    ensures var r := EvaluateAlternates(sym, ts, i, k); !r.result.NoMatch? ==> Conforms(sym, r.result)
    decreases |ts| - i, sym, 1, |sym.members| - k
  {
    if k < |sym.members| {
      MatchConforms(sym.members[k], ts, i, false);
      if Evaluate(sym.members[k], ts, i, false).result.NoMatch? {
        AlternateFits(sym, ts, i, k + 1);
      }
    }
  }

  lemma {:induction false} SeveralFits(sym: Symbol, ts: seq<Token>, start: nat, rounds: seq<Match>, i: nat)
    requires sym.Several? && Defined(sym) && start <= i <= |ts| && (rounds == [] <==> i == start)
    requires forall j :: 0 <= j < |rounds| ==> NodeOf(sym, rounds[j]) && SeriesConforms(sym.members, rounds[j])
    requires EvaluateSeveral(sym, ts, start, rounds, i).Done?
    ensures var r := EvaluateSeveral(sym, ts, start, rounds, i); !r.result.NoMatch? ==> Conforms(sym, r.result)
    decreases |ts| - i, sym, 1, |sym.members| + 1
  {
    SeriesFits(sym, ts, i, 0, [], i);
    var r := EvaluateSeries(sym, ts, i, 0, [], i);
    if !r.result.NoMatch? {
      SeveralFits(sym, ts, start, rounds + [r.result], r.next);
    }
  }

  /** A series that is accepted is whole unless the tokens ran out: the statement may be cut short. */
  lemma {:induction false} CutShortOnlyAtEnd(sym: Symbol, ts: seq<Token>, i: nat, strict: bool)
    requires i <= |ts| && Defined(sym) && sym.Series? && Evaluate(sym, ts, i, strict).Done?
    ensures var r := Evaluate(sym, ts, i, strict);
            !r.result.NoMatch? && r.next < |ts| ==> Whole(sym.members, r.result)
  {
    if i < |ts| {
      SeriesFits(sym, ts, i, 0, [], i);
    }
  }

  // ---------------------------------------------------------------- cut short

  /** No series of the tree has been cut short. */
  predicate Complete(m: Match)
    decreases m
  {
    m.Node? ==>
      && (m.nonTerminal.Series? ==> Whole(m.nonTerminal.members, m))
      && forall j :: 0 <= j < |m.children| ==> Complete(m.children[j])
  }

  predicate AllComplete(ms: seq<Match>) {
    forall j :: 0 <= j < |ms| ==> Complete(ms[j])
  }

  /** No terminal of the grammar matches the token. */
  predicate Foreign(sym: Symbol, t: Token)
    decreases sym
  {
    if sym.Terminal? then !Matches(t, sym.name)
    else forall k :: 0 <= k < |sym.members| ==> Foreign(sym.members[k], t)
  }

  /** A result that stands, or an error in place of a tree with a series cut short. */
  function Checked(r: Outcome<Match>): Outcome<Match> {
    if r.Done? && Complete(r.result) then r else Thrown
  }

  /** At a token that nothing matches, evaluation finds no match. */
  lemma {:induction false} NothingAt(sym: Symbol, ts: seq<Token>, i: nat, strict: bool)
    requires i < |ts| && Defined(sym) && Foreign(sym, ts[i])
    ensures Evaluate(sym, ts, i, strict) == if strict then Thrown else Done(NoMatch, i)
    decreases sym, 1
  {
    match sym
    case Terminal(_) =>
    case Series(_) => NoSeriesAt(sym, ts, i, 0, []);
    case OptionOf(_) => NoSeriesAt(sym, ts, i, 0, []);
    case Alts(_) => NoAlternateAt(sym, ts, i, 0);
    case Several(_) => NoSeriesAt(sym, ts, i, 0, []);
  }

  lemma {:induction false} NoSeriesAt(sym: Symbol, ts: seq<Token>, i: nat, k: nat, children: seq<Match>)
    requires !sym.Terminal? && i < |ts| && Defined(sym) && Foreign(sym, ts[i]) && k < |sym.members|
    ensures EvaluateSeries(sym, ts, i, k, children, i) == Done(NoMatch, i)
    decreases sym, 0, |sym.members| - k
  {
    NothingAt(sym.members[k], ts, i, false);
    if k + 1 < |sym.members| {
      NoSeriesAt(sym, ts, i, k + 1, children + [NoMatch]);
    }
  }

  lemma {:induction false} NoAlternateAt(sym: Symbol, ts: seq<Token>, i: nat, k: nat)
    requires sym.Alts? && i < |ts| && Defined(sym) && Foreign(sym, ts[i]) && k <= |sym.members|
    ensures EvaluateAlternates(sym, ts, i, k) == Done(NoMatch, i)
    decreases sym, 0, |sym.members| - k
  {
    if k < |sym.members| {
      NothingAt(sym.members[k], ts, i, false);
      NoAlternateAt(sym, ts, i, k + 1);
    }
  }

  /** With a token added that nothing matches, exactly the results that have no series cut short stay; in place of
      the others there is an error. */
  lemma {:induction false} EndTokenTells(sym: Symbol, ts: seq<Token>, end: Token, i: nat, strict: bool)
    requires i < |ts| && Defined(sym) && Foreign(sym, end)
    ensures Evaluate(sym, ts + [end], i, strict) == Checked(Evaluate(sym, ts, i, strict))
    decreases |ts| - i, sym, 2
  {
    match sym
    case Terminal(_) =>
    case Series(_) => SeriesTells(sym, ts, end, i, 0, [], i);
    case OptionOf(_) => SeriesTells(sym, ts, end, i, 0, [], i);
    case Alts(_) => AlternatesTell(sym, ts, end, i, 0);
    case Several(_) => SeveralTell(sym, ts, end, i, [], i);
  }

  /** The same at any place: where the tokens end, a strict symbol is missed. */
  lemma {:induction false} MemberTells(sym: Symbol, ts: seq<Token>, end: Token, i: nat, strict: bool)
    requires i <= |ts| && Defined(sym) && Foreign(sym, end)
    ensures Evaluate(sym, ts + [end], i, strict)
         == if i == |ts| && strict then Thrown else Checked(Evaluate(sym, ts, i, strict))
    decreases |ts| - i, sym, 3
  {
    if i < |ts| {
      EndTokenTells(sym, ts, end, i, strict);
    } else {
      assert (ts + [end])[i] == end;
      NothingAt(sym, ts + [end], i, strict);
    }
  }

  lemma {:induction false} SeriesTells(sym: Symbol, ts: seq<Token>, end: Token, start: nat, k: nat,
                                       children: seq<Match>, i: nat)
    requires !sym.Terminal? && Defined(sym) && Foreign(sym, end) && start <= i <= |ts| && start < |ts|
    requires |children| == k < |sym.members| && AllComplete(children)
    ensures EvaluateSeries(sym, ts + [end], start, k, children, i)
            == Checked(EvaluateSeries(sym, ts, start, k, children, i))
    decreases |ts| - start, sym, 1, |sym.members| - k
  {
    var member := sym.members[k];
    var strict := sym.Series? && StrictSymbol(member) && i > start;
    var r := Evaluate(member, ts, i, strict);
    MemberTells(member, ts, end, i, strict);
    if r.Done? {
      var more := children + [r.result];
      if !Complete(r.result) {
        SeriesSpoilt(sym, ts, start, k, children, i);
      } else if k + 1 < |sym.members| && !(r.result.NoMatch? && StrictSymbol(member)) {
        SeriesTells(sym, ts, end, start, k + 1, more, r.next);
      } else {
        assert Complete(Node(sym, more)) <==> (sym.Series? ==> Whole(sym.members, Node(sym, more)));
      }
    }
  }

  /** Once a child has a series cut short, so has the tree. */
  lemma {:induction false} SeriesSpoilt(sym: Symbol, ts: seq<Token>, start: nat, k: nat, children: seq<Match>, i: nat)
    requires !sym.Terminal? && Defined(sym) && start <= i <= |ts| && |children| == k < |sym.members|
    requires var r := Evaluate(sym.members[k], ts, i, sym.Series? && StrictSymbol(sym.members[k]) && i > start);
             (!AllComplete(children) && i > start) || (r.Done? && !Complete(r.result))
    ensures var r := EvaluateSeries(sym, ts, start, k, children, i); r.Done? ==> !Complete(r.result)
    decreases |sym.members| - k
  {
    var member := sym.members[k];
    var r := Evaluate(member, ts, i, sym.Series? && StrictSymbol(member) && i > start);
    if r.Done? {
      var more := children + [r.result];
      SpoiltStays(children, r.result);
      if k + 1 < |sym.members| && !(r.result.NoMatch? && StrictSymbol(member)) {
        SeriesSpoilt(sym, ts, start, k + 1, more, r.next);
      }
    }
  }

  lemma {:induction false} SpoiltStays(children: seq<Match>, m: Match)
    requires !AllComplete(children) || !Complete(m)
    ensures !AllComplete(children + [m])
  {
    if Complete(m) {
      var j :| 0 <= j < |children| && !Complete(children[j]);
      assert (children + [m])[j] == children[j];
    } else {
      assert (children + [m])[|children|] == m;
    }
  }

  lemma {:induction false} AlternatesTell(sym: Symbol, ts: seq<Token>, end: Token, i: nat, k: nat)
    requires sym.Alts? && Defined(sym) && Foreign(sym, end) && i < |ts| && k <= |sym.members|
    ensures EvaluateAlternates(sym, ts + [end], i, k) == Checked(EvaluateAlternates(sym, ts, i, k))
    decreases |ts| - i, sym, 1, |sym.members| - k
  {
    if k < |sym.members| {
      var r := Evaluate(sym.members[k], ts, i, false);
      EndTokenTells(sym.members[k], ts, end, i, false);
      if r.Done? {
        if r.result.NoMatch? {
          AlternatesTell(sym, ts, end, i, k + 1);
        } else {
          assert Complete(Node(sym, [r.result])) <==> Complete(r.result) by {
            assert [r.result][0] == r.result;
          }
        }
      }
    }
  }

  lemma {:induction false} SeveralTell(sym: Symbol, ts: seq<Token>, end: Token, start: nat, rounds: seq<Match>, i: nat)
    requires sym.Several? && Defined(sym) && Foreign(sym, end) && start <= i <= |ts| && start < |ts|
    requires (rounds == [] <==> i == start) && AllComplete(rounds)
    ensures EvaluateSeveral(sym, ts + [end], start, rounds, i) == Checked(EvaluateSeveral(sym, ts, start, rounds, i))
    decreases |ts| - i, sym, 1, |sym.members| + 1
  {
    var r := EvaluateSeries(sym, ts, i, 0, [], i);
    if i < |ts| {
      SeriesTells(sym, ts, end, i, 0, [], i);
    } else {
      assert (ts + [end])[i] == end;
      NoSeriesAt(sym, ts + [end], i, 0, []);
      NoSeriesLeft(sym, ts, 0, []);
    }
    if r.Done? && !r.result.NoMatch? {
      if Complete(r.result) {
        SeveralTell(sym, ts, end, start, rounds + [r.result], r.next);
      } else {
        SeveralSpoilt(sym, ts, start, rounds, i);
      }
    }
  }

  lemma {:induction false} NoSeriesLeft(sym: Symbol, ts: seq<Token>, k: nat, children: seq<Match>)
    requires !sym.Terminal? && Defined(sym) && k < |sym.members|
    ensures EvaluateSeries(sym, ts, |ts|, k, children, |ts|) == Done(NoMatch, |ts|)
    decreases |sym.members| - k
  {
    if k + 1 < |sym.members| {
      NoSeriesLeft(sym, ts, k + 1, children + [NoMatch]);
    }
  }

  lemma {:induction false} SeveralSpoilt(sym: Symbol, ts: seq<Token>, start: nat, rounds: seq<Match>, i: nat)
    requires sym.Several? && Defined(sym) && start <= i <= |ts| && (rounds == [] <==> i == start)
    requires var r := EvaluateSeries(sym, ts, i, 0, [], i); !AllComplete(rounds) || (r.Done? && !Complete(r.result))
    ensures var r := EvaluateSeveral(sym, ts, start, rounds, i); r.Done? ==> !Complete(r.result)
    decreases |ts| - i
  {
    var r := EvaluateSeries(sym, ts, i, 0, [], i);
    if r.Done? && !r.result.NoMatch? {
      SpoiltStays(rounds, r.result);
      SeveralSpoilt(sym, ts, start, rounds + [r.result], r.next);
    }
  }

  /** A series of A and B is accepted when there is only A. */
  lemma {:induction false} CutShortAccepted(ts: seq<Token>)
    requires ts == [Token("name", "A", true)]
    ensures var sym := Series([Terminal("A"), Terminal("B")]);
            && Defined(sym)
            && Evaluate(sym, ts, 0, true) == Done(Node(sym, [Leaf(ts[0]), NoMatch]), 1)
            && !Complete(Evaluate(sym, ts, 0, true).result)
  {
    var sym := Series([Terminal("A"), Terminal("B")]);
    var first, children := Leaf(ts[0]), [Leaf(ts[0]), NoMatch];
    assert sym.members[0] == Terminal("A") && Evaluate(sym.members[0], ts, 0, false) == Done(first, 1);
    assert [] + [first] == [first] && [first] + [NoMatch] == children;
    assert EvaluateSeries(sym, ts, 0, 1, [first], 1) == Done(Node(sym, children), 1);
    assert EvaluateSeries(sym, ts, 0, 0, [], 0) == EvaluateSeries(sym, ts, 0, 1, [] + [first], 1);
    assert !Whole(sym.members, Node(sym, children));
  }
}
