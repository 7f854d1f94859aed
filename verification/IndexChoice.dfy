/** The index chosen for a predicate by the columns it uses and fixes
    (database-jones/Adapter/common/DBTableHandler.js). */
module IndexChoice {
  import opened Endpoints
  import opened QueryTrees
  import opened ColumnMasks

  // ---------------------------------------------------------------- masks

  /** All rows that satisfy a predicate have the same value in a column it fixes. */
  lemma {:induction false} RowsAgreeOnFixed(p: Pred, gathers: bool, params: Params, row: Row, other: Row, c: nat)
    requires Selects(p, params, row) && Selects(p, params, other) && c in Fixed(p, gathers)
    ensures row(c) == other(c) && row(c).Val?
  {
    match p
    case And(ps) =>
      var i :| 0 <= i < |ps| && c in Fixed(ps[i], gathers);
      assert Eval(ps[i], params, row).True? && Eval(ps[i], params, other).True?;
      RowsAgreeOnFixed(ps[i], gathers, params, row, other, c);
    case _ =>
  }

  /** Of the comparisons exactly those for equality fix their column: any other selects rows that
      differ there. */
  lemma {:induction false} ComparisonFixes(c: nat, op: Comparator, operand: Operand, gathers: bool, params: Params)
      returns (row: Row, other: Row)
    ensures c in Fixed(Compare(c, op, operand), gathers) <==> op == Eq
    ensures op != Eq ==>
              && Selects(Compare(c, op, operand), params, row) && Selects(Compare(c, op, operand), params, other)
              && row(c) != other(c)
  {
    var n := ValueOf(operand, params);
    var step := if op == Lt || op == Le then -1.0 else 1.0;
    row, other := (d: nat) => Val(n + step), (d: nat) => Val(n + 2.0 * step);
  }

  /** What is selected does not depend on columns that are not used. */
  lemma {:induction false} OnlyUsedMatter(p: Pred, params: Params, row: Row, other: Row)
    requires forall c :: c in Used(p) ==> row(c) == other(c)
    ensures Eval(p, params, row) == Eval(p, params, other)
  {
    match p
    case And(ps) => OperandsSame(p, ps, params, row, other);
    case Or(ps) => OperandsSame(p, ps, params, row, other);
    case Not(q) => OnlyUsedMatter(q, params, row, other);
    case _ =>
  }

  lemma {:induction false} OperandsSame(p: Pred, ps: seq<Pred>, params: Params, row: Row, other: Row)
    requires (p == And(ps) || p == Or(ps)) && forall c :: c in Used(p) ==> row(c) == other(c)
    ensures forall i :: 0 <= i < |ps| ==> Eval(ps[i], params, row) == Eval(ps[i], params, other)
  {
    forall i | 0 <= i < |ps|
      ensures Eval(ps[i], params, row) == Eval(ps[i], params, other)
    {
      assert forall c :: c in Used(ps[i]) ==> c in Used(p);
      OnlyUsedMatter(ps[i], params, row, other);
    }
  }

  /** What the masks of one node hold. */
  datatype Masks = Masks(used: set<nat>, equal: set<nat>)

  // ---------------------------------------------------------------- indexes

  datatype Index = Index(columns: seq<nat>, isUnique: bool, isOrdered: bool)

  function ColumnsOf(index: Index): set<nat> {
    set c | c in index.columns
  }

  predicate ValidIndexes(indexes: seq<Index>) {
    forall i :: 0 <= i < |indexes| ==> indexes[i].columns != []
  }

  /** The first unique index whose columns are all fixed. */
  method ChooseUniqueIndexForPredicate(masks: Masks, indexes: seq<Index>) returns (chosen: int)
    ensures -1 <= chosen < |indexes|
    ensures chosen >= 0 ==> indexes[chosen].isUnique && ColumnsOf(indexes[chosen]) <= masks.equal
    ensures forall i :: 0 <= i < (if chosen < 0 then |indexes| else chosen) ==>
              !(indexes[i].isUnique && ColumnsOf(indexes[i]) <= masks.equal)
  {
    for i := 0 to |indexes|
      invariant forall k :: 0 <= k < i ==> !(indexes[k].isUnique && ColumnsOf(indexes[k]) <= masks.equal)
    {
      if indexes[i].isUnique && masks.equal * ColumnsOf(indexes[i]) == ColumnsOf(indexes[i]) {
        return i;
      }
    }
    return -1;
  }

  /** Rows of a table differ in the columns of a unique index unless one of them is NULL there. */
  ghost predicate UniqueIn(table: set<nat>, rows: nat -> Row, index: Index) {
    forall r, q :: r in table && q in table && r != q ==>
      exists c :: c in index.columns && (rows(r)(c) != rows(q)(c) || rows(r)(c).Null?)
  }

  /** At most one row of the table satisfies a predicate that fixes a unique index. */
  lemma {:induction false} UniqueIndexFindsOne(p: Pred, gathers: bool, params: Params, table: set<nat>,
                                               rows: nat -> Row, index: Index, r: nat, q: nat)
    requires UniqueIn(table, rows, index) && ColumnsOf(index) <= Fixed(p, gathers)
    requires r in table && q in table && Selects(p, params, rows(r)) && Selects(p, params, rows(q))
    ensures r == q
  {
    forall c | c in index.columns
      ensures rows(r)(c) == rows(q)(c) && rows(r)(c).Val?
    {
      assert c in ColumnsOf(index);
      RowsAgreeOnFixed(p, gathers, params, rows(r), rows(q), c);
    }
  }

  // ---------------------------------------------------------------- ordered indexes

  /** A point for each key part used from the first on, and one more for each of them that is fixed. */
  function Score(masks: Masks, columns: seq<nat>): nat {
    if columns == [] || columns[0] !in masks.used then 0
    else (if columns[0] in masks.equal then 2 else 1) + Score(masks, columns[1..])
  }

  /** The first n columns of an index are used, and the one after them, if there is one, is not. */
  predicate Leads(masks: Masks, columns: seq<nat>, n: nat) {
    && n <= |columns| && (forall k :: 0 <= k < n ==> columns[k] in masks.used)
    && (n < |columns| ==> columns[n] !in masks.used)
  }

  /** Which of the first n columns are fixed. */
  function FixedAmong(masks: Masks, columns: seq<nat>, n: nat): set<nat> {
    set k: nat | k < n && k < |columns| && columns[k] in masks.equal
  }

  lemma {:induction false} ScoreCounts(masks: Masks, columns: seq<nat>, n: nat)
    requires n <= |columns| && forall k :: 0 <= k < n ==> columns[k] in masks.used
    ensures Score(masks, columns) == n + |FixedAmong(masks, columns, n)| + Score(masks, columns[n..])
  {
    if n == 0 {
      assert FixedAmong(masks, columns, n) == {} && columns[0..] == columns;
    } else {
      var m := n - 1;
      ScoreCounts(masks, columns, m);
      assert columns[m..][1..] == columns[n..];
      assert FixedAmong(masks, columns, n)
          == FixedAmong(masks, columns, m) + if columns[m] in masks.equal then {m} else {};
    }
  }

  /** The score is the number of columns up to the first that is not used, and that of those among
      them that are fixed. */
  method ScoreOf(masks: Masks, columns: seq<nat>) returns (score: nat)
    requires columns != []
    ensures score == Score(masks, columns)
    ensures forall n: nat :: Leads(masks, columns, n) ==> score == n + |FixedAmong(masks, columns, n)|
  {
    score := 0;
    var i, point := 0, true;
    while point && i < |columns|
      invariant i <= |columns|
      invariant score + (if point then Score(masks, columns[i..]) else 0) == Score(masks, columns)
      decreases |columns| - i, point
    {
      assert columns[i..][1..] == columns[i + 1..];
      point := columns[i] in masks.used;
      if point {
        score := score + 1;
        if columns[i] in masks.equal {
          score := score + 1;
        }
      }
      i := i + 1;
    }
    forall n: nat | Leads(masks, columns, n)
      ensures score == n + |FixedAmong(masks, columns, n)|
    {
      ScoreCounts(masks, columns, n);
    }
  }

  predicate LeadingUsed(masks: Masks, index: Index) {
    index.isOrdered && index.columns != [] && index.columns[0] in masks.used
  }

  /** The first ordered index of the highest score; none exactly if no ordered index has its first
      column used. */
  method ChooseOrderedIndexForPredicate(masks: Masks, indexes: seq<Index>) returns (chosen: int)
    requires ValidIndexes(indexes)
    ensures -1 <= chosen < |indexes|
    ensures chosen < 0 <==> forall i :: 0 <= i < |indexes| ==> !LeadingUsed(masks, indexes[i])
    ensures chosen >= 0 ==>
              && LeadingUsed(masks, indexes[chosen])
              && forall i :: 0 <= i < |indexes| && indexes[i].isOrdered ==>
                   Score(masks, indexes[i].columns) <= Score(masks, indexes[chosen].columns)
                   && (i < chosen ==> Score(masks, indexes[i].columns) < Score(masks, indexes[chosen].columns))
  {
    var highScore := 0;
    chosen := -1;
    for i := 0 to |indexes|
      invariant -1 <= chosen < i
      invariant highScore == if chosen < 0 then 0 else Score(masks, indexes[chosen].columns)
      invariant chosen >= 0 ==> indexes[chosen].isOrdered && highScore > 0
      invariant forall k :: 0 <= k < i && indexes[k].isOrdered ==>
                  Score(masks, indexes[k].columns) <= highScore
                  && (k < chosen ==> Score(masks, indexes[k].columns) < highScore)
    {
      if indexes[i].isOrdered {
        var score := ScoreOf(masks, indexes[i].columns);
        if score > highScore {
          highScore, chosen := score, i;
        }
      }
    }
    forall i | 0 <= i < |indexes|
      ensures LeadingUsed(masks, indexes[i]) <==> indexes[i].isOrdered && Score(masks, indexes[i].columns) > 0
    {
    }
  }
}
