/** The masks that mark which columns a query node uses
    (database-jones/Adapter/api/Query.js, MaskMarkerVisitor). */
module ColumnMasks {
  import opened Options
  import opened Endpoints
  import opened QueryTrees
  import B = BitMasks

  // ---------------------------------------------------------------- what the visitor marks

  /** The size of a mask in which one column has been set. */
  function LeafExtent(c: nat): nat {
    B.RADIX * B.Greater(1, (c + B.RADIX - 1) / B.RADIX)
  }

  /** The size of the mask of a node's used columns. */
  function Extent(p: Pred): nat
    decreases p, 0
  {
    match p
    case Compare(c, _, _) => LeafExtent(c)
    case Between(c, _, _) => LeafExtent(c)
    case IsNull(c) => LeafExtent(c)
    case IsNotNull(c) => LeafExtent(c)
    case And(ps) => Reach(ps, |ps|)
    case Or(ps) => Reach(ps, |ps|)
    case Not(q) => Extent(q)
  }

  /** That of a group after n of its operands. */
  function Reach(ps: seq<Pred>, n: nat): nat
    requires n <= |ps|
    decreases ps, n
  {
    if n == 0 then B.RADIX else B.Greater(Reach(ps, n - 1), Extent(ps[n - 1]))
  }

  /** The columns in that mask: a group takes over from its operands what its mask has room for. */
  function Marked(p: Pred): set<nat>
    decreases p, 0
  {
    match p
    case Compare(c, _, _) => {c}
    case Between(c, _, _) => {c}
    case IsNull(c) => {c}
    case IsNotNull(c) => {c}
    case And(ps) => MarkedUpTo(ps, |ps|)
    case Or(ps) => MarkedUpTo(ps, |ps|)
    case Not(q) => Marked(q)
  }

  function MarkedUpTo(ps: seq<Pred>, n: nat): (r: set<nat>)
    requires n <= |ps|
    ensures n == 0 ==> r == {}
    decreases ps, n
  {
    if n == 0 then {} else Cut(MarkedUpTo(ps, n - 1) + Marked(ps[n - 1]), Reach(ps, n))
  }

  function Cut(columns: set<nat>, size: nat): set<nat> {
    set c | c in columns && c < size
  }

  /** The columns a predicate fixes by comparing them for equality. The visitor means to collect
      those of the operands of AND, but looks for the operation code in the wrong place and never
      does: gathers is false for the code as it is, true for what it means. */
  function Fixed(p: Pred, gathers: bool): set<nat> {
    match p
    case Compare(c, op, _) => if op == Eq then {c} else {}
    case And(ps) => if gathers then set i, c | 0 <= i < |ps| && c in Fixed(ps[i], gathers) :: c else {}
    case _ => {}
  }

  // ---------------------------------------------------------------- which columns are kept

  /** Setting such a column adds a word to a mask that its size does not count. */
  predicate Aligned(c: nat) {
    c > 0 && c % B.RADIX == 0
  }

  /** A condition on one column, or NOT over one: its mask is no union. */
  predicate Bare(p: Pred) {
    match p
    case And(_) => false
    case Or(_) => false
    case Not(q) => Bare(q)
    case _ => true
  }

  ghost predicate MentionsGreater(p: Pred, c: nat) {
    exists d :: d in Used(p) && d > c
  }

  /** One of the first operands mentions a greater column. */
  ghost predicate HasGreater(ps: seq<Pred>, n: nat, c: nat)
    requires n <= |ps|
  {
    exists j {:trigger MentionsGreater(ps[j], c)} :: 0 <= j < n && MentionsGreater(ps[j], c)
  }

  /** Does a mask keep a column? A positive multiple of 24 is lost where a condition on it is put into a group
      none of whose earlier operands mentions a greater column. */
  ghost predicate Kept(p: Pred, c: nat)
    decreases p, 0
  {
    match p
    case And(ps) => exists i {:trigger KeptBy(ps, i, c)} :: 0 <= i < |ps| && KeptBy(ps, i, c)
    case Or(ps) => exists i {:trigger KeptBy(ps, i, c)} :: 0 <= i < |ps| && KeptBy(ps, i, c)
    case Not(q) => Kept(q, c)
    case _ => c in Used(p)
  }

  ghost predicate KeptBy(ps: seq<Pred>, i: nat, c: nat)
    requires i < |ps|
    decreases ps, 0
  {
    Kept(ps[i], c) && (Aligned(c) && Bare(ps[i]) ==> HasGreater(ps, i, c))
  }

  lemma {:induction false} LeafExtentAbove(c: nat, d: nat)
    ensures Aligned(c) ==> (LeafExtent(d) > c <==> d > c)
    ensures !Aligned(d) ==> LeafExtent(d) > d
  {
    var words := (d + B.RADIX - 1) / B.RADIX;
    assert B.RADIX * words >= d > B.RADIX * (words - 1) || d == 0;
    if Aligned(c) {
      var k := c / B.RADIX;
      assert c == B.RADIX * k && k >= 1;
    }
  }

  /** A mask reaches past a multiple of 24 exactly if a greater column is mentioned. */
  lemma {:induction false} ExtentAbove(p: Pred, c: nat)
    requires Aligned(c)
    ensures Extent(p) > c <==> MentionsGreater(p, c)
    decreases p, 0
  {
    match p
    case And(ps) => ReachAbove(ps, |ps|, c); GreaterUsed(p, ps, c);
    case Or(ps) => ReachAbove(ps, |ps|, c); GreaterUsed(p, ps, c);
    case Not(q) =>
      ExtentAbove(q, c);
      assert Used(p) == Used(q);
    case _ =>
      LeafExtentAbove(c, p.column);
      assert p.column in Used(p);
  }

  lemma {:induction false} GreaterUsed(p: Pred, ps: seq<Pred>, c: nat)
    requires p == And(ps) || p == Or(ps)
    ensures HasGreater(ps, |ps|, c) <==> MentionsGreater(p, c)
  {
    if HasGreater(ps, |ps|, c) {
      var j :| 0 <= j < |ps| && MentionsGreater(ps[j], c);
      var d :| d in Used(ps[j]) && d > c;
      assert d in Used(p);
    }
    if MentionsGreater(p, c) {
      var d :| d in Used(p) && d > c;
      var j :| 0 <= j < |ps| && d in Used(ps[j]);
      assert MentionsGreater(ps[j], c);
    }
  }

  lemma {:induction false} ReachAbove(ps: seq<Pred>, n: nat, c: nat)
    requires Aligned(c) && n <= |ps|
    ensures Reach(ps, n) > c <==> HasGreater(ps, n, c)
    decreases ps, n
  {
    if n > 0 {
      ReachAbove(ps, n - 1, c);
      ExtentAbove(ps[n - 1], c);
    }
  }

  lemma {:induction false} ReachRises(ps: seq<Pred>, i: nat, n: nat)
    requires i <= n <= |ps|
    ensures Reach(ps, i) <= Reach(ps, n)
    decreases n - i
  {
    if i < n {
      ReachRises(ps, i, n - 1);
    }
  }

  ghost predicate TakenFrom(ps: seq<Pred>, i: nat, c: nat) {
    i < |ps| && c in Marked(ps[i]) && c < Reach(ps, i + 1)
  }

  /** A group keeps a column if there is room for it when it comes from an operand. */
  lemma {:induction false} MarkedUpToIff(ps: seq<Pred>, n: nat, c: nat)
    requires n <= |ps|
    ensures c in MarkedUpTo(ps, n) <==> exists i: nat {:trigger TakenFrom(ps, i, c)} :: i < n && TakenFrom(ps, i, c)
    decreases n
  {
    if n > 0 {
      MarkedUpToIff(ps, n - 1, c);
      if i: nat :| i < n && TakenFrom(ps, i, c) {
        ReachRises(ps, i + 1, n);
      }
      if c in Marked(ps[n - 1]) && c < Reach(ps, n) {
        assert TakenFrom(ps, n - 1, c);
      }
    }
  }

  /** Only the masks of bare conditions have a column past their size, and only a multiple of 24. */
  lemma {:induction false} MarkedWithin(p: Pred, c: nat)
    requires c in Marked(p)
    ensures c < Extent(p) || (Bare(p) && Aligned(c) && Used(p) == {c})
  {
    match p
    case And(ps) => MarkedUpToWithin(ps, |ps|, c);
    case Or(ps) => MarkedUpToWithin(ps, |ps|, c);
    case Not(q) => MarkedWithin(q, c);
    case _ => LeafExtentAbove(c, c);
  }

  lemma {:induction false} MarkedUpToWithin(ps: seq<Pred>, n: nat, c: nat)
    requires n <= |ps| && c in MarkedUpTo(ps, n)
    ensures c < Reach(ps, n)
  {
  }

  /** A column is marked exactly if it is kept all the way up. */
  lemma {:induction false} MarkedIff(p: Pred, c: nat)
    ensures c in Marked(p) <==> Kept(p, c)
    decreases p, 0
  {
    match p
    case And(ps) => MarkedGroup(p, ps, c);
    case Or(ps) => MarkedGroup(p, ps, c);
    case Not(q) => MarkedIff(q, c);
    case _ =>
  }

  lemma {:induction false} MarkedGroup(p: Pred, ps: seq<Pred>, c: nat)
    requires p == And(ps) || p == Or(ps)
    ensures c in Marked(p) <==> Kept(p, c)
    decreases ps, 0
  {
    MarkedUpToIff(ps, |ps|, c);
    forall i: nat | i < |ps|
      ensures KeptBy(ps, i, c) <==> TakenFrom(ps, i, c)
    {
      MarkedIff(ps[i], c);
      if c in Marked(ps[i]) {
        MarkedRoom(ps, i, c);
      }
    }
  }

  lemma {:induction false} MarkedRoom(ps: seq<Pred>, i: nat, c: nat)
    requires i < |ps| && c in Marked(ps[i])
    ensures c < Reach(ps, i + 1) <==> (Aligned(c) && Bare(ps[i]) ==> HasGreater(ps, i, c))
  {
    MarkedWithin(ps[i], c);
    if Aligned(c) {
      ReachAbove(ps, i, c);
      ExtentAbove(ps[i], c);
      BareUses(ps[i]);
    }
  }

  lemma {:induction false} BareUses(p: Pred)
    ensures Bare(p) ==> exists c :: Used(p) == Marked(p) == {c}
  {
    match p
    case Not(q) => BareUses(q);
    case And(_) =>
    case Or(_) =>
    case _ => assert Used(p) == Marked(p) == {p.column};
  }

  /** A group over one column keeps it only if it is no multiple of 24. */
  lemma {:induction false} SingleMarked(p: Pred, c: nat)
    requires (p.And? || p.Or?) && Used(p) <= {c} && c in Marked(p)
    ensures !Aligned(c)
  {
    MarkedWithin(p, c);
    if Aligned(c) {
      ExtentAbove(p, c);
    }
  }

  // ---------------------------------------------------------------- when nothing is lost

  /** Nothing is marked that is not mentioned, and only positive multiples of 24 can be missing. */
  lemma {:induction false} MarkedUsed(p: Pred, c: nat)
    ensures c in Marked(p) ==> c in Used(p)
    ensures c in Used(p) && !Aligned(c) ==> c in Marked(p)
    decreases p, 1
  {
    match p
    case And(ps) => MarkedUsedGroup(p, ps, c);
    case Or(ps) => MarkedUsedGroup(p, ps, c);
    case Not(q) => MarkedUsed(q, c);
    case _ =>
  }

  lemma {:induction false} MarkedUsedGroup(p: Pred, ps: seq<Pred>, c: nat)
    requires p == And(ps) || p == Or(ps)
    ensures c in Marked(p) ==> c in Used(p)
    ensures c in Used(p) && !Aligned(c) ==> c in Marked(p)
    decreases p, 0
  {
    MarkedUpToIff(ps, |ps|, c);
    forall i: nat | i < |ps|
      ensures TakenFrom(ps, i, c) ==> c in Used(ps[i])
      ensures c in Used(ps[i]) && !Aligned(c) ==> TakenFrom(ps, i, c)
    {
      MarkedUsed(ps[i], c);
      if c in Marked(ps[i]) {
        MarkedWithin(ps[i], c);
      }
    }
  }

  /** The masks are exact unless a positive multiple of 24 is mentioned. */
  lemma {:induction false} NoneAligned(p: Pred)
    requires forall c :: c in Used(p) ==> !Aligned(c)
    ensures Marked(p) == Used(p)
  {
    forall c
      ensures c in Marked(p) <==> c in Used(p)
    {
      MarkedUsed(p, c);
    }
  }

  ghost predicate ExactBelow(n: nat) {
    forall p {:trigger Marked(p)} :: (forall c :: c in Used(p) ==> c < n) ==> Marked(p) == Used(p)
  }

  /** column k = 1 AND column 0 = 2. */
  function EqualAnd(k: nat): Pred {
    And([Compare(k, Eq, Literal(1.0)), Compare(0, Eq, Literal(2.0))])
  }

  /** Column 24 is lost from the mask of an AND that mentions it first. */
  lemma {:induction false} LosesColumn(k: nat)
    requires Aligned(k)
    ensures Used(EqualAnd(k)) == {0, k} && Marked(EqualAnd(k)) == {0}
  {
    var p := EqualAnd(k);
    var first, second := p.preds[0], p.preds[1];
    assert Used(first) == {k} && Used(second) == {0};
    forall c
      ensures c in Used(p) <==> c == 0 || c == k
    {
      if c == k { assert c in Used(p.preds[0]); }
      if c == 0 { assert c in Used(p.preds[1]); }
    }
    forall c
      ensures c in Marked(p) <==> c == 0
    {
      MarkedIff(p, c);
      MarkedUsed(p, c);
      if c == k {
        assert !HasGreater(p.preds, 0, k);
        assert !KeptBy(p.preds, 0, k) && !KeptBy(p.preds, 1, k);
      }
    }
  }

  /** All masks over the first n columns of a table are exact exactly if n is at most 24. */
  lemma {:induction false} ExactBelowIff(n: nat)
    ensures ExactBelow(n) <==> n <= B.RADIX
  {
    if n <= B.RADIX {
      forall p | forall c :: c in Used(p) ==> c < n
        ensures Marked(p) == Used(p)
      {
        NoneAligned(p);
      }
    } else {
      var p := EqualAnd(B.RADIX);
      LosesColumn(B.RADIX);
      assert B.RADIX in Used(p) && B.RADIX !in Marked(p);
    }
  }

  // ---------------------------------------------------------------- the visitor

  /** Does the mask hold these columns? */
  ghost predicate HasColumns(mask: B.BitMask, columns: set<nat>)
    reads mask
  {
    mask.Valid() && forall c: nat :: B.Contains(mask.mask, c) <==> c in columns
  }

  /** markUsed: new masks in which a column has been set. */
  method MarkUsed(c: nat) returns (used: B.BitMask, equal: B.BitMask)
    ensures fresh(used) && fresh(equal) && used != equal
    ensures HasColumns(used, {c}) && used.size == LeafExtent(c) && HasColumns(equal, {})
  {
    used := new B.BitMask(None);
    equal := new B.BitMask(None);
    used.Set(c);
  }

  /** Marks a node after its operands. */
  method MarkMasks(p: Pred) returns (used: B.BitMask, equal: B.BitMask)
    ensures fresh(used) && fresh(equal) && used != equal
    ensures HasColumns(used, Marked(p)) && used.size == Extent(p) && HasColumns(equal, Fixed(p, false))
    decreases p, 0
  {
    match p {
      case Compare(c, op, _) =>
        used, equal := MarkUsed(c);
        if op == Eq {
          equal.Set(c);
        }
      case Between(c, _, _) => used, equal := MarkUsed(c);
      case IsNull(c) => used, equal := MarkUsed(c);
      case IsNotNull(c) => used, equal := MarkUsed(c);
      case Not(q) =>
        used, equal := MarkMasks(q);
        equal := new B.BitMask(None);
      case And(ps) => used, equal := MarkNary(ps);
      case Or(ps) => used, equal := MarkNary(ps);
    }
  }

  method MarkNary(ps: seq<Pred>) returns (used: B.BitMask, equal: B.BitMask)
    ensures fresh(used) && fresh(equal) && used != equal
    ensures HasColumns(used, MarkedUpTo(ps, |ps|)) && used.size == Reach(ps, |ps|) && HasColumns(equal, {})
    decreases ps, 0
  {
    used := new B.BitMask(None);
    equal := new B.BitMask(None);
    for i := 0 to |ps|
      invariant fresh(used) && fresh(equal) && used != equal
      invariant HasColumns(used, MarkedUpTo(ps, i)) && used.size == Reach(ps, i) && HasColumns(equal, {})
    {
      var operand, operandEqual := MarkMasks(ps[i]);
      used.OrWith(operand);
    }
  }
}
