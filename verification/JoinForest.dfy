/** The rows that the LEFT OUTER JOIN of a read returns for a forest of related objects
    (jones-mysql/impl/MySQLConnection.js, initializeProjection). */
module JoinForest {
  import opened JoinRows

  /** An object with its related objects: kids[c] are the ones in sector c. */
  datatype Tree = Tree(key: Key, data: seq<Cell>, kids: seq<Siblings>) {
    function Related(c: nat): seq<Tree> {
      if c < |kids| then kids[c].trees else []
    }
  }

  datatype Siblings = Siblings(trees: seq<Tree>)

  ghost predicate DistinctKeys(trees: seq<Tree>) {
    forall i, j :: 0 <= i < j < |trees| ==> trees[i].key != trees[j].key
  }

  /** The tree is an object of sector s with its related objects, told apart by their keys. */
  ghost predicate Fits(t: Table, s: nat, tree: Tree)
    requires ValidTable(t)
    decreases tree
  {
    && s < |t| && |tree.key| == t[s].keyCount && !IsNullKey(tree.key) && |tree.data| == t[s].dataCount
    && |tree.kids| == |t|
    && forall c {:trigger SiblingsFit(t, s, c, tree.kids[c].trees)} ::
         0 <= c < |t| ==> SiblingsFit(t, s, c, tree.kids[c].trees)
  }

  ghost predicate SiblingsFit(t: Table, s: nat, c: nat, trees: seq<Tree>)
    requires ValidTable(t) && c < |t|
    decreases trees
  {
    && DistinctKeys(trees)
    && (c == 0 || t[c].parent != s ==> trees == [])
    && (!t[c].toMany ==> |trees| <= 1)
    && forall k {:trigger Fits(t, c, trees[k])} :: 0 <= k < |trees| ==> Fits(t, c, trees[k])
  }

  ghost predicate ForestFits(t: Table, forest: seq<Tree>)
    requires ValidTable(t)
  {
    DistinctKeys(forest) && forall k {:trigger Fits(t, 0, forest[k])} :: 0 <= k < |forest| ==> Fits(t, 0, forest[k])
  }

  // ---------------------------------------------------------------- the join

  /** A row of the join of the first tables: the object picked from each, if any. */
  type Picks = seq<Pick>

  datatype Pick = Missing | Picked(tree: Tree)

  /** One more table is joined: every related object gives a row, and if there is none,
      one row without. */
  ghost function Extend(t: Table, p: Picks): seq<Picks>
    requires ValidTable(t) && 0 < |p| < |t|
  {
    var c := |p|;
    var parent := p[t[c].parent];
    if parent.Missing? || parent.tree.Related(c) == [] then [p + [Missing]]
    else
      var kids := parent.tree.Related(c);
      seq(|kids|, k requires 0 <= k < |kids| => p + [Picked(kids[k])])
  }

  ghost predicate Wide(ps: seq<Picks>, width: nat) {
    forall i {:trigger ps[i]} :: 0 <= i < |ps| ==> |ps[i]| == width
  }

  ghost function LeftOuterJoin(t: Table, ps: seq<Picks>, width: nat): (r: seq<Picks>)
    requires ValidTable(t) && 0 < width < |t| && Wide(ps, width)
    ensures Wide(r, width + 1)
  {
    if ps == [] then [] else LeftOuterJoin(t, ps[..|ps| - 1], width) + Extend(t, ps[|ps| - 1])
  }

  /** The join of the first width tables, in the order of the sectors. */
  ghost function Joined(t: Table, forest: seq<Tree>, width: nat): (r: seq<Picks>)
    requires ValidTable(t) && 0 < width <= |t|
    ensures Wide(r, width)
  {
    if width == 1 then seq(|forest|, k requires 0 <= k < |forest| => [Picked(forest[k])])
    else LeftOuterJoin(t, Joined(t, forest, width - 1), width - 1)
  }

  function Nulls(n: nat): seq<Cell> {
    seq(n, _ => Null)
  }

  ghost function KeyCells(t: Table, s: nat, pick: Pick): Key
    requires s < |t|
  {
    if pick.Missing? then Nulls(t[s].keyCount) else pick.tree.key
  }

  ghost function DataCells(t: Table, s: nat, pick: Pick): seq<Cell>
    requires s < |t|
  {
    if pick.Missing? then Nulls(t[s].dataCount) else pick.tree.data
  }

  /** The selected columns, sector by sector. */
  ghost function Layout(t: Table, p: Picks): Row
    requires |p| <= |t|
  {
    if p == [] then []
    else
      var s := |p| - 1;
      Layout(t, p[..s]) + KeyCells(t, s, p[s]) + DataCells(t, s, p[s])
  }

  ghost function Layouts(t: Table, ps: seq<Picks>): seq<Row>
    requires Wide(ps, |t|)
  {
    seq(|ps|, i requires 0 <= i < |ps| => Layout(t, ps[i]))
  }

  /** The rows of the query for a forest. */
  ghost function ResultRows(t: Table, forest: seq<Tree>): seq<Row>
    requires ValidTable(t)
  {
    Layouts(t, Joined(t, forest, |t|))
  }

  // ---------------------------------------------------------------- what a row of the join is

  /** Each pick is an object of its sector, related to the pick of the parent sector, and it is
      missing only if there is none. */
  ghost predicate Proper(t: Table, forest: seq<Tree>, p: Picks)
    requires ValidTable(t)
  {
    && 0 < |p| <= |t| && p[0].Picked? && p[0].tree in forest
    && (forall s {:trigger Fits(t, s, p[s].tree)} :: 0 <= s < |p| && p[s].Picked? ==> Fits(t, s, p[s].tree))
    && (forall s {:trigger Chosen(t, p, s)} :: 0 < s < |p| ==> Chosen(t, p, s))
  }

  ghost predicate Chosen(t: Table, p: Picks, s: nat)
    requires ValidTable(t) && 0 < s < |p| <= |t|
  {
    var parent := p[t[s].parent];
    if p[s].Missing? then parent.Picked? ==> parent.tree.Related(s) == []
    else parent.Picked? && p[s].tree in parent.tree.Related(s)
  }

  lemma {:induction false} ProperExtension(t: Table, forest: seq<Tree>, p: Picks, k: nat)
    requires ValidTable(t) && Proper(t, forest, p) && |p| < |t| && k < |Extend(t, p)|
    ensures Proper(t, forest, Extend(t, p)[k])
  {
    var q := Extend(t, p)[k];
    var c := |p|;
    assert q[..c] == p;
    assert forall s :: 0 <= s < c ==> q[s] == p[s];
    forall s | 0 < s < |q|
      ensures Chosen(t, q, s)
    {
      if s < c {
        assert Chosen(t, p, s);
      }
    }
    var parent := p[t[c].parent];
    if parent.Picked? {
      assert Fits(t, t[c].parent, parent.tree);
      assert SiblingsFit(t, t[c].parent, c, parent.tree.kids[c].trees);
    }
  }

  ghost predicate AllProper(t: Table, forest: seq<Tree>, ps: seq<Picks>, width: nat)
    requires ValidTable(t)
  {
    Wide(ps, width) && forall i {:trigger Proper(t, forest, ps[i])} :: 0 <= i < |ps| ==> Proper(t, forest, ps[i])
  }

  lemma {:induction false} ProperJoin(t: Table, forest: seq<Tree>, ps: seq<Picks>, width: nat)
    requires ValidTable(t) && 0 < width < |t| && AllProper(t, forest, ps, width)
    ensures AllProper(t, forest, LeftOuterJoin(t, ps, width), width + 1)
  {
    if ps != [] {
      var n := |ps| - 1;
      forall i | 0 <= i < n
        ensures Proper(t, forest, ps[..n][i])
      {
        assert Proper(t, forest, ps[i]);
      }
      ProperJoin(t, forest, ps[..n], width);
      assert Proper(t, forest, ps[n]);
      var before, block := LeftOuterJoin(t, ps[..n], width), Extend(t, ps[n]);
      forall i | 0 <= i < |before + block|
        ensures Proper(t, forest, (before + block)[i])
      {
        if i < |before| {
          assert Proper(t, forest, before[i]);
        } else {
          ProperExtension(t, forest, ps[n], i - |before|);
        }
      }
    }
  }

  lemma {:induction false} JoinedProper(t: Table, forest: seq<Tree>, width: nat)
    requires ValidTable(t) && ForestFits(t, forest) && 0 < width <= |t|
    ensures AllProper(t, forest, Joined(t, forest, width), width)
  {
    if width == 1 {
      forall i | 0 <= i < |forest|
        ensures Proper(t, forest, Joined(t, forest, 1)[i])
      {
        assert forest[i] in forest;
      }
    } else {
      JoinedProper(t, forest, width - 1);
      ProperJoin(t, forest, Joined(t, forest, width - 1), width - 1);
    }
  }

  // ---------------------------------------------------------------- the cells of a row

  lemma {:induction false} LayoutLength(t: Table, forest: seq<Tree>, p: Picks, n: nat)
    requires ValidTable(t) && Proper(t, forest, p) && n <= |p|
    ensures |Layout(t, p[..n])| == if n < |t| then t[n].offset else Width(t)
  {
    if n > 0 {
      LayoutLength(t, forest, p, n - 1);
      assert p[..n][..n - 1] == p[..n - 1];
      assert p[n - 1].Picked? ==> Fits(t, n - 1, p[n - 1].tree);
      assert n < |t| ==> Follows(t, n);
    }
  }

  lemma {:induction false} LayoutPrefix(t: Table, p: Picks, n: nat)
    requires |p| <= |t| && n <= |p|
    ensures Layout(t, p[..n]) <= Layout(t, p)
  {
    if n == |p| {
      assert p[..n] == p;
    } else {
      LayoutPrefix(t, p[..|p| - 1], n);
      assert p[..|p| - 1][..n] == p[..n];
    }
  }

  lemma {:induction false} Parts(row: Row, before: Row, key: Key, data: seq<Cell>)
    requires before + key + data <= row
    ensures var middle := |before| + |key|;
            row[|before|..middle] == key && row[middle..middle + |data|] == data
  {
    var part := before + key + data;
    var middle := |before| + |key|;
    assert row[|before|..middle] == part[|before|..middle];
    assert row[middle..|part|] == part[middle..|part|];
  }

  lemma {:induction false} CellsAt(t: Table, row: Row, s: nat, before: Row, key: Key, data: seq<Cell>)
    requires IsRow(t, row) && s < |t| && before + key + data <= row
    requires |before| == t[s].offset && |key| == t[s].keyCount && |data| == t[s].dataCount
    ensures KeyOf(t, row, s) == key && DataOf(t, row, s) == data
  {
    SectorWithin(t, s);
    Parts(row, before, key, data);
  }

  lemma {:induction false} RowWidth(t: Table, forest: seq<Tree>, p: Picks)
    requires ValidTable(t) && Proper(t, forest, p) && |p| == |t|
    ensures IsRow(t, Layout(t, p))
  {
    LayoutLength(t, forest, p, |t|);
    assert p[..|t|] == p;
  }

  lemma {:induction false} RowCells(t: Table, forest: seq<Tree>, p: Picks, s: nat)
    requires ValidTable(t) && Proper(t, forest, p) && s < |p| == |t|
    ensures IsRow(t, Layout(t, p))
    ensures KeyOf(t, Layout(t, p), s) == KeyCells(t, s, p[s])
    ensures DataOf(t, Layout(t, p), s) == DataCells(t, s, p[s])
    ensures Present(t, Layout(t, p), s) <==> p[s].Picked?
  {
    var row, before := Layout(t, p), Layout(t, p[..s]);
    RowWidth(t, forest, p);
    LayoutSplit(t, forest, p, s, row, before);
    PickCells(t, forest, p, s);
    CellsAt(t, row, s, before, KeyCells(t, s, p[s]), DataCells(t, s, p[s]));
  }

  lemma {:induction false} LayoutSplit(t: Table, forest: seq<Tree>, p: Picks, s: nat, row: Row, before: Row)
    requires ValidTable(t) && Proper(t, forest, p) && s < |p| && row == Layout(t, p) && before == Layout(t, p[..s])
    ensures |before| == t[s].offset
    ensures before + KeyCells(t, s, p[s]) + DataCells(t, s, p[s]) <= row
  {
    LayoutLength(t, forest, p, s);
    LayoutPrefix(t, p, s + 1);
    assert p[..s + 1][..s] == p[..s];
  }

  lemma {:induction false} PickCells(t: Table, forest: seq<Tree>, p: Picks, s: nat)
    requires ValidTable(t) && Proper(t, forest, p) && s < |p|
    ensures |KeyCells(t, s, p[s])| == t[s].keyCount && |DataCells(t, s, p[s])| == t[s].dataCount
    ensures IsNullKey(KeyCells(t, s, p[s])) <==> p[s].Missing?
  {
    assert p[s].Picked? ==> Fits(t, s, p[s].tree);
  }

  // ---------------------------------------------------------------- paths

  ghost function Above(t: Table, p: Picks, s: nat): Path
    requires ValidTable(t) && s < |p| <= |t|
    decreases s, 0
  {
    if s == 0 then [] else Way(t, p, t[s].parent)
  }

  /** The keys from the root of the row down to its object in sector s. */
  ghost function Way(t: Table, p: Picks, s: nat): Path
    requires ValidTable(t) && s < |p| <= |t|
    decreases s, 1
  {
    Above(t, p, s) + [KeyCells(t, s, p[s])]
  }

  lemma {:induction false} RowPath(t: Table, forest: seq<Tree>, p: Picks, s: nat)
    requires ValidTable(t) && Proper(t, forest, p) && s < |p| == |t|
    ensures IsRow(t, Layout(t, p))
    ensures ParentPath(t, Layout(t, p), s) == Above(t, p, s) && PathOf(t, Layout(t, p), s) == Way(t, p, s)
  {
    RowCells(t, forest, p, s);
    if s > 0 {
      RowPath(t, forest, p, t[s].parent);
    }
  }

  lemma {:induction false} KeyTells(trees: seq<Tree>, a: Tree, b: Tree)
    requires DistinctKeys(trees) && a in trees && b in trees && a.key == b.key
    ensures a == b
  {
    var i :| 0 <= i < |trees| && trees[i] == a;
    var j :| 0 <= j < |trees| && trees[j] == b;
  }

  /** The keys down to an object determine it. */
  lemma {:induction false} SameWay(t: Table, forest: seq<Tree>, p: Picks, q: Picks, s: nat)
    requires ValidTable(t) && ForestFits(t, forest) && Proper(t, forest, p) && Proper(t, forest, q)
    requires s < |p| && s < |q| && p[s].Picked? && Way(t, p, s) == Way(t, q, s)
    ensures q[s] == p[s]
  {
    assert Way(t, p, s)[|Way(t, p, s)| - 1] == Way(t, q, s)[|Way(t, q, s)| - 1];
    assert Fits(t, s, p[s].tree);
    assert q[s].Picked? by {
      assert !IsNullKey(p[s].tree.key) && IsNullKey(Nulls(t[s].keyCount));
    }
    if s == 0 {
      KeyTells(forest, p[0].tree, q[0].tree);
    } else {
      assert Way(t, p, s)[..|Way(t, p, s)| - 1] == Above(t, p, s);
      assert Way(t, q, s)[..|Way(t, q, s)| - 1] == Above(t, q, s);
      assert Chosen(t, p, s) && Chosen(t, q, s);
      SameWay(t, forest, p, q, t[s].parent);
      var parent := p[t[s].parent].tree;
      assert Fits(t, t[s].parent, parent);
      assert SiblingsFit(t, t[s].parent, s, parent.kids[s].trees);
      KeyTells(parent.Related(s), p[s].tree, q[s].tree);
    }
  }

  // ---------------------------------------------------------------- the rows are coherent

  lemma {:induction false} RowNested(t: Table, forest: seq<Tree>, p: Picks)
    requires ValidTable(t) && Proper(t, forest, p) && |p| == |t|
    ensures IsRow(t, Layout(t, p)) && Nested(t, Layout(t, p))
  {
    RowCells(t, forest, p, 0);
    forall s | 0 < s < |t| && Present(t, Layout(t, p), s)
      ensures Present(t, Layout(t, p), t[s].parent)
    {
      RowCells(t, forest, p, s);
      RowCells(t, forest, p, t[s].parent);
      assert Chosen(t, p, s);
    }
  }

  /** Of the same object, rows show the same data and the same or equally many related objects. */
  lemma {:induction false} SectorAgrees(t: Table, forest: seq<Tree>, p: Picks, q: Picks, s: nat)
    requires ValidTable(t) && ForestFits(t, forest) && Proper(t, forest, p) && Proper(t, forest, q)
    requires 0 < s < |t| == |p| == |q|
    requires p[t[s].parent].Picked? && Above(t, p, s) == Above(t, q, s)
    ensures p[s].Picked? <==> q[s].Picked?
    ensures !t[s].toMany ==> p[s] == q[s]
  {
    SameWay(t, forest, p, q, t[s].parent);
    assert Chosen(t, p, s) && Chosen(t, q, s);
    var parent := p[t[s].parent].tree;
    assert Fits(t, t[s].parent, parent);
    assert SiblingsFit(t, t[s].parent, s, parent.kids[s].trees);
  }

  lemma {:induction false} RowsAgree(t: Table, forest: seq<Tree>, p: Picks, q: Picks)
    requires ValidTable(t) && ForestFits(t, forest) && Proper(t, forest, p) && Proper(t, forest, q)
    requires |p| == |q| == |t|
    ensures IsRow(t, Layout(t, p)) && IsRow(t, Layout(t, q)) && Agree(t, Layout(t, p), Layout(t, q))
  {
    RowNested(t, forest, p);
    RowNested(t, forest, q);
    var row, other := Layout(t, p), Layout(t, q);
    forall s | 0 <= s < |t|
      ensures Present(t, row, s) && PathOf(t, row, s) == PathOf(t, other, s) ==>
                DataOf(t, row, s) == DataOf(t, other, s)
      ensures s > 0 && Present(t, row, t[s].parent) && ParentPath(t, row, s) == ParentPath(t, other, s) ==>
                && (Present(t, row, s) <==> Present(t, other, s))
                && (!t[s].toMany ==> KeyOf(t, row, s) == KeyOf(t, other, s))
    {
      CellsAgree(t, forest, p, q, s);
    }
  }

  lemma {:induction false} CellsAgree(t: Table, forest: seq<Tree>, p: Picks, q: Picks, s: nat)
    requires ValidTable(t) && ForestFits(t, forest) && Proper(t, forest, p) && Proper(t, forest, q)
    requires s < |p| == |q| == |t| && IsRow(t, Layout(t, p)) && IsRow(t, Layout(t, q))
    ensures var row, other := Layout(t, p), Layout(t, q);
            && (Present(t, row, s) && PathOf(t, row, s) == PathOf(t, other, s) ==>
               DataOf(t, row, s) == DataOf(t, other, s))
            && (s > 0 && Present(t, row, t[s].parent) && ParentPath(t, row, s) == ParentPath(t, other, s) ==>
                  && (Present(t, row, s) <==> Present(t, other, s))
                  && (!t[s].toMany ==> KeyOf(t, row, s) == KeyOf(t, other, s)))
  {
    RowCells(t, forest, p, s);
    RowCells(t, forest, q, s);
    RowPath(t, forest, p, s);
    RowPath(t, forest, q, s);
    if p[s].Picked? && Way(t, p, s) == Way(t, q, s) {
      SameWay(t, forest, p, q, s);
    }
    if s > 0 {
      RowCells(t, forest, p, t[s].parent);
      if p[t[s].parent].Picked? && Above(t, p, s) == Above(t, q, s) {
        SectorAgrees(t, forest, p, q, s);
      }
    }
  }

  ghost predicate SameHead(ps: seq<Picks>, k: nat, n: nat)
    requires k < n < |ps| && forall i {:trigger ps[i]} :: 0 <= i < |ps| ==> ps[i] != []
  {
    ps[k][0] == ps[n][0] ==> ps[n - 1][0] == ps[n][0]
  }

  ghost predicate Standing(ps: seq<Picks>, width: nat) {
    0 < width && Wide(ps, width) && forall k, n {:trigger SameHead(ps, k, n)} :: 0 <= k < n < |ps| ==>
        SameHead(ps, k, n)
  }

  lemma {:induction false} ExtendHeads(t: Table, p: Picks)
    requires ValidTable(t) && 0 < |p| < |t|
    ensures Extend(t, p) != []
    ensures forall i {:trigger Extend(t, p)[i]} :: 0 <= i < |Extend(t, p)| ==>
              |Extend(t, p)[i]| == |p| + 1 && Extend(t, p)[i][..|p|] == p
  {
  }

  /** A root of the join is one of the roots joined, and the last is the last. */
  lemma {:induction false} JoinHeads(t: Table, ps: seq<Picks>, width: nat)
    requires ValidTable(t) && 0 < width < |t| && Wide(ps, width)
    ensures var r := LeftOuterJoin(t, ps, width);
            && (ps != [] ==> r != [] && r[|r| - 1][0] == ps[|ps| - 1][0])
            && forall i {:trigger r[i]} :: 0 <= i < |r| ==> HeadIn(r[i], ps)
  {
    if ps != [] {
      var n := |ps| - 1;
      JoinHeads(t, ps[..n], width);
      ExtendHeads(t, ps[n]);
      var before, block := LeftOuterJoin(t, ps[..n], width), Extend(t, ps[n]);
      forall i | 0 <= i < |before + block|
        ensures HeadIn((before + block)[i], ps)
      {
        if i < |before| {
          assert HeadIn(before[i], ps[..n]);
          var k :| 0 <= k < n && ps[..n][k] != [] && before[i] != [] && ps[..n][k][0] == before[i][0];
          assert ps[k][0] == before[i][0];
        } else {
          assert block[i - |before|][..width] == ps[n];
        }
      }
      assert block[|block| - 1][..width] == ps[n];
    }
  }

  ghost predicate HeadIn(q: Picks, ps: seq<Picks>) {
    exists k {:trigger ps[k]} :: 0 <= k < |ps| && ps[k] != [] && q != [] && ps[k][0] == q[0]
  }

  /** Joining one more table leaves the rows of a root together. */
  lemma {:induction false} StandingJoin(t: Table, ps: seq<Picks>, width: nat)
    requires ValidTable(t) && width < |t| && Standing(ps, width)
    ensures Standing(LeftOuterJoin(t, ps, width), width + 1)
  {
    if ps != [] {
      var m := |ps| - 1;
      forall k, n | 0 <= k < n < m
        ensures SameHead(ps[..m], k, n)
      {
        assert SameHead(ps, k, n);
      }
      StandingJoin(t, ps[..m], width);
      JoinHeads(t, ps[..m], width);
      ExtendHeads(t, ps[m]);
      var before, block := LeftOuterJoin(t, ps[..m], width), Extend(t, ps[m]);
      var all := before + block;
      forall k, n | 0 <= k < n < |all|
        ensures SameHead(all, k, n)
      {
        if n < |before| {
          assert SameHead(before, k, n);
        } else {
          assert block[n - |before|][..width] == ps[m];
          if n == |before| {
            assert HeadIn(before[k], ps[..m]);
            var j :| 0 <= j < m && ps[..m][j] != [] && ps[..m][j][0] == before[k][0];
            assert SameHead(ps, j, m);
          } else {
            assert block[n - 1 - |before|][..width] == ps[m];
          }
        }
      }
    }
  }

  lemma {:induction false} JoinedStanding(t: Table, forest: seq<Tree>, width: nat)
    requires ValidTable(t) && ForestFits(t, forest) && 0 < width <= |t|
    ensures Standing(Joined(t, forest, width), width)
  {
    if width == 1 {
      var ps := Joined(t, forest, 1);
      forall k, n | 0 <= k < n < |ps|
        ensures SameHead(ps, k, n)
      {
        assert forest[k].key != forest[n].key;
      }
    } else {
      JoinedStanding(t, forest, width - 1);
      StandingJoin(t, Joined(t, forest, width - 1), width - 1);
    }
  }

  /** The rows of the query for a forest are what reading them back relies on. */
  lemma {:induction false} ResultCoherent(t: Table, forest: seq<Tree>)
    requires ValidTable(t) && ForestFits(t, forest)
    ensures Coherent(t, ResultRows(t, forest))
  {
    var ps, rows := Joined(t, forest, |t|), ResultRows(t, forest);
    JoinedProper(t, forest, |t|);
    JoinedStanding(t, forest, |t|);
    forall i | 0 <= i < |rows|
      ensures IsRow(t, rows[i]) && Nested(t, rows[i])
    {
      assert Proper(t, forest, ps[i]);
      RowNested(t, forest, ps[i]);
    }
    forall i, j | 0 <= i < |rows| && 0 <= j < |rows|
      ensures Agree(t, rows[i], rows[j])
    {
      assert Proper(t, forest, ps[i]) && Proper(t, forest, ps[j]);
      RowsAgree(t, forest, ps[i], ps[j]);
    }
    forall k, n | 0 <= k < n < |rows|
      ensures Together(t, rows, k, n)
    {
      RootsStand(t, forest, ps, k, n);
    }
  }

  lemma {:induction false} RootsStand(t: Table, forest: seq<Tree>, ps: seq<Picks>, k: nat, n: nat)
    requires ValidTable(t) && ForestFits(t, forest) && AllProper(t, forest, ps, |t|) && Standing(ps, |t|)
    requires k < n < |ps| && AllRows(t, Layouts(t, ps))
    ensures Together(t, Layouts(t, ps), k, n)
  {
    RootCells(t, forest, ps, k);
    RootCells(t, forest, ps, n);
    RootCells(t, forest, ps, n - 1);
    if ps[k][0].tree.key == ps[n][0].tree.key {
      KeyTells(forest, ps[k][0].tree, ps[n][0].tree);
      assert SameHead(ps, k, n);
    }
  }

  lemma {:induction false} RootCells(t: Table, forest: seq<Tree>, ps: seq<Picks>, k: nat)
    requires ValidTable(t) && AllProper(t, forest, ps, |t|) && k < |ps| && AllRows(t, Layouts(t, ps))
    ensures ps[k][0].Picked? && ps[k][0].tree in forest
    ensures KeyOf(t, Layouts(t, ps)[k], 0) == ps[k][0].tree.key
  {
    assert Proper(t, forest, ps[k]);
    RowCells(t, forest, ps[k], 0);
  }
}
