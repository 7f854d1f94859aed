/** Which keys the rows of a join list below an object: those of its related objects. */
module JoinListing {
  import opened JoinRows
  import opened JoinForest

  /** The distinct keys in sector c below a path, in order of first appearance. */
  ghost function Listing(t: Table, ps: seq<Picks>, c: nat, above: Path): seq<Key>
    requires ValidTable(t)
  {
    if ps == [] then []
    else
      var n := |ps| - 1;
      Listed(Listing(t, ps[..n], c, above), t, ps[n], c, above)
  }

  ghost function Listed(before: seq<Key>, t: Table, p: Picks, c: nat, above: Path): seq<Key>
    requires ValidTable(t)
  {
    if c < |p| <= |t| && p[c].Picked? && Above(t, p, c) == above && p[c].tree.key !in before
        then before + [p[c].tree.key]
    else before
  }

  lemma {:induction false} ListingStep(t: Table, ps: seq<Picks>, p: Picks, c: nat, above: Path)
    requires ValidTable(t) && c < |p| <= |t|
    ensures Listing(t, ps + [p], c, above) == Listed(Listing(t, ps, c, above), t, p, c, above)
  {
    assert (ps + [p])[..|ps|] == ps;
  }

  lemma {:induction false} ProperPrefix(t: Table, forest: seq<Tree>, ps: seq<Picks>, width: nat)
    requires ValidTable(t) && AllProper(t, forest, ps, width) && ps != []
    ensures AllProper(t, forest, ps[..|ps| - 1], width) && Proper(t, forest, ps[|ps| - 1])
  {
    var n := |ps| - 1;
    assert Proper(t, forest, ps[n]);
    forall i | 0 <= i < n
      ensures Proper(t, forest, ps[..n][i])
    {
      assert Proper(t, forest, ps[i]);
    }
  }

  lemma {:induction false} LayoutsStep(t: Table, ps: seq<Picks>)
    requires Wide(ps, |t|) && ps != []
    ensures Layouts(t, ps) == Layouts(t, ps[..|ps| - 1]) + [Layout(t, ps[|ps| - 1])]
  {
  }

  lemma {:induction false} KidsAreListing(t: Table, forest: seq<Tree>, ps: seq<Picks>, c: nat, above: Path)
    requires ValidTable(t) && AllProper(t, forest, ps, |t|) && c < |t|
    ensures AllRows(t, Layouts(t, ps))
    ensures Kids(t, Layouts(t, ps), c, above) == Listing(t, ps, c, above)
  {
    if ps != [] {
      var n := |ps| - 1;
      ProperPrefix(t, forest, ps, |t|);
      KidsAreListing(t, forest, ps[..n], c, above);
      LayoutsStep(t, ps);
      RowLists(t, forest, Layouts(t, ps[..n]), ps[n], c, above);
    }
  }

  lemma {:induction false} RowLists(t: Table, forest: seq<Tree>, rows: seq<Row>, p: Picks, c: nat, above: Path)
    requires ValidTable(t) && Proper(t, forest, p) && c < |p| == |t| && AllRows(t, rows)
    ensures AllRows(t, rows + [Layout(t, p)])
    ensures Kids(t, rows + [Layout(t, p)], c, above) == Listed(Kids(t, rows, c, above), t, p, c, above)
  {
    RowCells(t, forest, p, c);
    RowPath(t, forest, p, c);
    KidsStep(t, rows, Layout(t, p), c, above);
  }

  lemma {:induction false} WayKept(t: Table, p: Picks, q: Picks, s: nat)
    requires ValidTable(t) && s < |p| <= |q| <= |t| && q[..|p|] == p
    ensures q[s] == p[s] && Above(t, q, s) == Above(t, p, s) && Way(t, q, s) == Way(t, p, s)
  {
    assert q[..|p|][s] == p[s];
    if s > 0 {
      WayKept(t, p, q, t[s].parent);
    }
  }

  // ---------------------------------------------------------------- joining a later table

  /** Rows that repeat p in the first sectors list what p lists. */
  lemma {:induction false} BlockLists(t: Table, qs: seq<Picks>, p: Picks, block: seq<Picks>, c: nat, above: Path)
    requires ValidTable(t) && c < |p| <= |t| && block != []
    requires forall i {:trigger block[i]} :: 0 <= i < |block| ==> |p| <= |block[i]| <= |t| && block[i][..|p|] == p
    ensures Listing(t, qs + block, c, above) == Listed(Listing(t, qs, c, above), t, p, c, above)
  {
    var n := |block| - 1;
    var before := qs + block[..n];
    assert qs + block == before + [block[n]];
    assert forall i :: 0 <= i < |before| ==> before[i] == (qs + block)[i];
    ListingStep(t, before, block[n], c, above);
    WayKept(t, p, block[n], c);
    if n == 0 {
      assert before == qs;
    } else {
      BlockLists(t, qs, p, block[..n], c, above);
    }
  }

  lemma {:induction false} LaterTable(t: Table, ps: seq<Picks>, width: nat, c: nat, above: Path)
    requires ValidTable(t) && c < width < |t| && Wide(ps, width)
    ensures Listing(t, LeftOuterJoin(t, ps, width), c, above) == Listing(t, ps, c, above)
  {
    if ps != [] {
      var n := |ps| - 1;
      LaterTable(t, ps[..n], width, c, above);
      ExtendHeads(t, ps[n]);
      BlockLists(t, LeftOuterJoin(t, ps[..n], width), ps[n], Extend(t, ps[n]), c, above);
    }
  }

  // ---------------------------------------------------------------- joining the table itself

  ghost function KeysOf(trees: seq<Tree>): seq<Key> {
    seq(|trees|, k requires 0 <= k < |trees| => trees[k].key)
  }

  /** Some row of the join shows the object at the end of the path. */
  ghost predicate ShownIn(t: Table, ps: seq<Picks>, s: nat, path: Path, tree: Tree)
    requires ValidTable(t)
  {
    exists i {:trigger ps[i]} :: 0 <= i < |ps| && ShowsTree(t, ps[i], s, path, tree)
  }

  ghost predicate ShowsTree(t: Table, p: Picks, s: nat, path: Path, tree: Tree)
    requires ValidTable(t)
  {
    s < |p| <= |t| && p[s] == Picked(tree) && Way(t, p, s) == path
  }

  /** A row that shows another object above adds nothing. */
  lemma {:induction false} OtherLists(t: Table, qs: seq<Picks>, p: Picks, n: nat, above: Path)
    requires ValidTable(t) && 0 < |p| < |t| && n <= |Extend(t, p)|
    requires p[t[|p|].parent].Missing? || Way(t, p, t[|p|].parent) != above
    ensures Listing(t, qs + Extend(t, p)[..n], |p|, above) == Listing(t, qs, |p|, above)
  {
    if n == 0 {
      assert qs + Extend(t, p)[..0] == qs;
    } else {
      OtherLists(t, qs, p, n - 1, above);
      var q := Extend(t, p)[n - 1];
      assert qs + Extend(t, p)[..n] == (qs + Extend(t, p)[..n - 1]) + [q];
      OtherRow(t, p, n - 1, above);
      ListingStep(t, qs + Extend(t, p)[..n - 1], q, |p|, above);
    }
  }

  lemma {:induction false} OtherRow(t: Table, p: Picks, k: nat, above: Path)
    requires ValidTable(t) && 0 < |p| < |t| && k < |Extend(t, p)|
    requires p[t[|p|].parent].Missing? || Way(t, p, t[|p|].parent) != above
    ensures var q := Extend(t, p)[k];
            |q| == |p| + 1 && (q[|p|].Missing? || Above(t, q, |p|) != above)
  {
    ExtendHeads(t, p);
    WayKept(t, p, Extend(t, p)[k], t[|p|].parent);
  }

  ghost function RowsFor(p: Picks, kids: seq<Tree>): seq<Picks> {
    seq(|kids|, k requires 0 <= k < |kids| => p + [Picked(kids[k])])
  }

  /** A row that shows the object adds the keys of its related objects, unless they are there. */
  lemma {:induction false} OwnLists(t: Table, qs: seq<Picks>, p: Picks, above: Path, all: seq<Tree>, n: nat)
    requires ValidTable(t) && 0 < |p| < |t| && Way(t, p, t[|p|].parent) == above
    requires n <= |all| && DistinctKeys(all) && all != []
    requires Listing(t, qs, |p|, above) == [] || Listing(t, qs, |p|, above) == KeysOf(all)
    ensures Listing(t, qs + RowsFor(p, all[..n]), |p|, above) ==
              if Listing(t, qs, |p|, above) == [] then KeysOf(all[..n]) else KeysOf(all)
  {
    if n == 0 {
      assert qs + RowsFor(p, all[..0]) == qs;
    } else {
      OwnLists(t, qs, p, above, all, n - 1);
      var q, before := p + [Picked(all[n - 1])], qs + RowsFor(p, all[..n - 1]);
      MoreRows(qs, p, all, n - 1);
      ListingStep(t, before, q, |p|, above);
      OwnRow(t, p, all[n - 1], above, Listing(t, before, |p|, above));
      NextKey(all, n - 1);
    }
  }

  lemma {:induction false} MoreRows(qs: seq<Picks>, p: Picks, all: seq<Tree>, n: nat)
    requires n < |all|
    ensures qs + RowsFor(p, all[..n + 1]) == (qs + RowsFor(p, all[..n])) + [p + [Picked(all[n])]]
  {
  }

  lemma {:induction false} OwnRow(t: Table, p: Picks, kid: Tree, above: Path, before: seq<Key>)
    requires ValidTable(t) && 0 < |p| < |t| && Way(t, p, t[|p|].parent) == above
    ensures Listed(before, t, p + [Picked(kid)], |p|, above) ==
              if kid.key in before then before else before + [kid.key]
  {
    WayKept(t, p, p + [Picked(kid)], t[|p|].parent);
  }

  lemma {:induction false} NextKey(trees: seq<Tree>, n: nat)
    requires n < |trees| && DistinctKeys(trees)
    ensures trees[n].key in KeysOf(trees) && trees[n].key !in KeysOf(trees[..n])
    ensures KeysOf(trees[..n + 1]) == KeysOf(trees[..n]) + [trees[n].key]
  {
    assert KeysOf(trees)[n] == trees[n].key;
    assert forall k :: 0 <= k < n ==> KeysOf(trees[..n])[k] == trees[k].key;
  }

  /** Every row that shows an object at the path shows this one. */
  ghost predicate OnlyTree(t: Table, ps: seq<Picks>, s: nat, path: Path, tree: Tree)
    requires ValidTable(t)
  {
    forall i {:trigger OnlyHere(t, ps[i], s, path, tree)} :: 0 <= i < |ps| ==> OnlyHere(t, ps[i], s, path, tree)
  }

  ghost predicate OnlyHere(t: Table, p: Picks, s: nat, path: Path, tree: Tree)
    requires ValidTable(t)
  {
    s < |p| <= |t| && p[s].Picked? && Way(t, p, s) == path ==> p[s] == Picked(tree)
  }

  lemma {:induction false} JoinLists(t: Table, ps: seq<Picks>, c: nat, path: Path, tree: Tree)
    requires ValidTable(t) && 0 < c < |t| && Wide(ps, c) && DistinctKeys(tree.Related(c))
    requires OnlyTree(t, ps, t[c].parent, path, tree)
    ensures Listing(t, LeftOuterJoin(t, ps, c), c, path) ==
              if ShownIn(t, ps, t[c].parent, path, tree) then KeysOf(tree.Related(c)) else []
  {
    if ps != [] {
      var n := |ps| - 1;
      assert ps == ps[..n] + [ps[n]];
      OnlyBefore(t, ps, t[c].parent, path, tree);
      JoinLists(t, ps[..n], c, path, tree);
      ShownStep(t, ps[..n], ps[n], t[c].parent, path, tree);
      JoinListsRow(t, LeftOuterJoin(t, ps[..n], c), ps[n], path, tree);
    }
  }

  lemma {:induction false} OnlyBefore(t: Table, ps: seq<Picks>, s: nat, path: Path, tree: Tree)
    requires ValidTable(t) && OnlyTree(t, ps, s, path, tree) && ps != []
    ensures OnlyTree(t, ps[..|ps| - 1], s, path, tree) && OnlyHere(t, ps[|ps| - 1], s, path, tree)
  {
    var n := |ps| - 1;
    assert OnlyHere(t, ps[n], s, path, tree);
    forall i | 0 <= i < n
      ensures OnlyHere(t, ps[..n][i], s, path, tree)
    {
      assert OnlyHere(t, ps[i], s, path, tree);
    }
  }

  lemma {:induction false} ShownStep(t: Table, ps: seq<Picks>, p: Picks, s: nat, path: Path, tree: Tree)
    requires ValidTable(t)
    ensures ShownIn(t, ps + [p], s, path, tree) <==> ShownIn(t, ps, s, path, tree) || ShowsTree(t, p, s, path, tree)
  {
    var all := ps + [p];
    assert all[|ps|] == p;
    assert forall i :: 0 <= i < |ps| ==> all[i] == ps[i];
  }

  lemma {:induction false} JoinListsRow(t: Table, qs: seq<Picks>, p: Picks, path: Path, tree: Tree)
    requires ValidTable(t) && 0 < |p| < |t|
    requires p[t[|p|].parent].Picked? && Way(t, p, t[|p|].parent) == path ==> p[t[|p|].parent] == Picked(tree)
    requires DistinctKeys(tree.Related(|p|))
    requires Listing(t, qs, |p|, path) == [] || Listing(t, qs, |p|, path) == KeysOf(tree.Related(|p|))
    ensures Listing(t, qs + Extend(t, p), |p|, path) ==
              if ShowsTree(t, p, t[|p|].parent, path, tree) then KeysOf(tree.Related(|p|))
              else Listing(t, qs, |p|, path)
  {
    var kids := tree.Related(|p|);
    assert Extend(t, p)[..|Extend(t, p)|] == Extend(t, p);
    if !ShowsTree(t, p, t[|p|].parent, path, tree) {
      OtherLists(t, qs, p, |Extend(t, p)|, path);
    } else if kids == [] {
      ListingStep(t, qs, p + [Missing], |p|, path);
    } else {
      assert kids[..|kids|] == kids && Extend(t, p) == RowsFor(p, kids);
      OwnLists(t, qs, p, path, kids, |kids|);
    }
  }

  // ---------------------------------------------------------------- all tables joined

  lemma {:induction false} ShownLater(t: Table, ps: seq<Picks>, width: nat, s: nat, path: Path, tree: Tree)
    requires ValidTable(t) && 0 < width < |t| && Wide(ps, width) && ShownIn(t, ps, s, path, tree)
    ensures ShownIn(t, LeftOuterJoin(t, ps, width), s, path, tree)
  {
    var i :| 0 <= i < |ps| && ShowsTree(t, ps[i], s, path, tree);
    ExtendHeads(t, ps[i]);
    var q := Extend(t, ps[i])[0];
    WayKept(t, ps[i], q, s);
    InJoin(t, ps, width, i, 0);
  }

  lemma {:induction false} InJoin(t: Table, ps: seq<Picks>, width: nat, i: nat, k: nat)
    requires ValidTable(t) && 0 < width < |t| && Wide(ps, width) && i < |ps| && k < |Extend(t, ps[i])|
    ensures Extend(t, ps[i])[k] in LeftOuterJoin(t, ps, width)
  {
    var n := |ps| - 1;
    assert LeftOuterJoin(t, ps, width) == LeftOuterJoin(t, ps[..n], width) + Extend(t, ps[n]);
    if i < n {
      assert ps[..n][i] == ps[i];
      InJoin(t, ps[..n], width, i, k);
    }
  }

  lemma {:induction false} KidShown(t: Table, ps: seq<Picks>, c: nat, path: Path, tree: Tree, k: nat)
    requires ValidTable(t) && 0 < c < |t| && Wide(ps, c) && ShownIn(t, ps, t[c].parent, path, tree)
    requires k < |tree.Related(c)|
    ensures var kid := tree.Related(c)[k];
            ShownIn(t, LeftOuterJoin(t, ps, c), c, path + [kid.key], kid)
  {
    var i :| 0 <= i < |ps| && ShowsTree(t, ps[i], t[c].parent, path, tree);
    KidRow(t, ps[i], path, tree, k);
    InJoin(t, ps, c, i, k);
  }

  lemma {:induction false} KidRow(t: Table, p: Picks, path: Path, tree: Tree, k: nat)
    requires ValidTable(t) && 0 < |p| < |t| && ShowsTree(t, p, t[|p|].parent, path, tree)
    requires k < |tree.Related(|p|)|
    ensures var kid := tree.Related(|p|)[k];
            k < |Extend(t, p)| && ShowsTree(t, Extend(t, p)[k], |p|, path + [kid.key], kid)
  {
    ExtendHeads(t, p);
    WayKept(t, p, Extend(t, p)[k], t[|p|].parent);
  }

  /** The tables from width on are joined. */
  ghost function JoinRest(t: Table, ps: seq<Picks>, width: nat): (r: seq<Picks>)
    requires ValidTable(t) && 0 < width <= |t| && Wide(ps, width)
    ensures Wide(r, |t|)
    decreases |t| - width
  {
    if width == |t| then ps else JoinRest(t, LeftOuterJoin(t, ps, width), width + 1)
  }

  lemma {:induction false} RestOfJoined(t: Table, forest: seq<Tree>, width: nat)
    requires ValidTable(t) && 0 < width <= |t|
    ensures JoinRest(t, Joined(t, forest, width), width) == Joined(t, forest, |t|)
    decreases |t| - width
  {
    if width < |t| {
      RestOfJoined(t, forest, width + 1);
      JoinedStep(t, forest, width, width + 1, Joined(t, forest, width));
    }
  }

  /** What joining a later table leaves, joining all of them leaves. */
  lemma {:induction false} RestKeeps(t: Table, ps: seq<Picks>, width: nat, f: seq<Picks> -> seq<Key>, c: nat)
    requires ValidTable(t) && c < width <= |t| && Wide(ps, width)
    requires forall qs, w {:trigger LeftOuterJoin(t, qs, w)} ::
               c < w < |t| && Wide(qs, w) ==> f(LeftOuterJoin(t, qs, w)) == f(qs)
    ensures f(JoinRest(t, ps, width)) == f(ps)
    decreases |t| - width
  {
    if width < |t| {
      RestKeeps(t, LeftOuterJoin(t, ps, width), width + 1, f, c);
    }
  }

  lemma {:induction false} RestLists(t: Table, ps: seq<Picks>, width: nat, c: nat, path: Path)
    requires ValidTable(t) && c < width <= |t| && Wide(ps, width)
    ensures Listing(t, JoinRest(t, ps, width), c, path) == Listing(t, ps, c, path)
  {
    var lists := qs => Listing(t, qs, c, path);
    forall qs, w | c < w < |t| && Wide(qs, w)
      ensures lists(LeftOuterJoin(t, qs, w)) == lists(qs)
    {
      LaterTable(t, qs, w, c, path);
    }
    RestKeeps(t, ps, width, lists, c);
  }

  /** Below a shown object the rows list exactly its related objects, in their order. */
  lemma {:induction false} RelatedListed(t: Table, forest: seq<Tree>, c: nat, path: Path, tree: Tree)
    requires ValidTable(t) && ForestFits(t, forest) && 0 < c < |t|
    requires Fits(t, t[c].parent, tree) && ShownIn(t, Joined(t, forest, c), t[c].parent, path, tree)
    ensures Listing(t, Joined(t, forest, |t|), c, path) == KeysOf(tree.Related(c))
  {
    var ps := Joined(t, forest, c + 1);
    RelatedJoined(t, forest, c, ps, path, tree);
    RestOfJoined(t, forest, c + 1);
    RestLists(t, ps, c + 1, c, path);
  }

  lemma {:induction false} RelatedJoined(t: Table, forest: seq<Tree>, c: nat, qs: seq<Picks>, path: Path, tree: Tree)
    requires ValidTable(t) && ForestFits(t, forest) && 0 < c < |t| && qs == Joined(t, forest, c + 1)
    requires Fits(t, t[c].parent, tree) && ShownIn(t, Joined(t, forest, c), t[c].parent, path, tree)
    ensures Listing(t, qs, c, path) == KeysOf(tree.Related(c))
  {
    var ps := Joined(t, forest, c);
    OnlyOne(t, forest, c, t[c].parent, path, tree);
    assert SiblingsFit(t, t[c].parent, c, tree.kids[c].trees);
    JoinLists(t, ps, c, path, tree);
    JoinedStep(t, forest, c, c + 1, ps);
  }

  lemma {:induction false} JoinedStep(t: Table, forest: seq<Tree>, width: nat, next: nat, ps: seq<Picks>)
    requires ValidTable(t) && 0 < width < next == width + 1 <= |t| && ps == Joined(t, forest, width)
    ensures Joined(t, forest, next) == LeftOuterJoin(t, ps, width)
  {
  }

  lemma {:induction false} OnlyOne(t: Table, forest: seq<Tree>, width: nat, s: nat, path: Path, tree: Tree)
    requires ValidTable(t) && ForestFits(t, forest) && s < width <= |t|
    requires ShownIn(t, Joined(t, forest, width), s, path, tree)
    ensures OnlyTree(t, Joined(t, forest, width), s, path, tree)
  {
    var ps := Joined(t, forest, width);
    JoinedProper(t, forest, width);
    var k :| 0 <= k < |ps| && ShowsTree(t, ps[k], s, path, tree);
    assert Proper(t, forest, ps[k]);
    forall i | 0 <= i < |ps|
      ensures OnlyHere(t, ps[i], s, path, tree)
    {
      assert Proper(t, forest, ps[i]);
      if ps[i][s].Picked? && Way(t, ps[i], s) == path {
        SameWay(t, forest, ps[k], ps[i], s);
      }
    }
  }

  lemma {:induction false} StillShown(t: Table, forest: seq<Tree>, from: nat, width: nat, s: nat, path: Path,
                                      tree: Tree)
    requires ValidTable(t) && 0 < from <= width <= |t| && ShownIn(t, Joined(t, forest, from), s, path, tree)
    ensures ShownIn(t, Joined(t, forest, width), s, path, tree)
    decreases width - from
  {
    if from < width {
      ShownNext(t, forest, from, from + 1, s, path, tree);
      StillShown(t, forest, from + 1, width, s, path, tree);
    }
  }

  lemma {:induction false} ShownNext(t: Table, forest: seq<Tree>, width: nat, next: nat, s: nat, path: Path, tree: Tree)
    requires ValidTable(t) && 0 < width < next == width + 1 <= |t|
    requires ShownIn(t, Joined(t, forest, width), s, path, tree)
    ensures ShownIn(t, Joined(t, forest, next), s, path, tree)
  {
    var ps := Joined(t, forest, width);
    ShownLater(t, ps, width, s, path, tree);
    JoinedStep(t, forest, width, next, ps);
  }

  /** The roots of the rows are the roots of the forest. */
  lemma {:induction false} RootsListed(t: Table, forest: seq<Tree>)
    requires ValidTable(t) && ForestFits(t, forest)
    ensures Listing(t, Joined(t, forest, |t|), 0, []) == KeysOf(forest)
  {
    var ps := Joined(t, forest, 1);
    FirstListed(t, forest, |forest|);
    assert forest[..|forest|] == forest;
    RestOfJoined(t, forest, 1);
    RestLists(t, ps, 1, 0, []);
  }

  lemma {:induction false} FirstListed(t: Table, forest: seq<Tree>, n: nat)
    requires ValidTable(t) && DistinctKeys(forest) && n <= |forest|
    ensures Listing(t, Joined(t, forest[..n], 1), 0, []) == KeysOf(forest[..n])
  {
    if n > 0 {
      FirstListed(t, forest, n - 1);
      assert Joined(t, forest[..n], 1) == Joined(t, forest[..n - 1], 1) + [[Picked(forest[n - 1])]];
      ListingStep(t, Joined(t, forest[..n - 1], 1), [Picked(forest[n - 1])], 0, []);
      NextKey(forest, n - 1);
    }
  }

  lemma {:induction false} RootShown(t: Table, forest: seq<Tree>, k: nat)
    requires ValidTable(t) && k < |forest|
    ensures ShownIn(t, Joined(t, forest, 1), 0, [forest[k].key], forest[k])
  {
    assert ShowsTree(t, Joined(t, forest, 1)[k], 0, [forest[k].key], forest[k]);
  }
}
