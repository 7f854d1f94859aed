/** The places of the objects in a forest, and the objects found when following relationships
    (jones-mysql/impl/MySQLConnection.js). */
module JoinPlaces {
  import opened JoinRows
  import opened JoinForest

  /** How many objects trees have. */
  function Nodes(trees: seq<Tree>): nat
    decreases trees, 0
  {
    if trees == [] then 0 else 1 + NodesBelow(trees[0].kids, 0) + Nodes(trees[1..])
  }

  function NodesBelow(kids: seq<Siblings>, c: nat): nat
    requires c <= |kids|
    decreases kids, |kids| - c
  {
    if c == |kids| then 0 else Nodes(kids[c].trees) + NodesBelow(kids, c + 1)
  }

  /** Where the objects of trees of sector s are, each before those related to it. */
  function Places(trees: seq<Tree>, s: nat, above: Path): seq<Address>
    decreases trees, 0
  {
    if trees == [] then []
    else
      var path := above + [trees[0].key];
      [Address(s, path)] + PlacesBelow(trees[0].kids, 0, path) + Places(trees[1..], s, above)
  }

  function PlacesBelow(kids: seq<Siblings>, c: nat, path: Path): seq<Address>
    requires c <= |kids|
    decreases kids, |kids| - c
  {
    if c == |kids| then [] else Places(kids[c].trees, c, path) + PlacesBelow(kids, c + 1, path)
  }

  lemma {:induction false} PlacesCount(trees: seq<Tree>, s: nat, above: Path)
    ensures |Places(trees, s, above)| == Nodes(trees)
    decreases trees, 0
  {
    if trees != [] {
      PlacesBelowCount(trees[0].kids, 0, above + [trees[0].key]);
      PlacesCount(trees[1..], s, above);
    }
  }

  lemma {:induction false} PlacesBelowCount(kids: seq<Siblings>, c: nat, path: Path)
    requires c <= |kids|
    ensures |PlacesBelow(kids, c, path)| == NodesBelow(kids, c)
    decreases kids, |kids| - c
  {
    if c < |kids| {
      PlacesCount(kids[c].trees, c, path);
      PlacesBelowCount(kids, c + 1, path);
    }
  }

  // ---------------------------------------------------------------- what is among the places

  lemma {:induction false} InPlaces(trees: seq<Tree>, s: nat, above: Path, k: nat)
    requires k < |trees|
    ensures var path := above + [trees[k].key];
            && Address(s, path) in Places(trees, s, above)
            && forall a :: a in PlacesBelow(trees[k].kids, 0, path) ==> a in Places(trees, s, above)
  {
    if k > 0 {
      InPlaces(trees[1..], s, above, k - 1);
    }
  }

  lemma {:induction false} InPlacesBelow(kids: seq<Siblings>, first: nat, c: nat, path: Path)
    requires first <= c < |kids|
    ensures forall a :: a in Places(kids[c].trees, c, path) ==> a in PlacesBelow(kids, first, path)
    decreases c - first
  {
    if first < c {
      InPlacesBelow(kids, first + 1, c, path);
    }
  }

  /** The tree stands in the forest at the end of the path. */
  ghost predicate Placed(forest: seq<Tree>, s: nat, path: Path, tree: Tree) {
    && Address(s, path) in Places(forest, 0, [])
    && forall a :: a in PlacesBelow(tree.kids, 0, path) ==> a in Places(forest, 0, [])
  }

  lemma {:induction false} KidPlaced(forest: seq<Tree>, s: nat, c: nat, path: Path, tree: Tree, kid: Tree)
    requires Placed(forest, s, path, tree) && kid in tree.Related(c)
    ensures Placed(forest, c, path + [kid.key], kid)
  {
    var k :| 0 <= k < |tree.Related(c)| && tree.Related(c)[k] == kid;
    InPlacesBelow(tree.kids, 0, c, path);
    InPlaces(tree.kids[c].trees, c, path, k);
  }

  /** Whatever a row of the join shows is one of the places. */
  lemma {:induction false} PickPlaced(t: Table, forest: seq<Tree>, p: Picks, s: nat)
    requires ValidTable(t) && Proper(t, forest, p) && s < |p| && p[s].Picked?
    ensures Placed(forest, s, Way(t, p, s), p[s].tree)
  {
    if s == 0 {
      var k :| 0 <= k < |forest| && forest[k] == p[0].tree;
      InPlaces(forest, 0, [], k);
    } else {
      assert Chosen(t, p, s);
      PickPlaced(t, forest, p, t[s].parent);
      KidPlaced(forest, t[s].parent, s, Way(t, p, t[s].parent), p[t[s].parent].tree, p[s].tree);
    }
  }

  // ---------------------------------------------------------------- no place twice

  /** The sector k steps above. */
  function Up(t: Table, s: nat, k: nat): nat
    decreases k
  {
    if k == 0 || s >= |t| then s else Up(t, t[s].parent, k - 1)
  }

  lemma {:induction false} UpOnce(t: Table, s: nat, k: nat)
    requires Up(t, s, k) < |t|
    ensures Up(t, s, k + 1) == t[Up(t, s, k)].parent
    decreases k
  {
    if k > 0 && s < |t| {
      UpOnce(t, t[s].parent, k - 1);
    }
  }

  /** The address is below the path, through sector c. */
  predicate Through(t: Table, a: Address, c: nat, path: Path) {
    |path| < |a.path| && a.path[..|path|] == path && Up(t, a.sector, |a.path| - |path| - 1) == c
  }

  ghost predicate AllFit(t: Table, c: nat, trees: seq<Tree>)
    requires ValidTable(t)
  {
    forall k {:trigger Fits(t, c, trees[k])} :: 0 <= k < |trees| ==> Fits(t, c, trees[k])
  }

  lemma {:induction false} PlacesThrough(t: Table, trees: seq<Tree>, c: nat, above: Path, a: Address)
    requires ValidTable(t) && AllFit(t, c, trees) && a in Places(trees, c, above)
    ensures Through(t, a, c, above) && exists k :: 0 <= k < |trees| && trees[k].key == a.path[|above|]
    decreases trees, 0
  {
    var path := above + [trees[0].key];
    assert Fits(t, c, trees[0]);
    if a in PlacesBelow(trees[0].kids, 0, path) {
      PlacesBelowThrough(t, c, trees[0], 0, path, a);
      assert a.path[..|path|][..|above|] == above && a.path[..|path|][|above|] == trees[0].key;
    } else if a in Places(trees[1..], c, above) {
      PlacesThrough(t, trees[1..], c, above, a);
      var k :| 0 <= k < |trees[1..]| && trees[1..][k].key == a.path[|above|];
      assert trees[k + 1].key == a.path[|above|];
    } else {
      assert a == Address(c, path);
      assert trees[0].key == a.path[|above|];
    }
  }

  lemma {:induction false} PlacesBelowThrough(t: Table, s: nat, tree: Tree, c: nat, path: Path, a: Address)
    requires ValidTable(t) && Fits(t, s, tree) && c <= |tree.kids| && a in PlacesBelow(tree.kids, c, path)
    ensures |path| < |a.path| && a.path[..|path|] == path
    ensures c <= Up(t, a.sector, |a.path| - |path| - 1) && Up(t, a.sector, |a.path| - |path|) == s
    decreases tree.kids, |tree.kids| - c
  {
    if a in Places(tree.kids[c].trees, c, path) {
      assert SiblingsFit(t, s, c, tree.kids[c].trees);
      PlacesThrough(t, tree.kids[c].trees, c, path, a);
      UpOnce(t, a.sector, |a.path| - |path| - 1);
    } else {
      PlacesBelowThrough(t, s, tree, c + 1, path, a);
    }
  }

  lemma {:induction false} DistinctJoins<T>(a: seq<T>, b: seq<T>)
    requires Distinct(a) && Distinct(b) && forall x :: x in a ==> x !in b
    ensures Distinct(a + b)
  {
    forall i, j | 0 <= i < j < |a + b|
      ensures (a + b)[i] != (a + b)[j]
    {
      if i < |a| <= j {
        assert a[i] in a && b[j - |a|] in b;
      }
    }
  }

  lemma {:induction false} PlacesDistinct(t: Table, trees: seq<Tree>, c: nat, above: Path)
    requires ValidTable(t) && AllFit(t, c, trees) && DistinctKeys(trees)
    ensures Distinct(Places(trees, c, above))
    decreases trees, 0
  {
    if trees != [] {
      var path, kids, rest := above + [trees[0].key], trees[0].kids, Places(trees[1..], c, above);
      assert Fits(t, c, trees[0]);
      PlacesBelowDistinct(t, c, trees[0], 0, path);
      PlacesDistinct(t, trees[1..], c, above);
      forall a | a in PlacesBelow(kids, 0, path)
        ensures |path| < |a.path| && a.path[..|path|] == path && a.path[|above|] == trees[0].key
      {
        PlacesBelowThrough(t, c, trees[0], 0, path, a);
        assert a.path[..|path|][|above|] == trees[0].key;
      }
      DistinctJoins([Address(c, path)], PlacesBelow(kids, 0, path));
      forall a | a in rest
        ensures |above| < |a.path| && a.path[|above|] != trees[0].key
      {
        PlacesThrough(t, trees[1..], c, above, a);
        var k :| 0 <= k < |trees[1..]| && trees[1..][k].key == a.path[|above|];
        assert trees[k + 1].key != trees[0].key;
      }
      DistinctJoins([Address(c, path)] + PlacesBelow(kids, 0, path), rest);
    }
  }

  lemma {:induction false} PlacesBelowDistinct(t: Table, s: nat, tree: Tree, c: nat, path: Path)
    requires ValidTable(t) && Fits(t, s, tree) && c <= |tree.kids|
    ensures Distinct(PlacesBelow(tree.kids, c, path))
    decreases tree.kids, |tree.kids| - c
  {
    if c < |tree.kids| {
      var trees, rest := tree.kids[c].trees, PlacesBelow(tree.kids, c + 1, path);
      assert SiblingsFit(t, s, c, trees);
      PlacesDistinct(t, trees, c, path);
      PlacesBelowDistinct(t, s, tree, c + 1, path);
      forall a | a in Places(trees, c, path)
        ensures a !in rest
      {
        PlacesThrough(t, trees, c, path, a);
        if a in rest {
          PlacesBelowThrough(t, s, tree, c + 1, path, a);
        }
      }
      DistinctJoins(Places(trees, c, path), rest);
    }
  }

  lemma {:induction false} DistinctCount<T>(list: seq<T>, all: set<T>)
    requires Distinct(list) && forall x :: x in list <==> x in all
    ensures |list| == |all|
    decreases list
  {
    if list != [] {
      var rest := list[1..];
      forall x
        ensures x in rest <==> x in all - {list[0]}
      {
        if x in rest {
          var i :| 0 <= i < |rest| && rest[i] == x;
          assert list[i + 1] == x;
        }
      }
      DistinctCount(rest, all - {list[0]});
    }
  }
}
