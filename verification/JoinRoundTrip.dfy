/** Reading back the rows of a join gives the forest that was joined
    (jones-mysql/impl/MySQLConnection.js). */
module JoinRoundTrip {
  import opened Options
  import opened JoinRows
  import opened JoinForest
  import opened JoinListing
  import opened JoinPlaces
  import opened ReadProjection
  import opened ReadState

  function Referred(related: Related): seq<nat> {
    match related
    case NullReference => []
    case Reference(id) => [id]
    case Array(ids) => ids
  }

  /** The object and all it refers to are the tree. */
  ghost predicate Rebuilt(t: Table, objects: seq<DomainObject>, id: nat, s: nat, tree: Tree)
    decreases tree
  {
    && id < |objects| && objects[id].key == tree.key && objects[id].data == tree.data
    && |tree.kids| == |t| && OwnRelations(t, objects[id], s)
    && forall c {:trigger RelatedRebuilt(t, objects, objects[id].related[c], c, tree.kids[c].trees)} ::
         0 < c < |t| && t[c].parent == s ==>
           c in objects[id].related && RelatedRebuilt(t, objects, objects[id].related[c], c, tree.kids[c].trees)
  }

  /** A to-many relationship is an array, a to-one relationship a reference or null. */
  ghost predicate RelatedRebuilt(t: Table, objects: seq<DomainObject>, related: Related, c: nat, trees: seq<Tree>)
    requires c < |t|
    decreases trees
  {
    && (related.Array? <==> t[c].toMany) && |Referred(related)| == |trees|
    && forall k {:trigger Rebuilt(t, objects, Referred(related)[k], c, trees[k])} ::
         0 <= k < |trees| ==> Rebuilt(t, objects, Referred(related)[k], c, trees[k])
  }

  lemma {:induction false} TreeStored(t: Table, forest: seq<Tree>, objects: seq<DomainObject>, at: map<Address, nat>,
                                      s: nat, path: Path, tree: Tree)
    requires ValidTable(t) && ForestFits(t, forest) && Read(t, objects, at, ResultRows(t, forest))
    requires s < |t| && ShownIn(t, Joined(t, forest, |t|), s, path, tree)
    ensures var a := Address(s, path);
            a in at && at[a] < |objects| && objects[at[a]].key == tree.key && objects[at[a]].data == tree.data
  {
    var ps, rows := Joined(t, forest, |t|), ResultRows(t, forest);
    JoinedProper(t, forest, |t|);
    var i :| 0 <= i < |ps| && ShowsTree(t, ps[i], s, path, tree);
    assert Proper(t, forest, ps[i]);
    RowCells(t, forest, ps[i], s);
    RowPath(t, forest, ps[i], s);
    var a := Address(s, path);
    assert Shows(t, rows[i], a);
    assert Known(t, rows, a);
    assert StoredAt(t, objects[at[a]], rows, a);
    PathParts(t, rows[i], s, path);
  }

  lemma {:induction false} TreeRebuilt(t: Table, forest: seq<Tree>, objects: seq<DomainObject>, at: map<Address, nat>,
                                       s: nat, path: Path, tree: Tree)
    requires ValidTable(t) && ForestFits(t, forest) && Read(t, objects, at, ResultRows(t, forest))
    requires Fits(t, s, tree) && ShownIn(t, Joined(t, forest, s + 1), s, path, tree)
    ensures Rebuilt(t, objects, At(at, Address(s, path)), s, tree)
    decreases tree
  {
    var a := Address(s, path);
    StillShown(t, forest, s + 1, |t|, s, path, tree);
    TreeStored(t, forest, objects, at, s, path, tree);
    assert OwnRelations(t, objects[at[a]], a.sector);
    forall c | 0 < c < |t| && t[c].parent == s
      ensures c in objects[at[a]].related
      ensures RelatedRebuilt(t, objects, objects[at[a]].related[c], c, tree.kids[c].trees)
    {
      StillShown(t, forest, s + 1, c, s, path, tree);
      RelatedStored(t, forest, objects, at, a, c, tree);
      KidsRebuilt(t, forest, objects, at, c, path, tree, tree.kids[c].trees);
    }
  }

  lemma {:induction false} RelatedStored(t: Table, forest: seq<Tree>, objects: seq<DomainObject>, at: map<Address, nat>,
                                         a: Address, c: nat, tree: Tree)
    requires ValidTable(t) && ForestFits(t, forest) && Read(t, objects, at, ResultRows(t, forest))
    requires a in at && 0 < c < |t| && t[c].parent == a.sector && Fits(t, a.sector, tree)
    requires ShownIn(t, Joined(t, forest, c), a.sector, a.path, tree)
    ensures c in objects[at[a]].related
    ensures objects[at[a]].related[c] == RelationTo(t[c].toMany, Ids(at, c, a.path, KeysOf(tree.kids[c].trees)))
  {
    assert RelatedAll(t, objects[at[a]], at, ResultRows(t, forest), a, c);
    RelatedKids(t, forest, at, c, a.path, tree);
  }

  lemma {:induction false} RelatedKids(t: Table, forest: seq<Tree>, at: map<Address, nat>, c: nat, path: Path,
                                       tree: Tree)
    requires ValidTable(t) && ForestFits(t, forest) && 0 < c < |t| && AllRows(t, ResultRows(t, forest))
    requires Fits(t, t[c].parent, tree) && ShownIn(t, Joined(t, forest, c), t[c].parent, path, tree)
    ensures Relation(t, at, ResultRows(t, forest), c, path) ==
              RelationTo(t[c].toMany, Ids(at, c, path, KeysOf(tree.Related(c))))
  {
    JoinedProper(t, forest, |t|);
    KidsAreListing(t, forest, Joined(t, forest, |t|), c, path);
    RelatedListed(t, forest, c, path, tree);
  }

  lemma {:induction false} KidsRebuilt(t: Table, forest: seq<Tree>, objects: seq<DomainObject>, at: map<Address, nat>,
                                       c: nat, path: Path, tree: Tree, trees: seq<Tree>)
    requires ValidTable(t) && ForestFits(t, forest) && Read(t, objects, at, ResultRows(t, forest))
    requires 0 < c < |t| && Fits(t, t[c].parent, tree) && trees == tree.kids[c].trees
    requires ShownIn(t, Joined(t, forest, c), t[c].parent, path, tree)
    ensures RelatedRebuilt(t, objects, RelationTo(t[c].toMany, Ids(at, c, path, KeysOf(trees))), c, trees)
    decreases trees
  {
    assert SiblingsFit(t, t[c].parent, c, trees);
    forall k | 0 <= k < |trees|
      ensures Rebuilt(t, objects, At(at, Address(c, path + [trees[k].key])), c, trees[k])
    {
      assert Fits(t, c, trees[k]);
      KidJoined(t, forest, c, path, tree, k);
      TreeRebuilt(t, forest, objects, at, c, path + [trees[k].key], trees[k]);
    }
  }

  lemma {:induction false} KidJoined(t: Table, forest: seq<Tree>, c: nat, path: Path, tree: Tree, k: nat)
    requires ValidTable(t) && 0 < c < |t| && k < |tree.Related(c)|
    requires ShownIn(t, Joined(t, forest, c), t[c].parent, path, tree)
    ensures var kid := tree.Related(c)[k];
            ShownIn(t, Joined(t, forest, c + 1), c, path + [kid.key], kid)
  {
    var ps := Joined(t, forest, c);
    KidShown(t, ps, c, path, tree, k);
    JoinedStep(t, forest, c, c + 1, ps);
  }

  // ---------------------------------------------------------------- each object once

  /** The objects found when following relationships along trees, each before those related to it. */
  function Walk(objects: seq<DomainObject>, ids: seq<nat>, trees: seq<Tree>): seq<nat>
    decreases trees, 0
  {
    if trees == [] || ids == [] then []
    else
      var related := if ids[0] < |objects| then objects[ids[0]].related else map[];
      [ids[0]] + WalkBelow(objects, related, trees[0].kids, 0) + Walk(objects, ids[1..], trees[1..])
  }

  function WalkBelow(objects: seq<DomainObject>, related: map<nat, Related>, kids: seq<Siblings>, c: nat): seq<nat>
    requires c <= |kids|
    decreases kids, |kids| - c
  {
    if c == |kids| then []
    else
      Walk(objects, if c in related then Referred(related[c]) else [], kids[c].trees)
      + WalkBelow(objects, related, kids, c + 1)
  }

  /** Different places of the forest have different objects, and there are no other objects. */
  ghost predicate EachOnce(objects: seq<DomainObject>, ids: seq<nat>, forest: seq<Tree>) {
    var walk := Walk(objects, ids, forest);
    |walk| == Nodes(forest) == |objects| && Distinct(walk) && forall k :: 0 <= k < |walk| ==> walk[k] < |objects|
  }

  ghost function AtAll(at: map<Address, nat>, places: seq<Address>): seq<nat> {
    seq(|places|, k requires 0 <= k < |places| => At(at, places[k]))
  }

  lemma {:induction false} AtAllJoins(at: map<Address, nat>, a: seq<Address>, b: seq<Address>)
    ensures AtAll(at, a + b) == AtAll(at, a) + AtAll(at, b)
  {
  }

  /** The join shows trees of sector c below the path. */
  ghost predicate AllShown(t: Table, forest: seq<Tree>, c: nat, above: Path, trees: seq<Tree>)
    requires ValidTable(t) && c < |t|
  {
    forall k {:trigger TreeShown(t, forest, c, above, trees[k])} ::
      0 <= k < |trees| ==> TreeShown(t, forest, c, above, trees[k])
  }

  ghost predicate TreeShown(t: Table, forest: seq<Tree>, c: nat, above: Path, tree: Tree)
    requires ValidTable(t) && c < |t|
  {
    Fits(t, c, tree) && ShownIn(t, Joined(t, forest, c + 1), c, above + [tree.key], tree)
  }

  lemma {:induction false} WalkPlaces(t: Table, forest: seq<Tree>, objects: seq<DomainObject>, at: map<Address, nat>,
                                      c: nat, above: Path, trees: seq<Tree>)
    requires ValidTable(t) && ForestFits(t, forest) && Read(t, objects, at, ResultRows(t, forest))
    requires c < |t| && AllShown(t, forest, c, above, trees)
    ensures Walk(objects, Ids(at, c, above, KeysOf(trees)), trees) == AtAll(at, Places(trees, c, above))
    ensures forall a :: a in Places(trees, c, above) ==> a in at
    decreases trees, 0
  {
    if trees != [] {
      var tree, path, ids := trees[0], above + [trees[0].key], Ids(at, c, above, KeysOf(trees));
      var a := Address(c, path);
      assert TreeShown(t, forest, c, above, tree);
      TreeAt(t, forest, objects, at, c, path, tree);
      WalkPlacesBelow(t, forest, objects, at, c, path, tree, 0);
      WalkPlaces(t, forest, objects, at, c, above, trees[1..]);
      assert ids[1..] == Ids(at, c, above, KeysOf(trees[1..]));
      AtAllTree(at, a, PlacesBelow(tree.kids, 0, path), Places(trees[1..], c, above));
    }
  }

  lemma {:induction false} TreeAt(t: Table, forest: seq<Tree>, objects: seq<DomainObject>, at: map<Address, nat>,
                                  c: nat, path: Path, tree: Tree)
    requires ValidTable(t) && ForestFits(t, forest) && Read(t, objects, at, ResultRows(t, forest))
    requires c < |t| && ShownIn(t, Joined(t, forest, c + 1), c, path, tree)
    ensures Address(c, path) in at && At(at, Address(c, path)) == at[Address(c, path)] < |objects|
  {
    StillShown(t, forest, c + 1, |t|, c, path, tree);
    TreeStored(t, forest, objects, at, c, path, tree);
  }

  lemma {:induction false} AtAllTree(at: map<Address, nat>, a: Address, below: seq<Address>, rest: seq<Address>)
    ensures AtAll(at, [a] + below + rest) == [At(at, a)] + AtAll(at, below) + AtAll(at, rest)
  {
    AtAllJoins(at, [a], below);
    AtAllJoins(at, [a] + below, rest);
    assert AtAll(at, [a]) == [At(at, a)];
  }

  lemma {:induction false} WalkKids(t: Table, forest: seq<Tree>, objects: seq<DomainObject>, at: map<Address, nat>,
                                    s: nat, path: Path, tree: Tree, c: nat, trees: seq<Tree>)
    requires ValidTable(t) && ForestFits(t, forest) && Read(t, objects, at, ResultRows(t, forest))
    requires Fits(t, s, tree) && ShownIn(t, Joined(t, forest, s + 1), s, path, tree)
    requires c < |tree.kids| && trees == tree.kids[c].trees && Address(s, path) in at
    ensures var related := objects[at[Address(s, path)]].related;
            Walk(objects, if c in related then Referred(related[c]) else [], trees) == AtAll(at, Places(trees, c, path))
    ensures forall a :: a in Places(trees, c, path) ==> a in at
    decreases trees, 1
  {
    assert SiblingsFit(t, s, c, trees);
    if trees != [] {
      KidsShown(t, forest, s, path, tree, c);
      RelatedStored(t, forest, objects, at, Address(s, path), c, tree);
      WalkPlaces(t, forest, objects, at, c, path, trees);
      ReferredIds(t[c].toMany, Ids(at, c, path, KeysOf(trees)));
    }
  }

  lemma {:induction false} WalkPlacesBelow(t: Table, forest: seq<Tree>, objects: seq<DomainObject>,
                                           at: map<Address, nat>, s: nat, path: Path, tree: Tree, c: nat)
    requires ValidTable(t) && ForestFits(t, forest) && Read(t, objects, at, ResultRows(t, forest))
    requires Fits(t, s, tree) && ShownIn(t, Joined(t, forest, s + 1), s, path, tree) && c <= |tree.kids|
    requires Address(s, path) in at
    ensures WalkBelow(objects, objects[at[Address(s, path)]].related, tree.kids, c)
         == AtAll(at, PlacesBelow(tree.kids, c, path))
    ensures forall a :: a in PlacesBelow(tree.kids, c, path) ==> a in at
    decreases tree.kids, |tree.kids| - c
  {
    if c < |tree.kids| {
      WalkPlacesBelow(t, forest, objects, at, s, path, tree, c + 1);
      WalkKids(t, forest, objects, at, s, path, tree, c, tree.kids[c].trees);
      AtAllJoins(at, Places(tree.kids[c].trees, c, path), PlacesBelow(tree.kids, c + 1, path));
    }
  }

  lemma {:induction false} ReferredIds(toMany: bool, ids: seq<nat>)
    requires !toMany ==> |ids| <= 1
    ensures Referred(RelationTo(toMany, ids)) == ids
  {
  }

  lemma {:induction false} KidsShown(t: Table, forest: seq<Tree>, s: nat, path: Path, tree: Tree, c: nat)
    requires ValidTable(t) && ForestFits(t, forest) && Fits(t, s, tree) && 0 < c < |t| && t[c].parent == s
    requires ShownIn(t, Joined(t, forest, s + 1), s, path, tree)
    ensures ShownIn(t, Joined(t, forest, c), s, path, tree)
    ensures AllShown(t, forest, c, path, tree.kids[c].trees)
  {
    var trees := tree.kids[c].trees;
    assert SiblingsFit(t, s, c, trees);
    StillShown(t, forest, s + 1, c, s, path, tree);
    forall k | 0 <= k < |trees|
      ensures TreeShown(t, forest, c, path, trees[k])
    {
      assert Fits(t, c, trees[k]);
      KidJoined(t, forest, c, path, tree, k);
    }
  }

  /** Every address is a place of the forest. */
  lemma {:induction false} AddressPlaced(t: Table, forest: seq<Tree>, a: Address)
    requires ValidTable(t) && ForestFits(t, forest) && AllRows(t, ResultRows(t, forest))
    requires Known(t, ResultRows(t, forest), a)
    ensures a in Places(forest, 0, [])
  {
    var ps, rows := Joined(t, forest, |t|), ResultRows(t, forest);
    JoinedProper(t, forest, |t|);
    var i :| 0 <= i < |rows| && Shows(t, rows[i], a);
    assert Proper(t, forest, ps[i]);
    RowCells(t, forest, ps[i], a.sector);
    RowPath(t, forest, ps[i], a.sector);
    PickPlaced(t, forest, ps[i], a.sector);
  }

  lemma {:induction false} RootsShown(t: Table, forest: seq<Tree>)
    requires ValidTable(t) && ForestFits(t, forest)
    ensures AllShown(t, forest, 0, [], forest)
  {
    forall k | 0 <= k < |forest|
      ensures TreeShown(t, forest, 0, [], forest[k])
    {
      assert Fits(t, 0, forest[k]);
      RootShown(t, forest, k);
      assert [] + [forest[k].key] == [forest[k].key];
    }
  }

  lemma {:induction false} ObjectsOnce(t: Table, forest: seq<Tree>, objects: seq<DomainObject>, at: map<Address, nat>)
    requires ValidTable(t) && ForestFits(t, forest) && Read(t, objects, at, ResultRows(t, forest))
    ensures EachOnce(objects, Ids(at, 0, [], KeysOf(forest)), forest)
  {
    var places := Places(forest, 0, []);
    RootsShown(t, forest);
    WalkPlaces(t, forest, objects, at, 0, [], forest);
    PlacesDistinct(t, forest, 0, []);
    PlacesCount(forest, 0, []);
    forall a
      ensures a in places <==> a in at.Keys
    {
      if a in at {
        assert Known(t, ResultRows(t, forest), a);
        AddressPlaced(t, forest, a);
      }
    }
    DistinctCount(places, at.Keys);
    AtAllDistinct(at, places);
  }

  lemma {:induction false} AtAllDistinct(at: map<Address, nat>, places: seq<Address>)
    requires Injective(at) && Distinct(places) && forall a :: a in places ==> a in at
    ensures Distinct(AtAll(at, places))
  {
    forall i, j | 0 <= i < j < |places|
      ensures AtAll(at, places)[i] != AtAll(at, places)[j]
    {
      assert Apart(at, places[i], places[j]);
    }
  }

  // ---------------------------------------------------------------- the whole read

  /** The objects found are the forest: its trees in their order. */
  ghost predicate ForestRebuilt(t: Table, objects: seq<DomainObject>, ids: seq<nat>, forest: seq<Tree>) {
    |ids| == |forest| && forall k {:trigger Rebuilt(t, objects, ids[k], 0, forest[k])} ::
      0 <= k < |forest| ==> Rebuilt(t, objects, ids[k], 0, forest[k])
  }

  lemma {:induction false} RootsRebuilt(t: Table, forest: seq<Tree>, objects: seq<DomainObject>, at: map<Address, nat>)
    requires ValidTable(t) && ForestFits(t, forest) && Read(t, objects, at, ResultRows(t, forest))
    ensures ForestRebuilt(t, objects, Ids(at, 0, [], Kids(t, ResultRows(t, forest), 0, [])), forest)
  {
    JoinedProper(t, forest, |t|);
    KidsAreListing(t, forest, Joined(t, forest, |t|), 0, []);
    RootsListed(t, forest);
    forall k | 0 <= k < |forest|
      ensures Rebuilt(t, objects, At(at, Address(0, [] + [forest[k].key])), 0, forest[k])
    {
      assert Fits(t, 0, forest[k]);
      RootShown(t, forest, k);
      assert [] + [forest[k].key] == [forest[k].key];
      TreeRebuilt(t, forest, objects, at, 0, [forest[k].key], forest[k]);
    }
  }

  lemma {:induction false} CoherentPrefix(t: Table, rows: seq<Row>, n: nat)
    requires Coherent(t, rows) && n <= |rows|
    ensures Coherent(t, rows[..n])
    decreases |rows|
  {
    if n < |rows| {
      var m := |rows| - 1;
      assert rows == rows[..m] + [rows[m]];
      ContextOf(t, rows[..m], rows[m]);
      CoherentPrefix(t, rows[..m], n);
      assert rows[..m][..n] == rows[..n];
    } else {
      assert rows[..n] == rows;
    }
  }

  /** All rows of a query are processed. */
  method ReadRows(t: Table, rows: seq<Row>) returns (operation: ReadProjectionOperation)
    requires ValidTable(t) && Coherent(t, rows)
    ensures fresh(operation) && operation.sectors == t && operation.Valid() && operation.seen == rows
  {
    operation := new ReadProjectionOperation(t);
    for i := 0 to |rows|
      invariant fresh(operation) && operation.sectors == t && operation.Valid() && operation.seen == rows[..i]
    {
      assert rows[..i] + [rows[i]] == rows[..i + 1];
      CoherentPrefix(t, rows, i + 1);
      operation.OnResult(rows[i]);
    }
    assert rows[..|rows|] == rows;
  }

  lemma {:induction false} RowsRebuild(t: Table, forest: seq<Tree>, objects: seq<DomainObject>,
                                       tuples: seq<Option<nat>>, at: map<Address, nat>, rows: seq<Row>, ids: seq<nat>)
    requires ValidTable(t) && ForestFits(t, forest) && rows == ResultRows(t, forest)
    requires AllRows(t, rows) && Between(t, objects, tuples, at, rows) && ids == Ids(at, 0, [], Kids(t, rows, 0, []))
    ensures ForestRebuilt(t, objects, ids, forest) && EachOnce(objects, ids, forest)
    ensures rows != [] <==> forest != []
  {
    BetweenIsRead(t, objects, tuples, at, rows);
    RootsRebuilt(t, forest, objects, at);
    ObjectsOnce(t, forest, objects, at);
    RootsAreForest(t, forest);
    SomeRows(t, forest);
  }

  lemma {:induction false} RootsAreForest(t: Table, forest: seq<Tree>)
    requires ValidTable(t) && ForestFits(t, forest) && AllRows(t, ResultRows(t, forest))
    ensures Kids(t, ResultRows(t, forest), 0, []) == KeysOf(forest)
  {
    JoinedProper(t, forest, |t|);
    KidsAreListing(t, forest, Joined(t, forest, |t|), 0, []);
    RootsListed(t, forest);
  }

  /** A scan over the rows of a forest reports the forest, and has made one object for each of its places. */
  method ReadForest(t: Table, rows: seq<Row>, ghost forest: seq<Tree>)
    returns (operation: ReadProjectionOperation, result: ReadResult)
    requires ValidTable(t) && ForestFits(t, forest) && rows == ResultRows(t, forest)
    ensures result.value.Many? && ForestRebuilt(t, operation.objects, result.value.ids, forest)
    ensures EachOnce(operation.objects, result.value.ids, forest)
    ensures result.success <==> forest != []
  {
    ResultCoherent(t, forest);
    operation := ReadRows(t, rows);
    result := operation.OnEnd(true);
    RowsRebuild(t, forest, operation.objects, operation.tuples, operation.at, rows, operation.roots);
  }

  lemma {:induction false} SomeRows(t: Table, forest: seq<Tree>)
    requires ValidTable(t)
    ensures ResultRows(t, forest) != [] <==> forest != []
  {
    SomeJoined(t, forest, |t|);
  }

  lemma {:induction false} SomeJoined(t: Table, forest: seq<Tree>, width: nat)
    requires ValidTable(t) && 0 < width <= |t|
    ensures Joined(t, forest, width) != [] <==> forest != []
  {
    if width > 1 {
      SomeJoined(t, forest, width - 1);
      JoinHeads(t, Joined(t, forest, width - 1), width - 1);
    }
  }
}
