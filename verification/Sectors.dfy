/** The sectors of a projection and of all projections below it
    (database-jones/Adapter/api/UserContext.js, createSector). */
module Sectors {
  import opened ProjectionTrees

  class Worklist {
    var items: seq<Projection>

    constructor (items: seq<Projection>)
      ensures this.items == items
    {
      this.items := items;
    }

    /** Does nothing on an empty list. */
    method Shift()
      modifies this
      ensures items == if old(items) == [] then [] else old(items)[1..]
    {
      if items != [] {
        items := items[1..];
      }
    }

    method Push(projection: Projection)
      modifies this
      ensures items == old(items) + [projection]
    {
      items := items + [projection];
    }
  }

  // ---------------------------------------------------------------- what the sectors should be

  function NonKey(fields: seq<string>, keyFields: seq<string>): seq<string> {
    if fields == [] then []
    else
      var before := NonKey(fields[..|fields| - 1], keyFields);
      if fields[|fields| - 1] in keyFields then before else before + [fields[|fields| - 1]]
  }

  /** Those fields are the ones at ascending places in the list, exactly those places that do not hold
      a key field. */
  lemma {:induction false} NonKeyExact(fields: seq<string>, keyFields: seq<string>) returns (at: seq<nat>)
    ensures |at| == |NonKey(fields, keyFields)|
    ensures forall i, j :: 0 <= i < j < |at| ==> at[i] < at[j]
    ensures forall i :: 0 <= i < |at| ==> at[i] < |fields| && NonKey(fields, keyFields)[i] == fields[at[i]]
    ensures forall k :: k in at <==> 0 <= k < |fields| && fields[k] !in keyFields
  {
    if fields == [] {
      at := [];
    } else {
      var n := |fields| - 1;
      at := NonKeyExact(fields[..n], keyFields);
      assert forall k :: k in at ==> k < n;
      if fields[n] !in keyFields {
        at := at + [n];
      }
    }
  }

  function FieldsOf(sector: Sector): nat {
    |sector.keyFields| + |sector.nonKeyFields|
  }

  /** The number of fields in the first k sectors. */
  function FieldsBefore(sectors: seq<Sector>, k: nat): nat
    requires k <= |sectors|
  {
    if k == 0 then 0 else FieldsBefore(sectors, k - 1) + FieldsOf(sectors[k - 1])
  }

  /** The sectors after the first whose parent is sector k, in ascending order. */
  function ChildIndexes(sectors: seq<Sector>, k: nat, n: nat): seq<nat>
    requires n <= |sectors|
  {
    if n <= 1 then []
    else
      var before := ChildIndexes(sectors, k, n - 1);
      if sectors[n - 1].parentSectorIndex == k then before + [n - 1] else before
  }

  /** Sector k is that of projection k in the list, its parent an earlier one that has it among
      its relationships. */
  ghost predicate SectorFor(sectors: seq<Sector>, list: seq<Tree>, k: nat)
    requires k < |sectors| <= |list|
  {
    var sector, projection := sectors[k], list[k].projection;
    && sector.projection == projection && sector.index == k
    && sector.keyFields == projection.keyFields
    && sector.nonKeyFields == NonKey(projection.fields, projection.keyFields)
    && sector.offset == FieldsBefore(sectors, k)
    && (k > 0 ==> sector.parentSectorIndex < k && list[k] in list[sector.parentSectorIndex].kids)
    && sector.childSectorIndexes == ChildIndexes(sectors, k, |sectors|)
  }

  ghost predicate SectorsFor(sectors: seq<Sector>, list: seq<Tree>) {
    |sectors| <= |list| && forall k {:trigger SectorFor(sectors, list, k)} :: 0 <= k < |sectors| ==>
        SectorFor(sectors, list, k)
  }

  /** The projection has a sector for itself and each projection below it, breadth first. */
  ghost predicate Built(tree: Tree)
    reads tree.projection`sectors
  {
    |tree.projection.sectors| == |Bfs([tree])| && SectorsFor(tree.projection.sectors, Bfs([tree]))
  }

  // ---------------------------------------------------------------- one more sector

  /** The parent sector has the new one among its children. */
  function Adopted(sectors: seq<Sector>, parent: nat): seq<Sector>
    requires parent < |sectors|
  {
    sectors[parent := sectors[parent].(childSectorIndexes := sectors[parent].childSectorIndexes + [|sectors|])]
  }

  function WithSector(sectors: seq<Sector>, sector: Sector): seq<Sector>
    requires sectors == [] || sector.parentSectorIndex < |sectors|
  {
    (if sectors == [] then [] else Adopted(sectors, sector.parentSectorIndex)) + [sector]
  }

  lemma {:induction false} SameFields(sectors: seq<Sector>, sector: Sector, k: nat)
    requires sectors == [] || sector.parentSectorIndex < |sectors|
    requires k <= |sectors|
    ensures FieldsBefore(WithSector(sectors, sector), k) == FieldsBefore(sectors, k)
  {
    if k > 0 {
      SameFields(sectors, sector, k - 1);
    }
  }

  lemma {:induction false} SameChildren(sectors: seq<Sector>, sector: Sector, k: nat, n: nat)
    requires sectors == [] || sector.parentSectorIndex < |sectors|
    requires n <= |sectors|
    ensures ChildIndexes(WithSector(sectors, sector), k, n) == ChildIndexes(sectors, k, n)
  {
    if n > 1 {
      SameChildren(sectors, sector, k, n - 1);
    }
  }

  lemma {:induction false} NoChildYet(sectors: seq<Sector>, list: seq<Tree>, k: nat, n: nat)
    requires SectorsFor(sectors, list) && n <= |sectors| <= k
    ensures ChildIndexes(sectors, k, n) == []
  {
    if n > 1 {
      assert SectorFor(sectors, list, n - 1);
      NoChildYet(sectors, list, k, n - 1);
    }
  }

  lemma {:induction false} OneMore(sectors: seq<Sector>, list: seq<Tree>, sector: Sector)
    requires SectorsFor(sectors, list) && |sectors| < |list|
    requires var projection := list[|sectors|].projection;
             sector == Sector(projection, |sectors|, FieldsBefore(sectors, |sectors|), projection.keyFields,
                              NonKey(projection.fields, projection.keyFields), sector.parentSectorIndex, [])
    requires |sectors| > 0 ==>
               sector.parentSectorIndex < |sectors| && list[|sectors|] in list[sector.parentSectorIndex].kids
    ensures SectorsFor(WithSector(sectors, sector), list)
  {
    var n, more := |sectors|, WithSector(sectors, sector);
    forall k | 0 <= k <= n
      ensures SectorFor(more, list, k)
    {
      SameFields(sectors, sector, k);
      SameChildren(sectors, sector, k, n);
      if k < n {
        assert SectorFor(sectors, list, k);
      } else {
        NoChildYet(sectors, list, n, n);
      }
    }
  }

  // ---------------------------------------------------------------- building sectors

  /** Non-key fields are the projected fields that are not in the key. */
  method CollectNonKeyFields(fields: seq<string>, keyFields: seq<string>) returns (nonKeyFields: seq<string>)
    ensures nonKeyFields == NonKey(fields, keyFields)
  {
    nonKeyFields := [];
    for i := 0 to |fields|
      invariant nonKeyFields == NonKey(fields[..i], keyFields)
    {
      assert fields[..i + 1][..i] == fields[..i];
      if fields[i] !in keyFields {
        nonKeyFields := nonKeyFields + [fields[i]];
      }
    }
    assert fields[..|fields|] == fields;
  }

  /** The first sector of the parent projection, or index if there is none. */
  method FindParent(sectors: seq<Sector>, index: nat, parent: Projection?) returns (parentSectorIndex: nat)
    requires index == |sectors|
    ensures parentSectorIndex <= index
    ensures forall k :: 0 <= k < parentSectorIndex ==> sectors[k].projection != parent
    ensures parentSectorIndex < index ==> sectors[parentSectorIndex].projection == parent
  {
    parentSectorIndex := 0;
    while parentSectorIndex < index
      invariant parentSectorIndex <= index
      invariant forall k :: 0 <= k < parentSectorIndex ==> sectors[k].projection != parent
    {
      if sectors[parentSectorIndex].projection == parent {
        return;
      }
      parentSectorIndex := parentSectorIndex + 1;
    }
  }

  ghost function AllKids(list: seq<Tree>): set<Projection> {
    set k, j | 0 <= k < |list| && 0 <= j < |list[k].kids| :: list[k].kids[j].projection
  }

  ghost predicate AllLinked(list: seq<Tree>)
    reads Roots(list)`relationships, AllKids(list)`parentProjection
  {
    forall k {:trigger Linked(list[k])} :: 0 <= k < |list| ==>
      assert Roots(list)[k] == list[k].projection;
      assert forall p :: p in Roots(list[k].kids) ==> p in AllKids(list);
      Linked(list[k])
  }

  /** In a list without repeats the parent projection is that of the parent found first. */
  lemma {:induction false} ParentFound(sectors: seq<Sector>, list: seq<Tree>, tree: Tree, i: nat)
    requires list == Bfs([tree]) && Once([tree]) && AllLinked(list) && SectorsFor(sectors, list)
    requires 0 < i == |sectors| < |list|
    ensures exists j :: 0 <= j < i && sectors[j].projection == list[i].projection.parentProjection
    ensures forall j :: 0 <= j < i && sectors[j].projection == list[i].projection.parentProjection ==>
              list[i] in list[j].kids
  {
    var p := ParentListed([tree], i);
    assert Linked(list[p]);
    var k :| 0 <= k < |list[p].kids| && list[p].kids[k] == list[i];
    assert Roots(list[p].kids)[k] == list[i].projection;
    assert list[i].projection in Roots(list[p].kids);
    assert SectorFor(sectors, list, p);
    forall j | 0 <= j < i && sectors[j].projection == list[i].projection.parentProjection
      ensures list[i] in list[j].kids
    {
      assert SectorFor(sectors, list, j);
      assert Roots(list)[j] == Roots(list)[p];
      assert j == p;
    }
  }

  /** The sector of one projection is added to those of the owner. */
  method AddSector(owner: Projection, projection: Projection, index: nat, offset: nat,
                   ghost list: seq<Tree>, ghost tree: Tree)
    requires list == Bfs([tree]) && Once([tree]) && AllLinked(list)
    requires SectorsFor(owner.sectors, list) && index == |owner.sectors| < |list|
    requires projection == list[index].projection && offset == FieldsBefore(owner.sectors, index)
    modifies owner`sectors
    ensures SectorsFor(owner.sectors, list) && |owner.sectors| == index + 1
    ensures FieldsBefore(owner.sectors, index + 1) == offset + FieldsOf(owner.sectors[index])
  {
    ghost var before := owner.sectors;
    var parentSectorIndex := 0;
    if index != 0 {
      ParentFound(owner.sectors, list, tree, index);
      parentSectorIndex := FindParent(owner.sectors, index, projection.parentProjection);
      var parent := owner.sectors[parentSectorIndex];
      owner.sectors := owner.sectors[parentSectorIndex :=
          parent.(childSectorIndexes := parent.childSectorIndexes + [index])];
    }
    var nonKeyFields := CollectNonKeyFields(projection.fields, projection.keyFields);
    var sector := Sector(projection, index, offset, projection.keyFields, nonKeyFields, parentSectorIndex, []);
    OneMore(before, list, sector);
    owner.sectors := owner.sectors + [sector];
    assert owner.sectors == WithSector(before, sector);
    SameFields(before, sector, index);
  }

  /** The related projections join the inner worklist, and the outer one unless they are on it. */
  method AddRelationships(projection: Projection, outer: Worklist, inner: Worklist)
    requires outer != inner
    modifies outer, inner
    ensures inner.items == old(inner.items) + projection.relationships
    ensures outer.items == AddMissing(old(outer.items), projection.relationships)
  {
    var relationships := projection.relationships;
    for i := 0 to |relationships|
      invariant inner.items == old(inner.items) + relationships[..i]
      invariant AddMissing(outer.items, relationships[i..]) == AddMissing(old(outer.items), relationships)
    {
      inner.Push(relationships[i]);
      if relationships[i] !in outer.items {
        outer.Push(relationships[i]);
      }
    }
  }

  /** The worklists and sectors while the inner worklist of an owner is worked off: queue are the
      trees on the inner list, todo those the outer list will have at the end of it. */
  ghost predicate Working(outer: seq<Projection>, inner: seq<Projection>, sectors: seq<Sector>, owner: Projection,
                          queue: seq<Tree>, todo: seq<Tree>)
  {
    && todo != [] && todo[0].projection == owner
    && inner == Roots(queue) && Grow(outer, queue) == Roots(todo)
    && var list := Bfs([todo[0]]);
       && SectorsFor(sectors, list) && list == list[..|sectors|] + Bfs(queue)
  }

  /** What the outer list will have is a list of linked trees, without repeats. */
  ghost predicate Proper(todo: seq<Tree>)
    reads Roots(todo)`relationships, AllKids(todo)`parentProjection
  {
    && NoRepeats(Roots(todo)) && Closed(todo) && AllLinked(todo)
    && forall k {:trigger Once([todo[k]])} :: 0 <= k < |todo| ==> Once([todo[k]])
  }

  lemma {:induction false} ProperRest(todo: seq<Tree>)
    requires Proper(todo) && todo != []
    ensures Proper(todo[1..])
  {
    var rest := todo[1..];
    ClosedRest(todo);
    forall k | 0 <= k < |rest|
      ensures Linked(rest[k]) && Once([rest[k]]) && Roots(rest)[k] == Roots(todo)[k + 1]
    {
      assert Linked(todo[k + 1]) && Once([todo[k + 1]]);
    }
  }

  /** The trees below one on the list are linked. */
  lemma {:induction false} LinkedBelow(todo: seq<Tree>)
    requires Proper(todo) && todo != []
    ensures AllLinked(Bfs([todo[0]]))
  {
    ListedIn([todo[0]], todo);
    forall i | 0 <= i < |Bfs([todo[0]])|
      ensures Linked(Bfs([todo[0]])[i])
    {
      var k :| 0 <= k < |todo| && todo[k] == Bfs([todo[0]])[i];
      assert Linked(todo[k]);
    }
  }

  lemma {:induction false} NextInQueue(outer: seq<Projection>, inner: seq<Projection>, sectors: seq<Sector>,
                                       owner: Projection, queue: seq<Tree>, todo: seq<Tree>)
    requires Working(outer, inner, sectors, owner, queue, todo) && queue != []
    ensures inner != [] && inner[0] == queue[0].projection
    ensures |sectors| < |Bfs([todo[0]])| && Bfs([todo[0]])[|sectors|] == queue[0]
  {
    assert Bfs(queue)[0] == queue[0];
  }

  lemma {:induction false} WorkingNext(outer: seq<Projection>, inner: seq<Projection>, sectors: seq<Sector>,
                                       owner: Projection, queue: seq<Tree>, todo: seq<Tree>, sectors': seq<Sector>)
    requires Working(outer, inner, sectors, owner, queue, todo) && queue != []
    requires SectorsFor(sectors', Bfs([todo[0]])) && |sectors'| == |sectors| + 1
    ensures Working(AddMissing(outer, Roots(queue[0].kids)), inner[1..] + Roots(queue[0].kids), sectors', owner,
                    queue[1..] + queue[0].kids, todo)
    ensures Size(queue[1..] + queue[0].kids) < Size(queue)
  {
    SizeConcat(queue[1..], queue[0].kids);
    var list := Bfs([todo[0]]);
    var next := queue[1..] + queue[0].kids;
    assert Bfs(queue) == [queue[0]] + Bfs(next);
    assert list == list[..|sectors'|] + Bfs(next);
    assert inner[1..] + Roots(queue[0].kids) == Roots(next);
  }

  /** When a projection becomes the owner, the outer list has all that is below it already. */
  lemma {:induction false} WorkingFirst(todo: seq<Tree>)
    requires Closed(todo) && todo != []
    ensures Working(Roots(todo), [todo[0].projection], [], todo[0].projection, [todo[0]], todo)
  {
    GrowsNoMore(Roots(todo), [todo[0]], todo);
    assert Bfs([todo[0]]) == Bfs([todo[0]])[..0] + Bfs([todo[0]]);
  }

  lemma {:induction false} WorkDone(outer: seq<Projection>, inner: seq<Projection>, sectors: seq<Sector>,
                                    owner: Projection, todo: seq<Tree>)
    requires Working(outer, inner, sectors, owner, [], todo)
    ensures outer == Roots(todo) && |sectors| == |Bfs([todo[0]])|
  {
  }

  /** Takes the first projection off the inner list, adds its sector, and lists what it is related to. */
  method TakeFirst(outer: Worklist, inner: Worklist, owner: Projection, index: nat, offset: nat,
                   ghost queue: seq<Tree>, ghost todo: seq<Tree>)
    requires outer != inner && queue != [] && Proper(todo)
    requires Working(outer.items, inner.items, owner.sectors, owner, queue, todo)
    requires index == |owner.sectors| && offset == FieldsBefore(owner.sectors, index)
    modifies outer, inner, owner`sectors
    ensures Working(outer.items, inner.items, owner.sectors, owner, queue[1..] + queue[0].kids, todo)
    ensures |owner.sectors| == index + 1
    ensures FieldsBefore(owner.sectors, index + 1) == offset + FieldsOf(owner.sectors[index])
  {
    ghost var sectors0, outer0, inner0 := owner.sectors, outer.items, inner.items;
    NextInQueue(outer.items, inner.items, owner.sectors, owner, queue, todo);
    LinkedBelow(todo);
    assert Once([todo[0]]);
    var projection := inner.items[0];
    assert projection.relationships == Roots(queue[0].kids) by {
      assert Linked(Bfs([todo[0]])[index]);
    }
    AddSector(owner, projection, index, offset, Bfs([todo[0]]), todo[0]);
    inner.Shift();
    AddRelationships(projection, outer, inner);
    WorkingNext(outer0, inner0, sectors0, owner, queue, todo, owner.sectors);
  }

  /** Works off both worklists: every projection on the outer list gets its sectors. */
  method CreateSector(outer: Worklist, inner: Worklist, owner: Projection, index: nat, offset: nat,
                      ghost queue: seq<Tree>, ghost todo: seq<Tree>)
    requires outer != inner && queue != [] && Proper(todo)
    requires Working(outer.items, inner.items, owner.sectors, owner, queue, todo)
    requires index == |owner.sectors| && offset == FieldsBefore(owner.sectors, index)
    modifies outer, inner, Roots(todo)`sectors
    ensures outer.items == []
    ensures forall k {:trigger Built(todo[k])} :: 0 <= k < |todo| ==> Built(todo[k])
    decreases |todo|, Size(queue)
  {
    ghost var next := queue[1..] + queue[0].kids;
    SizeConcat(queue[1..], queue[0].kids);
    assert Roots(todo)[0] == owner;
    TakeFirst(outer, inner, owner, index, offset, queue, todo);
    if inner.items != [] {
      CreateSector(outer, inner, owner, index + 1, offset + FieldsOf(owner.sectors[index]), next, todo);
    } else {
      WorkDone(outer.items, inner.items, owner.sectors, owner, todo);
    }
    outer.Shift();
    if outer.items != [] {
      CreateNested(outer, todo);
    }
  }

  lemma {:induction false} RestOfRoots(todo: seq<Tree>)
    requires todo != [] && NoRepeats(Roots(todo))
    ensures Roots(todo[1..]) == Roots(todo)[1..] && todo[0].projection !in Roots(todo[1..])
  {
    assert Roots(todo)[0] == todo[0].projection;
  }

  /** The next projection on the outer list becomes the owner. */
  method CreateNested(outer: Worklist, ghost todo: seq<Tree>)
    requires |todo| > 1 && Proper(todo) && outer.items == Roots(todo[1..]) && Built(todo[0])
    modifies outer, Roots(todo)`sectors
    ensures outer.items == []
    ensures forall k {:trigger Built(todo[k])} :: 0 <= k < |todo| ==> Built(todo[k])
    decreases |todo|, 0
  {
    ProperRest(todo);
    RestOfRoots(todo);
    var nested := outer.items[0];
    nested.sectors := [];
    var inner := new Worklist([nested]);
    WorkingFirst(todo[1..]);
    CreateSector(outer, inner, nested, 0, 0, [todo[1]], todo[1..]);
    forall k | 0 <= k < |todo|
      ensures Built(todo[k])
    {
      assert k > 0 ==> Built(todo[1..][k - 1]);
    }
  }

  /** Builds the sectors of a projection, and of every projection in its tree. */
  method BuildSectors(projection: Projection, ghost tree: Tree)
    requires tree.projection == projection && Once([tree]) && AllLinked(Bfs([tree]))
    modifies Roots(Bfs([tree]))`sectors
    ensures forall k {:trigger Built(Bfs([tree])[k])} :: 0 <= k < |Bfs([tree])| ==> Built(Bfs([tree])[k])
  {
    ghost var todo := Bfs([tree]);
    assert Roots(todo)[0] == projection;
    AtFirst(tree);
    projection.sectors := [];
    var outer := new Worklist([projection]);
    var inner := new Worklist([projection]);
    CreateSector(outer, inner, projection, 0, 0, [tree], todo);
  }

  lemma {:induction false} AtFirst(tree: Tree)
    requires Once([tree]) && AllLinked(Bfs([tree]))
    ensures var todo := Bfs([tree]);
            Proper(todo) && Working([tree.projection], [tree.projection], [], tree.projection, [tree], todo)
  {
    var todo := Bfs([tree]);
    BfsClosed([tree]);
    forall k | 0 <= k < |todo|
      ensures Once([todo[k]])
    {
      PartOnce([tree], k);
    }
    assert [] + Roots(todo) == Roots(todo);
    GrowsToAll([], [tree]);
    assert [] + Roots([tree]) == [tree.projection];
    assert todo == todo[..0] + Bfs([tree]);
  }
}
