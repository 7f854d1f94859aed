/** What the domain objects built from joined rows are, and how one sector of one row changes
    them (jones-mysql/impl/MySQLConnection.js, ReadProjectionOperation). */
module ReadState {
  import opened Options
  import opened JoinRows

  /** What a relationship field of an object holds once it has been set: references are
      positions in the store of objects. */
  datatype Related = NullReference | Reference(id: nat) | Array(ids: seq<nat>)

  /** A domain object. The relationship to the sector c is in related[c] if it has been set. */
  datatype DomainObject = DomainObject(key: Key, data: seq<Cell>, related: map<nat, Related>)

  // ---------------------------------------------------------------- what the state should be

  ghost function At(at: map<Address, nat>, a: Address): nat {
    if a in at then at[a] else 0
  }

  /** The objects at the keys listed under a path. */
  ghost function Ids(at: map<Address, nat>, c: nat, above: Path, keys: seq<Key>): seq<nat> {
    seq(|keys|, j requires 0 <= j < |keys| => At(at, Address(c, above + [keys[j]])))
  }

  function RelationTo(toMany: bool, ids: seq<nat>): Related {
    if toMany then Array(ids) else if ids == [] then NullReference else Reference(ids[0])
  }

  /** The relationship of the object at the path to sector c, as far as the rows tell it. */
  ghost function Relation(t: Table, at: map<Address, nat>, rows: seq<Row>, c: nat, path: Path): Related
    requires AllRows(t, rows) && c < |t|
  {
    RelationTo(t[c].toMany, Ids(at, c, path, Kids(t, rows, c, path)))
  }

  ghost predicate Apart(at: map<Address, nat>, a: Address, b: Address)
    requires a in at && b in at
  {
    at[a] == at[b] ==> a == b
  }

  ghost predicate Injective(at: map<Address, nat>) {
    forall a, b {:trigger Apart(at, a, b)} :: a in at && b in at ==> Apart(at, a, b)
  }

  /** While the row after rows is processed, sectors below i have taken it into account. */
  ghost function RowsFor(rows: seq<Row>, row: Row, i: nat, s: nat): seq<Row> {
    if s < i then rows + [row] else rows
  }

  ghost predicate Fit(t: Table, rows: seq<Row>, row: Row) {
    AllRows(t, rows) && IsRow(t, row) && ValidTable(t)
  }

  ghost predicate Context(t: Table, rows: seq<Row>, row: Row) {
    Coherent(t, rows + [row]) && Fit(t, rows, row) && Nested(t, row)
  }

  ghost predicate Domain(t: Table, at: map<Address, nat>, rows: seq<Row>, row: Row, i: nat)
    requires Fit(t, rows, row)
  {
    forall a {:trigger Known(t, RowsFor(rows, row, i, a.sector), a)} ::
      a in at <==> Known(t, RowsFor(rows, row, i, a.sector), a)
  }

  ghost predicate Entries(objects: seq<DomainObject>, at: map<Address, nat>) {
    (forall a :: a in at ==> at[a] < |objects|) && Injective(at) && |at| == |objects|
  }

  /** The store holds one object for every address the rows show, and no other. */
  ghost predicate Stored(t: Table, objects: seq<DomainObject>, at: map<Address, nat>,
                         rows: seq<Row>, row: Row, i: nat)
    requires Fit(t, rows, row)
  {
    && Domain(t, at, rows, row, i)
    && Entries(objects, at)
    && (forall a {:trigger StoredAt(t, objects[at[a]], RowsFor(rows, row, i, a.sector), a)} ::
          a in at ==> StoredAt(t, objects[at[a]], RowsFor(rows, row, i, a.sector), a))
  }

  /** The object has the last key of its path and the data the rows show there. */
  ghost predicate StoredAt(t: Table, tuple: DomainObject, rows: seq<Row>, a: Address)
    requires AllRows(t, rows)
  {
    && a.path != [] && a.sector < |t| && tuple.key == a.path[|a.path| - 1]
    && DataShown(t, tuple, rows, a)
  }

  ghost predicate DataShown(t: Table, tuple: DomainObject, rows: seq<Row>, a: Address)
    requires AllRows(t, rows) && a.sector < |t|
  {
    forall k :: 0 <= k < |rows| && Present(t, rows[k], a.sector) && PathOf(t, rows[k], a.sector) == a.path ==>
      tuple.data == DataOf(t, rows[k], a.sector)
  }

  /** Relationships to sectors below i follow the row; the others are as before it, and unset
      in an object that the row has introduced. */
  ghost predicate RelationSet(t: Table, tuple: DomainObject, at: map<Address, nat>,
                              rows: seq<Row>, row: Row, i: nat, a: Address, c: nat)
    requires Fit(t, rows, row) && c < |t|
  {
    if c < i then c in tuple.related && tuple.related[c] == Relation(t, at, rows + [row], c, a.path)
    else if Known(t, rows, a) then c in tuple.related && tuple.related[c] == Relation(t, at, rows, c, a.path)
    else c !in tuple.related
  }

  ghost predicate RelationsSet(t: Table, objects: seq<DomainObject>, at: map<Address, nat>,
                               rows: seq<Row>, row: Row, i: nat)
    requires Fit(t, rows, row)
    requires forall a :: a in at ==> at[a] < |objects|
  {
    && (forall a, c {:trigger RelationSet(t, objects[at[a]], at, rows, row, i, a, c)} ::
          a in at && 0 < c < |t| && t[c].parent == a.sector ==>
            RelationSet(t, objects[at[a]], at, rows, row, i, a, c))
    && (forall a {:trigger OwnRelations(t, objects[at[a]], a.sector)} ::
          a in at ==> OwnRelations(t, objects[at[a]], a.sector))
  }

  /** The object has no other relationships than its sector's. */
  ghost predicate OwnRelations(t: Table, tuple: DomainObject, s: nat) {
    forall c {:trigger c in tuple.related} :: c in tuple.related ==> 0 < c < |t| && t[c].parent == s
  }

  /** The current tuple of a sector the row has reached is the object the row shows there. */
  ghost predicate Reached(t: Table, tuples: seq<Option<nat>>, at: map<Address, nat>, row: Row, i: nat)
    requires IsRow(t, row) && i <= |t| == |tuples|
  {
    forall s {:trigger ReachedAt(t, tuples[s], at, row, s)} :: 0 <= s < i ==> ReachedAt(t, tuples[s], at, row, s)
  }

  ghost predicate ReachedAt(t: Table, tuple: Option<nat>, at: map<Address, nat>, row: Row, s: nat)
    requires IsRow(t, row) && s < |t|
  {
    tuple == if Present(t, row, s) then Some(At(at, Address(s, PathOf(t, row, s)))) else None
  }

  /** Elsewhere it may still be the object of the row before, as long as the object it belongs
      to has not changed. */
  ghost predicate Remembered(t: Table, tuples: seq<Option<nat>>, at: map<Address, nat>,
                             rows: seq<Row>, row: Row, i: nat)
    requires Fit(t, rows, row) && |t| == |tuples|
  {
    forall s {:trigger RememberedAt(t, tuples[s].value, at, rows, row, i, s)} ::
      i <= s < |t| && tuples[s].Some? ==> RememberedAt(t, tuples[s].value, at, rows, row, i, s)
  }

  ghost predicate RememberedAt(t: Table, id: nat, at: map<Address, nat>,
                               rows: seq<Row>, row: Row, i: nat, s: nat)
    requires Fit(t, rows, row) && s < |t|
  {
    && rows != [] && Present(t, rows[|rows| - 1], s)
    && Address(s, PathOf(t, rows[|rows| - 1], s)) in at
    && id == at[Address(s, PathOf(t, rows[|rows| - 1], s))]
    && (s > 0 && t[s].parent < i ==>
          Present(t, row, t[s].parent) && ParentPath(t, row, s) == ParentPath(t, rows[|rows| - 1], s))
  }

  /** The state between two sectors of a row. */
  ghost predicate During(t: Table, objects: seq<DomainObject>, tuples: seq<Option<nat>>, at: map<Address, nat>,
                         rows: seq<Row>, row: Row, i: nat)
    requires Fit(t, rows, row)
  {
    && i <= |t| == |tuples|
    && Stored(t, objects, at, rows, row, i)
    && RelationsSet(t, objects, at, rows, row, i)
    && Reached(t, tuples, at, row, i)
    && Remembered(t, tuples, at, rows, row, i)
  }

  // ---------------------------------------------------------------- lemmas about one sector

  lemma {:induction false} AgreesWithRow(t: Table, rows: seq<Row>, row: Row, k: nat)
    requires Context(t, rows, row) && k < |rows|
    ensures Agree(t, row, rows[k]) && Agree(t, rows[k], row)
  {
    assert (rows + [row])[k] == rows[k] && (rows + [row])[|rows|] == row;
  }

  /** Other sectors keep their addresses and relations when sector i takes the row. */
  lemma {:induction false} KidsElsewhere(t: Table, rows: seq<Row>, row: Row, i: nat, above: Path)
    requires Fit(t, rows, row) && i < |t|
    requires !Present(t, row, i) || ParentPath(t, row, i) != above || KeyOf(t, row, i) in Kids(t, rows, i, above)
    ensures Kids(t, rows + [row], i, above) == Kids(t, rows, i, above)
  {
    KidsStep(t, rows, row, i, above);
  }

  /** If the row shows the owner of sector i but nothing in it, no row before did either. */
  lemma {:induction false} NullHasNoKids(t: Table, rows: seq<Row>, row: Row, i: nat)
    requires Context(t, rows, row) && 0 < i < |t|
    requires Present(t, row, t[i].parent) && !Present(t, row, i)
    ensures Kids(t, rows, i, ParentPath(t, row, i)) == []
  {
    var above := ParentPath(t, row, i);
    if Kids(t, rows, i, above) != [] {
      var k := KidsWitness(t, rows, i, above, Kids(t, rows, i, above)[0]);
      AgreesWithRow(t, rows, row, k);
    }
  }

  /** A to-one relationship has one key. */
  lemma {:induction false} ToOneKey(t: Table, rows: seq<Row>, row: Row, i: nat)
    requires Context(t, rows, row) && 0 < i < |t| && !t[i].toMany && Present(t, row, i)
    ensures var kids := Kids(t, rows, i, ParentPath(t, row, i));
            kids == [] || kids == [KeyOf(t, row, i)]
  {
    var above := ParentPath(t, row, i);
    var kids := Kids(t, rows, i, above);
    forall j | 0 <= j < |kids|
      ensures kids[j] == KeyOf(t, row, i)
    {
      var k := KidsWitness(t, rows, i, above, kids[j]);
      AgreesWithRow(t, rows, row, k);
    }
    assert |kids| > 1 ==> kids[0] == kids[1];
    KidsDistinct(t, rows, i, above);
  }

  /** An address that sector i already has shows the same data in the new row. */
  lemma {:induction false} DataAgrees(t: Table, rows: seq<Row>, row: Row, i: nat, tuple: DomainObject, a: Address)
    requires Context(t, rows, row) && i < |t| && a.sector == i
    requires Known(t, rows, a) && DataShown(t, tuple, rows, a)
    ensures DataShown(t, tuple, rows + [row], a)
  {
    var k :| 0 <= k < |rows| && Shows(t, rows[k], a);
    AgreesWithRow(t, rows, row, k);
  }

  lemma {:induction false} KnownStep(t: Table, rows: seq<Row>, row: Row, a: Address)
    requires AllRows(t, rows) && IsRow(t, row)
    ensures Known(t, rows + [row], a) <==> Known(t, rows, a) || Shows(t, row, a)
  {
    var all := rows + [row];
    assert all[|rows|] == row && forall k :: 0 <= k < |rows| ==> all[k] == rows[k];
    if k :| 0 <= k < |rows| && Shows(t, rows[k], a) {
      assert Shows(t, all[k], a);
    }
    if Shows(t, row, a) {
      assert Shows(t, all[|rows|], a);
    }
  }

  /** A stored object stays right if its key and data stay and sector i shows nothing new of it. */
  lemma {:induction false} StoredAtSame(t: Table, was: DomainObject, is_: DomainObject,
                                        rows: seq<Row>, row: Row, i: nat, a: Address)
    requires Context(t, rows, row) && i < |t| && was.key == is_.key && was.data == is_.data
    requires Known(t, RowsFor(rows, row, i, a.sector), a)
    requires StoredAt(t, was, RowsFor(rows, row, i, a.sector), a)
    ensures StoredAt(t, is_, RowsFor(rows, row, i + 1, a.sector), a)
  {
    if a.sector == i {
      DataAgrees(t, rows, row, i, is_, a);
    }
  }

  /** Sector i shows nothing new: the store need not change. */
  lemma {:induction false} StoredSame(t: Table, objects: seq<DomainObject>, at: map<Address, nat>,
                                      rows: seq<Row>, row: Row, i: nat)
    requires Context(t, rows, row) && i < |t| && Stored(t, objects, at, rows, row, i)
    requires Present(t, row, i) ==> Known(t, rows, Address(i, PathOf(t, row, i)))
    ensures Stored(t, objects, at, rows, row, i + 1)
  {
    forall a
      ensures a in at <==> Known(t, RowsFor(rows, row, i + 1, a.sector), a)
    {
      assert a in at <==> Known(t, RowsFor(rows, row, i, a.sector), a);
      if a.sector == i {
        KnownStep(t, rows, row, a);
      }
    }
    forall a | a in at
      ensures StoredAt(t, objects[at[a]], RowsFor(rows, row, i + 1, a.sector), a)
    {
      assert a in at <==> Known(t, RowsFor(rows, row, i, a.sector), a);
      StoredAtSame(t, objects[at[a]], objects[at[a]], rows, row, i, a);
    }
  }

  /** The store with one more object, for what sector i of the row shows. */
  ghost predicate Grown(t: Table, objects: seq<DomainObject>, at: map<Address, nat>, row: Row, i: nat,
                        objects': seq<DomainObject>, at': map<Address, nat>)
    requires IsRow(t, row) && i < |t|
  {
    && |objects'| == |objects| + 1
    && at' == at[Address(i, PathOf(t, row, i)) := |objects|]
    && (forall k :: 0 <= k < |objects| ==> objects'[k].key == objects[k].key && objects'[k].data == objects[k].data)
    && objects'[|objects|].key == KeyOf(t, row, i) && objects'[|objects|].data == DataOf(t, row, i)
  }

  lemma {:induction false} GrownEntries(t: Table, objects: seq<DomainObject>, at: map<Address, nat>, row: Row, i: nat,
                                        objects': seq<DomainObject>, at': map<Address, nat>)
    requires IsRow(t, row) && i < |t| && Entries(objects, at) && Grown(t, objects, at, row, i, objects', at')
    requires Address(i, PathOf(t, row, i)) !in at
    ensures Entries(objects', at')
  {
    forall a, b | a in at' && b in at'
      ensures Apart(at', a, b)
    {
      if a in at && b in at {
        assert Apart(at, a, b);
      }
    }
  }

  lemma {:induction false} NotStored(t: Table, at: map<Address, nat>, rows: seq<Row>, row: Row, i: nat)
    requires Fit(t, rows, row) && i < |t| && Domain(t, at, rows, row, i)
    requires !Known(t, rows, Address(i, PathOf(t, row, i)))
    ensures Address(i, PathOf(t, row, i)) !in at
  {
    var a := Address(i, PathOf(t, row, i));
    assert a in at <==> Known(t, RowsFor(rows, row, i, a.sector), a);
  }

  lemma {:induction false} DomainGrown(t: Table, at: map<Address, nat>, rows: seq<Row>, row: Row, i: nat,
                                       n: nat, at': map<Address, nat>)
    requires Fit(t, rows, row) && i < |t| && Domain(t, at, rows, row, i)
    requires Present(t, row, i) && at' == at[Address(i, PathOf(t, row, i)) := n]
    ensures Domain(t, at', rows, row, i + 1)
  {
    forall a
      ensures a in at' <==> Known(t, RowsFor(rows, row, i + 1, a.sector), a)
    {
      assert a in at <==> Known(t, RowsFor(rows, row, i, a.sector), a);
      if a.sector == i {
        KnownStep(t, rows, row, a);
      }
    }
  }

  /** Sector i shows an object for the first time: one object is added to the store. */
  lemma {:induction false} StoredNew(t: Table, objects: seq<DomainObject>, at: map<Address, nat>,
                                     rows: seq<Row>, row: Row, i: nat,
                                     objects': seq<DomainObject>, at': map<Address, nat>)
    requires Context(t, rows, row) && i < |t| && Stored(t, objects, at, rows, row, i)
    requires Present(t, row, i) && !Known(t, rows, Address(i, PathOf(t, row, i)))
    requires Grown(t, objects, at, row, i, objects', at')
    ensures Stored(t, objects', at', rows, row, i + 1)
  {
    DomainGrown(t, at, rows, row, i, |objects|, at');
    NotStored(t, at, rows, row, i);
    GrownEntries(t, objects, at, row, i, objects', at');
    forall a | a in at'
      ensures StoredAt(t, objects'[at'[a]], RowsFor(rows, row, i + 1, a.sector), a)
    {
      if a == Address(i, PathOf(t, row, i)) {
        NewData(t, rows, row, i, objects'[|objects|]);
      } else {
        assert a in at <==> Known(t, RowsFor(rows, row, i, a.sector), a);
        StoredAtSame(t, objects[at[a]], objects'[at[a]], rows, row, i, a);
      }
    }
  }

  lemma {:induction false} NewData(t: Table, rows: seq<Row>, row: Row, i: nat, tuple: DomainObject)
    requires Fit(t, rows, row) && i < |t|
    requires Present(t, row, i) && !Known(t, rows, Address(i, PathOf(t, row, i)))
    requires tuple.key == KeyOf(t, row, i) && tuple.data == DataOf(t, row, i)
    ensures StoredAt(t, tuple, rows + [row], Address(i, PathOf(t, row, i)))
  {
    PathParts(t, row, i, PathOf(t, row, i));
    var all := rows + [row];
    forall k | 0 <= k < |all| && Present(t, all[k], i) && PathOf(t, all[k], i) == PathOf(t, row, i)
      ensures tuple.data == DataOf(t, all[k], i)
    {
      assert k < |rows| ==> all[k] == rows[k] && !Shows(t, rows[k], Address(i, PathOf(t, row, i)));
    }
  }

  // ---------------------------------------------------------------- relationships

  ghost function OwnerAddress(t: Table, row: Row, i: nat): Address
    requires IsRow(t, row) && 0 < i < |t|
  {
    Address(t[i].parent, ParentPath(t, row, i))
  }

  /** Only the relationship of the owner to sector i is written. */
  ghost predicate OnlyOwnerWritten(t: Table, objects: seq<DomainObject>, at: map<Address, nat>,
                                   row: Row, i: nat, objects': seq<DomainObject>)
    requires IsRow(t, row) && 0 < i < |t|
  {
    && |objects| <= |objects'|
    && (forall k :: 0 <= k < |objects| ==>
          objects'[k].key == objects[k].key && objects'[k].data == objects[k].data
          && (objects'[k].related == objects[k].related
              || (Present(t, row, t[i].parent) && k == At(at, OwnerAddress(t, row, i))
                  && i in objects'[k].related
                  && objects'[k].related == objects[k].related[i := objects'[k].related[i]])))
    && (forall k :: |objects| <= k < |objects'| ==> objects'[k].related == map[])
  }

  /** The addresses before and after: sector i may have gained the one the row shows. */
  ghost predicate SameOrGrown(t: Table, at: map<Address, nat>, row: Row, i: nat, n: nat, at': map<Address, nat>)
    requires IsRow(t, row) && i < |t|
  {
    at' == at || (Address(i, PathOf(t, row, i)) !in at && at' == at[Address(i, PathOf(t, row, i)) := n])
  }

  lemma {:induction false} IdsElsewhere(t: Table, at: map<Address, nat>, row: Row, i: nat, n: nat,
                                        at': map<Address, nat>, c: nat, above: Path, keys: seq<Key>)
    requires IsRow(t, row) && i < |t| && SameOrGrown(t, at, row, i, n, at')
    requires c != i || above != ParentPath(t, row, i) || KeyOf(t, row, i) !in keys || at' == at
    ensures Ids(at', c, above, keys) == Ids(at, c, above, keys)
  {
    var path := PathOf(t, row, i);
    forall j | 0 <= j < |keys|
      ensures At(at', Address(c, above + [keys[j]])) == At(at, Address(c, above + [keys[j]]))
    {
      var a := Address(c, above + [keys[j]]);
      if a == Address(i, path) {
        assert a.path[..|path| - 1] == above && a.path[|path| - 1] == keys[j];
        PathParts(t, row, i, a.path);
      }
    }
  }

  /** An address that the row has brought in above sector i is the owner's. */
  lemma {:induction false} OwnerOrKnown(t: Table, at: map<Address, nat>,
                                        rows: seq<Row>, row: Row, i: nat, a: Address)
    requires Fit(t, rows, row) && 0 < i < |t| && Domain(t, at, rows, row, i)
    requires a in at && a.sector == t[i].parent
    ensures Known(t, rows, a) || (Present(t, row, t[i].parent) && a == OwnerAddress(t, row, i))
  {
    assert Known(t, RowsFor(rows, row, i, a.sector), a);
    KnownStep(t, rows, row, a);
  }

  lemma {:induction false} RelationStepAt(t: Table, objects: seq<DomainObject>, at: map<Address, nat>,
                                          rows: seq<Row>, row: Row, i: nat, n: nat,
                                          objects': seq<DomainObject>, at': map<Address, nat>, a: Address, c: nat)
    requires Fit(t, rows, row) && 0 < i < |t| && Entries(objects, at)
    requires a in at && 0 < c < |t| && t[c].parent == a.sector && c != i
    requires RelationSet(t, objects[at[a]], at, rows, row, i, a, c)
    requires OnlyOwnerWritten(t, objects, at, row, i, objects') && SameOrGrown(t, at, row, i, n, at')
    ensures RelationSet(t, objects'[at[a]], at', rows, row, i + 1, a, c)
  {
    IdsElsewhere(t, at, row, i, n, at', c, a.path, Kids(t, rows + [row], c, a.path));
    IdsElsewhere(t, at, row, i, n, at', c, a.path, Kids(t, rows, c, a.path));
  }

  lemma {:induction false} OtherUnwritten(t: Table, objects: seq<DomainObject>, at: map<Address, nat>,
                                          row: Row, i: nat, objects': seq<DomainObject>, a: Address)
    requires IsRow(t, row) && 0 < i < |t| && Entries(objects, at)
    requires a in at && (Present(t, row, t[i].parent) ==> a != OwnerAddress(t, row, i) && OwnerAddress(t, row, i) in at)
    requires OnlyOwnerWritten(t, objects, at, row, i, objects')
    ensures at[a] < |objects'| && objects'[at[a]].related == objects[at[a]].related
  {
    if Present(t, row, t[i].parent) {
      assert Apart(at, a, OwnerAddress(t, row, i));
    }
  }

  /** Objects other than the owner keep their relationship to sector i. */
  lemma {:induction false} RelationStepOther(t: Table, was: DomainObject, is_: DomainObject, at: map<Address, nat>,
                                             rows: seq<Row>, row: Row, i: nat, n: nat, at': map<Address, nat>,
                                                 a: Address)
    requires Context(t, rows, row) && 0 < i < |t| && Known(t, rows, a) && t[i].parent == a.sector
    requires a != OwnerAddress(t, row, i) || !Present(t, row, t[i].parent)
    requires RelationSet(t, was, at, rows, row, i, a, i) && was.related == is_.related
    requires SameOrGrown(t, at, row, i, n, at') && (at' != at ==> Present(t, row, i))
    ensures RelationSet(t, is_, at', rows, row, i + 1, a, i)
  {
    KidsElsewhere(t, rows, row, i, a.path);
    IdsElsewhere(t, at, row, i, n, at', i, a.path, Kids(t, rows, i, a.path));
  }

  /** The owner the row shows is in the store. */
  lemma {:induction false} OwnerStored(t: Table, at: map<Address, nat>, rows: seq<Row>, row: Row, i: nat)
    requires Fit(t, rows, row) && 0 < i < |t| && Domain(t, at, rows, row, i)
    requires Present(t, row, t[i].parent)
    ensures OwnerAddress(t, row, i) in at
  {
    var o := OwnerAddress(t, row, i);
    assert Shows(t, row, o);
    KnownStep(t, rows, row, o);
    assert o in at <==> Known(t, RowsFor(rows, row, i, o.sector), o);
  }

  /** All relationships after sector i, given the owner's. */
  lemma {:induction false} RelationsStep(t: Table, objects: seq<DomainObject>, at: map<Address, nat>,
                                         rows: seq<Row>, row: Row, i: nat,
                                         objects': seq<DomainObject>, at': map<Address, nat>)
    requires Context(t, rows, row) && 0 < i < |t|
    requires Domain(t, at, rows, row, i) && Entries(objects, at) && Entries(objects', at')
    requires RelationsSet(t, objects, at, rows, row, i)
    requires OnlyOwnerWritten(t, objects, at, row, i, objects')
    requires SameOrGrown(t, at, row, i, |objects|, at') && (at' != at ==> Present(t, row, i))
    requires at' != at ==> !Known(t, rows, Address(i, PathOf(t, row, i)))
    requires Present(t, row, t[i].parent) ==>
               var o := OwnerAddress(t, row, i);
               o in at && at[o] < |objects'| && RelationSet(t, objects'[at[o]], at', rows, row, i + 1, o, i)
    ensures RelationsSet(t, objects', at', rows, row, i + 1)
  {
    forall a, c | a in at' && 0 < c < |t| && t[c].parent == a.sector
      ensures RelationSet(t, objects'[at'[a]], at', rows, row, i + 1, a, c)
    {
      if a in at {
        assert at'[a] == at[a];
        RelationStep(t, objects, at, rows, row, i, objects', at', a, c);
      }
    }
    forall a | a in at'
      ensures OwnRelations(t, objects'[at'[a]], a.sector)
    {
      if a in at {
        assert OwnRelations(t, objects[at[a]], a.sector);
        OwnRelationsStep(t, objects, at, row, i, objects', a);
      }
    }
  }

  lemma {:induction false} OwnRelationsStep(t: Table, objects: seq<DomainObject>, at: map<Address, nat>,
                                            row: Row, i: nat, objects': seq<DomainObject>, a: Address)
    requires IsRow(t, row) && 0 < i < |t| && Entries(objects, at)
    requires OnlyOwnerWritten(t, objects, at, row, i, objects')
    requires Present(t, row, t[i].parent) ==> OwnerAddress(t, row, i) in at
    requires a in at && OwnRelations(t, objects[at[a]], a.sector)
    ensures OwnRelations(t, objects'[at[a]], a.sector)
  {
    if Present(t, row, t[i].parent) {
      assert Apart(at, a, OwnerAddress(t, row, i));
    }
  }

  lemma {:induction false} RelationStep(t: Table, objects: seq<DomainObject>, at: map<Address, nat>,
                                        rows: seq<Row>, row: Row, i: nat,
                                        objects': seq<DomainObject>, at': map<Address, nat>, a: Address, c: nat)
    requires Context(t, rows, row) && 0 < i < |t|
    requires Domain(t, at, rows, row, i) && Entries(objects, at)
    requires OnlyOwnerWritten(t, objects, at, row, i, objects')
    requires SameOrGrown(t, at, row, i, |objects|, at') && (at' != at ==> Present(t, row, i))
    requires a in at && 0 < c < |t| && t[c].parent == a.sector
    requires RelationSet(t, objects[at[a]], at, rows, row, i, a, c)
    requires Present(t, row, t[i].parent) ==>
               var o := OwnerAddress(t, row, i);
               o in at && at[o] < |objects'| && RelationSet(t, objects'[at[o]], at', rows, row, i + 1, o, i)
    ensures RelationSet(t, objects'[at[a]], at', rows, row, i + 1, a, c)
  {
    if c != i {
      RelationStepAt(t, objects, at, rows, row, i, |objects|, objects', at', a, c);
    } else if !Present(t, row, t[i].parent) || a != OwnerAddress(t, row, i) {
      OwnerOrKnown(t, at, rows, row, i, a);
      OtherUnwritten(t, objects, at, row, i, objects', a);
      RelationStepOther(t, objects[at[a]], objects'[at[a]], at, rows, row, i, |objects|, at', a);
    }
  }

  // ---------------------------------------------------------------- current tuples

  /** The tuple of sector i is set; tuples after it are kept or cleared, and kept below i only
      if the row shows the same object there as the row before. */
  ghost predicate TuplesMoved(t: Table, tuples: seq<Option<nat>>, rows: seq<Row>, row: Row, i: nat,
                              tuples': seq<Option<nat>>, at': map<Address, nat>)
    requires Fit(t, rows, row) && i < |t| == |tuples|
  {
    && |tuples'| == |t|
    && (forall s :: 0 <= s < i ==> tuples'[s] == tuples[s])
    && tuples'[i] == (if Present(t, row, i) then Some(At(at', Address(i, PathOf(t, row, i)))) else None)
    && (forall s :: i < s < |t| ==> tuples'[s].None? || tuples'[s] == tuples[s])
    && (forall s :: i < s < |t| && t[s].parent == i && tuples'[s].Some? ==>
          rows != [] && Present(t, row, i) && PathOf(t, row, i) == PathOf(t, rows[|rows| - 1], i))
  }

  lemma {:induction false} TuplesStep(t: Table, tuples: seq<Option<nat>>, at: map<Address, nat>,
                                      rows: seq<Row>, row: Row, i: nat, n: nat,
                                      tuples': seq<Option<nat>>, at': map<Address, nat>)
    requires Fit(t, rows, row) && i < |t| == |tuples|
    requires Reached(t, tuples, at, row, i) && Remembered(t, tuples, at, rows, row, i)
    requires SameOrGrown(t, at, row, i, n, at') && TuplesMoved(t, tuples, rows, row, i, tuples', at')
    ensures Reached(t, tuples', at', row, i + 1) && Remembered(t, tuples', at', rows, row, i + 1)
  {
    forall s | 0 <= s < i
      ensures ReachedAt(t, tuples'[s], at', row, s)
    {
      assert ReachedAt(t, tuples[s], at, row, s);
      assert Address(s, PathOf(t, row, s)) != Address(i, PathOf(t, row, i));
    }
    forall s | i + 1 <= s < |t| && tuples'[s].Some?
      ensures RememberedAt(t, tuples'[s].value, at', rows, row, i + 1, s)
    {
      assert RememberedAt(t, tuples[s].value, at, rows, row, i, s);
      RememberedStep(t, tuples[s].value, at, rows, row, i, n, at', s);
    }
  }

  lemma {:induction false} RememberedStep(t: Table, id: nat, at: map<Address, nat>,
                                          rows: seq<Row>, row: Row, i: nat, n: nat, at': map<Address, nat>, s: nat)
    requires Fit(t, rows, row) && i < s < |t| && RememberedAt(t, id, at, rows, row, i, s)
    requires SameOrGrown(t, at, row, i, n, at')
    requires t[s].parent == i ==> Present(t, row, i) && PathOf(t, row, i) == PathOf(t, rows[|rows| - 1], i)
    ensures RememberedAt(t, id, at', rows, row, i + 1, s)
  {
  }

  // ---------------------------------------------------------------- one sector

  lemma {:induction false} StoredRewritten(t: Table, objects: seq<DomainObject>, at: map<Address, nat>,
                                           rows: seq<Row>, row: Row, i: nat, objects': seq<DomainObject>)
    requires Fit(t, rows, row) && Stored(t, objects, at, rows, row, i) && |objects'| == |objects|
    requires forall k :: 0 <= k < |objects| ==> objects'[k].key == objects[k].key && objects'[k].data == objects[k].data
    ensures Stored(t, objects', at, rows, row, i)
  {
    forall a | a in at
      ensures StoredAt(t, objects'[at[a]], RowsFor(rows, row, i, a.sector), a)
    {
      assert StoredAt(t, objects[at[a]], RowsFor(rows, row, i, a.sector), a);
    }
  }

  function WithRelation(objects: seq<DomainObject>, id: nat, c: nat, related: Related): seq<DomainObject> {
    if id < |objects| then objects[id := objects[id].(related := objects[id].related[c := related])] else objects
  }

  lemma {:induction false} OwnerWritten(t: Table, objects: seq<DomainObject>, at: map<Address, nat>, row: Row, i: nat,
                                        related: Related, more: seq<DomainObject>)
    requires IsRow(t, row) && 0 < i < |t| && Present(t, row, t[i].parent)
    requires forall k :: 0 <= k < |more| ==> more[k].related == map[]
    ensures OnlyOwnerWritten(t, objects, at, row, i,
                             WithRelation(objects, At(at, OwnerAddress(t, row, i)), i, related) + more)
  {
  }

  /** The row shows nothing in sector i: its owner, if there is one, gets the default. */
  lemma {:induction false} NullRelations(t: Table, objects: seq<DomainObject>, at: map<Address, nat>,
                                         rows: seq<Row>, row: Row, i: nat, objects': seq<DomainObject>)
    requires Context(t, rows, row) && 0 < i < |t| && !Present(t, row, i)
    requires Domain(t, at, rows, row, i) && Entries(objects, at) && RelationsSet(t, objects, at, rows, row, i)
    requires Present(t, row, t[i].parent) && OwnerAddress(t, row, i) in at
    requires objects' == WithRelation(objects, At(at, OwnerAddress(t, row, i)), i, RelationTo(t[i].toMany, []))
    ensures Entries(objects', at) && RelationsSet(t, objects', at, rows, row, i + 1)
  {
    var o := OwnerAddress(t, row, i);
    NullHasNoKids(t, rows, row, i);
    KidsElsewhere(t, rows, row, i, o.path);
    assert Relation(t, at, rows + [row], i, o.path) == RelationTo(t[i].toMany, []);
    assert objects' + [] == objects';
    OwnerWritten(t, objects, at, row, i, RelationTo(t[i].toMany, []), []);
    RelationsStep(t, objects, at, rows, row, i, objects', at);
  }

  lemma {:induction false} CaseNull(t: Table, objects: seq<DomainObject>, tuples: seq<Option<nat>>,
                                    at: map<Address, nat>, rows: seq<Row>, row: Row, i: nat,
                                    objects': seq<DomainObject>, tuples': seq<Option<nat>>)
    requires Context(t, rows, row) && 0 < i < |t| && During(t, objects, tuples, at, rows, row, i)
    requires !Present(t, row, i) && TuplesMoved(t, tuples, rows, row, i, tuples', at)
    requires Present(t, row, t[i].parent) ==>
               && OwnerAddress(t, row, i) in at
               && objects' == WithRelation(objects, At(at, OwnerAddress(t, row, i)), i, RelationTo(t[i].toMany, []))
    requires !Present(t, row, t[i].parent) ==> objects' == objects
    ensures During(t, objects', tuples', at, rows, row, i + 1)
  {
    StoredSame(t, objects, at, rows, row, i);
    StoredRewritten(t, objects, at, rows, row, i + 1, objects');
    if Present(t, row, t[i].parent) {
      NullRelations(t, objects, at, rows, row, i, objects');
    } else {
      RelationsStep(t, objects, at, rows, row, i, objects, at);
    }
    TuplesStep(t, tuples, at, rows, row, i, |objects|, tuples', at);
  }

  /** What the owner's relationship to sector i says before the row is taken into account. */
  lemma {:induction false} OwnerRelation(t: Table, objects: seq<DomainObject>, at: map<Address, nat>,
                                         rows: seq<Row>, row: Row, i: nat)
    requires Context(t, rows, row) && 0 < i < |t| && Stored(t, objects, at, rows, row, i)
    requires RelationsSet(t, objects, at, rows, row, i) && Present(t, row, t[i].parent)
    ensures var o := OwnerAddress(t, row, i);
            && o in at && at[o] < |objects|
            && var related := objects[at[o]].related;
               if i in related then related[i] == Relation(t, at, rows, i, o.path)
               else Kids(t, rows, i, o.path) == []
  {
    var o := OwnerAddress(t, row, i);
    OwnerStored(t, at, rows, row, i);
    assert RelationSet(t, objects[at[o]], at, rows, row, i, o, i);
    if i !in objects[at[o]].related && Kids(t, rows, i, o.path) != [] {
      PrefixNested(t, rows, row);
      KidsNeedParent(t, rows, i, o.path);
    }
  }

  lemma {:induction false} PrefixNested(t: Table, rows: seq<Row>, row: Row)
    requires Context(t, rows, row)
    ensures forall k :: 0 <= k < |rows| ==> Nested(t, rows[k])
  {
    forall k | 0 <= k < |rows|
      ensures Nested(t, rows[k])
    {
      assert (rows + [row])[k] == rows[k];
    }
  }

  /** The row shows a known object in sector i: only the current tuple changes. */
  lemma {:induction false} CaseFound(t: Table, objects: seq<DomainObject>, tuples: seq<Option<nat>>,
                                     at: map<Address, nat>, rows: seq<Row>, row: Row, i: nat, tuples': seq<Option<nat>>)
    requires Context(t, rows, row) && 0 < i < |t| && During(t, objects, tuples, at, rows, row, i)
    requires Present(t, row, i) && Known(t, rows, Address(i, PathOf(t, row, i)))
    requires TuplesMoved(t, tuples, rows, row, i, tuples', at)
    ensures During(t, objects, tuples', at, rows, row, i + 1)
  {
    var o := OwnerAddress(t, row, i);
    WhetherListed(t, rows, row, i);
    StoredSame(t, objects, at, rows, row, i);
    OwnerRelation(t, objects, at, rows, row, i);
    KidsElsewhere(t, rows, row, i, o.path);
    RelationsStep(t, objects, at, rows, row, i, objects, at);
    TuplesStep(t, tuples, at, rows, row, i, |objects|, tuples', at);
  }

  lemma {:induction false} IdsGrown(t: Table, at: map<Address, nat>, row: Row, i: nat, n: nat, at': map<Address, nat>,
                                    keys: seq<Key>)
    requires IsRow(t, row) && i < |t|
    requires Address(i, PathOf(t, row, i)) !in at && at' == at[Address(i, PathOf(t, row, i)) := n]
    requires KeyOf(t, row, i) !in keys
    ensures var above := ParentPath(t, row, i);
            Ids(at', i, above, keys + [KeyOf(t, row, i)]) == Ids(at, i, above, keys) + [n]
  {
    var above, key := ParentPath(t, row, i), KeyOf(t, row, i);
    IdsElsewhere(t, at, row, i, n, at', i, above, keys);
    assert Ids(at', i, above, keys + [key]) == Ids(at', i, above, keys) + [n];
  }

  /** The row shows a new object in sector i, which its owner is made to refer to. */
  lemma {:induction false} NewRelations(t: Table, objects: seq<DomainObject>, at: map<Address, nat>,
                                        rows: seq<Row>, row: Row, i: nat, tuple: DomainObject, ids: seq<nat>,
                                        objects': seq<DomainObject>, at': map<Address, nat>)
    requires Context(t, rows, row) && 0 < i < |t|
    requires Domain(t, at, rows, row, i) && Entries(objects, at) && Entries(objects', at')
    requires RelationsSet(t, objects, at, rows, row, i)
    requires Present(t, row, i) && !Known(t, rows, Address(i, PathOf(t, row, i))) && tuple.related == map[]
    requires Address(i, PathOf(t, row, i)) !in at && at' == at[Address(i, PathOf(t, row, i)) := |objects|]
    requires ids == Ids(at, i, ParentPath(t, row, i), Kids(t, rows, i, ParentPath(t, row, i)))
    requires OwnerAddress(t, row, i) in at
    requires objects' == WithRelation(objects, At(at, OwnerAddress(t, row, i)), i,
                                      RelationTo(t[i].toMany, ids + [|objects|])) + [tuple]
    ensures RelationsSet(t, objects', at', rows, row, i + 1)
  {
    var o := OwnerAddress(t, row, i);
    WhetherListed(t, rows, row, i);
    KidsStep(t, rows, row, i, o.path);
    IdsGrown(t, at, row, i, |objects|, at', Kids(t, rows, i, o.path));
    OwnerWritten(t, objects, at, row, i, RelationTo(t[i].toMany, ids + [|objects|]), [tuple]);
    RelationsStep(t, objects, at, rows, row, i, objects', at');
  }

  lemma {:induction false} CaseNew(t: Table, objects: seq<DomainObject>, tuples: seq<Option<nat>>,
                                   at: map<Address, nat>, rows: seq<Row>, row: Row, i: nat, tuple: DomainObject,
                                   ids: seq<nat>, objects': seq<DomainObject>, tuples': seq<Option<nat>>,
                                   at': map<Address, nat>)
    requires Context(t, rows, row) && 0 < i < |t| && During(t, objects, tuples, at, rows, row, i)
    requires Present(t, row, i) && !Known(t, rows, Address(i, PathOf(t, row, i)))
    requires tuple == DomainObject(KeyOf(t, row, i), DataOf(t, row, i), map[])
    requires at' == at[Address(i, PathOf(t, row, i)) := |objects|]
    requires ids == Ids(at, i, ParentPath(t, row, i), Kids(t, rows, i, ParentPath(t, row, i)))
    requires OwnerAddress(t, row, i) in at
    requires objects' == WithRelation(objects, At(at, OwnerAddress(t, row, i)), i,
                                      RelationTo(t[i].toMany, ids + [|objects|])) + [tuple]
    requires TuplesMoved(t, tuples, rows, row, i, tuples', at')
    ensures SameOrGrown(t, at, row, i, |objects|, at')
    ensures During(t, objects', tuples', at', rows, row, i + 1)
  {
    NotStored(t, at, rows, row, i);
    StoredNew(t, objects, at, rows, row, i, objects', at');
    NewRelations(t, objects, at, rows, row, i, tuple, ids, objects', at');
    TuplesStep(t, tuples, at, rows, row, i, |objects|, tuples', at');
  }

  // ---------------------------------------------------------------- one row after another

  lemma {:induction false} ContextOf(t: Table, rows: seq<Row>, row: Row)
    requires Coherent(t, rows + [row])
    ensures Context(t, rows, row) && Coherent(t, rows)
  {
    var all := rows + [row];
    assert all[|rows|] == row && Nested(t, all[|rows|]);
    assert forall i :: 0 <= i < |rows| ==> all[i] == rows[i];
    forall i | 0 <= i < |rows|
      ensures Nested(t, rows[i])
    {
      assert Nested(t, all[i]);
    }
    forall i, j | 0 <= i < |rows| && 0 <= j < |rows|
      ensures Agree(t, rows[i], rows[j])
    {
      assert Agree(t, all[i], all[j]);
    }
    forall k, n | 0 <= k < n < |rows|
      ensures Together(t, rows, k, n)
    {
      assert Together(t, all, k, n);
    }
  }

  lemma {:induction false} NextStored(t: Table, objects: seq<DomainObject>, at: map<Address, nat>,
                                      rows: seq<Row>, last: Row, row: Row)
    requires Fit(t, rows, last) && Fit(t, rows + [last], row)
    requires Stored(t, objects, at, rows, last, |t|)
    ensures Stored(t, objects, at, rows + [last], row, 0)
  {
    var seen := rows + [last];
    forall a
      ensures a in at <==> Known(t, RowsFor(seen, row, 0, a.sector), a)
    {
      assert a in at <==> Known(t, RowsFor(rows, last, |t|, a.sector), a);
    }
    forall a | a in at
      ensures StoredAt(t, objects[at[a]], RowsFor(seen, row, 0, a.sector), a)
    {
      assert StoredAt(t, objects[at[a]], RowsFor(rows, last, |t|, a.sector), a);
    }
  }

  lemma {:induction false} NextRelations(t: Table, objects: seq<DomainObject>, at: map<Address, nat>,
                                         rows: seq<Row>, last: Row, row: Row)
    requires Fit(t, rows, last) && Fit(t, rows + [last], row)
    requires Entries(objects, at) && RelationsSet(t, objects, at, rows, last, |t|)
    requires Domain(t, at, rows, last, |t|)
    ensures RelationsSet(t, objects, at, rows + [last], row, 0)
  {
    forall a, c | a in at && 0 < c < |t| && t[c].parent == a.sector
      ensures RelationSet(t, objects[at[a]], at, rows + [last], row, 0, a, c)
    {
      assert RelationSet(t, objects[at[a]], at, rows, last, |t|, a, c);
      assert a in at <==> Known(t, RowsFor(rows, last, |t|, a.sector), a);
    }
  }

  lemma {:induction false} NextRemembered(t: Table, tuples: seq<Option<nat>>, at: map<Address, nat>,
                                          rows: seq<Row>, last: Row, row: Row)
    requires Fit(t, rows, last) && Fit(t, rows + [last], row) && |tuples| == |t|
    requires Domain(t, at, rows, last, |t|) && Reached(t, tuples, at, last, |t|)
    ensures Remembered(t, tuples, at, rows + [last], row, 0)
  {
    var seen := rows + [last];
    forall s | 0 <= s < |t| && tuples[s].Some?
      ensures RememberedAt(t, tuples[s].value, at, seen, row, 0, s)
    {
      assert ReachedAt(t, tuples[s], at, last, s);
      var a := Address(s, PathOf(t, last, s));
      assert Shows(t, seen[|rows|], a);
      assert a in at <==> Known(t, RowsFor(rows, last, |t|, a.sector), a);
    }
  }

  lemma {:induction false} NextRow(t: Table, objects: seq<DomainObject>, tuples: seq<Option<nat>>,
                                   at: map<Address, nat>, rows: seq<Row>, last: Row, row: Row)
    requires Fit(t, rows, last) && Fit(t, rows + [last], row)
    requires During(t, objects, tuples, at, rows, last, |t|)
    ensures During(t, objects, tuples, at, rows + [last], row, 0)
  {
    NextStored(t, objects, at, rows, last, row);
    NextRelations(t, objects, at, rows, last, row);
    NextRemembered(t, tuples, at, rows, last, row);
  }

  lemma {:induction false} FirstRow(t: Table, tuples: seq<Option<nat>>, row: Row)
    requires Fit(t, [], row) && |tuples| == |t| && forall s :: 0 <= s < |t| ==> tuples[s].None?
    ensures During(t, [], tuples, map[], [], row, 0)
  {
  }

  /** The state between two rows. */
  ghost predicate Between(t: Table, objects: seq<DomainObject>, tuples: seq<Option<nat>>, at: map<Address, nat>,
                          seen: seq<Row>)
  {
    && |tuples| == |t|
    && if seen == [] then objects == [] && at == map[] && forall s :: 0 <= s < |tuples| ==> tuples[s].None?
       else
         var n := |seen| - 1;
         Fit(t, seen[..n], seen[n]) && During(t, objects, tuples, at, seen[..n], seen[n], |t|)
  }

  lemma {:induction false} BeginRow(t: Table, objects: seq<DomainObject>, tuples: seq<Option<nat>>,
                                    at: map<Address, nat>, seen: seq<Row>, row: Row)
    requires Between(t, objects, tuples, at, seen) && Coherent(t, seen + [row])
    ensures Context(t, seen, row) && During(t, objects, tuples, at, seen, row, 0)
  {
    ContextOf(t, seen, row);
    if seen == [] {
      FirstRow(t, tuples, row);
    } else {
      var n := |seen| - 1;
      assert seen == seen[..n] + [seen[n]];
      NextRow(t, objects, tuples, at, seen[..n], seen[n], row);
    }
  }

  lemma {:induction false} EndRow(t: Table, objects: seq<DomainObject>, tuples: seq<Option<nat>>, at: map<Address, nat>,
                                  rows: seq<Row>, row: Row)
    requires Context(t, rows, row) && During(t, objects, tuples, at, rows, row, |t|)
    ensures Between(t, objects, tuples, at, rows + [row]) && Read(t, objects, at, rows + [row])
  {
    assert (rows + [row])[..|rows|] == rows;
    BetweenIsRead(t, objects, tuples, at, rows + [row]);
  }

  /** The objects are what the rows say: one for every address a row shows and no other, each with
      its key, its data and, in order of first appearance, all the objects related to it. */
  ghost predicate Read(t: Table, objects: seq<DomainObject>, at: map<Address, nat>, rows: seq<Row>) {
    && ValidTable(t) && AllRows(t, rows) && Entries(objects, at)
    && (forall a {:trigger Known(t, rows, a)} :: a in at <==> Known(t, rows, a))
    && (forall a {:trigger StoredAt(t, objects[at[a]], rows, a)} :: a in at ==> StoredAt(t, objects[at[a]], rows, a))
    && (forall a, c {:trigger RelatedAll(t, objects[at[a]], at, rows, a, c)} ::
          a in at && 0 < c < |t| && t[c].parent == a.sector ==> RelatedAll(t, objects[at[a]], at, rows, a, c))
    && (forall a {:trigger OwnRelations(t, objects[at[a]], a.sector)} ::
          a in at ==> OwnRelations(t, objects[at[a]], a.sector))
  }

  ghost predicate RelatedAll(t: Table, tuple: DomainObject, at: map<Address, nat>, rows: seq<Row>, a: Address, c: nat)
    requires AllRows(t, rows) && c < |t|
  {
    c in tuple.related && tuple.related[c] == Relation(t, at, rows, c, a.path)
  }

  lemma {:induction false} BetweenIsRead(t: Table, objects: seq<DomainObject>, tuples: seq<Option<nat>>,
                                         at: map<Address, nat>, seen: seq<Row>)
    requires ValidTable(t) && AllRows(t, seen) && Between(t, objects, tuples, at, seen)
    ensures Read(t, objects, at, seen)
  {
    if seen != [] {
      var n := |seen| - 1;
      assert seen == seen[..n] + [seen[n]];
      forall a
        ensures a in at <==> Known(t, seen, a)
      {
        assert a in at <==> Known(t, RowsFor(seen[..n], seen[n], |t|, a.sector), a);
      }
      forall a | a in at
        ensures StoredAt(t, objects[at[a]], seen, a)
      {
        assert StoredAt(t, objects[at[a]], RowsFor(seen[..n], seen[n], |t|, a.sector), a);
      }
      forall a, c | a in at && 0 < c < |t| && t[c].parent == a.sector
        ensures RelatedAll(t, objects[at[a]], at, seen, a, c)
      {
        assert RelationSet(t, objects[at[a]], at, seen[..n], seen[n], |t|, a, c);
      }
    }
  }

  // ---------------------------------------------------------------- tuples below a sector

  /** Is sector x somewhere below sector s? */
  ghost predicate Below(t: Table, x: nat, s: nat)
    requires ValidTable(t) && x < |t|
  {
    x > 0 && (t[x].parent == s || Below(t, t[x].parent, s))
  }

  lemma {:induction false} BelowIsAfter(t: Table, x: nat, s: nat)
    requires ValidTable(t) && x < |t| && Below(t, x, s)
    ensures s < x
  {
    if t[x].parent != s {
      BelowIsAfter(t, t[x].parent, s);
    }
  }

  /** A sector is below s if it is a child of s or below one. */
  lemma {:induction false} BelowChild(t: Table, x: nat, s: nat)
    requires ValidTable(t) && x < |t| && s < |t|
    ensures Below(t, x, s) <==>
              exists j :: 0 <= j < |t[s].children| && (x == t[s].children[j] || Below(t, x, t[s].children[j]))
  {
    if x > 0 {
      BelowChild(t, t[x].parent, s);
      assert Listed(t, x);
      if t[x].parent == s {
        var j :| 0 <= j < |t[s].children| && t[s].children[j] == x;
      } else if Below(t, t[x].parent, s) {
        var j :| 0 <= j < |t[s].children|
            && (t[x].parent == t[s].children[j] || Below(t, t[x].parent, t[s].children[j]));
        assert Below(t, x, t[s].children[j]);
      }
      if j :| 0 <= j < |t[s].children| && (x == t[s].children[j] || Below(t, x, t[s].children[j])) {
        if x != t[s].children[j] && t[x].parent != t[s].children[j] {
          assert Below(t, t[x].parent, t[s].children[j]);
        }
      }
    }
  }

  /** Sector i has its new tuple and the sectors below it have none. */
  lemma {:induction false} TuplesReset(t: Table, tuples: seq<Option<nat>>, at: map<Address, nat>,
                                       rows: seq<Row>, row: Row, i: nat, id: Option<nat>, tuples': seq<Option<nat>>)
    requires Fit(t, rows, row) && i < |t| == |tuples| == |tuples'|
    requires id == if Present(t, row, i) then Some(At(at, Address(i, PathOf(t, row, i)))) else None
    requires forall s :: 0 <= s < |t| ==>
               tuples'[s] == if Below(t, s, i) then None else tuples[i := id][s]
    ensures TuplesMoved(t, tuples, rows, row, i, tuples', at)
  {
    forall s | 0 <= s <= i
      ensures !Below(t, s, i)
    {
      if Below(t, s, i) {
        BelowIsAfter(t, s, i);
      }
    }
  }

  /** Sector 0 of the row: no object has a relationship to it. */
  lemma {:induction false} RootRelations(t: Table, objects: seq<DomainObject>, at: map<Address, nat>,
                                         rows: seq<Row>, row: Row,
                                         objects': seq<DomainObject>, at': map<Address, nat>)
    requires Fit(t, rows, row) && Entries(objects, at) && Entries(objects', at')
    requires RelationsSet(t, objects, at, rows, row, 0) && SameOrGrown(t, at, row, 0, |objects|, at')
    requires |objects| <= |objects'| && forall k :: 0 <= k < |objects| ==> objects'[k] == objects[k]
    requires at' != at ==>
               && !Known(t, rows, Address(0, PathOf(t, row, 0)))
               && |objects| < |objects'| && objects'[|objects|].related == map[]
    ensures RelationsSet(t, objects', at', rows, row, 1)
  {
    forall a, c | a in at' && 0 < c < |t| && t[c].parent == a.sector
      ensures RelationSet(t, objects'[at'[a]], at', rows, row, 1, a, c)
    {
      if a in at {
        assert RelationSet(t, objects[at[a]], at, rows, row, 0, a, c);
        IdsElsewhere(t, at, row, 0, |objects|, at', c, a.path, Kids(t, rows, c, a.path));
      }
    }
    forall a | a in at'
      ensures OwnRelations(t, objects'[at'[a]], a.sector)
    {
      if a in at {
        assert OwnRelations(t, objects[at[a]], a.sector);
      }
    }
  }

  /** The row shows the current root. */
  lemma {:induction false} RootKept(t: Table, objects: seq<DomainObject>, tuples: seq<Option<nat>>,
                                    at: map<Address, nat>, rows: seq<Row>, row: Row)
    requires Context(t, rows, row) && During(t, objects, tuples, at, rows, row, 0)
    requires rows != [] && PathOf(t, row, 0) == PathOf(t, rows[|rows| - 1], 0)
    requires Known(t, rows, Address(0, PathOf(t, row, 0)))
    requires tuples[0] == Some(At(at, Address(0, PathOf(t, row, 0))))
    ensures During(t, objects, tuples, at, rows, row, 1)
  {
    StoredSame(t, objects, at, rows, row, 0);
    RootRelations(t, objects, at, rows, row, objects, at);
    RootTuple(t, tuples, rows, row, at);
    TuplesStep(t, tuples, at, rows, row, 0, |objects|, tuples, at);
  }

  lemma {:induction false} RootTuple(t: Table, tuples: seq<Option<nat>>, rows: seq<Row>, row: Row,
                                     at: map<Address, nat>)
    requires Fit(t, rows, row) && |tuples| == |t| && Present(t, row, 0)
    requires rows != [] && PathOf(t, row, 0) == PathOf(t, rows[|rows| - 1], 0)
    requires tuples[0] == Some(At(at, Address(0, PathOf(t, row, 0))))
    ensures TuplesMoved(t, tuples, rows, row, 0, tuples, at)
  {
  }

  lemma {:induction false} SameRoots(t: Table, rows: seq<Row>, row: Row)
    requires Fit(t, rows, row) && Known(t, rows, Address(0, PathOf(t, row, 0)))
    ensures Kids(t, rows + [row], 0, []) == Kids(t, rows, 0, [])
  {
    WhetherListed(t, rows, row, 0);
    KidsElsewhere(t, rows, row, 0, []);
  }

  /** The row shows a new root. */
  lemma {:induction false} RootAdded(t: Table, objects: seq<DomainObject>, tuples: seq<Option<nat>>,
                                     at: map<Address, nat>, rows: seq<Row>, row: Row, objects': seq<DomainObject>,
                                     tuples': seq<Option<nat>>, at': map<Address, nat>)
    requires Context(t, rows, row) && During(t, objects, tuples, at, rows, row, 0)
    requires !Known(t, rows, Address(0, PathOf(t, row, 0)))
    requires objects' == objects + [DomainObject(KeyOf(t, row, 0), DataOf(t, row, 0), map[])]
    requires at' == at[Address(0, PathOf(t, row, 0)) := |objects|]
    requires TuplesMoved(t, tuples, rows, row, 0, tuples', at')
    ensures During(t, objects', tuples', at', rows, row, 1)
  {
    NotStored(t, at, rows, row, 0);
    StoredNew(t, objects, at, rows, row, 0, objects', at');
    RootRelations(t, objects, at, rows, row, objects', at');
    TuplesStep(t, tuples, at, rows, row, 0, |objects|, tuples', at');
  }

  lemma {:induction false} MoreRoots(t: Table, at: map<Address, nat>, rows: seq<Row>, row: Row, n: nat,
                                     at': map<Address, nat>)
    requires Fit(t, rows, row) && Present(t, row, 0) && Domain(t, at, rows, row, 0)
    requires !Known(t, rows, Address(0, PathOf(t, row, 0)))
    requires at' == at[Address(0, PathOf(t, row, 0)) := n]
    ensures Ids(at', 0, [], Kids(t, rows + [row], 0, [])) == Ids(at, 0, [], Kids(t, rows, 0, [])) + [n]
  {
    WhetherListed(t, rows, row, 0);
    NotStored(t, at, rows, row, 0);
    KidsStep(t, rows, row, 0, []);
    IdsGrown(t, at, row, 0, n, at', Kids(t, rows, 0, []));
  }

  // ---------------------------------------------------------------- what the code looks up

  /** A stored object has the last key of its path, with as many parts as the sector's keys. */
  lemma {:induction false} StoredKey(t: Table, objects: seq<DomainObject>, at: map<Address, nat>,
                                     rows: seq<Row>, row: Row, i: nat, a: Address)
    requires Fit(t, rows, row) && i == a.sector < |t| && Stored(t, objects, at, rows, row, i) && a in at
    ensures Known(t, rows, a) && objects[at[a]].key == a.path[|a.path| - 1]
    ensures |objects[at[a]].key| == t[i].keyCount
  {
    assert a in at <==> Known(t, RowsFor(rows, row, i, a.sector), a);
    assert StoredAt(t, objects[at[a]], RowsFor(rows, row, i, a.sector), a);
    KnownKeyLength(t, rows, a);
  }

  lemma {:induction false} KnownKeyLength(t: Table, rows: seq<Row>, a: Address)
    requires ValidTable(t) && AllRows(t, rows) && Known(t, rows, a)
    ensures |a.path[|a.path| - 1]| == t[a.sector].keyCount
  {
    var k :| 0 <= k < |rows| && Shows(t, rows[k], a);
    PathParts(t, rows[k], a.sector, a.path);
    SectorWithin(t, a.sector);
  }

  /** The tuple left by the row before is the object this row shows exactly if the keys agree. */
  lemma {:induction false} CurrentTuple(t: Table, objects: seq<DomainObject>, at: map<Address, nat>,
                                        rows: seq<Row>, row: Row, i: nat, id: nat)
    requires Fit(t, rows, row) && i < |t| && Stored(t, objects, at, rows, row, i)
    requires RememberedAt(t, id, at, rows, row, i, i)
    ensures id < |objects| && |objects[id].key| == t[i].keyCount
    ensures objects[id].key == KeyOf(t, rows[|rows| - 1], i)
    ensures objects[id].key == KeyOf(t, row, i) ==>
              var a := Address(i, PathOf(t, row, i));
              PathOf(t, row, i) == PathOf(t, rows[|rows| - 1], i) && Known(t, rows, a) && id == At(at, a)
  {
    var last := rows[|rows| - 1];
    var a := Address(i, PathOf(t, last, i));
    StoredKey(t, objects, at, rows, row, i, a);
    PathParts(t, last, i, a.path);
  }

  /** Among the objects listed under the owner, the one the row shows is told by its key. */
  lemma {:induction false} Candidate(t: Table, objects: seq<DomainObject>, at: map<Address, nat>,
                                     rows: seq<Row>, row: Row, i: nat, above: Path, j: nat)
    requires Fit(t, rows, row) && 0 < i < |t| && Stored(t, objects, at, rows, row, i)
    requires j < |Kids(t, rows, i, above)|
    ensures var key := Kids(t, rows, i, above)[j];
            var a := Address(i, above + [key]);
            a in at && objects[at[a]].key == key && |key| == t[i].keyCount
  {
    var key := Kids(t, rows, i, above)[j];
    var a := Address(i, above + [key]);
    assert a.path[..|a.path| - 1] == above && a.path[|a.path| - 1] == key;
    assert a in at <==> Known(t, RowsFor(rows, row, i, a.sector), a);
    KnownIsListed(t, rows, a);
    StoredKey(t, objects, at, rows, row, i, a);
  }

  /** The candidates have the listed keys. */
  ghost predicate Candidates(objects: seq<DomainObject>, ids: seq<nat>, keys: seq<Key>, length: nat) {
    |ids| == |keys| && forall j :: 0 <= j < |ids| ==>
      ids[j] < |objects| && objects[ids[j]].key == keys[j] && |keys[j]| == length
  }

  lemma {:induction false} AllCandidates(t: Table, objects: seq<DomainObject>, at: map<Address, nat>,
                                         rows: seq<Row>, row: Row, i: nat, above: Path)
    requires Fit(t, rows, row) && 0 < i < |t| && Stored(t, objects, at, rows, row, i)
    ensures var keys := Kids(t, rows, i, above);
            Candidates(objects, Ids(at, i, above, keys), keys, t[i].keyCount)
  {
    var keys := Kids(t, rows, i, above);
    forall j | 0 <= j < |keys|
      ensures At(at, Address(i, above + [keys[j]])) < |objects|
      ensures objects[At(at, Address(i, above + [keys[j]]))].key == keys[j] && |keys[j]| == t[i].keyCount
    {
      Candidate(t, objects, at, rows, row, i, above, j);
    }
  }

  lemma {:induction false} WhetherListed(t: Table, rows: seq<Row>, row: Row, i: nat)
    requires AllRows(t, rows) && IsRow(t, row) && i < |t|
    ensures Known(t, rows, Address(i, PathOf(t, row, i))) <==>
              KeyOf(t, row, i) in Kids(t, rows, i, ParentPath(t, row, i))
  {
    PathParts(t, row, i, PathOf(t, row, i));
    KnownIsListed(t, rows, Address(i, PathOf(t, row, i)));
  }

  /** What the owner refers to before a new object is added to it. */
  lemma {:induction false} BeforeAdding(t: Table, objects: seq<DomainObject>, at: map<Address, nat>,
                                        rows: seq<Row>, row: Row, i: nat, parent: nat, ids: seq<nat>)
    requires Context(t, rows, row) && 0 < i < |t| && Stored(t, objects, at, rows, row, i)
    requires RelationsSet(t, objects, at, rows, row, i) && Present(t, row, t[i].parent)
    requires Present(t, row, i) && !Known(t, rows, Address(i, PathOf(t, row, i)))
    requires parent == At(at, OwnerAddress(t, row, i))
    requires ids == Ids(at, i, ParentPath(t, row, i), Kids(t, rows, i, ParentPath(t, row, i)))
    ensures parent < |objects| && (!t[i].toMany ==> ids == [])
    ensures if i in objects[parent].related then objects[parent].related[i] == RelationTo(t[i].toMany, ids)
            else ids == []
  {
    OwnerRelation(t, objects, at, rows, row, i);
    if !t[i].toMany {
      WhetherListed(t, rows, row, i);
      ToOneKey(t, rows, row, i);
    }
  }

  /** If the root was shown before, it is the current one. */
  lemma {:induction false} RootReturns(t: Table, rows: seq<Row>, row: Row, k: nat)
    requires Context(t, rows, row) && k < |rows| && KeyOf(t, rows[k], 0) == KeyOf(t, row, 0)
    ensures KeyOf(t, rows[|rows| - 1], 0) == KeyOf(t, row, 0)
  {
    var all := rows + [row];
    assert all[k] == rows[k] && all[|rows| - 1] == rows[|rows| - 1] && all[|rows|] == row;
    assert Together(t, all, k, |rows|);
  }

  /** A root that is not the current one has not been shown before. */
  lemma {:induction false} RootIsNew(t: Table, rows: seq<Row>, row: Row)
    requires Context(t, rows, row)
    requires rows != [] ==> KeyOf(t, rows[|rows| - 1], 0) != KeyOf(t, row, 0)
    ensures !Known(t, rows, Address(0, PathOf(t, row, 0)))
  {
    WhetherListed(t, rows, row, 0);
    if KeyOf(t, row, 0) in Kids(t, rows, 0, []) {
      var k := KidsWitness(t, rows, 0, [], KeyOf(t, row, 0));
      RootReturns(t, rows, row, k);
    }
  }
}
