/** Building domain objects from joined rows, row by row
    (jones-mysql/impl/MySQLConnection.js, ReadProjectionOperation). */
module ReadProjection {
  import opened Options
  import opened JoinRows
  import opened ReadState

  predicate SectorFits(row: Row, sector: Sector) {
    sector.offset + sector.keyCount + sector.dataCount <= |row|
  }

  function SectorKey(row: Row, sector: Sector): Key
    requires SectorFits(row, sector)
  {
    row[sector.offset..sector.offset + sector.keyCount]
  }

  method IsRowSectorKeyNull(row: Row, sector: Sector) returns (isNull: bool)
    requires SectorFits(row, sector)
    ensures isNull <==> IsNullKey(SectorKey(row, sector))
  {
    for keyRowIndex := 0 to sector.keyCount
      invariant forall k :: 0 <= k < keyRowIndex ==> SectorKey(row, sector)[k].Null?
    {
      assert SectorKey(row, sector)[keyRowIndex] == row[sector.offset + keyRowIndex];
      if row[sector.offset + keyRowIndex] != Null {
        return false;
      }
    }
    return true;
  }

  /** Compares the row with the key fields of an object, if there is one. */
  method IsRowSectorKeyEqual(row: Row, sector: Sector, tuple: Option<DomainObject>) returns (equal: bool)
    requires SectorFits(row, sector) && (tuple.Some? ==> |tuple.value.key| == sector.keyCount)
    ensures equal <==> tuple.Some? && tuple.value.key == SectorKey(row, sector)
  {
    if tuple.Some? {
      for keyRowIndex := 0 to sector.keyCount
        invariant forall k :: 0 <= k < keyRowIndex ==> SectorKey(row, sector)[k] == tuple.value.key[k]
      {
        assert SectorKey(row, sector)[keyRowIndex] == row[sector.offset + keyRowIndex];
        if row[sector.offset + keyRowIndex] != tuple.value.key[keyRowIndex] {
          return false;
        }
      }
      return true;
    }
    return false;
  }

  /** The key and other fields are set from the row; no relationship is set. */
  method NewResultObjectFromRow(row: Row, sector: Sector) returns (tuple: DomainObject)
    requires SectorFits(row, sector)
    ensures var offset := sector.offset + sector.keyCount;
            tuple == DomainObject(SectorKey(row, sector), row[offset..offset + sector.dataCount], map[])
  {
    var key, data := [], [];
    for fieldIndex := 0 to sector.keyCount
      invariant key == row[sector.offset..sector.offset + fieldIndex]
    {
      key := key + [row[sector.offset + fieldIndex]];
    }
    var offset := sector.offset + sector.keyCount;
    for fieldIndex := 0 to sector.dataCount
      invariant data == row[offset..offset + fieldIndex]
    {
      data := data + [row[offset + fieldIndex]];
    }
    tuple := DomainObject(key, data, map[]);
  }

  /** What the operation reports when the query has ended; references are positions in the store. */
  datatype Reported = NoValue | Single(id: nat) | Many(ids: seq<nat>)

  datatype ReadResult = ReadResult(value: Reported, success: bool, errorCode: Option<nat>)

  const ROW_NOT_FOUND: nat := 1032

  class ReadProjectionOperation {
    const sectors: Table
    /** Every domain object created so far. */
    var objects: seq<DomainObject>
    /** The current object of every sector. */
    var tuples: seq<Option<nat>>
    var roots: seq<nat>
    ghost var at: map<Address, nat>
    ghost var seen: seq<Row>

    constructor (sectors: Table)
      requires ValidTable(sectors)
      ensures this.sectors == sectors && Valid() && seen == []
    {
      this.sectors := sectors;
      objects, roots, at, seen := [], [], map[], [];
      tuples := seq(|sectors|, _ => None);
    }

    ghost predicate Valid()
      reads this
    {
      && ValidTable(sectors) && Coherent(sectors, seen) && RootsHeld(seen)
      && Between(sectors, objects, tuples, at, seen)
    }

    /** The roots so far, the current one last. */
    ghost predicate RootsHeld(rows: seq<Row>)
      requires AllRows(sectors, rows) && sectors != []
      reads this
    {
      && |tuples| > 0 && (tuples[0].Some? <==> rows != [])
      && Ids(at, 0, [], Kids(sectors, rows, 0, [])) ==
           if tuples[0].Some? then roots + [tuples[0].value] else roots
    }

    /** Set to null the tuples of all sectors below this one, recursively. */
    method ResetTuples(s: nat)
      requires ValidTable(sectors) && s < |sectors| == |tuples|
      modifies this`tuples
      ensures |tuples| == |sectors|
      ensures forall x :: 0 <= x < |sectors| ==>
                tuples[x] == if Below(sectors, x, s) then None else old(tuples[x])
      decreases |sectors| - s
    {
      var children := sectors[s].children;
      for j := 0 to |children|
        invariant |tuples| == |sectors|
        invariant forall x :: 0 <= x < |sectors| ==>
                    tuples[x] == if exists k :: 0 <= k < j && (x == children[k] || Below(sectors, x, children[k]))
                                 then None else old(tuples[x])
      {
        tuples := tuples[children[j] := None];
        ResetTuples(children[j]);
      }
      forall x | 0 <= x < |sectors|
        ensures tuples[x] == if Below(sectors, x, s) then None else old(tuples[x])
      {
        BelowChild(sectors, x, s);
      }
    }

    /** The current tuple of sector i is set; those of the sectors below belonged to the last one. */
    method SetTuple(i: nat, id: Option<nat>, row: Row, ghost rows: seq<Row>)
      requires Fit(sectors, rows, row) && i < |sectors| == |tuples|
      requires id == if Present(sectors, row, i) then Some(At(at, Address(i, PathOf(sectors, row, i)))) else None
      modifies this`tuples
      ensures TuplesMoved(sectors, old(tuples), rows, row, i, tuples, at)
    {
      ghost var tuples0 := tuples;
      tuples := tuples[i := id];
      ResetTuples(i);
      TuplesReset(sectors, tuples0, at, rows, row, i, id, tuples);
    }

    /** A relationship field of an object is assigned. */
    method SetRelated(id: nat, c: nat, related: Related)
      requires id < |objects|
      modifies this`objects
      ensures objects == WithRelation(old(objects), id, c, related)
    {
      objects := objects[id := objects[id].(related := objects[id].related[c := related])];
    }

    /** The current tuple of sector i, if the row shows the same object there. */
    method IsCurrent(row: Row, i: nat, ghost rows: seq<Row>) returns (current: bool)
      requires Fit(sectors, rows, row) && i < |sectors| && During(sectors, objects, tuples, at, rows, row, i)
      ensures current ==>
                && tuples[i].Some? && rows != []
                && PathOf(sectors, row, i) == PathOf(sectors, rows[|rows| - 1], i)
                && Known(sectors, rows, Address(i, PathOf(sectors, row, i)))
                && tuples[i].value == At(at, Address(i, PathOf(sectors, row, i)))
      ensures tuples[i].Some? && rows != [] && KeyOf(sectors, rows[|rows| - 1], i) == KeyOf(sectors, row, i) ==> current
    {
      SectorWithin(sectors, i);
      var tuple := None;
      if tuples[i].Some? {
        assert RememberedAt(sectors, tuples[i].value, at, rows, row, i, i);
        CurrentTuple(sectors, objects, at, rows, row, i, tuples[i].value);
        tuple := Some(objects[tuples[i].value]);
      }
      current := IsRowSectorKeyEqual(row, sectors[i], tuple);
    }

    /** Searches the parent's relationship field for the first object with the row's key. */
    method FindResultTupleInParent(row: Row, i: nat, parent: nat, ghost keys: seq<Key>) returns (result: Option<nat>)
      requires i < |sectors| && SectorFits(row, sectors[i]) && parent < |objects|
      requires i in objects[parent].related ==>
                 objects[parent].related[i].Array?
                 && Candidates(objects, objects[parent].related[i].ids, keys, sectors[i].keyCount)
      ensures i !in objects[parent].related || SectorKey(row, sectors[i]) !in keys ==> result == None
      ensures i in objects[parent].related && SectorKey(row, sectors[i]) in keys ==>
                exists j :: 0 <= j < |keys| && SectorKey(row, sectors[i]) == keys[j]
                            && result == Some(objects[parent].related[i].ids[j])
    {
      if i in objects[parent].related {
        var candidates := objects[parent].related[i].ids;
        for j := 0 to |candidates|
          invariant SectorKey(row, sectors[i]) !in keys[..j]
        {
          var equal := IsRowSectorKeyEqual(row, sectors[i], Some(objects[candidates[j]]));
          if equal {
            return Some(candidates[j]);
          }
        }
      }
      return None;
    }

    /** The object the row shows in sector i, if the parent object refers to it already. */
    method FindExisting(row: Row, i: nat, parent: nat, ghost rows: seq<Row>) returns (result: Option<nat>)
      requires Context(sectors, rows, row) && 0 < i < |sectors|
      requires Stored(sectors, objects, at, rows, row, i) && RelationsSet(sectors, objects, at, rows, row, i)
      requires Present(sectors, row, i) && Present(sectors, row, sectors[i].parent)
      requires parent == At(at, OwnerAddress(sectors, row, i))
      ensures var a := Address(i, PathOf(sectors, row, i));
              result == if Known(sectors, rows, a) then Some(At(at, a)) else None
    {
      SectorWithin(sectors, i);
      ghost var above := ParentPath(sectors, row, i);
      ghost var keys := Kids(sectors, rows, i, above);
      OwnerRelation(sectors, objects, at, rows, row, i);
      WhetherListed(sectors, rows, row, i);
      if sectors[i].toMany {
        AllCandidates(sectors, objects, at, rows, row, i, above);
        result := FindResultTupleInParent(row, i, parent, keys);
      } else {
        ToOneKey(sectors, rows, row, i);
        var related := objects[parent].related;
        result := if i in related && related[i].Reference? then Some(related[i].id) else None;
      }
    }

    /** Sector 0: the root is never null. */
    method ProcessRoot(row: Row, ghost rows: seq<Row>)
      requires Context(sectors, rows, row) && RootsHeld(rows)
      requires During(sectors, objects, tuples, at, rows, row, 0)
      modifies this`objects, this`tuples, this`roots, this`at
      ensures During(sectors, objects, tuples, at, rows, row, 1) && RootsHeld(rows + [row])
    {
      SectorWithin(sectors, 0);
      var current := IsCurrent(row, 0, rows);
      if current {
        RootKept(sectors, objects, tuples, at, rows, row);
        SameRoots(sectors, rows, row);
      } else {
        RootIsNew(sectors, rows, row);
        MoreRoots(sectors, at, rows, row, |objects|, at[Address(0, PathOf(sectors, row, 0)) := |objects|]);
        AddRoot(row, rows);
      }
    }

    /** The current root is collected before a new one takes its place. */
    method AddRoot(row: Row, ghost rows: seq<Row>)
      requires Context(sectors, rows, row) && During(sectors, objects, tuples, at, rows, row, 0)
      requires !Known(sectors, rows, Address(0, PathOf(sectors, row, 0)))
      modifies this`objects, this`tuples, this`roots, this`at
      ensures During(sectors, objects, tuples, at, rows, row, 1)
      ensures tuples[0] == Some(|old(objects)|)
      ensures at == old(at)[Address(0, PathOf(sectors, row, 0)) := |old(objects)|]
      ensures roots == if old(tuples)[0].Some? then old(roots) + [old(tuples)[0].value] else old(roots)
    {
      SectorWithin(sectors, 0);
      ghost var objects0, tuples0, at0 := objects, tuples, at;
      if tuples[0].Some? {
        roots := roots + [tuples[0].value];
      }
      var tuple := NewResultObjectFromRow(row, sectors[0]);
      var id := |objects|;
      objects := objects + [tuple];
      at := at[Address(0, PathOf(sectors, row, 0)) := id];
      SetTuple(0, Some(id), row, rows);
      RootAdded(sectors, objects0, tuples0, at0, rows, row, objects, tuples, at);
    }

    /** Another sector, whose parent sector has been processed. */
    method ProcessSector(row: Row, i: nat, ghost rows: seq<Row>)
      requires Context(sectors, rows, row) && 0 < i < |sectors|
      requires During(sectors, objects, tuples, at, rows, row, i)
      modifies this`objects, this`tuples, this`at
      ensures During(sectors, objects, tuples, at, rows, row, i + 1)
      ensures SameOrGrown(sectors, old(at), row, i, |old(objects)|, at)
      ensures tuples[0] == old(tuples[0])
    {
      SectorWithin(sectors, i);
      ghost var tuples0, at0, objects0 := tuples, at, objects;
      var sector := sectors[i];
      var isNull := IsRowSectorKeyNull(row, sector);
      assert ReachedAt(sectors, tuples[sector.parent], at, row, sector.parent);
      if isNull {
        if tuples[sector.parent].Some? {
          OwnerStored(sectors, at, rows, row, i);
          SetRelated(tuples[sector.parent].value, i, if sector.toMany then Array([]) else NullReference);
        }
        SetTuple(i, None, row, rows);
        CaseNull(sectors, objects0, tuples0, at, rows, row, i, objects, tuples);
        return;
      }
      var current := IsCurrent(row, i, rows);
      if current {
        CaseFound(sectors, objects, tuples, at, rows, row, i, tuples);
        return;
      }
      var parent := tuples[sector.parent].value;
      OwnerStored(sectors, at, rows, row, i);
      var existing := FindExisting(row, i, parent, rows);
      if existing.Some? {
        SetTuple(i, existing, row, rows);
        CaseFound(sectors, objects, tuples0, at, rows, row, i, tuples);
      } else {
        AddObject(row, i, parent, rows);
      }
    }

    /** A new object is stored and its parent made to refer to it. */
    method AddRelated(row: Row, i: nat, parent: nat, ghost ids: seq<nat>)
      requires i < |sectors| && SectorFits(row, sectors[i]) && parent < |objects|
      requires if i in objects[parent].related then objects[parent].related[i] == RelationTo(sectors[i].toMany, ids)
               else ids == []
      requires !sectors[i].toMany ==> ids == []
      modifies this`objects
      ensures var offset := sectors[i].offset + sectors[i].keyCount;
              var tuple := DomainObject(SectorKey(row, sectors[i]), row[offset..offset + sectors[i].dataCount], map[]);
              var related := RelationTo(sectors[i].toMany, ids + [|old(objects)|]);
              objects == WithRelation(old(objects), parent, i, related) + [tuple]
    {
      var tuple := NewResultObjectFromRow(row, sectors[i]);
      var id := |objects|;
      objects := objects + [tuple];
      if sectors[i].toMany {
        var relationship := objects[parent].related;
        SetRelated(parent, i, Array((if i in relationship then relationship[i].ids else []) + [id]));
      } else {
        SetRelated(parent, i, Reference(id));
      }
    }

    /** The row shows an object not seen before. */
    method AddObject(row: Row, i: nat, parent: nat, ghost rows: seq<Row>)
      requires Context(sectors, rows, row) && 0 < i < |sectors|
      requires During(sectors, objects, tuples, at, rows, row, i)
      requires Present(sectors, row, i) && !Known(sectors, rows, Address(i, PathOf(sectors, row, i)))
      requires Present(sectors, row, sectors[i].parent) && OwnerAddress(sectors, row, i) in at
      requires parent == At(at, OwnerAddress(sectors, row, i))
      modifies this`objects, this`tuples, this`at
      ensures During(sectors, objects, tuples, at, rows, row, i + 1)
      ensures SameOrGrown(sectors, old(at), row, i, |old(objects)|, at)
      ensures tuples[0] == old(tuples[0])
    {
      ghost var tuples0, at0, objects0 := tuples, at, objects;
      ghost var above := ParentPath(sectors, row, i);
      ghost var ids := Ids(at, i, above, Kids(sectors, rows, i, above));
      BeforeAdding(sectors, objects, at, rows, row, i, parent, ids);
      SectorWithin(sectors, i);
      AddRelated(row, i, parent, ids);
      AddTuple(row, i, rows, tuples0, at0, objects0, ids);
    }

    /** The new object becomes the current tuple. */
    method AddTuple(row: Row, i: nat, ghost rows: seq<Row>, ghost tuples0: seq<Option<nat>>,
                    ghost at0: map<Address, nat>, ghost objects0: seq<DomainObject>, ghost ids: seq<nat>)
      requires Context(sectors, rows, row) && 0 < i < |sectors|
      requires During(sectors, objects0, tuples0, at0, rows, row, i) && tuples == tuples0 && at == at0
      requires Present(sectors, row, i) && !Known(sectors, rows, Address(i, PathOf(sectors, row, i)))
      requires Present(sectors, row, sectors[i].parent) && OwnerAddress(sectors, row, i) in at0
      requires ids == Ids(at0, i, ParentPath(sectors, row, i), Kids(sectors, rows, i, ParentPath(sectors, row, i)))
      requires objects == WithRelation(objects0, At(at0, OwnerAddress(sectors, row, i)), i,
                                       RelationTo(sectors[i].toMany, ids + [|objects0|]))
                          + [DomainObject(KeyOf(sectors, row, i), DataOf(sectors, row, i), map[])]
      modifies this`tuples, this`at
      ensures During(sectors, objects, tuples, at, rows, row, i + 1)
      ensures SameOrGrown(sectors, at0, row, i, |objects0|, at)
      ensures tuples[0] == tuples0[0]
    {
      var id := |objects| - 1;
      ghost var tuple := DomainObject(KeyOf(sectors, row, i), DataOf(sectors, row, i), map[]);
      assert id == |objects0|;
      at := at[Address(i, PathOf(sectors, row, i)) := id];
      SetTuple(i, Some(id), row, rows);
      CaseNew(sectors, objects0, tuples0, at0, rows, row, i, tuple, ids, objects, tuples, at);
    }

    /** Sectors below i have been processed. */
    ghost predicate Progress(row: Row, rows: seq<Row>, i: nat)
      reads this
    {
      && Context(sectors, rows, row) && During(sectors, objects, tuples, at, rows, row, i)
      && RootsHeld(RowsFor(rows, row, i, 0))
    }

    method Process(row: Row, i: nat, ghost rows: seq<Row>)
      requires i < |sectors| && Progress(row, rows, i)
      modifies this`objects, this`tuples, this`roots, this`at
      ensures Progress(row, rows, i + 1)
    {
      if i == 0 {
        ProcessRoot(row, rows);
      } else {
        ghost var at0, objects0 := at, objects;
        ProcessSector(row, i, rows);
        IdsElsewhere(sectors, at0, row, i, |objects0|, at, 0, [], Kids(sectors, rows + [row], 0, []));
      }
    }

    /** Each sector of a row in turn; the parent of a sector always comes before it. */
    method ProcessRow(row: Row, ghost rows: seq<Row>)
      requires Progress(row, rows, 0)
      modifies this`objects, this`tuples, this`roots, this`at
      ensures Progress(row, rows, |sectors|)
    {
      for i := 0 to |sectors|
        invariant Progress(row, rows, i)
      {
        Process(row, i, rows);
      }
    }

    method OnResult(row: Row)
      requires Valid() && Coherent(sectors, seen + [row])
      modifies this
      ensures Valid() && seen == old(seen) + [row] && Read(sectors, objects, at, seen)
    {
      ghost var rows := seen;
      BeginRow(sectors, objects, tuples, at, rows, row);
      ProcessRow(row, rows);
      EndRow(sectors, objects, tuples, at, rows, row);
      seen := rows + [row];
    }

    /** After the last row the current root joins the others; a scan reports them all. */
    method OnEnd(isScan: bool) returns (result: ReadResult)
      requires Valid()
      modifies this`roots
      ensures roots == Ids(at, 0, [], Kids(sectors, seen, 0, []))
      ensures result.success <==> seen != []
      ensures result.errorCode == if seen == [] then Some(ROW_NOT_FOUND) else None
      ensures isScan ==> result.value == Many(roots)
      ensures !isScan ==>
                result.value == if seen == [] then NoValue else Single(roots[|roots| - 1])
    {
      if tuples[0].Some? {
        roots := roots + [tuples[0].value];
        result := ReadResult(Single(tuples[0].value), true, None);
      } else {
        result := ReadResult(NoValue, false, Some(ROW_NOT_FOUND));
      }
      if isScan {
        result := result.(value := Many(roots));
      }
    }
  }
}
