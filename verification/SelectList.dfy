/** The selected columns of a projection (jones-mysql/impl/MySQLConnection.js, initializeProjection):
    where the sectors built by createSector are found in a row. */
module SelectList {
  import opened ProjectionTrees
  import opened Sectors
  import JoinRows

  /** A column of the SELECT clause; its alias is its position. */
  datatype Column = Column(sector: nat, field: string)

  /** The columns of sector k, key fields first, start at the given alias. */
  ghost predicate ColumnsAt(select: seq<Column>, start: nat, sector: Sector, k: nat) {
    && start + FieldsOf(sector) <= |select|
    && (forall j :: 0 <= j < |sector.keyFields| ==> select[start + j] == Column(k, sector.keyFields[j]))
    && (forall j :: 0 <= j < |sector.nonKeyFields| ==>
          select[start + |sector.keyFields| + j] == Column(k, sector.nonKeyFields[j]))
  }

  lemma {:induction false} ColumnsKept(select: seq<Column>, start: nat, sector: Sector, k: nat, more: seq<Column>)
    requires ColumnsAt(select, start, sector, k)
    ensures ColumnsAt(select + more, start, sector, k)
  {
  }

  lemma {:induction false} ColumnsAdded(select: seq<Column>, sector: Sector, k: nat, more: seq<Column>)
    requires ColumnsAt(more, 0, sector, k)
    ensures ColumnsAt(select + more, |select|, sector, k)
  {
    var all := select + more;
    forall j | 0 <= j < |sector.keyFields|
      ensures all[|select| + j] == Column(k, sector.keyFields[j])
    {
      assert all[|select| + j] == more[0 + j];
    }
    forall j | 0 <= j < |sector.nonKeyFields|
      ensures all[|select| + |sector.keyFields| + j] == Column(k, sector.nonKeyFields[j])
    {
      assert all[|select| + |sector.keyFields| + j] == more[0 + |sector.keyFields| + j];
    }
  }

  /** The first sectors have their columns, each from its offset on. */
  ghost predicate Selected(sectors: seq<Sector>, offsets: seq<nat>, select: seq<Column>) {
    && |offsets| <= |sectors| && |select| == FieldsBefore(sectors, |offsets|)
    && forall k {:trigger SelectedAt(sectors, offsets, select, k)} ::
         0 <= k < |offsets| ==> SelectedAt(sectors, offsets, select, k)
  }

  ghost predicate SelectedAt(sectors: seq<Sector>, offsets: seq<nat>, select: seq<Column>, k: nat)
    requires k < |offsets| <= |sectors|
  {
    offsets[k] == FieldsBefore(sectors, k) && ColumnsAt(select, offsets[k], sectors[k], k)
  }

  lemma {:induction false} SelectedMore(sectors: seq<Sector>, offsets: seq<nat>, select: seq<Column>,
                                        columns: seq<Column>)
    requires Selected(sectors, offsets, select) && |offsets| < |sectors|
    requires |columns| == FieldsOf(sectors[|offsets|]) && ColumnsAt(columns, 0, sectors[|offsets|], |offsets|)
    ensures Selected(sectors, offsets + [|select|], select + columns)
  {
    var n := |offsets|;
    forall k | 0 <= k <= n
      ensures SelectedAt(sectors, offsets + [|select|], select + columns, k)
    {
      if k < n {
        assert SelectedAt(sectors, offsets, select, k);
        ColumnsKept(select, offsets[k], sectors[k], k, columns);
      } else {
        ColumnsAdded(select, sectors[n], n, columns);
      }
    }
  }

  /** Lists the columns and counts the offset of every sector. */
  method InitializeProjection(sectors: seq<Sector>) returns (offsets: seq<nat>, select: seq<Column>)
    ensures |offsets| == |sectors| && Selected(sectors, offsets, select)
  {
    offsets, select := [], [];
    var offset := 0;
    for i := 0 to |sectors|
      invariant |offsets| == i && offset == |select| && Selected(sectors, offsets, select)
    {
      var columns := SectorColumns(sectors[i], i);
      SelectedMore(sectors, offsets, select, columns);
      offsets := offsets + [offset];
      offset := offset + |sectors[i].keyFields| + |sectors[i].nonKeyFields|;
      select := select + columns;
    }
  }

  method SectorColumns(sector: Sector, i: nat) returns (columns: seq<Column>)
    ensures |columns| == FieldsOf(sector) && ColumnsAt(columns, 0, sector, i)
  {
    columns := [];
    for j := 0 to |sector.keyFields|
      invariant |columns| == j && forall k :: 0 <= k < j ==> columns[k] == Column(i, sector.keyFields[k])
    {
      columns := columns + [Column(i, sector.keyFields[j])];
    }
    for j := 0 to |sector.nonKeyFields|
      invariant |columns| == |sector.keyFields| + j
      invariant forall k :: 0 <= k < |sector.keyFields| ==> columns[k] == Column(i, sector.keyFields[k])
      invariant forall k :: 0 <= k < j ==> columns[|sector.keyFields| + k] == Column(i, sector.nonKeyFields[k])
    {
      columns := columns + [Column(i, sector.nonKeyFields[j])];
    }
  }

  // ---------------------------------------------------------------- the sectors as row layout

  function TableOf(sectors: seq<Sector>): JoinRows.Table {
    seq(|sectors|, k requires 0 <= k < |sectors| =>
      var s := sectors[k];
      JoinRows.Sector(s.offset, |s.keyFields|, |s.nonKeyFields|, s.parentSectorIndex, s.projection.toMany,
                      s.childSectorIndexes))
  }

  /** Child indexes are exactly the sectors that have this one as parent, in ascending order. */
  lemma {:induction false} ChildrenExact(sectors: seq<Sector>, k: nat, n: nat)
    requires n <= |sectors|
    ensures forall c :: c in ChildIndexes(sectors, k, n) <==> 0 < c < n && sectors[c].parentSectorIndex == k
    ensures forall i, j :: 0 <= i < j < |ChildIndexes(sectors, k, n)| ==>
              ChildIndexes(sectors, k, n)[i] < ChildIndexes(sectors, k, n)[j]
  {
    if n > 1 {
      ChildrenExact(sectors, k, n - 1);
      var before := ChildIndexes(sectors, k, n - 1);
      assert forall i :: 0 <= i < |before| ==> before[i] in before;
    }
  }

  /** The sectors createSector builds are a row layout as reading rows relies on it. */
  lemma {:induction false} SectorsMakeTable(tree: Tree)
    requires Built(tree)
    requires forall k :: 0 <= k < |Bfs([tree])| ==> Bfs([tree])[k].projection.keyFields != []
    ensures JoinRows.ValidTable(TableOf(tree.projection.sectors))
  {
    var sectors, list := tree.projection.sectors, Bfs([tree]);
    var t := TableOf(sectors);
    forall s | 0 <= s < |t|
      ensures t[s].keyCount > 0 && (s == 0 ==> t[s].offset == 0) && (s > 0 ==> t[s].parent < s)
    {
      assert SectorFor(sectors, list, s);
    }
    forall s | 0 < s < |t|
      ensures JoinRows.Follows(t, s)
    {
      assert SectorFor(sectors, list, s) && SectorFor(sectors, list, s - 1);
    }
    forall s, j | 0 <= s < |t| && 0 <= j < |t[s].children|
      ensures s < t[s].children[j] < |t| && t[t[s].children[j]].parent == s
    {
      ChildAfter(sectors, list, s, j);
    }
    forall s, j, k | 0 <= s < |t| && 0 <= j < k < |t[s].children|
      ensures t[s].children[j] != t[s].children[k]
    {
      assert SectorFor(sectors, list, s);
      ChildrenExact(sectors, s, |sectors|);
    }
    forall c | 0 < c < |t|
      ensures JoinRows.Listed(t, c)
    {
      assert SectorFor(sectors, list, t[c].parent);
      ChildrenExact(sectors, t[c].parent, |sectors|);
    }
  }

  lemma {:induction false} ChildAfter(sectors: seq<Sector>, list: seq<Tree>, s: nat, j: nat)
    requires SectorsFor(sectors, list) && s < |sectors| && j < |sectors[s].childSectorIndexes|
    ensures var c := sectors[s].childSectorIndexes[j]; s < c < |sectors| && sectors[c].parentSectorIndex == s
  {
    assert SectorFor(sectors, list, s);
    ChildrenExact(sectors, s, |sectors|);
    var c := sectors[s].childSectorIndexes[j];
    assert c in ChildIndexes(sectors, s, |sectors|);
    assert SectorFor(sectors, list, c);
  }

  /** A projection is listed among the sectors of its tree exactly once. */
  lemma {:induction false} EachProjectionOnce(tree: Tree, p: Projection)
    requires Built(tree) && Once([tree])
    ensures Count([tree], p) == Occurrences(Bfs([tree]), p) <= 1
    ensures Count([tree], p) == 1 <==>
              exists k :: 0 <= k < |tree.projection.sectors| && tree.projection.sectors[k].projection == p
  {
    var sectors, list := tree.projection.sectors, Bfs([tree]);
    BfsLists([tree], p);
    ListedOnce(list, p);
    if k :| 0 <= k < |sectors| && sectors[k].projection == p {
      assert SectorFor(sectors, list, k);
      ListedOften(list, k, k, p);
    }
    if Count([tree], p) == 1 {
      var k :| 0 <= k < |list| && Roots(list)[k] == p;
      assert SectorFor(sectors, list, k);
    }
  }
}
