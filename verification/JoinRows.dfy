/** Rows of a LEFT OUTER JOIN over the sectors of a projection
    (jones-mysql/impl/MySQLConnection.js). */
module JoinRows {

  datatype Cell = Null | Val(n: int)

  type Row = seq<Cell>

  type Key = seq<Cell>

  /** The keys from the root of a result down to one of its objects. */
  type Path = seq<Key>

  /** One sector describes one kind of object of the projection: where its key fields and then
      its other fields start in a row, and the sector of the object it belongs to. */
  datatype Sector = Sector(offset: nat, keyCount: nat, dataCount: nat, parent: nat, toMany: bool, children: seq<nat>)

  type Table = seq<Sector>

  predicate Follows(t: Table, s: nat)
    requires 0 < s < |t|
  {
    t[s].offset == t[s - 1].offset + t[s - 1].keyCount + t[s - 1].dataCount
  }

  /** The sector is listed as a child of its parent. */
  predicate Listed(t: Table, c: nat)
    requires 0 < c < |t| && t[c].parent < c
  {
    c in t[t[c].parent].children
  }

  /** What createSector establishes. */
  ghost predicate ValidTable(t: Table) {
    && t != [] && t[0].offset == 0
    && (forall s :: 0 <= s < |t| ==> t[s].keyCount > 0)
    && (forall s :: 0 < s < |t| ==> t[s].parent < s)
    && (forall s {:trigger Follows(t, s)} :: 0 < s < |t| ==> Follows(t, s))
    && (forall s, j :: 0 <= s < |t| && 0 <= j < |t[s].children| ==>
          s < t[s].children[j] < |t| && t[t[s].children[j]].parent == s)
    && (forall s, j, k :: 0 <= s < |t| && 0 <= j < k < |t[s].children| ==>
          t[s].children[j] != t[s].children[k])
    && (forall c {:trigger Listed(t, c)} :: 0 < c < |t| ==> Listed(t, c))
  }

  function Width(t: Table): nat
    requires t != []
  {
    var last := t[|t| - 1];
    last.offset + last.keyCount + last.dataCount
  }

  lemma {:induction false} SectorWithin(t: Table, s: nat)
    requires ValidTable(t) && s < |t|
    ensures t[s].offset + t[s].keyCount + t[s].dataCount <= Width(t)
    decreases |t| - s
  {
    if s + 1 < |t| {
      assert Follows(t, s + 1);
      SectorWithin(t, s + 1);
    }
  }

  ghost predicate IsRow(t: Table, row: Row) {
    ValidTable(t) && |row| == Width(t)
  }

  ghost function KeyOf(t: Table, row: Row, s: nat): Key
    requires IsRow(t, row) && s < |t|
  {
    SectorWithin(t, s);
    row[t[s].offset..t[s].offset + t[s].keyCount]
  }

  ghost function DataOf(t: Table, row: Row, s: nat): seq<Cell>
    requires IsRow(t, row) && s < |t|
  {
    SectorWithin(t, s);
    row[t[s].offset + t[s].keyCount..t[s].offset + t[s].keyCount + t[s].dataCount]
  }

  predicate IsNullKey(key: Key) {
    forall i :: 0 <= i < |key| ==> key[i].Null?
  }

  /** Does the row hold an object of the sector? */
  ghost predicate Present(t: Table, row: Row, s: nat)
    requires IsRow(t, row) && s < |t|
  {
    !IsNullKey(KeyOf(t, row, s))
  }

  ghost function ParentPath(t: Table, row: Row, s: nat): Path
    requires IsRow(t, row) && s < |t|
    decreases s, 0
  {
    if s == 0 then [] else PathOf(t, row, t[s].parent)
  }

  ghost function PathOf(t: Table, row: Row, s: nat): Path
    requires IsRow(t, row) && s < |t|
    decreases s, 1
  {
    ParentPath(t, row, s) + [KeyOf(t, row, s)]
  }

  // ---------------------------------------------------------------- what the rows have in common

  /** In an outer join the root is always there, and nothing is there below an absent object. */
  ghost predicate Nested(t: Table, row: Row)
    requires IsRow(t, row)
  {
    && Present(t, row, 0)
    && forall s :: 0 < s < |t| && Present(t, row, s) ==> Present(t, row, t[s].parent)
  }

  /** Two rows that show the same object show the same fields of it, and either both or neither
      show objects related to it, the same one if the relationship is to one. */
  ghost predicate Agree(t: Table, r: Row, q: Row)
    requires IsRow(t, r) && IsRow(t, q)
  {
    forall s :: 0 <= s < |t| ==>
      && (Present(t, r, s) && PathOf(t, r, s) == PathOf(t, q, s) ==> DataOf(t, r, s) == DataOf(t, q, s))
      && (s > 0 && Present(t, r, t[s].parent) && ParentPath(t, r, s) == ParentPath(t, q, s) ==>
            && (Present(t, r, s) <==> Present(t, q, s))
            && (!t[s].toMany ==> KeyOf(t, r, s) == KeyOf(t, q, s)))
  }

  ghost predicate AllRows(t: Table, rows: seq<Row>) {
    forall i :: 0 <= i < |rows| ==> IsRow(t, rows[i])
  }

  /** Rows of one root stand together: a root that came up before is that of the row before. */
  ghost predicate Together(t: Table, rows: seq<Row>, k: nat, n: nat)
    requires AllRows(t, rows) && k < n < |rows|
  {
    KeyOf(t, rows[k], 0) == KeyOf(t, rows[n], 0) ==> KeyOf(t, rows[n - 1], 0) == KeyOf(t, rows[n], 0)
  }

  ghost predicate Coherent(t: Table, rows: seq<Row>) {
    && AllRows(t, rows)
    && (forall i {:trigger Nested(t, rows[i])} :: 0 <= i < |rows| ==> Nested(t, rows[i]))
    && (forall i, j {:trigger Agree(t, rows[i], rows[j])} ::
          0 <= i < |rows| && 0 <= j < |rows| ==> Agree(t, rows[i], rows[j]))
    && (forall k, n {:trigger Together(t, rows, k, n)} :: 0 <= k < n < |rows| ==> Together(t, rows, k, n))
  }

  // ---------------------------------------------------------------- grouping

  /** The distinct keys in sector c, in order of first appearance, among the rows that agree on
      the path above it. */
  ghost function Kids(t: Table, rows: seq<Row>, c: nat, above: Path): seq<Key>
    requires AllRows(t, rows) && c < |t|
  {
    if rows == [] then []
    else
      var n := |rows| - 1;
      var before := Kids(t, rows[..n], c, above);
      if Present(t, rows[n], c) && ParentPath(t, rows[n], c) == above && KeyOf(t, rows[n], c) !in before then
        before + [KeyOf(t, rows[n], c)]
      else before
  }

  lemma {:induction false} KidsStep(t: Table, rows: seq<Row>, row: Row, c: nat, above: Path)
    requires AllRows(t, rows) && IsRow(t, row) && c < |t|
    ensures AllRows(t, rows + [row])
    ensures Kids(t, rows + [row], c, above) ==
              var before := Kids(t, rows, c, above);
              if Present(t, row, c) && ParentPath(t, row, c) == above && KeyOf(t, row, c) !in before then
                before + [KeyOf(t, row, c)]
              else before
  {
    assert (rows + [row])[..|rows|] == rows;
  }

  predicate Distinct<T(==)>(s: seq<T>) {
    forall i, j :: 0 <= i < j < |s| ==> s[i] != s[j]
  }

  lemma {:induction false} KidsDistinct(t: Table, rows: seq<Row>, c: nat, above: Path)
    requires AllRows(t, rows) && c < |t|
    ensures Distinct(Kids(t, rows, c, above))
  {
    if rows != [] {
      var n := |rows| - 1;
      KidsDistinct(t, rows[..n], c, above);
      assert rows[..n] + [rows[n]] == rows;
      KidsStep(t, rows[..n], rows[n], c, above);
    }
  }

  /** A key is listed exactly when some row shows it there. */
  lemma {:induction false} KidsWitness(t: Table, rows: seq<Row>, c: nat, above: Path, key: Key) returns (i: nat)
    requires AllRows(t, rows) && c < |t| && key in Kids(t, rows, c, above)
    ensures i < |rows| && Present(t, rows[i], c)
    ensures ParentPath(t, rows[i], c) == above && KeyOf(t, rows[i], c) == key
  {
    var n := |rows| - 1;
    if key in Kids(t, rows[..n], c, above) {
      i := KidsWitness(t, rows[..n], c, above, key);
    } else {
      i := n;
    }
  }

  lemma {:induction false} ShownIsListed(t: Table, rows: seq<Row>, i: nat, c: nat)
    requires AllRows(t, rows) && c < |t| && i < |rows| && Present(t, rows[i], c)
    ensures KeyOf(t, rows[i], c) in Kids(t, rows, c, ParentPath(t, rows[i], c))
  {
    var n := |rows| - 1;
    if i < n {
      ShownIsListed(t, rows[..n], i, c);
    }
  }

  /** An object of the result: its sector and the keys down to it. */
  datatype Address = Address(sector: nat, path: Path)

  /** The row shows the object at the address. */
  ghost predicate Shows(t: Table, row: Row, a: Address)
    requires IsRow(t, row)
  {
    a.sector < |t| && Present(t, row, a.sector) && PathOf(t, row, a.sector) == a.path
  }

  ghost predicate Known(t: Table, rows: seq<Row>, a: Address)
    requires AllRows(t, rows)
  {
    exists k {:trigger Shows(t, rows[k], a)} :: 0 <= k < |rows| && Shows(t, rows[k], a)
  }

  lemma {:induction false} PathParts(t: Table, row: Row, i: nat, path: Path)
    requires IsRow(t, row) && i < |t|
    ensures path == PathOf(t, row, i) <==>
              path != [] && path[..|path| - 1] == ParentPath(t, row, i) && path[|path| - 1] == KeyOf(t, row, i)
  {
    if path != [] {
      assert path == path[..|path| - 1] + [path[|path| - 1]];
    }
    assert PathOf(t, row, i)[..|PathOf(t, row, i)| - 1] == ParentPath(t, row, i);
  }

  /** The known objects are those whose keys are listed. */
  lemma {:induction false} KnownIsListed(t: Table, rows: seq<Row>, a: Address)
    requires AllRows(t, rows) && a.sector < |t|
    ensures Known(t, rows, a) <==>
              a.path != [] && a.path[|a.path| - 1] in Kids(t, rows, a.sector, a.path[..|a.path| - 1])
  {
    if k :| 0 <= k < |rows| && Shows(t, rows[k], a) {
      PathParts(t, rows[k], a.sector, a.path);
      ShownIsListed(t, rows, k, a.sector);
    }
    if a.path != [] && a.path[|a.path| - 1] in Kids(t, rows, a.sector, a.path[..|a.path| - 1]) {
      var k := KidsWitness(t, rows, a.sector, a.path[..|a.path| - 1], a.path[|a.path| - 1]);
      PathParts(t, rows[k], a.sector, a.path);
      assert Shows(t, rows[k], a);
    }
  }

  /** Related objects are only known of known objects. */
  lemma {:induction false} KidsNeedParent(t: Table, rows: seq<Row>, c: nat, above: Path)
    requires AllRows(t, rows) && 0 < c < |t| && Kids(t, rows, c, above) != []
    requires forall i :: 0 <= i < |rows| ==> Nested(t, rows[i])
    ensures Known(t, rows, Address(t[c].parent, above))
  {
    var i := KidsWitness(t, rows, c, above, Kids(t, rows, c, above)[0]);
    assert Shows(t, rows[i], Address(t[c].parent, above));
  }
}
