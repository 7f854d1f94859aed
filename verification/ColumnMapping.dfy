/** Mapping fields to columns, one field to one column, many to one, or one to many
    (database-jones/Adapter/common/DBTableHandler.js). */
module ColumnMapping {
  import opened Options
  import opened Columns

  /** To which column or columns a field is mapped, and whether it shares its column. */
  datatype FieldMapping =
    | ToColumn(fieldName: string, columnName: string, isShared: bool)
    | ToManyColumns(fieldName: string, toManyColumns: seq<string>)

  /** Columns with the names of the fields mapped to them; a column without any is unmapped. */
  ghost predicate Sound(cols: seq<Column>, fields: set<string>) {
    && Mapping(cols)
    && forall i: nat {:trigger cols[i]} :: i < |cols| ==>
         && (cols[i].kind.Unmapped? <==> cols[i].fieldNames == [])
         && !cols[i].kind.Sparse?
         && forall name :: name in cols[i].fieldNames ==> name in fields
  }

  // ---------------------------------------------------------------- one field to many columns

  /** How many of the first i columns are in a list. */
  function Rank(cols: seq<Column>, list: seq<string>, i: nat): nat
    requires i <= |cols|
  {
    if i == 0 then 0 else Rank(cols, list, i - 1) + if cols[i - 1].name in list then 1 else 0
  }

  lemma {:induction false} RankGrows(cols: seq<Column>, list: seq<string>, i: nat, j: nat)
    requires i <= j <= |cols|
    ensures Rank(cols, list, i) <= Rank(cols, list, j)
    ensures Rank(cols, list, i) == Rank(cols, list, j) <==> forall k :: i <= k < j ==> cols[k].name !in list
  {
    if i < j {
      RankGrows(cols, list, i, j - 1);
    }
  }

  function PartOf(cols: seq<Column>, list: seq<string>, name: string, i: nat): Column
    requires i < |cols|
  {
    if cols[i].name in list
    then cols[i].(kind := Partial(Rank(cols, list, i) == 0, Rank(cols, list, i) == |list| - 1),
                  fieldNames := cols[i].fieldNames + [name])
    else cols[i]
  }

  /** The columns, the first i of which have been looked at for parts of a field. */
  function DividedOver(cols: seq<Column>, list: seq<string>, name: string, i: nat): (r: seq<Column>)
    requires i <= |cols|
    ensures |r| == |cols| && forall k: nat {:trigger r[k]} :: k < |r| ==>
              r[k] == if k < i then PartOf(cols, list, name, k) else cols[k]
  {
    seq(|cols|, k requires 0 <= k < |cols| => if k < i then PartOf(cols, list, name, k) else cols[k])
  }

  /** None of the columns a field is divided over has another field. */
  predicate Free(cols: seq<Column>, list: seq<string>) {
    forall i :: 0 <= i < |cols| && cols[i].name in list ==> cols[i].kind.Unmapped?
  }

  lemma {:induction false} PartIsNew(cols: seq<Column>, fields: set<string>, list: seq<string>, name: string, k: nat,
                                     other: string)
    requires Sound(cols, fields) && name !in fields && Free(cols, list) && k < |cols|
    ensures IsPart(PartOf(cols, list, name, k), other)
       <==> if other == name then cols[k].name in list else IsPart(cols[k], other)
  {
    var after := PartOf(cols, list, name, k);
    if cols[k].name in list {
      assert cols[k].fieldNames == [];
      assert after.fieldNames == [name];
    } else {
      assert name !in cols[k].fieldNames;
    }
  }

  /** There is a part of the field from one column to another just when the rank grows between them. */
  lemma {:induction false} RankTellsParts(cols: seq<Column>, fields: set<string>, list: seq<string>, name: string,
                                          from: nat, to: nat)
    requires Sound(cols, fields) && name !in fields && Free(cols, list) && from <= to <= |cols|
    ensures AnyPart(DividedOver(cols, list, name, |cols|), from, to, name)
       <==> Rank(cols, list, from) < Rank(cols, list, to)
  {
    var after := DividedOver(cols, list, name, |cols|);
    RankGrows(cols, list, from, to);
    forall k: nat | k < |cols|
      ensures IsPart(after[k], name) <==> cols[k].name in list
    {
      PartIsNew(cols, fields, list, name, k, name);
      assert after[k] == PartOf(cols, list, name, k);
    }
  }

  lemma {:induction false} OtherParts(cols: seq<Column>, fields: set<string>, list: seq<string>, name: string,
                                      from: nat, to: nat, other: string)
    requires Sound(cols, fields) && name !in fields && Free(cols, list) && other != name
    ensures AnyPart(DividedOver(cols, list, name, |cols|), from, to, other) <==> AnyPart(cols, from, to, other)
  {
    var after := DividedOver(cols, list, name, |cols|);
    forall k: nat | k < |cols|
      ensures IsPart(after[k], other) <==> IsPart(cols[k], other)
    {
      PartIsNew(cols, fields, list, name, k, other);
      assert after[k] == PartOf(cols, list, name, k);
    }
  }

  lemma {:induction false} PartsKnowEnds(cols: seq<Column>, fields: set<string>, list: seq<string>, name: string,
                                         i: nat)
    requires Sound(cols, fields) && name !in fields && Free(cols, list) && Rank(cols, list, |cols|) == |list|
             && i < |cols|
    ensures KnowsEnds(DividedOver(cols, list, name, |cols|), i)
  {
    var after := DividedOver(cols, list, name, |cols|);
    assert after[i] == PartOf(cols, list, name, i);
    forall other | IsPart(after[i], other)
      ensures after[i].kind.isFirst <==> !AnyPart(after, 0, i, other)
      ensures after[i].kind.isLast <==> !AnyPart(after, i + 1, |after|, other)
    {
      PartIsNew(cols, fields, list, name, i, other);
      if other == name {
        RankTellsParts(cols, fields, list, name, 0, i);
        RankTellsParts(cols, fields, list, name, i + 1, |cols|);
        RankGrows(cols, list, i + 1, |cols|);
        assert Rank(cols, list, i + 1) == Rank(cols, list, i) + 1;
      } else {
        OtherParts(cols, fields, list, name, 0, i, other);
        OtherParts(cols, fields, list, name, i + 1, |cols|, other);
        assert KnowsEnds(cols, i) && cols[i].fieldNames == [other];
      }
    }
  }

  lemma {:induction false} PartsApart(cols: seq<Column>, fields: set<string>, list: seq<string>, name: string, i: nat,
                                      j: nat)
    requires Sound(cols, fields) && name !in fields && Free(cols, list) && i < |cols| && j < |cols| && i != j
    ensures Apart(DividedOver(cols, list, name, |cols|)[i], DividedOver(cols, list, name, |cols|)[j])
  {
    assert Apart(cols[i], cols[j]);
  }

  /** Dividing a field over columns is sound if and only if they have no other field. */
  lemma {:induction false} PartsSound(cols: seq<Column>, fields: set<string>, list: seq<string>, name: string)
    requires Sound(cols, fields) && name !in fields && Rank(cols, list, |cols|) == |list|
    ensures Sound(DividedOver(cols, list, name, |cols|), fields + {name}) <==> Free(cols, list)
  {
    var after := DividedOver(cols, list, name, |cols|);
    if Free(cols, list) {
      forall i: nat | i < |cols|
        ensures WellFormed(after[i]) && KnowsEnds(after, i)
      {
        assert WellFormed(cols[i]);
        PartsKnowEnds(cols, fields, list, name, i);
      }
      forall i: nat, j: nat | i < |cols| && j < |cols| && i != j
        ensures Apart(after[i], after[j])
      {
        PartsApart(cols, fields, list, name, i, j);
      }
    } else {
      var i :| 0 <= i < |cols| && cols[i].name in list && !cols[i].kind.Unmapped?;
      assert !WellFormed(after[i]);
    }
  }

  /** No error is reported for a field that is divided over a column that already has one. */
  lemma {:induction false} DisturbedSilently(cols: seq<Column>, list: seq<string>, converter: Converter)
    requires cols == [Column("x", OneToOne, ["b"], converter), Column("y", Unmapped, [], converter)]
             && list == ["x", "y"]
    ensures Sound(cols, {"b"}) && Rank(cols, list, |cols|) == |list|
    ensures !Sound(DividedOver(cols, list, "a", |cols|), {"b"} + {"a"})
  {
    assert cols[0].name != cols[1].name;
    assert Sound(cols, {"b"});
    assert Rank(cols, list, 1) == Rank(cols, list, 0) + 1;
    PartsSound(cols, {"b"}, list, "a");
  }

  // ---------------------------------------------------------------- one field to one column

  /** A column with one more field. */
  function WithField(col: Column, name: string, isShared: bool): Column {
    col.(kind := if isShared || col.kind.Shared? then Shared else if col.kind.Unmapped? then OneToOne else col.kind,
         fieldNames := col.fieldNames + [name])
  }

  /** Is a column one of several parts of a field? */
  predicate OneOfSeveral(col: Column) {
    col.kind.Partial? && !(col.kind.isFirst && col.kind.isLast)
  }

  lemma {:induction false} OtherPartThere(cols: seq<Column>, i: nat, name: string) returns (j: nat)
    requires Mapping(cols) && i < |cols| && IsPart(cols[i], name) && OneOfSeveral(cols[i])
    ensures j < |cols| && j != i && IsPart(cols[j], name)
  {
    assert KnowsEnds(cols, i);
    if AnyPart(cols, 0, i, name) {
      j :| j < i && IsPart(cols[j], name);
    } else {
      j :| i < j < |cols| && IsPart(cols[j], name);
    }
  }

  lemma {:induction false} NotPart(cols: seq<Column>, fields: set<string>, i: nat, name: string, isShared: bool,
                                   from: nat, to: nat, other: string)
    requires Sound(cols, fields) && name !in fields && i < |cols| && !OneOfSeveral(cols[i])
    requires isShared || cols[i].kind.Shared? || cols[i].kind.Unmapped?
    requires exists k: nat :: k < |cols| && k != i && IsPart(cols[k], other)
    ensures AnyPart(cols[i := WithField(cols[i], name, isShared)], from, to, other) <==> AnyPart(cols, from, to, other)
  {
    var after := cols[i := WithField(cols[i], name, isShared)];
    var k: nat :| k < |cols| && k != i && IsPart(cols[k], other);
    assert KnowsEnds(cols, i);
    assert !IsPart(cols[i], other);
    forall j: nat | j < |cols|
      ensures IsPart(after[j], other) <==> IsPart(cols[j], other)
    {
    }
  }

  lemma {:induction false} LonePart(cols: seq<Column>, i: nat, k: nat, name: string)
    requires Mapping(cols) && i < |cols| && k < |cols| && k != i && !OneOfSeveral(cols[i]) && IsPart(cols[i], name)
    ensures !IsPart(cols[k], name)
  {
    assert KnowsEnds(cols, i);
    assert !AnyPart(cols, 0, i, name) && !AnyPart(cols, i + 1, |cols|, name);
  }

  lemma {:induction false} HeldOnce(cols: seq<Column>, i: nat, k: nat, other: string)
    requires Mapping(cols) && i < |cols| && k < |cols| && k != i && !OneOfSeveral(cols[i]) && Holds(cols[i], other)
    ensures !Holds(cols[k], other)
  {
    assert Apart(cols[i], cols[k]);
    if IsPart(cols[i], other) {
      LonePart(cols, i, k, other);
    }
  }

  lemma {:induction false} FieldApart(cols: seq<Column>, fields: set<string>, i: nat, name: string, isShared: bool,
                                      k: nat)
    requires Sound(cols, fields) && name !in fields && i < |cols| && !OneOfSeveral(cols[i]) && k < |cols| && k != i
    requires isShared || cols[i].kind.Shared? || cols[i].kind.Unmapped?
    ensures Apart(WithField(cols[i], name, isShared), cols[k]) && Apart(cols[k], WithField(cols[i], name, isShared))
  {
    assert Apart(cols[i], cols[k]) && Apart(cols[k], cols[i]) && cols[k] == cols[k];
    var after := WithField(cols[i], name, isShared);
    assert !Holds(cols[k], name);
    forall other | Holds(after, other)
      ensures !Holds(cols[k], other)
    {
      if other != name {
        HeldOnce(cols, i, k, other);
      }
    }
  }

  /** Giving a column a field is sound if and only if it is not one of several parts of another. */
  lemma {:induction false} FieldSound(cols: seq<Column>, fields: set<string>, i: nat, name: string, isShared: bool)
    requires Sound(cols, fields) && name !in fields && i < |cols|
    requires isShared || cols[i].kind.Shared? || cols[i].kind.Unmapped?
    ensures Sound(cols[i := WithField(cols[i], name, isShared)], fields + {name}) <==> !OneOfSeveral(cols[i])
  {
    var after := cols[i := WithField(cols[i], name, isShared)];
    assert WellFormed(cols[i]);
    if OneOfSeveral(cols[i]) {
      var part := cols[i].fieldNames[0];
      var j := OtherPartThere(cols, i, part);
      assert Holds(after[i], part) && !IsPart(after[i], part) && Holds(after[j], part);
      assert !Apart(after[i], after[j]);
    } else {
      forall k: nat | k < |cols|
        ensures KnowsEnds(after, k)
      {
        assert KnowsEnds(cols, k);
        if k != i {
          forall other | IsPart(after[k], other)
            ensures after[k].kind.isFirst <==> !AnyPart(after, 0, k, other)
            ensures after[k].kind.isLast <==> !AnyPart(after, k + 1, |after|, other)
          {
            assert IsPart(cols[k], other);
            NotPart(cols, fields, i, name, isShared, 0, k, other);
            NotPart(cols, fields, i, name, isShared, k + 1, |cols|, other);
          }
        }
      }
      forall j: nat, k: nat | j < |cols| && k < |cols| && j != k
        ensures Apart(after[j], after[k])
      {
        if j == i {
          FieldApart(cols, fields, i, name, isShared, k);
        } else if k == i {
          FieldApart(cols, fields, i, name, isShared, j);
        } else {
          assert Apart(cols[j], cols[k]);
        }
      }
    }
  }

  // ---------------------------------------------------------------- the column for all other fields

  /** All fields but those explicitly mapped to the column. */
  function Excluded(col: Column, fields: set<string>): set<string> {
    set name | name in fields && (name !in col.fieldNames || col.kind.Partial?)
  }

  /** The first converter there is. */
  function FirstOf(converter: Converter, other: Converter, last: Converter): Converter {
    if converter.Converter? then converter else if other.Converter? then other else last
  }

  function WithSparse(col: Column, fields: set<string>, converter: Converter): Column {
    col.(kind := Sparse(Excluded(col, fields)), typeConverter := converter)
  }

  /** Is a column the first or the last of several parts of a field? */
  predicate EndOfSeveral(col: Column) {
    col.kind.Partial? && col.kind.isFirst != col.kind.isLast
  }

  /** Making a column the one for all other fields is sound if and only if it is not the first or last of several
      parts: the parts that remain would not know their ends. */
  lemma {:induction false} SparseSound(cols: seq<Column>, fields: set<string>, i: nat, converter: Converter)
    requires Sound(cols, fields) && i < |cols|
    ensures Mapping(cols[i := WithSparse(cols[i], fields, converter)]) <==> !EndOfSeveral(cols[i])
  {
    var after := cols[i := WithSparse(cols[i], fields, converter)];
    if EndOfSeveral(cols[i]) {
      assert WellFormed(cols[i]) && KnowsEnds(cols, i) && IsPart(cols[i], cols[i].fieldNames[0]);
      if cols[i].kind.isFirst {
        FirstGone(cols, i, cols[i].fieldNames[0], after);
      } else {
        LastGone(cols, i, cols[i].fieldNames[0], after);
      }
    } else {
      forall k: nat | k < |cols|
        ensures KnowsEnds(after, k) && WellFormed(after[k])
      {
        assert KnowsEnds(cols, k) && WellFormed(cols[k]);
        forall other | IsPart(after[k], other)
          ensures AnyPart(after, 0, k, other) <==> AnyPart(cols, 0, k, other)
          ensures AnyPart(after, k + 1, |after|, other) <==> AnyPart(cols, k + 1, |cols|, other)
        {
          MiddleGone(cols, i, k, other, after);
        }
      }
      forall j: nat, k: nat | j < |cols| && k < |cols| && j != k
        ensures Apart(after[j], after[k])
      {
        assert Apart(cols[j], cols[k]);
        if j == i {
          SparseApart(cols, fields, i, converter, k);
        } else if k == i {
          SparseApart(cols, fields, i, converter, j);
        }
      }
    }
  }

  /** A column that is no part any more, all others as before. */
  ghost predicate PartGone(cols: seq<Column>, i: nat, after: seq<Column>) {
    i < |cols| == |after| && after == cols[i := after[i]] && !after[i].kind.Partial?
  }

  lemma {:induction false} FirstGone(cols: seq<Column>, i: nat, part: string, after: seq<Column>)
    requires PartGone(cols, i, after) && Mapping(cols) && IsPart(cols[i], part)
    requires cols[i].kind.isFirst && !cols[i].kind.isLast
    ensures !Mapping(after)
  {
    assert KnowsEnds(cols, i);
    var j := i + 1;
    while !IsPart(cols[j], part)
      invariant i < j < |cols| && !AnyPart(cols, i + 1, j, part) && AnyPart(cols, j, |cols|, part)
      decreases |cols| - j
    {
      j := j + 1;
    }
    assert KnowsEnds(cols, j) && AnyPart(cols, 0, j, part);
    assert !AnyPart(after, 0, j, part);
    assert IsPart(after[j], part) && !KnowsEnds(after, j);
  }

  lemma {:induction false} LastGone(cols: seq<Column>, i: nat, part: string, after: seq<Column>)
    requires PartGone(cols, i, after) && Mapping(cols) && IsPart(cols[i], part)
    requires cols[i].kind.isLast && !cols[i].kind.isFirst
    ensures !Mapping(after)
  {
    assert KnowsEnds(cols, i);
    var j := i - 1;
    while !IsPart(cols[j], part)
      invariant 0 <= j < i && !AnyPart(cols, j + 1, i, part) && AnyPart(cols, 0, j + 1, part)
      decreases j
    {
      j := j - 1;
    }
    assert KnowsEnds(cols, j) && AnyPart(cols, j + 1, |cols|, part);
    assert !AnyPart(after, j + 1, |after|, part);
    assert IsPart(after[j], part) && !KnowsEnds(after, j);
  }

  lemma {:induction false} MiddleGone(cols: seq<Column>, i: nat, k: nat, other: string, after: seq<Column>)
    requires PartGone(cols, i, after) && Mapping(cols) && !EndOfSeveral(cols[i])
    requires k < |cols| && IsPart(after[k], other)
    ensures AnyPart(after, 0, k, other) <==> AnyPart(cols, 0, k, other)
    ensures AnyPart(after, k + 1, |after|, other) <==> AnyPart(cols, k + 1, |cols|, other)
  {
    assert k != i && cols[k] == after[k];
    if IsPart(cols[i], other) {
      assert KnowsEnds(cols, i);
      assert !cols[i].kind.isFirst && !cols[i].kind.isLast;
      var before: nat :| before < i && IsPart(cols[before], other);
      var later: nat :| i < later < |cols| && IsPart(cols[later], other);
      assert IsPart(after[before], other) && IsPart(after[later], other);
    }
    forall j: nat | j < |cols| && j != i
      ensures IsPart(after[j], other) <==> IsPart(cols[j], other)
    {
    }
  }

  lemma {:induction false} SparseApart(cols: seq<Column>, fields: set<string>, i: nat, converter: Converter, k: nat)
    requires Sound(cols, fields) && i < |cols| && k < |cols| && k != i
    ensures Apart(WithSparse(cols[i], fields, converter), cols[k])
            && Apart(cols[k], WithSparse(cols[i], fields, converter))
  {
    assert Apart(cols[i], cols[k]) && Apart(cols[k], cols[i]) && cols[k] == cols[k];
    forall other | Holds(cols[k], other)
      ensures !Holds(WithSparse(cols[i], fields, converter), other)
    {
      assert other in fields;
      if Holds(cols[i], other) && !cols[i].kind.Partial? {
        HeldOnce(cols, i, k, other);
      }
    }
  }

  // ---------------------------------------------------------------- table handlers

  /** The columns with a field mapped to them. */
  function WithMapping(cols: seq<Column>, mapping: FieldMapping): (r: seq<Column>)
    ensures |r| == |cols|
  {
    match mapping
    case ToManyColumns(name, list) => DividedOver(cols, list, name, |cols|)
    case ToColumn(name, columnName, isShared) =>
      seq(|cols|, i requires 0 <= i < |cols| =>
          if cols[i].name == columnName then WithField(cols[i], name, isShared) else cols[i])
  }

  /** What mapping a field does to a column: those it is mapped to get its name, as one of its parts, as a
      shared column, or as a column of its own; all others stay. */
  ghost predicate Gains(before: Column, after: Column, mapping: FieldMapping) {
    && after.name == before.name
    && match mapping
       case ToManyColumns(name, list) =>
         if before.name !in list then after == before
         else
           && after.kind.Partial? && after.fieldNames == before.fieldNames + [name]
           && after.typeConverter == before.typeConverter
       case ToColumn(name, columnName, isShared) =>
         if before.name != columnName then after == before
         else
           && after.fieldNames == before.fieldNames + [name] && after.typeConverter == before.typeConverter
           && (after.kind.Shared? <==> isShared || before.kind.Shared?)
           && (after.kind.OneToOne? <==> !isShared && before.kind.Unmapped?)
  }

  /** Does a field fit the columns? Its name must be new, and its columns there, and free or shared if it
      has only one. */
  predicate Fits(cols: seq<Column>, fields: set<string>, mapping: FieldMapping) {
    && mapping.fieldName !in fields
    && match mapping
       case ToManyColumns(_, list) => Rank(cols, list, |cols|) == |list|
       case ToColumn(_, columnName, isShared) =>
         && (exists i :: 0 <= i < |cols| && cols[i].name == columnName)
         && (forall i :: 0 <= i < |cols| && cols[i].name == columnName
               ==> isShared || cols[i].kind.Shared? || cols[i].kind.Unmapped?)
  }

  lemma {:induction false} MappingGains(cols: seq<Column>, fields: set<string>, mapping: FieldMapping, i: nat)
    requires Fits(cols, fields, mapping) && i < |cols|
    ensures Gains(cols[i], WithMapping(cols, mapping)[i], mapping)
  {
    match mapping
    case ToManyColumns(name, list) => assert DividedOver(cols, list, name, |cols|)[i] == PartOf(cols, list, name, i);
    case ToColumn(_, _, _) =>
  }

  lemma {:induction false} NamesDiffer(cols: seq<Column>, id: nat)
    requires Mapping(cols) && id < |cols|
    ensures forall i: nat {:trigger cols[i]} :: i < |cols| && i != id ==> cols[i].name != cols[id].name
  {
    forall i: nat | i < |cols| && i != id
      ensures cols[i].name != cols[id].name
    {
      assert Apart(cols[id], cols[i]);
    }
  }

  function IdsOf(names: seq<string>): (r: map<string, nat>)
    ensures forall name :: name in r ==> r[name] < |names| && names[r[name]] == name
    ensures forall i :: 0 <= i < |names| ==> names[i] in r
  {
    if names == [] then map[] else IdsOf(names[..|names| - 1])[names[|names| - 1] := |names| - 1]
  }

  function NewColumns(names: seq<string>, converters: string -> Converter): (r: seq<Column>)
    ensures |r| == |names| && forall i: nat {:trigger r[i]} :: i < |r| ==>
              r[i] == Column(names[i], Unmapped, [], converters(names[i]))
  {
    seq(|names|, i requires 0 <= i < |names| => Column(names[i], Unmapped, [], converters(names[i])))
  }

  lemma {:induction false} NewColumnsSound(names: seq<string>, converters: string -> Converter)
    requires forall i, j :: 0 <= i < j < |names| ==> names[i] != names[j]
    ensures Sound(NewColumns(names, converters), {})
  {
    var cols := NewColumns(names, converters);
    forall i: nat, j: nat | i < |cols| && j < |cols| && i != j
      ensures Apart(cols[i], cols[j])
    {
      assert names[i] != names[j];
    }
  }

  class DBTableHandlerPrivate {
    var columns: seq<Column>
    const columnNameToIdMap: map<string, nat>
    /** The fields mapped so far. */
    var fields: set<string>
    /** Has an error been reported? */
    var error: bool

    constructor (names: seq<string>, converters: string -> Converter)
      requires forall i, j :: 0 <= i < j < |names| ==> names[i] != names[j]
      ensures Sound(columns, fields) && fields == {} && !error && Indexed()
      ensures |columns| == |names| && forall i: nat {:trigger columns[i]} :: i < |names| ==> columns[i].name == names[i]
    {
      columns := NewColumns(names, converters);
      columnNameToIdMap := IdsOf(names);
      fields, error := {}, false;
      NewColumnsSound(names, converters);
    }

    ghost predicate Indexed()
      reads this
    {
      && (forall name {:trigger columnNameToIdMap[name]} :: name in columnNameToIdMap ==>
            columnNameToIdMap[name] < |columns| && columns[columnNameToIdMap[name]].name == name)
      && (forall i: nat {:trigger columns[i]} :: i < |columns| ==> columns[i].name in columnNameToIdMap)
    }

    /** Divides a field over columns, in the order of the columns. */
    method MapPartial(mapping: FieldMapping)
      requires mapping.ToManyColumns?
      modifies this`columns, this`error
      ensures columns == DividedOver(old(columns), mapping.toManyColumns, mapping.fieldName, |old(columns)|)
      ensures error <==>
                || old(error)
                || Rank(old(columns), mapping.toManyColumns, |old(columns)|) != |mapping.toManyColumns|
    {
      var list, name := mapping.toManyColumns, mapping.fieldName;
      ghost var before := columns;
      var n := 0;
      for id := 0 to |columns|
        invariant n == Rank(before, list, id) && |columns| == |before| && error == old(error)
        invariant columns == DividedOver(before, list, name, id)
      {
        if columns[id].name in list {
          var fieldNames := columns[id].fieldNames + [name];
          columns := columns[id := columns[id].(kind := Partial(n == 0, n == |list| - 1), fieldNames := fieldNames)];
          n := n + 1;
        }
      }
      if |list| != n {
        error := true;
      }
    }

    method AddFieldMapping(id: nat, mapping: FieldMapping)
      requires mapping.ToColumn? && id < |columns|
      requires columns[id].kind.Unmapped? <==> columns[id].fieldNames == []
      modifies this`columns, this`error
      ensures columns == old(columns)[id := WithField(old(columns)[id], mapping.fieldName, mapping.isShared)]
      ensures error <==>
                || old(error)
                || !(mapping.isShared || old(columns)[id].kind.Shared? || old(columns)[id].kind.Unmapped?)
    {
      var col := columns[id];
      if mapping.isShared {
        col := col.(kind := Shared);
      }
      col := col.(fieldNames := col.fieldNames + [mapping.fieldName]);
      if |col.fieldNames| > 1 && !col.kind.Shared? {
        error := true;
      } else if col.kind.Unmapped? {
        col := col.(kind := OneToOne);
      }
      columns := columns[id := col];
    }

    /** The condition under which a field can be mapped without disturbing others. */
    ghost predicate Undisturbed(mapping: FieldMapping)
      reads this
    {
      match mapping
      case ToManyColumns(_, list) => Free(columns, list)
      case ToColumn(_, columnName, _) =>
        forall i: nat {:trigger columns[i]} :: i < |columns| && columns[i].name == columnName ==>
            !OneOfSeveral(columns[i])
    }

    /** Maps a field. When no error is reported the mapping is sound afterwards if and only if the field
        disturbs no other. */
    method AddField(mapping: FieldMapping)
      requires Sound(columns, fields) && Indexed() && !error
      modifies this
      ensures Indexed() && |columns| == |old(columns)|
      ensures fields == old(fields) + {mapping.fieldName}
      ensures error <==> !Fits(old(columns), old(fields), mapping)
      ensures !error ==> (Sound(columns, fields) <==> old(Undisturbed(mapping)))
    {
      if mapping.fieldName in fields {
        error := true;
        return;
      }
      ghost var before, had := columns, fields;
      fields := fields + {mapping.fieldName};
      match mapping {
        case ToManyColumns(name, list) =>
          MapPartial(mapping);
          if !error {
            PartsSound(before, had, list, name);
          }
        case ToColumn(name, columnName, isShared) =>
          if columnName in columnNameToIdMap {
            AddToColumn(columnNameToIdMap[columnName], mapping, had);
          } else {
            error := true;
          }
      }
    }

    method AddToColumn(id: nat, mapping: FieldMapping, ghost had: set<string>)
      requires Sound(columns, had) && Indexed() && !error && id < |columns|
      requires mapping.ToColumn? && mapping.columnName == columns[id].name && mapping.fieldName !in had
      modifies this`columns, this`error
      ensures Indexed() && |columns| == |old(columns)|
      ensures error <==> !Fits(old(columns), had, mapping)
      ensures !error ==> columns == WithMapping(old(columns), mapping)
      ensures !error ==> (Sound(columns, had + {mapping.fieldName}) <==> old(Undisturbed(mapping)))
    {
      ghost var before := columns;
      NamesDiffer(before, id);
      AddFieldMapping(id, mapping);
      if !error {
        FieldSound(before, had, id, mapping.fieldName, mapping.isShared);
      }
    }

    /** Makes a column hold all fields that are not mapped to others, with the converter of the sparse
        container, or else the column's own, or else the one for JSON. */
    method SetSparse(id: nat, converter: Converter, json: Converter)
      requires Sound(columns, fields) && id < |columns|
      modifies this`columns
      ensures |columns| == |old(columns)| && (Mapping(columns) <==> !EndOfSeveral(old(columns)[id]))
      ensures forall k: nat :: k < |columns| && k != id ==> columns[k] == old(columns)[k]
      ensures columns[id].kind.Sparse?
      ensures columns[id].typeConverter == FirstOf(converter, old(columns)[id].typeConverter, json)
      ensures forall name :: Holds(columns[id], name) <==>
                name !in fields || (name in old(columns)[id].fieldNames && !old(columns)[id].kind.Partial?)
    {
      var typeConverter := FirstOf(converter, columns[id].typeConverter, json);
      SparseSound(columns, fields, id, typeConverter);
      columns := columns[id := WithSparse(columns[id], fields, typeConverter)];
    }
  }
}
