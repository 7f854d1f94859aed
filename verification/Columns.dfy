/** Writing an object's fields to columns and reading them back
    (database-jones/Adapter/common/DBTableHandler.js). */
module Columns {
  import opened Options

  /** Values of fields and of columns; those that are objects have named members. */
  datatype Value = Undefined | Plain(number: int) | Parts(members: map<string, Value>)

  datatype Converter = NoConverter | Converter(to: Value -> Value, from: Value -> Value) {
    function ToDB(value: Value): Value {
      if NoConverter? then value else to(value)
    }

    function FromDB(value: Value): Value {
      if NoConverter? then value else from(value)
    }

    /** Does a converter give a value back? */
    predicate GivesBack(value: Value) {
      FromDB(ToDB(value)) == value
    }
  }

  datatype Kind =
    | OneToOne
    | Shared
    | Partial(isFirst: bool, isLast: bool)
    | Sparse(excludedFieldNames: set<string>)
    | Unmapped

  datatype Column = Column(name: string, kind: Kind, fieldNames: seq<string>, typeConverter: Converter)

  type Fields = map<string, Value>

  /** The converters of fields. */
  type Converters = string -> Converter

  function Get(fields: Fields, name: string): Value {
    if name in fields then fields[name] else Undefined
  }

  // ---------------------------------------------------------------- how fields are mapped

  /** Does a column hold a field, or part of it? */
  predicate Holds(col: Column, name: string) {
    match col.kind
    case Sparse(excluded) => name !in excluded
    case Unmapped => false
    case _ => name in col.fieldNames
  }

  predicate IsPart(col: Column, name: string) {
    col.kind.Partial? && col.fieldNames == [name]
  }

  predicate WellFormed(col: Column) {
    && (col.kind.OneToOne? || col.kind.Partial? ==> |col.fieldNames| == 1)
    && (col.kind.Shared? ==> forall j, k :: 0 <= j < k < |col.fieldNames| ==> col.fieldNames[j] != col.fieldNames[k])
  }

  predicate AnyPart(cols: seq<Column>, from: nat, to: nat, name: string) {
    exists k :: from <= k < to && k < |cols| && IsPart(cols[k], name)
  }

  /** The first and the last part of a field know that they are. */
  ghost predicate KnowsEnds(cols: seq<Column>, i: nat)
    requires i < |cols|
  {
    forall name :: IsPart(cols[i], name) ==>
      && (cols[i].kind.isFirst <==> !AnyPart(cols, 0, i, name))
      && (cols[i].kind.isLast <==> !AnyPart(cols, i + 1, |cols|, name))
  }

  /** Two columns hold the same field only as parts of it. */
  ghost predicate Apart(col: Column, other: Column) {
    col.name != other.name
    && forall name :: Holds(col, name) && Holds(other, name) ==> IsPart(col, name) && IsPart(other, name)
  }

  ghost predicate Mapping(cols: seq<Column>) {
    && (forall i: nat {:trigger WellFormed(cols[i])} :: i < |cols| ==> WellFormed(cols[i]))
    && (forall i: nat {:trigger KnowsEnds(cols, i)} :: i < |cols| ==> KnowsEnds(cols, i))
    && (forall i: nat, j: nat {:trigger Apart(cols[i], cols[j])} :: i < |cols| && j < |cols| && i != j ==>
       Apart(cols[i], cols[j]))
  }

  // ---------------------------------------------------------------- what is written

  function SharedMembers(names: seq<string>, converters: Converters, of: Fields): map<string, Value> {
    if names == [] then map[]
    else var last := names[|names| - 1];
         SharedMembers(names[..|names| - 1], converters, of)[last := converters(last).ToDB(Get(of, last))]
  }

  function SparseMembers(excluded: set<string>, of: Fields): map<string, Value> {
    map name | name in of && name !in excluded :: of[name]
  }

  /** A field as it is divided over columns. */
  function Divided(converters: Converters, of: Fields, name: string): Value {
    converters(name).ToDB(Get(of, name))
  }

  /** What a column holds before its own converter is applied. */
  function Held(col: Column, converters: Converters, of: Fields): Value
    requires WellFormed(col)
  {
    match col.kind
    case OneToOne => converters(col.fieldNames[0]).ToDB(Get(of, col.fieldNames[0]))
    case Shared => Parts(SharedMembers(col.fieldNames, converters, of))
    case Partial(_, _) =>
      var value := Divided(converters, of, col.fieldNames[0]);
      if value.Parts? then Get(value.members, col.name) else Undefined
    case Sparse(excluded) => Parts(SparseMembers(excluded, of))
    case Unmapped => Undefined
  }

  function Written(col: Column, converters: Converters, of: Fields): Value
    requires WellFormed(col)
  {
    if col.kind.Unmapped? || (col.kind.Partial? && !Divided(converters, of, col.fieldNames[0]).Parts?) then Undefined
    else col.typeConverter.ToDB(Held(col, converters, of))
  }

  /** What is sent to the database for a column of an object. */
  ghost predicate Sent(col: Column, converters: Converters, of: Fields, value: Value)
    requires WellFormed(col)
  {
    match col.kind
    case OneToOne =>
      var field := col.fieldNames[0];
      value == col.typeConverter.ToDB(converters(field).ToDB(Get(of, field)))
    case Shared =>
      exists members :: AreShared(col.fieldNames, converters, of, members)
                        && value == col.typeConverter.ToDB(Parts(members))
    case Partial(_, _) =>
      var whole := converters(col.fieldNames[0]).ToDB(Get(of, col.fieldNames[0]));
      value == if whole.Parts? then col.typeConverter.ToDB(Get(whole.members, col.name)) else Undefined
    case Sparse(excluded) =>
      exists members :: AreNotExcluded(excluded, of, members) && value == col.typeConverter.ToDB(Parts(members))
    case Unmapped => value == Undefined
  }

  /** There is a member for each of the fields, named like it, converted by the field's own converter. */
  ghost predicate AreShared(names: seq<string>, converters: Converters, of: Fields, members: map<string, Value>) {
    && (forall name :: name in members <==> name in names)
    && (forall name :: name in names ==> members[name] == converters(name).ToDB(Get(of, name)))
  }

  /** The members are all the object's fields but those excluded. */
  ghost predicate AreNotExcluded(excluded: set<string>, of: Fields, members: map<string, Value>) {
    && (forall name :: name in members <==> name in of && name !in excluded)
    && (forall name :: name in members ==> members[name] == of[name])
  }

  lemma {:induction false} SharedHas(names: seq<string>, converters: Converters, of: Fields)
    ensures AreShared(names, converters, of, SharedMembers(names, converters, of))
  {
    if names != [] {
      var last := names[|names| - 1];
      SharedHas(names[..|names| - 1], converters, of);
      assert forall name :: name in names <==> name in names[..|names| - 1] || name == last;
    }
  }

  lemma {:induction false} WrittenIsSent(col: Column, converters: Converters, of: Fields)
    requires WellFormed(col)
    ensures Sent(col, converters, of, Written(col, converters, of))
  {
    match col.kind
    case Shared => SharedHas(col.fieldNames, converters, of);
    case Sparse(excluded) => assert AreNotExcluded(excluded, of, SparseMembers(excluded, of));
    case _ =>
  }

  /** Some but not all parts of a field are among the first i columns. */
  predicate Open(cols: seq<Column>, i: nat, name: string) {
    AnyPart(cols, 0, i, name) && AnyPart(cols, i, |cols|, name)
  }

  lemma {:induction false} OpenNext(cols: seq<Column>, i: nat, name: string)
    requires Mapping(cols) && i < |cols|
    ensures if IsPart(cols[i], name)
            then (Open(cols, i, name) <==> !cols[i].kind.isFirst) && (Open(cols, i + 1, name) <==> !cols[i].kind.isLast)
            else Open(cols, i + 1, name) <==> Open(cols, i, name)
  {
    assert KnowsEnds(cols, i);
  }

  /** An object while its first i columns have been written: a field is divided as long as it is open,
      and has been converted there and back after that. */
  ghost predicate Writing(cols: seq<Column>, converters: Converters, i: nat, of: Fields, now: Fields) {
    && (forall name {:trigger Get(now, name)} :: Get(now, name) == WhileWritten(cols, converters, i, of, name))
    && (forall name {:trigger name in now} :: !AnyPart(cols, 0, |cols|, name) ==> (name in now <==> name in of))
  }

  function WhileWritten(cols: seq<Column>, converters: Converters, i: nat, of: Fields, name: string): Value {
    if Open(cols, i, name) then Divided(converters, of, name)
    else if AnyPart(cols, 0, i, name) then converters(name).FromDB(Divided(converters, of, name))
    else Get(of, name)
  }

  lemma {:induction false} WriteOther(cols: seq<Column>, converters: Converters, i: nat, of: Fields, now: Fields)
    requires Mapping(cols) && i < |cols| && !cols[i].kind.Partial? && Writing(cols, converters, i, of, now)
    ensures Writing(cols, converters, i + 1, of, now)
  {
    forall name
      ensures WhileWritten(cols, converters, i + 1, of, name) == WhileWritten(cols, converters, i, of, name)
    {
      OpenNext(cols, i, name);
    }
  }

  /** Only a part of a field can hold it along with another. */
  lemma {:induction false} HeldIsClosed(cols: seq<Column>, i: nat, name: string)
    requires Mapping(cols) && i < |cols| && !cols[i].kind.Partial? && Holds(cols[i], name)
    ensures !AnyPart(cols, 0, |cols|, name)
  {
    forall k: nat | k < |cols|
      ensures !IsPart(cols[k], name)
    {
      if k != i {
        assert Apart(cols[i], cols[k]);
      }
    }
  }

  lemma {:induction false} SharedSame(names: seq<string>, converters: Converters, of: Fields, now: Fields)
    requires forall k :: 0 <= k < |names| ==> Get(now, names[k]) == Get(of, names[k])
    ensures SharedMembers(names, converters, now) == SharedMembers(names, converters, of)
  {
    if names != [] {
      SharedSame(names[..|names| - 1], converters, of, now);
    }
  }

  /** A column that does not hold part of a field is written as if no field were divided. */
  lemma {:induction false} WriteSame(cols: seq<Column>, converters: Converters, i: nat, of: Fields, now: Fields)
    requires Mapping(cols) && i < |cols| && !cols[i].kind.Partial? && Writing(cols, converters, i, of, now)
    requires WellFormed(cols[i])
    ensures Written(cols[i], converters, now) == Written(cols[i], converters, of)
  {
    var col := cols[i];
    forall name | Holds(col, name)
      ensures Get(now, name) == Get(of, name) && (name in now <==> name in of)
    {
      HeldIsClosed(cols, i, name);
    }
    match col.kind
    case OneToOne => assert Holds(col, col.fieldNames[0]);
    case Shared =>
      forall k | 0 <= k < |col.fieldNames|
        ensures Get(now, col.fieldNames[k]) == Get(of, col.fieldNames[k])
      {
        assert Holds(col, col.fieldNames[k]);
      }
      SharedSame(col.fieldNames, converters, of, now);
    case Sparse(excluded) =>
      assert SparseMembers(excluded, now) == SparseMembers(excluded, of) by {
        forall name | name !in excluded
          ensures name in now <==> name in of
          ensures name in now ==> now[name] == of[name]
        {
          assert Holds(col, name);
          assert Get(now, name) == Get(of, name);
        }
      }
    case Unmapped =>
  }

  /** Each step of writing part of a field, divided or put together again. */
  lemma {:induction false} WritePart(cols: seq<Column>, converters: Converters, i: nat, of: Fields, now: Fields,
                                     after: Fields)
    requires Mapping(cols) && i < |cols| && cols[i].kind.Partial? && Writing(cols, converters, i, of, now)
    requires WellFormed(cols[i]) && IsPart(cols[i], cols[i].fieldNames[0])
    requires var name := cols[i].fieldNames[0];
             after == (if cols[i].kind.isLast && converters(name).Converter?
                       then now[name := converters(name).FromDB(Divided(converters, of, name))]
                       else if cols[i].kind.isFirst && converters(name).Converter?
                       then now[name := Divided(converters, of, name)]
                       else now)
    ensures Writing(cols, converters, i + 1, of, after)
  {
    var part := cols[i].fieldNames[0];
    forall name
      ensures Get(after, name) == WhileWritten(cols, converters, i + 1, of, name)
    {
      OpenNext(cols, i, name);
      assert KnowsEnds(cols, i);
      assert Get(now, name) == WhileWritten(cols, converters, i, of, name);
    }
    assert AnyPart(cols, 0, |cols|, part);
  }

  // ---------------------------------------------------------------- reading one column

  function MemberOf(value: Value, name: string): Value {
    if value.Parts? then Get(value.members, name) else Undefined
  }

  /** The fields after reading, or when an error stops it. */
  datatype ReadResult = Read(fields: Fields) | Stopped(fields: Fields)

  function ReadShared(names: seq<string>, converters: Converters, held: Value, now: Fields): Fields {
    if names == [] then now
    else var last := names[|names| - 1];
         ReadShared(names[..|names| - 1], converters, held, now)[last := converters(last).FromDB(MemberOf(held, last))]
  }

  /** A shared column without a value and a part of a field that is not an object are errors. */
  function ReadColumn(col: Column, converters: Converters, value: Value, now: Fields): ReadResult
    requires WellFormed(col)
  {
    var held := col.typeConverter.FromDB(value);
    match col.kind
    case OneToOne => Read(now[col.fieldNames[0] := converters(col.fieldNames[0]).FromDB(held)])
    case Shared =>
      if held.Undefined? && col.fieldNames != [] then Stopped(now)
      else Read(ReadShared(col.fieldNames, converters, held, now))
    case Partial(isFirst, isLast) =>
      var field := col.fieldNames[0];
      var whole := if isFirst then Parts(map[]) else Get(now, field);
      if !whole.Parts? then Stopped(now)
      else
        var value := Parts(whole.members[col.name := held]);
        Read(now[field := if isLast then converters(field).FromDB(value) else value])
    case Sparse(_) => Read(if held.Parts? then now + held.members else now)
    case Unmapped => Read(now)
  }

  /** The first n columns of a row; those without a value are left out. */
  function ReadRow(cols: seq<Column>, converters: Converters, values: map<string, Value>, n: nat,
                   start: Fields): ReadResult
    requires Mapping(cols) && n <= |cols|
  {
    if n == 0 then Read(start)
    else
      var before := ReadRow(cols, converters, values, n - 1, start);
      var value := Get(values, cols[n - 1].name);
      assert WellFormed(cols[n - 1]);
      if before.Stopped? || value == Undefined then before
      else ReadColumn(cols[n - 1], converters, value, before.fields)
  }

  // ---------------------------------------------------------------- what is read from a row

  /** Does reading a column of this row set a field? A sparse container sets its members. */
  predicate SetsFrom(col: Column, values: map<string, Value>, name: string) {
    Get(values, col.name) != Undefined &&
    match col.kind
    case Sparse(_) =>
      var held := col.typeConverter.FromDB(Get(values, col.name));
      held.Parts? && name in held.members
    case Unmapped => false
    case _ => name in col.fieldNames
  }

  /** Of the columns of this row, none in a range sets the field. */
  ghost predicate NoneSets(cols: seq<Column>, values: map<string, Value>, from: nat, to: nat, name: string) {
    forall k {:trigger cols[k]} :: from <= k < to && k < |cols| ==> !SetsFrom(cols[k], values, name)
  }

  /** All parts of a divided field have values in this row, and nothing else sets the field. */
  ghost predicate PartsGiven(cols: seq<Column>, values: map<string, Value>, name: string) {
    forall k {:trigger cols[k]} :: 0 <= k < |cols| ==>
      (IsPart(cols[k], name) <==> SetsFrom(cols[k], values, name))
  }

  /** What a column that is not part of a field gives for one of its fields. */
  function FieldFrom(col: Column, converters: Converters, values: map<string, Value>, name: string): Value {
    var held := col.typeConverter.FromDB(Get(values, col.name));
    match col.kind
    case Shared => converters(name).FromDB(MemberOf(held, name))
    case Sparse(_) => MemberOf(held, name)
    case _ => converters(name).FromDB(held)
  }

  /** The parts of a field, each under the name of its column. */
  ghost predicate AreParts(cols: seq<Column>, values: map<string, Value>, n: nat, name: string,
                           members: map<string, Value>) {
    && (forall member :: member in members <==> PartNamed(cols, n, name, member))
    && (forall k {:trigger cols[k]} :: 0 <= k < n && k < |cols| && IsPart(cols[k], name) ==>
          cols[k].name in members
          && members[cols[k].name] == cols[k].typeConverter.FromDB(Get(values, cols[k].name)))
  }

  /** Is the part of a field that has a name among the first n columns? */
  ghost predicate PartNamed(cols: seq<Column>, n: nat, name: string, member: string) {
    exists k {:trigger cols[k]} :: 0 <= k < n && k < |cols| && IsPart(cols[k], name) && cols[k].name == member
  }

  /** How the fields of an object follow from a row: the last column that sets a field decides what it
      is, a divided field is put together from the values of all its parts, and a field that no
      column sets stays. */
  ghost predicate FieldRight(cols: seq<Column>, converters: Converters, values: map<string, Value>, start: Fields,
                             after: Fields, name: string) {
    && (NoneSets(cols, values, 0, |cols|, name) ==> Get(after, name) == Get(start, name))
    && (forall k {:trigger cols[k]} :: 0 <= k < |cols| && SetsFrom(cols[k], values, name)
                                       && NoneSets(cols, values, k + 1, |cols|, name) && !cols[k].kind.Partial? ==>
          Get(after, name) == FieldFrom(cols[k], converters, values, name))
    && (AnyPart(cols, 0, |cols|, name) && PartsGiven(cols, values, name) ==>
          exists members :: AreParts(cols, values, |cols|, name, members)
                            && Get(after, name) == converters(name).FromDB(Parts(members)))
  }

  lemma {:induction false} SharedIsRead(names: seq<string>, converters: Converters, held: Value, now: Fields,
                                        name: string)
    ensures Get(ReadShared(names, converters, held, now), name)
         == if name in names then converters(name).FromDB(MemberOf(held, name)) else Get(now, name)
  {
    if names != [] {
      SharedIsRead(names[..|names| - 1], converters, held, now, name);
    }
  }

  /** A column that does not set a field leaves it. */
  lemma {:induction false} ColumnKeeps(col: Column, converters: Converters, values: map<string, Value>, now: Fields,
                                       name: string)
    requires WellFormed(col) && Get(values, col.name) != Undefined && !SetsFrom(col, values, name)
    ensures Get(ReadColumn(col, converters, Get(values, col.name), now).fields, name) == Get(now, name)
  {
    var held := col.typeConverter.FromDB(Get(values, col.name));
    match col.kind
    case Shared => SharedIsRead(col.fieldNames, converters, held, now, name);
    case _ =>
  }

  lemma {:induction false} RowKeeps(cols: seq<Column>, converters: Converters, values: map<string, Value>, from: nat,
                                    n: nat, start: Fields, name: string)
    requires Mapping(cols) && from <= n <= |cols| && ReadRow(cols, converters, values, n, start).Read?
    requires NoneSets(cols, values, from, n, name)
    ensures ReadRow(cols, converters, values, from, start).Read?
    ensures Get(ReadRow(cols, converters, values, n, start).fields, name)
         == Get(ReadRow(cols, converters, values, from, start).fields, name)
  {
    if from < n {
      var col := cols[n - 1];
      assert WellFormed(col) && !SetsFrom(col, values, name);
      var before := ReadRow(cols, converters, values, n - 1, start);
      RowKeeps(cols, converters, values, from, n - 1, start, name);
      if Get(values, col.name) != Undefined {
        ColumnKeeps(col, converters, values, before.fields, name);
      }
    }
  }

  /** The last column to set a field decides what it is. */
  lemma {:induction false} LastDecides(cols: seq<Column>, converters: Converters, values: map<string, Value>,
                                       k: nat, start: Fields, name: string)
    requires Mapping(cols) && k < |cols| && ReadRow(cols, converters, values, |cols|, start).Read?
    requires SetsFrom(cols[k], values, name) && NoneSets(cols, values, k + 1, |cols|, name) && !cols[k].kind.Partial?
    ensures Get(ReadRow(cols, converters, values, |cols|, start).fields, name)
         == FieldFrom(cols[k], converters, values, name)
  {
    var col := cols[k];
    assert WellFormed(col);
    RowKeeps(cols, converters, values, k + 1, |cols|, start, name);
    var before := ReadRow(cols, converters, values, k, start);
    SharedIsRead(col.fieldNames, converters, col.typeConverter.FromDB(Get(values, col.name)), before.fields, name);
  }

  /** The values of the parts of a field among the first n columns. */
  function Gathered(cols: seq<Column>, values: map<string, Value>, n: nat, name: string): map<string, Value>
    requires n <= |cols|
  {
    if n == 0 then map[]
    else
      var before, col := Gathered(cols, values, n - 1, name), cols[n - 1];
      if IsPart(col, name) then before[col.name := col.typeConverter.FromDB(Get(values, col.name))] else before
  }

  lemma {:induction false} GatheredAreParts(cols: seq<Column>, values: map<string, Value>, n: nat, name: string)
    requires Mapping(cols) && n <= |cols|
    ensures AreParts(cols, values, n, name, Gathered(cols, values, n, name))
    ensures Gathered(cols, values, n, name) == map[] || AnyPart(cols, 0, n, name)
  {
    if n > 0 {
      var col, members := cols[n - 1], Gathered(cols, values, n, name);
      GatheredAreParts(cols, values, n - 1, name);
      forall k | 0 <= k < n - 1
        ensures cols[k].name != col.name
      {
        assert Apart(cols[k], col);
      }
      forall member
        ensures member in members <==> PartNamed(cols, n, name, member)
      {
        assert PartNamed(cols, n, name, member)
          <==> PartNamed(cols, n - 1, name, member) || (IsPart(col, name) && col.name == member);
      }
    }
  }

  /** A divided field when the first n columns have been read. */
  lemma {:induction false} PartsSoFar(cols: seq<Column>, converters: Converters, values: map<string, Value>, n: nat,
                                      start: Fields, name: string)
    requires Mapping(cols) && n <= |cols| && ReadRow(cols, converters, values, n, start).Read?
    requires PartsGiven(cols, values, name) && AnyPart(cols, 0, n, name)
    ensures Get(ReadRow(cols, converters, values, n, start).fields, name)
         == if AnyPart(cols, n, |cols|, name) then Parts(Gathered(cols, values, n, name))
            else converters(name).FromDB(Parts(Gathered(cols, values, n, name)))
  {
    var col, m := cols[n - 1], n - 1;
    var before := ReadRow(cols, converters, values, m, start);
    assert WellFormed(col) && (IsPart(col, name) <==> SetsFrom(col, values, name));
    OpenNext(cols, m, name);
    assert KnowsEnds(cols, m);
    if AnyPart(cols, 0, m, name) {
      PartsSoFar(cols, converters, values, m, start, name);
    } else {
      GatheredAreParts(cols, values, m, name);
    }
    if !IsPart(col, name) {
      RowKeeps(cols, converters, values, m, n, start, name);
    }
  }

  lemma {:induction false} RowRight(cols: seq<Column>, converters: Converters, values: map<string, Value>,
                                    start: Fields, name: string)
    requires Mapping(cols) && ReadRow(cols, converters, values, |cols|, start).Read?
    ensures FieldRight(cols, converters, values, start, ReadRow(cols, converters, values, |cols|, start).fields, name)
  {
    if NoneSets(cols, values, 0, |cols|, name) {
      RowKeeps(cols, converters, values, 0, |cols|, start, name);
    }
    forall k | 0 <= k < |cols| && SetsFrom(cols[k], values, name) && NoneSets(cols, values, k + 1, |cols|, name)
               && !cols[k].kind.Partial?
      ensures Get(ReadRow(cols, converters, values, |cols|, start).fields, name)
           == FieldFrom(cols[k], converters, values, name)
    {
      LastDecides(cols, converters, values, k, start, name);
    }
    if AnyPart(cols, 0, |cols|, name) && PartsGiven(cols, values, name) {
      PartsSoFar(cols, converters, values, |cols|, start, name);
      GatheredAreParts(cols, values, |cols|, name);
    }
  }

  /** Shared columns that have values hold something, and divided fields have all parts or none. */
  ghost predicate ReadableAt(cols: seq<Column>, values: map<string, Value>, k: nat)
    requires k < |cols| && WellFormed(cols[k])
  {
    var col := cols[k];
    Get(values, col.name) != Undefined ==>
      && (col.kind.Shared? ==> col.typeConverter.FromDB(Get(values, col.name)) != Undefined)
      && (col.kind.Partial? ==> PartsGiven(cols, values, col.fieldNames[0]))
  }

  ghost predicate Readable(cols: seq<Column>, values: map<string, Value>)
    requires Mapping(cols)
  {
    forall k: nat {:trigger cols[k]} :: k < |cols| ==> WellFormed(cols[k]) && ReadableAt(cols, values, k)
  }

  /** No error stops reading such a row. */
  lemma {:induction false} ReadableIsRead(cols: seq<Column>, converters: Converters, values: map<string, Value>,
                                          n: nat, start: Fields)
    requires Mapping(cols) && n <= |cols| && Readable(cols, values)
    ensures ReadRow(cols, converters, values, n, start).Read?
  {
    if n > 0 {
      var col, m := cols[n - 1], n - 1;
      ReadableIsRead(cols, converters, values, m, start);
      assert WellFormed(col) && ReadableAt(cols, values, m);
      if Get(values, col.name) != Undefined && col.kind.Partial? {
        var name := col.fieldNames[0];
        assert IsPart(col, name) && KnowsEnds(cols, m);
        if !col.kind.isFirst {
          PartsSoFar(cols, converters, values, m, start, name);
          assert AnyPart(cols, m, |cols|, name);
        }
      }
    }
  }

  lemma {:induction false} RowOutcome(cols: seq<Column>, converters: Converters, values: map<string, Value>,
                                      start: Fields)
    requires Mapping(cols)
    ensures Readable(cols, values) ==> ReadRow(cols, converters, values, |cols|, start).Read?
    ensures var result := ReadRow(cols, converters, values, |cols|, start);
            result.Read? ==> forall name :: FieldRight(cols, converters, values, start, result.fields, name)
  {
    if Readable(cols, values) {
      ReadableIsRead(cols, converters, values, |cols|, start);
    }
    if ReadRow(cols, converters, values, |cols|, start).Read? {
      forall name
        ensures FieldRight(cols, converters, values, start, ReadRow(cols, converters, values, |cols|, start).fields,
                           name)
      {
        RowRight(cols, converters, values, start, name);
      }
    }
  }

  /** Nothing more is read after an error. */
  lemma {:induction false} StaysStopped(cols: seq<Column>, converters: Converters, values: map<string, Value>,
                                        from: nat, n: nat, start: Fields)
    requires Mapping(cols) && from <= n <= |cols| && ReadRow(cols, converters, values, from, start).Stopped?
    ensures ReadRow(cols, converters, values, n, start) == ReadRow(cols, converters, values, from, start)
  {
    if from < n {
      StaysStopped(cols, converters, values, from, n - 1, start);
    }
  }

  // ---------------------------------------------------------------- reading what was written

  /** Does reading a column set a field? A sparse container sets the fields that were written to it. */
  predicate Sets(col: Column, of: Fields, name: string) {
    Holds(col, name) && (col.kind.Sparse? ==> name in of)
  }

  /** Converters give the values at hand back, all values are defined, and the members of a field that is
      divided are its columns. */
  ghost predicate Faithful(cols: seq<Column>, converters: Converters, of: Fields, i: nat)
    requires i < |cols| && WellFormed(cols[i])
  {
    var col := cols[i];
    && (!col.kind.Unmapped? ==>
         && Written(col, converters, of) != Undefined
         && col.typeConverter.GivesBack(Held(col, converters, of)))
    && (col.kind.OneToOne? || col.kind.Shared? || col.kind.Partial? ==>
         forall k {:trigger col.fieldNames[k]} :: 0 <= k < |col.fieldNames| ==>
           converters(col.fieldNames[k]).GivesBack(Get(of, col.fieldNames[k])))
    && (col.kind.Partial? ==>
         && Divided(converters, of, col.fieldNames[0]).Parts?
         && forall member {:trigger member in Divided(converters, of, col.fieldNames[0]).members} ::
              member in Divided(converters, of, col.fieldNames[0]).members
              <==> PartNamed(cols, |cols|, col.fieldNames[0], member))
  }

  /** A row of what was written for an object. */
  ghost predicate RowOf(cols: seq<Column>, converters: Converters, of: Fields, values: map<string, Value>) {
    forall i: nat {:trigger cols[i]} :: i < |cols| ==>
      && WellFormed(cols[i]) && Faithful(cols, converters, of, i)
      && Get(values, cols[i].name) == Written(cols[i], converters, of)
  }

  lemma {:induction false} HeldIsRead(cols: seq<Column>, converters: Converters, of: Fields,
                                      values: map<string, Value>, i: nat, name: string)
    requires RowOf(cols, converters, of, values) && i < |cols|
    ensures WellFormed(cols[i]) && (SetsFrom(cols[i], values, name) <==> Sets(cols[i], of, name))
    ensures !cols[i].kind.Unmapped? ==>
              cols[i].typeConverter.FromDB(Get(values, cols[i].name)) == Held(cols[i], converters, of)
  {
    assert WellFormed(cols[i]) && Faithful(cols, converters, of, i);
  }

  lemma {:induction false} WrittenPartsGiven(cols: seq<Column>, converters: Converters, of: Fields,
                                             values: map<string, Value>, name: string)
    requires Mapping(cols) && RowOf(cols, converters, of, values) && AnyPart(cols, 0, |cols|, name)
    ensures PartsGiven(cols, values, name)
  {
    var i: nat :| i < |cols| && IsPart(cols[i], name);
    forall k | 0 <= k < |cols|
      ensures IsPart(cols[k], name) <==> SetsFrom(cols[k], values, name)
    {
      HeldIsRead(cols, converters, of, values, k, name);
      assert k != i ==> Apart(cols[i], cols[k]);
    }
  }

  lemma {:induction false} WrittenIsReadable(cols: seq<Column>, converters: Converters, of: Fields,
                                             values: map<string, Value>)
    requires Mapping(cols) && RowOf(cols, converters, of, values)
    ensures Readable(cols, values)
  {
    forall k: nat | k < |cols|
      ensures WellFormed(cols[k]) && ReadableAt(cols, values, k)
    {
      assert WellFormed(cols[k]);
      if cols[k].kind.Partial? {
        assert IsPart(cols[k], cols[k].fieldNames[0]);
        WrittenPartsGiven(cols, converters, of, values, cols[k].fieldNames[0]);
      }
      HeldIsRead(cols, converters, of, values, k, cols[k].name);
    }
  }

  /** The parts of a divided field are the whole. */
  lemma {:induction false} PartsAreWhole(cols: seq<Column>, converters: Converters, of: Fields,
                                         values: map<string, Value>, name: string, members: map<string, Value>)
    requires Mapping(cols) && RowOf(cols, converters, of, values) && AnyPart(cols, 0, |cols|, name)
    requires AreParts(cols, values, |cols|, name, members)
    ensures Parts(members) == Divided(converters, of, name)
    ensures converters(name).FromDB(Parts(members)) == Get(of, name)
  {
    var i: nat :| i < |cols| && IsPart(cols[i], name);
    assert WellFormed(cols[i]) && Faithful(cols, converters, of, i) && cols[i].fieldNames[0] == name;
    var whole := Divided(converters, of, name);
    forall member
      ensures member in members <==> member in whole.members
      ensures member in members ==> members[member] == whole.members[member]
    {
      if PartNamed(cols, |cols|, name, member) {
        var k: nat :| k < |cols| && IsPart(cols[k], name) && cols[k].name == member;
        HeldIsRead(cols, converters, of, values, k, name);
      }
    }
    assert members == whole.members;
  }

  /** Reading what was written restores every field that a column holds. */
  lemma {:induction false} ReadBack(cols: seq<Column>, converters: Converters, of: Fields,
                                    values: map<string, Value>, start: Fields, i: nat, name: string)
    requires Mapping(cols) && RowOf(cols, converters, of, values) && i < |cols| && Sets(cols[i], of, name)
    requires ReadRow(cols, converters, values, |cols|, start).Read?
    ensures Get(ReadRow(cols, converters, values, |cols|, start).fields, name) == Get(of, name)
  {
    var after := ReadRow(cols, converters, values, |cols|, start).fields;
    RowRight(cols, converters, values, start, name);
    HeldIsRead(cols, converters, of, values, i, name);
    if cols[i].kind.Partial? {
      assert IsPart(cols[i], name);
      WrittenPartsGiven(cols, converters, of, values, name);
      var members :| AreParts(cols, values, |cols|, name, members)
                     && Get(after, name) == converters(name).FromDB(Parts(members));
      PartsAreWhole(cols, converters, of, values, name, members);
    } else {
      forall k | i + 1 <= k < |cols|
        ensures !SetsFrom(cols[k], values, name)
      {
        HeldIsRead(cols, converters, of, values, k, name);
        assert Apart(cols[i], cols[k]);
      }
      FieldReadBack(cols, converters, of, values, i, name);
    }
  }

  lemma {:induction false} FieldReadBack(cols: seq<Column>, converters: Converters, of: Fields,
                                         values: map<string, Value>, i: nat, name: string)
    requires RowOf(cols, converters, of, values) && i < |cols| && Sets(cols[i], of, name) && !cols[i].kind.Partial?
    ensures FieldFrom(cols[i], converters, values, name) == Get(of, name)
  {
    var col := cols[i];
    assert WellFormed(col) && Faithful(cols, converters, of, i);
    HeldIsRead(cols, converters, of, values, i, name);
    if !col.kind.Sparse? {
      var k: nat :| k < |col.fieldNames| && col.fieldNames[k] == name;
      assert converters(col.fieldNames[k]).GivesBack(Get(of, col.fieldNames[k]));
      SharedHas(col.fieldNames, converters, of);
    }
  }

  // ---------------------------------------------------------------- table handlers

  class DomainObject {
    var fields: Fields

    constructor (fields: Fields)
      ensures this.fields == fields
    {
      this.fields := fields;
    }
  }

  class TableHandler {
    const columns: seq<Column>
    const converters: Converters

    ghost predicate Valid() {
      Mapping(columns)
    }

    constructor (columns: seq<Column>, converters: Converters)
      requires Mapping(columns)
      ensures Valid() && this.columns == columns && this.converters == converters
    {
      this.columns, this.converters := columns, converters;
    }

    method GetShared(names: seq<string>, obj: DomainObject) returns (value: map<string, Value>)
      ensures value == SharedMembers(names, converters, obj.fields)
    {
      value := map[];
      for i := 0 to |names|
        invariant value == SharedMembers(names[..i], converters, obj.fields)
      {
        assert names[..i + 1][..i] == names[..i];
        value := value[names[i] := Get(obj.fields, names[i])];
        value := value[names[i] := converters(names[i]).ToDB(value[names[i]])];
      }
      assert names[..|names|] == names;
    }

    /** The value of part of a field, which is divided in place with its first part, and put together
        again with its last. */
    method GetPart(i: nat, obj: DomainObject, ghost of: Fields) returns (value: Value)
      requires Valid() && i < |columns| && columns[i].kind.Partial? && WellFormed(columns[i])
      requires Writing(columns, converters, i, of, obj.fields)
      modifies obj
      ensures value == Written(columns[i], converters, of)
      ensures Writing(columns, converters, i + 1, of, obj.fields)
    {
      var col, name := columns[i], columns[i].fieldNames[0];
      ghost var now := obj.fields;
      assert IsPart(col, name);
      OpenNext(columns, i, name);
      if col.kind.isFirst && converters(name).Converter? {
        obj.fields := obj.fields[name := converters(name).ToDB(Get(obj.fields, name))];
      }
      var intermediateValue := Get(obj.fields, name);
      assert intermediateValue == Divided(converters, of, name);
      if col.kind.isLast && converters(name).Converter? {
        obj.fields := obj.fields[name := converters(name).FromDB(intermediateValue)];
        assert obj.fields == now[name := converters(name).FromDB(Divided(converters, of, name))];
      }
      WritePart(columns, converters, i, of, now, obj.fields);
      value := if intermediateValue.Parts? then col.typeConverter.ToDB(Get(intermediateValue.members, col.name))
          else Undefined;
    }

    method GetColumnValue(i: nat, obj: DomainObject, ghost of: Fields) returns (value: Value)
      requires Valid() && i < |columns| && WellFormed(columns[i])
      requires Writing(columns, converters, i, of, obj.fields)
      modifies obj
      ensures value == Written(columns[i], converters, of)
      ensures Writing(columns, converters, i + 1, of, obj.fields)
    {
      var col := columns[i];
      if col.kind.Partial? {
        value := GetPart(i, obj, of);
        return;
      }
      WriteOther(columns, converters, i, of, obj.fields);
      WriteSame(columns, converters, i, of, obj.fields);
      match col.kind {
        case OneToOne =>
          value := col.typeConverter.ToDB(converters(col.fieldNames[0]).ToDB(Get(obj.fields, col.fieldNames[0])));
        case Shared =>
          var members := GetShared(col.fieldNames, obj);
          value := col.typeConverter.ToDB(Parts(members));
        case Sparse(excluded) =>
          value := col.typeConverter.ToDB(Parts(SparseMembers(excluded, obj.fields)));
        case Unmapped =>
          value := Undefined;
      }
    }

    /** The values of all columns for an object. The fields of the object are as before afterwards, but
        that those divided over columns have been converted there and back. */
    method GetColumns(obj: DomainObject) returns (values: seq<Value>)
      requires Valid()
      modifies obj
      ensures |values| == |columns|
      ensures forall i: nat {:trigger values[i]} :: i < |columns| ==>
                WellFormed(columns[i]) && values[i] == Written(columns[i], converters, old(obj.fields))
                && Sent(columns[i], converters, old(obj.fields), values[i])
      ensures forall name :: Get(obj.fields, name) ==
                if AnyPart(columns, 0, |columns|, name)
                then converters(name).FromDB(converters(name).ToDB(Get(old(obj.fields), name)))
                else Get(old(obj.fields), name)
    {
      ghost var of := obj.fields;
      values := [];
      for i := 0 to |columns|
        invariant |values| == i && Writing(columns, converters, i, of, obj.fields)
        invariant forall k: nat :: k < i ==> WellFormed(columns[k]) && values[k] == Written(columns[k], converters, of)
      {
        assert WellFormed(columns[i]);
        var value := GetColumnValue(i, obj, of);
        values := values + [value];
      }
      forall i: nat | i < |columns|
        ensures WellFormed(columns[i]) && Sent(columns[i], converters, of, values[i])
      {
        WrittenIsSent(columns[i], converters, of);
      }
      forall name
        ensures Get(obj.fields, name) == WhileWritten(columns, converters, |columns|, of, name)
        ensures !Open(columns, |columns|, name)
      {
      }
    }

    method SetShared(col: Column, obj: DomainObject, held: Value) returns (thrown: bool)
      modifies obj
      ensures thrown == (held.Undefined? && col.fieldNames != [])
      ensures obj.fields == if thrown then old(obj.fields)
                            else ReadShared(col.fieldNames, converters, held, old(obj.fields))
    {
      var names := col.fieldNames;
      for k := 0 to |names|
        invariant held.Undefined? ==> k == 0
        invariant obj.fields == ReadShared(names[..k], converters, held, old(obj.fields))
      {
        if held.Undefined? {
          assert names[..k] == [] && obj.fields == old(obj.fields);
          return true;
        }
        assert names[..k + 1][..k] == names[..k];
        obj.fields := obj.fields[names[k] := converters(names[k]).FromDB(MemberOf(held, names[k]))];
      }
      assert names[..|names|] == names;
      thrown := false;
    }

    /** The first part of a field makes it an object, which the last one converts back. */
    method SetPart(col: Column, obj: DomainObject, held: Value) returns (thrown: bool)
      requires col.kind.Partial? && WellFormed(col)
      modifies obj
      ensures var field := col.fieldNames[0];
              var whole := if col.kind.isFirst then Parts(map[]) else Get(old(obj.fields), field);
              && thrown == !whole.Parts?
              && if thrown then obj.fields == old(obj.fields)
                 else
                   var value := Parts(whole.members[col.name := held]);
                   obj.fields == old(obj.fields)[field := if col.kind.isLast then converters(field).FromDB(value)
                                                          else value]
    {
      var field := col.fieldNames[0];
      if col.kind.isFirst {
        obj.fields := obj.fields[field := Parts(map[])];
      }
      var whole := Get(obj.fields, field);
      if !whole.Parts? {
        return true;
      }
      obj.fields := obj.fields[field := Parts(whole.members[col.name := held])];
      if col.kind.isLast && converters(field).Converter? {
        obj.fields := obj.fields[field := converters(field).FromDB(obj.fields[field])];
      }
      thrown := false;
    }

    method SetFieldValues(col: Column, obj: DomainObject, value: Value) returns (thrown: bool)
      requires WellFormed(col)
      modifies obj
      ensures ReadColumn(col, converters, value, old(obj.fields))
           == if thrown then Stopped(obj.fields) else Read(obj.fields)
    {
      var held := col.typeConverter.FromDB(value);
      thrown := false;
      match col.kind {
        case OneToOne => obj.fields := obj.fields[col.fieldNames[0] := converters(col.fieldNames[0]).FromDB(held)];
        case Shared => thrown := SetShared(col, obj, held);
        case Partial(_, _) => thrown := SetPart(col, obj, held);
        case Sparse(_) =>
          if held.Parts? {
            obj.fields := obj.fields + held.members;
          }
        case Unmapped =>
      }
    }

    /** Sets the fields of an object from the values of columns by name, unless an error stops it. */
    method SetFields(obj: DomainObject, values: map<string, Value>) returns (thrown: bool)
      requires Valid()
      modifies obj
      ensures ReadRow(columns, converters, values, |columns|, old(obj.fields))
           == if thrown then Stopped(obj.fields) else Read(obj.fields)
      ensures Readable(columns, values) ==> !thrown
      ensures !thrown ==>
                forall name :: FieldRight(columns, converters, values, old(obj.fields), obj.fields, name)
    {
      ghost var start := obj.fields;
      thrown := false;
      RowOutcome(columns, converters, values, start);
      for i := 0 to |columns|
        invariant ReadRow(columns, converters, values, i, start) == Read(obj.fields)
      {
        var value := Get(values, columns[i].name);
        if value != Undefined {
          assert WellFormed(columns[i]);
          thrown := SetFieldValues(columns[i], obj, value);
          if thrown {
            StaysStopped(columns, converters, values, i + 1, |columns|, start);
            return;
          }
        }
      }
    }

    /** Writes an object to columns and reads another object from them, which then has all fields that
        columns hold, whatever it had before. */
    method WriteAndRead(obj: DomainObject, result: DomainObject)
      requires Valid() && obj != result
      requires forall i: nat {:trigger columns[i]} :: i < |columns| ==>
                 WellFormed(columns[i]) && Faithful(columns, converters, obj.fields, i)
      modifies obj, result
      ensures forall name :: Get(obj.fields, name) == Get(old(obj.fields), name)
      ensures forall i: nat, name :: i < |columns| && Sets(columns[i], old(obj.fields), name)
                ==> Get(result.fields, name) == Get(obj.fields, name)
    {
      ghost var of, start := obj.fields, result.fields;
      forall i: nat, name | i < |columns| && IsPart(columns[i], name)
        ensures converters(name).GivesBack(Get(of, name))
      {
        assert WellFormed(columns[i]) && Faithful(columns, converters, of, i);
        assert columns[i].fieldNames[0] == name;
      }
      var values := GetColumns(obj);
      var row: map<string, Value> := map[];
      for i := 0 to |columns|
        invariant unchanged(result)
        invariant forall k: nat {:trigger columns[k]} :: k < |columns| ==>
                    if k < i then Get(row, columns[k].name) == values[k] else columns[k].name !in row
      {
        forall k: nat | k < |columns| && k != i
          ensures columns[k].name != columns[i].name
        {
          assert Apart(columns[k], columns[i]);
        }
        row := row[columns[i].name := values[i]];
      }
      assert RowOf(columns, converters, of, row);
      WrittenIsReadable(columns, converters, of, row);
      var thrown := SetFields(result, row);
      forall i: nat, name | i < |columns| && Sets(columns[i], of, name)
        ensures Get(result.fields, name) == Get(of, name)
      {
        ReadBack(columns, converters, of, row, start, i, name);
      }
    }
  }
}
