/** Query predicates and what they mean (database-jones/Adapter/api/Query.js). */
module QueryTrees {
  import opened Endpoints

  datatype Comparator = Le | Lt | Ge | Gt | Eq | Ne

  /** A node compares its field with a literal or with a named query parameter. */
  datatype Operand = Literal(value: real) | Param(name: string)

  datatype Pred =
    | Compare(column: nat, op: Comparator, operand: Operand)
    | Between(column: nat, lower: Operand, upper: Operand)
    | IsNull(column: nat)
    | IsNotNull(column: nat)
    | And(preds: seq<Pred>)
    | Or(preds: seq<Pred>)
    | Not(pred: Pred)

  /** Every parameter has a value, and none is NULL. */
  type Params = string -> real

  type Row = nat -> Value

  ghost predicate IsRow(row: Row) {
    forall c :: row(c).IsColumnValue()
  }

  function ValueOf(operand: Operand, params: Params): real {
    match operand
    case Literal(v) => v
    case Param(name) => params(name)
  }

  /** The subpredicates of a grouping node. */
  function Operands(p: Pred): (r: seq<Pred>)
    ensures forall i :: 0 <= i < |r| ==> r[i] < p
  {
    match p
    case And(ps) => ps
    case Or(ps) => ps
    case Not(q) => [q]
    case _ => []
  }

  /** The columns a predicate mentions. */
  function Used(p: Pred): set<nat> {
    match p
    case Compare(c, _, _) => {c}
    case Between(c, _, _) => {c}
    case IsNull(c) => {c}
    case IsNotNull(c) => {c}
    case And(ps) => set i, c | 0 <= i < |ps| && c in Used(ps[i]) :: c
    case Or(ps) => set i, c | 0 <= i < |ps| && c in Used(ps[i]) :: c
    case Not(q) => Used(q)
  }

  /** AND and OR always group at least one predicate. */
  predicate Grouped(p: Pred) {
    match p
    case And(ps) => ps != [] && forall i :: 0 <= i < |ps| ==> Grouped(ps[i])
    case Or(ps) => ps != [] && forall i :: 0 <= i < |ps| ==> Grouped(ps[i])
    case Not(q) => Grouped(q)
    case _ => true
  }

  // ---------------------------------------------------------------- three-valued meaning

  datatype Truth = True | False | Unknown

  function Truly(b: bool): Truth {
    if b then True else False
  }

  predicate Relates(op: Comparator, x: real, y: real) {
    match op
    case Le => x <= y
    case Lt => x < y
    case Ge => x >= y
    case Gt => x > y
    case Eq => x == y
    case Ne => x != y
  }

  /** SQL's truth value of a predicate on a row. */
  function Eval(p: Pred, params: Params, row: Row): Truth {
    match p
    case Compare(c, op, operand) =>
      if row(c).Val? then Truly(Relates(op, row(c).n, ValueOf(operand, params))) else Unknown
    case Between(c, lower, upper) =>
      if row(c).Val? then Truly(ValueOf(lower, params) <= row(c).n <= ValueOf(upper, params)) else Unknown
    case IsNull(c) => Truly(row(c).Null?)
    case IsNotNull(c) => Truly(!row(c).Null?)
    case And(ps) =>
      if forall i :: 0 <= i < |ps| ==> Eval(ps[i], params, row).True? then True
      else if exists i :: 0 <= i < |ps| && Eval(ps[i], params, row).False? then False
      else Unknown
    case Or(ps) =>
      if exists i :: 0 <= i < |ps| && Eval(ps[i], params, row).True? then True
      else if forall i :: 0 <= i < |ps| ==> Eval(ps[i], params, row).False? then False
      else Unknown
    case Not(q) =>
      match Eval(q, params, row)
      case True => False
      case False => True
      case Unknown => Unknown
  }

  ghost predicate Selects(p: Pred, params: Params, row: Row) {
    Eval(p, params, row).True?
  }
}
