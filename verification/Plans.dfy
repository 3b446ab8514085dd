/** Logical plans and the rows they stand for. */
module Plans {
  import opened Wrappers
  import opened Sequences
  import opened SqlValues
  import opened RowOrder
  import opened SortedRows
  import opened KeyDirectory

  /** A column by table alias and name, both upper-cased. */
  datatype ColumnKey = ColumnKey(tableAlias: string, columnName: string)

  /** A projected or grouping expression: a column of the child, or a computation over the child's row that the
      analyses do not look into. */
  datatype PlanExpr =
    | ColumnOf(key: ColumnKey)
    | Computed(name: string, compute: Row -> Value)

  datatype Item = Item(expr: PlanExpr, outputName: string)

  datatype Plan =
    | Scan(table: string, scanAlias: string, columns: seq<string>)
    | Filter(keep: Row -> bool, child: Plan)
    | Sort(keys: seq<OrderKey>, child: Plan)
    | TopN(keys: seq<OrderKey>, limit: nat, offset: nat, child: Plan)
    | Limit(limit: nat, offset: nat, child: Plan)
    | Materialize(child: Plan)
    | Project(items: seq<Item>, outputAlias: string, child: Plan)
    | Distinct(child: Plan)
    | Aggregate(groupBy: seq<PlanExpr>, aggregates: seq<Row> -> seq<Value>, child: Plan)
    | Other(resolve: ColumnKey -> Option<nat>, rows: seq<Row>)

  datatype Table = Table(columns: seq<string>, primaryKey: seq<string>, rows: seq<Row>)

  type Database = map<string, Table>

  function ValueAt(row: Row, i: nat): Value {
    if i < |row| then row[i] else Null
  }

  /** The first place of a name. */
  function IndexOf<T(==)>(names: seq<T>, name: T): (i: Option<nat>)
    ensures i.Some? ==> i.value < |names| && names[i.value] == name
    ensures i.None? ==> name !in names
  {
    if names == [] then None
    else if names[0] == name then Some(0)
    else
      var rest := IndexOf(names[1..], name);
      if rest.Some? then Some(rest.value + 1) else None
  }

  function OutputName(item: Item): string {
    if item.outputName != "" then item.outputName
    else if item.expr.ColumnOf? then item.expr.key.columnName
    else item.expr.name
  }

  function OutputNames(items: seq<Item>): (names: seq<string>)
    ensures |names| == |items| && forall i :: 0 <= i < |items| ==> names[i] == OutputName(items[i])
  {
    seq(|items|, i requires 0 <= i < |items| => OutputName(items[i]))
  }

  /** The output column a name stands for. A projection without an alias answers to a name whatever its alias. */
  function Resolve(plan: Plan, key: ColumnKey): Option<nat> {
    match plan
    case Scan(_, tableAlias, columns) => if key.tableAlias == tableAlias then IndexOf(columns, key.columnName) else None
    case Filter(_, c) => Resolve(c, key)
    case Sort(_, c) => Resolve(c, key)
    case TopN(_, _, _, c) => Resolve(c, key)
    case Limit(_, _, c) => Resolve(c, key)
    case Materialize(c) => Resolve(c, key)
    case Distinct(c) => Resolve(c, key)
    case Project(items, outputAlias, _) =>
      if outputAlias != "" && key.tableAlias != outputAlias then None else IndexOf(OutputNames(items), key.columnName)
    case Aggregate(groupBy, _, _) => GroupColumn(groupBy, key)
    case Other(resolve, _) => resolve(key)
  }

  /** The first grouping expression that is the column itself. */
  function GroupColumn(groupBy: seq<PlanExpr>, key: ColumnKey): (i: Option<nat>)
    ensures i.Some? ==> i.value < |groupBy| && groupBy[i.value].ColumnOf? && groupBy[i.value].key == key
  {
    if groupBy == [] then None
    else if groupBy[0].ColumnOf? && groupBy[0].key == key then Some(0)
    else
      var rest := GroupColumn(groupBy[1..], key);
      if rest.Some? then Some(rest.value + 1) else None
  }

  /** The value of an expression on a row of the child. */
  function ExprValue(child: Plan, e: PlanExpr, row: Row): Value {
    match e
    case ColumnOf(key) => var i := Resolve(child, key); if i.Some? then ValueAt(row, i.value) else Null
    case Computed(_, compute) => compute(row)
  }

  function ProjectRow(child: Plan, items: seq<Item>, row: Row): (out: Row)
    ensures |out| == |items| && forall i :: 0 <= i < |items| ==> out[i] == ExprValue(child, items[i].expr, row)
  {
    seq(|items|, i requires 0 <= i < |items| => ExprValue(child, items[i].expr, row))
  }

  function GroupRow(child: Plan, groupBy: seq<PlanExpr>, row: Row): (out: Row)
    ensures |out| == |groupBy| && forall i :: 0 <= i < |groupBy| ==> out[i] == ExprValue(child, groupBy[i], row)
  {
    seq(|groupBy|, i requires 0 <= i < |groupBy| => ExprValue(child, groupBy[i], row))
  }

  ghost function MapRows(rows: seq<Row>, f: Row -> Row): (out: seq<Row>)
    ensures |out| == |rows| && forall i :: 0 <= i < |rows| ==> out[i] == f(rows[i])
  {
    seq(|rows|, i requires 0 <= i < |rows| => f(rows[i]))
  }

  function ScanRow(t: Table, columns: seq<string>, row: Row): (out: Row)
    ensures |out| == |columns|
  {
    seq(|columns|, i requires 0 <= i < |columns| =>
      var c := IndexOf(t.columns, columns[i]); if c.Some? then ValueAt(row, c.value) else Null)
  }

  /** The rows of one group. */
  ghost function GroupMembers(child: Plan, groupBy: seq<PlanExpr>, rows: seq<Row>, group: Row): seq<Row> {
    Kept(rows, row => GroupRow(child, groupBy, row) == group)
  }

  /** One row per group, the grouping values before the aggregates; without grouping exactly one row. */
  ghost function AggregateRows(child: Plan, groupBy: seq<PlanExpr>, aggregates: seq<Row> -> seq<Value>,
                               rows: seq<Row>): seq<Row> {
    if groupBy == [] then [aggregates(rows)]
    else
      var groups := EnterAll(MapRows(rows, row => GroupRow(child, groupBy, row)));
      MapRows(groups, group => group + aggregates(GroupMembers(child, groupBy, rows, group)))
  }

  ghost function Eval(db: Database, plan: Plan): seq<Row> {
    match plan
    case Scan(table, _, columns) => if table in db
      then MapRows(db[table].rows, row => ScanRow(db[table], columns, row)) else []
    case Filter(keep, c) => Kept(Eval(db, c), keep)
    case Sort(keys, c) => SortRows(keys, Eval(db, c))
    case TopN(keys, limit, offset, c) => Slice(SortRows(keys, Eval(db, c)), limit, offset)
    case Limit(limit, offset, c) => Slice(Eval(db, c), limit, offset)
    case Materialize(c) => Eval(db, c)
    case Project(items, _, c) => MapRows(Eval(db, c), row => ProjectRow(c, items, row))
    case Distinct(c) => EnterAll(Eval(db, c))
    case Aggregate(groupBy, aggregates, c) => AggregateRows(c, groupBy, aggregates, Eval(db, c))
    case Other(_, rows) => rows
  }
}
