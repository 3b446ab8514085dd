/** The three-valued row evaluator of src/execution/expression-eval.ts and src/execution/value-ops.ts. */
module RowEval {
  import opened SqlValues

  datatype ColumnRef = ColumnRef(tableAlias: string, columnName: string, depth: nat)

  datatype BinaryOp = And | Or | Compare(op: CompareOp) | OtherBinary(name: string)
  datatype UnaryOp = Not | OtherUnary(name: string)

  datatype Expr =
    | Column(ref: ColumnRef)
    | Literal(value: Value)
    | Binary(bop: BinaryOp, left: Expr, right: Expr)
    | Unary(uop: UnaryOp, operand: Expr)
    | Between(expr: Expr, low: Expr, high: Expr, negated: bool)
    | InList(expr: Expr, items: seq<Expr>, negated: bool)
    | InQuery(expr: Expr, negated: bool)
    | Like(expr: Expr, pattern: Expr, negated: bool)
    | IsNull(expr: Expr, negated: bool)
    | Other(id: nat)

  /** What the host language decides: coercions between types and the expression kinds that no
      pruning rule looks into. Nothing is assumed about any of them. */
  datatype Host = Host(
    coerced: (CompareOp, Value, Value) -> bool,
    looseEqual: (Value, Value) -> bool,
    text: Value -> seq<CodeUnit>,
    binary: (string, Value, Value) -> Value,
    unary: (string, Value) -> Value,
    other: (nat, seq<Value>) -> Value)

  function ValueAt(row: seq<Value>, index: nat): Value {
    if index < |row| then row[index] else Null
  }

  predicate Compares(host: Host, op: CompareOp, a: Value, b: Value)
    requires a != Null && b != Null
  {
    if SameType(a, b) then Holds(op, a, b) else host.coerced(op, a, b)
  }

  function CompareValues(host: Host, op: CompareOp, a: Value, b: Value): Value {
    if a == Null || b == Null then Null else Bool(Compares(host, op, a, b))
  }

  predicate Truthy(v: Value) {
    match v
    case Null => false
    case Num(n) => n != 0.0
    case Str(s) => s != []
    case Bool(b) => b
  }

  function AndValues(a: Value, b: Value): Value {
    if a == Bool(false) || b == Bool(false) then Bool(false) else if a == Null || b == Null then Null else Bool(true)
  }

  function OrValues(a: Value, b: Value): Value {
    if a == Bool(true) || b == Bool(true) then Bool(true) else if a == Null || b == Null then Null else Bool(false)
  }

  function NotValue(a: Value): Value {
    if a == Null then Null else Bool(!Truthy(a))
  }

  function Negated(negated: bool, v: Value): Value
    requires v == Null || v.Bool?
  {
    if !negated || v == Null then v else Bool(!v.b)
  }

  function BetweenValues(host: Host, v: Value, low: Value, high: Value): (r: Value)
    ensures r == Null || r.Bool?
  {
    if v == Null then Null
    else AndValues(CompareValues(host, Ge, v, low), CompareValues(host, Le, v, high))
  }

  /** Membership in a list of literals: types are not coerced. */
  function InLiterals(v: Value, literals: seq<Value>): (r: Value)
    ensures r == Null || r.Bool?
  {
    if v == Null then Null else if v in literals then Bool(true) else if Null in literals then Null else Bool(false)
  }

  /** Membership in a list of computed items: types are coerced. */
  function InItems(host: Host, v: Value, items: seq<Value>): (r: Value)
    ensures r == Null || r.Bool?
  {
    if v == Null then Null
    else if exists i :: 0 <= i < |items| && items[i] != Null && host.looseEqual(items[i], v) then Bool(true)
    else if Null in items then Null else Bool(false)
  }

  // ---------- LIKE ----------

  const PERCENT: CodeUnit := 37
  const UNDERSCORE: CodeUnit := 95

  /** The units a regular expression's dot does not match. */
  predicate LineTerminator(u: CodeUnit) {
    u == 0x0A || u == 0x0D || u == 0x2028 || u == 0x2029
  }

  predicate LikeMatches(pattern: seq<CodeUnit>, text: seq<CodeUnit>)
    decreases |pattern| + |text|
  {
    if pattern == [] then text == []
    else if pattern[0] == PERCENT then
      LikeMatches(pattern[1..], text) || (text != [] && !LineTerminator(text[0]) && LikeMatches(pattern, text[1..]))
    else
      && text != []
      && (if pattern[0] == UNDERSCORE then !LineTerminator(text[0]) else text[0] == pattern[0])
      && LikeMatches(pattern[1..], text[1..])
  }

  function TextOf(host: Host, v: Value): seq<CodeUnit> {
    if v.Str? then v.s else host.text(v)
  }

  function LikeValues(host: Host, v: Value, pattern: Value): (r: Value)
    ensures r == Null || r.Bool?
  {
    if v == Null || pattern == Null then Null else Bool(LikeMatches(TextOf(host, pattern), TextOf(host, v)))
  }

  // ---------- evaluation ----------

  predicate AllLiterals(items: seq<Expr>) {
    forall i :: 0 <= i < |items| ==> items[i].Literal?
  }

  function LiteralValues(items: seq<Expr>): (vs: seq<Value>)
    requires AllLiterals(items)
    ensures |vs| == |items| && forall i :: 0 <= i < |items| ==> vs[i] == items[i].value
  {
    seq(|items|, i requires 0 <= i < |items| => items[i].value)
  }

  /** The value of an expression on a row; `bind` says which column a reference reads. */
  function Evaluate(host: Host, bind: ColumnRef -> nat, e: Expr, row: seq<Value>): Value
    decreases e, 0
  {
    match e
    case Column(ref) => ValueAt(row, bind(ref))
    case Literal(v) => v
    case Binary(op, l, r) =>
      var a, b := Evaluate(host, bind, l, row), Evaluate(host, bind, r, row);
      (match op
       case And => AndValues(a, b)
       case Or => OrValues(a, b)
       case Compare(c) => CompareValues(host, c, a, b)
       case OtherBinary(name) => host.binary(name, a, b))
    case Unary(op, o) =>
      var a := Evaluate(host, bind, o, row);
      (match op case Not => NotValue(a) case OtherUnary(name) => host.unary(name, a))
    case Between(x, lo, hi, negated) =>
      Negated(negated, BetweenValues(host, Evaluate(host, bind, x, row), Evaluate(host, bind, lo, row),
        Evaluate(host, bind, hi, row)))
    case InList(x, items, negated) =>
      var v := Evaluate(host, bind, x, row);
      Negated(negated, if AllLiterals(items) then InLiterals(v, LiteralValues(items))
                       else InItems(host, v, EvaluateAll(host, bind, items, row)))
    case InQuery(_, _) => Bool(true)
    case Like(x, p, negated) => Negated(negated,
      LikeValues(host, Evaluate(host, bind, x, row), Evaluate(host, bind, p, row)))
    case IsNull(x, negated) => Bool((Evaluate(host, bind, x, row) == Null) != negated)
    case Other(id) => host.other(id, row)
  }

  function EvaluateAll(host: Host, bind: ColumnRef -> nat, es: seq<Expr>, row: seq<Value>): seq<Value>
    decreases es, 1
  {
    if es == [] then [] else [Evaluate(host, bind, es[0], row)] + EvaluateAll(host, bind, es[1..], row)
  }
}
