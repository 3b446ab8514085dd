/** Hoisting of subqueries into joins: extractSubqueries and walkAndReplace of src/planner/logical-planner.ts. */
module Subqueries {
  // One outer row is fixed; a subquery stands for the rows it has for that outer row.
  import opened Wrappers
  import opened SqlValues
  import opened RowEval
  import Sequences

  /** `counts` marks a query whose one output is an ungrouped COUNT; the other clauses matter only for those. */
  datatype Query = Query(id: nat, counts: bool, having: bool, limit: Option<nat>, offset: nat)

  /** Expressions that hold a subquery, and the four kinds the walk goes into. `Opaque` stands for every other
      kind; the walk leaves it alone. */
  datatype SExpr =
    | Field(index: nat)
    | Constant(value: Value)
    | Opaque(id: nat)
    | BinaryOf(bop: BinaryOp, left: SExpr, right: SExpr)
    | UnaryOf(uop: UnaryOp, operand: SExpr)
    | CaseOf(branches: Branches)
    | BetweenOf(expr: SExpr, low: SExpr, high: SExpr, negated: bool)
    | Exists(query: Query, negated: bool)
    | InSubquery(expr: SExpr, query: Query, negated: bool)
    | AnyOf(op: CompareOp, expr: SExpr, query: Query)
    | AllOf(op: CompareOp, expr: SExpr, query: Query)
    | ScalarOf(query: Query)
    | Coalesce(expr: SExpr, other: Value)
    | Hoisted(column: nat)

  /** The WHEN clauses of a CASE in order, and its ELSE; an absent ELSE is the constant null. */
  datatype Branches = Otherwise(result: SExpr) | When(condition: SExpr, result: SExpr, rest: Branches)

  /** One outer row: its columns, the values of opaque expressions, and what each subquery finds for it. That is the
      first column of its rows or, for a counted one, the count and whether HAVING lets it pass. */
  datatype Env = Env(host: Host, field: nat -> Value, opaqueValue: nat -> Value, rows: nat -> seq<Value>,
                     count: nat -> nat, passes: nat -> bool)

  /** The rows of a subquery. An ungrouped COUNT makes one, which HAVING and LIMIT may drop. */
  function RowsOf(env: Env, q: Query): seq<Value> {
    if !q.counts then env.rows(q.id)
    else
      var counted := if q.having && !env.passes(q.id) then [] else [Num(env.count(q.id) as real)];
      if q.limit.None? then counted else Sequences.Slice(counted, q.limit.value, q.offset)
  }

  // ---------- what the expressions mean ----------

  /** x op ANY rows. */
  function AnyValue(host: Host, op: CompareOp, x: Value, rows: seq<Value>): (r: Value)
    ensures r == Null || r.Bool?
  {
    if rows == [] then Bool(false) else OrValues(CompareValues(host, op, x, rows[0]), AnyValue(host, op, x, rows[1..]))
  }

  /** x op ALL rows. */
  function AllValue(host: Host, op: CompareOp, x: Value, rows: seq<Value>): (r: Value)
    ensures r == Null || r.Bool?
  {
    if rows == [] then Bool(true) else AndValues(CompareValues(host, op, x, rows[0]), AllValue(host, op, x, rows[1..]))
  }

  function FirstOrNull(rows: seq<Value>): Value {
    if rows == [] then Null else rows[0]
  }

  function ApplyBinary(host: Host, op: BinaryOp, a: Value, b: Value): Value {
    match op
    case And => AndValues(a, b)
    case Or => OrValues(a, b)
    case Compare(c) => CompareValues(host, c, a, b)
    case OtherBinary(name) => host.binary(name, a, b)
  }

  function ApplyUnary(host: Host, op: UnaryOp, a: Value): Value {
    match op
    case Not => NotValue(a)
    case OtherUnary(name) => host.unary(name, a)
  }

  /** The value of an expression; `hoisted` gives the columns added by hoisted joins. */
  function Eval(env: Env, hoisted: nat -> Value, e: SExpr): Value {
    match e
    case Field(i) => env.field(i)
    case Constant(v) => v
    case Opaque(id) => env.opaqueValue(id)
    case BinaryOf(op, l, r) => ApplyBinary(env.host, op, Eval(env, hoisted, l), Eval(env, hoisted, r))
    case UnaryOf(op, o) => ApplyUnary(env.host, op, Eval(env, hoisted, o))
    case CaseOf(branches) => EvalCase(env, hoisted, branches)
    case BetweenOf(x, lo, hi, negated) =>
      Negated(negated, BetweenValues(env.host, Eval(env, hoisted, x), Eval(env, hoisted, lo), Eval(env, hoisted, hi)))
    case Exists(q, negated) => Bool((RowsOf(env, q) != []) != negated)
    case InSubquery(x, q, negated) => Negated(negated, AnyValue(env.host, Eq, Eval(env, hoisted, x), RowsOf(env, q)))
    case AnyOf(op, x, q) => AnyValue(env.host, op, Eval(env, hoisted, x), RowsOf(env, q))
    case AllOf(op, x, q) => AllValue(env.host, op, Eval(env, hoisted, x), RowsOf(env, q))
    case ScalarOf(q) => FirstOrNull(RowsOf(env, q))
    case Coalesce(x, other) => if Eval(env, hoisted, x) == Null then other else Eval(env, hoisted, x)
    case Hoisted(c) => hoisted(c)
  }

  function EvalCase(env: Env, hoisted: nat -> Value, branches: Branches): Value {
    match branches
    case Otherwise(r) => Eval(env, hoisted, r)
    case When(c, r, rest) => if Truthy(Eval(env, hoisted, c)) then Eval(env, hoisted, r)
      else EvalCase(env, hoisted, rest)
  }

  // ---------- hoisted joins ----------

  /** A dependent join put under the filter. Mark and scalar joins add a column and keep every row. */
  datatype Join =
    | KeepIfExists(query: Query)
    | KeepIfNone(query: Query)
    | KeepIfAny(outer: SExpr, op: CompareOp, query: Query)
    | MarkExists(column: nat, query: Query)
    | MarkAny(column: nat, outer: SExpr, op: CompareOp, query: Query)
    | AddScalar(column: nat, query: Query)

  predicate Filters(j: Join) {
    j.KeepIfExists? || j.KeepIfNone? || j.KeepIfAny?
  }

  /** Whether the outer row survives the join. */
  predicate Survives(env: Env, hoisted: nat -> Value, j: Join) {
    match j
    case KeepIfExists(q) => RowsOf(env, q) != []
    case KeepIfNone(q) => RowsOf(env, q) == []
    case KeepIfAny(x, op, q) => AnyValue(env.host, op, Eval(env, hoisted, x), RowsOf(env, q)) == Bool(true)
    case _ => true
  }

  /** The values the join may put into its column. A mark without comparison is unknown or false when no row
      matches. A count over no rows may come out as a missing row. */
  predicate Fits(env: Env, hoisted: nat -> Value, j: Join) {
    match j
    case MarkExists(c, q) =>
      hoisted(c) == Bool(RowsOf(env, q) != []) || (RowsOf(env, q) == [] && hoisted(c) == Null)
    case MarkAny(c, x, op, q) => hoisted(c) == AnyValue(env.host, op, Eval(env, hoisted, x), RowsOf(env, q))
    case AddScalar(c, q) =>
      var v := FirstOrNull(RowsOf(env, q));
      hoisted(c) == v || (q.counts && v == Num(0.0) && hoisted(c) == Null)
    case _ => true
  }

  predicate AllSurvive(env: Env, hoisted: nat -> Value, joins: seq<Join>) {
    forall i :: 0 <= i < |joins| ==> Survives(env, hoisted, joins[i])
  }

  predicate AllFit(env: Env, hoisted: nat -> Value, joins: seq<Join>) {
    forall i :: 0 <= i < |joins| ==> Fits(env, hoisted, joins[i])
  }

  // ---------- the walk ----------

  function Inverse(op: CompareOp): CompareOp {
    match op
    case Eq => Ne
    case Ne => Eq
    case Lt => Ge
    case Gt => Le
    case Le => Gt
    case Ge => Lt
  }

  function NotOf(e: SExpr): SExpr {
    UnaryOf(Not, e)
  }

  function DefinedMark(column: nat): SExpr {
    Coalesce(Hoisted(column), Bool(false))
  }

  /** The rewritten expression, none when it was hoisted away whole; the joins in the order they were pushed; and
      the next free column. */
  datatype Walked = Walked(expr: Option<SExpr>, joins: seq<Join>, next: nat)

  /** What the visitor of extractSubqueries replaces before the walk looks at the operands. */
  function Replaced(e: SExpr, conjunctive: bool, next: nat): Option<Walked> {
    match e
    case UnaryOf(op, o) =>
      if op == Not && o.Exists? then
        if conjunctive then Some(Walked(None, [KeepIfNone(o.query)], next))
        else Some(Walked(Some(NotOf(DefinedMark(next))), [MarkExists(next, o.query)], next + 1))
      else None
    case Exists(q, negated) =>
      if conjunctive then Some(Walked(None, [if negated then KeepIfNone(q) else KeepIfExists(q)], next))
      else Some(Walked(Some(if negated then NotOf(DefinedMark(next)) else DefinedMark(next)), [MarkExists(next, q)],
        next + 1))
    case InSubquery(x, q, negated) =>
      if negated || !conjunctive then
        Some(Walked(Some(if negated then NotOf(Hoisted(next)) else Hoisted(next)), [MarkAny(next, x, Eq, q)], next + 1))
      else Some(Walked(None, [KeepIfAny(x, Eq, q)], next))
    case AllOf(op, x, q) =>
      Some(Walked(Some(NotOf(Hoisted(next))), [MarkAny(next, x, Inverse(op), q)], next + 1))
    case AnyOf(op, x, q) =>
      if conjunctive then Some(Walked(None, [KeepIfAny(x, op, q)], next))
      else Some(Walked(Some(Hoisted(next)), [MarkAny(next, x, op, q)], next + 1))
    case ScalarOf(q) =>
      Some(Walked(Some(if q.counts then Coalesce(Hoisted(next), Num(0.0)) else Hoisted(next)), [AddScalar(next, q)],
        next + 1))
    case _ => None
  }

  /** The operands that were not hoisted away, under AND. */
  function Combined(l: Option<SExpr>, r: Option<SExpr>): Option<SExpr> {
    if l.None? then r else if r.None? then l else Some(BinaryOf(And, l.value, r.value))
  }

  function Walk(e: SExpr, conjunctive: bool, next: nat): Walked {
    var replaced := Replaced(e, conjunctive, next);
    if replaced.Some? then replaced.value
    else match e
      case BinaryOf(op, l, r) =>
        var deeper := conjunctive && op == And;
        var wl := Walk(l, deeper, next);
        var wr := Walk(r, deeper, wl.next);
        Walked(if wl.expr.None? || wr.expr.None? then Combined(wl.expr, wr.expr)
          else Some(BinaryOf(op, wl.expr.value, wr.expr.value)),
          wl.joins + wr.joins, wr.next)
      case UnaryOf(op, o) =>
        var w := Walk(o, false, next);
        Walked(if w.expr.None? then None else Some(UnaryOf(op, w.expr.value)), w.joins, w.next)
      case CaseOf(branches) =>
        var w := WalkBranches(branches, next);
        Walked(Some(CaseOf(w.0)), w.1, w.2)
      case BetweenOf(x, lo, hi, negated) =>
        var wx := Walk(x, false, next);
        var wlo := Walk(lo, false, wx.next);
        var whi := Walk(hi, false, wlo.next);
        Walked(if wx.expr.None? || wlo.expr.None? || whi.expr.None? then None
               else Some(BetweenOf(wx.expr.value, wlo.expr.value, whi.expr.value, negated)),
          wx.joins + wlo.joins + whi.joins, whi.next)
      case _ => Walked(Some(e), [], next)
  }

  function OrNullConstant(e: Option<SExpr>): SExpr {
    if e.None? then Constant(Null) else e.value
  }

  function WalkBranches(branches: Branches, next: nat): (Branches, seq<Join>, nat) {
    match branches
    case Otherwise(r) =>
      var w := Walk(r, false, next);
      (Otherwise(OrNullConstant(w.expr)), w.joins, w.next)
    case When(c, r, rest) =>
      var wc := Walk(c, false, next);
      var wr := Walk(r, false, wc.next);
      var ws := WalkBranches(rest, wr.next);
      (When(OrNullConstant(wc.expr), OrNullConstant(wr.expr), ws.0), wc.joins + wr.joins + ws.1, ws.2)
  }

  // ---------- hypotheses ----------

  /** No subquery where the walk does not look: in the outer expression of an IN or a quantified comparison. No
      column yet hoisted. */
  predicate Reachable(e: SExpr) {
    match e
    case BinaryOf(_, l, r) => Reachable(l) && Reachable(r)
    case UnaryOf(_, o) => Reachable(o)
    case CaseOf(branches) => BranchesReachable(branches)
    case BetweenOf(x, lo, hi, _) => Reachable(x) && Reachable(lo) && Reachable(hi)
    case InSubquery(x, _, _) => Plain(x)
    case AnyOf(_, x, _) => Plain(x)
    case AllOf(_, x, _) => Plain(x)
    case Coalesce(x, _) => Plain(x)
    case Hoisted(_) => false
    case _ => true
  }

  predicate BranchesReachable(branches: Branches) {
    match branches
    case Otherwise(r) => Reachable(r)
    case When(c, r, rest) => Reachable(c) && Reachable(r) && BranchesReachable(rest)
  }

  predicate Plain(e: SExpr) {
    match e
    case Field(_) | Constant(_) | Opaque(_) => true
    case BinaryOf(_, l, r) => Plain(l) && Plain(r)
    case UnaryOf(_, o) => Plain(o)
    case Coalesce(x, _) => Plain(x)
    case _ => false
  }

  /** NOT directly over an EXISTS that is itself negated: the visitor looks at the query only. */
  predicate NoDoubleNegation(e: SExpr) {
    match e
    case BinaryOf(_, l, r) => NoDoubleNegation(l) && NoDoubleNegation(r)
    case UnaryOf(op, o) => !(op == Not && o.Exists? && o.negated) && NoDoubleNegation(o)
    case CaseOf(branches) => BranchesNoDoubleNegation(branches)
    case BetweenOf(x, lo, hi, _) => NoDoubleNegation(x) && NoDoubleNegation(lo) && NoDoubleNegation(hi)
    case _ => true
  }

  predicate BranchesNoDoubleNegation(branches: Branches) {
    match branches
    case Otherwise(r) => NoDoubleNegation(r)
    case When(c, r, rest) => NoDoubleNegation(c) && NoDoubleNegation(r) && BranchesNoDoubleNegation(rest)
  }

  /** A count that nothing drops: no HAVING, no LIMIT 0 and no OFFSET. */
  predicate KeepsItsRow(q: Query) {
    !q.having && (q.limit.None? || (q.limit.value > 0 && q.offset == 0))
  }

  /** Every counted scalar subquery of an expression keeps its row. */
  predicate CountsKeepTheirRow(e: SExpr) {
    match e
    case BinaryOf(_, l, r) => CountsKeepTheirRow(l) && CountsKeepTheirRow(r)
    case UnaryOf(_, o) => CountsKeepTheirRow(o)
    case CaseOf(branches) => BranchesCountsKeepTheirRow(branches)
    case BetweenOf(x, lo, hi, _) => CountsKeepTheirRow(x) && CountsKeepTheirRow(lo) && CountsKeepTheirRow(hi)
    case ScalarOf(q) => q.counts ==> KeepsItsRow(q)
    case _ => true
  }

  predicate BranchesCountsKeepTheirRow(branches: Branches) {
    match branches
    case Otherwise(r) => CountsKeepTheirRow(r)
    case When(c, r, rest) => CountsKeepTheirRow(c) && CountsKeepTheirRow(r) && BranchesCountsKeepTheirRow(rest)
  }

  /** Exactly one of a comparison and its inverse holds. Nulls and values of one type need not be asked. */
  predicate Opposed(host: Host, op: CompareOp, x: Value, v: Value) {
    x == Null || v == Null || SameType(x, v) || host.coerced(Inverse(op), x, v) == !host.coerced(op, x, v)
  }

  predicate AllOpposed(host: Host, op: CompareOp, x: Value, rows: seq<Value>) {
    forall i :: 0 <= i < |rows| ==> Opposed(host, op, x, rows[i])
  }

  /** The value of an expression that looks at no hoisted column. */
  function OuterValue(env: Env, x: SExpr): Value {
    Eval(env, _ => Null, x)
  }

  /** What an ALL compares is opposed; other comparisons need not be. */
  predicate AllsOpposed(env: Env, e: SExpr) {
    match e
    case BinaryOf(_, l, r) => AllsOpposed(env, l) && AllsOpposed(env, r)
    case UnaryOf(_, o) => AllsOpposed(env, o)
    case CaseOf(branches) => BranchesAllsOpposed(env, branches)
    case BetweenOf(x, lo, hi, _) => AllsOpposed(env, x) && AllsOpposed(env, lo) && AllsOpposed(env, hi)
    case AllOf(op, x, q) => AllOpposed(env.host, op, OuterValue(env, x), RowsOf(env, q))
    case _ => true
  }

  predicate BranchesAllsOpposed(env: Env, branches: Branches) {
    match branches
    case Otherwise(r) => AllsOpposed(env, r)
    case When(c, r, rest) => AllsOpposed(env, c) && AllsOpposed(env, r) && BranchesAllsOpposed(env, rest)
  }

  // ---------- nothing is left unhoisted ----------

  predicate SubqueryFree(e: SExpr) {
    match e
    case BinaryOf(_, l, r) => SubqueryFree(l) && SubqueryFree(r)
    case UnaryOf(_, o) => SubqueryFree(o)
    case CaseOf(branches) => BranchesSubqueryFree(branches)
    case BetweenOf(x, lo, hi, _) => SubqueryFree(x) && SubqueryFree(lo) && SubqueryFree(hi)
    case Coalesce(x, _) => SubqueryFree(x)
    case Field(_) | Constant(_) | Opaque(_) | Hoisted(_) => true
    case _ => false
  }

  predicate BranchesSubqueryFree(branches: Branches) {
    match branches
    case Otherwise(r) => SubqueryFree(r)
    case When(c, r, rest) => SubqueryFree(c) && SubqueryFree(r) && BranchesSubqueryFree(rest)
  }

  /** The subqueries of an expression from left to right. */
  function SubqueriesOf(e: SExpr): seq<Query> {
    match e
    case BinaryOf(_, l, r) => SubqueriesOf(l) + SubqueriesOf(r)
    case UnaryOf(_, o) => SubqueriesOf(o)
    case CaseOf(branches) => BranchSubqueriesOf(branches)
    case BetweenOf(x, lo, hi, _) => SubqueriesOf(x) + SubqueriesOf(lo) + SubqueriesOf(hi)
    case Exists(q, _) => [q]
    case InSubquery(x, q, _) => SubqueriesOf(x) + [q]
    case AnyOf(_, x, q) => SubqueriesOf(x) + [q]
    case AllOf(_, x, q) => SubqueriesOf(x) + [q]
    case ScalarOf(q) => [q]
    case Coalesce(x, _) => SubqueriesOf(x)
    case _ => []
  }

  function BranchSubqueriesOf(branches: Branches): seq<Query> {
    match branches
    case Otherwise(r) => SubqueriesOf(r)
    case When(c, r, rest) => SubqueriesOf(c) + SubqueriesOf(r) + BranchSubqueriesOf(rest)
  }

  function JoinedQueries(joins: seq<Join>): (queries: seq<Query>)
    ensures |queries| == |joins| && forall i :: 0 <= i < |joins| ==> queries[i] == joins[i].query
  {
    seq(|joins|, i requires 0 <= i < |joins| => joins[i].query)
  }

  /** What is left holds no subquery, and there is one join for each, in order. */
  predicate AllHoisted(e: SExpr, w: Walked) {
    (w.expr.Some? ==> SubqueryFree(w.expr.value)) && JoinedQueries(w.joins) == SubqueriesOf(e)
  }

  lemma {:induction false} PlainHasNone(e: SExpr)
    requires Plain(e)
    ensures SubqueryFree(e) && SubqueriesOf(e) == []
  {
    match e
    case BinaryOf(_, l, r) =>
      PlainHasNone(l);
      PlainHasNone(r);
    case UnaryOf(_, o) => PlainHasNone(o);
    case Coalesce(x, _) => PlainHasNone(x);
    case _ =>
  }

  lemma {:induction false} ReplacedIsHoisted(e: SExpr, conjunctive: bool, next: nat)
    requires Reachable(e) && Replaced(e, conjunctive, next).Some?
    ensures AllHoisted(e, Replaced(e, conjunctive, next).value)
  {
    match e
    case InSubquery(x, _, _) => PlainHasNone(x);
    case AnyOf(_, x, _) => PlainHasNone(x);
    case AllOf(_, x, _) => PlainHasNone(x);
    case _ =>
  }

  /** Whatever the walk leaves of a reachable expression holds no subquery any more, and each has its join. */
  lemma {:induction false} WalkHoistsAll(e: SExpr, conjunctive: bool, next: nat)
    requires Reachable(e)
    ensures AllHoisted(e, Walk(e, conjunctive, next))
  {
    if Replaced(e, conjunctive, next).Some? {
      ReplacedIsHoisted(e, conjunctive, next);
    } else {
      match e
      case BinaryOf(op, l, r) =>
        var deeper := conjunctive && op == And;
        WalkHoistsAll(l, deeper, next);
        WalkHoistsAll(r, deeper, Walk(l, deeper, next).next);
      case UnaryOf(_, o) =>
        WalkHoistsAll(o, false, next);
      case CaseOf(branches) =>
        BranchesHoistAll(branches, next);
      case BetweenOf(x, lo, hi, _) =>
        var wx := Walk(x, false, next);
        WalkHoistsAll(x, false, next);
        WalkHoistsAll(lo, false, wx.next);
        WalkHoistsAll(hi, false, Walk(lo, false, wx.next).next);
      case Coalesce(x, _) =>
        PlainHasNone(x);
      case _ =>
    }
  }

  lemma {:induction false} BranchesHoistAll(b: Branches, next: nat)
    requires BranchesReachable(b)
    ensures BranchesSubqueryFree(WalkBranches(b, next).0)
    ensures JoinedQueries(WalkBranches(b, next).1) == BranchSubqueriesOf(b)
  {
    match b
    case Otherwise(r) => WalkHoistsAll(r, false, next);
    case When(c, r, rest) =>
      var wc := Walk(c, false, next);
      var wr := Walk(r, false, wc.next);
      WalkHoistsAll(c, false, next);
      WalkHoistsAll(r, false, wc.next);
      BranchesHoistAll(rest, wr.next);
  }

  // ---------- the planner ----------

  /** The planner's mark counter and the joins collected by one extraction. */
  class LogicalPlanner {
    var markCount: nat
    var subqueryJoins: seq<Join>

    constructor ()
      ensures markCount == 0 && subqueryJoins == []
    {
      markCount, subqueryJoins := 0, [];
    }

    method HoistMark(q: Query) returns (column: nat)
      modifies this
      ensures column == old(markCount) && markCount == old(markCount) + 1
      ensures subqueryJoins == old(subqueryJoins) + [MarkExists(column, q)]
    {
      column := markCount;
      markCount := markCount + 1;
      subqueryJoins := subqueryJoins + [MarkExists(column, q)];
    }

    method HoistComparedMark(x: SExpr, op: CompareOp, q: Query) returns (column: nat)
      modifies this
      ensures column == old(markCount) && markCount == old(markCount) + 1
      ensures subqueryJoins == old(subqueryJoins) + [MarkAny(column, x, op, q)]
    {
      column := markCount;
      markCount := markCount + 1;
      subqueryJoins := subqueryJoins + [MarkAny(column, x, op, q)];
    }

    method HoistFilter(j: Join)
      modifies this`subqueryJoins
      ensures subqueryJoins == old(subqueryJoins) + [j]
    {
      subqueryJoins := subqueryJoins + [j];
    }

    /** The visitor: whether it replaced the node, and with what. */
    method Visit(e: SExpr, conjunctive: bool) returns (replaced: bool, result: Option<SExpr>)
      modifies this
      ensures var w := Replaced(e, conjunctive, old(markCount));
        && replaced == w.Some?
        && (if replaced then result == w.value.expr && markCount == w.value.next
          && subqueryJoins == old(subqueryJoins) + w.value.joins
            else markCount == old(markCount) && subqueryJoins == old(subqueryJoins))
    {
      replaced, result := true, None;
      match e
      case UnaryOf(op, o) =>
        if op == Not && o.Exists? {
          if conjunctive {
            HoistFilter(KeepIfNone(o.query));
          } else {
            var mark := HoistMark(o.query);
            result := Some(NotOf(DefinedMark(mark)));
          }
        } else {
          replaced := false;
        }
      case Exists(q, negated) =>
        if conjunctive {
          HoistFilter(if negated then KeepIfNone(q) else KeepIfExists(q));
        } else {
          var mark := HoistMark(q);
          result := Some(if negated then NotOf(DefinedMark(mark)) else DefinedMark(mark));
        }
      case InSubquery(x, q, negated) =>
        if negated || !conjunctive {
          var mark := HoistComparedMark(x, Eq, q);
          result := Some(if negated then NotOf(Hoisted(mark)) else Hoisted(mark));
        } else {
          HoistFilter(KeepIfAny(x, Eq, q));
        }
      case AllOf(op, x, q) =>
        var mark := HoistComparedMark(x, Inverse(op), q);
        result := Some(NotOf(Hoisted(mark)));
      case AnyOf(op, x, q) =>
        if conjunctive {
          HoistFilter(KeepIfAny(x, op, q));
        } else {
          var mark := HoistComparedMark(x, op, q);
          result := Some(Hoisted(mark));
        }
      case ScalarOf(q) =>
        var column := markCount;
        markCount := markCount + 1;
        subqueryJoins := subqueryJoins + [AddScalar(column, q)];
        result := Some(if q.counts then Coalesce(Hoisted(column), Num(0.0)) else Hoisted(column));
      case _ =>
        replaced := false;
    }

    method WalkAndReplace(e: SExpr, conjunctive: bool) returns (result: Option<SExpr>)
      modifies this
      ensures var w := Walk(e, conjunctive, old(markCount));
        result == w.expr && markCount == w.next && subqueryJoins == old(subqueryJoins) + w.joins
      decreases e, 1
    {
      var replaced;
      replaced, result := Visit(e, conjunctive);
      if replaced { return; }
      match e
      case BinaryOf(op, l, r) =>
        var left := WalkAndReplace(l, conjunctive && op == And);
        var right := WalkAndReplace(r, conjunctive && op == And);
        result := if left.None? || right.None? then Combined(left, right)
          else Some(BinaryOf(op, left.value, right.value));
      case UnaryOf(op, o) =>
        var operand := WalkAndReplace(o, false);
        result := if operand.None? then None else Some(UnaryOf(op, operand.value));
      case CaseOf(branches) =>
        var walked := WalkCase(branches);
        result := Some(CaseOf(walked));
      case BetweenOf(x, lo, hi, negated) =>
        result := WalkBetween(e);
      case _ =>
        result := Some(e);
    }

    method WalkBetween(e: SExpr) returns (result: Option<SExpr>)
      requires e.BetweenOf?
      modifies this
      ensures var w := Walk(e, false, old(markCount));
        result == w.expr && markCount == w.next && subqueryJoins == old(subqueryJoins) + w.joins
      decreases e, 0
    {
      var expr := WalkAndReplace(e.expr, false);
      var low := WalkAndReplace(e.low, false);
      var high := WalkAndReplace(e.high, false);
      result := if expr.None? || low.None?
        || high.None? then None else Some(BetweenOf(expr.value, low.value, high.value, e.negated));
    }

    method WalkCase(branches: Branches) returns (result: Branches)
      modifies this
      ensures var w := WalkBranches(branches, old(markCount));
        result == w.0 && markCount == w.2 && subqueryJoins == old(subqueryJoins) + w.1
      decreases branches, 1
    {
      match branches
      case Otherwise(r) =>
        var e := WalkAndReplace(r, false);
        result := Otherwise(OrNullConstant(e));
      case When(c, r, rest) =>
        var condition := WalkAndReplace(c, false);
        var value := WalkAndReplace(r, false);
        var others := WalkCase(rest);
        result := When(OrNullConstant(condition), OrNullConstant(value), others);
    }

    /** The rewritten expression and the joins to put under it. */
    method ExtractSubqueries(e: SExpr, conjunctive: bool) returns (expr: Option<SExpr>, joins: seq<Join>)
      modifies this
      ensures Walk(e, conjunctive, old(markCount)) == Walked(expr, joins, markCount)
      ensures Reachable(e) ==> AllHoisted(e, Walked(expr, joins, markCount))
    {
      if Reachable(e) { WalkHoistsAll(e, conjunctive, markCount); }
      subqueryJoins := [];
      expr := WalkAndReplace(e, conjunctive);
      joins := subqueryJoins;
    }
  }
}
