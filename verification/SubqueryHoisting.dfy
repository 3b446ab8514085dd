/** Why hoisting subqueries keeps the meaning of a condition. */
module SubqueryHoisting {
  import opened Wrappers
  import opened SqlValues
  import opened RowEval
  import opened Subqueries

  // ---------- ALL and ANY ----------

  /** ANY is true when some row compares true, false when every row compares false, and unknown otherwise. */
  lemma {:induction false} AnyMeans(host: Host, op: CompareOp, x: Value, rows: seq<Value>)
    ensures AnyValue(host, op, x, rows) == Bool(true)
       <==> exists v :: v in rows && CompareValues(host, op, x, v) == Bool(true)
    ensures AnyValue(host, op, x, rows) == Bool(false)
       <==> forall v :: v in rows ==> CompareValues(host, op, x, v) == Bool(false)
  {
    if rows != [] {
      AnyMeans(host, op, x, rows[1..]);
      assert forall v :: v in rows <==> v == rows[0] || v in rows[1..];
    }
  }

  /** ALL is true when every row compares true, false when some row compares false, and unknown otherwise. */
  lemma {:induction false} AllMeans(host: Host, op: CompareOp, x: Value, rows: seq<Value>)
    ensures AllValue(host, op, x, rows) == Bool(true)
       <==> forall v :: v in rows ==> CompareValues(host, op, x, v) == Bool(true)
    ensures AllValue(host, op, x, rows) == Bool(false)
       <==> exists v :: v in rows && CompareValues(host, op, x, v) == Bool(false)
  {
    if rows != [] {
      AllMeans(host, op, x, rows[1..]);
      assert forall v :: v in rows <==> v == rows[0] || v in rows[1..];
    }
  }

  /** x op ALL rows is NOT (x inverse(op) ANY rows), nulls included. */
  lemma {:induction false} AllIsNotAny(host: Host, op: CompareOp, x: Value, rows: seq<Value>)
    requires AllOpposed(host, op, x, rows)
    ensures AllValue(host, op, x, rows) == NotValue(AnyValue(host, Inverse(op), x, rows))
  {
    if rows != [] {
      assert AllOpposed(host, op, x, rows[1..]);
      AllIsNotAny(host, op, x, rows[1..]);
      OpposedValues(host, op, x, rows[0]);
      NotOverOr(CompareValues(host, Inverse(op), x, rows[0]), AnyValue(host, Inverse(op), x, rows[1..]));
    }
  }

  lemma {:induction false} NotOverOr(a: Value, b: Value)
    requires (a == Null || a.Bool?) && (b == Null || b.Bool?)
    ensures NotValue(OrValues(a, b)) == AndValues(NotValue(a), NotValue(b))
  {}

  lemma {:induction false} OpposedValues(host: Host, op: CompareOp, x: Value, v: Value)
    ensures CompareValues(host, op, x, v) == NotValue(CompareValues(host, Inverse(op), x, v))
       <==> Opposed(host, op, x, v)
  {
    if x != Null && v != Null && SameType(x, v) { BeforeTotal(x, v); }
  }

  /** On every list drawn from some values ALL is NOT ANY exactly when each of them is opposed. */
  lemma {:induction false} AllExact(host: Host, op: CompareOp, x: Value, values: iset<Value>)
    ensures (forall rows :: AllIn(rows, values) ==>
               AllValue(host, op, x, rows) == NotValue(AnyValue(host, Inverse(op), x, rows)))
       <==> forall v :: v in values ==> Opposed(host, op, x, v)
  {
    if forall v :: v in values ==> Opposed(host, op, x, v) {
      forall rows | AllIn(rows, values)
        ensures AllValue(host, op, x, rows) == NotValue(AnyValue(host, Inverse(op), x, rows))
      {
        AllIsNotAny(host, op, x, rows);
      }
    } else {
      var v :| v in values && !Opposed(host, op, x, v);
      assert AllIn([v], values);
      OneRow(host, op, x, v);
      OpposedValues(host, op, x, v);
    }
  }

  ghost predicate AllIn(rows: seq<Value>, values: iset<Value>) {
    forall i :: 0 <= i < |rows| ==> rows[i] in values
  }

  lemma {:induction false} OneRow(host: Host, op: CompareOp, x: Value, v: Value)
    ensures AllValue(host, op, x, [v]) == CompareValues(host, op, x, v)
    ensures AnyValue(host, Inverse(op), x, [v]) == CompareValues(host, Inverse(op), x, v)
  {
    assert [v][1..] == [];
  }

  predicate ReadsAsNumber(readable: seq<CodeUnit> -> bool, v: Value) {
    v.Num? || v.Bool? || (v.Str? && readable(v.s))
  }

  /** How values of different types compare: equality never holds, and an order needs two values that read as numbers,
      of which then exactly one of an operator and its inverse holds. */
  ghost predicate ComparesNumbers(host: Host, readable: seq<CodeUnit> -> bool) {
    forall op: CompareOp, a, b {:trigger host.coerced(op, a, b)} :: a != Null && b != Null && !SameType(a, b) ==>
      match op
      case Eq => !host.coerced(op, a, b)
      case Ne => host.coerced(op, a, b)
      case _ =>
        if ReadsAsNumber(readable, a) && ReadsAsNumber(readable, b)
        then host.coerced(Inverse(op), a, b) == !host.coerced(op, a, b)
        else !host.coerced(op, a, b)
  }

  /** An operator that tells two values apart or together, whichever it is. */
  predicate ComparedBy(readable: seq<CodeUnit> -> bool, op: CompareOp, x: Value, v: Value) {
    || op in {Eq, Ne} || x == Null || v == Null || SameType(x, v)
    || (ReadsAsNumber(readable, x) && ReadsAsNumber(readable, v))
  }

  /** So ALL is NOT ANY on every list drawn from some values exactly when the operator tests equality or each value
      has the type of x or reads, as x does, as a number. */
  lemma {:induction false} MixedTypesExact(host: Host, readable: seq<CodeUnit> -> bool, op: CompareOp, x: Value,
                                           values: iset<Value>)
    requires ComparesNumbers(host, readable)
    ensures (forall rows :: AllIn(rows, values) ==>
               AllValue(host, op, x, rows) == NotValue(AnyValue(host, Inverse(op), x, rows)))
       <==> forall v :: v in values ==> ComparedBy(readable, op, x, v)
  {
    AllExact(host, op, x, values);
    forall v | v in values ensures Opposed(host, op, x, v) <==> ComparedBy(readable, op, x, v) {
      OpposedMixed(host, readable, op, x, v);
    }
  }

  lemma {:induction false} OpposedMixed(host: Host, readable: seq<CodeUnit> -> bool, op: CompareOp, x: Value, v: Value)
    requires ComparesNumbers(host, readable)
    ensures Opposed(host, op, x, v) <==> ComparedBy(readable, op, x, v)
  {
    if x != Null && v != Null && !SameType(x, v) {
      var holds, inverse := host.coerced(op, x, v), host.coerced(Inverse(op), x, v);
    }
  }

  /** The mixed comparison is within reach: a text that is less than no number is reported by `text < ALL (numbers)`. */
  lemma {:induction false} MixedTypesAreReached(host: Host, text: seq<CodeUnit>, n: real, q: Query)
      returns (env: Env, hoisted: nat -> Value)
    requires !host.coerced(Lt, Str(text), Num(n)) && !host.coerced(Ge, Str(text), Num(n)) && !q.counts
    ensures var e := AllOf(Lt, Field(0), q); var w := Walk(e, true, 0);
      && env.host == host && env.field(0) == Str(text) && RowsOf(env, q) == [Num(n)]
      && Reachable(e) && NoDoubleNegation(e) && CountsKeepTheirRow(e) && BooleanConjuncts(env, hoisted, e)
      && AllFit(env, hoisted, w.joins) && AllSurvive(env, hoisted, w.joins) && w.expr.Some?
      && Eval(env, hoisted, e) == Bool(false) && Eval(env, hoisted, w.expr.value) == Bool(true)
  {
    env := Env(host, _ => Str(text), _ => Null, _ => [Num(n)], _ => 0, _ => true);
    hoisted := _ => Bool(false);
    OneRow(host, Lt, Str(text), Num(n));
    NotValueOf(env, hoisted, Hoisted(0));
  }

  // ---------- counts ----------

  /** A count keeps its row for every outer row exactly when no clause can drop it. */
  lemma {:induction false} CountRow(host: Host, q: Query)
    requires q.counts
    ensures KeepsItsRow(q) <==> forall env: Env :: env.host == host ==> RowsOf(env, q) != []
  {
    if !KeepsItsRow(q) {
      var env := Env(host, _ => Null, _ => Null, _ => [], _ => 0, _ => false);
      assert RowsOf(env, q) == [];
    }
  }

  /** A scalar subquery keeps its value whatever its join puts into the column exactly when it is no count or has
      a row. */
  lemma {:induction false} ScalarExact(env: Env, q: Query, next: nat)
    ensures var e := ScalarOf(q); var w := Walk(e, false, next);
      && w.expr.Some?
      && ((forall hoisted :: AllFit(env, hoisted, w.joins) ==>
             Eval(env, hoisted, w.expr.value) == Eval(env, hoisted, e))
          <==> !q.counts || RowsOf(env, q) != [])
  {
    var e := ScalarOf(q);
    var w := Walk(e, false, next);
    if !q.counts || RowsOf(env, q) != [] {
      forall hoisted | AllFit(env, hoisted, w.joins)
        ensures Eval(env, hoisted, w.expr.value) == Eval(env, hoisted, e)
      {
        assert Fits(env, hoisted, w.joins[0]);
      }
    } else {
      var hoisted: nat -> Value := _ => Null;
      assert AllFit(env, hoisted, w.joins);
      assert Eval(env, hoisted, w.expr.value) == Num(0.0);
    }
  }

  /** On all outer rows that is exactly when it is no count or no clause can drop the row. */
  lemma {:induction false} CountExact(host: Host, q: Query, next: nat)
    ensures var e := ScalarOf(q); var w := Walk(e, false, next);
      && w.expr.Some?
      && ((forall env: Env, hoisted :: env.host == host && AllFit(env, hoisted, w.joins) ==>
             Eval(env, hoisted, w.expr.value) == Eval(env, hoisted, e))
          <==> !q.counts || KeepsItsRow(q))
  {
    var e := ScalarOf(q);
    var w := Walk(e, false, next);
    if !q.counts || KeepsItsRow(q) {
      if q.counts { CountRow(host, q); }
      forall env: Env, hoisted | env.host == host && AllFit(env, hoisted, w.joins)
        ensures Eval(env, hoisted, w.expr.value) == Eval(env, hoisted, e)
      {
        ScalarExact(env, q, next);
      }
    } else {
      CountRow(host, q);
      var env: Env :| env.host == host && RowsOf(env, q) == [];
      ScalarExact(env, q, next);
    }
  }

  /** The lost null is within reach: with a count that a clause drops, `0 = (SELECT COUNT ..)` is unknown, and what is
      left of it after hoisting is true, so the row is kept. */
  lemma {:induction false} DroppedCountIsReached(host: Host, q: Query) returns (env: Env, hoisted: nat -> Value)
    requires q.counts && !KeepsItsRow(q)
    ensures var e := BinaryOf(Compare(Eq), Constant(Num(0.0)), ScalarOf(q)); var w := Walk(e, true, 0);
      && env.host == host && Reachable(e) && NoDoubleNegation(e) && AllsOpposed(env, e)
      && BooleanConjuncts(env, hoisted, e) && AllFit(env, hoisted, w.joins) && AllSurvive(env, hoisted, w.joins)
      && w.expr.Some? && Eval(env, hoisted, e) == Null && Eval(env, hoisted, w.expr.value) == Bool(true)
      && !SameRows(env, hoisted, e, w)
  {
    var e := BinaryOf(Compare(Eq), Constant(Num(0.0)), ScalarOf(q));
    env := Env(host, _ => Null, _ => Null, _ => [], _ => 0, _ => false);
    hoisted := _ => Null;
    assert RowsOf(env, q) == [];
    DroppedCountWalk(q);
    var left := Coalesce(Hoisted(0), Num(0.0));
    assert Eval(env, hoisted, left) == Num(0.0);
    assert Fits(env, hoisted, AddScalar(0, q));
  }

  lemma {:induction false} DroppedCountWalk(q: Query)
    requires q.counts
    ensures var zero := Constant(Num(0.0));
      Walk(BinaryOf(Compare(Eq), zero, ScalarOf(q)), true, 0)
      == Walked(Some(BinaryOf(Compare(Eq), zero, Coalesce(Hoisted(0), Num(0.0)))), [AddScalar(0, q)], 1)
  {
    var zero := Constant(Num(0.0));
    assert Walk(zero, false, 0) == Walked(Some(zero), [], 0);
    assert Walk(ScalarOf(q), false, 0) == Walked(Some(Coalesce(Hoisted(0), Num(0.0))), [AddScalar(0, q)], 1);
  }

  // ---------- values ----------

  lemma {:induction false} FitSplits(env: Env, hoisted: nat -> Value, a: seq<Join>, b: seq<Join>)
    ensures AllFit(env, hoisted, a + b) <==> AllFit(env, hoisted, a) && AllFit(env, hoisted, b)
    ensures AllSurvive(env, hoisted, a + b) <==> AllSurvive(env, hoisted, a) && AllSurvive(env, hoisted, b)
  {
    assert forall i :: 0 <= i < |a| ==> (a + b)[i] == a[i];
    assert forall i :: 0 <= i < |b| ==> (a + b)[|a| + i] == b[i];
  }

  ghost predicate NoneFilters(joins: seq<Join>) {
    forall i :: 0 <= i < |joins| ==> !Filters(joins[i])
  }

  ghost predicate Hypotheses(env: Env, e: SExpr) {
    Reachable(e) && NoDoubleNegation(e) && CountsKeepTheirRow(e) && AllsOpposed(env, e)
  }

  ghost predicate BranchHypotheses(env: Env, b: Branches) {
    && BranchesReachable(b) && BranchesNoDoubleNegation(b) && BranchesCountsKeepTheirRow(b)
    && BranchesAllsOpposed(env, b)
  }

  /** Outside a conjunction nothing is hoisted away, no join drops a row, and the rewritten expression has the value
      of the original whatever the joins may have put into their columns. */
  ghost predicate SameValue(env: Env, hoisted: nat -> Value, e: SExpr, w: Walked) {
    w.expr.Some? && NoneFilters(w.joins) &&
    (AllFit(env, hoisted, w.joins) ==> Eval(env, hoisted, w.expr.value) == Eval(env, hoisted, e))
  }

  lemma {:induction false} ReplacedKeepsValue(env: Env, hoisted: nat -> Value, e: SExpr, next: nat)
    requires Hypotheses(env, e) && Replaced(e, false, next).Some?
    ensures SameValue(env, hoisted, e, Replaced(e, false, next).value)
  {
    var w := Replaced(e, false, next).value;
    if AllFit(env, hoisted, w.joins) {
      assert Fits(env, hoisted, w.joins[0]);
      match e
      case UnaryOf(_, o) =>
        MarkValue(env, hoisted, next);
        NotValueOf(env, hoisted, DefinedMark(next));
        NotValueOf(env, hoisted, o);
      case Exists(q, negated) =>
        MarkValue(env, hoisted, next);
        NotValueOf(env, hoisted, DefinedMark(next));
      case InSubquery(x, q, negated) =>
        NotValueOf(env, hoisted, Hoisted(next));
      case AllOf(op, x, q) =>
        NotValueOf(env, hoisted, Hoisted(next));
        PlainIgnoresHoisted(env, hoisted, x);
        AllIsNotAny(env.host, op, Eval(env, hoisted, x), RowsOf(env, q));
      case AnyOf(_, _, _) =>
      case ScalarOf(q) =>
    }
  }

  lemma {:induction false} MarkValue(env: Env, hoisted: nat -> Value, column: nat)
    ensures Eval(env, hoisted, DefinedMark(column)) == if hoisted(column) == Null then Bool(false) else hoisted(column)
  {}

  lemma {:induction false} NotValueOf(env: Env, hoisted: nat -> Value, e: SExpr)
    ensures Eval(env, hoisted, NotOf(e)) == NotValue(Eval(env, hoisted, e))
  {}

  lemma {:induction false} WalkKeepsValue(env: Env, hoisted: nat -> Value, e: SExpr, next: nat)
    requires Hypotheses(env, e)
    ensures SameValue(env, hoisted, e, Walk(e, false, next)) && AllHoisted(e, Walk(e, false, next))
  {
    WalkHoistsAll(e, false, next);
    if Replaced(e, false, next).Some? {
      ReplacedKeepsValue(env, hoisted, e, next);
    } else {
      match e
      case BinaryOf(op, l, r) =>
        var wl := Walk(l, false, next);
        WalkKeepsValue(env, hoisted, l, next);
        WalkKeepsValue(env, hoisted, r, wl.next);
        FitSplits(env, hoisted, wl.joins, Walk(r, false, wl.next).joins);
      case UnaryOf(op, o) =>
        WalkKeepsValue(env, hoisted, o, next);
      case CaseOf(branches) =>
        BranchesKeepValue(env, hoisted, branches, next);
      case BetweenOf(x, lo, hi, negated) =>
        var wx := Walk(x, false, next);
        var wlo := Walk(lo, false, wx.next);
        WalkKeepsValue(env, hoisted, x, next);
        WalkKeepsValue(env, hoisted, lo, wx.next);
        WalkKeepsValue(env, hoisted, hi, wlo.next);
        FitSplits(env, hoisted, wx.joins, wlo.joins);
        FitSplits(env, hoisted, wx.joins + wlo.joins, Walk(hi, false, wlo.next).joins);
      case _ =>
    }
  }

  lemma {:induction false} BranchesKeepValue(env: Env, hoisted: nat -> Value, b: Branches, next: nat)
    requires BranchHypotheses(env, b)
    ensures NoneFilters(WalkBranches(b, next).1)
    ensures AllFit(env, hoisted, WalkBranches(b, next).1) ==>
            EvalCase(env, hoisted, WalkBranches(b, next).0) == EvalCase(env, hoisted, b)
  {
    match b
    case Otherwise(r) =>
      WalkKeepsValue(env, hoisted, r, next);
    case When(c, r, rest) =>
      var wc := Walk(c, false, next);
      var wr := Walk(r, false, wc.next);
      WalkKeepsValue(env, hoisted, c, next);
      WalkKeepsValue(env, hoisted, r, wc.next);
      BranchesKeepValue(env, hoisted, rest, wr.next);
      FitSplits(env, hoisted, wc.joins, wr.joins);
      FitSplits(env, hoisted, wc.joins + wr.joins, WalkBranches(rest, wr.next).1);
  }

  // ---------- conditions ----------

  /** The conjuncts of a condition are conditions. */
  ghost predicate BooleanConjuncts(env: Env, hoisted: nat -> Value, e: SExpr) {
    match e
    case BinaryOf(And, l, r) => BooleanConjuncts(env, hoisted, l) && BooleanConjuncts(env, hoisted, r)
    case _ => Eval(env, hoisted, e) == Null || Eval(env, hoisted, e).Bool?
  }

  predicate PassesFilter(env: Env, hoisted: nat -> Value, filter: Option<SExpr>) {
    filter.None? || Truthy(Eval(env, hoisted, filter.value))
  }

  predicate Conditional(env: Env, hoisted: nat -> Value, filter: Option<SExpr>) {
    filter.Some? ==> Eval(env, hoisted, filter.value) == Null || Eval(env, hoisted, filter.value).Bool?
  }

  /** A row survives the joins and passes what is left of the condition exactly when the condition held. */
  ghost predicate SameRows(env: Env, hoisted: nat -> Value, e: SExpr, w: Walked) {
    AllFit(env, hoisted, w.joins) ==>
      && Conditional(env, hoisted, w.expr)
      && (AllSurvive(env, hoisted, w.joins) && PassesFilter(env, hoisted, w.expr) <==> Truthy(Eval(env, hoisted, e)))
  }

  lemma {:induction false} NoneFiltersSurvive(env: Env, hoisted: nat -> Value, joins: seq<Join>)
    requires NoneFilters(joins)
    ensures AllSurvive(env, hoisted, joins)
  {}

  lemma {:induction false} ConjunctKeepsRows(env: Env, hoisted: nat -> Value, e: SExpr, next: nat)
    requires Hypotheses(env, e) && !(e.BinaryOf? && e.bop == And)
    requires Eval(env, hoisted, e) == Null || Eval(env, hoisted, e).Bool?
    ensures SameRows(env, hoisted, e, Walk(e, true, next))
  {
    var replaced := Replaced(e, true, next);
    if replaced.Some? && replaced.value.expr.None? {
      HoistedAwayKeepsRows(env, hoisted, e, next);
    } else {
      assert Walk(e, true, next) == Walk(e, false, next);
      WalkKeepsValue(env, hoisted, e, next);
      NoneFiltersSurvive(env, hoisted, Walk(e, false, next).joins);
    }
  }

  lemma {:induction false} HoistedAwayKeepsRows(env: Env, hoisted: nat -> Value, e: SExpr, next: nat)
    requires Hypotheses(env, e) && Replaced(e, true, next).Some? && Replaced(e, true, next).value.expr.None?
    ensures AllSurvive(env, hoisted, Replaced(e, true, next).value.joins) <==> Truthy(Eval(env, hoisted, e))
  {
    var joins := Replaced(e, true, next).value.joins;
    assert AllSurvive(env, hoisted, joins) <==> Survives(env, hoisted, joins[0]);
    if e.UnaryOf? { NotValueOf(env, hoisted, e.operand); }
  }

  /** What is left of a conjunction passes when what is left of each side passes. */
  lemma {:induction false} BothPass(env: Env, hoisted: nat -> Value, l: Option<SExpr>, r: Option<SExpr>)
    requires Conditional(env, hoisted, l) && Conditional(env, hoisted, r)
    ensures Conditional(env, hoisted, Combined(l, r))
    ensures PassesFilter(env, hoisted, Combined(l, r)) <==>
            PassesFilter(env, hoisted, l) && PassesFilter(env, hoisted, r)
  {}

  /** The WHERE clause: hoisted joins and the remaining filter keep exactly the rows on which the condition is true,
      whatever a mark without comparison or a count over no rows comes out as. */
  lemma {:induction false} HoistingKeepsRows(env: Env, hoisted: nat -> Value, e: SExpr, next: nat)
    requires Hypotheses(env, e) && BooleanConjuncts(env, hoisted, e)
    ensures SameRows(env, hoisted, e, Walk(e, true, next)) && AllHoisted(e, Walk(e, true, next))
  {
    WalkHoistsAll(e, true, next);
    if e.BinaryOf? && e.bop == And {
      var wl := Walk(e.left, true, next);
      var wr := Walk(e.right, true, wl.next);
      HoistingKeepsRows(env, hoisted, e.left, next);
      HoistingKeepsRows(env, hoisted, e.right, wl.next);
      FitSplits(env, hoisted, wl.joins, wr.joins);
      ConjunctValue(env, hoisted, e.left);
      ConjunctValue(env, hoisted, e.right);
      if AllFit(env, hoisted, wl.joins + wr.joins) { BothPass(env, hoisted, wl.expr, wr.expr); }
    } else {
      ConjunctKeepsRows(env, hoisted, e, next);
    }
  }

  lemma {:induction false} ConjunctValue(env: Env, hoisted: nat -> Value, e: SExpr)
    requires BooleanConjuncts(env, hoisted, e)
    ensures Eval(env, hoisted, e) == Null || Eval(env, hoisted, e).Bool?
  {}

  /** NOT over a negated EXISTS loses one negation: the row survives exactly when the condition was not true, and
      outside a conjunction the value comes out negated. */
  lemma {:induction false} DoubleNegationFlips(env: Env, hoisted: nat -> Value, q: Query, next: nat)
    ensures var e := UnaryOf(Not, Exists(q, true));
      && Walk(e, true, next).expr.None?
      && (AllSurvive(env, hoisted, Walk(e, true, next).joins) <==> !Truthy(Eval(env, hoisted, e)))
      && (AllFit(env, hoisted, Walk(e, false, next).joins) ==>
            Walk(e, false, next).expr.Some?
              && Eval(env, hoisted, Walk(e, false, next).expr.value) == NotValue(Eval(env, hoisted, e)))
  {
    var e := UnaryOf(Not, Exists(q, true));
    NotValueOf(env, hoisted, Exists(q, true));
    var kept := Walk(e, true, next).joins;
    assert AllSurvive(env, hoisted, kept) <==> Survives(env, hoisted, kept[0]);
    if AllFit(env, hoisted, Walk(e, false, next).joins) {
      assert Fits(env, hoisted, Walk(e, false, next).joins[0]);
      MarkValue(env, hoisted, next);
      NotValueOf(env, hoisted, DefinedMark(next));
    }
  }

  /** NOT over EXISTS keeps its rows and its value exactly when the EXISTS is not itself negated. */
  lemma {:induction false} NotExistsExact(env: Env, hoisted: nat -> Value, q: Query, negated: bool, next: nat)
    ensures var e := UnaryOf(Not, Exists(q, negated));
      && ((AllSurvive(env, hoisted, Walk(e, true, next).joins) <==> Truthy(Eval(env, hoisted, e))) <==> !negated)
      && (AllFit(env, hoisted, Walk(e, false, next).joins) ==>
            Walk(e, false, next).expr.Some?
            && ((Eval(env, hoisted, Walk(e, false, next).expr.value) == Eval(env, hoisted, e)) <==> !negated))
  {
    var e := UnaryOf(Not, Exists(q, negated));
    NotValueOf(env, hoisted, Exists(q, negated));
    var kept := Walk(e, true, next).joins;
    assert AllSurvive(env, hoisted, kept) <==> Survives(env, hoisted, kept[0]);
    if AllFit(env, hoisted, Walk(e, false, next).joins) {
      assert Fits(env, hoisted, Walk(e, false, next).joins[0]);
      MarkValue(env, hoisted, next);
      NotValueOf(env, hoisted, DefinedMark(next));
    }
  }

  /** The lost negation is within reach: with a row in the subquery and a true column, `column = NOT NOT EXISTS (..)`
      is true, and what is left of it after hoisting is false. */
  lemma {:induction false} LostNegationIsReached(host: Host, q: Query) returns (env: Env, hoisted: nat -> Value)
    requires !q.counts
    ensures var e := BinaryOf(Compare(Eq), Field(0), UnaryOf(Not, Exists(q, true))); var w := Walk(e, true, 0);
      && Reachable(e) && CountsKeepTheirRow(e) && AllsOpposed(env, e) && AllFit(env, hoisted, w.joins)
      && AllSurvive(env, hoisted, w.joins) && w.expr.Some?
      && Eval(env, hoisted, e) == Bool(true) && Eval(env, hoisted, w.expr.value) == Bool(false)
  {
    var inner := UnaryOf(Not, Exists(q, true));
    var e := BinaryOf(Compare(Eq), Field(0), inner);
    env := Env(host, _ => Bool(true), _ => Null, _ => [Bool(true)], _ => 1, _ => true);
    hoisted := _ => Bool(true);
    var w := Walk(e, true, 0);
    assert Walk(Field(0), false, 0).joins == [];
    NotValueOf(env, hoisted, Exists(q, true));
    MarkValue(env, hoisted, 0);
    NotValueOf(env, hoisted, DefinedMark(0));
  }

  // ---------- columns ----------

  predicate AddsColumn(j: Join) {
    j.MarkExists? || j.MarkAny? || j.AddScalar?
  }

  /** The columns added are new and in the order of the joins; the joins compare plain outer expressions. */
  ghost predicate FreshColumns(joins: seq<Join>, lo: nat, hi: nat) {
    && lo <= hi
    && (forall i :: 0 <= i < |joins| && AddsColumn(joins[i]) ==> lo <= joins[i].column < hi)
    && (forall i, j :: 0 <= i < j < |joins| && AddsColumn(joins[i]) && AddsColumn(joins[j]) ==>
      joins[i].column < joins[j].column)
    && (forall i :: 0 <= i < |joins| && joins[i].MarkAny? ==> Plain(joins[i].outer))
  }

  lemma {:induction false} FreshConcat(a: seq<Join>, b: seq<Join>, lo: nat, mid: nat, hi: nat)
    requires FreshColumns(a, lo, mid) && FreshColumns(b, mid, hi)
    ensures FreshColumns(a + b, lo, hi)
  {}

  lemma {:induction false} WalkIsFresh(e: SExpr, conjunctive: bool, next: nat)
    requires Reachable(e)
    ensures FreshColumns(Walk(e, conjunctive, next).joins, next, Walk(e, conjunctive, next).next)
  {
    if Replaced(e, conjunctive, next).None? {
      match e
      case BinaryOf(op, l, r) =>
        var deeper := conjunctive && op == And;
        var wl := Walk(l, deeper, next);
        WalkIsFresh(l, deeper, next);
        WalkIsFresh(r, deeper, wl.next);
        FreshConcat(wl.joins, Walk(r, deeper, wl.next).joins, next, wl.next, Walk(r, deeper, wl.next).next);
      case UnaryOf(op, o) =>
        WalkIsFresh(o, false, next);
      case CaseOf(branches) =>
        BranchesAreFresh(branches, next);
      case BetweenOf(x, lo, hi, negated) =>
        var wx := Walk(x, false, next);
        var wlo := Walk(lo, false, wx.next);
        var whi := Walk(hi, false, wlo.next);
        WalkIsFresh(x, false, next);
        WalkIsFresh(lo, false, wx.next);
        WalkIsFresh(hi, false, wlo.next);
        FreshConcat(wx.joins, wlo.joins, next, wx.next, wlo.next);
        FreshConcat(wx.joins + wlo.joins, whi.joins, next, wlo.next, whi.next);
      case _ =>
    }
  }

  lemma {:induction false} BranchesAreFresh(b: Branches, next: nat)
    requires BranchesReachable(b)
    ensures FreshColumns(WalkBranches(b, next).1, next, WalkBranches(b, next).2)
  {
    match b
    case Otherwise(r) => WalkIsFresh(r, false, next);
    case When(c, r, rest) =>
      var wc := Walk(c, false, next);
      var wr := Walk(r, false, wc.next);
      var ws := WalkBranches(rest, wr.next);
      WalkIsFresh(c, false, next);
      WalkIsFresh(r, false, wc.next);
      BranchesAreFresh(rest, wr.next);
      FreshConcat(wc.joins, wr.joins, next, wc.next, wr.next);
      FreshConcat(wc.joins + wr.joins, ws.1, next, wr.next, ws.2);
  }

  /** What a join puts into its column when marks are never unknown without need. */
  function JoinValue(env: Env, j: Join): Value {
    match j
    case MarkExists(_, q) => Bool(RowsOf(env, q) != [])
    case MarkAny(_, x, op, q) => AnyValue(env.host, op, OuterValue(env, x), RowsOf(env, q))
    case AddScalar(_, q) => FirstOrNull(RowsOf(env, q))
    case _ => Null
  }

  function ColumnValue(env: Env, joins: seq<Join>, column: nat): Value {
    if joins == [] then Null
    else if AddsColumn(joins[0]) && joins[0].column == column then JoinValue(env, joins[0])
    else ColumnValue(env, joins[1..], column)
  }

  lemma {:induction false} ColumnValueAt(env: Env, joins: seq<Join>, lo: nat, hi: nat, i: nat)
    requires FreshColumns(joins, lo, hi) && i < |joins| && AddsColumn(joins[i])
    ensures ColumnValue(env, joins, joins[i].column) == JoinValue(env, joins[i])
  {
    if i > 0 {
      assert forall k :: 0 <= k < |joins[1..]| ==> joins[1..][k] == joins[k + 1];
      ColumnValueAt(env, joins[1..], lo, hi, i - 1);
    }
  }

  lemma {:induction false} PlainIgnoresHoisted(env: Env, hoisted: nat -> Value, e: SExpr)
    requires Plain(e)
    ensures Eval(env, hoisted, e) == OuterValue(env, e)
  {
    match e
    case BinaryOf(_, l, r) =>
      PlainIgnoresHoisted(env, hoisted, l);
      PlainIgnoresHoisted(env, hoisted, r);
    case UnaryOf(_, o) => PlainIgnoresHoisted(env, hoisted, o);
    case Coalesce(x, _) => PlainIgnoresHoisted(env, hoisted, x);
    case _ =>
  }

  /** The joins can always be carried out: no two of them fight over a column. */
  lemma {:induction false} JoinsCanRun(env: Env, e: SExpr, conjunctive: bool, next: nat) returns (hoisted: nat -> Value)
    requires Reachable(e)
    ensures AllFit(env, hoisted, Walk(e, conjunctive, next).joins)
  {
    var w := Walk(e, conjunctive, next);
    WalkIsFresh(e, conjunctive, next);
    hoisted := (c: nat) => ColumnValue(env, w.joins, c);
    forall i | 0 <= i < |w.joins| ensures Fits(env, hoisted, w.joins[i]) {
      var j := w.joins[i];
      if AddsColumn(j) { ColumnValueAt(env, w.joins, next, w.next, i); }
      if j.MarkAny? { PlainIgnoresHoisted(env, hoisted, j.outer); }
    }
  }
}
