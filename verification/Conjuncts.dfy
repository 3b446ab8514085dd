/** Splitting a condition into conjuncts and putting them together again: src/binder/conjuncts.ts. */
module Conjuncts {
  import opened Wrappers
  import opened SqlValues
  import opened RowEval

  predicate IsConjunction(e: Expr) {
    e.Binary? && e.bop == And
  }

  /** The conjuncts from left to right. */
  function ConjunctsOf(e: Expr): (es: seq<Expr>)
    ensures es != []
  {
    if IsConjunction(e) then ConjunctsOf(e.left) + ConjunctsOf(e.right) else [e]
  }

  /** The conjuncts of a stack of expressions, the top first. */
  function PendingConjuncts(pending: seq<Expr>): seq<Expr> {
    if pending == [] then []
    else ConjunctsOf(pending[|pending| - 1]) + PendingConjuncts(pending[..|pending| - 1])
  }

  function Size(e: Expr): nat {
    if IsConjunction(e) then 1 + Size(e.left) + Size(e.right) else 1
  }

  function PendingSize(pending: seq<Expr>): nat {
    if pending == [] then 0 else Size(pending[|pending| - 1]) + PendingSize(pending[..|pending| - 1])
  }

  lemma {:induction false} PushBoth(pending: seq<Expr>, r: Expr, l: Expr)
    ensures PendingConjuncts(pending + [r, l]) == ConjunctsOf(l) + (ConjunctsOf(r) + PendingConjuncts(pending))
    ensures PendingSize(pending + [r, l]) == Size(l) + Size(r) + PendingSize(pending)
  {
    assert (pending + [r, l])[..|pending| + 1] == pending + [r];
    assert (pending + [r])[..|pending|] == pending;
  }

  method SplitConjuncts(condition: Option<Expr>) returns (conjuncts: seq<Expr>)
    ensures conjuncts == if condition.None? then [] else ConjunctsOf(condition.value)
  {
    conjuncts := [];
    if condition.None? { return; }
    var pending := [condition.value];
    assert PendingConjuncts(pending) == ConjunctsOf(condition.value);
    while |pending| > 0
      invariant conjuncts + PendingConjuncts(pending) == ConjunctsOf(condition.value)
      decreases PendingSize(pending)
    {
      var current := pending[|pending| - 1];
      pending := pending[..|pending| - 1];
      if IsConjunction(current) {
        PushBoth(pending, current.right, current.left);
        pending := pending + [current.right, current.left];
      } else {
        conjuncts := conjuncts + [current];
      }
    }
  }

  /** The conjuncts under AND from the left, none for no conjunct. */
  function CombineConjuncts(es: seq<Expr>): (e: Option<Expr>)
    ensures e.None? <==> es == []
  {
    if es == [] then None
    else if |es| == 1 then Some(es[0])
    else Some(Binary(And, CombineConjuncts(es[..|es| - 1]).value, es[|es| - 1]))
  }

  lemma {:induction false} CombineAppend(host: Host, bind: ColumnRef -> nat, a: seq<Expr>, b: seq<Expr>,
                                         row: seq<Value>)
    requires a != [] && b != []
    ensures Evaluate(host, bind, CombineConjuncts(a + b).value, row)
      == AndValues(Evaluate(host, bind, CombineConjuncts(a).value, row),
        Evaluate(host, bind, CombineConjuncts(b).value, row))
  {
    var last := b[|b| - 1];
    assert (a + b)[..|a + b| - 1] == a + b[..|b| - 1];
    if |b| == 1 {
      assert a + b[..0] == a;
    } else {
      CombineAppend(host, bind, a, b[..|b| - 1], row);
    }
  }

  /** Splitting and recombining keeps the three-valued value on every row. */
  lemma {:induction false} RecombinedValue(host: Host, bind: ColumnRef -> nat, e: Expr, row: seq<Value>)
    ensures Evaluate(host, bind, CombineConjuncts(ConjunctsOf(e)).value, row) == Evaluate(host, bind, e, row)
  {
    if IsConjunction(e) {
      RecombinedValue(host, bind, e.left, row);
      RecombinedValue(host, bind, e.right, row);
      CombineAppend(host, bind, ConjunctsOf(e.left), ConjunctsOf(e.right), row);
    }
  }
}
