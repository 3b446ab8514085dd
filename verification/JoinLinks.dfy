/** Join conditions made of column equalities, stray ones included: when their key pairs stand for them on all rows. */
module JoinLinks {
  import opened SqlValues
  import opened RowEval
  import opened Conjuncts
  import opened JoinKeys

  /** Two positions of the combined row that are to be equal. */
  type Link = (nat, nat)

  predicate Holds(row: seq<Value>, link: Link) {
    var a, b := ValueAt(row, link.0), ValueAt(row, link.1);
    a != Null && b != Null && a == b
  }

  predicate AllHold(row: seq<Value>, links: seq<Link>) {
    forall i :: 0 <= i < |links| ==> Holds(row, links[i])
  }

  predicate Linked(links: seq<Link>, x: nat, y: nat) {
    (x, y) in links || (y, x) in links
  }

  predicate Path(links: seq<Link>, path: seq<nat>) {
    path != [] && forall i :: 0 <= i < |path| - 1 ==> Linked(links, path[i], path[i + 1])
  }

  ghost predicate Connected(links: seq<Link>, x: nat, y: nat) {
    exists path {:trigger Path(links, path)} :: Path(links, path) && path[0] == x && path[|path| - 1] == y
  }

  predicate Touched(links: seq<Link>, x: nat) {
    exists i :: 0 <= i < |links| && (links[i].0 == x || links[i].1 == x)
  }

  /** Every link of b joins positions that the links of a connect and demand to be non-null. */
  ghost predicate Forces(a: seq<Link>, b: seq<Link>) {
    forall i :: 0 <= i < |b| ==> Touched(a, b[i].0) && Connected(a, b[i].0, b[i].1)
  }

  predicate Within(links: seq<Link>, width: nat) {
    forall i :: 0 <= i < |links| ==> links[i].0 < width && links[i].1 < width
  }

  lemma {:induction false} PathHolds(row: seq<Value>, links: seq<Link>, path: seq<nat>, n: nat)
    requires AllHold(row, links) && Path(links, path) && n < |path|
    ensures ValueAt(row, path[n]) == ValueAt(row, path[0])
  {
    if n > 0 {
      PathHolds(row, links, path, n - 1);
      assert Linked(links, path[n - 1], path[n]);
    }
  }

  lemma {:induction false} ForcedHolds(row: seq<Value>, a: seq<Link>, b: seq<Link>)
    requires AllHold(row, a) && Forces(a, b)
    ensures AllHold(row, b)
  {
    forall i | 0 <= i < |b| ensures Holds(row, b[i]) {
      var path :| Path(a, path) && path[0] == b[i].0 && path[|path| - 1] == b[i].1;
      PathHolds(row, a, path, |path| - 1);
      var j :| 0 <= j < |a| && (a[j].0 == b[i].0 || a[j].1 == b[i].0);
      assert Holds(row, a[j]);
    }
  }

  lemma {:induction false} OneLinkFurther(links: seq<Link>, x: nat, y: nat, z: nat)
    requires Connected(links, x, y) && Linked(links, y, z)
    ensures Connected(links, x, z)
  {
    var path :| Path(links, path) && path[0] == x && path[|path| - 1] == y;
    var further := path + [z];
    assert Path(links, further) && further[0] == x && further[|further| - 1] == z;
  }

  /** A row on which exactly the positions connected to x have the value 1. */
  lemma {:induction false} Apart(a: seq<Link>, x: nat, y: nat, width: nat) returns (row: seq<Value>)
    requires Within(a, width) && x < width && y < width && !Connected(a, x, y)
    ensures |row| == width && AllHold(row, a) && !Holds(row, (x, y))
  {
    row := seq(width, k requires 0 <= k < width => if Connected(a, x, k) then Num(1.0) else Num(2.0));
    forall i | 0 <= i < |a| ensures Holds(row, a[i]) {
      var u, v := a[i].0, a[i].1;
      assert a[i] == (u, v) && Linked(a, u, v) && Linked(a, v, u);
      if Connected(a, x, u) { OneLinkFurther(a, x, u, v); }
      if Connected(a, x, v) { OneLinkFurther(a, x, v, u); }
    }
    assert Path(a, [x]) && [x][0] == x;
    assert Connected(a, x, x);
  }

  lemma {:induction false} Untouched(a: seq<Link>, x: nat, y: nat, width: nat) returns (row: seq<Value>)
    requires Within(a, width) && x < width && !Touched(a, x)
    ensures |row| == width && AllHold(row, a) && !Holds(row, (x, y))
  {
    row := seq(width, k => if k == x then Null else Num(1.0));
  }

  /** One set of links implies another on all rows exactly when it forces it. */
  lemma {:induction false} ForcesExact(a: seq<Link>, b: seq<Link>, width: nat)
    requires Within(a, width) && Within(b, width)
    ensures (forall row :: |row| == width && AllHold(row, a) ==> AllHold(row, b)) <==> Forces(a, b)
  {
    if Forces(a, b) {
      forall row | |row| == width && AllHold(row, a) ensures AllHold(row, b) { ForcedHolds(row, a, b); }
    } else {
      var i :| 0 <= i < |b| && !(Touched(a, b[i].0) && Connected(a, b[i].0, b[i].1));
      var row: seq<Value>;
      if Touched(a, b[i].0) {
        row := Apart(a, b[i].0, b[i].1, width);
      } else {
        row := Untouched(a, b[i].0, b[i].1, width);
      }
      assert b[i] == (b[i].0, b[i].1) && !AllHold(row, b);
    }
  }

  // ---------- conditions ----------

  /** Every conjunct is a column equality that yields a key pair. */
  predicate OnlyKeys(es: seq<Expr>, left: Mapping, right: Mapping) {
    forall i :: 0 <= i < |es| ==> PairOf(es[i], left, right).Some?
  }

  predicate OnlyEqualities(es: seq<Expr>) {
    forall i :: 0 <= i < |es| ==> ColumnEquality(es[i])
  }

  function EqualityLink(e: Expr, bind: ColumnRef -> nat): Link
    requires ColumnEquality(e)
  {
    (bind(e.left.ref), bind(e.right.ref))
  }

  /** What the conjuncts say, and what their key pairs say. */
  function EqualityLinks(es: seq<Expr>, bind: ColumnRef -> nat): (links: seq<Link>)
    requires OnlyEqualities(es)
    ensures |links| == |es| && forall i :: 0 <= i < |es| ==> links[i] == EqualityLink(es[i], bind)
  {
    seq(|es|, i requires 0 <= i < |es| => EqualityLink(es[i], bind))
  }

  function PairLink(p: KeyPair, left: Mapping, right: Mapping, width: nat): Link
    requires Sided(left, right, p)
  {
    (Lookup(left, p.buildKey), width + Lookup(right, p.probeKey))
  }

  function PairLinks(es: seq<Expr>, left: Mapping, right: Mapping, width: nat): (links: seq<Link>)
    requires OnlyKeys(es, left, right)
    ensures |links| == |es|
    ensures forall i :: 0 <= i < |es| ==> links[i] == PairLink(PairOf(es[i], left, right).value, left, right, width)
  {
    seq(|es|, i requires 0 <= i < |es| => PairLink(PairOf(es[i], left, right).value, left, right, width))
  }

  lemma {:induction false} AllArePairs(es: seq<Expr>, left: Mapping, right: Mapping)
    requires OnlyKeys(es, left, right)
    ensures |PairsOf(es, left, right)| == |es| && ResidualsOf(es, left, right) == []
    ensures forall i :: 0 <= i < |es| ==> PairsOf(es, left, right)[i] == PairOf(es[i], left, right).value
  {
    if es != [] { AllArePairs(es[..|es| - 1], left, right); }
  }

  lemma {:induction false} ConjunctsNotEmpty(e: Expr)
    ensures ConjunctsOf(e) != []
  {
    if IsConjunction(e) { ConjunctsNotEmpty(e.left); }
  }

  /** The keys of such a condition are its pairs, without a residual. */
  lemma {:induction false} KeysArePairs(e: Expr, left: Mapping, right: Mapping)
    requires OnlyKeys(ConjunctsOf(e), left, right)
    ensures KeysOf(e, left, right) == Extracted(PairsOf(ConjunctsOf(e), left, right), Wrappers.None)
  {
    AllArePairs(ConjunctsOf(e), left, right);
    ConjunctsNotEmpty(e);
  }

  lemma {:induction false} OneEquality(host: Host, bind: ColumnRef -> nat, e: Expr, row: seq<Value>)
    requires EqualityIsIdentity(host) && ColumnEquality(e)
    ensures Evaluate(host, bind, e, row) == Null || Evaluate(host, bind, e, row).Bool?
    ensures Truthy(Evaluate(host, bind, e, row)) <==> Holds(row, EqualityLink(e, bind))
  {
    var a, b := ValueAt(row, bind(e.left.ref)), ValueAt(row, bind(e.right.ref));
    assert Evaluate(host, bind, e, row) == CompareValues(host, Eq, a, b);
  }

  lemma {:induction false} BothEqualities(a: Value, b: Value)
    requires (a == Null || a.Bool?) && (b == Null || b.Bool?)
    ensures AndValues(a, b) == Null || AndValues(a, b).Bool?
    ensures Truthy(AndValues(a, b)) <==> Truthy(a) && Truthy(b)
  {}

  lemma {:induction false} LinksOfBoth(a: seq<Expr>, b: seq<Expr>, bind: ColumnRef -> nat)
    requires OnlyEqualities(a + b)
    ensures OnlyEqualities(a) && OnlyEqualities(b)
    ensures EqualityLinks(a + b, bind) == EqualityLinks(a, bind) + EqualityLinks(b, bind)
  {
    assert forall i :: 0 <= i < |a| ==> (a + b)[i] == a[i];
    assert forall i :: 0 <= i < |b| ==> (a + b)[|a| + i] == b[i];
  }

  /** The condition is true exactly when its equalities hold. */
  lemma {:induction false} TrueIsLinked(host: Host, bind: ColumnRef -> nat, e: Expr, row: seq<Value>)
    requires EqualityIsIdentity(host) && OnlyEqualities(ConjunctsOf(e))
    ensures Evaluate(host, bind, e, row) == Null || Evaluate(host, bind, e, row).Bool?
    ensures Truthy(Evaluate(host, bind, e, row)) <==> AllHold(row, EqualityLinks(ConjunctsOf(e), bind))
  {
    if IsConjunction(e) {
      var cl, cr := ConjunctsOf(e.left), ConjunctsOf(e.right);
      LinksOfBoth(cl, cr, bind);
      TrueIsLinked(host, bind, e.left, row);
      TrueIsLinked(host, bind, e.right, row);
      HoldSplits(row, EqualityLinks(cl, bind), EqualityLinks(cr, bind));
      BothEqualities(Evaluate(host, bind, e.left, row), Evaluate(host, bind, e.right, row));
    } else {
      assert ConjunctsOf(e) == [e];
      assert ColumnEquality(ConjunctsOf(e)[0]);
      OneEquality(host, bind, e, row);
      assert EqualityLinks([e], bind) == [EqualityLink(e, bind)];
    }
  }

  lemma {:induction false} HoldSplits(row: seq<Value>, a: seq<Link>, b: seq<Link>)
    ensures AllHold(row, a + b) <==> AllHold(row, a) && AllHold(row, b)
  {
    assert forall i :: 0 <= i < |a| ==> (a + b)[i] == a[i];
    assert forall i :: 0 <= i < |b| ==> (a + b)[|a| + i] == b[i];
  }

  lemma {:induction false} MatchIsLinked(es: seq<Expr>, left: Mapping, right: Mapping, l: seq<Value>, r: seq<Value>)
    requires OnlyKeys(es, left, right) && Inside(left, right, |l|, |r|)
    ensures AllMatch(PairsOf(es, left, right), left, right, l, r) <==> AllHold(l + r, PairLinks(es, left, right, |l|))
  {
    AllArePairs(es, left, right);
    var pairs, links := PairsOf(es, left, right), PairLinks(es, left, right, |l|);
    forall i | 0 <= i < |es|
      ensures Sided(left, right, pairs[i]) && (PairMatches(pairs[i], left, right, l, r) <==> Holds(l + r, links[i]))
    {
      PairIsSided(es[i], left, right);
      assert links[i] == PairLink(pairs[i], left, right, |l|);
    }
  }

  /** Two sets of links agree on all pairs of rows exactly when each forces the other. */
  lemma {:induction false} AgreeExact(a: seq<Link>, b: seq<Link>, width: nat, more: nat)
    requires Within(a, width + more) && Within(b, width + more)
    ensures (forall l: seq<Value>, r: seq<Value> {:trigger l + r} :: |l| == width && |r| == more ==>
               (AllHold(l + r, a) <==> AllHold(l + r, b)))
       <==> Forces(a, b) && Forces(b, a)
  {
    ForcesExact(a, b, width + more);
    ForcesExact(b, a, width + more);
    forall row: seq<Value> | |row| == width + more ensures row == row[..width] + row[width..] {}
  }

  lemma {:induction false} KeysAreLinks(host: Host, bind: ColumnRef -> nat, left: Mapping, right: Mapping, e: Expr,
                                        l: seq<Value>, r: seq<Value>)
    requires EqualityIsIdentity(host) && Inside(left, right, |l|, |r|) && OnlyKeys(ConjunctsOf(e), left, right)
    ensures AllMatch(KeysOf(e, left, right).pairs, left, right, l, r)
       <==> AllHold(l + r, PairLinks(ConjunctsOf(e), left, right, |l|))
    ensures Truthy(Evaluate(host, bind, e, l + r)) <==> AllHold(l + r, EqualityLinks(ConjunctsOf(e), bind))
  {
    KeysArePairs(e, left, right);
    MatchIsLinked(ConjunctsOf(e), left, right, l, r);
    TrueIsLinked(host, bind, e, l + r);
  }

  /** A condition made of column equalities, whichever inputs their columns belong to: its key pairs stand for it on
      all rows exactly when equalities and pairs connect the same positions. */
  lemma {:induction false} WholeExact(host: Host, bind: ColumnRef -> nat, left: Mapping, right: Mapping, e: Expr,
                                      width: nat, more: nat)
    requires EqualityIsIdentity(host) && Inside(left, right, width, more) && OnlyKeys(ConjunctsOf(e), left, right)
    requires Within(EqualityLinks(ConjunctsOf(e), bind), width + more)
    ensures KeysOf(e, left, right).residual.None?
    ensures (forall l: seq<Value>, r: seq<Value> {:trigger l + r} :: |l| == width && |r| == more ==>
               (AllMatch(KeysOf(e, left, right).pairs, left, right, l, r) <==> Truthy(Evaluate(host, bind, e, l + r))))
       <==> SameConnections(EqualityLinks(ConjunctsOf(e), bind), PairLinks(ConjunctsOf(e), left, right, width))
  {
    var es := ConjunctsOf(e);
    KeysArePairs(e, left, right);
    PairLinksWithin(es, left, right, width, more);
    AgreeExact(EqualityLinks(es, bind), PairLinks(es, left, right, width), width, more);
    forall l: seq<Value>, r: seq<Value> {:trigger l + r} | |l| == width && |r| == more
      ensures (AllMatch(KeysOf(e, left, right).pairs, left, right, l, r) <==> Truthy(Evaluate(host, bind, e, l + r)))
         <==> (AllHold(l + r, EqualityLinks(es, bind)) <==> AllHold(l + r, PairLinks(es, left, right, width)))
    {
      KeysAreLinks(host, bind, left, right, e, l, r);
    }
  }

  ghost predicate SameConnections(a: seq<Link>, b: seq<Link>) {
    Forces(a, b) && Forces(b, a)
  }

  lemma {:induction false} PairLinksWithin(es: seq<Expr>, left: Mapping, right: Mapping, width: nat, more: nat)
    requires OnlyKeys(es, left, right) && Inside(left, right, width, more)
    ensures Within(PairLinks(es, left, right, width), width + more)
  {
    forall i | 0 <= i < |es| ensures Sided(left, right, PairOf(es[i], left, right).value) {
      PairIsSided(es[i], left, right);
    }
  }
}
