/** Hash keys and residual of a join condition: src/execution/join-utils.ts. Names are taken as upper-cased. */
module JoinKeys {
  import opened Wrappers
  import opened SqlValues
  import opened RowEval
  import opened Conjuncts

  /** Column positions of one input by qualified and by bare name. */
  datatype Mapping = Mapping(qualified: map<(string, string), nat>, bare: map<string, nat>)

  predicate HasQualified(m: Mapping, c: ColumnRef) {
    (c.tableAlias, c.columnName) in m.qualified
  }

  predicate HasColumn(m: Mapping, c: ColumnRef) {
    HasQualified(m, c) || c.columnName in m.bare
  }

  /** The position a key column is read from in one input. */
  function Lookup(m: Mapping, c: ColumnRef): nat
    requires HasColumn(m, c)
  {
    if HasQualified(m, c) then m.qualified[(c.tableAlias, c.columnName)] else m.bare[c.columnName]
  }

  datatype KeyPair = KeyPair(buildKey: ColumnRef, probeKey: ColumnRef)

  function OrientedPair(l: ColumnRef, r: ColumnRef, left: Mapping, right: Mapping,
                        has: (Mapping, ColumnRef) -> bool): Option<KeyPair> {
    if has(left, l) && has(right, r) then Some(KeyPair(l, r))
    else if has(left, r) && has(right, l) then Some(KeyPair(r, l))
    else None
  }

  function SplitSides(l: ColumnRef, r: ColumnRef, left: Mapping, right: Mapping): Option<KeyPair> {
    var qualified := OrientedPair(l, r, left, right, HasQualified);
    if qualified.Some? then qualified else OrientedPair(l, r, left, right, HasColumn)
  }

  predicate ColumnEquality(e: Expr) {
    e.Binary? && e.bop == Compare(Eq) && e.left.Column? && e.right.Column?
  }

  function PairOf(e: Expr, left: Mapping, right: Mapping): Option<KeyPair> {
    if ColumnEquality(e) then SplitSides(e.left.ref, e.right.ref, left, right) else None
  }

  predicate SameNames(a: KeyPair, b: KeyPair) {
    && a.buildKey.tableAlias == b.buildKey.tableAlias && a.buildKey.columnName == b.buildKey.columnName
    && a.probeKey.tableAlias == b.probeKey.tableAlias && a.probeKey.columnName == b.probeKey.columnName
  }

  /** A key pair every way of making the condition true must match. */
  function CommonKeys(e: Expr, left: Mapping, right: Mapping): Option<KeyPair> {
    if e.Binary? && e.bop == Or then
      var l, r := CommonKeys(e.left, left, right), CommonKeys(e.right, left, right);
      if l.Some? && r.Some? && SameNames(l.value, r.value) then l else None
    else if e.Binary? && e.bop == And then
      var l := CommonKeys(e.left, left, right);
      if l.Some? then l else CommonKeys(e.right, left, right)
    else PairOf(e, left, right)
  }

  /** The extracted keys; no pair stands for the constant key that matches any two rows. */
  datatype Extracted = Extracted(pairs: seq<KeyPair>, residual: Option<Expr>)

  function PairsOf(es: seq<Expr>, left: Mapping, right: Mapping): seq<KeyPair> {
    if es == [] then []
    else
      var p := PairOf(es[|es| - 1], left, right);
      PairsOf(es[..|es| - 1], left, right) + if p.Some? then [p.value] else []
  }

  function ResidualsOf(es: seq<Expr>, left: Mapping, right: Mapping): seq<Expr> {
    if es == [] then []
    else
      var e := es[|es| - 1];
      ResidualsOf(es[..|es| - 1], left, right) + if PairOf(e, left, right).Some? then [] else [e]
  }

  function KeysOf(condition: Expr, left: Mapping, right: Mapping): Extracted {
    var es := ConjunctsOf(condition);
    var pairs := PairsOf(es, left, right);
    if pairs != [] then Extracted(pairs, CombineConjuncts(ResidualsOf(es, left, right)))
    else
      var common := CommonKeys(condition, left, right);
      if common.Some? then Extracted([common.value], Some(condition))
      else Extracted([], CombineConjuncts(ResidualsOf(es, left, right)))
  }

  method ExtractJoinKeys(condition: Option<Expr>, left: Mapping, right: Mapping) returns (keys: Extracted)
    ensures keys == if condition.None? then Extracted([], None) else KeysOf(condition.value, left, right)
  {
    if condition.None? { return Extracted([], None); }
    var pairs, residuals := [], [];
    var preds := SplitConjuncts(condition);
    for i := 0 to |preds|
      invariant pairs == PairsOf(preds[..i], left, right) && residuals == ResidualsOf(preds[..i], left, right)
    {
      assert preds[..i + 1][..i] == preds[..i];
      var pair := PairOf(preds[i], left, right);
      if pair.Some? {
        pairs := pairs + [pair.value];
      } else {
        residuals := residuals + [preds[i]];
      }
    }
    assert preds[..|preds|] == preds;
    if |pairs| == 0 {
      var common := CommonKeys(condition.value, left, right);
      if common.Some? {
        pairs := [common.value];
        residuals := [condition.value];
      }
    }
    keys := Extracted(pairs, CombineConjuncts(residuals));
  }

  // ---------- what it means ----------

  datatype Side = LeftInput | RightInput | Unclear

  /** The input a reference belongs to: the one that has its qualified name, else the one that has its bare name. */
  function Owner(left: Mapping, right: Mapping, c: ColumnRef): Side {
    if HasQualified(left, c) != HasQualified(right, c) then (if HasQualified(left, c) then LeftInput else RightInput)
    else if !HasQualified(left, c) && HasColumn(left, c) != HasColumn(right, c)
      then (if HasColumn(left, c) then LeftInput else RightInput)
    else Unclear
  }

  /** On the combined row a reference reads the column of the input it belongs to. */
  ghost predicate Binds(bind: ColumnRef -> nat, left: Mapping, right: Mapping, width: nat, c: ColumnRef) {
    match Owner(left, right, c)
    case LeftInput => bind(c) == Lookup(left, c) < width
    case RightInput => bind(c) == width + Lookup(right, c)
    case Unclear => false
  }

  /** Every column of an equality that may become a key belongs to one input. */
  ghost predicate KeysBound(bind: ColumnRef -> nat, left: Mapping, right: Mapping, width: nat, e: Expr) {
    if e.Binary? && (e.bop == And || e.bop == Or) then
      KeysBound(bind, left, right, width, e.left) && KeysBound(bind, left, right, width, e.right)
    else
      ColumnEquality(e) ==> Binds(bind, left, right, width, e.left.ref) && Binds(bind, left, right, width, e.right.ref)
  }

  /** An equality of two columns of one input for which a pair is found all the same, by bare names. */
  predicate Stray(left: Mapping, right: Mapping, e: Expr) {
    ColumnEquality(e) && Owner(left, right, e.left.ref) == Owner(left, right, e.right.ref)
      && PairOf(e, left, right).Some?
  }

  predicate NoStray(left: Mapping, right: Mapping, e: Expr) {
    if e.Binary? && (e.bop == And || e.bop == Or) then NoStray(left, right, e.left) && NoStray(left, right, e.right)
    else !Stray(left, right, e)
  }

  /** Equality of values of different types is identity, as for the keys of a hash join. */
  ghost predicate EqualityIsIdentity(host: Host) {
    forall a, b {:trigger host.coerced(Eq, a, b)} :: !host.coerced(Eq, a, b)
  }

  predicate PairMatches(p: KeyPair, left: Mapping, right: Mapping, l: seq<Value>, r: seq<Value>)
    requires HasColumn(left, p.buildKey) && HasColumn(right, p.probeKey)
  {
    var b, v := ValueAt(l, Lookup(left, p.buildKey)), ValueAt(r, Lookup(right, p.probeKey));
    b != Null && v != Null && b == v
  }

  predicate Sided(left: Mapping, right: Mapping, p: KeyPair) {
    HasColumn(left, p.buildKey) && HasColumn(right, p.probeKey)
  }

  predicate AllMatch(pairs: seq<KeyPair>, left: Mapping, right: Mapping, l: seq<Value>, r: seq<Value>) {
    forall i :: 0 <= i < |pairs| ==> Sided(left, right, pairs[i]) && PairMatches(pairs[i], left, right, l, r)
  }

  lemma {:induction false} PairIsSided(e: Expr, left: Mapping, right: Mapping)
    requires PairOf(e, left, right).Some?
    ensures Sided(left, right, PairOf(e, left, right).value)
  {}

  /** A key pair taken from an equality matches on two rows exactly when the equality is true on their combination. */
  lemma {:induction false} PairIsEquality(host: Host, bind: ColumnRef -> nat, left: Mapping, right: Mapping, e: Expr,
                                          l: seq<Value>, r: seq<Value>)
    requires PairOf(e, left, right).Some? && !Stray(left, right, e) && EqualityIsIdentity(host)
    requires Binds(bind, left, right, |l|, e.left.ref) && Binds(bind, left, right, |l|, e.right.ref)
    ensures PairMatches(PairOf(e, left, right).value, left, right, l, r) <==>
            Evaluate(host, bind, e, l + r) == Bool(true)
    ensures Evaluate(host, bind, e, l + r) == Null || Evaluate(host, bind, e, l + r).Bool?
  {
    var p := PairOf(e, left, right).value;
    assert Owner(left, right, p.buildKey) == LeftInput && Owner(left, right, p.probeKey) == RightInput;
    var a, b := e.left.ref, e.right.ref;
    assert Evaluate(host, bind, e, l + r) == CompareValues(host, Eq, ValueAt(l + r, bind(a)), ValueAt(l + r, bind(b)));
  }

  /** A stray pair is wrong: on some two rows it matches and the equality does not hold, or the other way round. */
  lemma {:induction false} StrayPairIsWrong(host: Host, bind: ColumnRef -> nat, left: Mapping, right: Mapping, e: Expr,
                                            width: nat, more: nat)
      returns (l: seq<Value>, r: seq<Value>)
    requires Stray(left, right, e)
    requires Binds(bind, left, right, width, e.left.ref) && Binds(bind, left, right, width, e.right.ref)
    requires forall c :: HasColumn(left, c) ==> Lookup(left, c) < width
    requires forall c :: HasColumn(right, c) ==> Lookup(right, c) < more
    ensures |l| == width && |r| == more && Sided(left, right, PairOf(e, left, right).value)
    ensures PairMatches(PairOf(e, left, right).value, left, right, l, r)
            != (Evaluate(host, bind, e, l + r) == Bool(true))
  {
    l, r := seq(width, _ => Num(1.0)), seq(more, _ => Num(2.0));
    var a, b := e.left.ref, e.right.ref;
    assert Evaluate(host, bind, e, l + r) == CompareValues(host, Eq, ValueAt(l + r, bind(a)), ValueAt(l + r, bind(b)));
    if Owner(left, right, a) == LeftInput {
      assert ValueAt(l + r, bind(a)) == Num(1.0) == ValueAt(l + r, bind(b));
    } else {
      assert ValueAt(l + r, bind(a)) == Num(2.0) == ValueAt(l + r, bind(b));
    }
  }

  /** Column positions inside inputs of given widths. */
  ghost predicate Inside(left: Mapping, right: Mapping, width: nat, more: nat) {
    && (forall c :: HasColumn(left, c) ==> Lookup(left, c) < width)
    && (forall c :: HasColumn(right, c) ==> Lookup(right, c) < more)
  }

  /** A pair stands for its equality on all rows exactly when it is not a stray one. */
  lemma {:induction false} PairExact(host: Host, bind: ColumnRef -> nat, left: Mapping, right: Mapping, e: Expr,
                                     width: nat, more: nat)
    requires PairOf(e, left, right).Some? && EqualityIsIdentity(host) && Inside(left, right, width, more)
    requires Binds(bind, left, right, width, e.left.ref) && Binds(bind, left, right, width, e.right.ref)
    ensures (forall l, r :: |l| == width && |r| == more ==>
               (PairMatches(PairOf(e, left, right).value, left, right, l, r) <==>
                 Evaluate(host, bind, e, l + r) == Bool(true)))
       <==> !Stray(left, right, e)
  {
    if Stray(left, right, e) {
      var l, r := StrayPairIsWrong(host, bind, left, right, e, width, more);
    } else {
      forall l, r | |l| == width && |r| == more
        ensures PairMatches(PairOf(e, left, right).value, left, right, l, r) <==>
                Evaluate(host, bind, e, l + r) == Bool(true)
      {
        PairIsEquality(host, bind, left, right, e, l, r);
      }
    }
  }

  /** A stray pair is within reach: A has columns X and Y, B has a column Y, and the condition is A.X = A.Y. */
  lemma {:induction false} StrayIsReached() returns (left: Mapping, right: Mapping, e: Expr, bind: ColumnRef -> nat)
    ensures Stray(left, right, e) && Inside(left, right, 2, 1)
    ensures e == Binary(Compare(Eq), Column(ColumnRef("A", "X", 0)), Column(ColumnRef("A", "Y", 0)))
    ensures Binds(bind, left, right, 2, e.left.ref) && Binds(bind, left, right, 2, e.right.ref)
  {
    var x, y := ColumnRef("A", "X", 0), ColumnRef("A", "Y", 0);
    left := Mapping(map[("A", "X") := 0, ("A", "Y") := 1], map["X" := 0, "Y" := 1]);
    right := Mapping(map[("B", "Y") := 0], map["Y" := 0]);
    e := Binary(Compare(Eq), Column(x), Column(y));
    bind := (c: ColumnRef) => if c == x then 0 else 1;
    assert "A" != "B" && "X" != "Y";
    assert PairOf(e, left, right) == Some(KeyPair(x, y));
  }

  // ---------- the whole condition ----------

  /** The parts of a condition joined by AND and OR are conditions. */
  ghost predicate Conditional(host: Host, bind: ColumnRef -> nat, e: Expr, row: seq<Value>) {
    if e.Binary? && (e.bop == And || e.bop == Or) then Conditional(host, bind, e.left, row)
      && Conditional(host, bind, e.right, row)
    else Evaluate(host, bind, e, row) == Null || Evaluate(host, bind, e, row).Bool?
  }

  lemma {:induction false} ConditionalValue(host: Host, bind: ColumnRef -> nat, e: Expr, row: seq<Value>)
    requires Conditional(host, bind, e, row)
    ensures Evaluate(host, bind, e, row) == Null || Evaluate(host, bind, e, row).Bool?
  {}

  predicate IsTrue(host: Host, bind: ColumnRef -> nat, e: Expr, row: seq<Value>) {
    Evaluate(host, bind, e, row) == Bool(true)
  }

  ghost predicate AllTrue(host: Host, bind: ColumnRef -> nat, es: seq<Expr>, row: seq<Value>) {
    forall i :: 0 <= i < |es| ==> IsTrue(host, bind, es[i], row)
  }

  /** What the row pair and the condition must satisfy. */
  ghost predicate Wellformed(host: Host, bind: ColumnRef -> nat, left: Mapping, right: Mapping, e: Expr, l: seq<Value>,
                             r: seq<Value>) {
    KeysBound(bind, left, right, |l|, e) && NoStray(left, right, e) && Conditional(host, bind, e, l + r)
  }

  ghost predicate AllWellformed(host: Host, bind: ColumnRef -> nat, left: Mapping, right: Mapping, es: seq<Expr>,
                                l: seq<Value>, r: seq<Value>) {
    forall i :: 0 <= i < |es| ==> Wellformed(host, bind, left, right, es[i], l, r)
  }

  lemma {:induction false} ConjunctsInherit(host: Host, bind: ColumnRef -> nat, left: Mapping, right: Mapping, e: Expr,
                                            l: seq<Value>, r: seq<Value>)
    requires Wellformed(host, bind, left, right, e, l, r)
    ensures AllWellformed(host, bind, left, right, ConjunctsOf(e), l, r)
    ensures forall i :: 0 <= i < |ConjunctsOf(e)| ==> !IsConjunction(ConjunctsOf(e)[i])
    ensures IsTrue(host, bind, e, l + r) <==> AllTrue(host, bind, ConjunctsOf(e), l + r)
  {
    if IsConjunction(e) {
      var cl, cr := ConjunctsOf(e.left), ConjunctsOf(e.right);
      ConjunctsInherit(host, bind, left, right, e.left, l, r);
      ConjunctsInherit(host, bind, left, right, e.right, l, r);
      ConditionalValue(host, bind, e.left, l + r);
      ConditionalValue(host, bind, e.right, l + r);
      assert forall i :: 0 <= i < |cl| ==> (cl + cr)[i] == cl[i];
      assert forall i :: 0 <= i < |cr| ==> (cl + cr)[|cl| + i] == cr[i];
    } else {
      assert ConjunctsOf(e)[0] == e;
    }
  }

  /** The conjuncts are true exactly when the key pairs match and the other conjuncts are true. */
  lemma {:induction false} PairsAndResiduals(host: Host, bind: ColumnRef -> nat, left: Mapping, right: Mapping,
                                             es: seq<Expr>, l: seq<Value>, r: seq<Value>)
    requires AllWellformed(host, bind, left, right, es, l, r) && EqualityIsIdentity(host)
    ensures AllTrue(host, bind, es, l + r) <==>
      AllMatch(PairsOf(es, left, right), left, right, l, r) && AllTrue(host, bind, ResidualsOf(es, left, right), l + r)
  {
    if es != [] {
      var front, e := es[..|es| - 1], es[|es| - 1];
      PairsAndResiduals(host, bind, left, right, front, l, r);
      assert Wellformed(host, bind, left, right, e, l, r);
      AllTrueAppend(host, bind, front, e, l + r);
      assert es == front + [e];
      if PairOf(e, left, right).Some? {
        PairIsSided(e, left, right);
        PairIsEquality(host, bind, left, right, e, l, r);
        AllMatchAppend(PairsOf(front, left, right), PairOf(e, left, right).value, left, right, l, r);
        assert ResidualsOf(es, left, right) == ResidualsOf(front, left, right);
      } else {
        AllTrueAppend(host, bind, ResidualsOf(front, left, right), e, l + r);
        assert PairsOf(es, left, right) == PairsOf(front, left, right);
      }
    }
  }

  lemma {:induction false} AllTrueAppend(host: Host, bind: ColumnRef -> nat, es: seq<Expr>, e: Expr, row: seq<Value>)
    ensures AllTrue(host, bind, es + [e], row) <==> AllTrue(host, bind, es, row) && IsTrue(host, bind, e, row)
  {
    assert (es + [e])[|es|] == e;
    assert forall i :: 0 <= i < |es| ==> (es + [e])[i] == es[i];
  }

  lemma {:induction false} AllMatchAppend(ps: seq<KeyPair>, p: KeyPair, left: Mapping, right: Mapping, l: seq<Value>,
                                          r: seq<Value>)
    requires Sided(left, right, p)
    ensures AllMatch(ps + [p], left, right, l, r) <==>
            AllMatch(ps, left, right, l, r) && PairMatches(p, left, right, l, r)
  {
    assert (ps + [p])[|ps|] == p;
    assert forall i :: 0 <= i < |ps| ==> (ps + [p])[i] == ps[i];
  }

  /** Conjuncts under AND are true together. */
  lemma {:induction false} CombinedTrue(host: Host, bind: ColumnRef -> nat, left: Mapping, right: Mapping,
                                        es: seq<Expr>, e: Expr, l: seq<Value>, r: seq<Value>)
    requires CombineConjuncts(es) == Some(e) && AllWellformed(host, bind, left, right, es, l, r)
    ensures Conditional(host, bind, e, l + r)
    ensures IsTrue(host, bind, e, l + r) <==> AllTrue(host, bind, es, l + r)
  {
    var front, last := es[..|es| - 1], es[|es| - 1];
    assert Wellformed(host, bind, left, right, last, l, r);
    assert es == front + [last];
    AllTrueAppend(host, bind, front, last, l + r);
    if |es| > 1 {
      var f := CombineConjuncts(front).value;
      CombinedTrue(host, bind, left, right, front, f, l, r);
      BothTrue(host, bind, f, last, l + r);
    } else {
      assert front == [];
    }
  }

  lemma {:induction false} BothTrue(host: Host, bind: ColumnRef -> nat, a: Expr, b: Expr, row: seq<Value>)
    requires Conditional(host, bind, a, row) && Conditional(host, bind, b, row)
    ensures Conditional(host, bind, Binary(And, a, b), row)
    ensures IsTrue(host, bind, Binary(And, a, b), row) <==> IsTrue(host, bind, a, row) && IsTrue(host, bind, b, row)
  {
    ConditionalValue(host, bind, a, row);
    ConditionalValue(host, bind, b, row);
  }

  lemma {:induction false} ResidualsWellformed(host: Host, bind: ColumnRef -> nat, left: Mapping, right: Mapping,
                                               es: seq<Expr>, l: seq<Value>, r: seq<Value>)
    requires AllWellformed(host, bind, left, right, es, l, r)
    ensures AllWellformed(host, bind, left, right, ResidualsOf(es, left, right), l, r)
  {
    if es != [] {
      assert Wellformed(host, bind, left, right, es[|es| - 1], l, r);
      ResidualsWellformed(host, bind, left, right, es[..|es| - 1], l, r);
    }
  }

  /** A common key matches whenever the condition is true. */
  lemma {:induction false} CommonKeyMatches(host: Host, bind: ColumnRef -> nat, left: Mapping, right: Mapping, e: Expr,
                                            l: seq<Value>, r: seq<Value>)
    requires Wellformed(host, bind, left, right, e, l, r) && EqualityIsIdentity(host)
    requires CommonKeys(e, left, right).Some?
    ensures Sided(left, right, CommonKeys(e, left, right).value)
    ensures IsTrue(host, bind, e, l + r) ==> PairMatches(CommonKeys(e, left, right).value, left, right, l, r)
  {
    if e.Binary? && (e.bop == And || e.bop == Or) {
      ConditionalValue(host, bind, e.left, l + r);
      ConditionalValue(host, bind, e.right, l + r);
      if CommonKeys(e.left, left, right).Some? { CommonKeyMatches(host, bind, left, right, e.left, l, r); }
      if CommonKeys(e.right, left, right).Some? { CommonKeyMatches(host, bind, left, right, e.right, l, r); }
    } else {
      PairIsEquality(host, bind, left, right, e, l, r);
    }
  }

  predicate Passes(host: Host, bind: ColumnRef -> nat, residual: Option<Expr>, row: seq<Value>) {
    residual.None? || Truthy(Evaluate(host, bind, residual.value, row))
  }

  lemma {:induction false} ResidualPasses(host: Host, bind: ColumnRef -> nat, left: Mapping, right: Mapping,
                                          es: seq<Expr>, l: seq<Value>, r: seq<Value>)
    requires AllWellformed(host, bind, left, right, es, l, r)
    ensures Passes(host, bind, CombineConjuncts(es), l + r) <==> AllTrue(host, bind, es, l + r)
  {
    if es != [] {
      var e := CombineConjuncts(es).value;
      CombinedTrue(host, bind, left, right, es, e, l, r);
      ConditionalValue(host, bind, e, l + r);
    }
  }

  lemma {:induction false} OneMatches(p: KeyPair, left: Mapping, right: Mapping, l: seq<Value>, r: seq<Value>)
    requires Sided(left, right, p)
    ensures AllMatch([p], left, right, l, r) <==> PairMatches(p, left, right, l, r)
  {
    AllMatchAppend([], p, left, right, l, r);
    assert [] + [p] == [p];
  }

  /** The join condition is true on two rows exactly when all extracted key pairs are non-null and equal and the
      residual, if any, is true: with pairs from the conjuncts, with a key common to the branches of an OR, and with
      the constant key. */
  lemma {:induction false} JoinKeysExact(host: Host, bind: ColumnRef -> nat, left: Mapping, right: Mapping, e: Expr,
                                         l: seq<Value>, r: seq<Value>)
    requires Wellformed(host, bind, left, right, e, l, r) && EqualityIsIdentity(host)
    ensures var keys := KeysOf(e, left, right);
      AllMatch(keys.pairs, left, right, l, r) && Passes(host, bind, keys.residual, l + r) <==>
        Truthy(Evaluate(host, bind, e, l + r))
  {
    var es := ConjunctsOf(e);
    ConjunctsInherit(host, bind, left, right, e, l, r);
    ConditionalValue(host, bind, e, l + r);
    PairsAndResiduals(host, bind, left, right, es, l, r);
    ResidualsWellformed(host, bind, left, right, es, l, r);
    ResidualPasses(host, bind, left, right, ResidualsOf(es, left, right), l, r);
    if PairsOf(es, left, right) == [] && CommonKeys(e, left, right).Some? {
      CommonKeyMatches(host, bind, left, right, e, l, r);
      OneMatches(CommonKeys(e, left, right).value, left, right, l, r);
    }
  }

  // ---------- what must become a key ----------

  /** No alternative: the condition holds only if all its conjuncts do. */
  predicate OrFree(e: Expr) {
    if e.Binary? && e.bop == And then OrFree(e.left) && OrFree(e.right) else !(e.Binary? && e.bop == Or)
  }

  lemma {:induction false} PairsConcat(a: seq<Expr>, b: seq<Expr>, left: Mapping, right: Mapping)
    ensures PairsOf(a + b, left, right) == PairsOf(a, left, right) + PairsOf(b, left, right)
  {
    if b == [] {
      assert a + b == a;
    } else {
      assert (a + b)[..|a + b| - 1] == a + b[..|b| - 1];
      PairsConcat(a, b[..|b| - 1], left, right);
    }
  }

  /** The key common to all branches of a branchless condition is that of its first equality of two inputs. */
  lemma {:induction false} CommonIsFirst(e: Expr, left: Mapping, right: Mapping)
    requires OrFree(e)
    ensures var pairs := PairsOf(ConjunctsOf(e), left, right);
      CommonKeys(e, left, right) == if pairs == [] then None else Some(pairs[0])
  {
    if e.Binary? && e.bop == And {
      CommonIsFirst(e.left, left, right);
      CommonIsFirst(e.right, left, right);
      PairsConcat(ConjunctsOf(e.left), ConjunctsOf(e.right), left, right);
    } else {
      assert ConjunctsOf(e) == [e] && [e][..0] == [];
    }
  }

  /** Two branches that start from the same equality share its key; the whole condition stays behind as the residual. */
  lemma {:induction false} CommonKeyFound(a: Expr, b: Expr, left: Mapping, right: Mapping)
    requires OrFree(a) && PairsOf(ConjunctsOf(a), left, right) != []
    requires OrFree(b) && PairsOf(ConjunctsOf(b), left, right) != []
    requires SameNames(PairsOf(ConjunctsOf(a), left, right)[0], PairsOf(ConjunctsOf(b), left, right)[0])
    ensures KeysOf(Binary(Or, a, b), left, right)
         == Extracted([PairsOf(ConjunctsOf(a), left, right)[0]], Some(Binary(Or, a, b)))
  {
    var e := Binary(Or, a, b);
    CommonIsFirst(a, left, right);
    CommonIsFirst(b, left, right);
    assert ConjunctsOf(e) == [e] && [e][..0] == [] && PairOf(e, left, right).None?;
    assert PairsOf([e], left, right) == [];
    assert CommonKeys(e, left, right) == CommonKeys(a, left, right);
  }
}
