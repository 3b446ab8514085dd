/** The predicate compiler over-approximates the row evaluator, and is exact where zone maps can be. */
module ZoneSoundness {
  import opened SqlValues
  import opened RowEval
  import opened ZoneMaps
  import opened ZonePruner

  /** A resolver that finds a column finds the one the evaluator reads. */
  ghost predicate Agrees(resolve: Resolver, bind: ColumnRef -> nat) {
    forall ref :: resolve(ref).Some? ==> resolve(ref).value == bind(ref)
  }

  /** A value is accounted for by its column's zone. */
  ghost predicate InZone(v: Value, z: ColumnZone) {
    if v == Null then z.hasNulls else z.range.Some? && InRange(v, z.range.value)
  }

  lemma {:induction false} RowInZone(chunk: Chunk, zone: ChunkZone, i: nat, c: nat)
    requires ValidChunk(chunk) && SummarizesChunk(zone, chunk) && i < chunk.size && c < |chunk.columns|
    ensures InZone(ActiveRow(chunk, i)[c], zone.columns[c])
  {
    var vs := Active(chunk, c);
    assert vs[i] in vs && Summarizes(zone.columns[c], vs);
  }

  // ---------- the truth-set algebra ----------

  lemma {:induction false} NotAdmits(s: TruthSet, v: Value)
    requires Admits(s, v)
    ensures Admits(KleeneNot(s), NotValue(v))
  {}

  lemma {:induction false} NegatedAdmits(s: TruthSet, v: Value)
    requires Admits(s, v) && (v == Null || v.Bool?)
    ensures Admits(KleeneNot(s), Negated(true, v))
  {}

  lemma {:induction false} AndAdmits(l: TruthSet, r: TruthSet, a: Value, b: Value)
    requires Admits(l, a) && Admits(r, b)
    ensures Admits(KleeneAnd(l, r), AndValues(a, b))
  {}

  lemma {:induction false} OrAdmits(l: TruthSet, r: TruthSet, a: Value, b: Value)
    requires Admits(l, a) && Admits(r, b)
    ensures Admits(KleeneOr(l, r), OrValues(a, b))
  {}

  ghost predicate Inhabited(s: TruthSet) { s.t || s.f || s.u }

  function SomeTruth(s: TruthSet): (v: Value)
    requires Inhabited(s)
    ensures Admits(s, v)
  {
    if s.t then Bool(true) else if s.f then Bool(false) else Null
  }

  /** The conjunction admits nothing that no pair of admitted operands yields ... */
  lemma {:induction false} AndReached(l: TruthSet, r: TruthSet, v: Value) returns (a: Value, b: Value)
    requires Inhabited(l) && Inhabited(r) && (v == Null || v.Bool?) && Admits(KleeneAnd(l, r), v)
    ensures Admits(l, a) && Admits(r, b) && AndValues(a, b) == v
  {
    if v == Bool(true) {
      a, b := v, v;
    } else if v == Bool(false) {
      a, b := if l.f then v else SomeTruth(l), if l.f then SomeTruth(r) else v;
    } else {
      a := if l.u then Null else Bool(true);
      b := if r.u then Null else Bool(true);
    }
  }

  /** ... and neither does the disjunction. */
  lemma {:induction false} OrReached(l: TruthSet, r: TruthSet, v: Value) returns (a: Value, b: Value)
    requires Inhabited(l) && Inhabited(r) && (v == Null || v.Bool?) && Admits(KleeneOr(l, r), v)
    ensures Admits(l, a) && Admits(r, b) && OrValues(a, b) == v
  {
    if v == Bool(false) {
      a, b := v, v;
    } else if v == Bool(true) {
      a, b := if l.t then v else SomeTruth(l), if l.t then SomeTruth(r) else v;
    } else {
      a := if l.u then Null else Bool(false);
      b := if r.u then Null else Bool(false);
    }
  }

  // ---------- leaf rules ----------

  /** Where a value of the range lies relative to a literal, given where the ends lie. */
  lemma {:induction false} RangeRule(op: CompareOp, r: ValueRange, v: Value, literal: Value)
    requires InRange(v, r) && SameType(v, literal)
    ensures CompareComparable(r.min, literal).Some? && CompareComparable(r.max, literal).Some?
    ensures var lo, hi := CompareComparable(r.min, literal).value, CompareComparable(r.max, literal).value;
      if Holds(op, v, literal) then PossiblyTrue(op, lo, hi) else PossiblyFalse(op, lo, hi)
  {
    BeforeTotal(r.min, literal);
    BeforeTotal(r.max, literal);
    BeforeTotal(v, literal);
    BeforeTotal(v, r.min);
    BeforeTotal(v, r.max);
    BeforeChain(r.min, v, literal);
    BeforeChain(literal, r.min, v);
    BeforeChain(v, r.max, literal);
    BeforeChain(literal, v, r.max);
  }

  lemma {:induction false} CompareSound(host: Host, zone: ChunkZone, column: nat, literal: Value, op: CompareOp,
                                        v: Value)
    requires literal != Null && column < |zone.columns| ==> InZone(v, zone.columns[column])
    ensures literal != Null ==> Admits(CompareTruth(zone, column, literal, op), CompareValues(host, op, v, literal))
  {
    if literal != Null && v != Null && column < |zone.columns| {
      var z := zone.columns[column];
      if SameType(v, literal) { RangeRule(op, z.range.value, v, literal); }
    }
  }

  /** A row is accounted for by the zone map, column by column. */
  ghost predicate Covers(zone: ChunkZone, row: seq<Value>) {
    |zone.columns| == |row| && forall c :: 0 <= c < |row| ==> InZone(row[c], zone.columns[c])
  }

  lemma {:induction false} ColumnInZone(zone: ChunkZone, row: seq<Value>, c: nat)
    requires Covers(zone, row)
    ensures c < |zone.columns| ==> InZone(ValueAt(row, c), zone.columns[c])
  {}

  lemma {:induction false} ComparisonSound(host: Host, bind: ColumnRef -> nat, resolve: Resolver, op: CompareOp,
                                           l: Expr, r: Expr,
                                           zone: ChunkZone, row: seq<Value>)
    requires Agrees(resolve, bind) && Covers(zone, row)
    ensures Admits(Run(CompileComparison(op, l, r, resolve), zone),
                   CompareValues(host, op, Evaluate(host, bind, l, row), Evaluate(host, bind, r, row)))
  {
    if ColumnIndexOf(l, resolve).Some? && LiteralOf(r).Some? {
      var c := ColumnIndexOf(l, resolve).value;
      CompareSound(host, zone, c, r.value, op, ValueAt(row, c));
    } else if ColumnIndexOf(r, resolve).Some? && LiteralOf(l).Some? {
      var c := ColumnIndexOf(r, resolve).value;
      var v := ValueAt(row, c);
      CompareSound(host, zone, c, l.value, Flipped(op), v);
      if v != Null && SameType(l.value, v) { FlippedHolds(op, l.value, v); }
    }
  }

  lemma {:induction false} BothAdmit(host: Host, lower: TruthSet, upper: TruthSet, v: Value, lo: Value, hi: Value)
    requires Admits(lower, CompareValues(host, Ge, v, lo)) && Admits(upper, CompareValues(host, Le, v, hi))
    ensures Admits(KleeneAnd(lower, upper), BetweenValues(host, v, lo, hi))
    ensures Admits(KleeneNot(KleeneAnd(lower, upper)), Negated(true, BetweenValues(host, v, lo, hi)))
  {
    var ge, le := CompareValues(host, Ge, v, lo), CompareValues(host, Le, v, hi);
    assert BetweenValues(host, v, lo, hi) == AndValues(ge, le);
    AndAdmits(lower, upper, ge, le);
    NegatedAdmits(KleeneAnd(lower, upper), AndValues(ge, le));
  }

  lemma {:induction false} BetweenSound(host: Host, bind: ColumnRef -> nat, resolve: Resolver, x: Expr, low: Expr,
                                        high: Expr,
                                        negated: bool, zone: ChunkZone, row: seq<Value>)
    requires Agrees(resolve, bind) && Covers(zone, row)
    ensures Admits(Run(CompileBetween(x, low, high, negated, resolve), zone),
                   Evaluate(host, bind, Between(x, low, high, negated), row))
  {
    var v, lo, hi := Evaluate(host, bind, x, row), Evaluate(host, bind, low, row), Evaluate(host, bind, high, row);
    var lower, upper := CompileComparison(Ge, x, low, resolve), CompileComparison(Le, x, high, resolve);
    ComparisonSound(host, bind, resolve, Ge, x, low, zone, row);
    ComparisonSound(host, bind, resolve, Le, x, high, zone, row);
    BothAdmit(host, Run(lower, zone), Run(upper, zone), v, lo, hi);
  }

  // ---------- IN ----------

  /** What the scan of an IN list says about any value of the range. */
  lemma {:induction false} ScanSound(r: ValueRange, values: seq<Value>, v: Value)
    requires InRange(v, r) && ScanList(r, values).Some?
    ensures v in values ==> ScanList(r, values).value.matches
    ensures ScanList(r, values).value.covers ==> v in values
  {
    if values != [] {
      var last := values[|values| - 1];
      ScanSound(r, values[..|values| - 1], v);
      RangeRule(Eq, r, v, last);
      BeforeTotal(r.min, r.max);
      BeforeTotal(v, r.min);
      BeforeTotal(r.min, last);
    }
  }

  lemma {:induction false} InListSound(zone: ChunkZone, column: nat, literals: seq<Value>, negated: bool, v: Value)
    requires column < |zone.columns| ==> InZone(v, zone.columns[column])
    ensures Admits(InListTruth(zone, column, literals, negated), Negated(negated, InLiterals(v, literals)))
  {
    if column < |zone.columns| {
      var z := zone.columns[column];
      if v != Null && ScanList(z.range.value, NonNull(literals)).Some? {
        ScanSound(z.range.value, NonNull(literals), v);
      }
    }
  }

  lemma {:induction false} InListCaseSound(host: Host, bind: ColumnRef -> nat, resolve: Resolver, x: Expr,
                                           items: seq<Expr>,
                                           negated: bool, zone: ChunkZone, row: seq<Value>)
    requires Agrees(resolve, bind) && Covers(zone, row)
    ensures Admits(Run(CompileInList(x, items, negated, resolve), zone),
            Evaluate(host, bind, InList(x, items, negated), row))
  {
    if ColumnIndexOf(x, resolve).Some? && AllLiterals(items) {
      var c := ColumnIndexOf(x, resolve).value;
      InListSound(zone, c, LiteralValues(items), negated, ValueAt(row, c));
      assert Evaluate(host, bind, x, row) == ValueAt(row, c);
    }
  }

  // ---------- LIKE ----------

  /** A matching text starts with the literal head of the pattern. */
  lemma {:induction false} MatchStartsWithHead(pattern: seq<CodeUnit>, text: seq<CodeUnit>)
    requires LikeMatches(pattern, text)
    ensures LiteralHead(pattern) <= text
  {
    if LiteralHead(pattern) != [] {
      MatchStartsWithHead(pattern[1..], text[1..]);
    }
  }

  lemma {:induction false} NextPrefixTail(prefix: seq<CodeUnit>)
    requires |prefix| > 1 && prefix[|prefix| - 1] < MAX_CODE_UNIT
    ensures prefix[1..][|prefix| - 2] == prefix[|prefix| - 1]
    ensures NextPrefix(prefix)[0] == prefix[0] && NextPrefix(prefix)[1..] == NextPrefix(prefix[1..])
  {
    var next, rest := NextPrefix(prefix), NextPrefix(prefix[1..]);
    assert |next| == |rest| + 1 == |prefix|;
    forall i | 0 <= i < |rest| ensures next[1..][i] == rest[i] {
      assert i < |rest| - 1 ==> prefix[1..][i] == prefix[i + 1];
    }
  }

  /** Texts with a prefix lie between the prefix and its successor. */
  lemma {:induction false} PrefixBounds(prefix: seq<CodeUnit>, text: seq<CodeUnit>)
    requires prefix != [] && prefix[|prefix| - 1] < MAX_CODE_UNIT && prefix <= text
    ensures !LexLess(text, prefix) && LexLess(text, NextPrefix(prefix))
  {
    if |prefix| == 1 {
    } else {
      NextPrefixTail(prefix);
      PrefixBounds(prefix[1..], text[1..]);
    }
  }

  lemma {:induction false} LikeSound(host: Host, zone: ChunkZone, column: nat, pattern: seq<CodeUnit>, negated: bool,
                                     v: Value)
    requires column < |zone.columns| ==> InZone(v, zone.columns[column])
    requires LiteralPrefixOf(pattern).Some?
    ensures Admits(LikeTruth(zone, column, LiteralPrefixOf(pattern).value, negated),
                   Negated(negated, LikeValues(host, v, Str(pattern))))
  {
    var prefix := LiteralPrefixOf(pattern).value;
    if column < |zone.columns| && v.Str? && LikeMatches(pattern, v.s) {
      var r := zone.columns[column].range.value;
      MatchStartsWithHead(pattern, v.s);
      PrefixBounds(prefix, v.s);
      BeforeChain(Str(prefix), v, r.max);
      BeforeChain(r.min, v, Str(NextPrefix(prefix)));
    }
  }

  lemma {:induction false} LikeCaseSound(host: Host, bind: ColumnRef -> nat, resolve: Resolver, x: Expr, p: Expr,
                                         negated: bool,
                                         zone: ChunkZone, row: seq<Value>)
    requires Agrees(resolve, bind) && Covers(zone, row)
    ensures Admits(Run(CompileLike(x, p, negated, resolve), zone), Evaluate(host, bind, Like(x, p, negated), row))
  {
    if ColumnIndexOf(x, resolve).Some? && LiteralOf(p).Some? && p.value.Str? && LiteralPrefixOf(p.value.s).Some? {
      var c := ColumnIndexOf(x, resolve).value;
      LikeSound(host, zone, c, p.value.s, negated, ValueAt(row, c));
      assert Evaluate(host, bind, p, row) == Str(p.value.s) && Evaluate(host, bind, x, row) == ValueAt(row, c);
    }
  }

  // ---------- the compiler ----------

  /** Whatever the predicate, its value on a row the zone map accounts for is in the computed set. */
  lemma {:induction false} CompileSound(host: Host, bind: ColumnRef -> nat, resolve: Resolver, e: Expr,
                                        zone: ChunkZone, row: seq<Value>)
    requires Agrees(resolve, bind) && Covers(zone, row)
    ensures Admits(Run(Compile(e, resolve), zone), Evaluate(host, bind, e, row))
    decreases e
  {
    match e
    case Binary(op, l, r) =>
      if op.And? || op.Or? {
        CompileSound(host, bind, resolve, l, zone, row);
        CompileSound(host, bind, resolve, r, zone, row);
        var ls, rs := Run(Compile(l, resolve), zone), Run(Compile(r, resolve), zone);
        AndAdmits(ls, rs, Evaluate(host, bind, l, row), Evaluate(host, bind, r, row));
        OrAdmits(ls, rs, Evaluate(host, bind, l, row), Evaluate(host, bind, r, row));
      } else if op.Compare? {
        ComparisonSound(host, bind, resolve, op.op, l, r, zone, row);
      }
    case Unary(op, o) =>
      if op.Not? {
        CompileSound(host, bind, resolve, o, zone, row);
        NotAdmits(Run(Compile(o, resolve), zone), Evaluate(host, bind, o, row));
      }
    case Between(x, lo, hi, negated) => BetweenSound(host, bind, resolve, x, lo, hi, negated, zone, row);
    case InList(x, items, negated) => InListCaseSound(host, bind, resolve, x, items, negated, zone, row);
    case Like(x, p, negated) => LikeCaseSound(host, bind, resolve, x, p, negated, zone, row);
    case IsNull(x, negated) =>
      if ColumnIndexOf(x, resolve).Some? { ColumnInZone(zone, row, ColumnIndexOf(x, resolve).value); }
    case _ =>
  }

  /** A chunk is only skipped when no row of it satisfies the predicate. */
  lemma {:induction false} SkipIsSafe(host: Host, bind: ColumnRef -> nat, resolve: Resolver, e: Expr, chunk: Chunk,
                                      zone: ChunkZone, i: nat)
    requires Agrees(resolve, bind) && ValidChunk(chunk) && SummarizesChunk(zone, chunk) && CanSkip(e, resolve, zone)
    requires i < chunk.size
    ensures !Truthy(Evaluate(host, bind, e, ActiveRow(chunk, i)))
  {
    var row := ActiveRow(chunk, i);
    forall c | 0 <= c < |row| ensures InZone(row[c], zone.columns[c]) { RowInZone(chunk, zone, i, c); }
    CompileSound(host, bind, resolve, e, zone, row);
  }

  // ---------- where skipping is exact ----------

  /** For order comparisons with a literal of the column's type, a chunk is skipped exactly when no row
      of it satisfies the comparison. */
  lemma {:induction false} OrderSkipExact(host: Host, bind: ColumnRef -> nat, resolve: Resolver, ref: ColumnRef,
                                          op: CompareOp,
                                          literal: Value, chunk: Chunk, zone: ChunkZone)
    requires Agrees(resolve, bind) && ValidChunk(chunk) && SummarizesChunk(zone, chunk)
    requires resolve(ref).Some? && resolve(ref).value < |chunk.columns| && op !in {Eq, Ne}
    requires literal != Null && forall v :: v in Active(chunk, resolve(ref).value) && v != Null ==> SameType(v, literal)
    ensures var e := Binary(Compare(op), Column(ref), Literal(literal));
      CanSkip(e, resolve, zone) <==> forall i :: 0 <= i < chunk.size ==>
        Evaluate(host, bind, e, ActiveRow(chunk, i)) != Bool(true)
  {
    var e := Binary(Compare(op), Column(ref), Literal(literal));
    var c := resolve(ref).value;
    var z, vs := zone.columns[c], Active(chunk, c);
    if CanSkip(e, resolve, zone) {
      forall i | 0 <= i < chunk.size ensures Evaluate(host, bind, e, ActiveRow(chunk, i)) != Bool(true) {
        SkipIsSafe(host, bind, resolve, e, chunk, zone, i);
      }
    } else {
      assert z.range.Some?;
      var extreme := if op.Lt? || op.Le? then z.range.value.min else z.range.value.max;
      var i :| 0 <= i < |vs| && vs[i] == extreme;
      BeforeTotal(extreme, literal);
      assert Evaluate(host, bind, e, ActiveRow(chunk, i)) == CompareValues(host, op, extreme, literal);
    }
  }

  /** Null tests are decided exactly. */
  lemma {:induction false} NullSkipExact(host: Host, bind: ColumnRef -> nat, resolve: Resolver, ref: ColumnRef,
                                         negated: bool,
                                         chunk: Chunk, zone: ChunkZone)
    requires Agrees(resolve, bind) && ValidChunk(chunk) && SummarizesChunk(zone, chunk)
    requires resolve(ref).Some? && resolve(ref).value < |chunk.columns|
    ensures var e := IsNull(Column(ref), negated);
      CanSkip(e, resolve, zone) <==> forall i :: 0 <= i < chunk.size ==>
        Evaluate(host, bind, e, ActiveRow(chunk, i)) != Bool(true)
  {
    var e := IsNull(Column(ref), negated);
    var c := resolve(ref).value;
    var z, vs := zone.columns[c], Active(chunk, c);
    if CanSkip(e, resolve, zone) {
      forall i | 0 <= i < chunk.size ensures Evaluate(host, bind, e, ActiveRow(chunk, i)) != Bool(true) {
        SkipIsSafe(host, bind, resolve, e, chunk, zone, i);
      }
    } else {
      assert Summarizes(z, vs) && chunk.size > 0;
      var i :| 0 <= i < |vs| && (vs[i] == Null) != negated;
      assert Evaluate(host, bind, e, ActiveRow(chunk, i)) == Bool((vs[i] == Null) != negated);
    }
  }

  /** Equality with a literal of the column's type skips exactly the chunks whose range leaves it out. */
  lemma {:induction false} EqualitySkip(resolve: Resolver, ref: ColumnRef, literal: Value, chunk: Chunk,
                                        zone: ChunkZone)
    requires ValidChunk(chunk) && SummarizesChunk(zone, chunk) && literal != Null
    requires resolve(ref).Some? && resolve(ref).value < |chunk.columns| && chunk.size > 0
    requires forall v :: v in Active(chunk, resolve(ref).value) && v != Null ==> SameType(v, literal)
    ensures var e, r := Binary(Compare(Eq), Column(ref), Literal(literal)), zone.columns[resolve(ref).value].range;
      CanSkip(e, resolve, zone) <==> (r.None? || !InRange(literal, r.value))
  {
    var r := zone.columns[resolve(ref).value].range;
    if r.Some? {
      BeforeTotal(r.value.min, literal);
      BeforeTotal(r.value.max, literal);
    }
  }
}
