/** The zone-map predicate compiler of src/execution/zone-map-pruner.ts. */
module ZonePruner {
  // A predicate becomes a function from a chunk summary to the set of truth values its rows may have.
  import opened Wrappers
  import opened SqlValues
  import opened RowEval
  import opened ZoneMaps

  // ---------- sets of truth values ----------

  datatype TruthSet = TruthSet(t: bool, f: bool, u: bool)

  const ANY_TRUTH := TruthSet(true, true, true)
  const NO_TRUTH := TruthSet(false, false, false)

  /** A row value is accounted for; a value that is no truth value needs the full set. */
  predicate Admits(s: TruthSet, v: Value) {
    match v
    case Null => s.u
    case Bool(b) => if b then s.t else s.f
    case _ => s == ANY_TRUTH
  }

  function KleeneNot(s: TruthSet): TruthSet {
    TruthSet(s.f, s.t, s.u)
  }

  function KleeneAnd(l: TruthSet, r: TruthSet): TruthSet {
    TruthSet(l.t && r.t, l.f || r.f, (l.u && (r.t || r.u)) || (r.u && (l.t || l.u)))
  }

  function KleeneOr(l: TruthSet, r: TruthSet): TruthSet {
    TruthSet(l.t || r.t, l.f && r.f, (l.u && (r.f || r.u)) || (r.u && (l.f || l.u)))
  }

  // ---------- evaluators ----------

  datatype Evaluator = AnyTruth | Zoned(run: ChunkZone -> TruthSet)

  function Run(ev: Evaluator, zone: ChunkZone): TruthSet {
    match ev
    case AnyTruth => ANY_TRUTH
    case Zoned(run) => run(zone)
  }

  type Resolver = ColumnRef -> Option<nat>

  function ColumnIndexOf(e: Expr, resolve: Resolver): Option<nat> {
    if e.Column? then resolve(e.ref) else None
  }

  /** The non-null literal an expression is, if it is one. */
  function LiteralOf(e: Expr): Option<Value> {
    if e.Literal? && e.value != Null then Some(e.value) else None
  }

  function ZoneOf(zone: ChunkZone, column: nat): Option<ColumnZone> {
    if column < |zone.columns| then Some(zone.columns[column]) else None
  }

  function NullOnly(zone: ColumnZone): TruthSet {
    TruthSet(false, false, zone.hasNulls)
  }

  /** -1, 0 or 1 for values of one type. */
  function CompareComparable(a: Value, b: Value): Option<int> {
    if !SameType(a, b) then None else if Before(a, b) then Some(-1) else if Before(b, a) then Some(1) else Some(0)
  }

  predicate PossiblyTrue(op: CompareOp, lo: int, hi: int) {
    match op
    case Eq => lo <= 0 && hi >= 0
    case Ne => !(lo == 0 && hi == 0)
    case Lt => lo < 0
    case Le => lo <= 0
    case Gt => hi > 0
    case Ge => hi >= 0
  }

  predicate PossiblyFalse(op: CompareOp, lo: int, hi: int) {
    match op
    case Eq => !(lo == 0 && hi == 0)
    case Ne => lo <= 0 && hi >= 0
    case Lt => hi >= 0
    case Le => hi > 0
    case Gt => lo <= 0
    case Ge => lo < 0
  }

  function CompareTruth(zone: ChunkZone, column: nat, literal: Value, op: CompareOp): TruthSet {
    match ZoneOf(zone, column)
    case None => ANY_TRUTH
    case Some(z) =>
      if z.range.None? then NullOnly(z)
      else
        var lo, hi := CompareComparable(z.range.value.min, literal), CompareComparable(z.range.value.max, literal);
        if lo.None? || hi.None? then ANY_TRUTH
        else TruthSet(PossiblyTrue(op, lo.value, hi.value), PossiblyFalse(op, lo.value, hi.value), z.hasNulls)
  }

  function CompileComparison(op: CompareOp, left: Expr, right: Expr, resolve: Resolver): Evaluator {
    if ColumnIndexOf(left, resolve).Some? && LiteralOf(right).Some? then
      var column, literal := ColumnIndexOf(left, resolve).value, LiteralOf(right).value;
      Zoned(zone => CompareTruth(zone, column, literal, op))
    else if ColumnIndexOf(right, resolve).Some? && LiteralOf(left).Some? then
      var column, literal := ColumnIndexOf(right, resolve).value, LiteralOf(left).value;
      Zoned(zone => CompareTruth(zone, column, literal, Flipped(op)))
    else
      AnyTruth
  }

  function CompileLogical(isAnd: bool, left: Evaluator, right: Evaluator): Evaluator {
    if left.AnyTruth? && right.AnyTruth? then AnyTruth
    else if isAnd then Zoned(zone => KleeneAnd(Run(left, zone), Run(right, zone)))
    else Zoned(zone => KleeneOr(Run(left, zone), Run(right, zone)))
  }

  function CompileNot(operand: Evaluator): Evaluator {
    if operand.AnyTruth? then AnyTruth else Zoned(zone => KleeneNot(Run(operand, zone)))
  }

  function CompileBetween(x: Expr, low: Expr, high: Expr, negated: bool, resolve: Resolver): Evaluator {
    var lower, upper := CompileComparison(Ge, x, low, resolve), CompileComparison(Le, x, high, resolve);
    if lower.AnyTruth? && upper.AnyTruth? then AnyTruth
    else if negated then Zoned(zone => KleeneNot(KleeneAnd(Run(lower, zone), Run(upper, zone))))
    else Zoned(zone => KleeneAnd(Run(lower, zone), Run(upper, zone)))
  }

  function IsNullTruth(zone: ChunkZone, column: nat, negated: bool): TruthSet {
    match ZoneOf(zone, column)
    case None => ANY_TRUTH
    case Some(z) =>
      if negated then TruthSet(z.range.Some?, z.hasNulls, false) else TruthSet(z.hasNulls, z.range.Some?, false)
  }

  function CompileIsNull(x: Expr, negated: bool, resolve: Resolver): Evaluator {
    match ColumnIndexOf(x, resolve)
    case None => AnyTruth
    case Some(column) => Zoned(zone => IsNullTruth(zone, column, negated))
  }

  // ---------- IN lists ----------

  /** What a scan of the list values finds out about a range; None when a value has another type. */
  datatype Scan = Scan(matches: bool, covers: bool)

  function ScanList(r: ValueRange, values: seq<Value>): Option<Scan> {
    if values == [] then Some(Scan(false, false))
    else
      var last, rest := values[|values| - 1], ScanList(r, values[..|values| - 1]);
      var lo, hi := CompareComparable(r.min, last), CompareComparable(r.max, last);
      if rest.None? || lo.None? || hi.None? then None
      else
        var singleton := CompareComparable(r.min, r.max) == Some(0);
        Some(Scan(rest.value.matches || (lo.value <= 0 && hi.value >= 0), rest.value.covers
          || (singleton && lo.value == 0)))
  }

  /** The loop of the compiled IN test. */
  method ScanListLoop(r: ValueRange, values: seq<Value>) returns (scan: Option<Scan>)
    ensures scan == ScanList(r, values)
  {
    var matches, covers := false, false;
    var singleton := CompareComparable(r.min, r.max) == Some(0);
    for i := 0 to |values|
      invariant ScanList(r, values[..i]) == Some(Scan(matches, covers))
    {
      assert values[..i + 1][..i] == values[..i];
      var lo, hi := CompareComparable(r.min, values[i]), CompareComparable(r.max, values[i]);
      if lo.None? || hi.None? {
        ScanStaysNone(r, values, i + 1);
        return None;
      }
      if lo.value <= 0 && hi.value >= 0 { matches := true; }
      if singleton && lo.value == 0 { covers := true; }
    }
    assert values[..|values|] == values;
    scan := Some(Scan(matches, covers));
  }

  lemma {:induction false} ScanStaysNone(r: ValueRange, values: seq<Value>, i: nat)
    requires i <= |values| && ScanList(r, values[..i]).None?
    ensures ScanList(r, values).None?
    decreases |values| - i
  {
    if i < |values| {
      assert values[..i + 1][..i] == values[..i];
      ScanStaysNone(r, values, i + 1);
    } else {
      assert values[..i] == values;
    }
  }

  function NonNull(vs: seq<Value>): (r: seq<Value>)
    ensures forall v :: v in r <==> v in vs && v != Null
  {
    if vs == [] then [] else (if vs[0] == Null then [] else [vs[0]]) + NonNull(vs[1..])
  }

  function InListTruth(zone: ChunkZone, column: nat, literals: seq<Value>, negated: bool): TruthSet {
    match ZoneOf(zone, column)
    case None => ANY_TRUTH
    case Some(z) =>
      if z.range.None? then (if negated then KleeneNot(NullOnly(z)) else NullOnly(z))
      else
        match ScanList(z.range.value, NonNull(literals))
        case None => ANY_TRUTH
        case Some(scan) =>
          var listHasNull := Null in literals;
          var truth := TruthSet(scan.matches, !listHasNull && !scan.covers, z.hasNulls
            || (listHasNull && !scan.covers));
          if negated then KleeneNot(truth) else truth
  }

  function CompileInList(x: Expr, items: seq<Expr>, negated: bool, resolve: Resolver): Evaluator {
    if ColumnIndexOf(x, resolve).None? || !AllLiterals(items) then AnyTruth
    else
      var column, literals := ColumnIndexOf(x, resolve).value, LiteralValues(items);
      Zoned(zone => InListTruth(zone, column, literals, negated))
  }

  // ---------- LIKE ----------

  const MAX_CODE_UNIT: CodeUnit := 0xffff

  /** The part of a pattern before its first wildcard. */
  function LiteralHead(pattern: seq<CodeUnit>): (head: seq<CodeUnit>) {
    if pattern == [] || pattern[0] == PERCENT || pattern[0] == UNDERSCORE then []
    else [pattern[0]] + LiteralHead(pattern[1..])
  }

  method LiteralHeadLoop(pattern: seq<CodeUnit>) returns (head: seq<CodeUnit>)
    ensures head == LiteralHead(pattern)
  {
    var end := 0;
    while end < |pattern| && pattern[end] != PERCENT && pattern[end] != UNDERSCORE
      invariant 0 <= end <= |pattern|
      invariant LiteralHead(pattern) == pattern[..end] + LiteralHead(pattern[end..])
    {
      assert pattern[end..][1..] == pattern[end + 1..] && pattern[..end + 1] == pattern[..end] + [pattern[end]];
      end := end + 1;
    }
    head := pattern[..end];
    assert head + [] == head;
  }

  function LiteralPrefixOf(pattern: seq<CodeUnit>): Option<seq<CodeUnit>> {
    var head := LiteralHead(pattern);
    if head == [] || head[|head| - 1] >= MAX_CODE_UNIT then None else Some(head)
  }

  function NextPrefix(prefix: seq<CodeUnit>): seq<CodeUnit>
    requires prefix != [] && prefix[|prefix| - 1] < MAX_CODE_UNIT
  {
    prefix[..|prefix| - 1] + [prefix[|prefix| - 1] + 1]
  }

  function LikeTruth(zone: ChunkZone, column: nat, prefix: seq<CodeUnit>, negated: bool): TruthSet
    requires prefix != [] && prefix[|prefix| - 1] < MAX_CODE_UNIT
  {
    match ZoneOf(zone, column)
    case None => ANY_TRUTH
    case Some(z) =>
      if z.range.None? then (if negated then KleeneNot(NullOnly(z)) else NullOnly(z))
      else if !z.range.value.min.Str? || !z.range.value.max.Str? then ANY_TRUTH
      else
        var matches := !LexLess(z.range.value.max.s, prefix) && LexLess(z.range.value.min.s, NextPrefix(prefix));
        var truth := TruthSet(matches, true, z.hasNulls);
        if negated then KleeneNot(truth) else truth
  }

  function CompileLike(x: Expr, pattern: Expr, negated: bool, resolve: Resolver): Evaluator {
    if ColumnIndexOf(x, resolve).None? || !LiteralOf(pattern).Some? || !LiteralOf(pattern).value.Str? then AnyTruth
    else
      match LiteralPrefixOf(LiteralOf(pattern).value.s)
      case None => AnyTruth
      case Some(prefix) =>
        var column := ColumnIndexOf(x, resolve).value;
        Zoned(zone => LikeTruth(zone, column, prefix, negated))
  }

  // ---------- the compiler ----------

  function Compile(e: Expr, resolve: Resolver): Evaluator {
    match e
    case Binary(op, l, r) =>
      (match op
       case And => CompileLogical(true, Compile(l, resolve), Compile(r, resolve))
       case Or => CompileLogical(false, Compile(l, resolve), Compile(r, resolve))
       case Compare(c) => CompileComparison(c, l, r, resolve)
       case OtherBinary(_) => AnyTruth)
    case Unary(op, o) => if op.Not? then CompileNot(Compile(o, resolve)) else AnyTruth
    case Between(x, lo, hi, negated) => CompileBetween(x, lo, hi, negated, resolve)
    case InList(x, items, negated) => CompileInList(x, items, negated, resolve)
    case Like(x, p, negated) => CompileLike(x, p, negated, resolve)
    case IsNull(x, negated) => CompileIsNull(x, negated, resolve)
    case _ => AnyTruth
  }

  /** A chunk is skipped when it is empty or its truth set lacks true; with nothing known no pruner is made. */
  predicate CanSkip(predicateExpr: Expr, resolve: Resolver, zone: ChunkZone) {
    var ev := Compile(predicateExpr, resolve);
    ev.Zoned? && (zone.rowCount == 0 || !Run(ev, zone).t)
  }
}
