/** What the pruner of src/execution/zone-map-pruner.ts must skip: each rule read off the chunk summary. */
module ZoneSkips {
  import opened Wrappers
  import opened SqlValues
  import opened RowEval
  import opened ZoneMaps
  import opened ZonePruner

  /** The chunk has rows, and the column's range, if there is one, has the type of v and its ends in order. */
  predicate RangeFits(zone: ChunkZone, column: nat, v: Value) {
    && column < |zone.columns| && zone.rowCount > 0
    && (zone.columns[column].range.Some? ==>
          var r := zone.columns[column].range.value;
          SameType(v, r.min) && SameType(v, r.max) && SameType(r.min, r.max) && !Before(r.max, r.min))
  }

  lemma {:induction false} EndsCompare(r: ValueRange, v: Value)
    requires SameType(r.min, r.max) && !Before(r.max, r.min) && SameType(v, r.min)
    ensures CompareComparable(r.min, v).Some? && CompareComparable(r.max, v).Some?
    ensures CompareComparable(r.min, v).value < 0 <==> Before(r.min, v)
    ensures CompareComparable(r.min, v).value > 0 <==> Before(v, r.min)
    ensures CompareComparable(r.min, v).value == 0 <==> r.min == v
    ensures CompareComparable(r.max, v).value < 0 <==> Before(r.max, v)
    ensures CompareComparable(r.max, v).value > 0 <==> Before(v, r.max)
    ensures CompareComparable(r.max, v).value == 0 <==> r.max == v
    ensures CompareComparable(r.min, r.max) == Some(0) <==> r.min == r.max
  {
    BeforeTotal(r.min, v);
    BeforeTotal(r.max, v);
    BeforeTotal(r.min, r.max);
  }

  /** <> skips exactly the chunks of nulls and of the literal alone. */
  lemma {:induction false} UnequalSkip(resolve: Resolver, ref: ColumnRef, column: nat, literal: Value, zone: ChunkZone)
    requires resolve(ref) == Some(column) && literal != Null && RangeFits(zone, column, literal)
    ensures var e, range := Binary(Compare(Ne), Column(ref), Literal(literal)), zone.columns[column].range;
      CanSkip(e, resolve, zone) <==> range.None? || (range.value.min == literal == range.value.max)
  {
    if zone.columns[column].range.Some? { EndsCompare(zone.columns[column].range.value, literal); }
  }

  /** A comparison written the other way round skips the same chunks. */
  lemma {:induction false} FlippedSkip(resolve: Resolver, ref: ColumnRef, op: CompareOp, literal: Value,
                                       zone: ChunkZone)
    ensures CanSkip(Binary(Compare(op), Literal(literal), Column(ref)), resolve, zone)
       <==> CanSkip(Binary(Compare(Flipped(op)), Column(ref), Literal(literal)), resolve, zone)
  {}

  predicate SomeInRange(r: ValueRange, values: seq<Value>) {
    exists v :: v in values && v != Null && InRange(v, r)
  }

  lemma {:induction false} SomeInLast(r: ValueRange, rest: seq<Value>, last: Value)
    requires last != Null
    ensures SomeInRange(r, rest + [last]) <==> SomeInRange(r, rest) || InRange(last, r)
  {
    assert last in rest + [last];
    if SomeInRange(r, rest) {
      var v :| v in rest && v != Null && InRange(v, r);
      assert v in rest + [last];
    }
  }

  lemma {:induction false} ScanMeans(r: ValueRange, values: seq<Value>)
    requires SameType(r.min, r.max) && !Before(r.max, r.min) && forall v :: v in values ==> SameType(v, r.min)
    ensures var scan := ScanList(r, values);
      scan.Some? && (scan.value.matches <==> SomeInRange(r, values))
      && (scan.value.covers <==> r.min == r.max && r.min in values)
  {
    if values != [] {
      var rest, last := values[..|values| - 1], values[|values| - 1];
      assert values == rest + [last];
      assert last in values;
      ScanMeans(r, rest);
      EndsCompare(r, last);
      SomeInLast(r, rest, last);
    }
  }

  /** IN skips exactly the chunks of nulls and those with no list value in their range; NOT IN those of nulls, those
      covered by the list, and with a null in the list every chunk. */
  lemma {:induction false} InListSkip(resolve: Resolver, x: ColumnRef, column: nat, items: seq<Expr>, negated: bool,
                                      zone: ChunkZone)
    requires resolve(x) == Some(column) && AllLiterals(items) && column < |zone.columns| && zone.rowCount > 0
    requires forall v :: v in LiteralValues(items) && v != Null ==> RangeFits(zone, column, v)
    requires zone.columns[column].range.Some? ==>
               RangeFits(zone, column, zone.columns[column].range.value.min)
    ensures var range, values := zone.columns[column].range, LiteralValues(items);
      CanSkip(InList(Column(x), items, negated), resolve, zone) <==>
        (range.None?
        || if negated then Null in values || (range.value.min == range.value.max && range.value.min in values)
           else !SomeInRange(range.value, values))
  {
    var range, values := zone.columns[column].range, LiteralValues(items);
    if range.Some? {
      ScanMeans(range.value, NonNull(values));
      assert SomeInRange(range.value, NonNull(values)) <==> SomeInRange(range.value, values);
    }
  }

  lemma {:induction false} BoundTruth(zone: ChunkZone, column: nat, low: Value, high: Value)
    requires RangeFits(zone, column, low) && RangeFits(zone, column, high) && zone.columns[column].range.Some?
    ensures var r := zone.columns[column].range.value;
      && (CompareTruth(zone, column, low, Ge).t <==> !Before(r.max, low))
      && (CompareTruth(zone, column, low, Ge).f <==> Before(r.min, low))
      && (CompareTruth(zone, column, high, Le).t <==> !Before(high, r.min))
      && (CompareTruth(zone, column, high, Le).f <==> Before(high, r.max))
  {
    EndsCompare(zone.columns[column].range.value, low);
    EndsCompare(zone.columns[column].range.value, high);
  }

  /** BETWEEN skips exactly the chunks of nulls and those whose range lies outside; NOT BETWEEN those of nulls and
      those whose range lies inside. */
  lemma {:induction false} BetweenSkip(resolve: Resolver, x: ColumnRef, column: nat, low: Value, high: Value,
                                       negated: bool, zone: ChunkZone)
    requires resolve(x) == Some(column) && low != Null && high != Null
    requires RangeFits(zone, column, low) && RangeFits(zone, column, high)
    ensures var range := zone.columns[column].range;
      CanSkip(Between(Column(x), Literal(low), Literal(high), negated), resolve, zone) <==>
        (range.None?
        || if negated then !Before(range.value.min, low) && !Before(high, range.value.max)
           else Before(range.value.max, low) || Before(high, range.value.min))
  {
    if zone.columns[column].range.Some? { BoundTruth(zone, column, low, high); }
    assert Run(CompileBetween(Column(x), Literal(low), Literal(high), false, resolve), zone)
        == KleeneAnd(CompareTruth(zone, column, low, Ge), CompareTruth(zone, column, high, Le));
  }

  /** LIKE with a literal prefix skips exactly the chunks of nulls and those whose range has no text with the prefix;
      NOT LIKE only those of nulls. */
  lemma {:induction false} LikeSkip(resolve: Resolver, x: ColumnRef, column: nat, pattern: seq<CodeUnit>, negated: bool,
                                    zone: ChunkZone)
    requires resolve(x) == Some(column) && LiteralPrefixOf(pattern).Some?
    requires RangeFits(zone, column, Str(pattern))
    ensures var range, prefix := zone.columns[column].range, LiteralPrefixOf(pattern).value;
      CanSkip(Like(Column(x), Literal(Str(pattern)), negated), resolve, zone) <==>
        (range.None?
        || (!negated && (LexLess(range.value.max.s, prefix) || !LexLess(range.value.min.s, NextPrefix(prefix)))))
  {}

  /** The literal prefix is all of the pattern before its first wildcard. */
  lemma {:induction false} HeadIsLongest(pattern: seq<CodeUnit>)
    ensures var head := LiteralHead(pattern);
      && head <= pattern && PERCENT !in head && UNDERSCORE !in head
      && (|head| < |pattern| ==> pattern[|head|] == PERCENT || pattern[|head|] == UNDERSCORE)
  {
    if pattern != [] && pattern[0] != PERCENT && pattern[0] != UNDERSCORE { HeadIsLongest(pattern[1..]); }
  }

  /** A conjunction skips what one of its sides skips, a disjunction what both skip. */
  lemma {:induction false} LogicalSkip(resolve: Resolver, l: Expr, r: Expr, zone: ChunkZone)
    requires zone.rowCount > 0
    ensures CanSkip(Binary(And, l, r), resolve, zone) <==> CanSkip(l, resolve, zone) || CanSkip(r, resolve, zone)
    ensures CanSkip(Binary(Or, l, r), resolve, zone) <==> CanSkip(l, resolve, zone) && CanSkip(r, resolve, zone)
  {}
}
