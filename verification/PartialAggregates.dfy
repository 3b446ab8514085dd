/** Partial and final aggregation: src/distributed/optimizer/partial-aggregate.ts. */
module PartialAggregates {
  // The decompositions are those of src/planner/aggregate-decomposition.ts, the accumulators those of
  // src/execution/operators/hash-aggregate.ts.
  import opened SqlValues
  import opened RowOrder

  datatype AggregateFunction = SumOf | CountOf | CountStar | MinOf | MaxOf | AvgOf

  /** The accumulators there are. */
  datatype Accumulator = SumAcc | CountAcc | CountStarAcc | MinAcc | MaxAcc | AvgAcc

  /** The fields of an accumulator; each kind uses some of them. */
  datatype State = State(sum: real, count: nat, hasValue: bool, best: Value)

  const EMPTY_STATE := State(0.0, 0, false, Null)

  function NumberOf(v: Value): real {
    if v.Num? then v.n else 0.0
  }

  /** Accumulator.add. */
  function Add(kind: Accumulator, s: State, v: Value): State {
    match kind
    case SumAcc => if v == Null then s else s.(sum := s.sum + NumberOf(v), hasValue := true)
    case CountAcc => if v == Null then s else s.(count := s.count + 1)
    case CountStarAcc => s.(count := s.count + 1)
    case MinAcc => if v != Null && (s.best == Null || Less(v, s.best)) then s.(best := v) else s
    case MaxAcc => if v != Null && (s.best == Null || Less(s.best, v)) then s.(best := v) else s
    case AvgAcc => if v == Null then s else s.(sum := s.sum + NumberOf(v), count := s.count + 1)
  }

  /** Accumulator.result. */
  function Result(kind: Accumulator, s: State): Value {
    match kind
    case SumAcc => if s.hasValue then Num(s.sum) else Null
    case CountAcc => Num(s.count as real)
    case CountStarAcc => Num(s.count as real)
    case MinAcc => s.best
    case MaxAcc => s.best
    case AvgAcc => if s.count > 0 then Num(s.sum / s.count as real) else Null
  }

  function FoldTo(kind: Accumulator, vals: seq<Value>, n: nat): State
    requires n <= |vals|
  {
    if n == 0 then EMPTY_STATE else Add(kind, FoldTo(kind, vals, n - 1), vals[n - 1])
  }

  function Fold(kind: Accumulator, vals: seq<Value>): State {
    FoldTo(kind, vals, |vals|)
  }

  /** The values one partial aggregate emits for a group: one column, or a sum and a count for an average. */
  datatype Partial = One(value: Value) | SumAndCount(sum: Value, count: Value)

  function AccumulatorOf(f: AggregateFunction): Accumulator {
    match f
    case SumOf => SumAcc
    case CountOf => CountAcc
    case CountStar => CountStarAcc
    case MinOf => MinAcc
    case MaxOf => MaxAcc
    case AvgOf => AvgAcc
  }

  /** The final accumulator over the partial column; an average has a final accumulator of its own. */
  function FinalAccumulatorOf(f: AggregateFunction): Accumulator {
    match f
    case SumOf => SumAcc
    case CountOf => SumAcc
    case CountStar => SumAcc
    case MinOf => MinAcc
    case MaxOf => MaxAcc
    case AvgOf => AvgAcc
  }

  function Direct(f: AggregateFunction, vals: seq<Value>): Value {
    Result(AccumulatorOf(f), Fold(AccumulatorOf(f), vals))
  }

  function PartialOf(f: AggregateFunction, vals: seq<Value>): Partial {
    if f == AvgOf then SumAndCount(Result(SumAcc, Fold(SumAcc, vals)), Result(CountAcc, Fold(CountAcc, vals)))
    else One(Direct(f, vals))
  }

  /** AvgFinalAccumulator.add. */
  function AddAverage(s: State, p: Partial): State {
    if p.SumAndCount? && p.sum.Num? && p.count.Num? && p.count.n >= 0.0 then
      s.(sum := s.sum + p.sum.n, count := s.count + p.count.n.Floor)
    else s
  }

  function FoldAveragesTo(ps: seq<Partial>, n: nat): State
    requires n <= |ps|
  {
    if n == 0 then EMPTY_STATE else AddAverage(FoldAveragesTo(ps, n - 1), ps[n - 1])
  }

  function FoldAverages(ps: seq<Partial>): State {
    FoldAveragesTo(ps, |ps|)
  }

  function Column(ps: seq<Partial>, pick: Partial -> Value): (vals: seq<Value>)
    ensures |vals| == |ps| && forall i :: 0 <= i < |ps| ==> vals[i] == pick(ps[i])
  {
    seq(|ps|, i requires 0 <= i < |ps| => pick(ps[i]))
  }

  function Only(p: Partial): Value {
    if p.One? then p.value else Null
  }

  function SumPart(p: Partial): Value {
    if p.SumAndCount? then p.sum else Null
  }

  function CountPart(p: Partial): Value {
    if p.SumAndCount? then p.count else Null
  }

  function Final(f: AggregateFunction, ps: seq<Partial>): Value {
    if f == AvgOf then Result(AvgAcc, FoldAverages(ps))
    else Result(FinalAccumulatorOf(f), Fold(FinalAccumulatorOf(f), Column(ps, Only)))
  }

  // ---------- what the aggregates mean ----------

  function NonNull(vals: seq<Value>): seq<Value> {
    if vals == [] then [] else (if vals[0] == Null then [] else [vals[0]]) + NonNull(vals[1..])
  }

  function Total(vals: seq<Value>): real {
    if vals == [] then 0.0 else NumberOf(vals[0]) + Total(vals[1..])
  }

  /** The value an aggregate has over a list: MIN and MAX are the extreme values that are not null, COUNT counts those,
      COUNT(*) counts all, SUM adds them up, and AVG times their number is their sum. Over nulls alone, or nothing,
      only the counts have a value. */
  predicate IsAggregate(f: AggregateFunction, vals: seq<Value>, r: Value) {
    var some := NonNull(vals);
    if f == CountOf then r == Num(|some| as real)
    else if f == CountStar then r == Num(|vals| as real)
    else if some == [] then r == Null
    else if f == MinOf then r in some && forall v :: v in some && SameType(v, r) ==> !Before(v, r)
    else if f == MaxOf then r in some && forall v :: v in some && SameType(v, r) ==> !Before(r, v)
    else if f == SumOf then r == Num(Total(some))
    else r.Num? && r.n * |some| as real == Total(some)
  }

  lemma {:induction false} NonNullAppend(vals: seq<Value>, v: Value)
    ensures NonNull(vals + [v]) == NonNull(vals) + if v == Null then [] else [v]
  {
    if vals == [] {
      assert [v][1..] == [];
    } else {
      assert (vals + [v])[1..] == vals[1..] + [v];
      NonNullAppend(vals[1..], v);
    }
  }

  lemma {:induction false} TotalAppend(vals: seq<Value>, v: Value)
    ensures Total(vals + [v]) == Total(vals) + NumberOf(v)
  {
    if vals == [] {
      assert [v][1..] == [];
    } else {
      assert (vals + [v])[1..] == vals[1..] + [v];
      TotalAppend(vals[1..], v);
    }
  }

  lemma {:induction false} NonNullMeans(vals: seq<Value>)
    ensures forall v :: v in NonNull(vals) <==> v in vals && v != Null
  {
    if vals != [] { NonNullMeans(vals[1..]); }
  }

  /** What a fold has gathered from n values, of which `some` are not null. */
  predicate Gathered(kind: Accumulator, n: nat, some: seq<Value>, s: State) {
    match kind
    case SumAcc => s.sum == Total(some) && (s.hasValue <==> some != [])
    case CountAcc => s.count == |some|
    case CountStarAcc => s.count == n
    case MinAcc => if some == [] then s.best == Null else s.best in some && NoneLess(some, s.best)
    case MaxAcc => if some == [] then s.best == Null else s.best in some && NoneMore(some, s.best)
    case AvgAcc => s.sum == Total(some) && s.count == |some|
  }

  predicate LessThan(a: Value, b: Value) {
    a != Null && b != Null && Less(a, b)
  }

  predicate NoneLess(some: seq<Value>, best: Value) {
    forall v :: v in some ==> !LessThan(v, best)
  }

  predicate NoneMore(some: seq<Value>, best: Value) {
    forall v :: v in some ==> !LessThan(best, v)
  }

  lemma {:induction false} AddGathers(kind: Accumulator, n: nat, some: seq<Value>, s: State, v: Value)
    requires Gathered(kind, n, some, s) && Null !in some
    ensures Gathered(kind, n + 1, if v == Null then some else some + [v], Add(kind, s, v))
  {
    if v != Null {
      TotalAppend(some, v);
      if kind == MinAcc { LeastAdded(some, s.best, v); }
      if kind == MaxAcc { MostAdded(some, s.best, v); }
    }
  }

  lemma {:induction false} LeastAdded(some: seq<Value>, best: Value, v: Value)
    requires v != Null && Null !in some && if some == [] then best == Null else best in some && NoneLess(some, best)
    ensures NoneLess(some + [v], if best == Null || Less(v, best) then v else best)
  {
    LessTotal(v, v);
    if best != Null && Less(v, best) {
      forall u | u in some ensures !LessThan(u, v) {
        if Less(u, v) { LessTransitive(u, v, best); }
      }
    }
  }

  lemma {:induction false} MostAdded(some: seq<Value>, best: Value, v: Value)
    requires v != Null && Null !in some && if some == [] then best == Null else best in some && NoneMore(some, best)
    ensures NoneMore(some + [v], if best == Null || Less(best, v) then v else best)
  {
    LessTotal(v, v);
    if best != Null && Less(best, v) {
      forall u | u in some ensures !LessThan(v, u) {
        if Less(v, u) { LessTransitive(best, v, u); }
      }
    }
  }

  lemma {:induction false} FoldGathers(kind: Accumulator, vals: seq<Value>, n: nat)
    requires n <= |vals|
    ensures Gathered(kind, n, NonNull(vals[..n]), FoldTo(kind, vals, n))
  {
    if n > 0 {
      var front, v := vals[..n - 1], vals[n - 1];
      FoldGathers(kind, vals, n - 1);
      NonNullMeans(front);
      NonNullAppend(front, v);
      assert vals[..n] == front + [v];
      AddGathers(kind, n - 1, NonNull(front), FoldTo(kind, vals, n - 1), v);
      assert NonNull(vals[..n]) == if v == Null then NonNull(front) else NonNull(front) + [v];
    }
  }

  lemma {:induction false} QuotientTimes(x: real, n: real)
    requires n > 0.0
    ensures x / n * n == x
  {}

  /** The direct aggregate has the meaning of its function. */
  lemma {:induction false} DirectMeans(f: AggregateFunction, vals: seq<Value>)
    ensures IsAggregate(f, vals, Direct(f, vals))
  {
    var kind, some := AccumulatorOf(f), NonNull(vals);
    var s := Fold(kind, vals);
    FoldGathers(kind, vals, |vals|);
    assert vals[..|vals|] == vals;
    NonNullMeans(vals);
    if f == AvgOf && some != [] { QuotientTimes(s.sum, |some| as real); }
  }

  // ---------- merging ----------

  /** Accumulator.mergeState. */
  function Merge(kind: Accumulator, a: State, b: State): State {
    match kind
    case SumAcc => if b.hasValue then a.(sum := a.sum + b.sum, hasValue := true) else a
    case CountAcc => a.(count := a.count + b.count)
    case CountStarAcc => a.(count := a.count + b.count)
    case MinAcc => if b.best != Null && (a.best == Null || Less(b.best, a.best)) then a.(best := b.best) else a
    case MaxAcc => if b.best != Null && (a.best == Null || Less(a.best, b.best)) then a.(best := b.best) else a
    case AvgAcc => a.(sum := a.sum + b.sum, count := a.count + b.count)
  }

  /** What a fold leaves untouched, and when it has a value. */
  lemma {:induction false} FoldShape(kind: Accumulator, vals: seq<Value>, n: nat)
    requires n <= |vals|
    ensures Shaped(kind, FoldTo(kind, vals, n))
  {
    if n > 0 { FoldShape(kind, vals, n - 1); }
  }

  predicate Shaped(kind: Accumulator, s: State) {
    match kind
    case SumAcc => s.count == 0 && s.best == Null && (!s.hasValue ==> s.sum == 0.0)
    case CountAcc => s.sum == 0.0 && !s.hasValue && s.best == Null
    case CountStarAcc => s.sum == 0.0 && !s.hasValue && s.best == Null
    case MinAcc => s.sum == 0.0 && s.count == 0 && !s.hasValue
    case MaxAcc => s.sum == 0.0 && s.count == 0 && !s.hasValue
    case AvgAcc => !s.hasValue && s.best == Null
  }

  lemma {:induction false} FoldPrefix(kind: Accumulator, a: seq<Value>, b: seq<Value>, n: nat)
    requires n <= |a|
    ensures FoldTo(kind, a + b, n) == FoldTo(kind, a, n)
  {
    if n > 0 { FoldPrefix(kind, a, b, n - 1); }
  }

  lemma {:induction false} FoldSuffix(kind: Accumulator, a: seq<Value>, b: seq<Value>, n: nat)
    requires n <= |b|
    ensures FoldTo(kind, a + b, |a| + n) == Merge(kind, Fold(kind, a), FoldTo(kind, b, n))
  {
    FoldShape(kind, a, |a|);
    if n == 0 {
      FoldPrefix(kind, a, b, |a|);
    } else {
      FoldSuffix(kind, a, b, n - 1);
      FoldShape(kind, b, n - 1);
      assert (a + b)[|a| + n - 1] == b[n - 1];
      MergeAdd(kind, Fold(kind, a), FoldTo(kind, b, n - 1), b[n - 1]);
    }
  }

  /** Folding two lists one after the other is merging their states. */
  lemma {:induction false} FoldAppend(kind: Accumulator, a: seq<Value>, b: seq<Value>)
    ensures Fold(kind, a + b) == Merge(kind, Fold(kind, a), Fold(kind, b))
  {
    FoldSuffix(kind, a, b, |b|);
  }

  /** Merging and then adding is merging with the value added. */
  lemma {:induction false} MergeAdd(kind: Accumulator, a: State, b: State, v: Value)
    requires kind == SumAcc ==> (!b.hasValue ==> b.sum == 0.0)
    ensures Add(kind, Merge(kind, a, b), v) == Merge(kind, a, Add(kind, b, v))
  {
    if (kind == MinAcc || kind == MaxAcc) && v != Null {
      if b.best != Null { LessTotal(v, b.best); }
      if a.best != Null { LessTotal(v, a.best); }
      if a.best != Null && b.best != Null {
        LessTotal(a.best, b.best);
        LessChain(v, b.best, a.best);
        LessChain(a.best, b.best, v);
        LessChain(v, a.best, b.best);
        LessChain(b.best, a.best, v);
        LessChain(b.best, v, a.best);
        LessChain(a.best, v, b.best);
      }
    }
  }

  lemma {:induction false} LessChain(a: Value, b: Value, c: Value)
    requires a != Null && b != Null && c != Null
    ensures Less(a, b) && Less(b, c) ==> Less(a, c)
  {
    if Less(a, b) && Less(b, c) { LessTransitive(a, b, c); }
  }

  lemma {:induction false} MergeCommutes(kind: Accumulator, a: State, b: State)
    requires Shaped(kind, a) && Shaped(kind, b)
    ensures Merge(kind, a, b) == Merge(kind, b, a)
  {
    if (kind == MinAcc || kind == MaxAcc) && a.best != Null && b.best != Null { LessTotal(a.best, b.best); }
  }

  /** One value may be moved to the end. */
  lemma {:induction false} FoldWithout(kind: Accumulator, b: seq<Value>, i: nat)
    requires i < |b|
    ensures Fold(kind, b) == Add(kind, Fold(kind, b[..i] + b[i + 1..]), b[i])
  {
    var before, one, after := b[..i], [b[i]], b[i + 1..];
    assert b == before + (one + after) && (before + after) + one == before + (after + one);
    FoldAppend(kind, before, one + after);
    FoldAppend(kind, one, after);
    FoldAppend(kind, after, one);
    FoldAppend(kind, before, after + one);
    FoldShape(kind, one, 1);
    FoldShape(kind, after, |after|);
    MergeCommutes(kind, Fold(kind, one), Fold(kind, after));
    FoldPrefix(kind, before + after, one, |before + after|);
  }

  /** The order of the values does not matter. */
  lemma {:induction false} FoldPermuted(kind: Accumulator, a: seq<Value>, b: seq<Value>)
    requires multiset(a) == multiset(b)
    ensures Fold(kind, a) == Fold(kind, b)
  {
    assert |multiset(a)| == |a| && |multiset(b)| == |b|;
    if a != [] {
      var last := a[|a| - 1];
      assert last in multiset(b);
      var i :| 0 <= i < |b| && b[i] == last;
      FoldWithout(kind, b, i);
      FoldWithout(kind, a, |a| - 1);
      assert a[..|a| - 1] + a[|a| - 1 + 1..] == a[..|a| - 1];
      OneOut(a, b, i);
      FoldPermuted(kind, a[..|a| - 1], b[..i] + b[i + 1..]);
    }
  }

  lemma {:induction false} OneOut<T>(a: seq<T>, b: seq<T>, i: nat)
    requires a != [] && multiset(a) == multiset(b) && i < |b| && b[i] == a[|a| - 1]
    ensures multiset(a[..|a| - 1]) == multiset(b[..i] + b[i + 1..])
  {
    assert a == a[..|a| - 1] + [a[|a| - 1]];
    assert b == b[..i] + ([b[i]] + b[i + 1..]);
    assert multiset(a[..|a| - 1]) == multiset(a) - multiset{a[|a| - 1]};
    assert multiset(b[..i] + b[i + 1..]) == multiset(b) - multiset{b[i]};
  }

  // ---------- final over partial ----------

  function Lists(lists: seq<seq<Value>>, n: nat): seq<Value>
    requires n <= |lists|
  {
    if n == 0 then [] else Lists(lists, n - 1) + lists[n - 1]
  }

  function PartialsOf(f: AggregateFunction, lists: seq<seq<Value>>, n: nat): (ps: seq<Partial>)
    requires n <= |lists|
    ensures |ps| == n && forall i :: 0 <= i < n ==> ps[i] == PartialOf(f, lists[i])
  {
    seq(n, i requires 0 <= i < n => PartialOf(f, lists[i]))
  }

  lemma {:induction false} ColumnPush(ps: seq<Partial>, p: Partial, pick: Partial -> Value)
    ensures Column(ps + [p], pick) == Column(ps, pick) + [pick(p)]
  {}

  lemma {:induction false} FoldPush(kind: Accumulator, vals: seq<Value>, v: Value)
    ensures Fold(kind, vals + [v]) == Add(kind, Fold(kind, vals), v)
  {
    FoldPrefix(kind, vals, [v], |vals|);
  }

  /** Adding the result of a sum, minimum or maximum is merging its state. */
  lemma {:induction false} AddResult(kind: Accumulator, s: State, t: State)
    requires kind == SumAcc || kind == MinAcc || kind == MaxAcc
    requires Shaped(kind, s) && Shaped(kind, t)
    ensures Add(kind, s, Result(kind, t)) == Merge(kind, s, t)
  {}

  /** SUM, MIN and MAX of the partial results are those of all values. */
  lemma {:induction false} SameKindFinal(f: AggregateFunction, lists: seq<seq<Value>>, n: nat)
    requires n <= |lists| && (f == SumOf || f == MinOf || f == MaxOf)
    ensures Fold(AccumulatorOf(f), Column(PartialsOf(f, lists, n), Only)) == Fold(AccumulatorOf(f), Lists(lists, n))
  {
    if n > 0 {
      var kind, before, part := AccumulatorOf(f), Lists(lists, n - 1), lists[n - 1];
      SameKindFinal(f, lists, n - 1);
      ColumnOfPartials(f, lists, n, kind, Only);
      FoldAppend(kind, before, part);
      FoldShape(kind, before, |before|);
      FoldShape(kind, part, |part|);
      AddResult(kind, Fold(kind, before), Fold(kind, part));
    }
  }

  /** A fold over a column of the partial rows takes one step per row. */
  lemma {:induction false} ColumnOfPartials(f: AggregateFunction, lists: seq<seq<Value>>, n: nat, kind: Accumulator,
                                            pick: Partial -> Value)
    requires 0 < n <= |lists|
    ensures Fold(kind, Column(PartialsOf(f, lists, n), pick))
      == Add(kind, Fold(kind, Column(PartialsOf(f, lists, n - 1), pick)), pick(PartialOf(f, lists[n - 1])))
  {
    var front, last := PartialsOf(f, lists, n - 1), PartialOf(f, lists[n - 1]);
    assert PartialsOf(f, lists, n) == front + [last];
    ColumnPush(front, last, pick);
    FoldPush(kind, Column(front, pick), pick(last));
  }

  /** The sum of partial counts is the count of all values; over no partial row it is null. */
  lemma {:induction false} CountFinal(f: AggregateFunction, lists: seq<seq<Value>>, n: nat)
    requires n <= |lists| && (f == CountOf || f == CountStar)
    ensures var s := Fold(SumAcc, Column(PartialsOf(f, lists, n), Only));
      s.sum == Fold(AccumulatorOf(f), Lists(lists, n)).count as real && s.hasValue == (n > 0)
  {
    if n > 0 {
      CountFinal(f, lists, n - 1);
      ColumnOfPartials(f, lists, n, SumAcc, Only);
      FoldAppend(AccumulatorOf(f), Lists(lists, n - 1), lists[n - 1]);
    }
  }

  /** The average accumulator keeps the sum and the count the other two keep. */
  lemma {:induction false} AverageParts(vals: seq<Value>, n: nat)
    requires n <= |vals|
    ensures FoldTo(AvgAcc, vals, n).sum == FoldTo(SumAcc, vals, n).sum
    ensures FoldTo(AvgAcc, vals, n).count == FoldTo(CountAcc, vals, n).count
    ensures FoldTo(SumAcc, vals, n).hasValue <==> FoldTo(CountAcc, vals, n).count > 0
  {
    if n > 0 { AverageParts(vals, n - 1); }
  }

  /** Sums and counts as partial averages have them. */
  predicate PartialAverage(p: Partial) {
    && p.SumAndCount? && p.count.Num? && p.count.n >= 0.0 && p.count.n == p.count.n.Floor as real
    && (p.sum.Num? || (p.sum == Null && p.count.n == 0.0))
  }

  predicate PartialAverages(ps: seq<Partial>) {
    forall i :: 0 <= i < |ps| ==> PartialAverage(ps[i])
  }

  lemma {:induction false} AveragesAreSums(ps: seq<Partial>, n: nat)
    requires n <= |ps| && PartialAverages(ps)
    ensures FoldAveragesTo(ps, n).sum == FoldTo(SumAcc, Column(ps, SumPart), n).sum
    ensures FoldAveragesTo(ps, n).count as real == FoldTo(SumAcc, Column(ps, CountPart), n).sum
  {
    if n > 0 { AveragesAreSums(ps, n - 1); }
  }

  lemma {:induction false} OneAverage(part: seq<Value>)
    ensures var p := PartialOf(AvgOf, part);
      && PartialAverage(p) && NumberOf(p.sum) == Fold(AvgAcc, part).sum
        && NumberOf(p.count) == Fold(AvgAcc, part).count as real
  {
    AverageParts(part, |part|);
    FoldShape(SumAcc, part, |part|);
  }

  lemma {:induction false} AllAverages(lists: seq<seq<Value>>)
    ensures PartialAverages(PartialsOf(AvgOf, lists, |lists|))
  {
    forall i | 0 <= i < |lists| ensures PartialAverage(PartialsOf(AvgOf, lists, |lists|)[i]) { OneAverage(lists[i]); }
  }

  /** The sums of the partial rows add up to the sum of all values. */
  lemma {:induction false} AverageSums(lists: seq<seq<Value>>, n: nat)
    requires n <= |lists|
    ensures Fold(SumAcc, Column(PartialsOf(AvgOf, lists, n), SumPart)).sum == Fold(AvgAcc, Lists(lists, n)).sum
  {
    if n > 0 {
      AverageSums(lists, n - 1);
      OneAverage(lists[n - 1]);
      ColumnSum(lists, n, SumPart);
      AverageAppend(Lists(lists, n - 1), lists[n - 1]);
    }
  }

  /** The counts of the partial rows add up to the count of all values. */
  lemma {:induction false} AverageCounts(lists: seq<seq<Value>>, n: nat)
    requires n <= |lists|
    ensures Fold(SumAcc, Column(PartialsOf(AvgOf, lists, n), CountPart)).sum
            == Fold(AvgAcc, Lists(lists, n)).count as real
  {
    if n > 0 {
      AverageCounts(lists, n - 1);
      OneAverage(lists[n - 1]);
      ColumnSum(lists, n, CountPart);
      AverageAppend(Lists(lists, n - 1), lists[n - 1]);
    }
  }

  lemma {:induction false} AverageAppend(a: seq<Value>, b: seq<Value>)
    ensures Fold(AvgAcc, a + b).sum == Fold(AvgAcc, a).sum + Fold(AvgAcc, b).sum
    ensures Fold(AvgAcc, a + b).count as real == Fold(AvgAcc, a).count as real + Fold(AvgAcc, b).count as real
  {
    FoldAppend(AvgAcc, a, b);
  }

  lemma {:induction false} ColumnSum(lists: seq<seq<Value>>, n: nat, pick: Partial -> Value)
    requires 0 < n <= |lists|
    ensures Fold(SumAcc, Column(PartialsOf(AvgOf, lists, n), pick)).sum
      == Fold(SumAcc, Column(PartialsOf(AvgOf, lists, n - 1), pick)).sum
        + NumberOf(pick(PartialOf(AvgOf, lists[n - 1])))
  {
    ColumnOfPartials(AvgOf, lists, n, SumAcc, pick);
    AddsNumber(Fold(SumAcc, Column(PartialsOf(AvgOf, lists, n - 1), pick)), pick(PartialOf(AvgOf, lists[n - 1])));
  }

  lemma {:induction false} AddsNumber(s: State, v: Value)
    ensures Add(SumAcc, s, v).sum == s.sum + NumberOf(v)
  {}

  lemma {:induction false} ColumnWithout(b: seq<Partial>, i: nat, pick: Partial -> Value)
    requires i < |b|
    ensures multiset(Column(b, pick)) == multiset(Column(b[..i] + b[i + 1..], pick)) + multiset{pick(b[i])}
  {
    var before, after := Column(b[..i], pick), Column(b[i + 1..], pick);
    assert Column(b, pick) == before + ([pick(b[i])] + after);
    assert Column(b[..i] + b[i + 1..], pick) == before + after;
  }

  lemma {:induction false} ColumnPermuted(a: seq<Partial>, b: seq<Partial>, pick: Partial -> Value)
    requires multiset(a) == multiset(b)
    ensures multiset(Column(a, pick)) == multiset(Column(b, pick))
  {
    assert |multiset(a)| == |a| && |multiset(b)| == |b|;
    if a != [] {
      var last := a[|a| - 1];
      assert last in multiset(b);
      var i :| 0 <= i < |b| && b[i] == last;
      OneOut(a, b, i);
      ColumnWithout(b, i, pick);
      ColumnWithout(a, |a| - 1, pick);
      assert a[..|a| - 1] + a[|a| - 1 + 1..] == a[..|a| - 1];
      ColumnPermuted(a[..|a| - 1], b[..i] + b[i + 1..], pick);
    }
  }

  lemma {:induction false} AveragesPermuted(a: seq<Partial>, b: seq<Partial>)
    requires multiset(a) == multiset(b) && PartialAverages(b)
    ensures PartialAverages(a) && FoldAverages(a).sum == FoldAverages(b).sum
            && FoldAverages(a).count == FoldAverages(b).count
  {
    forall i | 0 <= i < |a| ensures a[i] in b { assert a[i] in multiset(a); }
    AveragesAreSums(a, |a|);
    AveragesAreSums(b, |b|);
    ColumnPermuted(a, b, SumPart);
    ColumnPermuted(a, b, CountPart);
    FoldPermuted(SumAcc, Column(a, SumPart), Column(b, SumPart));
    FoldPermuted(SumAcc, Column(a, CountPart), Column(b, CountPart));
  }

  /** The final aggregate over the partial rows of at least one list, in whatever order they arrive, is the direct
      aggregate over all values. */
  lemma {:induction false} FinalIsDirect(f: AggregateFunction, lists: seq<seq<Value>>, arrived: seq<Partial>)
    requires lists != [] && multiset(arrived) == multiset(PartialsOf(f, lists, |lists|))
    ensures Final(f, arrived) == Direct(f, Lists(lists, |lists|))
    ensures IsAggregate(f, Lists(lists, |lists|), Final(f, arrived))
  {
    DirectMeans(f, Lists(lists, |lists|));
    var ps := PartialsOf(f, lists, |lists|);
    if f == AvgOf {
      AverageSums(lists, |lists|);
      AverageCounts(lists, |lists|);
      AllAverages(lists);
      AveragesPermuted(arrived, ps);
      AveragesAreSums(ps, |ps|);
    } else {
      ColumnPermuted(arrived, ps, Only);
      FoldPermuted(FinalAccumulatorOf(f), Column(arrived, Only), Column(ps, Only));
      if f == CountOf || f == CountStar {
        CountFinal(f, lists, |lists|);
      } else {
        SameKindFinal(f, lists, |lists|);
      }
    }
  }

  /** Over no partial row every aggregate but a count would come out right. */
  lemma {:induction false} NoPartialRow(f: AggregateFunction)
    ensures Final(f, []) == Direct(f, []) <==> f != CountOf && f != CountStar
  {}

  /** Why a partition without groups emits a row even over no input: the final aggregate is the direct one exactly
      when some partial row arrives or the aggregate is not a count. */
  lemma {:induction false} FinalExact(f: AggregateFunction, lists: seq<seq<Value>>, arrived: seq<Partial>)
    requires multiset(arrived) == multiset(PartialsOf(f, lists, |lists|))
    ensures Final(f, arrived) == Direct(f, Lists(lists, |lists|)) <==> arrived != [] || (f != CountOf && f != CountStar)
  {
    assert |arrived| == |multiset(arrived)| == |PartialsOf(f, lists, |lists|)|;
    if lists != [] {
      FinalIsDirect(f, lists, arrived);
    } else {
      NoPartialRow(f);
    }
  }

  // ---------- groups ----------

  datatype Input = Input(key: seq<Value>, arg: Value)

  function ArgsTo(rows: seq<Input>, key: seq<Value>, n: nat): seq<Value>
    requires n <= |rows|
  {
    if n == 0 then []
    else ArgsTo(rows, key, n - 1) + if rows[n - 1].key == key then [rows[n - 1].arg] else []
  }

  /** The arguments of the rows of one group. */
  function Args(rows: seq<Input>, key: seq<Value>): seq<Value> {
    ArgsTo(rows, key, |rows|)
  }

  function Rows(parts: seq<seq<Input>>, n: nat): seq<Input>
    requires n <= |parts|
  {
    if n == 0 then [] else Rows(parts, n - 1) + parts[n - 1]
  }

  predicate Occurs(rows: seq<Input>, key: seq<Value>) {
    exists i :: 0 <= i < |rows| && rows[i].key == key
  }

  /** The argument lists of a group on the partitions where it occurs. */
  function GroupLists(parts: seq<seq<Input>>, key: seq<Value>, n: nat): seq<seq<Value>>
    requires n <= |parts|
  {
    if n == 0 then []
    else GroupLists(parts, key, n - 1) + if Occurs(parts[n - 1], key) then [Args(parts[n - 1], key)] else []
  }

  lemma {:induction false} ArgsPrefix(a: seq<Input>, b: seq<Input>, key: seq<Value>, n: nat)
    requires n <= |a|
    ensures ArgsTo(a + b, key, n) == ArgsTo(a, key, n)
  {
    if n > 0 { ArgsPrefix(a, b, key, n - 1); }
  }

  lemma {:induction false} ArgsSuffix(a: seq<Input>, b: seq<Input>, key: seq<Value>, n: nat)
    requires n <= |b|
    ensures ArgsTo(a + b, key, |a| + n) == Args(a, key) + ArgsTo(b, key, n)
  {
    if n == 0 {
      ArgsPrefix(a, b, key, |a|);
    } else {
      ArgsSuffix(a, b, key, n - 1);
      assert (a + b)[|a| + n - 1] == b[n - 1];
    }
  }

  lemma {:induction false} NoArgs(rows: seq<Input>, key: seq<Value>, n: nat)
    requires n <= |rows| && !Occurs(rows, key)
    ensures ArgsTo(rows, key, n) == []
  {
    if n > 0 { NoArgs(rows, key, n - 1); }
  }

  lemma {:induction false} ListsPush(lists: seq<seq<Value>>, more: seq<Value>, n: nat)
    requires n <= |lists|
    ensures Lists(lists + [more], n) == Lists(lists, n)
  {
    if n > 0 { ListsPush(lists, more, n - 1); }
  }

  lemma {:induction false} GroupArgs(parts: seq<seq<Input>>, key: seq<Value>, n: nat)
    requires n <= |parts|
    ensures var lists := GroupLists(parts, key, n); Lists(lists, |lists|) == Args(Rows(parts, n), key)
  {
    if n > 0 {
      var lists := GroupLists(parts, key, n - 1);
      GroupArgs(parts, key, n - 1);
      ArgsSuffix(Rows(parts, n - 1), parts[n - 1], key, |parts[n - 1]|);
      if Occurs(parts[n - 1], key) {
        ListsPush(lists, Args(parts[n - 1], key), |lists|);
      } else {
        NoArgs(parts[n - 1], key, |parts[n - 1]|);
        assert GroupLists(parts, key, n) == lists;
      }
    }
  }

  /** A group reaches the final aggregate exactly when it occurs in the data. */
  lemma {:induction false} GroupReaches(parts: seq<seq<Input>>, key: seq<Value>, n: nat)
    requires n <= |parts|
    ensures GroupLists(parts, key, n) != [] <==> Occurs(Rows(parts, n), key)
  {
    if n > 0 {
      var before, part := Rows(parts, n - 1), parts[n - 1];
      GroupReaches(parts, key, n - 1);
      if Occurs(before, key) {
        var i :| 0 <= i < |before| && before[i].key == key;
        assert (before + part)[i].key == key;
      }
      if Occurs(part, key) {
        var i :| 0 <= i < |part| && part[i].key == key;
        assert (before + part)[|before| + i].key == key;
      }
    }
  }

  /** Without groups every row has the empty key and every partition emits a row, be it empty or not. */
  function AllLists(parts: seq<seq<Input>>, n: nat): (lists: seq<seq<Value>>)
    requires n <= |parts|
    ensures |lists| == n
  {
    if n == 0 then [] else AllLists(parts, n - 1) + [Args(parts[n - 1], [])]
  }

  lemma {:induction false} AllArgs(parts: seq<seq<Input>>, n: nat)
    requires n <= |parts|
    ensures Lists(AllLists(parts, n), n) == Args(Rows(parts, n), [])
  {
    if n > 0 {
      AllArgs(parts, n - 1);
      ArgsSuffix(Rows(parts, n - 1), parts[n - 1], [], |parts[n - 1]|);
      ListsPush(AllLists(parts, n - 1), Args(parts[n - 1], []), n - 1);
    }
  }

  /** Aggregation without groups: over any partitions, all of them empty if need be, the final value over their partial
      rows, in any order, is the value over all the rows. There is always a partition, if only the coordinator. */
  lemma {:induction false} UngroupedFinalIsDirect(f: AggregateFunction, parts: seq<seq<Input>>, arrived: seq<Partial>)
    requires parts != [] && multiset(arrived) == multiset(PartialsOf(f, AllLists(parts, |parts|), |parts|))
    ensures Final(f, arrived) == Direct(f, Args(Rows(parts, |parts|), []))
    ensures IsAggregate(f, Args(Rows(parts, |parts|), []), Final(f, arrived))
  {
    DirectMeans(f, Args(Rows(parts, |parts|), []));
    AllArgs(parts, |parts|);
    FinalIsDirect(f, AllLists(parts, |parts|), arrived);
  }

  /** Grouped aggregation: for every group of the data, the final value over the partial rows of the partitions
      where the group occurs, in any order, is the value over all the group's rows. */
  lemma {:induction false} GroupedFinalIsDirect(f: AggregateFunction, parts: seq<seq<Input>>, key: seq<Value>,
                                                arrived: seq<Partial>)
    requires Occurs(Rows(parts, |parts|), key)
    requires var lists := GroupLists(parts, key, |parts|); multiset(arrived) == multiset(PartialsOf(f, lists, |lists|))
    ensures Final(f, arrived) == Direct(f, Args(Rows(parts, |parts|), key))
    ensures IsAggregate(f, Args(Rows(parts, |parts|), key), Final(f, arrived))
  {
    DirectMeans(f, Args(Rows(parts, |parts|), key));
    GroupReaches(parts, key, |parts|);
    GroupArgs(parts, key, |parts|);
    FinalIsDirect(f, GroupLists(parts, key, |parts|), arrived);
  }
}
