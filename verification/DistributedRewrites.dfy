/** The distributed rewrites, node by node: what runs is what the plan means. */
module DistributedRewrites {
  import opened Sequences
  import opened RowOrder
  import opened SortedRows
  import opened MergeSpec
  import opened MergeExchanges
  import opened DistributedPlans
  import opened DistributedRows
  import opened DistributedRefinement
  import opened DistributedTop
  import opened DistributedPasses

  /** A node that makes the same of its input, over an input rewritten faithfully. */
  lemma {:induction false} SameStepFaithful(data: Data, node: DPlan, node': DPlan)
    requires Unary(node) && Unary(node') && !node'.Exchange? && !node'.MergeExchange?
             && Faithful(data, node.child, node'.child)
    requires forall rows, out :: Step(node', rows, out) ==> Step(node, rows, out)
    ensures Faithful(data, node, node')
  {
    forall out | Runs(data, node', out) ensures Means(data, Everywhere, node, out) {
      var rows :| Runs(data, node'.child, rows) && Step(node', rows, out);
      assert Means(data, Everywhere, node.child, rows) && Step(node, rows, out);
    }
  }

  /** What an exchange delivers: the pool of the partitions, or what its child yields in one place. */
  lemma {:induction false} ExchangeRows(data: Data, plan: DPlan, rewritten: DPlan, out: seq<Row>)
      returns (rows: seq<Row>)
    requires Faithful(data, plan, rewritten) && Poolable(data, plan, rewritten) && Runs(data, Exchange(rewritten), out)
    ensures Means(data, Everywhere, plan, rows) && multiset(rows) == multiset(out)
  {
    if Placed(data, rewritten, true) {
      var parts :| Gathers(data, rewritten, parts) && multiset(out) == Pool(parts);
      rows := SpreadRows(data, plan, rewritten, parts);
    } else {
      rows := out;
    }
  }

  // ---------- DISTINCT ----------

  ghost predicate SameMembers(a: multiset<Row>, b: multiset<Row>) {
    forall r :: r in a <==> r in b
  }

  lemma {:induction false} PoolSameMembers(a: seq<seq<Row>>, b: seq<seq<Row>>, n: nat)
    requires n <= |a| == |b| && forall p {:trigger a[p]} :: 0 <= p < n ==> SameMembers(multiset(a[p]), multiset(b[p]))
    ensures SameMembers(PoolTo(a, n), PoolTo(b, n))
  {
    if n > 0 {
      assert SameMembers(multiset(a[n - 1]), multiset(b[n - 1]));
      PoolSameMembers(a, b, n - 1);
    }
  }

  lemma {:induction false} DistinctMembers(out: seq<Row>, bag: multiset<Row>)
    requires IsDistinctOf(out, bag)
    ensures SameMembers(multiset(out), bag)
  {
    forall r ensures r in multiset(out) <==> r in bag { assert multiset(out)[r] == if r in bag then 1 else 0; }
  }

  lemma {:induction false} DistinctOfSame(out: seq<Row>, a: multiset<Row>, b: multiset<Row>)
    requires IsDistinctOf(out, a) && SameMembers(a, b)
    ensures IsDistinctOf(out, b)
  {
    forall r ensures multiset(out)[r] == if r in b then 1 else 0 {
      assert r in a <==> r in b;
    }
  }

  /** Rows that show what a local Distinct left of the data of the original child. */
  lemma {:induction false} LocalDistinct(data: Data, c: DPlan, c': DPlan, gathered: seq<Row>) returns (rows: seq<Row>)
    requires Faithful(data, c, c') && Poolable(data, c, c') && Runs(data, Exchange(Distinct(c')), gathered)
    ensures Means(data, Everywhere, c, rows) && SameMembers(multiset(gathered), multiset(rows))
  {
    var local := Distinct(c');
    if Placed(data, local, true) {
      PlacedIsLocal(data, c');
      var parts :| Gathers(data, local, parts) && multiset(gathered) == Pool(parts);
      var below := GathersBelow(data, local, parts);
      rows := SpreadRows(data, c, c', below);
      forall p | 0 <= p < |parts| ensures SameMembers(multiset(parts[p]), multiset(below[p])) {
        assert Step(local, below[p], parts[p]);
        DistinctMembers(parts[p], multiset(below[p]));
      }
      PoolSameMembers(parts, below, |parts|);
    } else {
      assert Runs(data, local, gathered);
      rows :| Runs(data, c', rows) && IsDistinctOf(gathered, multiset(rows));
      DistinctMembers(gathered, multiset(rows));
    }
  }

  /** Distinct on every partition and once more on what is gathered is Distinct. */
  lemma {:induction false} DistinctRefines(data: Data, c: DPlan, c': DPlan)
    requires Faithful(data, c, c') && Poolable(data, c, c')
    ensures var rewritten := RewriteDistinct(data, Distinct(c'));
      Faithful(data, Distinct(c), rewritten) && Poolable(data, Distinct(c), rewritten)
  {
    var rewritten := RewriteDistinct(data, Distinct(c'));
    if PartitionedTables(data, c') == {} {
      SameStepFaithful(data, Distinct(c), rewritten);
      if Placed(data, c', false) { PlacedIsLocal(data, c'); }
    } else {
      assert !Placed(data, Exchange(Distinct(c')), false);
      forall out | Runs(data, rewritten, out) ensures Means(data, Everywhere, Distinct(c), out) {
        var gathered :| Runs(data, Exchange(Distinct(c')), gathered) && IsDistinctOf(out, multiset(gathered));
        var rows := LocalDistinct(data, c, c', gathered);
        DistinctOfSame(out, multiset(gathered), multiset(rows));
        assert Step(Distinct(c), rows, out);
      }
    }
  }

  // ---------- UNION ----------

  /** What the inputs of a union yielded on the first n partitions. */
  lemma {:induction false} UnionParts(data: Data, plan: DPlan, parts: seq<seq<Row>>, n: nat)
      returns (l: seq<seq<Row>>, r: seq<seq<Row>>)
    requires plan.Union? && Gathers(data, plan, parts) && n <= data.count
    ensures |l| == |r| == n
    ensures forall p {:trigger l[p]} {:trigger r[p]} :: 0 <= p < n ==>
              && Means(data, Partition(p), plan.left, l[p]) && Means(data, Partition(p), plan.right, r[p])
              && UnionOf(plan.all, l[p], r[p], parts[p])
  {
    l, r := [], [];
    if n > 0 {
      var a, b := UnionParts(data, plan, parts, n - 1);
      assert Means(data, Partition(n - 1), plan, parts[n - 1]);
      var x, y :| Means(data, Partition(n - 1), plan.left, x) && Means(data, Partition(n - 1), plan.right, y)
        && UnionOf(plan.all, x, y, parts[n - 1]);
      l, r := a + [x], b + [y];
    }
  }

  lemma {:induction false} PoolSum(l: seq<seq<Row>>, r: seq<seq<Row>>, parts: seq<seq<Row>>, n: nat)
    requires n <= |parts| == |l| == |r|
    requires forall p {:trigger parts[p]} :: 0 <= p < n ==> multiset(parts[p]) == multiset(l[p]) + multiset(r[p])
    ensures PoolTo(parts, n) == PoolTo(l, n) + PoolTo(r, n)
  {
    if n > 0 {
      assert multiset(parts[n - 1]) == multiset(l[n - 1]) + multiset(r[n - 1]);
      PoolSum(l, r, parts, n - 1);
    }
  }

  lemma {:induction false} PoolUnionMembers(l: seq<seq<Row>>, r: seq<seq<Row>>, parts: seq<seq<Row>>, n: nat)
    requires n <= |parts| == |l| == |r|
    requires forall p {:trigger parts[p]} :: 0 <= p < n ==> IsDistinctOf(parts[p], multiset(l[p]) + multiset(r[p]))
    ensures SameMembers(PoolTo(parts, n), PoolTo(l, n) + PoolTo(r, n))
  {
    if n > 0 {
      assert IsDistinctOf(parts[n - 1], multiset(l[n - 1]) + multiset(r[n - 1]));
      DistinctMembers(parts[n - 1], multiset(l[n - 1]) + multiset(r[n - 1]));
      PoolUnionMembers(l, r, parts, n - 1);
    }
  }

  /** Rows of two inputs that spread, and what a union of them yields on the partitions. */
  lemma {:induction false} SpreadUnion(data: Data, node: DPlan, parts: seq<seq<Row>>) returns (a: seq<Row>, b: seq<Row>)
    requires node.Union? && Spreads(data, node.left, node.left) && Spreads(data, node.right, node.right)
             && Gathers(data, node, parts)
    ensures Means(data, Everywhere, node.left, a) && Means(data, Everywhere, node.right, b)
    ensures if node.all then Pool(parts) == multiset(a) + multiset(b)
            else SameMembers(Pool(parts), multiset(a) + multiset(b))
  {
    var l, r := UnionParts(data, node, parts, data.count);
    assert Gathers(data, node.left, l) && Gathers(data, node.right, r);
    a := SpreadRows(data, node.left, node.left, l);
    b := SpreadRows(data, node.right, node.right, r);
    forall p | 0 <= p < |parts| ensures UnionOf(node.all, l[p], r[p], parts[p]) { assert l[p] == l[p]; }
    if node.all { PoolSum(l, r, parts, |parts|); } else { PoolUnionMembers(l, r, parts, |parts|); }
  }

  /** UNION ALL may stay on the partitions: together they yield the union of all the data. */
  lemma {:induction false} UnionAllSpreads(data: Data, node: DPlan)
    requires node.Union? && node.all && Spreads(data, node.left, node.left) && Spreads(data, node.right, node.right)
    ensures Spreads(data, node, node)
  {
    forall parts | Gathers(data, node, parts)
      ensures exists rows :: Means(data, Everywhere, node, rows) && multiset(rows) == Pool(parts)
    {
      var a, b := SpreadUnion(data, node, parts);
      assert UnionOf(node.all, a, b, a + b);
      assert Means(data, Everywhere, node, a + b);
    }
  }

  lemma {:induction false} UnionMeans(data: Data, all: bool, l: DPlan, r: DPlan, a: seq<Row>, b: seq<Row>,
                                      out: seq<Row>)
    requires Means(data, Everywhere, l, a) && Means(data, Everywhere, r, b) && UnionOf(all, a, b, out)
    ensures Means(data, Everywhere, Union(all, l, r), out)
  {}

  lemma {:induction false} UnionInputs(data: Data, all: bool, l: DPlan, r: DPlan, out: seq<Row>)
      returns (a: seq<Row>, b: seq<Row>)
    requires Runs(data, Union(all, l, r), out)
    ensures Runs(data, l, a) && Runs(data, r, b) && UnionOf(all, a, b, out)
  {
    a, b :| Runs(data, l, a) && Runs(data, r, b) && UnionOf(all, a, b, out);
  }

  lemma {:induction false} UnionFaithful(data: Data, all: bool, l: DPlan, r: DPlan, l': DPlan, r': DPlan)
    requires Faithful(data, l, l') && Faithful(data, r, r')
    ensures Faithful(data, Union(all, l, r), Union(all, l', r'))
  {
    forall out | Runs(data, Union(all, l', r'), out) ensures Means(data, Everywhere, Union(all, l, r), out) {
      var a, b := UnionInputs(data, all, l', r', out);
      UnionMeans(data, all, l, r, a, b, out);
    }
  }

  /** UNION on the partitions with a final Distinct is UNION. */
  lemma {:induction false} PartitionWiseUnion(data: Data, node: DPlan)
    requires WellPartitioned(data) && node.Union? && PartitionWise(data, node) && !node.all
             && Faithful(data, node, node)
    ensures Faithful(data, node, Distinct(Exchange(node)))
  {
    LocalSpreads(data, node.left);
    LocalSpreads(data, node.right);
    forall out | Runs(data, Distinct(Exchange(node)), out) ensures Means(data, Everywhere, node, out) {
      var gathered :| Runs(data, Exchange(node), gathered) && IsDistinctOf(out, multiset(gathered));
      var a, b;
      if Placed(data, node, true) {
        var parts :| Gathers(data, node, parts) && multiset(gathered) == Pool(parts);
        a, b := SpreadUnion(data, node, parts);
      } else {
        assert Means(data, Everywhere, node, gathered);
        a, b :| Means(data, Everywhere, node.left, a) && Means(data, Everywhere, node.right, b)
          && UnionOf(false, a, b, gathered);
        DistinctMembers(gathered, multiset(a) + multiset(b));
      }
      DistinctOfSame(out, multiset(gathered), multiset(a) + multiset(b));
      assert UnionOf(node.all, a, b, out);
    }
  }

  /** An input of a union, exchanged when it scans partitioned tables. */
  lemma {:induction false} ExchangedRows(data: Data, c: DPlan, c': DPlan, out: seq<Row>) returns (rows: seq<Row>)
    requires Faithful(data, c, c') && Poolable(data, c, c') && Runs(data, Exchanged(data, c'), out)
    ensures Means(data, Everywhere, c, rows) && multiset(rows) == multiset(out)
  {
    if PartitionedTables(data, c') == {} { rows := out; } else { rows := ExchangeRows(data, c, c', out); }
  }

  lemma {:induction false} ExchangedUnion(data: Data, all: bool, l: DPlan, r: DPlan, l': DPlan, r': DPlan)
    requires Faithful(data, l, l') && Poolable(data, l, l') && Faithful(data, r, r') && Poolable(data, r, r')
    ensures Faithful(data, Union(all, l, r), Union(all, Exchanged(data, l'), Exchanged(data, r')))
  {
    var rewritten := Union(all, Exchanged(data, l'), Exchanged(data, r'));
    forall out | Runs(data, rewritten, out) ensures Means(data, Everywhere, Union(all, l, r), out) {
      var a, b := UnionInputs(data, all, Exchanged(data, l'), Exchanged(data, r'), out);
      var x := ExchangedRows(data, l, l', a);
      var y := ExchangedRows(data, r, r', b);
      UnionMeans(data, all, l, r, x, y, out);
    }
  }

  lemma {:induction false} ExchangedNotPlaced(data: Data, c: DPlan)
    ensures !Placed(data, Exchanged(data, c), false)
  {
    if Placed(data, c, false) { PlacedIsLocal(data, c); }
  }

  /** UNION and UNION ALL, whichever way they are rewritten; inputs that are partitioned alike are unchanged. */
  lemma {:induction false} UnionRefines(data: Data, all: bool, l: DPlan, r: DPlan, l': DPlan, r': DPlan)
    requires WellPartitioned(data)
    requires Faithful(data, l, l') && Poolable(data, l, l') && Faithful(data, r, r') && Poolable(data, r, r')
    requires (IsLocal(data, l') ==> l' == l) && (IsLocal(data, r') ==> r' == r)
    ensures var rewritten := RewriteUnion(data, Union(all, l', r'));
      Faithful(data, Union(all, l, r), rewritten) && Poolable(data, Union(all, l, r), rewritten)
  {
    var node := Union(all, l', r');
    UnionFaithful(data, all, l, r, l', r');
    ExchangedNotPlaced(data, l');
    ExchangedNotPlaced(data, r');
    if PartitionedTables(data, node) == {} {
      assert Exchanged(data, l') == l' && Exchanged(data, r') == r';
    } else if PartitionWise(data, node) {
      if all {
        LocalSpreads(data, l);
        LocalSpreads(data, r);
        UnionAllSpreads(data, node);
      } else {
        PartitionWiseUnion(data, node);
        assert !Placed(data, Exchange(node), false);
      }
    } else {
      ExchangedUnion(data, all, l, r, l', r');
    }
  }

  // ---------- Sort ----------

  /** A merge of sorted streams is the sorted whole. */
  lemma {:induction false} MergedSortRefines(data: Data, keys: seq<OrderKey>, c: DPlan, c': DPlan)
    requires Faithful(data, c, c')
    ensures Faithful(data, Sort(keys, c), MergedSort(keys, c'))
  {
    var local := Sort(keys, c');
    forall out | Runs(data, MergedSort(keys, c'), out) ensures Means(data, Everywhere, Sort(keys, c), out) {
      var below, locals :| Streams(data, c', below) && StepAll(local, below, locals)
        && Merged(keys, 0, Pool(locals), out);
      var rows := StreamsAreRows(data, c', below);
      forall p | 0 <= p < |locals| ensures multiset(locals[p]) == multiset(below[p]) {
        assert Step(local, below[p], locals[p]);
      }
      PoolSame(locals, below, |locals|);
      var rest: seq<Row> :| Sorted(keys, out + rest) && multiset(out + rest) == Pool(locals);
      SortedPart(keys, out, rest);
      assert Step(Sort(keys, c), rows, out);
    }
  }

  lemma {:induction false} SortRefines(data: Data, keys: seq<OrderKey>, c: DPlan, c': DPlan)
    requires Faithful(data, c, c') && Poolable(data, c, c')
    ensures Faithful(data, Sort(keys, c), Sort(keys, c')) && Poolable(data, Sort(keys, c), Sort(keys, c'))
  {
    SameStepFaithful(data, Sort(keys, c), Sort(keys, c'));
    if Placed(data, c', false) {
      PlacedIsLocal(data, c');
      StepSpreads(data, Sort(keys, c), Sort(keys, c'));
    }
  }

  // ---------- TopN ----------

  ghost predicate TopCut(local: DPlan, rows: seq<Row>, part: seq<Row>, whole: seq<Row>, last: seq<Row>)
    requires local.TopN?
  {
    Sorted(local.keys, whole) && multiset(whole) == multiset(rows) && whole == part + last
      && |part| == Min(local.count, |whole|)
  }

  /** The sorted rows of every stream, and what a local TopN cuts off them. */
  lemma {:induction false} TopCuts(local: DPlan, below: seq<seq<Row>>, parts: seq<seq<Row>>, n: nat)
      returns (sorted: seq<seq<Row>>, lasts: seq<seq<Row>>)
    requires local.TopN? && local.offset == 0 && StepAll(local, below, parts) && n <= |parts|
    ensures |sorted| == |lasts| == n
    ensures forall p {:trigger sorted[p]} {:trigger lasts[p]} :: 0 <= p < n ==>
            TopCut(local, below[p], parts[p], sorted[p], lasts[p])
  {
    sorted, lasts := [], [];
    if n > 0 {
      var s, l := TopCuts(local, below, parts, n - 1);
      assert Step(local, below[n - 1], parts[n - 1]);
      var whole, last := TopCutOne(local, below[n - 1], parts[n - 1]);
      sorted, lasts := s + [whole], l + [last];
    }
  }

  lemma {:induction false} TopCutOne(local: DPlan, rows: seq<Row>, part: seq<Row>)
      returns (whole: seq<Row>, last: seq<Row>)
    requires local.TopN? && local.offset == 0 && Step(local, rows, part)
    ensures TopCut(local, rows, part, whole, last)
  {
    whole :| Sorted(local.keys, whole) && multiset(whole) == multiset(rows) && part == Slice(whole, local.count, 0);
    last := whole[Min(local.count, |whole|)..];
  }

  /** The first rows of what local TopNs yield are the first rows of all the rows below. */
  lemma {:induction false} LocalTops(local: DPlan, below: seq<seq<Row>>, parts: seq<seq<Row>>, rows: seq<Row>,
                                     top: seq<Row>)
    requires local.TopN? && local.offset == 0 && StepAll(local, below, parts) && multiset(rows) == Pool(below)
    requires SortedPrefixOf(local.keys, top, Pool(parts)) && |top| == Min(local.count, |Pool(parts)|)
    ensures SortedPrefixOf(local.keys, top, multiset(rows)) && |top| == Min(local.count, |rows|)
  {
    var sorted, lasts := TopCuts(local, below, parts, |parts|);
    forall p | 0 <= p < |parts| ensures TopCut(local, below[p], parts[p], sorted[p], lasts[p]) {
      assert sorted[p] == sorted[p];
    }
    PoolSame(sorted, below, |below|);
    TopOfTops(local.keys, sorted, local.count, parts, lasts, top);
    assert |multiset(rows)| == |rows|;
  }

  /** Rows `offset` to `offset + count` of the front of a sorted arrangement. */
  lemma {:induction false} SliceOfPrefix(keys: seq<OrderKey>, count: nat, offset: nat, rows: seq<Row>, top: seq<Row>)
    requires SortedPrefixOf(keys, top, multiset(rows)) && |top| == Min(count + offset, |rows|)
    ensures TopOf(keys, count, offset, rows, Slice(top, count, offset))
  {
    var rest: seq<Row> :| Sorted(keys, top + rest) && multiset(top + rest) == multiset(rows);
    assert |multiset(top + rest)| == |top + rest| && |multiset(rows)| == |rows|;
    if rest == [] { assert top + rest == top; } else { SliceIgnoresRest(top, rest, count, offset); }
  }

  lemma {:induction false} FrontOfSorted(keys: seq<OrderKey>, count: nat, offset: nat, gathered: seq<Row>,
                                         out: seq<Row>)
      returns (top: seq<Row>)
    requires TopOf(keys, count, offset, gathered, out)
    ensures SortedPrefixOf(keys, top, multiset(gathered)) && |top| == Min(count + offset, |multiset(gathered)|)
    ensures out == Slice(top, count, offset)
  {
    var sorted :| Sorted(keys, sorted) && multiset(sorted) == multiset(gathered) && out == Slice(sorted, count, offset);
    top := sorted[..Min(count + offset, |sorted|)];
    assert sorted == top + sorted[|top|..];
    assert |multiset(sorted)| == |sorted|;
  }

  /** The TopN that fetches what another one needs. */
  ghost predicate Fetches(local: DPlan, node: DPlan) {
    node.TopN? && local.TopN? && local.keys == node.keys && local.count == node.count + node.offset && local.offset == 0
  }

  /** A TopN of rows that local TopNs left. */
  lemma {:induction false} TopOfLocal(node: DPlan, local: DPlan, below: seq<seq<Row>>, parts: seq<seq<Row>>,
                                      rows: seq<Row>,
                                      gathered: seq<Row>, out: seq<Row>)
    requires Fetches(local, node) && StepAll(local, below, parts)
    requires multiset(rows) == Pool(below) && multiset(gathered) == Pool(parts) && Step(node, gathered, out)
    ensures Step(node, rows, out)
  {
    var top := FrontOfSorted(node.keys, node.count, node.offset, gathered, out);
    LocalTops(local, below, parts, rows, top);
    SliceOfPrefix(node.keys, node.count, node.offset, rows, top);
  }

  /** A TopN over a TopN that fetched enough, in one place. */
  lemma {:induction false} TopOfTop(node: DPlan, local: DPlan, rows: seq<Row>, fetched: seq<Row>, out: seq<Row>)
    requires Fetches(local, node) && Step(local, rows, fetched) && Step(node, fetched, out)
    ensures Step(node, rows, out)
  {
    assert PoolTo([rows], 0) == multiset{} && PoolTo([fetched], 0) == multiset{};
    TopOfLocal(node, local, [rows], [fetched], rows, fetched, out);
  }

  /** What reaches a TopN from local ones on the partitions. */
  lemma {:induction false} PlacedTopN(data: Data, node: DPlan, local: DPlan, gathered: seq<Row>, out: seq<Row>)
      returns (rows: seq<Row>)
    requires Fetches(local, node) && Poolable(data, node.child, local.child) && Placed(data, local, true)
    requires Runs(data, Exchange(local), gathered) && Step(node, gathered, out)
    ensures Means(data, Everywhere, node.child, rows) && Step(node, rows, out)
  {
    PlacedIsLocal(data, local.child);
    var parts :| Gathers(data, local, parts) && multiset(gathered) == Pool(parts);
    var below := GathersBelow(data, local, parts);
    rows := SpreadRows(data, node.child, local.child, below);
    TopOfLocal(node, local, below, parts, rows, gathered, out);
  }

  /** And from one that the exchange does not part from it. */
  lemma {:induction false} UnplacedTopN(data: Data, node: DPlan, local: DPlan, gathered: seq<Row>, out: seq<Row>)
      returns (rows: seq<Row>)
    requires Fetches(local, node) && Faithful(data, node.child, local.child) && !Placed(data, local, true)
    requires Runs(data, Exchange(local), gathered) && Step(node, gathered, out)
    ensures Means(data, Everywhere, node.child, rows) && Step(node, rows, out)
  {
    assert Runs(data, local, gathered);
    rows :| Runs(data, local.child, rows) && Step(local, rows, gathered);
    TopOfTop(node, local, rows, gathered, out);
  }

  /** TopN over an exchange of local TopNs. */
  lemma {:induction false} GlobalTopN(data: Data, node: DPlan, local: DPlan, out: seq<Row>)
    requires Fetches(local, node) && Faithful(data, node.child, local.child) && Poolable(data, node.child, local.child)
    requires Runs(data, TopN(node.keys, node.count, node.offset, Exchange(local)), out)
    ensures Means(data, Everywhere, node, out)
  {
    var gathered :| Runs(data, Exchange(local), gathered) && TopOf(node.keys, node.count, node.offset, gathered, out);
    var rows;
    if Placed(data, local, true) {
      rows := PlacedTopN(data, node, local, gathered, out);
    } else {
      rows := UnplacedTopN(data, node, local, gathered, out);
    }
  }

  /** The first rows of a merge of local TopNs. */
  lemma {:induction false} TopOfMerge(node: DPlan, local: DPlan, below: seq<seq<Row>>, locals: seq<seq<Row>>,
                                      rows: seq<Row>, merged: seq<Row>)
    requires Fetches(local, node) && StepAll(local, below, locals) && multiset(rows) == Pool(below)
    requires Merged(node.keys, local.count, Pool(locals), merged)
    ensures Step(node, rows, Slice(merged, node.count, node.offset))
  {
    if local.count == 0 { NothingFetched(local, below, locals, merged); }
    LocalTops(local, below, locals, rows, merged);
    SliceOfPrefix(node.keys, node.count, node.offset, rows, merged);
  }

  /** What a limit takes its rows from when it runs. */
  lemma {:induction false} LimitInput(data: Data, plan: DPlan, out: seq<Row>) returns (rows: seq<Row>)
    requires plan.Limit? && Runs(data, plan, out)
    ensures Runs(data, plan.child, rows) && out == Slice(rows, plan.count, plan.offset)
  {
    rows :| Runs(data, plan.child, rows) && Step(plan, rows, out);
  }

  /** TopN as a limit over a merge of local TopNs. */
  lemma {:induction false} MergedTopNRefines(data: Data, node: DPlan, c': DPlan)
    requires node.TopN? && Faithful(data, node.child, c')
    ensures Faithful(data, node, MergedTopN(node.keys, node.count, node.offset, c'))
  {
    forall out | Runs(data, MergedTopN(node.keys, node.count, node.offset, c'), out)
      ensures Means(data, Everywhere, node, out) {
      var merged := LimitInput(data, MergedTopN(node.keys, node.count, node.offset, c'), out);
      MergedTopNMeans(data, node, c', merged);
    }
  }

  lemma {:induction false} MergedTopNMeans(data: Data, node: DPlan, c': DPlan, merged: seq<Row>)
    requires node.TopN? && Faithful(data, node.child, c')
    requires var fetch := node.count + node.offset;
      Runs(data, MergeExchange(node.keys, fetch, TopN(node.keys, fetch, 0, c')), merged)
    ensures Means(data, Everywhere, node, Slice(merged, node.count, node.offset))
  {
    var fetch := node.count + node.offset;
    var local := TopN(node.keys, fetch, 0, c');
    var below, locals :| Streams(data, c', below) && StepAll(local, below, locals)
      && Merged(node.keys, fetch, Pool(locals), merged);
    var rows := StreamsAreRows(data, c', below);
    TopOfMerge(node, local, below, locals, rows, merged);
  }

  /** A merge without limit of local TopNs that fetch nothing is empty. */
  lemma {:induction false} NothingFetched(local: DPlan, below: seq<seq<Row>>, locals: seq<seq<Row>>, merged: seq<Row>)
    requires local.TopN? && local.count == 0 && local.offset == 0 && StepAll(local, below, locals)
    requires Merged(local.keys, 0, Pool(locals), merged)
    ensures merged == [] && Pool(locals) == multiset{}
  {
    forall p | 0 <= p < |locals| ensures locals[p] == [] {
      assert Step(local, below[p], locals[p]);
      var whole :| Sorted(local.keys, whole) && multiset(whole) == multiset(below[p])
        && locals[p] == Slice(whole, 0, 0);
    }
    EmptyPool(locals, |locals|);
  }

  lemma {:induction false} TopNRefines(data: Data, node: DPlan, c': DPlan)
    requires node.TopN? && Faithful(data, node.child, c') && Poolable(data, node.child, c')
    ensures var rewritten := Globalise(data, TopN(node.keys, node.count, node.offset, c'));
      Faithful(data, node, rewritten) && Poolable(data, node, rewritten)
  {
    var node' := TopN(node.keys, node.count, node.offset, c');
    if IsLocal(data, c') {
      assert !Placed(data, Exchange(TopN(node.keys, node.count + node.offset, 0, c')), false);
      forall out | Runs(data, Globalise(data, node'), out) ensures Means(data, Everywhere, node, out) {
        GlobalTopN(data, node, TopN(node.keys, node.count + node.offset, 0, c'), out);
      }
    } else {
      SameStepFaithful(data, node, node');
      if Placed(data, c', false) { PlacedIsLocal(data, c'); }
    }
  }

  // ---------- Limit ----------

  /** What local limits cut off the rows below. */
  lemma {:induction false} LimitCuts(local: DPlan, below: seq<seq<Row>>, parts: seq<seq<Row>>)
      returns (lasts: seq<seq<Row>>)
    requires local.Limit? && local.offset == 0 && StepAll(local, below, parts)
    ensures Cut(below, local.count, parts, lasts)
  {
    lasts := seq(|below|, p requires 0 <= p < |below| => below[p][Min(local.count, |below[p]|)..]);
    forall p | 0 <= p < |below|
      ensures below[p] == parts[p] + lasts[p] && |parts[p]| == Min(local.count, |below[p]|)
    {
      assert Step(local, below[p], parts[p]);
    }
  }

  /** What local limits leave, and what they cut off, is all the rows in some order; nothing is cut off unless enough
      is left. */
  lemma {:induction false} LocalLimits(local: DPlan, below: seq<seq<Row>>, parts: seq<seq<Row>>, gathered: seq<Row>)
      returns (rest: seq<Row>)
    requires local.Limit? && local.offset == 0 && StepAll(local, below, parts) && multiset(gathered) == Pool(parts)
    ensures multiset(gathered + rest) == Pool(below) && (|gathered| < local.count ==> rest == [])
  {
    var lasts := LimitCuts(local, below, parts);
    rest := Concat(lasts, |lasts|);
    ConcatIsPool(lasts, |lasts|);
    CutPool(below, local.count, parts, lasts, |below|);
    CutEnough(below, local.count, parts, lasts);
    assert |multiset(gathered)| == |gathered| && |multiset(rest)| == |rest|;
  }

  lemma {:induction false} SliceIgnoresRest(gathered: seq<Row>, rest: seq<Row>, count: nat, offset: nat)
    requires |gathered| < count + offset ==> rest == []
    ensures Slice(gathered + rest, count, offset) == Slice(gathered, count, offset)
  {
    if rest == [] { assert gathered + rest == gathered; }
  }

  lemma {:induction false} SliceOfSlice(rows: seq<Row>, count: nat, offset: nat)
    ensures Slice(Slice(rows, count + offset, 0), count, offset) == Slice(rows, count, offset)
  {}

  /** What reaches a limit from local ones on the partitions: the rows come in no particular order, so they may be
      taken to come in the order gathered, followed by what was cut off. */
  lemma {:induction false} PlacedLimit(data: Data, node: DPlan, local: DPlan, gathered: seq<Row>)
      returns (rows: seq<Row>)
    requires node.Limit? && local == Limit(node.count + node.offset, 0, node.child) && Placed(data, local, true)
    requires Spreads(data, node.child, node.child) && Runs(data, Exchange(local), gathered)
    ensures Means(data, Everywhere, node.child, rows)
            && Slice(rows, node.count, node.offset) == Slice(gathered, node.count, node.offset)
  {
    var parts :| Gathers(data, local, parts) && multiset(gathered) == Pool(parts);
    var below := GathersBelow(data, local, parts);
    var source := SpreadRows(data, node.child, node.child, below);
    var rest := LocalLimits(local, below, parts, gathered);
    rows := gathered + rest;
    PlacedInAnyOrder(data, node.child, Everywhere, source, rows);
    SliceIgnoresRest(gathered, rest, node.count, node.offset);
  }

  /** Where the exchange does not part the local limit nothing is reordered. */
  lemma {:induction false} UnplacedLimit(data: Data, node: DPlan, c': DPlan, gathered: seq<Row>)
      returns (rows: seq<Row>)
    requires node.Limit? && Faithful(data, node.child, c') && !Placed(data, c', false)
    requires Runs(data, Exchange(Limit(node.count + node.offset, 0, c')), gathered)
    ensures Means(data, Everywhere, node.child, rows)
            && Slice(rows, node.count, node.offset) == Slice(gathered, node.count, node.offset)
  {
    var local := Limit(node.count + node.offset, 0, c');
    assert !Placed(data, local, true);
    assert Runs(data, local, gathered);
    rows := LimitInput(data, local, gathered);
    SliceOfSlice(rows, node.count, node.offset);
  }

  /** A limit over an exchange of local limits is a limit. */
  lemma {:induction false} GlobalLimit(data: Data, node: DPlan, c': DPlan, out: seq<Row>)
    requires node.Limit? && Faithful(data, node.child, c') && Poolable(data, node.child, c')
             && (IsLocal(data, c') ==> c' == node.child)
    requires Runs(data, Limit(node.count, node.offset, Exchange(Limit(node.count + node.offset, 0, c'))), out)
    ensures Means(data, Everywhere, node, out)
  {
    var local := Limit(node.count + node.offset, 0, c');
    var gathered := LimitInput(data, Limit(node.count, node.offset, Exchange(local)), out);
    var rows;
    if Placed(data, c', false) {
      PlacedIsLocal(data, c');
      rows := PlacedLimit(data, node, local, gathered);
    } else {
      rows := UnplacedLimit(data, node, c', gathered);
    }
    assert Step(node, rows, out);
  }

  lemma {:induction false} LimitRefines(data: Data, node: DPlan, c': DPlan)
    requires node.Limit? && Faithful(data, node.child, c') && Poolable(data, node.child, c')
             && (IsLocal(data, c') ==> c' == node.child)
    ensures var rewritten := Globalise(data, Limit(node.count, node.offset, c'));
      Faithful(data, node, rewritten) && Poolable(data, node, rewritten)
  {
    var node' := Limit(node.count, node.offset, c');
    if IsLocal(data, c') {
      assert !Placed(data, Exchange(Limit(node.count + node.offset, 0, c')), false);
      forall out | Runs(data, Globalise(data, node'), out) ensures Means(data, Everywhere, node, out) {
        GlobalLimit(data, node, c', out);
      }
    } else {
      SameStepFaithful(data, node, node');
      if Placed(data, c', false) { PlacedIsLocal(data, c'); }
    }
  }

  // ---------- whole plans ----------

  /** Multiset-preserving nodes over a scan are left alone, and nothing else becomes such. */
  lemma {:induction false} LocalUnchanged(data: Data, plan: DPlan)
    ensures LocalTables(data, plan).Some? ==> Rewrite(data, plan) == plan
    ensures LocalTables(data, Rewrite(data, plan)) == LocalTables(data, plan)
  {
    if PreservesMultiset(plan) && !plan.Scan? {
      LocalUnchanged(data, plan.child);
      if LocalTables(data, plan).Some? { LocalHasNoExchange(data, plan.child); }
    }
  }

  lemma {:induction false} RewriteInput(data: Data, plan: DPlan)
    requires WellPartitioned(data) && NoMerge(plan) && Unary(plan)
    requires Faithful(data, plan.child, Rewrite(data, plan.child))
             && Poolable(data, plan.child, Rewrite(data, plan.child))
    ensures Faithful(data, plan, Rewrite(data, plan)) && Poolable(data, plan, Rewrite(data, plan))
  {
    var c, c' := plan.child, Rewrite(data, plan.child);
    LocalUnchanged(data, c);
    match plan {
      case Filter(_, _) => LocalStepRefines(data, plan, Rewrite(data, plan));
      case Project(_, _) => LocalStepRefines(data, plan, Rewrite(data, plan));
      case Sort(keys, _) => if HasExchange(c) { MergedSortRefines(data, keys, c, c'); }
        else { SortRefines(data, keys, c, c'); }
      case TopN(_, _, _, _) => if HasExchange(c) { MergedTopNGood(data, plan, c'); }
        else { TopNRefines(data, plan, c'); }
      case Limit(_, _, _) => LimitRefines(data, plan, c');
      case Distinct(_) => DistinctRefines(data, c, c');
      case Exchange(_) => ExchangeRefines(data, c, c');
    }
  }

  lemma {:induction false} MergedTopNGood(data: Data, node: DPlan, c': DPlan)
    requires node.TopN? && Faithful(data, node.child, c')
    ensures var rewritten := MergedTopN(node.keys, node.count, node.offset, c');
      Faithful(data, node, rewritten) && Poolable(data, node, rewritten)
  {
    MergedTopNRefines(data, node, c');
    assert !Placed(data, MergeExchange(node.keys, node.count + node.offset,
           TopN(node.keys, node.count + node.offset, 0, c')), false);
  }

  lemma {:induction false} LocalStepRefines(data: Data, node: DPlan, node': DPlan)
    requires (node.Filter? && node'.Filter? && node.keep == node'.keep)
             || (node.Project? && node'.Project? && node.compute == node'.compute)
    requires Faithful(data, node.child, node'.child) && Poolable(data, node.child, node'.child)
    ensures Faithful(data, node, node') && Poolable(data, node, node')
  {
    SameStepFaithful(data, node, node');
    if Placed(data, node', true) { StepSpreads(data, node, node'); }
  }

  lemma {:induction false} ExchangeRefines(data: Data, c: DPlan, c': DPlan)
    requires Faithful(data, c, c') && Poolable(data, c, c')
    ensures Faithful(data, Exchange(c), Exchange(c')) && Poolable(data, Exchange(c), Exchange(c'))
  {
    forall out | Runs(data, Exchange(c'), out) ensures Means(data, Everywhere, Exchange(c), out) {
      var rows := ExchangeRows(data, c, c', out);
      assert Step(Exchange(c), rows, out);
    }
  }

  /** Rewriting a whole plan is right, and stays right under whatever combines its partitions. */
  lemma {:induction false} RewriteRefines(data: Data, plan: DPlan)
    requires WellPartitioned(data) && NoMerge(plan)
    ensures Faithful(data, plan, Rewrite(data, plan)) && Poolable(data, plan, Rewrite(data, plan))
  {
    if plan.Scan? {
      if plan.table in data.partitioned { ScanSpreads(data, plan); }
    } else if plan.Union? {
      RewriteRefines(data, plan.left);
      RewriteRefines(data, plan.right);
      LocalUnchanged(data, plan.left);
      LocalUnchanged(data, plan.right);
      UnionRefines(data, plan.all, plan.left, plan.right, Rewrite(data, plan.left), Rewrite(data, plan.right));
    } else {
      RewriteRefines(data, plan.child);
      RewriteInput(data, plan);
    }
  }

  /** Whatever the coordinator receives from a plan that went through the distributed passes, for any partitioning of
      the data, is what the plan may yield over all the data. */
  lemma {:induction false} DistributedIsRight(data: Data, plan: DPlan, out: seq<Row>)
    requires WellPartitioned(data) && NoMerge(plan) && Runs(data, Distribute(data, plan), out)
    ensures Means(data, Everywhere, plan, out)
  {
    PassesAreOneRewrite(data, plan);
    RewriteRefines(data, plan);
  }
}
