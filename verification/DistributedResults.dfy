/** What the rewrites promise query by query: the same rows, sort keys and row counts, and a result for every plan. */
module DistributedResults {
  import opened Sequences
  import opened RowOrder
  import opened SortedRows
  import opened MergeSpec
  import opened MergeExchanges
  import opened DistributedPlans
  import opened DistributedRows
  import opened DistributedRefinement
  import opened DistributedPasses
  import opened DistributedRewrites

  // ---------- results that do not depend on arrangement ----------

  /** Without a Limit or TopN a plan has one result but for the order of its rows. */
  predicate BagFixed(plan: DPlan) {
    if plan.Scan? then true
    else if plan.Union? then BagFixed(plan.left) && BagFixed(plan.right)
    else !plan.Limit? && !plan.TopN? && !plan.MergeExchange? && BagFixed(plan.child)
  }

  lemma {:induction false} DistinctFixed(a: seq<Row>, b: seq<Row>, bag: multiset<Row>)
    requires IsDistinctOf(a, bag) && IsDistinctOf(b, bag)
    ensures multiset(a) == multiset(b)
  {
    forall r ensures multiset(a)[r] == multiset(b)[r] {
      assert multiset(a)[r] == if r in bag then 1 else 0;
    }
  }

  lemma {:induction false} StepFixed(node: DPlan, rows: seq<Row>, rows': seq<Row>, a: seq<Row>, b: seq<Row>)
    requires Unary(node) && !node.Limit? && !node.TopN? && !node.MergeExchange?
    requires multiset(rows) == multiset(rows') && Step(node, rows, a) && Step(node, rows', b)
    ensures multiset(a) == multiset(b)
  {
    match node {
      case Filter(keep, _) => KeptPermuted(rows, rows', keep);
      case Project(compute, _) => MappedPermuted(rows, rows', compute);
      case Distinct(_) => DistinctFixed(a, b, multiset(rows));
      case Sort(_, _) =>
      case Exchange(_) =>
    }
  }

  lemma {:induction false} MeansFixed(data: Data, site: Site, plan: DPlan, a: seq<Row>, b: seq<Row>)
    requires BagFixed(plan) && Means(data, site, plan, a) && Means(data, site, plan, b)
    ensures multiset(a) == multiset(b)
  {
    if plan.Union? {
      var l, r :| Means(data, site, plan.left, l) && Means(data, site, plan.right, r) && UnionOf(plan.all, l, r, a);
      var l', r' :| Means(data, site, plan.left, l') && Means(data, site, plan.right, r')
        && UnionOf(plan.all, l', r', b);
      MeansFixed(data, site, plan.left, l, l');
      MeansFixed(data, site, plan.right, r, r');
      if !plan.all { DistinctFixed(a, b, multiset(l) + multiset(r)); }
    } else if !plan.Scan? {
      var rows :| Means(data, site, plan.child, rows) && Step(plan, rows, a);
      var rows' :| Means(data, site, plan.child, rows') && Step(plan, rows', b);
      MeansFixed(data, site, plan.child, rows, rows');
      StepFixed(plan, rows, rows', a, b);
    }
  }

  /** Distinct, UNION, UNION ALL and everything built of them yield the rows they yield on unpartitioned data, each as
      often. */
  lemma {:induction false} SameRows(data: Data, plan: DPlan, a: seq<Row>, b: seq<Row>)
    requires WellPartitioned(data) && NoMerge(plan) && BagFixed(plan)
    requires Runs(data, Distribute(data, plan), a) && Means(data, Everywhere, plan, b)
    ensures multiset(a) == multiset(b)
  {
    DistributedIsRight(data, plan, a);
    MeansFixed(data, Everywhere, plan, a, b);
  }

  /** Any two results of one TopN have the same sort-key values at every place. */
  lemma {:induction false} TopKeysUnique(keys: seq<OrderKey>, count: nat, offset: nat, rows: seq<Row>, rows': seq<Row>,
                                         a: seq<Row>, b: seq<Row>, i: nat)
    requires multiset(rows) == multiset(rows') && TopOf(keys, count, offset, rows, a)
             && TopOf(keys, count, offset, rows', b)
    ensures |a| == |b| && (i < |a| ==> CompareRows(keys, a[i], b[i]) == 0)
  {
    var s :| Sorted(keys, s) && multiset(s) == multiset(rows) && a == Slice(s, count, offset);
    var t :| Sorted(keys, t) && multiset(t) == multiset(rows') && b == Slice(t, count, offset);
    assert |multiset(s)| == |s| && |multiset(t)| == |t|;
    if i < |a| { SortedKeysUnique(keys, s, t, Min(offset, |s|) + i); }
  }

  /** A distributed TopN and the TopN over all the data agree on the sort keys at every place. */
  lemma {:induction false} SameTopKeys(data: Data, plan: DPlan, a: seq<Row>, b: seq<Row>, i: nat)
    requires WellPartitioned(data) && NoMerge(plan) && plan.TopN? && BagFixed(plan.child)
    requires Runs(data, Distribute(data, plan), a) && Means(data, Everywhere, plan, b)
    ensures |a| == |b| && (i < |a| ==> CompareRows(plan.keys, a[i], b[i]) == 0)
  {
    DistributedIsRight(data, plan, a);
    var rows :| Means(data, Everywhere, plan.child, rows) && TopOf(plan.keys, plan.count, plan.offset, rows, a);
    var rows' :| Means(data, Everywhere, plan.child, rows') && TopOf(plan.keys, plan.count, plan.offset, rows', b);
    MeansFixed(data, Everywhere, plan.child, rows, rows');
    TopKeysUnique(plan.keys, plan.count, plan.offset, rows, rows', a, b, i);
  }

  lemma {:induction false} SliceDraws(rows: seq<Row>, count: nat, offset: nat)
    ensures multiset(Slice(rows, count, offset)) <= multiset(rows)
    ensures |Slice(rows, count, offset)| == Min(count, if |rows| > offset then |rows| - offset else 0)
  {
    var lo, hi := Min(offset, |rows|), Min(offset + count, |rows|);
    assert rows == rows[..lo] + rows[lo..hi] + rows[hi..];
  }

  /** A result leaves out the first `offset` rows and goes on from there, row by row. */
  ghost predicate LeavesOut(rows: seq<Row>, offset: nat, out: seq<Row>) {
    forall i :: 0 <= i < |out| ==> offset + i < |rows| && out[i] == rows[offset + i]
  }

  /** A distributed Limit yields as many rows as a Limit over all the data, drawn from its input: those that come
      after the offset in some order the input may take. */
  lemma {:induction false} LimitDraws(data: Data, plan: DPlan, out: seq<Row>, input: seq<Row>)
    requires WellPartitioned(data) && NoMerge(plan) && plan.Limit? && BagFixed(plan.child)
    requires Runs(data, Distribute(data, plan), out) && Means(data, Everywhere, plan.child, input)
    ensures multiset(out) <= multiset(input)
    ensures |out| == Min(plan.count, if |input| > plan.offset then |input| - plan.offset else 0)
    ensures exists rows :: Means(data, Everywhere, plan.child, rows) && LeavesOut(rows, plan.offset, out)
  {
    DistributedIsRight(data, plan, out);
    var rows := LimitedRows(data, Everywhere, plan, out);
    MeansFixed(data, Everywhere, plan.child, rows, input);
    assert |multiset(rows)| == |rows| && |multiset(input)| == |input|;
    SliceDraws(rows, plan.count, plan.offset);
  }

  lemma {:induction false} LimitedRows(data: Data, site: Site, plan: DPlan, out: seq<Row>) returns (rows: seq<Row>)
    requires plan.Limit? && Means(data, site, plan, out)
    ensures Means(data, site, plan.child, rows) && out == Slice(rows, plan.count, plan.offset)
    ensures LeavesOut(rows, plan.offset, out)
  {
    rows :| Means(data, site, plan.child, rows) && Step(plan, rows, out);
  }

  // ---------- there is always a result ----------

  /** Merge exchanges as the rewrites build them. */
  predicate Runnable(plan: DPlan) {
    if plan.Scan? then true
    else if plan.Union? then Runnable(plan.left) && Runnable(plan.right)
    else (plan.MergeExchange? ==> plan.child.Sort? || plan.child.TopN?) && Runnable(plan.child)
  }

  lemma {:induction false} MergedRunnable(keys: seq<OrderKey>, count: nat, offset: nat, c: DPlan)
    requires Runnable(c)
    ensures Runnable(MergedSort(keys, c)) && Runnable(MergedTopN(keys, count, offset, c))
  {
    assert Runnable(Sort(keys, c)) && Runnable(TopN(keys, count + offset, 0, c));
    assert Runnable(MergeExchange(keys, count + offset, TopN(keys, count + offset, 0, c)));
  }

  lemma {:induction false} ExchangedRunnable(data: Data, node: DPlan)
    requires Runnable(node)
    ensures node.Limit? || node.TopN? ==> Runnable(Globalise(data, node))
    ensures node.Distinct? ==> Runnable(RewriteDistinct(data, node))
    ensures node.Union? ==> Runnable(RewriteUnion(data, node))
  {
    assert Runnable(Exchange(node));
    if node.Limit? { assert Runnable(Exchange(Limit(node.count + node.offset, 0, node.child))); }
    if node.TopN? { assert Runnable(Exchange(TopN(node.keys, node.count + node.offset, 0, node.child))); }
    if node.Union? { assert Runnable(Exchanged(data, node.left)) && Runnable(Exchanged(data, node.right)); }
  }

  lemma {:induction false} RewriteRunnable(data: Data, plan: DPlan)
    requires NoMerge(plan)
    ensures Runnable(Rewrite(data, plan))
  {
    if plan.Union? {
      RewriteRunnable(data, plan.left);
      RewriteRunnable(data, plan.right);
      ExchangedRunnable(data, Union(plan.all, Rewrite(data, plan.left), Rewrite(data, plan.right)));
    } else if !plan.Scan? {
      RewriteRunnable(data, plan.child);
      var c := Rewrite(data, plan.child);
      match plan {
        case Sort(keys, _) => MergedRunnable(keys, 0, 0, c);
        case TopN(keys, count, offset, _) =>
          MergedRunnable(keys, count, offset, c);
          ExchangedRunnable(data, TopN(keys, count, offset, c));
        case Limit(count, offset, _) => ExchangedRunnable(data, Limit(count, offset, c));
        case Distinct(_) => ExchangedRunnable(data, Distinct(c));
        case _ =>
      }
    }
  }

  /** Each row once, in the order first seen. */
  function Once(rows: seq<Row>): (out: seq<Row>)
    ensures forall r :: r in out <==> r in rows
    ensures forall i, j :: 0 <= i < j < |out| ==> out[i] != out[j]
  {
    if rows == [] then []
    else
      var front, last := Once(rows[..|rows| - 1]), rows[|rows| - 1];
      assert rows == rows[..|rows| - 1] + [last];
      if last in front then front else front + [last]
  }

  lemma {:induction false} OnceTimes(out: seq<Row>, r: Row)
    requires forall i, j :: 0 <= i < j < |out| ==> out[i] != out[j]
    ensures multiset(out)[r] == if r in out then 1 else 0
  {
    if out != [] {
      OnceTimes(out[..|out| - 1], r);
      assert out == out[..|out| - 1] + [out[|out| - 1]];
    }
  }

  lemma {:induction false} OnceIsDistinct(rows: seq<Row>)
    ensures IsDistinctOf(Once(rows), multiset(rows))
  {
    forall r ensures multiset(Once(rows))[r] == if r in multiset(rows) then 1 else 0 {
      OnceTimes(Once(rows), r);
      assert r in multiset(rows) <==> r in rows;
    }
  }

  lemma {:induction false} SomeMerged(keys: seq<OrderKey>, fetch: nat, rows: seq<Row>) returns (out: seq<Row>)
    ensures Merged(keys, fetch, multiset(rows), out)
  {
    SortRowsSorts(keys, rows);
    var sorted := SortRows(keys, rows);
    assert |multiset(rows)| == |rows|;
    out := if 0 < fetch < |rows| then sorted[..fetch] else sorted;
    assert sorted == out + sorted[|out|..];
  }

  lemma {:induction false} SomeStep(node: DPlan, rows: seq<Row>) returns (out: seq<Row>)
    requires Unary(node)
    ensures Step(node, rows, out)
  {
    match node {
      case Filter(keep, _) => out := Kept(rows, keep);
      case Project(compute, _) => out := Mapped(rows, compute);
      case Sort(keys, _) =>
        SortRowsSorts(keys, rows);
        out := SortRows(keys, rows);
      case TopN(keys, count, offset, _) =>
        SortRowsSorts(keys, rows);
        out := Slice(SortRows(keys, rows), count, offset);
      case Limit(count, offset, _) => out := Slice(rows, count, offset);
      case Distinct(_) =>
        OnceIsDistinct(rows);
        out := Once(rows);
      case Exchange(_) => out := rows;
      case MergeExchange(keys, fetch, _) => out := SomeMerged(keys, fetch, rows);
    }
  }

  lemma {:induction false} SomeUnion(all: bool, a: seq<Row>, b: seq<Row>) returns (out: seq<Row>)
    ensures UnionOf(all, a, b, out)
  {
    OnceIsDistinct(a + b);
    out := if all then a + b else Once(a + b);
  }

  lemma {:induction false} SomeMeaning(data: Data, site: Site, plan: DPlan) returns (out: seq<Row>)
    ensures Means(data, site, plan, out)
  {
    if plan.Scan? {
      out := ScanRows(data, site, plan.table);
    } else if plan.Union? {
      var a := SomeMeaning(data, site, plan.left);
      var b := SomeMeaning(data, site, plan.right);
      out := SomeUnion(plan.all, a, b);
    } else {
      var rows := SomeMeaning(data, site, plan.child);
      out := SomeStep(plan, rows);
    }
  }

  lemma {:induction false} SomeParts(data: Data, plan: DPlan, n: nat) returns (parts: seq<seq<Row>>)
    ensures |parts| == n && forall p {:trigger parts[p]} :: 0 <= p < n ==> Means(data, Partition(p), plan, parts[p])
  {
    parts := [];
    if n > 0 {
      var front := SomeParts(data, plan, n - 1);
      var part := SomeMeaning(data, Partition(n - 1), plan);
      parts := front + [part];
    }
  }

  lemma {:induction false} SomeStream(data: Data, plan: DPlan) returns (outs: seq<seq<Row>>)
    requires Runnable(plan)
    ensures Streams(data, plan, outs) && |outs| == 1
    decreases plan, 1
  {
    if plan.Filter? || plan.Project? || plan.Sort? {
      var below := SomeStream(data, plan.child);
      var out := SomeStep(plan, below[0]);
      outs := [out];
      assert StepAll(plan, below, outs);
    } else {
      var rows := SomeRun(data, plan);
      outs := [rows];
      assert PoolTo(outs, 0) == multiset{};
    }
  }

  lemma {:induction false} SomeMerge(data: Data, plan: DPlan) returns (out: seq<Row>)
    requires plan.MergeExchange? && Runnable(plan)
    ensures Runs(data, plan, out)
    decreases plan, 0, 0
  {
    var below := SomeStream(data, plan.child.child);
    var local := SomeStep(plan.child, below[0]);
    var locals := [local];
    assert StepAll(plan.child, below, locals);
    out := SomeMerged(plan.keys, plan.fetch, local);
    assert PoolTo(locals, 0) == multiset{} && Pool(locals) == multiset(local);
  }

  /** Some result reaches the coordinator, whatever the plan. */
  lemma {:induction false} SomeRun(data: Data, plan: DPlan) returns (out: seq<Row>)
    requires Runnable(plan)
    ensures Runs(data, plan, out)
    decreases plan, 0, 1
  {
    match plan {
      case Scan(t) => out := ScanRows(data, Everywhere, t);
      case Union(all, l, r) =>
        var a := SomeRun(data, l);
        var b := SomeRun(data, r);
        out := SomeUnion(all, a, b);
      case MergeExchange(_, _, _) => out := SomeMerge(data, plan);
      case Exchange(c) =>
        if Placed(data, c, true) {
          var parts := SomeParts(data, c, data.count);
          ConcatIsPool(parts, |parts|);
          out := Concat(parts, |parts|);
          assert Gathers(data, c, parts);
        } else {
          out := SomeRun(data, c);
        }
      case _ =>
        var rows := SomeRun(data, plan.child);
        out := SomeStep(plan, rows);
    }
  }

  /** A distributed plan always has a result. */
  lemma {:induction false} DistributedRuns(data: Data, plan: DPlan) returns (out: seq<Row>)
    requires WellPartitioned(data) && NoMerge(plan)
    ensures Runs(data, Distribute(data, plan), out) && Means(data, Everywhere, plan, out)
  {
    RewriteRunnable(data, plan);
    PassesAreOneRewrite(data, plan);
    out := SomeRun(data, Rewrite(data, plan));
    DistributedIsRight(data, plan, out);
  }

  // ---------- what crosses an exchange ----------

  /** The plan combines what every partition sends, having run `sent` on it. */
  ghost predicate Combines(data: Data, plan: DPlan, sent: DPlan) {
    Unary(plan) && plan.child == Exchange(sent) && Placed(data, sent, true)
  }

  lemma {:induction false} PlacedStays(data: Data, plan: DPlan)
    requires Unary(plan) && Placed(data, plan.child, false)
    ensures Distribute(data, plan) == Rewrite(data, plan) && IsLocal(data, plan.child)
    ensures Rewrite(data, plan.child) == plan.child && !HasExchange(plan.child)
  {
    PassesAreOneRewrite(data, plan);
    PlacedIsLocal(data, plan.child);
    LocalUnchanged(data, plan.child);
    LocalHasNoExchange(data, plan.child);
  }

  /** A Limit or TopN over partitioned rows: no partition sends more of them than could be asked for. */
  lemma {:induction false} PartsSendFew(data: Data, plan: DPlan) returns (sent: DPlan)
    requires (plan.Limit? || plan.TopN?) && Placed(data, plan.child, false)
    ensures Combines(data, Distribute(data, plan), sent)
    ensures forall p, part :: Means(data, Partition(p), sent, part) ==> |part| <= plan.count + plan.offset
  {
    PlacedStays(data, plan);
    sent := Distribute(data, plan).child.child;
    forall p, part | Means(data, Partition(p), sent, part) ensures |part| <= plan.count + plan.offset {
      var rows :| Means(data, Partition(p), sent.child, rows) && Step(sent, rows, part);
    }
  }

  lemma {:induction false} LocalHasTables(data: Data, plan: DPlan)
    requires IsLocal(data, plan)
    ensures PartitionedTables(data, plan) != {}
  {
    if !plan.Scan? { LocalHasTables(data, plan.child); }
  }

  /** A Distinct over partitioned rows: no partition sends a row twice. */
  lemma {:induction false} PartsSendDistinct(data: Data, plan: DPlan) returns (sent: DPlan)
    requires plan.Distinct? && Placed(data, plan.child, false)
    ensures Combines(data, Distribute(data, plan), sent)
    ensures forall p, part :: Means(data, Partition(p), sent, part) ==> forall r :: multiset(part)[r] <= 1
  {
    PlacedStays(data, plan);
    LocalHasTables(data, plan.child);
    sent := Distribute(data, plan).child.child;
    forall p, part | Means(data, Partition(p), sent, part) ensures forall r :: multiset(part)[r] <= 1 {
      var rows :| Means(data, Partition(p), sent.child, rows) && Step(sent, rows, part);
    }
  }

  /** A Sort or TopN above an exchange: what is merged comes in sorted streams, and the merge stops when it has as many
      rows as could be asked for. */
  lemma {:induction false} StreamsComeSorted(data: Data, plan: DPlan) returns (merge: DPlan)
    requires (plan.Sort? || plan.TopN?) && HasExchange(plan.child)
    ensures merge.MergeExchange? && merge.keys == plan.keys && Unary(merge.child)
    ensures Distribute(data, plan) == if plan.Sort? then merge else Limit(plan.count, plan.offset, merge)
    ensures merge.fetch == if plan.Sort? then 0 else plan.count + plan.offset
    ensures forall rows, out :: Step(merge.child, rows, out) ==> Sorted(plan.keys, out)
  {
    PassesAreOneRewrite(data, plan);
    merge := if plan.Sort? then Distribute(data, plan) else Distribute(data, plan).child;
    forall rows, out | Step(merge.child, rows, out) ensures Sorted(plan.keys, out) {
      if plan.TopN? { TopComesSorted(plan.keys, plan.count + plan.offset, rows, out); }
    }
  }

  lemma {:induction false} TopComesSorted(keys: seq<OrderKey>, count: nat, rows: seq<Row>, out: seq<Row>)
    requires TopOf(keys, count, 0, rows, out)
    ensures Sorted(keys, out)
  {
    var sorted :| Sorted(keys, sorted) && multiset(sorted) == multiset(rows) && out == Slice(sorted, count, 0);
  }
}
