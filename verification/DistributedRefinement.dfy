/** What a distributed plan's partitions and streams yield together. */
module DistributedRefinement {
  import opened Sequences
  import opened RowOrder
  import opened MergeSpec
  import opened DistributedPlans
  import opened DistributedRows

  /** Whatever the rewritten plan yields, the plan may yield. */
  ghost predicate Faithful(data: Data, plan: DPlan, rewritten: DPlan) {
    forall out :: Runs(data, rewritten, out) ==> Means(data, Everywhere, plan, out)
  }

  /** What a plan yields on the partitions is, taken together, what `whole` may yield over all the data. */
  ghost predicate Spreads(data: Data, whole: DPlan, plan: DPlan) {
    forall parts :: Gathers(data, plan, parts) ==>
      exists rows :: Means(data, Everywhere, whole, rows) && multiset(rows) == Pool(parts)
  }

  /** Should an exchange stand above the rewritten plan and its partitions be gathered, nothing is lost or doubled. */
  ghost predicate Poolable(data: Data, plan: DPlan, rewritten: DPlan) {
    Placed(data, rewritten, true) ==> Spreads(data, plan, rewritten)
  }

  lemma {:induction false} SpreadRows(data: Data, whole: DPlan, plan: DPlan, parts: seq<seq<Row>>)
      returns (rows: seq<Row>)
    requires Spreads(data, whole, plan) && Gathers(data, plan, parts)
    ensures Means(data, Everywhere, whole, rows) && multiset(rows) == Pool(parts)
  {
    rows :| Means(data, Everywhere, whole, rows) && multiset(rows) == Pool(parts);
  }

  /** What the input of a node yielded on the first n partitions. */
  lemma {:induction false} PartsBelow(data: Data, node: DPlan, parts: seq<seq<Row>>, n: nat)
      returns (below: seq<seq<Row>>)
    requires Unary(node) && Gathers(data, node, parts) && n <= data.count
    ensures |below| == n
    ensures forall p {:trigger below[p]} :: 0 <= p < n ==>
              Means(data, Partition(p), node.child, below[p]) && Step(node, below[p], parts[p])
  {
    below := [];
    if n > 0 {
      var front := PartsBelow(data, node, parts, n - 1);
      assert Means(data, Partition(n - 1), node, parts[n - 1]);
      var rows :| Means(data, Partition(n - 1), node.child, rows) && Step(node, rows, parts[n - 1]);
      below := front + [rows];
    }
  }

  lemma {:induction false} GathersBelow(data: Data, node: DPlan, parts: seq<seq<Row>>) returns (below: seq<seq<Row>>)
    requires Unary(node) && Gathers(data, node, parts)
    ensures Gathers(data, node.child, below) && StepAll(node, below, parts)
  {
    below := PartsBelow(data, node, parts, data.count);
    forall p | 0 <= p < |parts| ensures Step(node, below[p], parts[p]) {}
  }

  lemma {:induction false} ScanSpreads(data: Data, plan: DPlan)
    requires WellPartitioned(data) && plan.Scan? && plan.table in data.partitioned
    ensures Spreads(data, plan, plan)
  {
    forall parts | Gathers(data, plan, parts)
      ensures exists rows :: Means(data, Everywhere, plan, rows) && multiset(rows) == Pool(parts)
    {
      var table := data.partitioned[plan.table];
      forall p | 0 <= p < data.count ensures multiset(parts[p]) == multiset(table[p]) {
        assert Means(data, Partition(p), plan, parts[p]);
      }
      PoolSame(parts, table, |parts|);
      ConcatIsPool(table, |table|);
      assert Means(data, Everywhere, plan, Concat(table, |table|));
    }
  }

  /** Filters, projections and sorts of a plan that spreads spread. */
  lemma {:induction false} StepSpreads(data: Data, node: DPlan, node': DPlan)
    requires (node.Filter? && node'.Filter? && node.keep == node'.keep)
             || (node.Sort? && node'.Sort? && node.keys == node'.keys)
          || (node.Project? && node'.Project? && node.compute == node'.compute)
    requires Spreads(data, node.child, node'.child)
    ensures Spreads(data, node, node')
  {
    forall parts | Gathers(data, node', parts)
      ensures exists rows :: Means(data, Everywhere, node, rows) && multiset(rows) == Pool(parts)
    {
      var below := GathersBelow(data, node', parts);
      var rows := SpreadRows(data, node.child, node'.child, below);
      var out := StepOverPool(node', below, parts, rows);
      assert Step(node, rows, out);
      assert Means(data, Everywhere, node, out);
    }
  }

  /** The guard of the rewrites: multiset-preserving nodes over a partitioned table spread. */
  lemma {:induction false} LocalSpreads(data: Data, plan: DPlan)
    requires WellPartitioned(data) && IsLocal(data, plan)
    ensures Spreads(data, plan, plan)
  {
    if plan.Scan? {
      ScanSpreads(data, plan);
    } else {
      LocalSpreads(data, plan.child);
      StepSpreads(data, plan, plan);
    }
  }

  // ---------- placement ----------

  /** What the planner places without a combining node above is filters and projections over a partitioned scan. */
  lemma {:induction false} PlacedIsLocal(data: Data, plan: DPlan)
    requires Placed(data, plan, false)
    ensures Placed(data, plan, true) && IsLocal(data, plan) && PartitionedTables(data, plan) != {}
  {
    if !plan.Scan? { PlacedIsLocal(data, plan.child); }
  }

  /** Such a plan may yield its rows in any order. */
  lemma {:induction false} PlacedInAnyOrder(data: Data, plan: DPlan, site: Site, a: seq<Row>, b: seq<Row>)
    requires Placed(data, plan, false) && Means(data, site, plan, a) && multiset(a) == multiset(b)
    ensures Means(data, site, plan, b)
  {
    if plan.Filter? {
      var rows :| Means(data, site, plan.child, rows) && a == Kept(rows, plan.keep);
      var source := FilteredInOrder(rows, plan.keep, b);
      PlacedInAnyOrder(data, plan.child, site, rows, source);
      assert Step(plan, source, b);
    } else if plan.Project? {
      var rows :| Means(data, site, plan.child, rows) && a == Mapped(rows, plan.compute);
      var source := ComputedInOrder(rows, plan.compute, b);
      PlacedInAnyOrder(data, plan.child, site, rows, source);
      assert Step(plan, source, b);
    }
  }

  // ---------- streams ----------

  /** The streams that reach a merge are together what their plan yields in one place. */
  lemma {:induction false} StreamsAreRows(data: Data, plan: DPlan, outs: seq<seq<Row>>) returns (rows: seq<Row>)
    requires Streams(data, plan, outs)
    ensures Runs(data, plan, rows) && multiset(rows) == Pool(outs)
  {
    if plan.Exchange? {
      rows :| Runs(data, plan, rows) && Pool(outs) == multiset(rows);
    } else if plan.Filter? || plan.Project? || plan.Sort? {
      var below :| Streams(data, plan.child, below) && StepAll(plan, below, outs);
      var source := StreamsAreRows(data, plan.child, below);
      rows := StepOverPool(plan, below, outs, source);
    } else {
      rows := outs[0];
      assert PoolTo(outs, 0) == multiset{};
    }
  }
}
