/** Plans over partitioned data: their meaning, their runs, and the rewrites of src/distributed/optimizer. */
module DistributedPlans {
  import opened Wrappers
  import opened Sequences
  import opened RowOrder
  import opened MergeSpec
  import opened MergeExchanges

  /** Partitioned tables by partition, and tables every site has whole. Table names are upper-cased. */
  datatype Data = Data(count: nat, partitioned: map<string, seq<seq<Row>>>, whole: map<string, seq<Row>>)

  predicate WellPartitioned(data: Data) {
    forall t :: t in data.partitioned ==> |data.partitioned[t]| == data.count
  }

  /** Where the data of a plan comes from: one partition, or all of them. */
  datatype Site = Partition(p: nat) | Everywhere

  datatype DPlan =
    | Scan(table: string)
    | Filter(keep: Row -> bool, child: DPlan)
    | Project(compute: Row -> Row, child: DPlan)
    | Sort(keys: seq<OrderKey>, child: DPlan)
    | TopN(keys: seq<OrderKey>, count: nat, offset: nat, child: DPlan)
    | Limit(count: nat, offset: nat, child: DPlan)
    | Distinct(child: DPlan)
    | Union(all: bool, left: DPlan, right: DPlan)
    | Exchange(child: DPlan)
    | MergeExchange(keys: seq<OrderKey>, fetch: nat, child: DPlan)

  // ---------- what a plan means ----------

  function ScanRows(data: Data, site: Site, table: string): seq<Row> {
    if table in data.partitioned then
      var parts := data.partitioned[table];
      match site
      case Partition(p) => if p < |parts| then parts[p] else []
      case Everywhere => Concat(parts, |parts|)
    else if table in data.whole then data.whole[table]
    else []
  }

  function Mapped(rows: seq<Row>, compute: Row -> Row): seq<Row> {
    if rows == [] then [] else Mapped(rows[..|rows| - 1], compute) + [compute(rows[|rows| - 1])]
  }

  /** Each row once. */
  ghost predicate IsDistinctOf(out: seq<Row>, bag: multiset<Row>) {
    forall r :: multiset(out)[r] == if r in bag then 1 else 0
  }

  ghost predicate TopOf(keys: seq<OrderKey>, count: nat, offset: nat, rows: seq<Row>, out: seq<Row>) {
    exists sorted :: Sorted(keys, sorted) && multiset(sorted) == multiset(rows) && out == Slice(sorted, count, offset)
  }

  ghost predicate UnionOf(all: bool, a: seq<Row>, b: seq<Row>, out: seq<Row>) {
    if all then multiset(out) == multiset(a) + multiset(b) else IsDistinctOf(out, multiset(a) + multiset(b))
  }

  /** What a node with one input may make of it. Filter, Project and Limit keep the order of the input; an exchange
      promises none. */
  ghost predicate Step(node: DPlan, rows: seq<Row>, out: seq<Row>) {
    match node
    case Filter(keep, _) => out == Kept(rows, keep)
    case Project(compute, _) => out == Mapped(rows, compute)
    case Sort(keys, _) => Sorted(keys, out) && multiset(out) == multiset(rows)
    case TopN(keys, count, offset, _) => TopOf(keys, count, offset, rows, out)
    case Limit(count, offset, _) => out == Slice(rows, count, offset)
    case Distinct(_) => IsDistinctOf(out, multiset(rows))
    case Exchange(_) => multiset(out) == multiset(rows)
    case MergeExchange(keys, fetch, _) => Merged(keys, fetch, multiset(rows), out)
    case _ => false
  }

  predicate Unary(plan: DPlan) {
    !plan.Scan? && !plan.Union?
  }

  /** The rows a plan may yield over the data of a site, run in one place. A scan may yield its rows in any order. */
  ghost predicate Means(data: Data, site: Site, plan: DPlan, out: seq<Row>) {
    if plan.Scan? then multiset(out) == multiset(ScanRows(data, site, plan.table))
    else if plan.Union? then
      exists a, b :: Means(data, site, plan.left, a) && Means(data, site, plan.right, b) && UnionOf(plan.all, a, b, out)
    else exists rows :: Means(data, site, plan.child, rows) && Step(plan, rows, out)
  }

  // ---------- how a distributed plan runs ----------

  /** Whether the planner places a node on the workers: row-local nodes where their input is, nodes that need
      combining only directly below a node that combines, exchanges never. */
  predicate Placed(data: Data, plan: DPlan, combined: bool) {
    match plan
    case Scan(t) => t in data.partitioned
    case Filter(_, c) => Placed(data, c, combined)
    case Project(_, c) => Placed(data, c, combined)
    case Union(_, l, r) => combined && (Placed(data, l, false) || Placed(data, r, false))
    case Sort(_, c) => combined && Placed(data, c, false)
    case TopN(_, _, _, c) => combined && Placed(data, c, false)
    case Limit(_, _, c) => combined && Placed(data, c, false)
    case Distinct(c) => combined && Placed(data, c, false)
    case Exchange(_) => false
    case MergeExchange(_, _, _) => false
  }

  /** What a plan yields on each partition. */
  ghost predicate Gathers(data: Data, plan: DPlan, parts: seq<seq<Row>>) {
    |parts| == data.count && forall p {:trigger parts[p]} :: 0 <= p < data.count ==>
      Means(data, Partition(p), plan, parts[p])
  }

  ghost predicate StepAll(node: DPlan, below: seq<seq<Row>>, outs: seq<seq<Row>>) {
    |below| == |outs| && forall p {:trigger outs[p]} {:trigger below[p]} :: 0 <= p < |outs| ==>
      Step(node, below[p], outs[p])
  }

  /** What the coordinator may receive from a plan. An exchange gathers what its child yields on every partition when
      the child is placed on the workers, and is nothing when it is not. A merge exchange merges streams. */
  ghost predicate Runs(data: Data, plan: DPlan, out: seq<Row>)
    decreases plan, 0
  {
    match plan
    case Scan(t) => multiset(out) == multiset(ScanRows(data, Everywhere, t))
    case Union(all, l, r) => exists a, b :: Runs(data, l, a) && Runs(data, r, b) && UnionOf(all, a, b, out)
    case Exchange(c) =>
      if Placed(data, c, true) then exists parts :: Gathers(data, c, parts) && multiset(out) == Pool(parts)
      else Runs(data, c, out)
    case MergeExchange(keys, fetch, c) =>
      Unary(c) && exists below, locals ::
        Streams(data, c.child, below) && StepAll(c, below, locals) && Merged(keys, fetch, Pool(locals), out)
    case _ => exists rows :: Runs(data, plan.child, rows) && Step(plan, rows, out)
  }

  /** What reaches a merge: an exchange deals its rows out to any number of streams, filters, projections and sorts
      work stream by stream, and anything else is one stream. */
  ghost predicate Streams(data: Data, plan: DPlan, outs: seq<seq<Row>>)
    decreases plan, 1
  {
    if plan.Exchange? then exists rows :: Runs(data, plan, rows) && Pool(outs) == multiset(rows)
    else if plan.Filter? || plan.Project? || plan.Sort? then
      exists below :: Streams(data, plan.child, below) && StepAll(plan, below, outs)
    else |outs| == 1 && Runs(data, plan, outs[0])
  }

  // ---------- the rewrites ----------

  predicate PreservesMultiset(plan: DPlan) {
    plan.Scan? || plan.Filter? || plan.Project? || plan.Sort?
  }

  /** The partitioned tables scanned below a node that only has multiset-preserving nodes under it. */
  function LocalTables(data: Data, plan: DPlan): Option<set<string>> {
    if !PreservesMultiset(plan) then None
    else if plan.Scan? then Some(if plan.table in data.partitioned then {plan.table} else {})
    else LocalTables(data, plan.child)
  }

  predicate IsLocal(data: Data, plan: DPlan) {
    LocalTables(data, plan).Some? && LocalTables(data, plan).value != {}
  }

  /** The partitioned tables scanned anywhere below a node. */
  function PartitionedTables(data: Data, plan: DPlan): set<string> {
    if plan.Scan? then (if plan.table in data.partitioned then {plan.table} else {})
    else if plan.Union? then PartitionedTables(data, plan.left) + PartitionedTables(data, plan.right)
    else PartitionedTables(data, plan.child)
  }

  predicate HasExchange(plan: DPlan) {
    if plan.Scan? then false
    else if plan.Union? then HasExchange(plan.left) || HasExchange(plan.right)
    else plan.Exchange? || HasExchange(plan.child)
  }

  /** _globalise for a Limit or TopN. */
  function Globalise(data: Data, node: DPlan): DPlan
    requires node.Limit? || node.TopN?
  {
    if !IsLocal(data, node.child) then node
    else if node.Limit? then Limit(node.count, node.offset, Exchange(Limit(node.count + node.offset, 0, node.child)))
    else TopN(node.keys, node.count, node.offset, Exchange(TopN(node.keys, node.count + node.offset, 0, node.child)))
  }

  /** rewriteSort over a child with an exchange below. */
  function MergedSort(keys: seq<OrderKey>, child: DPlan): DPlan {
    MergeExchange(keys, 0, Sort(keys, child))
  }

  /** rewriteTopN over a child with an exchange below. */
  function MergedTopN(keys: seq<OrderKey>, count: nat, offset: nat, child: DPlan): DPlan {
    Limit(count, offset, MergeExchange(keys, count + offset, TopN(keys, count + offset, 0, child)))
  }

  function RewriteDistinct(data: Data, node: DPlan): DPlan
    requires node.Distinct?
  {
    if PartitionedTables(data, node.child) == {} then node else Distinct(Exchange(Distinct(node.child)))
  }

  predicate PartitionWise(data: Data, node: DPlan)
    requires node.Union?
  {
    IsLocal(data, node.left) && IsLocal(data, node.right)
      && LocalTables(data, node.left) == LocalTables(data, node.right)
  }

  function Exchanged(data: Data, plan: DPlan): DPlan {
    if PartitionedTables(data, plan) == {} then plan else Exchange(plan)
  }

  /** UNION and UNION ALL; the node itself stays below the exchange when its inputs are partitioned alike. */
  function RewriteUnion(data: Data, node: DPlan): DPlan
    requires node.Union?
  {
    if PartitionedTables(data, node) == {} then node
    else if PartitionWise(data, node) then (if node.all then node else Distinct(Exchange(node)))
    else Union(node.all, Exchanged(data, node.left), Exchanged(data, node.right))
  }

  // ---------- the passes ----------

  datatype Pass = SortPass | DistinctPass | SetOpPass | LimitPass

  /** A pass rewrites the children of a node first, then the node. */
  function RunPass(data: Data, pass: Pass, plan: DPlan): DPlan {
    match plan
    case Scan(_) => plan
    case Filter(keep, c) => Filter(keep, RunPass(data, pass, c))
    case Project(compute, c) => Project(compute, RunPass(data, pass, c))
    case Exchange(c) => Exchange(RunPass(data, pass, c))
    case MergeExchange(keys, fetch, c) => MergeExchange(keys, fetch, RunPass(data, pass, c))
    case Sort(keys, c) =>
      var child := RunPass(data, pass, c);
      if pass.SortPass? && HasExchange(child) then MergedSort(keys, child) else Sort(keys, child)
    case TopN(keys, count, offset, c) =>
      var child := RunPass(data, pass, c);
      if pass.SortPass? && HasExchange(child) then MergedTopN(keys, count, offset, child)
      else if pass.LimitPass? then Globalise(data, TopN(keys, count, offset, child))
      else TopN(keys, count, offset, child)
    case Limit(count, offset, c) =>
      var node := Limit(count, offset, RunPass(data, pass, c));
      if pass.LimitPass? then Globalise(data, node) else node
    case Distinct(c) =>
      var node := Distinct(RunPass(data, pass, c));
      if pass.DistinctPass? then RewriteDistinct(data, node) else node
    case Union(all, l, r) =>
      var node := Union(all, RunPass(data, pass, l), RunPass(data, pass, r));
      if pass.SetOpPass? then RewriteUnion(data, node) else node
  }

  /** The distributed passes, in the order they are registered. */
  function Distribute(data: Data, plan: DPlan): DPlan {
    RunPass(data, LimitPass, RunPass(data, SetOpPass, RunPass(data, DistinctPass, RunPass(data, SortPass, plan))))
  }

  /** The same in one traversal, the exchanges below a sort being those the plan came with. */
  function Rewrite(data: Data, plan: DPlan): DPlan {
    match plan
    case Scan(_) => plan
    case Filter(keep, c) => Filter(keep, Rewrite(data, c))
    case Project(compute, c) => Project(compute, Rewrite(data, c))
    case Exchange(c) => Exchange(Rewrite(data, c))
    case MergeExchange(keys, fetch, c) => MergeExchange(keys, fetch, Rewrite(data, c))
    case Sort(keys, c) => if HasExchange(c) then MergedSort(keys, Rewrite(data, c)) else Sort(keys, Rewrite(data, c))
    case TopN(keys, count, offset, c) =>
      if HasExchange(c) then MergedTopN(keys, count, offset, Rewrite(data, c))
      else Globalise(data, TopN(keys, count, offset, Rewrite(data, c)))
    case Limit(count, offset, c) => Globalise(data, Limit(count, offset, Rewrite(data, c)))
    case Distinct(c) => RewriteDistinct(data, Distinct(Rewrite(data, c)))
    case Union(all, l, r) => RewriteUnion(data, Union(all, Rewrite(data, l), Rewrite(data, r)))
  }

  /** Merge exchanges only come from the rewrites. */
  predicate NoMerge(plan: DPlan) {
    if plan.Scan? then true
    else if plan.Union? then NoMerge(plan.left) && NoMerge(plan.right)
    else !plan.MergeExchange? && NoMerge(plan.child)
  }
}
