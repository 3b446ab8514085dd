/** The four distributed passes, one after the other, are one traversal of the plan. */
module DistributedPasses {
  import opened RowOrder
  import opened DistributedPlans

  lemma {:induction false} NewNodesKeepTables(data: Data, keys: seq<OrderKey>, count: nat, offset: nat, child: DPlan)
    ensures PartitionedTables(data, MergedSort(keys, child)) == PartitionedTables(data, child)
    ensures PartitionedTables(data, MergedTopN(keys, count, offset, child)) == PartitionedTables(data, child)
    ensures PartitionedTables(data, Globalise(data, Limit(count, offset, child))) == PartitionedTables(data, child)
    ensures PartitionedTables(data, Globalise(data, TopN(keys, count, offset, child))) == PartitionedTables(data, child)
  {
    var top := TopN(keys, count + offset, 0, child);
    assert PartitionedTables(data, top) == PartitionedTables(data, child);
    assert PartitionedTables(data, MergeExchange(keys, count + offset, top)) == PartitionedTables(data, top);
    assert PartitionedTables(data, Exchange(top)) == PartitionedTables(data, top);
    assert PartitionedTables(data, Sort(keys, child)) == PartitionedTables(data, child);
    var limit := Limit(count + offset, 0, child);
    assert PartitionedTables(data, limit) == PartitionedTables(data, child);
    assert PartitionedTables(data, Exchange(limit)) == PartitionedTables(data, limit);
  }

  lemma {:induction false} NewDistinctKeepsTables(data: Data, child: DPlan)
    ensures PartitionedTables(data, RewriteDistinct(data, Distinct(child))) == PartitionedTables(data, child)
  {
    assert PartitionedTables(data, Distinct(child)) == PartitionedTables(data, child);
    assert PartitionedTables(data, Exchange(Distinct(child))) == PartitionedTables(data, child);
  }

  lemma {:induction false} NewUnionKeepsTables(data: Data, all: bool, l: DPlan, r: DPlan)
    ensures PartitionedTables(data, RewriteUnion(data, Union(all, l, r)))
            == PartitionedTables(data, l) + PartitionedTables(data, r)
  {
    var node := Union(all, l, r);
    assert PartitionedTables(data, Exchange(node)) == PartitionedTables(data, node);
    assert PartitionedTables(data, Exchanged(data, l)) == PartitionedTables(data, l);
    assert PartitionedTables(data, Exchanged(data, r)) == PartitionedTables(data, r);
  }

  lemma {:induction false} PassKeepsTables(data: Data, pass: Pass, plan: DPlan)
    ensures PartitionedTables(data, RunPass(data, pass, plan)) == PartitionedTables(data, plan)
  {
    if plan.Union? {
      PassKeepsTables(data, pass, plan.left);
      PassKeepsTables(data, pass, plan.right);
      NewUnionKeepsTables(data, plan.all, RunPass(data, pass, plan.left), RunPass(data, pass, plan.right));
    } else if !plan.Scan? {
      PassKeepsTables(data, pass, plan.child);
      var child := RunPass(data, pass, plan.child);
      match plan {
        case Sort(keys, _) => NewNodesKeepTables(data, keys, 0, 0, child);
        case TopN(keys, count, offset, _) => NewNodesKeepTables(data, keys, count, offset, child);
        case Limit(count, offset, _) => NewNodesKeepTables(data, [], count, offset, child);
        case Distinct(_) => NewDistinctKeepsTables(data, child);
        case _ =>
      }
    }
  }

  lemma {:induction false} PassKeepsExchange(data: Data, pass: Pass, plan: DPlan)
    ensures HasExchange(plan) ==> HasExchange(RunPass(data, pass, plan))
    ensures pass.SortPass? ==> HasExchange(RunPass(data, pass, plan)) == HasExchange(plan)
  {
    if plan.Union? {
      PassKeepsExchange(data, pass, plan.left);
      PassKeepsExchange(data, pass, plan.right);
    } else if !plan.Scan? {
      PassKeepsExchange(data, pass, plan.child);
      var child := RunPass(data, pass, plan.child);
      if plan.TopN? {
        var top := TopN(plan.keys, plan.count + plan.offset, 0, child);
        assert HasExchange(MergeExchange(plan.keys, plan.count + plan.offset, top))
               == HasExchange(top) == HasExchange(child);
      }
      if plan.Sort? { assert HasExchange(Sort(plan.keys, child)) == HasExchange(child); }
    }
  }

  lemma {:induction false} LocalHasNoExchange(data: Data, plan: DPlan)
    requires LocalTables(data, plan).Some?
    ensures !HasExchange(plan)
  {
    if !plan.Scan? { LocalHasNoExchange(data, plan.child); }
  }

  /** Multiset-preserving nodes over a scan are left alone, and nothing else becomes such. */
  lemma {:induction false} PassKeepsLocal(data: Data, pass: Pass, plan: DPlan)
    ensures LocalTables(data, plan).Some? ==> RunPass(data, pass, plan) == plan
    ensures LocalTables(data, RunPass(data, pass, plan)) == LocalTables(data, plan)
  {
    if PreservesMultiset(plan) && !plan.Scan? {
      PassKeepsLocal(data, pass, plan.child);
      if LocalTables(data, plan).Some? { LocalHasNoExchange(data, plan.child); }
    }
  }

  /** The three passes behind the first. */
  function Later(data: Data, plan: DPlan): DPlan {
    RunPass(data, LimitPass, RunPass(data, SetOpPass, RunPass(data, DistinctPass, plan)))
  }

  lemma {:induction false} LaterKeeps(data: Data, plan: DPlan)
    ensures PartitionedTables(data, Later(data, plan)) == PartitionedTables(data, plan)
    ensures LocalTables(data, Later(data, plan)) == LocalTables(data, plan)
    ensures HasExchange(plan) ==> HasExchange(Later(data, plan))
  {
    var a := RunPass(data, DistinctPass, plan);
    var b := RunPass(data, SetOpPass, a);
    PassKeepsTables(data, DistinctPass, plan);
    PassKeepsTables(data, SetOpPass, a);
    PassKeepsTables(data, LimitPass, b);
    PassKeepsLocal(data, DistinctPass, plan);
    PassKeepsLocal(data, SetOpPass, a);
    PassKeepsLocal(data, LimitPass, b);
    PassKeepsExchange(data, DistinctPass, plan);
    PassKeepsExchange(data, SetOpPass, a);
    PassKeepsExchange(data, LimitPass, b);
  }

  /** What the later passes do with nodes they have no rule for. */
  lemma {:induction false} LaterThrough(data: Data, keys: seq<OrderKey>, fetch: nat, c: DPlan)
    ensures Later(data, Sort(keys, c)) == Sort(keys, Later(data, c))
    ensures Later(data, MergeExchange(keys, fetch, c)) == MergeExchange(keys, fetch, Later(data, c))
    ensures Later(data, Exchange(c)) == Exchange(Later(data, c))
  {
    var a := RunPass(data, DistinctPass, c);
    var b := RunPass(data, SetOpPass, a);
    assert RunPass(data, DistinctPass, Sort(keys, c)) == Sort(keys, a);
    assert RunPass(data, SetOpPass, Sort(keys, a)) == Sort(keys, b);
    assert RunPass(data, DistinctPass, MergeExchange(keys, fetch, c)) == MergeExchange(keys, fetch, a);
    assert RunPass(data, SetOpPass, MergeExchange(keys, fetch, a)) == MergeExchange(keys, fetch, b);
    assert RunPass(data, DistinctPass, Exchange(c)) == Exchange(a);
    assert RunPass(data, SetOpPass, Exchange(a)) == Exchange(b);
  }

  lemma {:induction false} LaterLimits(data: Data, keys: seq<OrderKey>, count: nat, offset: nat, c: DPlan)
    ensures Later(data, Limit(count, offset, c)) == Globalise(data, Limit(count, offset, Later(data, c)))
    ensures Later(data, TopN(keys, count, offset, c)) == Globalise(data, TopN(keys, count, offset, Later(data, c)))
  {
    var a := RunPass(data, DistinctPass, c);
    var b := RunPass(data, SetOpPass, a);
    assert RunPass(data, DistinctPass, Limit(count, offset, c)) == Limit(count, offset, a);
    assert RunPass(data, SetOpPass, Limit(count, offset, a)) == Limit(count, offset, b);
    assert RunPass(data, DistinctPass, TopN(keys, count, offset, c)) == TopN(keys, count, offset, a);
    assert RunPass(data, SetOpPass, TopN(keys, count, offset, a)) == TopN(keys, count, offset, b);
  }

  lemma {:induction false} SortPassed(data: Data, plan: DPlan)
    requires plan.Sort? && Distribute(data, plan.child) == Rewrite(data, plan.child)
    ensures Distribute(data, plan) == Rewrite(data, plan)
  {
    var child := RunPass(data, SortPass, plan.child);
    PassKeepsExchange(data, SortPass, plan.child);
    assert RunPass(data, SortPass, plan) == if HasExchange(child) then MergedSort(plan.keys, child)
           else Sort(plan.keys, child);
    LaterThrough(data, plan.keys, 0, child);
    LaterThrough(data, plan.keys, 0, Sort(plan.keys, child));
  }

  lemma {:induction false} TopNPassed(data: Data, plan: DPlan)
    requires plan.TopN? && Distribute(data, plan.child) == Rewrite(data, plan.child)
    ensures Distribute(data, plan) == Rewrite(data, plan)
  {
    var child := RunPass(data, SortPass, plan.child);
    PassKeepsExchange(data, SortPass, plan.child);
    assert RunPass(data, SortPass, plan) ==
      if HasExchange(child) then MergedTopN(plan.keys, plan.count, plan.offset, child)
      else TopN(plan.keys, plan.count, plan.offset, child);
    LaterLimits(data, plan.keys, plan.count, plan.offset, child);
    if HasExchange(child) { MergedTopNPassed(data, plan.keys, plan.count, plan.offset, child); }
  }

  lemma {:induction false} MergedTopNPassed(data: Data, keys: seq<OrderKey>, count: nat, offset: nat, child: DPlan)
    requires HasExchange(child)
    ensures Later(data, MergedTopN(keys, count, offset, child)) == MergedTopN(keys, count, offset, Later(data, child))
  {
    var fetch := count + offset;
    var local := TopN(keys, fetch, 0, child);
    LaterKeeps(data, child);
    if LocalTables(data, Later(data, child)).Some? { LocalHasNoExchange(data, Later(data, child)); }
    LaterLimits(data, keys, fetch, 0, child);
    LaterThrough(data, keys, fetch, local);
    LaterLimits(data, keys, count, offset, MergeExchange(keys, fetch, local));
  }

  lemma {:induction false} LimitPassed(data: Data, plan: DPlan)
    requires plan.Limit? && Distribute(data, plan.child) == Rewrite(data, plan.child)
    ensures Distribute(data, plan) == Rewrite(data, plan)
  {
    var child := RunPass(data, SortPass, plan.child);
    assert RunPass(data, SortPass, plan) == Limit(plan.count, plan.offset, child);
    LaterLimits(data, [], plan.count, plan.offset, child);
  }

  /** The two passes behind the second leave Distinct alone. */
  lemma {:induction false} DistinctThrough(data: Data, c: DPlan)
    ensures RunPass(data, LimitPass, RunPass(data, SetOpPass, Distinct(c)))
         == Distinct(RunPass(data, LimitPass, RunPass(data, SetOpPass, c)))
    ensures RunPass(data, LimitPass, RunPass(data, SetOpPass, Exchange(c)))
         == Exchange(RunPass(data, LimitPass, RunPass(data, SetOpPass, c)))
  {
    assert RunPass(data, SetOpPass, Distinct(c)) == Distinct(RunPass(data, SetOpPass, c));
    assert RunPass(data, SetOpPass, Exchange(c)) == Exchange(RunPass(data, SetOpPass, c));
  }

  lemma {:induction false} DistinctPassed(data: Data, plan: DPlan)
    requires plan.Distinct? && Distribute(data, plan.child) == Rewrite(data, plan.child)
    ensures Distribute(data, plan) == Rewrite(data, plan)
  {
    var a := RunPass(data, SortPass, plan.child);
    var b := RunPass(data, DistinctPass, a);
    var c := RunPass(data, SetOpPass, b);
    assert RunPass(data, SortPass, plan) == Distinct(a);
    assert RunPass(data, DistinctPass, Distinct(a)) == RewriteDistinct(data, Distinct(b));
    PassKeepsTables(data, SetOpPass, b);
    PassKeepsTables(data, LimitPass, c);
    DistinctThrough(data, b);
    DistinctThrough(data, Distinct(b));
    DistinctThrough(data, Exchange(Distinct(b)));
  }

  /** The last pass leaves what a union is rewritten to alone, but for its inputs. */
  lemma {:induction false} UnionThrough(data: Data, all: bool, l: DPlan, r: DPlan)
    ensures RunPass(data, LimitPass, RewriteUnion(data, Union(all, l, r)))
         == RewriteUnion(data, Union(all, RunPass(data, LimitPass, l), RunPass(data, LimitPass, r)))
  {
    var node := Union(all, l, r);
    PassKeepsTables(data, LimitPass, l);
    PassKeepsTables(data, LimitPass, r);
    PassKeepsLocal(data, LimitPass, l);
    PassKeepsLocal(data, LimitPass, r);
    assert RunPass(data, LimitPass, node) == Union(all, RunPass(data, LimitPass, l), RunPass(data, LimitPass, r));
    assert RunPass(data, LimitPass, Exchange(node)) == Exchange(RunPass(data, LimitPass, node));
    assert RunPass(data, LimitPass, Exchanged(data, l)) == Exchanged(data, RunPass(data, LimitPass, l));
    assert RunPass(data, LimitPass, Exchanged(data, r)) == Exchanged(data, RunPass(data, LimitPass, r));
  }

  lemma {:induction false} UnionPassed(data: Data, plan: DPlan)
    requires plan.Union?
    requires Distribute(data, plan.left) == Rewrite(data, plan.left)
             && Distribute(data, plan.right) == Rewrite(data, plan.right)
    ensures Distribute(data, plan) == Rewrite(data, plan)
  {
    var l, r := RunPass(data, SortPass, plan.left), RunPass(data, SortPass, plan.right);
    var l', r' := RunPass(data, DistinctPass, l), RunPass(data, DistinctPass, r);
    assert RunPass(data, SortPass, plan) == Union(plan.all, l, r);
    assert RunPass(data, DistinctPass, Union(plan.all, l, r)) == Union(plan.all, l', r');
    UnionThrough(data, plan.all, RunPass(data, SetOpPass, l'), RunPass(data, SetOpPass, r'));
  }

  /** A node no pass has a rule for, over another input. */
  function Over(node: DPlan, c: DPlan): DPlan {
    match node
    case Filter(keep, _) => Filter(keep, c)
    case Project(compute, _) => Project(compute, c)
    case MergeExchange(keys, fetch, _) => MergeExchange(keys, fetch, c)
    case Exchange(_) => Exchange(c)
    case _ => node
  }

  lemma {:induction false} LocalNodePassed(data: Data, plan: DPlan)
    requires plan.Filter? || plan.Project? || plan.Exchange? || plan.MergeExchange?
    requires Distribute(data, plan.child) == Rewrite(data, plan.child)
    ensures Distribute(data, plan) == Rewrite(data, plan)
  {
    var a := RunPass(data, SortPass, plan.child);
    var b := RunPass(data, DistinctPass, a);
    var c := RunPass(data, SetOpPass, b);
    assert RunPass(data, SortPass, plan) == Over(plan, a);
    assert RunPass(data, DistinctPass, Over(plan, a)) == Over(plan, b);
    assert RunPass(data, SetOpPass, Over(plan, b)) == Over(plan, c);
  }

  lemma {:induction false} PassesAreOneRewrite(data: Data, plan: DPlan)
    ensures Distribute(data, plan) == Rewrite(data, plan)
  {
    if plan.Union? {
      PassesAreOneRewrite(data, plan.left);
      PassesAreOneRewrite(data, plan.right);
      UnionPassed(data, plan);
    } else if !plan.Scan? {
      PassesAreOneRewrite(data, plan.child);
      match plan {
        case Sort(_, _) => SortPassed(data, plan);
        case TopN(_, _, _, _) => TopNPassed(data, plan);
        case Distinct(_) => DistinctPassed(data, plan);
        case Limit(_, _, _) => LimitPassed(data, plan);
        case _ => LocalNodePassed(data, plan);
      }
    }
  }
}
