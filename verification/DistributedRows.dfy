/** Filtering and computing rows, whatever their order and however they are parted. */
module DistributedRows {
  import opened Sequences
  import opened RowOrder
  import opened SortedRows
  import opened MergeSpec
  import opened DistributedPlans

  lemma {:induction false} KeptAppend(a: seq<Row>, b: seq<Row>, keep: Row -> bool)
    ensures Kept(a + b, keep) == Kept(a, keep) + Kept(b, keep)
  {
    if b == [] {
      assert a + b == a;
    } else {
      KeptAppend(a, b[..|b| - 1], keep);
      assert (a + b)[..|a + b| - 1] == a + b[..|b| - 1];
    }
  }

  lemma {:induction false} MappedAppend(a: seq<Row>, b: seq<Row>, compute: Row -> Row)
    ensures Mapped(a + b, compute) == Mapped(a, compute) + Mapped(b, compute)
  {
    if b == [] {
      assert a + b == a;
    } else {
      MappedAppend(a, b[..|b| - 1], compute);
      assert (a + b)[..|a + b| - 1] == a + b[..|b| - 1];
    }
  }

  lemma {:induction false} KeptTimes(rows: seq<Row>, keep: Row -> bool, r: Row)
    ensures multiset(Kept(rows, keep))[r] == if keep(r) then multiset(rows)[r] else 0
  {
    if rows != [] {
      KeptTimes(rows[..|rows| - 1], keep, r);
      assert rows == rows[..|rows| - 1] + [rows[|rows| - 1]];
    }
  }

  lemma {:induction false} KeptPermuted(a: seq<Row>, b: seq<Row>, keep: Row -> bool)
    requires multiset(a) == multiset(b)
    ensures multiset(Kept(a, keep)) == multiset(Kept(b, keep))
  {
    forall r ensures multiset(Kept(a, keep))[r] == multiset(Kept(b, keep))[r] {
      KeptTimes(a, keep, r);
      KeptTimes(b, keep, r);
    }
  }

  lemma {:induction false} KeptAll(rows: seq<Row>, keep: Row -> bool)
    ensures (forall i :: 0 <= i < |rows| ==> keep(rows[i])) ==> Kept(rows, keep) == rows
    ensures (forall i :: 0 <= i < |rows| ==> !keep(rows[i])) ==> Kept(rows, keep) == []
  {
    if rows != [] { KeptAll(rows[..|rows| - 1], keep); }
  }

  /** How often a row is computed is how many rows compute to it. */
  lemma {:induction false} MappedTimes(rows: seq<Row>, compute: Row -> Row, r: Row)
    ensures multiset(Mapped(rows, compute))[r] == |Kept(rows, x => compute(x) == r)|
  {
    if rows != [] { MappedTimes(rows[..|rows| - 1], compute, r); }
  }

  lemma {:induction false} MappedPermuted(a: seq<Row>, b: seq<Row>, compute: Row -> Row)
    requires multiset(a) == multiset(b)
    ensures multiset(Mapped(a, compute)) == multiset(Mapped(b, compute))
  {
    forall r ensures multiset(Mapped(a, compute))[r] == multiset(Mapped(b, compute))[r] {
      MappedTimes(a, compute, r);
      MappedTimes(b, compute, r);
      KeptPermuted(a, b, x => compute(x) == r);
      assert |multiset(Kept(a, x => compute(x) == r))| == |Kept(a, x => compute(x) == r)|;
      assert |multiset(Kept(b, x => compute(x) == r))| == |Kept(b, x => compute(x) == r)|;
    }
  }

  lemma {:induction false} MappedLength(rows: seq<Row>, compute: Row -> Row)
    ensures |Mapped(rows, compute)| == |rows|
    ensures forall i :: 0 <= i < |rows| ==> Mapped(rows, compute)[i] == compute(rows[i])
  {
    if rows != [] { MappedLength(rows[..|rows| - 1], compute); }
  }

  /** What is kept and what is dropped are all the rows. */
  lemma {:induction false} KeptAndDropped(rows: seq<Row>, keep: Row -> bool)
    ensures multiset(Kept(rows, keep) + Kept(rows, x => !keep(x))) == multiset(rows)
  {
    var kept, dropped := Kept(rows, keep), Kept(rows, x => !keep(x));
    forall r ensures multiset(kept + dropped)[r] == multiset(rows)[r] {
      KeptTimes(rows, keep, r);
      KeptTimes(rows, x => !keep(x), r);
      assert multiset(kept + dropped)[r] == multiset(kept)[r] + multiset(dropped)[r];
    }
  }

  lemma {:induction false} KeptSatisfy(rows: seq<Row>, keep: Row -> bool, out: seq<Row>)
    requires multiset(out) == multiset(Kept(rows, keep))
    ensures forall i :: 0 <= i < |out| ==> keep(out[i])
  {
    forall i | 0 <= i < |out| ensures keep(out[i]) {
      assert out[i] in multiset(out);
      KeptTimes(rows, keep, out[i]);
    }
  }

  /** Rows filtered as wanted, in any order wanted. */
  lemma {:induction false} FilteredInOrder(rows: seq<Row>, keep: Row -> bool, out: seq<Row>) returns (source: seq<Row>)
    requires multiset(Kept(rows, keep)) == multiset(out)
    ensures multiset(source) == multiset(rows) && Kept(source, keep) == out
  {
    var kept, dropped := Kept(rows, keep), Kept(rows, x => !keep(x));
    source := out + dropped;
    KeptAndDropped(rows, keep);
    assert multiset(source) == multiset(kept + dropped);
    KeptSatisfy(rows, keep, out);
    KeptSatisfy(rows, x => !keep(x), dropped);
    KeptAll(out, keep);
    KeptAll(dropped, keep);
    KeptAppend(out, dropped, keep);
  }

  lemma {:induction false} OneOut(rows: seq<Row>, i: nat)
    requires i < |rows|
    ensures multiset(rows) == multiset(rows[..i] + rows[i + 1..]) + multiset{rows[i]}
  {
    assert rows == rows[..i] + ([rows[i]] + rows[i + 1..]);
  }

  /** Rows computed as wanted, in any order wanted. */
  lemma {:induction false} ComputedInOrder(rows: seq<Row>, compute: Row -> Row, out: seq<Row>)
      returns (source: seq<Row>)
    requires multiset(Mapped(rows, compute)) == multiset(out)
    ensures multiset(source) == multiset(rows) && Mapped(source, compute) == out
    decreases |out|
  {
    MappedLength(rows, compute);
    assert |multiset(Mapped(rows, compute))| == |rows| && |multiset(out)| == |out|;
    source := [];
    if out != [] {
      var n := |out| - 1;
      assert out == out[..n] + [out[n]];
      var i := ComputesTo(rows, compute, out[n]);
      TakeOne(rows, i, compute);
      Cancel(multiset(Mapped(rows[..i] + rows[i + 1..], compute)), multiset(out[..n]), out[n]);
      var before := ComputedInOrder(rows[..i] + rows[i + 1..], compute, out[..n]);
      source := ComputedLast(rows, i, compute, before, out);
    }
  }

  lemma {:induction false} ComputedLast(rows: seq<Row>, i: nat, compute: Row -> Row, before: seq<Row>, out: seq<Row>)
      returns (source: seq<Row>)
    requires i < |rows| && out != [] && compute(rows[i]) == out[|out| - 1]
    requires multiset(before) == multiset(rows[..i] + rows[i + 1..]) && Mapped(before, compute) == out[..|out| - 1]
    ensures multiset(source) == multiset(rows) && Mapped(source, compute) == out
  {
    source := before + [rows[i]];
    OneOut(rows, i);
    MappedAppend(before, [rows[i]], compute);
    MappedOne(rows[i], compute);
    assert out == out[..|out| - 1] + [out[|out| - 1]];
  }

  lemma {:induction false} MappedOne(row: Row, compute: Row -> Row)
    ensures Mapped([row], compute) == [compute(row)]
  {
    assert [row][..0] == [];
  }

  lemma {:induction false} ComputesTo(rows: seq<Row>, compute: Row -> Row, value: Row) returns (i: nat)
    requires value in multiset(Mapped(rows, compute))
    ensures i < |rows| && compute(rows[i]) == value
  {
    MappedLength(rows, compute);
    i :| 0 <= i < |Mapped(rows, compute)| && Mapped(rows, compute)[i] == value;
  }

  lemma {:induction false} TakeOne(rows: seq<Row>, i: nat, compute: Row -> Row)
    requires i < |rows|
    ensures multiset(Mapped(rows, compute))
            == multiset(Mapped(rows[..i] + rows[i + 1..], compute)) + multiset{compute(rows[i])}
  {
    assert rows == rows[..i] + ([rows[i]] + rows[i + 1..]);
    MappedAppend(rows[..i], [rows[i]] + rows[i + 1..], compute);
    MappedAppend([rows[i]], rows[i + 1..], compute);
    MappedAppend(rows[..i], rows[i + 1..], compute);
    MappedOne(rows[i], compute);
  }

  // ---------- parts ----------

  lemma {:induction false} KeptParts(parts: seq<seq<Row>>, outs: seq<seq<Row>>, keep: Row -> bool, n: nat)
    requires n <= |parts| == |outs| && forall p {:trigger outs[p]} :: 0 <= p < n ==> outs[p] == Kept(parts[p], keep)
    ensures Concat(outs, n) == Kept(Concat(parts, n), keep)
  {
    if n > 0 {
      KeptParts(parts, outs, keep, n - 1);
      assert outs[n - 1] == Kept(parts[n - 1], keep);
      KeptAppend(Concat(parts, n - 1), parts[n - 1], keep);
    }
  }

  lemma {:induction false} MappedParts(parts: seq<seq<Row>>, outs: seq<seq<Row>>, compute: Row -> Row, n: nat)
    requires n <= |parts| == |outs| && forall p {:trigger outs[p]} :: 0 <= p < n ==>
             outs[p] == Mapped(parts[p], compute)
    ensures Concat(outs, n) == Mapped(Concat(parts, n), compute)
  {
    if n > 0 {
      MappedParts(parts, outs, compute, n - 1);
      assert outs[n - 1] == Mapped(parts[n - 1], compute);
      MappedAppend(Concat(parts, n - 1), parts[n - 1], compute);
    }
  }

  lemma {:induction false} PoolSame(a: seq<seq<Row>>, b: seq<seq<Row>>, n: nat)
    requires n <= |a| == |b| && forall p {:trigger a[p]} :: 0 <= p < n ==> multiset(a[p]) == multiset(b[p])
    ensures PoolTo(a, n) == PoolTo(b, n)
  {
    if n > 0 {
      assert multiset(a[n - 1]) == multiset(b[n - 1]);
      PoolSame(a, b, n - 1);
    }
  }

  /** A filter, a projection or a sort on every part is one over everything: with the rows below in any order, the
      rows above are the pool of the parts. */
  lemma {:induction false} StepOverPool(node: DPlan, below: seq<seq<Row>>, outs: seq<seq<Row>>, rows: seq<Row>)
      returns (out: seq<Row>)
    requires node.Filter? || node.Project? || node.Sort?
    requires StepAll(node, below, outs) && multiset(rows) == Pool(below)
    ensures Step(node, rows, out) && multiset(out) == Pool(outs)
  {
    ConcatIsPool(below, |below|);
    ConcatIsPool(outs, |outs|);
    var all := Concat(below, |below|);
    match node {
      case Filter(keep, _) =>
        KeptParts(below, outs, keep, |below|);
        KeptPermuted(rows, all, keep);
        out := Kept(rows, keep);
      case Project(compute, _) =>
        MappedParts(below, outs, compute, |below|);
        MappedPermuted(rows, all, compute);
        out := Mapped(rows, compute);
      case Sort(keys, _) =>
        SortRowsSorts(keys, rows);
        PoolSame(outs, below, |below|);
        out := SortRows(keys, rows);
    }
  }
}
