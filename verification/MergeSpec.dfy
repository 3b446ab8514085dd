/** Merging sorted streams by taking runs: what every step of the merge keeps. */
module MergeSpec {
  import opened RowOrder
  import opened SortedRows

  function PoolTo(lefts: seq<seq<Row>>, n: nat): multiset<Row>
    requires n <= |lefts|
  {
    if n == 0 then multiset{} else PoolTo(lefts, n - 1) + multiset(lefts[n - 1])
  }

  /** All rows of the streams. */
  function Pool(lefts: seq<seq<Row>>): multiset<Row> {
    PoolTo(lefts, |lefts|)
  }

  /** One stream gives rows up: the pool shrinks by exactly those. */
  lemma {:induction false} PoolTaken(lefts: seq<seq<Row>>, n: nat, i: nat, taken: seq<Row>, kept: seq<Row>)
    requires n <= |lefts| && i < |lefts| && lefts[i] == taken + kept
    ensures PoolTo(lefts, n) == PoolTo(lefts[i := kept], n) + if i < n then multiset(taken) else multiset{}
  {
    if n > 0 { PoolTaken(lefts, n - 1, i, taken, kept); }
  }

  lemma {:induction false} PoolMembers(lefts: seq<seq<Row>>, n: nat, row: Row)
    requires n <= |lefts| && row in PoolTo(lefts, n)
    ensures exists i :: 0 <= i < n && row in lefts[i]
  {
    if row !in lefts[n - 1] { PoolMembers(lefts, n - 1, row); }
  }

  ghost predicate AllSorted(keys: seq<OrderKey>, lefts: seq<seq<Row>>) {
    forall i {:trigger lefts[i]} :: 0 <= i < |lefts| ==> Sorted(keys, lefts[i])
  }

  /** No row still in a stream belongs before a row already out. */
  ghost predicate OutFirst(keys: seq<OrderKey>, lefts: seq<seq<Row>>, out: seq<Row>) {
    out != [] ==> forall i {:trigger lefts[i]} :: 0 <= i < |lefts| && lefts[i] != [] ==>
      RowLe(keys, out[|out| - 1], lefts[i][0])
  }

  /** What holds between any two steps of a merge that started with the rows `all`. */
  ghost predicate Merging(keys: seq<OrderKey>, all: multiset<Row>, lefts: seq<seq<Row>>, out: seq<Row>) {
    && AllSorted(keys, lefts) && Sorted(keys, out) && OutFirst(keys, lefts, out)
    && multiset(out) + Pool(lefts) == all
  }

  /** A run that may be taken from stream i: its last row comes no later than the head of any other stream. */
  ghost predicate RunFits(keys: seq<OrderKey>, lefts: seq<seq<Row>>, i: nat, k: nat)
    requires i < |lefts| && 0 < k <= |lefts[i]|
  {
    forall j {:trigger lefts[j]} :: 0 <= j < |lefts| && j != i && lefts[j] != [] ==>
      RowLe(keys, lefts[i][k - 1], lefts[j][0])
  }

  lemma {:induction false} ShorterRunFits(keys: seq<OrderKey>, lefts: seq<seq<Row>>, i: nat, k: nat, m: nat)
    requires AllSorted(keys, lefts) && i < |lefts| && 0 < m <= k <= |lefts[i]| && RunFits(keys, lefts, i, k)
    ensures RunFits(keys, lefts, i, m)
  {
    assert Sorted(keys, lefts[i]);
    forall j | 0 <= j < |lefts| && j != i && lefts[j] != [] ensures RowLe(keys, lefts[i][m - 1], lefts[j][0]) {
      if m < k { CompareRowsChain(keys, lefts[i][m - 1], lefts[i][k - 1], lefts[j][0]); }
    }
  }

  lemma {:induction false} Halves(stream: seq<Row>, k: nat)
    requires k <= |stream|
    ensures stream == stream[..k] + stream[k..]
    ensures stream[0..k] == stream[..k] && stream[k..|stream|] == stream[k..]
  {}

  lemma {:induction false} TakeRun(keys: seq<OrderKey>, all: multiset<Row>, lefts: seq<seq<Row>>, out: seq<Row>,
                                   i: nat, k: nat)
    requires Merging(keys, all, lefts, out) && i < |lefts| && 0 < k <= |lefts[i]| && RunFits(keys, lefts, i, k)
    ensures Merging(keys, all, lefts[i := lefts[i][k..]], out + lefts[i][..k])
  {
    var stream := lefts[i];
    var run, rest := stream[..k], stream[k..];
    assert Sorted(keys, stream);
    SortedSlice(keys, stream, 0, k);
    SortedSlice(keys, stream, k, |stream|);
    Halves(stream, k);
    SortedAppend(keys, out, run);
    PoolTaken(lefts, |lefts|, i, run, rest);
    RunLeavesFirst(keys, lefts, out, i, k);
  }

  lemma {:induction false} RunLeavesFirst(keys: seq<OrderKey>, lefts: seq<seq<Row>>, out: seq<Row>, i: nat, k: nat)
    requires AllSorted(keys, lefts) && i < |lefts| && 0 < k <= |lefts[i]| && RunFits(keys, lefts, i, k)
    ensures OutFirst(keys, lefts[i := lefts[i][k..]], out + lefts[i][..k])
  {
    var lefts', out' := lefts[i := lefts[i][k..]], out + lefts[i][..k];
    assert out'[|out'| - 1] == lefts[i][k - 1];
    assert Sorted(keys, lefts[i]);
    forall j | 0 <= j < |lefts'| && lefts'[j] != [] ensures RowLe(keys, lefts[i][k - 1], lefts'[j][0]) {
      if j == i { assert lefts'[j][0] == lefts[i][k]; } else { assert lefts'[j] == lefts[j]; }
    }
  }

  lemma {:induction false} EmptyPool(lefts: seq<seq<Row>>, n: nat)
    requires n <= |lefts| && forall i {:trigger lefts[i]} :: 0 <= i < n ==> lefts[i] == []
    ensures PoolTo(lefts, n) == multiset{}
  {
    if n > 0 {
      assert lefts[n - 1] == [];
      EmptyPool(lefts, n - 1);
    }
  }

  /** When the streams are drained the output is a sorted arrangement of all rows. */
  lemma {:induction false} MergeFinished(keys: seq<OrderKey>, all: multiset<Row>, lefts: seq<seq<Row>>, out: seq<Row>)
    requires Merging(keys, all, lefts, out) && forall i {:trigger lefts[i]} :: 0 <= i < |lefts| ==> lefts[i] == []
    ensures Sorted(keys, out) && multiset(out) == all
  {
    EmptyPool(lefts, |lefts|);
  }

  function Concat(lefts: seq<seq<Row>>, n: nat): seq<Row>
    requires n <= |lefts|
  {
    if n == 0 then [] else Concat(lefts, n - 1) + lefts[n - 1]
  }

  lemma {:induction false} ConcatIsPool(lefts: seq<seq<Row>>, n: nat)
    requires n <= |lefts|
    ensures multiset(Concat(lefts, n)) == PoolTo(lefts, n)
  {
    if n > 0 { ConcatIsPool(lefts, n - 1); }
  }

  /** Wherever the merge stops, the output is a prefix of a sorted arrangement of all rows. */
  lemma {:induction false} MergeStopped(keys: seq<OrderKey>, all: multiset<Row>, lefts: seq<seq<Row>>, out: seq<Row>)
    requires Merging(keys, all, lefts, out)
    ensures SortedPrefixOf(keys, out, all)
  {
    var others := Concat(lefts, |lefts|);
    ConcatIsPool(lefts, |lefts|);
    forall r | 0 <= r < |others| && out != [] ensures RowLe(keys, out[|out| - 1], others[r]) {
      assert others[r] in multiset(others);
      PoolMembers(lefts, |lefts|, others[r]);
      var i :| 0 <= i < |lefts| && others[r] in lefts[i];
      var j :| 0 <= j < |lefts[i]| && lefts[i][j] == others[r];
      assert RowLe(keys, out[|out| - 1], lefts[i][0]);
      assert Sorted(keys, lefts[i]);
      if j > 0 { CompareRowsChain(keys, out[|out| - 1], lefts[i][0], lefts[i][j]); }
    }
    LeastRowsAreAPrefix(keys, out, others);
    assert multiset(out + others) == all;
  }
}
