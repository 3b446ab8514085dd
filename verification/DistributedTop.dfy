/** The first rows of the first rows: why local TopN and Limit lose nothing. */
module DistributedTop {
  import opened Sequences
  import opened RowOrder
  import opened SortedRows
  import opened MergeSpec

  lemma {:induction false} PoolCount(parts: seq<seq<Row>>, n: nat, p: nat)
    requires p < n <= |parts|
    ensures |PoolTo(parts, n)| >= |parts[p]|
  {
    assert |multiset(parts[n - 1])| == |parts[n - 1]|;
    if p < n - 1 { PoolCount(parts, n - 1, p); }
  }

  lemma {:induction false} CountLeConcat(keys: seq<OrderKey>, parts: seq<seq<Row>>, n: nat, p: nat, x: Row)
    requires p < n <= |parts|
    ensures CountLe(keys, Concat(parts, n), x) >= CountLe(keys, parts[p], x)
  {
    CountLeAppend(keys, Concat(parts, n - 1), parts[n - 1], x);
    if p < n - 1 { CountLeConcat(keys, parts, n - 1, p, x); }
  }

  /** Every part cut after its first f rows. */
  ghost predicate Cut(whole: seq<seq<Row>>, f: nat, firsts: seq<seq<Row>>, lasts: seq<seq<Row>>) {
    && |whole| == |firsts| == |lasts|
    && forall p {:trigger whole[p]} {:trigger firsts[p]} {:trigger lasts[p]} :: 0 <= p < |whole| ==>
      whole[p] == firsts[p] + lasts[p] && |firsts[p]| == Min(f, |whole[p]|)
  }

  lemma {:induction false} CutPool(whole: seq<seq<Row>>, f: nat, firsts: seq<seq<Row>>, lasts: seq<seq<Row>>, n: nat)
    requires Cut(whole, f, firsts, lasts) && n <= |whole|
    ensures PoolTo(whole, n) == PoolTo(firsts, n) + PoolTo(lasts, n)
  {
    if n > 0 {
      CutPool(whole, f, firsts, lasts, n - 1);
      assert whole[n - 1] == firsts[n - 1] + lasts[n - 1];
    }
  }

  /** Unless some part is longer than f nothing is cut off; if one is, at least f rows remain. */
  lemma {:induction false} CutEnough(whole: seq<seq<Row>>, f: nat, firsts: seq<seq<Row>>, lasts: seq<seq<Row>>)
    requires Cut(whole, f, firsts, lasts)
    ensures |Pool(firsts)| >= Min(f, |Pool(whole)|)
    ensures |Pool(firsts)| < f ==> Pool(lasts) == multiset{}
  {
    CutPool(whole, f, firsts, lasts, |whole|);
    if p :| 0 <= p < |whole| && lasts[p] != [] {
      assert whole[p] == firsts[p] + lasts[p];
      PoolCount(firsts, |firsts|, p);
    } else {
      EmptyPool(lasts, |lasts|);
    }
  }

  lemma {:induction false} LastsMember(lasts: seq<seq<Row>>, x: Row) returns (p: nat, i: nat)
    requires x in Concat(lasts, |lasts|)
    ensures p < |lasts| && i < |lasts[p]| && lasts[p][i] == x
  {
    ConcatIsPool(lasts, |lasts|);
    assert x in multiset(Concat(lasts, |lasts|));
    PoolMembers(lasts, |lasts|, x);
    p :| 0 <= p < |lasts| && x in lasts[p];
    i :| 0 <= i < |lasts[p]| && lasts[p][i] == x;
  }

  /** The rows kept of a sorted part come no later than a row cut off it, and there are f of them. */
  lemma {:induction false} KeptAreEarlier(keys: seq<OrderKey>, whole: seq<seq<Row>>, f: nat, firsts: seq<seq<Row>>,
                                          lasts: seq<seq<Row>>, p: nat, i: nat)
    requires Cut(whole, f, firsts, lasts) && AllSorted(keys, whole) && p < |whole| && i < |lasts[p]|
    ensures |firsts[p]| == f && CountLe(keys, Concat(firsts, |firsts|), lasts[p][i]) >= f
  {
    var x := lasts[p][i];
    assert whole[p] == firsts[p] + lasts[p] && |firsts[p]| == f && Sorted(keys, whole[p]);
    forall k | 0 <= k < f ensures RowLe(keys, firsts[p][k], x) {
      assert whole[p][k] == firsts[p][k] && whole[p][f + i] == x;
    }
    CountLeAll(keys, firsts[p], x);
    CountLeConcat(keys, firsts, |firsts|, p, x);
  }

  /** A row cut off a sorted part comes no earlier than the last of the first f rows overall. */
  lemma {:induction false} CutOffIsLater(keys: seq<OrderKey>, whole: seq<seq<Row>>, f: nat, firsts: seq<seq<Row>>,
                                         lasts: seq<seq<Row>>, top: seq<Row>, rest: seq<Row>, p: nat, i: nat)
    requires Cut(whole, f, firsts, lasts) && AllSorted(keys, whole) && p < |whole| && i < |lasts[p]|
    requires Sorted(keys, top + rest) && multiset(top + rest) == Pool(firsts)
    requires |top| == Min(f, |Pool(firsts)|) && top != []
    ensures RowLe(keys, top[|top| - 1], lasts[p][i])
  {
    var x := lasts[p][i];
    KeptAreEarlier(keys, whole, f, firsts, lasts, p, i);
    PoolCount(firsts, |firsts|, p);
    assert |top| == f && (top + rest)[f - 1] == top[f - 1];
    ConcatIsPool(firsts, |firsts|);
    CountLePermuted(keys, top + rest, Concat(firsts, |firsts|), x);
    CountLeSorted(keys, top + rest, f - 1, x);
  }

  /** The first f rows of the first f rows of every sorted part are the first f rows of all. */
  lemma {:induction false} TopOfTops(keys: seq<OrderKey>, whole: seq<seq<Row>>, f: nat, firsts: seq<seq<Row>>,
                                     lasts: seq<seq<Row>>, top: seq<Row>)
    requires Cut(whole, f, firsts, lasts) && AllSorted(keys, whole)
    requires SortedPrefixOf(keys, top, Pool(firsts)) && |top| == Min(f, |Pool(firsts)|)
    ensures SortedPrefixOf(keys, top, Pool(whole)) && |top| == Min(f, |Pool(whole)|)
  {
    var rest: seq<Row> :| Sorted(keys, top + rest) && multiset(top + rest) == Pool(firsts);
    var off := Concat(lasts, |lasts|);
    ConcatIsPool(lasts, |lasts|);
    CutPool(whole, f, firsts, lasts, |whole|);
    CutEnough(whole, f, firsts, lasts);
    OthersAreLater(keys, whole, f, firsts, lasts, top, rest, off);
    SortedPart(keys, top, rest);
    LeastRowsAreAPrefix(keys, top, rest + off);
    ThreeParts(top, rest, off, Pool(firsts), Pool(lasts));
  }

  lemma {:induction false} ThreeParts(top: seq<Row>, rest: seq<Row>, off: seq<Row>, first: multiset<Row>,
                                      last: multiset<Row>)
    requires multiset(top + rest) == first && multiset(off) == last
    ensures multiset(top + (rest + off)) == first + last
  {
    assert top + (rest + off) == (top + rest) + off;
  }

  lemma {:induction false} OthersAreLater(keys: seq<OrderKey>, whole: seq<seq<Row>>, f: nat, firsts: seq<seq<Row>>,
                                          lasts: seq<seq<Row>>,
      top: seq<Row>, rest: seq<Row>, off: seq<Row>)
    requires Cut(whole, f, firsts, lasts) && AllSorted(keys, whole) && off == Concat(lasts, |lasts|)
    requires Sorted(keys, top + rest) && multiset(top + rest) == Pool(firsts) && |top| == Min(f, |Pool(firsts)|)
    ensures top != [] ==> forall k :: 0 <= k < |rest + off| ==> RowLe(keys, top[|top| - 1], (rest + off)[k])
  {
    var others := rest + off;
    forall k | 0 <= k < |others| && top != [] ensures RowLe(keys, top[|top| - 1], others[k]) {
      if k < |rest| {
        assert (top + rest)[|top| - 1] == top[|top| - 1] && (top + rest)[|top| + k] == others[k];
      } else {
        assert others[k] == off[k - |rest|];
        var p, i := LastsMember(lasts, others[k]);
        CutOffIsLater(keys, whole, f, firsts, lasts, top, rest, p, i);
      }
    }
  }

  lemma {:induction false} SortedPart(keys: seq<OrderKey>, top: seq<Row>, rest: seq<Row>)
    requires Sorted(keys, top + rest)
    ensures Sorted(keys, top)
  {
    forall i, j | 0 <= i < j < |top| ensures RowLe(keys, top[i], top[j]) {
      assert (top + rest)[i] == top[i] && (top + rest)[j] == top[j];
    }
  }
}
