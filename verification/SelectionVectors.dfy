/** Selection vectors of src/parallel: the positions of the rows that satisfy a filter, in ascending order. */
module SelectionVectors {

  ghost predicate Ascending(s: seq<nat>) {
    forall i, j :: 0 <= i < j < |s| ==> s[i] < s[j]
  }

  /** The positions from lo below hi whose rows satisfy a filter. */
  function Matching<T>(p: T -> bool, data: seq<T>, lo: nat, hi: nat): (sv: seq<nat>)
    requires lo <= hi <= |data|
    ensures |sv| <= hi - lo
  {
    if lo == hi then [] else Matching(p, data, lo, hi - 1) + if p(data[hi - 1]) then [hi - 1] else []
  }

  lemma {:induction false} MatchingMeans<T>(p: T -> bool, data: seq<T>, lo: nat, hi: nat)
    requires lo <= hi <= |data|
    ensures Ascending(Matching(p, data, lo, hi))
    ensures forall x :: x in Matching(p, data, lo, hi) <==> lo <= x < hi && p(data[x])
  {
    if lo < hi {
      MatchingMeans(p, data, lo, hi - 1);
      AppendAscends(Matching(p, data, lo, hi - 1), hi - 1);
    }
  }

  lemma {:induction false} AppendAscends(s: seq<nat>, x: nat)
    requires Ascending(s) && forall y {:trigger y in s} :: y in s ==> y < x
    ensures Ascending(s + [x]) && forall y :: y in s + [x] <==> y in s || y == x
  {
    assert forall i :: 0 <= i < |s| ==> s[i] in s;
  }

  lemma {:induction false} MatchingSplits<T>(p: T -> bool, data: seq<T>, lo: nat, mid: nat, hi: nat)
    requires lo <= mid <= hi <= |data|
    ensures Matching(p, data, lo, hi) == Matching(p, data, lo, mid) + Matching(p, data, mid, hi)
  {
    if mid < hi { MatchingSplits(p, data, lo, mid, hi - 1); }
  }

  function Shifted(sv: seq<nat>, base: nat): (r: seq<nat>)
    ensures |r| == |sv| && forall i :: 0 <= i < |sv| ==> r[i] == sv[i] + base
  {
    seq(|sv|, i requires 0 <= i < |sv| => sv[i] + base)
  }

  /** What a worker finds in a slice, moved by the slice's start, is what lies there in the whole. */
  lemma {:induction false} ShiftedSlice<T>(p: T -> bool, slice: seq<T>, n: nat, data: seq<T>, lo: nat)
    requires n <= |slice| && lo + n <= |data| && forall i :: 0 <= i < n ==> slice[i] == data[lo + i]
    ensures Shifted(Matching(p, slice, 0, n), lo) == Matching(p, data, lo, lo + n)
  {
    if n > 0 {
      ShiftedSlice(p, slice, n - 1, data, lo);
      ShiftedAppend(Matching(p, slice, 0, n - 1), n - 1, lo);
      assert p(slice[n - 1]) == p(data[lo + n - 1]);
    }
  }

  lemma {:induction false} ShiftedAppend(sv: seq<nat>, x: nat, base: nat)
    ensures Shifted(sv + [x], base) == Shifted(sv, base) + [x + base]
  {}

  /** The last element is the greatest, and only the last. */
  lemma {:induction false} LastIsMost(s: seq<nat>)
    requires Ascending(s) && s != []
    ensures forall x :: x in s <==> x == s[|s| - 1] || x in s[..|s| - 1]
    ensures forall x {:trigger x in s[..|s| - 1]} :: x in s[..|s| - 1] ==> x < s[|s| - 1]
  {
    assert s == s[..|s| - 1] + [s[|s| - 1]];
  }

  /** An ascending sequence is determined by its elements. */
  lemma {:induction false} AscendingUnique(s: seq<nat>, t: seq<nat>)
    requires Ascending(s) && Ascending(t) && forall x :: x in s <==> x in t
    ensures s == t
  {
    assert |s| > 0 ==> s[0] in t;
    assert |t| > 0 ==> t[0] in s;
    if s != [] && t != [] {
      var u, v, last := s[..|s| - 1], t[..|t| - 1], s[|s| - 1];
      LastIsMost(s);
      assert last in t;
      LastIsMost(t);
      assert t[|t| - 1] in s && last == t[|t| - 1];
      forall x | x in u ensures x in v { assert x in s && x in t; }
      forall x | x in v ensures x in u { assert x in t && x in s; }
      AscendingUnique(u, v);
      assert s == u + [last] && t == v + [last];
    }
  }

  // ---------- merging two vectors ----------

  /** What the intersecting merge still puts out from places i and j on. */
  function IntersectFrom(a: seq<nat>, b: seq<nat>, i: nat, j: nat): seq<nat>
    requires i <= |a| && j <= |b|
    decreases |a| - i + |b| - j
  {
    if i == |a| || j == |b| then []
    else if a[i] == b[j] then [a[i]] + IntersectFrom(a, b, i + 1, j + 1)
    else if a[i] < b[j] then IntersectFrom(a, b, i + 1, j)
    else IntersectFrom(a, b, i, j + 1)
  }

  function UnionFrom(a: seq<nat>, b: seq<nat>, i: nat, j: nat): seq<nat>
    requires i <= |a| && j <= |b|
    decreases |a| - i + |b| - j
  {
    if i == |a| then b[j..]
    else if j == |b| then a[i..]
    else if a[i] == b[j] then [a[i]] + UnionFrom(a, b, i + 1, j + 1)
    else if a[i] < b[j] then [a[i]] + UnionFrom(a, b, i + 1, j)
    else [b[j]] + UnionFrom(a, b, i, j + 1)
  }

  /** The merges so far: what was put out and what is still to come make the whole. */
  ghost predicate IntersectSoFar(put: seq<nat>, a: seq<nat>, b: seq<nat>, i: nat, j: nat) {
    i <= |a| && j <= |b| && put + IntersectFrom(a, b, i, j) == IntersectFrom(a, b, 0, 0)
  }

  ghost predicate UnionSoFar(put: seq<nat>, a: seq<nat>, b: seq<nat>, i: nat, j: nat) {
    i <= |a| && j <= |b| && put + UnionFrom(a, b, i, j) == UnionFrom(a, b, 0, 0)
  }

  lemma {:induction false} MergeStarts(a: seq<nat>, b: seq<nat>)
    ensures IntersectSoFar([], a, b, 0, 0) && UnionSoFar([], a, b, 0, 0)
  {}

  lemma {:induction false} IntersectStep(put: seq<nat>, a: seq<nat>, b: seq<nat>, i: nat, j: nat)
    requires i < |a| && j < |b| && IntersectSoFar(put, a, b, i, j)
    ensures a[i] == b[j] ==> IntersectSoFar(put + [a[i]], a, b, i + 1, j + 1)
    ensures a[i] < b[j] ==> IntersectSoFar(put, a, b, i + 1, j)
    ensures a[i] > b[j] ==> IntersectSoFar(put, a, b, i, j + 1)
  {
    if a[i] == b[j] { Associate(put, a[i], IntersectFrom(a, b, i + 1, j + 1)); }
  }

  lemma {:induction false} UnionStep(put: seq<nat>, a: seq<nat>, b: seq<nat>, i: nat, j: nat)
    requires i < |a| && j < |b| && UnionSoFar(put, a, b, i, j)
    ensures a[i] == b[j] ==> UnionSoFar(put + [a[i]], a, b, i + 1, j + 1)
    ensures a[i] < b[j] ==> UnionSoFar(put + [a[i]], a, b, i + 1, j)
    ensures a[i] > b[j] ==> UnionSoFar(put + [b[j]], a, b, i, j + 1)
  {
    if a[i] == b[j] {
      Associate(put, a[i], UnionFrom(a, b, i + 1, j + 1));
    } else if a[i] < b[j] {
      Associate(put, a[i], UnionFrom(a, b, i + 1, j));
    } else {
      Associate(put, b[j], UnionFrom(a, b, i, j + 1));
    }
  }

  lemma {:induction false} Associate(put: seq<nat>, x: nat, rest: seq<nat>)
    ensures (put + [x]) + rest == put + ([x] + rest)
  {}

  /** When one side is used up, the merges are a copy away from done. */
  lemma {:induction false} MergeEnds(put: seq<nat>, a: seq<nat>, b: seq<nat>, i: nat, j: nat)
    requires i <= |a| && j <= |b| && (i == |a| || j == |b|)
    ensures IntersectSoFar(put, a, b, i, j) ==> put == IntersectFrom(a, b, 0, 0)
    ensures UnionSoFar(put, a, b, i, j) ==> put + a[i..] + b[j..] == UnionFrom(a, b, 0, 0)
  {}

  lemma {:induction false} TailMembers(a: seq<nat>, i: nat)
    requires Ascending(a) && i < |a|
    ensures forall x :: x in a[i..] <==> x == a[i] || x in a[i + 1..]
    ensures forall x {:trigger x in a[i + 1..]} :: x in a[i + 1..] ==> x > a[i]
  {
    assert a[i..] == [a[i]] + a[i + 1..];
  }

  lemma {:induction false} PrependAscends(x: nat, rest: seq<nat>)
    requires Ascending(rest) && forall y {:trigger y in rest} :: y in rest ==> x < y
    ensures Ascending([x] + rest)
  {
    assert forall i :: 0 <= i < |rest| ==> rest[i] in rest;
  }

  /** The merge of two ascending vectors puts out exactly what both hold, ascending. */
  lemma {:induction false} IntersectMeans(a: seq<nat>, b: seq<nat>, i: nat, j: nat)
    requires Ascending(a) && Ascending(b) && i <= |a| && j <= |b|
    ensures Ascending(IntersectFrom(a, b, i, j))
    ensures forall x :: x in IntersectFrom(a, b, i, j) <==> x in a[i..] && x in b[j..]
    decreases |a| - i + |b| - j
  {
    if i < |a| && j < |b| {
      TailMembers(a, i);
      TailMembers(b, j);
      if a[i] == b[j] {
        IntersectMeans(a, b, i + 1, j + 1);
        PrependAscends(a[i], IntersectFrom(a, b, i + 1, j + 1));
      } else if a[i] < b[j] {
        IntersectMeans(a, b, i + 1, j);
      } else {
        IntersectMeans(a, b, i, j + 1);
      }
    }
  }

  lemma {:induction false} UnionMeans(a: seq<nat>, b: seq<nat>, i: nat, j: nat)
    requires Ascending(a) && Ascending(b) && i <= |a| && j <= |b|
    ensures Ascending(UnionFrom(a, b, i, j))
    ensures forall x :: x in UnionFrom(a, b, i, j) <==> x in a[i..] || x in b[j..]
    decreases |a| - i + |b| - j
  {
    if i < |a| && j < |b| {
      TailMembers(a, i);
      TailMembers(b, j);
      if a[i] == b[j] {
        UnionMeans(a, b, i + 1, j + 1);
        PrependAscends(a[i], UnionFrom(a, b, i + 1, j + 1));
      } else if a[i] < b[j] {
        UnionMeans(a, b, i + 1, j);
        PrependAscends(a[i], UnionFrom(a, b, i + 1, j));
      } else {
        UnionMeans(a, b, i, j + 1);
        PrependAscends(b[j], UnionFrom(a, b, i, j + 1));
      }
    }
  }

  // ---------- compound filters ----------

  datatype CombineOp = And | Or

  /** Whether a row passes the first n filters together. */
  predicate Passes<T>(filters: seq<T -> bool>, n: nat, op: CombineOp, x: T)
    requires 0 < n <= |filters|
  {
    if n == 1 then filters[0](x)
    else if op.And? then Passes(filters, n - 1, op, x) && filters[n - 1](x)
    else Passes(filters, n - 1, op, x) || filters[n - 1](x)
  }

  /** A row passes together when it passes every filter, or some filter. */
  lemma {:induction false} PassesAll<T>(filters: seq<T -> bool>, n: nat, op: CombineOp, x: T)
    requires 0 < n <= |filters|
    ensures op.And? ==> (Passes(filters, n, op, x) <==> forall i :: 0 <= i < n ==> filters[i](x))
    ensures op.Or? ==> (Passes(filters, n, op, x) <==> exists i :: 0 <= i < n && filters[i](x))
  {
    if n > 1 { PassesAll(filters, n - 1, op, x); }
  }

  function Together<T>(filters: seq<T -> bool>, n: nat, op: CombineOp): T -> bool
    requires 0 < n <= |filters|
  {
    (x: T) => Passes(filters, n, op, x)
  }

  function Merged(a: seq<nat>, b: seq<nat>, op: CombineOp): seq<nat> {
    if op.And? then IntersectFrom(a, b, 0, 0) else UnionFrom(a, b, 0, 0)
  }

  /** Merging the vector of the first n filters with that of the next gives the vector of the first n + 1. */
  lemma {:induction false} MergedIsMatching<T>(filters: seq<T -> bool>, n: nat, op: CombineOp, data: seq<T>)
    requires 0 < n < |filters|
    ensures Merged(Matching(Together(filters, n, op), data, 0, |data|), Matching(filters[n], data, 0, |data|), op)
         == Matching(Together(filters, n + 1, op), data, 0, |data|)
  {
    var a, b := Matching(Together(filters, n, op), data, 0, |data|), Matching(filters[n], data, 0, |data|);
    MatchingMeans(Together(filters, n, op), data, 0, |data|);
    MatchingMeans(filters[n], data, 0, |data|);
    MatchingMeans(Together(filters, n + 1, op), data, 0, |data|);
    IntersectMeans(a, b, 0, 0);
    UnionMeans(a, b, 0, 0);
    assert a[0..] == a && b[0..] == b;
    AscendingUnique(Merged(a, b, op), Matching(Together(filters, n + 1, op), data, 0, |data|));
  }

  /** The first filter alone. */
  lemma {:induction false} FirstIsMatching<T>(filters: seq<T -> bool>, op: CombineOp, data: seq<T>)
    requires filters != []
    ensures Matching(filters[0], data, 0, |data|) == Matching(Together(filters, 1, op), data, 0, |data|)
  {
    MatchingMeans(filters[0], data, 0, |data|);
    MatchingMeans(Together(filters, 1, op), data, 0, |data|);
    AscendingUnique(Matching(filters[0], data, 0, |data|), Matching(Together(filters, 1, op), data, 0, |data|));
  }
}
