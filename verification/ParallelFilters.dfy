/** Parallel filters of src/parallel/parallel-dispatch.ts and src/parallel/worker-thread.ts. */
module ParallelFilters {
  // A compiled kernel is taken to write the positions of the rows that satisfy its filter, in ascending order.
  import opened Wrappers
  import opened SelectionVectors

  const TWO_TO_THE_32 := 0x1_0000_0000

  /** A selection vector in a worker's region. */
  datatype SelVec = SelVec(ptr: nat, count: nat)

  datatype Task<!T> = Filter(p: T -> bool) | Compound(filters: seq<T -> bool>, op: CombineOp, fusable: bool) {
    predicate Valid() {
      Compound? ==> filters != []
    }

    /** What a task's rows satisfy. */
    function Meaning(): T -> bool
      requires Valid()
    {
      if Filter? then p else Together(filters, |filters|, op)
    }
  }

  // ---------- the room a task takes ----------

  function Aligned(n: nat): (aligned: nat)
    ensures aligned % 4 == 0 && n <= aligned < n + 4
  {
    (n + 3) / 4 * 4
  }

  /** Words enough for the vectors of m filters over n rows and of their merges, each aligned, and for the operands
      of a fused kernel. */
  function RoomFor(m: nat, n: nat): nat {
    if m == 0 then 0 else RoomFor(m - 1, n) + 3 * n + 12
  }

  lemma {:induction false} RoomGrows(m: nat, m': nat, n: nat, n': nat)
    requires m <= m' && n <= n'
    ensures RoomFor(m, n) <= RoomFor(m', n')
    decreases m'
  {
    if m < m' { RoomGrows(m, m' - 1, n, n'); } else if m > 0 { RoomGrows(m - 1, m' - 1, n, n'); }
  }

  /** A region of this size never runs out while a task is done over n rows. */
  function Enough<T>(task: Task<T>, n: nat): nat {
    if task.Filter? then n else RoomFor(|task.filters|, n)
  }

  // ---------- workers ----------

  /** A worker's part of the shared memory, in 4-byte words, with its bump allocator. */
  class WorkerRegion {
    const words: array<nat>
    var bump: nat

    constructor (capacity: nat)
      ensures Valid() && words.Length == capacity && fresh(words)
    {
      words := new nat[capacity](_ => 0);
      bump := 0;
    }

    ghost predicate Valid()
      reads this
    {
      bump <= words.Length
    }

    ghost predicate Allocated(v: SelVec)
      reads this
    {
      v.ptr + v.count <= bump
    }

    ghost function At(v: SelVec): seq<nat>
      requires v.ptr + v.count <= words.Length
      reads words
    {
      words[v.ptr..v.ptr + v.count]
    }

    /** alloc: 16-byte aligned, and refused when the region is full. */
    method Alloc(n: nat) returns (ptr: Option<nat>)
      requires Valid()
      modifies this`bump
      ensures Valid() && old(bump) <= bump
      ensures ptr.Some? ==> ptr.value == Aligned(old(bump)) && ptr.value + n == bump
      ensures ptr.None? ==> bump == old(bump) && Aligned(bump) + n > words.Length
    {
      var aligned := Aligned(bump);
      if aligned + n > words.Length { return None; }
      bump := aligned + n;
      ptr := Some(aligned);
    }

    /** Writes a word behind the k words of a new vector, above everything allocated before. */
    method Put(ghost base: nat, out: nat, k: nat, x: nat)
      requires base <= out && out + k < words.Length
      modifies words
      ensures words[..base] == old(words[..base]) && words[out..out + k + 1] == old(words[out..out + k]) + [x]
    {
      words[out + k] := x;
    }

    /** The same, for a vector and a memory known by their contents. */
    method Append(ghost base: nat, ghost before: seq<nat>, out: nat, k: nat, x: nat, ghost put: seq<nat>)
      requires base <= out && out + k < words.Length && words[..base] == before && words[out..out + k] == put
      modifies words
      ensures words[..base] == before && words[out..out + k + 1] == put + [x]
    {
      Put(base, out, k, x);
    }

    /** The kernel: the positions of the matching rows, written from `out` on. */
    method Kernel<T>(p: T -> bool, data: seq<T>, out: nat, ghost base: nat) returns (k: nat)
      requires base <= out && out + |data| <= words.Length
      modifies words
      ensures k <= |data| && words[..base] == old(words[..base]) && words[out..out + k] == Matching(p, data, 0, |data|)
    {
      k := 0;
      for i := 0 to |data|
        invariant k <= i && words[..base] == old(words[..base]) && words[out..out + k] == Matching(p, data, 0, i)
      {
        if p(data[i]) {
          Put(base, out, k, i);
          k := k + 1;
        }
      }
    }

    /** A vector below memory that has not changed is what it was. */
    lemma {:induction false} StillThere(v: SelVec, base: nat, before: seq<nat>)
      requires v.ptr + v.count <= base <= words.Length && words[..base] == before
      ensures At(v) == before[v.ptr..v.ptr + v.count]
    {
      forall i | 0 <= i < v.count ensures At(v)[i] == before[v.ptr..v.ptr + v.count][i] {
        assert words[..base][v.ptr + i] == words[v.ptr + i];
      }
    }

    /** runFilter. */
    method RunFilter<T>(p: T -> bool, data: seq<T>) returns (sv: Option<SelVec>)
      requires Valid()
      modifies this`bump, words
      ensures Valid() && old(bump) <= bump && words[..old(bump)] == old(words[..bump])
      ensures sv.Some? ==> sv.value.ptr >= old(bump) && Allocated(sv.value)
      ensures sv.Some? ==> At(sv.value) == Matching(p, data, 0, |data|) && bump <= old(bump) + |data| + 3
      ensures sv.None? ==> Aligned(old(bump)) + |data| > words.Length
    {
      ghost var base := bump;
      var ptr := Alloc(|data|);
      if ptr.None? { return None; }
      var k := Kernel(p, data, ptr.value, base);
      sv := Some(SelVec(ptr.value, k));
    }

    /** A word of a vector allocated before. */
    method Get(ghost base: nat, v: SelVec, i: nat, ghost before: seq<nat>, ghost a: seq<nat>) returns (x: nat)
      requires i < v.count && v.ptr + v.count <= base <= words.Length && words[..base] == before
               && before[v.ptr..v.ptr + v.count] == a
      ensures x == a[i]
    {
      x := words[v.ptr + i];
      assert before[v.ptr + i] == words[..base][v.ptr + i];
    }

    /** The vector lies below base, where the memory still is as it was. */
    ghost predicate Source(v: SelVec, base: nat, before: seq<nat>, a: seq<nat>) {
      v.ptr + v.count <= base <= words.Length && |before| == base && before[v.ptr..v.ptr + v.count] == a
    }

    ghost function Shorter(va: SelVec, vb: SelVec): nat {
      if va.count < vb.count then va.count else vb.count
    }

    /** One turn of the loop of intersectSV. */
    method IntersectOne(va: SelVec, vb: SelVec, out: nat, ghost base: nat, ghost before: seq<nat>, ghost a: seq<nat>,
                        ghost b: seq<nat>,
                        i: nat, j: nat, k: nat, ghost put: seq<nat>)
      returns (i': nat, j': nat, k': nat, ghost put': seq<nat>)
      requires Source(va, base, before, a) && Source(vb, base, before, b) && base <= out && out + k < words.Length
      requires words[..base] == before && words[out..out + k] == put && i < va.count && j < vb.count
               && IntersectSoFar(put, a, b, i, j)
      modifies words
      ensures words[..base] == before && k' <= k + 1 <= words.Length - out && words[out..out + k'] == put'
      ensures IntersectSoFar(put', a, b, i', j')
      ensures i <= i' <= va.count && j <= j' <= vb.count && i + j < i' + j' && k' - k <= i' - i && k' - k <= j' - j
    {
      var x := Get(base, va, i, before, a);
      var y := Get(base, vb, j, before, b);
      IntersectStep(put, a, b, i, j);
      if x == y {
        Put(base, out, k, x);
        i', j', k', put' := i + 1, j + 1, k + 1, put + [x];
      } else if x < y {
        i', j', k', put' := i + 1, j, k, put;
      } else {
        i', j', k', put' := i, j + 1, k, put;
      }
    }

    /** The loop of intersectSV. */
    method IntersectInto(va: SelVec, vb: SelVec, out: nat, ghost base: nat, ghost before: seq<nat>, ghost a: seq<nat>,
                         ghost b: seq<nat>)
      returns (k: nat)
      requires Source(va, base, before, a) && Source(vb, base, before, b) && base <= out
               && out + Shorter(va, vb) <= words.Length
      requires words[..base] == before
      modifies words
      ensures k <= Shorter(va, vb) && words[..base] == before && words[out..out + k] == IntersectFrom(a, b, 0, 0)
    {
      var i, j := 0, 0;
      k := 0;
      ghost var put: seq<nat> := [];
      MergeStarts(a, b);
      while i < va.count && j < vb.count
        modifies words
        invariant k <= i <= va.count && k <= j <= vb.count && words[..base] == before
        invariant words[out..out + k] == put && IntersectSoFar(put, a, b, i, j)
        decreases va.count - i + vb.count - j
      {
        i, j, k, put := IntersectOne(va, vb, out, base, before, a, b, i, j, k, put);
      }
      MergeEnds(put, a, b, i, j);
    }

    /** intersectSV. */
    method IntersectSV(va: SelVec, vb: SelVec) returns (sv: Option<SelVec>)
      requires Valid() && Allocated(va) && Allocated(vb)
      modifies this`bump, words
      ensures Valid() && old(bump) <= bump && words[..old(bump)] == old(words[..bump])
      ensures sv.Some? ==> sv.value.ptr >= old(bump) && Allocated(sv.value)
      ensures sv.Some? ==> At(sv.value) == IntersectFrom(old(At(va)), old(At(vb)), 0, 0)
      ensures sv.Some? ==> bump <= old(bump) + Shorter(va, vb) + 3
      ensures sv.None? ==> Aligned(old(bump)) + Shorter(va, vb) > words.Length
    {
      ghost var base, before, a, b := bump, words[..bump], At(va), At(vb);
      StillThere(va, base, before);
      StillThere(vb, base, before);
      var ptr := Alloc(if va.count < vb.count then va.count else vb.count);
      if ptr.None? { return None; }
      var k := IntersectInto(va, vb, ptr.value, base, before, a, b);
      sv := Some(SelVec(ptr.value, k));
    }

    /** One turn of the loop of unionSV. */
    method UnionOne(va: SelVec, vb: SelVec, out: nat, ghost base: nat, ghost before: seq<nat>, ghost a: seq<nat>,
                    ghost b: seq<nat>,
                    i: nat, j: nat, k: nat, ghost put: seq<nat>)
      returns (i': nat, j': nat, ghost put': seq<nat>)
      requires Source(va, base, before, a) && Source(vb, base, before, b) && base <= out && out + k < words.Length
      requires words[..base] == before && words[out..out + k] == put && i < va.count && j < vb.count
               && UnionSoFar(put, a, b, i, j)
      modifies words
      ensures words[..base] == before && words[out..out + k + 1] == put' && UnionSoFar(put', a, b, i', j')
      ensures i <= i' <= va.count && j <= j' <= vb.count && i + j < i' + j'
    {
      var x := Get(base, va, i, before, a);
      var y := Get(base, vb, j, before, b);
      UnionStep(put, a, b, i, j);
      if x == y {
        Append(base, before, out, k, x, put);
        i', j', put' := i + 1, j + 1, put + [x];
      } else if x < y {
        Append(base, before, out, k, x, put);
        i', j', put' := i + 1, j, put + [x];
      } else {
        Append(base, before, out, k, y, put);
        i', j', put' := i, j + 1, put + [y];
      }
    }

    /** The loop of unionSV up to the end of one vector. */
    method UnionLoop(va: SelVec, vb: SelVec, out: nat, ghost base: nat, ghost before: seq<nat>, ghost a: seq<nat>,
                     ghost b: seq<nat>)
      returns (i: nat, j: nat, k: nat, ghost put: seq<nat>)
      requires Source(va, base, before, a) && Source(vb, base, before, b) && base <= out
               && out + va.count + vb.count <= words.Length
      requires words[..base] == before
      modifies words
      ensures i <= va.count && j <= vb.count && k <= i + j && (i == va.count || j == vb.count)
              && words[..base] == before
      ensures words[out..out + k] == put && UnionSoFar(put, a, b, i, j)
    {
      i, j, k := 0, 0, 0;
      put := [];
      MergeStarts(a, b);
      while i < va.count && j < vb.count
        modifies words
        invariant i <= va.count && j <= vb.count && k <= i + j && words[..base] == before
        invariant words[out..out + k] == put && UnionSoFar(put, a, b, i, j)
        decreases va.count - i + vb.count - j
      {
        i, j, put := UnionOne(va, vb, out, base, before, a, b, i, j, k, put);
        k := k + 1;
      }
    }

    /** The loops of unionSV. */
    method UnionInto(va: SelVec, vb: SelVec, out: nat, ghost base: nat, ghost before: seq<nat>, ghost a: seq<nat>,
                     ghost b: seq<nat>)
      returns (k: nat)
      requires Source(va, base, before, a) && Source(vb, base, before, b) && base <= out
               && out + va.count + vb.count <= words.Length
      requires words[..base] == before
      modifies words
      ensures k <= va.count + vb.count && words[..base] == before && words[out..out + k] == UnionFrom(a, b, 0, 0)
    {
      ghost var put;
      var i, j;
      i, j, k, put := UnionLoop(va, vb, out, base, before, a, b);
      MergeEnds(put, a, b, i, j);
      k := CopyRest(va, i, out, k, base, before, a, put);
      k := CopyRest(vb, j, out, k, base, before, b, put + a[i..]);
    }

    /** unionSV. */
    method UnionSV(va: SelVec, vb: SelVec) returns (sv: Option<SelVec>)
      requires Valid() && Allocated(va) && Allocated(vb)
      modifies this`bump, words
      ensures Valid() && old(bump) <= bump && words[..old(bump)] == old(words[..bump])
      ensures sv.Some? ==> sv.value.ptr >= old(bump) && Allocated(sv.value)
      ensures sv.Some? ==> At(sv.value) == UnionFrom(old(At(va)), old(At(vb)), 0, 0)
      ensures sv.Some? ==> bump <= old(bump) + va.count + vb.count + 3
      ensures sv.None? ==> Aligned(old(bump)) + va.count + vb.count > words.Length
    {
      ghost var base, before, a, b := bump, words[..bump], At(va), At(vb);
      StillThere(va, base, before);
      StillThere(vb, base, before);
      var ptr := Alloc(va.count + vb.count);
      if ptr.None? { return None; }
      var k := UnionInto(va, vb, ptr.value, base, before, a, b);
      sv := Some(SelVec(ptr.value, k));
    }

    /** Copies what is left of a vector behind what has been put. */
    method CopyRest(v: SelVec, from: nat, out: nat, k: nat, ghost base: nat, ghost before: seq<nat>, ghost a: seq<nat>,
                    ghost put: seq<nat>)
      returns (k': nat)
      requires Source(v, base, before, a) && from <= v.count && base <= out
               && out + k + (v.count - from) <= words.Length
      requires words[..base] == before && words[out..out + k] == put
      modifies words
      ensures k' == k + (v.count - from) && words[..base] == before && words[out..out + k'] == put + a[from..]
    {
      k' := k;
      var i := from;
      while i < v.count
        modifies words
        invariant from <= i <= v.count && k' == k + (i - from) && words[..base] == before
        invariant words[out..out + k'] == put + a[from..i]
      {
        var x := Get(base, v, i, before, a);
        Put(base, out, k', x);
        OneFurther(put, a, from, i);
        i, k' := i + 1, k' + 1;
      }
      assert a[from..i] == a[from..];
    }

    lemma {:induction false} OneFurther(put: seq<nat>, a: seq<nat>, from: nat, i: nat)
      requires from <= i < |a|
      ensures put + a[from..i] + [a[i]] == put + a[from..i + 1]
    {}

    /** Adds the base index to every word of a vector, in Uint32 arithmetic. */
    method Shift(sv: SelVec, base: nat)
      requires Valid() && Allocated(sv)
      requires forall i :: 0 <= i < sv.count ==> At(sv)[i] + base < TWO_TO_THE_32
      modifies words
      ensures At(sv) == Shifted(old(At(sv)), base)
    {
      ghost var was := At(sv);
      for i := 0 to sv.count
        invariant words[sv.ptr..sv.ptr + i] == Shifted(was[..i], base)
        invariant words[sv.ptr + i..sv.ptr + sv.count] == was[i..]
      {
        assert words[sv.ptr + i] == words[sv.ptr + i..sv.ptr + sv.count][0] == was[i];
        words[sv.ptr + i] := (words[sv.ptr + i] + base) % TWO_TO_THE_32;
        ShiftedAppend(was[..i], was[i], base);
        assert was[..i + 1] == was[..i] + [was[i]];
        assert words[sv.ptr..sv.ptr + i + 1] == words[sv.ptr..sv.ptr + i] + [words[sv.ptr + i]];
      }
      assert was[..sv.count] == was;
    }

    /** The filters of a compound one after the other, merging each with what the ones before it left. */
    method RunUnfused<T>(filters: seq<T -> bool>, op: CombineOp, data: seq<T>) returns (sv: Option<SelVec>)
      requires Valid() && filters != []
      modifies this`bump, words
      ensures Valid()
      ensures sv.Some? ==> Allocated(sv.value)
      ensures sv.Some? ==> At(sv.value) == Matching(Together(filters, |filters|, op), data, 0, |data|)
      ensures sv.None? ==> old(bump) + RoomFor(|filters|, |data|) > words.Length
    {
      sv := RunFilter(filters[0], data);
      FirstIsMatching(filters, op, data);
      RoomGrows(1, |filters|, |data|, |data|);
      assert RoomFor(1, |data|) == 3 * |data| + 12;
      for i := 1 to |filters|
        invariant Valid()
        invariant sv.Some? ==> Allocated(sv.value)
        invariant sv.Some? ==> At(sv.value) == Matching(Together(filters, i, op), data, 0, |data|)
        invariant sv.Some? ==> bump <= old(bump) + RoomFor(i, |data|)
        invariant sv.None? ==> old(bump) + RoomFor(|filters|, |data|) > words.Length
      {
        if sv.None? { return; }
        RoomGrows(i + 1, |filters|, |data|, |data|);
        sv := MergeNext(sv.value, filters, i, op, data);
      }
    }

    method MergeNext<T>(current: SelVec, filters: seq<T -> bool>, i: nat, op: CombineOp, data: seq<T>)
        returns (sv: Option<SelVec>)
      requires Valid() && 0 < i < |filters| && Allocated(current)
      requires At(current) == Matching(Together(filters, i, op), data, 0, |data|)
      modifies this`bump, words
      ensures Valid()
      ensures sv.Some? ==> Allocated(sv.value)
      ensures sv.Some? ==> At(sv.value) == Matching(Together(filters, i + 1, op), data, 0, |data|)
      ensures sv.Some? ==> bump <= old(bump) + 3 * |data| + 12
      ensures sv.None? ==> old(bump) + 3 * |data| + 12 > words.Length
    {
      ghost var base, before := bump, words[..bump];
      StillThere(current, base, before);
      var next := RunFilter(filters[i], data);
      if next.None? { return None; }
      StillThere(current, base, before);
      MergedIsMatching(filters, i, op, data);
      if op.Or? {
        sv := UnionSV(current, next.value);
      } else {
        sv := IntersectSV(current, next.value);
      }
    }

    /** The vector of a task, before it is moved to its place in the whole. */
    method Find<T>(task: Task<T>, slice: seq<T>) returns (sv: Option<SelVec>)
      requires Valid() && task.Valid() && bump == 0
      modifies this`bump, words
      ensures Valid()
      ensures sv.Some? ==> Allocated(sv.value) && At(sv.value) == Matching(task.Meaning(), slice, 0, |slice|)
      ensures sv.None? ==> Enough(task, |slice|) > words.Length
    {
      match task {
        case Filter(p) => sv := RunFilter(p, slice);
        case Compound(filters, op, fusable) =>
          RoomGrows(1, |filters|, |slice|, |slice|);
          assert RoomFor(1, |slice|) == 3 * |slice| + 12;
          if fusable {
            sv := RunFilter(Together(filters, |filters|, op), slice);
          } else {
            sv := RunUnfused(filters, op, slice);
          }
      }
    }

    /** handleFilter and handleFilterCompound: the rows of a slice, at their positions in the whole; the region is
        emptied first, so that the room a task takes does not depend on the tasks before it. */
    method Handle<T>(task: Task<T>, slice: seq<T>, base: nat) returns (sv: Option<SelVec>)
      requires Valid() && task.Valid() && base + |slice| <= TWO_TO_THE_32
      modifies this`bump, words
      ensures Valid()
      ensures sv.Some? ==> Allocated(sv.value)
      ensures sv.Some? ==> At(sv.value) == Shifted(Matching(task.Meaning(), slice, 0, |slice|), base)
      ensures sv.None? ==> Enough(task, |slice|) > words.Length
    {
      bump := 0;
      sv := Find(task, slice);
      if sv.None? { return; }
      MatchingMeans(task.Meaning(), slice, 0, |slice|);
      assert forall i :: 0 <= i < sv.value.count ==> At(sv.value)[i] in Matching(task.Meaning(), slice, 0, |slice|);
      if base != 0 { Shift(sv.value, base); }
    }
  }

  // ---------- the dispatcher ----------

  datatype Slice = Slice(start: nat, length: nat)

  /** The first n slices follow each other without gap or overlap, none empty, up to an end. */
  ghost predicate Tiles(slices: seq<Slice>, n: nat, end: nat)
    requires n <= |slices|
  {
    if n == 0 then end == 0
    else
      var last := slices[n - 1];
      last.length > 0 && last.start + last.length == end && Tiles(slices, n - 1, last.start)
  }

  lemma {:induction false} TilesKept(slices: seq<Slice>, more: seq<Slice>, n: nat, end: nat)
    requires n <= |slices| && slices <= more && Tiles(slices, n, end)
    ensures Tiles(more, n, end)
  {
    if n > 0 { TilesKept(slices, more, n - 1, slices[n - 1].start); }
  }

  function CeilDiv(n: nat, d: nat): (q: nat)
    requires d > 0
    ensures q * d >= n && (n > 0 ==> q > 0 && (q - 1) * d < n)
  {
    assert n + d - 1 == (n + d - 1) / d * d + (n + d - 1) % d;
    (n + d - 1) / d
  }

  lemma {:induction false} ProductGrows(a: nat, b: nat, d: nat)
    requires a <= b
    ensures a * d <= b * d
  {}

  /** The quotient is the least that reaches n. */
  lemma {:induction false} CeilAtMost(n: nat, d: nat, q: nat)
    requires d > 0 && n <= q * d
    ensures CeilDiv(n, d) <= q
  {
    var c := CeilDiv(n, d);
    if c > q { ProductGrows(q, c - 1, d); }
  }

  /** No slice is longer than a morsel or than an even share of the workers. */
  lemma {:induction false} SizeFits(total: nat, workers: nat, morselSize: nat, count: nat)
    requires workers > 0 && morselSize > 0 && count >= workers && count >= CeilDiv(total, morselSize)
    ensures CeilDiv(total, count) <= morselSize && CeilDiv(total, count) <= CeilDiv(total, workers)
  {
    var morsels, share := CeilDiv(total, morselSize), CeilDiv(total, workers);
    ProductGrows(morsels, count, morselSize);
    CeilAtMost(total, count, morselSize);
    ProductGrows(workers, count, share);
    CeilAtMost(total, count, share);
  }

  /** All slices but the last are of one size, and the last is not longer. */
  ghost predicate Even(slices: seq<Slice>, size: nat) {
    forall k {:trigger slices[k]} :: 0 <= k < |slices| ==>
      slices[k].length <= size && (k < |slices| - 1 ==> slices[k].length == size)
  }

  /** Where slice k of a size starts. */
  function StartOf(k: nat, size: nat): nat {
    if k == 0 then 0 else StartOf(k - 1, size) + size
  }

  lemma {:induction false} StartIs(k: nat, size: nat)
    ensures StartOf(k, size) == k * size
  {
    if k > 0 { StartIs(k - 1, size); }
  }

  lemma {:induction false} FewSlices(k: nat, size: nat, total: nat, count: nat)
    requires count > 0 && size == CeilDiv(total, count) && k > 0 && StartOf(k - 1, size) < total
    ensures k <= count
  {
    StartIs(k - 1, size);
    if k > count { ProductGrows(count, k - 1, size); }
  }

  /** _splitRange. */
  method SplitRange(total: nat, workers: nat, morselSize: nat) returns (slices: seq<Slice>, ghost size: nat)
    requires workers > 0 && morselSize > 0
    ensures Tiles(slices, |slices|, total)
    ensures forall k :: 0 <= k < |slices| ==> slices[k].start + slices[k].length <= total
    ensures |slices| <= workers || |slices| <= CeilDiv(total, morselSize)
    ensures Even(slices, size) && size <= morselSize && size <= CeilDiv(total, workers)
  {
    var morsels := CeilDiv(total, morselSize);
    var count := if workers > morsels then workers else morsels;
    var length := CeilDiv(total, count);
    size := length;
    SizeFits(total, workers, morselSize, count);
    slices := [];
    var offset := 0;
    while offset < total
      invariant offset <= total && Tiles(slices, |slices|, offset)
      invariant forall k :: 0 <= k < |slices| ==> slices[k].start + slices[k].length <= total
      invariant Even(slices, size) && (offset < total ==> offset == StartOf(|slices|, size))
      invariant offset < total ==> forall k {:trigger slices[k]} :: 0 <= k < |slices| ==> slices[k].length == size
      invariant |slices| <= count
    {
      var next := if length < total - offset then length else total - offset;
      ghost var before := slices;
      slices := slices + [Slice(offset, next)];
      TilesKept(before, slices, |before|, offset);
      FewSlices(|slices|, size, total, count);
      offset := offset + next;
    }
  }

  function Concat(results: seq<seq<nat>>, n: nat): seq<nat>
    requires n <= |results|
  {
    if n == 0 then [] else Concat(results, n - 1) + results[n - 1]
  }

  function Sizes(results: seq<seq<nat>>, n: nat): nat
    requires n <= |results|
  {
    if n == 0 then 0 else Sizes(results, n - 1) + |results[n - 1]|
  }

  lemma {:induction false} SizesGrow(results: seq<seq<nat>>, n: nat, m: nat)
    requires n <= m <= |results|
    ensures Sizes(results, n) <= Sizes(results, m)
  {
    if n < m { SizesGrow(results, n, m - 1); }
  }

  /** merged.set(vector, at). */
  method SetAt(merged: array<nat>, at: nat, vector: seq<nat>)
    requires at + |vector| <= merged.Length
    modifies merged
    ensures merged[..at + |vector|] == old(merged[..at]) + vector
  {
    ghost var before := merged[..at];
    for i := 0 to |vector|
      invariant merged[..at + i] == before + vector[..i]
    {
      merged[at + i] := vector[i];
    }
    assert vector[..|vector|] == vector;
  }

  /** _gatherSelectionVectors. */
  method GatherSelectionVectors(results: seq<seq<nat>>) returns (gathered: seq<nat>)
    ensures gathered == Concat(results, |results|)
  {
    var total := 0;
    for i := 0 to |results|
      invariant total == Sizes(results, i)
    {
      total := total + |results[i]|;
    }
    var merged := new nat[total];
    var at := 0;
    for i := 0 to |results|
      invariant at == Sizes(results, i) <= merged.Length == Sizes(results, |results|)
                && merged[..at] == Concat(results, i)
    {
      SizesGrow(results, i + 1, |results|);
      if |results[i]| > 0 {
        SetAt(merged, at, results[i]);
        at := at + |results[i]|;
      }
    }
    gathered := merged[..];
    assert merged[..at] == merged[..];
  }

  /** Each result is what its slice contributes. */
  ghost predicate Found<T>(p: T -> bool, data: seq<T>, slices: seq<Slice>, results: seq<seq<nat>>) {
    && |results| <= |slices|
    && forall k {:trigger results[k]} :: 0 <= k < |results| ==>
         slices[k].start + slices[k].length <= |data|
         && results[k] == Matching(p, data, slices[k].start, slices[k].start + slices[k].length)
  }

  /** The slices' contributions, one behind the other, are the vector of the whole. */
  lemma {:induction false} FoundIsWhole<T>(p: T -> bool, data: seq<T>, slices: seq<Slice>, results: seq<seq<nat>>,
                                           n: nat, end: nat)
    requires Found(p, data, slices, results) && n <= |results| && Tiles(slices, n, end) && end <= |data|
    ensures Concat(results, n) == Matching(p, data, 0, end)
  {
    if n > 0 {
      assert results[n - 1] == Matching(p, data, slices[n - 1].start, end);
      FoundIsWhole(p, data, slices, results, n - 1, slices[n - 1].start);
      MatchingSplits(p, data, 0, slices[n - 1].start, end);
    }
  }

  /** One slice, by some worker. */
  method RunSlice<T>(task: Task<T>, data: seq<T>, slice: Slice, worker: WorkerRegion) returns (result: Option<seq<nat>>)
    requires task.Valid() && worker.Valid() && slice.start + slice.length <= |data| <= TWO_TO_THE_32
    modifies worker`bump, worker.words
    ensures worker.Valid()
    ensures result.Some? ==> result.value == Matching(task.Meaning(), data, slice.start, slice.start + slice.length)
    ensures result.None? ==> Enough(task, |data|) > worker.words.Length
  {
    var end := slice.start + slice.length;
    var sv := worker.Handle(task, data[slice.start..end], slice.start);
    if task.Compound? { RoomGrows(|task.filters|, |task.filters|, slice.length, |data|); }
    if sv.None? { return None; }
    ShiftedSlice(task.Meaning(), data[slice.start..end], slice.length, data, slice.start);
    result := Some(worker.words[sv.value.ptr..sv.value.ptr + sv.value.count]);
  }

  /** filterParallel and compoundFilterParallel: whichever worker takes which slice, the result is that of filtering
      the whole in one go; there is none only when some worker's region is too small. */
  method FilterParallel<T>(task: Task<T>, data: seq<T>, workers: seq<WorkerRegion>, morselSize: nat)
      returns (sv: Option<seq<nat>>)
    requires task.Valid() && |data| <= TWO_TO_THE_32 && morselSize > 0 && workers != []
    requires forall w {:trigger workers[w]} :: 0 <= w < |workers| ==> workers[w].Valid()
    modifies set w | 0 <= w < |workers| :: workers[w], set w | 0 <= w < |workers| :: workers[w].words
    ensures sv.Some? ==> sv.value == Matching(task.Meaning(), data, 0, |data|)
    ensures sv.None? ==> exists w :: 0 <= w < |workers| && Enough(task, |data|) > workers[w].words.Length
  {
    ghost var size;
    var slices;
    slices, size := SplitRange(|data|, |workers|, morselSize);
    var results: seq<seq<nat>> := [];
    for k := 0 to |slices|
      invariant |results| == k && Found(task.Meaning(), data, slices, results)
      invariant forall w {:trigger workers[w]} :: 0 <= w < |workers| ==> workers[w].Valid()
    {
      var w :| 0 <= w < |workers|;
      var result := RunSlice(task, data, slices[k], workers[w]);
      if result.None? { return None; }
      results := results + [result.value];
    }
    FoundIsWhole(task.Meaning(), data, slices, results, |slices|, |data|);
    var gathered := GatherSelectionVectors(results);
    sv := Some(gathered);
  }

  // ---------- the fallback on the main thread ----------

  /** The filters a kernel was found for; the others are passed over. */
  function WithKernel<T>(filters: seq<T -> bool>, found: seq<bool>): (kept: seq<T -> bool>)
    requires |filters| == |found|
    ensures |kept| <= |filters|
  {
    if filters == [] then []
    else
      var n := |filters| - 1;
      WithKernel(filters[..n], found[..n]) + if found[n] then [filters[n]] else []
  }

  /** The rows the fallback of a compound filter finds: none when no kernel was found. */
  function FallbackResult<T>(kept: seq<T -> bool>, op: CombineOp, data: seq<T>): seq<nat> {
    if kept == [] then [] else Matching(Together(kept, |kept|, op), data, 0, |data|)
  }

  lemma {:induction false} TogetherKept<T>(filters: seq<T -> bool>, more: seq<T -> bool>, n: nat, op: CombineOp,
                                           data: seq<T>, hi: nat)
    requires 0 < n <= |filters| && filters <= more && hi <= |data|
    ensures Matching(Together(filters, n, op), data, 0, hi) == Matching(Together(more, n, op), data, 0, hi)
  {
    if hi > 0 {
      TogetherKept(filters, more, n, op, data, hi - 1);
      PassesKept(filters, more, n, op, data[hi - 1]);
    }
  }

  lemma {:induction false} PassesKept<T>(filters: seq<T -> bool>, more: seq<T -> bool>, n: nat, op: CombineOp, x: T)
    requires 0 < n <= |filters| && filters <= more
    ensures Passes(filters, n, op, x) == Passes(more, n, op, x)
  {
    if n > 1 { PassesKept(filters, more, n - 1, op, x); }
  }

  lemma {:induction false} KeptStep<T>(filters: seq<T -> bool>, found: seq<bool>, i: nat)
    requires i < |filters| == |found|
    ensures WithKernel(filters[..i + 1], found[..i + 1])
         == if found[i] then WithKernel(filters[..i], found[..i]) + [filters[i]]
           else WithKernel(filters[..i], found[..i])
  {
    assert filters[..i + 1][..i] == filters[..i] && found[..i + 1][..i] == found[..i];
    assert WithKernel(filters[..i], found[..i]) + [] == WithKernel(filters[..i], found[..i]);
  }

  /** _compoundFilterFallback: every kernel in turn, each vector merged with what the ones before it left. */
  method CompoundFilterFallback<T>(filters: seq<T -> bool>, found: seq<bool>, op: CombineOp, data: seq<T>)
      returns (sv: seq<nat>)
    requires |filters| == |found|
    ensures sv == FallbackResult(WithKernel(filters, found), op, data)
  {
    sv := [];
    var any := false;
    for i := 0 to |filters|
      invariant any <==> WithKernel(filters[..i], found[..i]) != []
      invariant sv == FallbackResult(WithKernel(filters[..i], found[..i]), op, data)
    {
      ghost var kept := WithKernel(filters[..i], found[..i]);
      KeptStep(filters, found, i);
      if found[i] {
        var vector := Matching(filters[i], data, 0, |data|);
        KeepOne(kept, filters[i], op, data);
        sv := if any then Merged(sv, vector, op) else vector;
        any := true;
      }
    }
    assert filters[..|filters|] == filters && found[..|found|] == found;
  }

  lemma {:induction false} KeepOne<T>(kept: seq<T -> bool>, filter: T -> bool, op: CombineOp, data: seq<T>)
    ensures FallbackResult(kept + [filter], op, data)
         == if kept == [] then Matching(filter, data, 0, |data|)
            else Merged(FallbackResult(kept, op, data), Matching(filter, data, 0, |data|), op)
  {
    if kept == [] {
      FirstIsMatching(kept + [filter], op, data);
    } else {
      MergedIsMatching(kept + [filter], |kept|, op, data);
      TogetherKept(kept, kept + [filter], |kept|, op, data, |data|);
    }
  }

  lemma {:induction false} AllKept<T>(filters: seq<T -> bool>, found: seq<bool>)
    requires |filters| == |found| && forall i :: 0 <= i < |found| ==> found[i]
    ensures WithKernel(filters, found) == filters
  {
    if filters != [] { AllKept(filters[..|filters| - 1], found[..|filters| - 1]); }
  }

  /** With a kernel for every filter the fallback finds what the filters mean together. */
  lemma {:induction false} FallbackMeets<T>(filters: seq<T -> bool>, found: seq<bool>, op: CombineOp, data: seq<T>)
    requires filters != [] && |filters| == |found| && forall i :: 0 <= i < |found| ==> found[i]
    ensures FallbackResult(WithKernel(filters, found), op, data)
            == Matching(Together(filters, |filters|, op), data, 0, |data|)
  {
    AllKept(filters, found);
  }

  // ---------- when the fallback is right ----------

  /** Every filter among those with a kernel (or without one) accepts the row. */
  ghost predicate AllAccept<T>(filters: seq<T -> bool>, found: seq<bool>, kernel: bool, x: T)
    requires |filters| == |found|
  {
    forall i :: 0 <= i < |filters| && found[i] == kernel ==> filters[i](x)
  }

  /** Some filter among those with a kernel (or without one) accepts the row. */
  ghost predicate SomeAccepts<T>(filters: seq<T -> bool>, found: seq<bool>, kernel: bool, x: T)
    requires |filters| == |found|
  {
    exists i :: 0 <= i < |filters| && found[i] == kernel && filters[i](x)
  }

  lemma {:induction false} KeptAccept<T>(filters: seq<T -> bool>, found: seq<bool>, x: T)
    requires |filters| == |found|
    ensures var kept := WithKernel(filters, found);
      && ((forall k :: 0 <= k < |kept| ==> kept[k](x)) <==> AllAccept(filters, found, true, x))
      && ((exists k :: 0 <= k < |kept| && kept[k](x)) <==> SomeAccepts(filters, found, true, x))
      && (kept == [] <==> forall i :: 0 <= i < |found| ==> !found[i])
  {
    if filters != [] {
      var n := |filters| - 1;
      var front, kept := WithKernel(filters[..n], found[..n]), WithKernel(filters, found);
      KeptAccept(filters[..n], found[..n], x);
      AcceptLast(filters, found, x);
      assert forall k :: 0 <= k < |front| ==> kept[k] == front[k];
      if found[n] { assert kept[|front|] == filters[n]; }
    }
  }

  /** Acceptance by the filters, from that by all but the last. */
  lemma {:induction false} AcceptLast<T>(filters: seq<T -> bool>, found: seq<bool>, x: T)
    requires |filters| == |found| > 0
    ensures var n := |filters| - 1;
      && (AllAccept(filters, found, true, x) <==>
        AllAccept(filters[..n], found[..n], true, x) && (found[n] ==> filters[n](x)))
      && (SomeAccepts(filters, found, true, x) <==>
        SomeAccepts(filters[..n], found[..n], true, x) || (found[n] && filters[n](x)))
      && ((forall i :: 0 <= i < |found| ==> !found[i]) <==> (forall i :: 0 <= i < n ==> !found[..n][i]) && !found[n])
  {
    var n := |filters| - 1;
    assert forall i :: 0 <= i < n ==> filters[..n][i] == filters[i] && found[..n][i] == found[i];
    if i :| 0 <= i < n && found[i] == true && filters[i](x) { assert filters[..n][i](x); }
  }

  /** The rows on which the fallback and the filters together agree. */
  ghost predicate Agree<T>(filters: seq<T -> bool>, found: seq<bool>, op: CombineOp, x: T)
    requires filters != [] && |filters| == |found|
  {
    if forall i :: 0 <= i < |found| ==> !found[i] then !Passes(filters, |filters|, op, x)
    else if op.And? then AllAccept(filters, found, true, x) ==> AllAccept(filters, found, false, x)
    else SomeAccepts(filters, found, false, x) ==> SomeAccepts(filters, found, true, x)
  }

  lemma {:induction false} AgreeMeans<T>(filters: seq<T -> bool>, found: seq<bool>, op: CombineOp, x: T)
    requires filters != [] && |filters| == |found|
    ensures var kept := WithKernel(filters, found);
      Agree(filters, found, op, x) <==> ((kept != [] && Passes(kept, |kept|, op, x)) <==>
        Passes(filters, |filters|, op, x))
  {
    var kept := WithKernel(filters, found);
    KeptAccept(filters, found, x);
    PassesAll(filters, |filters|, op, x);
    if kept != [] { PassesAll(kept, |kept|, op, x); }
    assert (forall i :: 0 <= i < |filters| ==> filters[i](x)) <==>
           AllAccept(filters, found, true, x) && AllAccept(filters, found, false, x);
    if i :| 0 <= i < |filters| && filters[i](x) { assert SomeAccepts(filters, found, found[i], x); }
    assert (exists i :: 0 <= i < |filters| && filters[i](x)) <==>
           SomeAccepts(filters, found, true, x) || SomeAccepts(filters, found, false, x);
  }

  /** The fallback is right exactly on data of which it gets every row right: a conjunction when no row that all the
      filters with a kernel accept is refused by one without, a disjunction when no row is accepted only by filters
      without a kernel, and either, should no filter have one, when no row passes at all. */
  lemma {:induction false} FallbackExact<T>(filters: seq<T -> bool>, found: seq<bool>, op: CombineOp, data: seq<T>)
    requires filters != [] && |filters| == |found|
    ensures FallbackResult(WithKernel(filters, found), op, data)
            == Matching(Together(filters, |filters|, op), data, 0, |data|)
       <==> forall x :: 0 <= x < |data| ==> Agree(filters, found, op, data[x])
  {
    var kept := WithKernel(filters, found);
    var sv, all := FallbackResult(kept, op, data), Matching(Together(filters, |filters|, op), data, 0, |data|);
    MatchingMeans(Together(filters, |filters|, op), data, 0, |data|);
    if kept != [] { MatchingMeans(Together(kept, |kept|, op), data, 0, |data|); }
    forall x | 0 <= x < |data| ensures Agree(filters, found, op, data[x]) <==> (x in sv <==> x in all) {
      AgreeMeans(filters, found, op, data[x]);
    }
    if forall x :: 0 <= x < |data| ==> Agree(filters, found, op, data[x]) { AscendingUnique(sv, all); }
  }

  /** On all data the fallback is right exactly when it gets every row right. */
  lemma {:induction false} FallbackExactOnAll<T(!new)>(filters: seq<T -> bool>, found: seq<bool>, op: CombineOp)
    requires filters != [] && |filters| == |found|
    ensures (forall data: seq<T> :: FallbackResult(WithKernel(filters, found), op, data)
               == Matching(Together(filters, |filters|, op), data, 0, |data|))
       <==> forall x: T :: Agree(filters, found, op, x)
  {
    var kept := WithKernel(filters, found);
    if forall x: T :: Agree(filters, found, op, x) {
      forall data: seq<T>
        ensures FallbackResult(kept, op, data) == Matching(Together(filters, |filters|, op), data, 0, |data|)
      {
        FallbackExact(filters, found, op, data);
      }
    } else {
      var x: T :| !Agree(filters, found, op, x);
      FallbackExact(filters, found, op, [x]);
      assert !Agree(filters, found, op, [x][0]);
    }
  }

  /** A filter without a kernel is left out of a conjunction, not applied: a row that it refuses and the other filter
      accepts is reported. */
  lemma {:induction false} MissingKernelWidens<T>(p: T -> bool, q: T -> bool, data: seq<T>, x: nat)
    requires x < |data| && p(data[x]) && !q(data[x])
    ensures FallbackResult(WithKernel([p, q], [true, false]), And, data)
            != Matching(Together([p, q], 2, And), data, 0, |data|)
  {
    FallbackExact([p, q], [true, false], And, data);
    assert [p, q][1](data[x]) == false && [true, false][1] == false;
    assert AllAccept([p, q], [true, false], true, data[x]);
    assert !AllAccept([p, q], [true, false], false, data[x]);
  }
}
