/** MinHeap of src/distributed/execution/merge-exchange.ts: stream heads in heap order. */
module MergeHeap {
  import opened RowOrder

  /** A received chunk. The ghost fields say which chunk of which stream it is. */
  class ReadableChunk {
    const rows: seq<Row>
    var readIdx: nat
    ghost const source: nat
    ghost const index: nat

    constructor (rows: seq<Row>, ghost source: nat, ghost index: nat)
      ensures this.rows == rows && readIdx == 0 && this.source == source && this.index == index
    {
      this.rows, readIdx := rows, 0;
      this.source, this.index := source, index;
    }
  }

  datatype HeapEntry = HeapEntry(nodeId: nat, chunk: ReadableChunk, rowIdx: nat)

  predicate InChunk(e: HeapEntry) {
    e.rowIdx < |e.chunk.rows|
  }

  function RowOf(e: HeapEntry): Row
    requires InChunk(e)
  {
    e.chunk.rows[e.rowIdx]
  }

  predicate EntryLe(keys: seq<OrderKey>, a: HeapEntry, b: HeapEntry)
    requires InChunk(a) && InChunk(b)
  {
    RowLe(keys, RowOf(a), RowOf(b))
  }

  lemma {:induction false} EntryLeChain(keys: seq<OrderKey>, a: HeapEntry, b: HeapEntry, c: HeapEntry)
    requires InChunk(a) && InChunk(b) && InChunk(c) && EntryLe(keys, a, b) && EntryLe(keys, b, c)
    ensures EntryLe(keys, a, c)
  {
    CompareRowsChain(keys, RowOf(a), RowOf(b), RowOf(c));
  }

  predicate AllInChunk(data: seq<HeapEntry>) {
    forall i {:trigger data[i]} :: 0 <= i < |data| ==> InChunk(data[i])
  }

  function Parent(i: nat): nat
    requires i > 0
  {
    (i - 1) / 2
  }

  /** Entry i comes no earlier than its parent. */
  ghost predicate Ordered(keys: seq<OrderKey>, data: seq<HeapEntry>, i: nat)
    requires AllInChunk(data)
  {
    0 < i < |data| ==> EntryLe(keys, data[Parent(i)], data[i])
  }

  ghost predicate Heaped(keys: seq<OrderKey>, data: seq<HeapEntry>) {
    AllInChunk(data) && forall i: nat {:trigger Ordered(keys, data, i)} :: Ordered(keys, data, i)
  }

  /** The children of i come no earlier than the parent of i. */
  ghost predicate Bridged(keys: seq<OrderKey>, data: seq<HeapEntry>, i: nat, child: nat)
    requires AllInChunk(data)
  {
    0 < i && 0 < child < |data| && Parent(child) == i ==> EntryLe(keys, data[Parent(i)], data[child])
  }

  /** Heap order but for entry i, which may be too small. */
  ghost predicate HeapedBelow(keys: seq<OrderKey>, data: seq<HeapEntry>, i: nat) {
    && AllInChunk(data) && i < |data|
    && (forall j: nat {:trigger Ordered(keys, data, j)} :: j != i ==> Ordered(keys, data, j))
    && (forall c: nat {:trigger Bridged(keys, data, i, c)} :: Bridged(keys, data, i, c))
  }

  /** Heap order but for entry i, which may be too large. */
  ghost predicate HeapedAbove(keys: seq<OrderKey>, data: seq<HeapEntry>, i: nat) {
    && AllInChunk(data) && i < |data|
    && (forall j: nat {:trigger Ordered(keys, data, j)} :: 0 < j && Parent(j) != i ==> Ordered(keys, data, j))
    && (forall c: nat {:trigger Bridged(keys, data, i, c)} :: Bridged(keys, data, i, c))
  }

  function Swapped(data: seq<HeapEntry>, i: nat, j: nat): seq<HeapEntry>
    requires i < |data| && j < |data|
  {
    data[i := data[j]][j := data[i]]
  }

  lemma {:induction false} SwapUp(keys: seq<OrderKey>, data: seq<HeapEntry>, i: nat, data': seq<HeapEntry>)
    requires HeapedBelow(keys, data, i) && i > 0 && !EntryLe(keys, data[Parent(i)], data[i])
    requires data' == Swapped(data, i, Parent(i))
    ensures HeapedBelow(keys, data', Parent(i)) && multiset(data') == multiset(data)
  {
    var p := Parent(i);
    CompareRowsSign(keys, RowOf(data[p]), RowOf(data[i]));
    forall j: nat | j != p ensures Ordered(keys, data', j) {
      if 0 < j < |data| && j != i {
        assert Ordered(keys, data, j);
        if Parent(j) == i { assert Bridged(keys, data, i, j); }
        if Parent(j) == p { EntryLeChain(keys, data[i], data[p], data[j]); }
      }
    }
    forall c: nat ensures Bridged(keys, data', p, c) {
      if 0 < p && 0 < c < |data| && Parent(c) == p {
        assert Ordered(keys, data, p);
        if c != i { assert Ordered(keys, data, c); EntryLeChain(keys, data[Parent(p)], data[p], data[c]); }
      }
    }
  }

  /** An entry put right at its place restores the whole order. */
  lemma {:induction false} RiseEnds(keys: seq<OrderKey>, data: seq<HeapEntry>, i: nat)
    requires HeapedBelow(keys, data, i) && (i > 0 ==> EntryLe(keys, data[Parent(i)], data[i]))
    ensures Heaped(keys, data)
  {
    forall j: nat ensures Ordered(keys, data, j) {}
  }

  lemma {:induction false} SwapDown(keys: seq<OrderKey>, data: seq<HeapEntry>, i: nat, kid: nat, data': seq<HeapEntry>)
    requires HeapedAbove(keys, data, i) && 0 < kid < |data| && Parent(kid) == i && EntryLe(keys, data[kid], data[i])
    requires forall c: nat {:trigger Parent(c)} :: 0 < c < |data| && Parent(c) == i ==>
             EntryLe(keys, data[kid], data[c])
    requires data' == Swapped(data, i, kid)
    ensures HeapedAbove(keys, data', kid) && multiset(data') == multiset(data)
  {
    forall j: nat | 0 < j && Parent(j) != kid ensures Ordered(keys, data', j) {
      if j < |data| {
        if j == i { assert Bridged(keys, data, i, kid); }
        if Parent(j) != i { assert Ordered(keys, data, j); }
      }
    }
    forall c: nat ensures Bridged(keys, data', kid, c) {
      if 0 < c < |data| && Parent(c) == kid { assert Ordered(keys, data, c); }
    }
  }

  lemma {:induction false} SinkEnds(keys: seq<OrderKey>, data: seq<HeapEntry>, i: nat)
    requires HeapedAbove(keys, data, i)
    requires forall c: nat {:trigger Parent(c)} :: 0 < c < |data| && Parent(c) == i ==> EntryLe(keys, data[i], data[c])
    ensures Heaped(keys, data)
  {
    forall j: nat ensures Ordered(keys, data, j) {
      if 0 < j && Parent(j) != i { assert Ordered(keys, data, j); }
    }
  }

  /** The root comes no later than any entry. */
  lemma {:induction false} RootIsLeast(keys: seq<OrderKey>, data: seq<HeapEntry>, i: nat)
    requires Heaped(keys, data) && i < |data|
    ensures EntryLe(keys, data[0], data[i])
  {
    if i == 0 {
      CompareRowsSign(keys, RowOf(data[0]), RowOf(data[0]));
    } else {
      RootIsLeast(keys, data, Parent(i));
      assert Ordered(keys, data, i);
      EntryLeChain(keys, data[0], data[Parent(i)], data[i]);
    }
  }

  lemma {:induction false} HeapedPush(keys: seq<OrderKey>, data: seq<HeapEntry>, e: HeapEntry)
    requires Heaped(keys, data) && InChunk(e)
    ensures HeapedBelow(keys, data + [e], |data|)
  {
    forall j: nat | j != |data| ensures Ordered(keys, data + [e], j) { assert Ordered(keys, data, j); }
  }

  /** The last entry moved to the root of the rest. */
  lemma {:induction false} HeapedPop(keys: seq<OrderKey>, data: seq<HeapEntry>, data': seq<HeapEntry>)
    requires Heaped(keys, data) && |data| > 1 && data' == data[..|data| - 1][0 := data[|data| - 1]]
    ensures HeapedAbove(keys, data', 0) && multiset(data) == multiset(data') + multiset{data[0]}
  {
    var front, last := data[..|data| - 1], data[|data| - 1];
    forall j: nat | 0 < j && Parent(j) != 0 ensures Ordered(keys, data', j) { assert Ordered(keys, data, j); }
    assert data == front + [last];
    assert multiset(data') == multiset(front) - multiset{data[0]} + multiset{last};
  }

  class MinHeap {
    const keys: seq<OrderKey>
    var data: seq<HeapEntry>

    ghost predicate Valid()
      reads this
    {
      Heaped(keys, data)
    }

    constructor (keys: seq<OrderKey>)
      ensures Valid() && data == [] && this.keys == keys
    {
      this.keys, data := keys, [];
    }

    method Swap(i: nat, j: nat)
      requires i < |data| && j < |data|
      modifies this`data
      ensures data == Swapped(old(data), i, j)
    {
      data := data[i := data[j]][j := data[i]];
    }

    method Push(item: HeapEntry)
      requires Valid() && InChunk(item)
      modifies this`data
      ensures Valid() && multiset(data) == multiset(old(data)) + multiset{item}
    {
      HeapedPush(keys, data, item);
      data := data + [item];
      BubbleUp(|data| - 1);
    }

    method BubbleUp(start: nat)
      requires HeapedBelow(keys, data, start)
      modifies this`data
      ensures Valid() && multiset(data) == multiset(old(data))
    {
      var idx: nat := start;
      while idx > 0
        invariant HeapedBelow(keys, data, idx) && multiset(data) == multiset(old(data))
      {
        var parent := (idx - 1) / 2;
        CompareRowsSign(keys, RowOf(data[idx]), RowOf(data[parent]));
        if CompareRows(keys, RowOf(data[idx]), RowOf(data[parent])) >= 0 { break; }
        SwapUp(keys, data, idx, Swapped(data, idx, parent));
        Swap(idx, parent);
        idx := parent;
      }
      RiseEnds(keys, data, idx);
    }

    /** The root of a non-empty heap. */
    method Peek() returns (top: HeapEntry)
      requires Valid() && data != []
      ensures top == data[0] && top in data && forall e :: e in data ==> InChunk(e) && EntryLe(keys, top, e)
    {
      top := data[0];
      forall e | e in data ensures InChunk(e) && EntryLe(keys, top, e) {
        var i :| 0 <= i < |data| && data[i] == e;
        RootIsLeast(keys, data, i);
      }
    }

    method Pop() returns (top: HeapEntry)
      requires Valid() && data != []
      modifies this`data
      ensures Valid() && InChunk(top) && multiset(old(data)) == multiset(data) + multiset{top}
      ensures forall e :: e in data ==> InChunk(e) && EntryLe(keys, top, e)
    {
      top := Peek();
      var was := data;
      var last := data[|data| - 1];
      data := data[..|data| - 1];
      assert was == data + [last];
      if |data| > 0 {
        data := data[0 := last];
        HeapedPop(keys, was, data);
        SinkDown(0);
      }
      assert forall e :: e in data ==> e in multiset(data) && e in multiset(was);
    }

    /** The smallest among an entry and its children. */
    method Smallest(idx: nat) returns (smallest: nat)
      requires AllInChunk(data) && idx < |data|
      ensures smallest < |data| && (smallest == idx || (smallest > 0 && Parent(smallest) == idx))
      ensures EntryLe(keys, data[smallest], data[idx])
      ensures forall c: nat {:trigger Parent(c)} :: 0 < c < |data| && Parent(c) == idx ==>
              EntryLe(keys, data[smallest], data[c])
    {
      smallest := idx;
      var left, right := 2 * idx + 1, 2 * idx + 2;
      CompareRowsSign(keys, RowOf(data[idx]), RowOf(data[idx]));
      if left < |data| {
        CompareRowsSign(keys, RowOf(data[left]), RowOf(data[idx]));
        if CompareRows(keys, RowOf(data[left]), RowOf(data[smallest])) < 0 { smallest := left; }
        CompareRowsSign(keys, RowOf(data[left]), RowOf(data[left]));
      }
      if right < |data| {
        CompareRowsSign(keys, RowOf(data[right]), RowOf(data[smallest]));
        if CompareRows(keys, RowOf(data[right]), RowOf(data[smallest])) < 0 {
          EntryLeChain(keys, data[right], data[smallest], data[left]);
          EntryLeChain(keys, data[right], data[smallest], data[idx]);
          smallest := right;
          CompareRowsSign(keys, RowOf(data[right]), RowOf(data[right]));
        }
      }
      assert forall c: nat {:trigger Parent(c)} :: 0 < c && Parent(c) == idx ==> c == left || c == right;
    }

    method SinkDown(start: nat)
      requires HeapedAbove(keys, data, start)
      modifies this`data
      ensures Valid() && multiset(data) == multiset(old(data))
    {
      var idx: nat := start;
      while true
        invariant HeapedAbove(keys, data, idx) && multiset(data) == multiset(old(data)) && |data| == |old(data)|
        decreases |data| - idx
      {
        var smallest := Smallest(idx);
        if smallest == idx { break; }
        SwapDown(keys, data, idx, smallest, Swapped(data, idx, smallest));
        Swap(idx, smallest);
        idx := smallest;
      }
      SinkEnds(keys, data, idx);
    }
  }
}
