/** The Space-Saving counter of src/catalog/space-saving.ts: a min-heap of counts with a position index. */
module SpaceSaving {
  // Its error bounds hold for every stream.

  // ---------- streams ----------

  function Occurrences(stream: seq<string>, v: string): nat {
    if stream == [] then 0
    else Occurrences(stream[..|stream| - 1], v) + if stream[|stream| - 1] == v then 1 else 0
  }

  function SumTo(counts: seq<nat>, n: nat): nat
    requires n <= |counts|
  {
    if n == 0 then 0 else SumTo(counts, n - 1) + counts[n - 1]
  }

  function Sum(counts: seq<nat>): nat { SumTo(counts, |counts|) }

  lemma {:induction false} SumToUpdated(counts: seq<nat>, n: nat, i: nat, c: nat)
    requires i < |counts| && n <= |counts|
    ensures SumTo(counts[i := c], n) + (if i < n then counts[i] else 0) == SumTo(counts, n) + if i < n then c else 0
  {
    if n > 0 { SumToUpdated(counts, n - 1, i, c); }
  }

  lemma {:induction false} SumUpdated(counts: seq<nat>, i: nat, c: nat)
    requires i < |counts|
    ensures Sum(counts[i := c]) + counts[i] == Sum(counts) + c
  {
    SumToUpdated(counts, |counts|, i, c);
  }

  lemma {:induction false} SumToPrefix(counts: seq<nat>, more: seq<nat>, n: nat)
    requires n <= |counts|
    ensures SumTo(counts + more, n) == SumTo(counts, n)
  {
    if n > 0 { SumToPrefix(counts, more, n - 1); }
  }

  lemma {:induction false} SumToAtLeast(counts: seq<nat>, n: nat, m: nat)
    requires n <= |counts| && forall i :: 0 <= i < n ==> m <= counts[i]
    ensures n * m <= SumTo(counts, n)
  {
    if n > 0 {
      SumToAtLeast(counts, n - 1, m);
      assert n * m == (n - 1) * m + m;
    }
  }

  // ---------- heap order ----------

  function Parent(i: nat): nat
    requires i > 0
  {
    (i - 1) / 2
  }

  ghost predicate HeapOrdered(counts: seq<nat>) {
    forall i :: 0 < i < |counts| ==> counts[Parent(i)] <= counts[i]
  }

  /** Heap order but for `hole`, which may be too large for its kids. */
  ghost predicate OrderedBut(counts: seq<nat>, hole: nat) {
    && (forall i :: 0 < i < |counts| && Parent(i) != hole ==> counts[Parent(i)] <= counts[i])
    && (forall i :: 0 < i < |counts| && Parent(i) == hole && hole > 0 ==> counts[Parent(hole)] <= counts[i])
  }

  /** Heap order but for `leaf`, which may be too small for its parent. */
  ghost predicate OrderedButUp(counts: seq<nat>, leaf: nat) {
    && (forall i :: 0 < i < |counts| && i != leaf ==> counts[Parent(i)] <= counts[i])
    && (forall i :: 0 < i < |counts| && Parent(i) == leaf && leaf > 0 ==> counts[Parent(leaf)] <= counts[i])
  }

  lemma {:induction false} RootIsLeast(counts: seq<nat>, i: nat)
    requires HeapOrdered(counts) && i < |counts|
    ensures counts[0] <= counts[i]
    decreases i
  {
    if i > 0 { RootIsLeast(counts, Parent(i)); }
  }

  function Swapped<T>(s: seq<T>, a: nat, b: nat): seq<T>
    requires a < |s| && b < |s|
  {
    s[a := s[b]][b := s[a]]
  }

  lemma {:induction false} SwapKeepsSum(counts: seq<nat>, a: nat, b: nat)
    requires a < |counts| && b < |counts| && a != b
    ensures Sum(Swapped(counts, a, b)) == Sum(counts)
  {
    SumUpdated(counts, a, counts[b]);
    SumUpdated(counts[a := counts[b]], b, counts[a]);
  }

  /** The position among a node and its kids that holds the least count; the node itself unless a kid is less. */
  ghost predicate IsLeastKid(counts: seq<nat>, node: nat, k: nat) {
    && node < |counts| && k < |counts| && (k == node || k == 2 * node + 1 || k == 2 * node + 2)
    && (k != node ==> counts[k] < counts[node])
    && (2 * node + 1 < |counts| ==> counts[k] <= counts[2 * node + 1])
    && (2 * node + 2 < |counts| ==> counts[k] <= counts[2 * node + 2])
  }

  method LeastKid(counts: seq<nat>, node: nat) returns (smallest: nat)
    requires node < |counts|
    ensures IsLeastKid(counts, node, smallest)
  {
    var left, right := node * 2 + 1, node * 2 + 2;
    smallest := node;
    if left < |counts| && counts[left] < counts[smallest] { smallest := left; }
    if right < |counts| && counts[right] < counts[smallest] { smallest := right; }
  }

  /** Swapping the hole with its least kid moves the hole down. */
  lemma {:induction false} SinkStep(counts: seq<nat>, hole: nat, kid: nat)
    requires hole < |counts| && OrderedBut(counts, hole) && IsLeastKid(counts, hole, kid) && kid != hole
    ensures OrderedBut(Swapped(counts, kid, hole), kid)
  {
    var c := Swapped(counts, kid, hole);
    assert Parent(kid) == hole;
    forall i | 0 < i < |c| && Parent(i) != kid ensures c[Parent(i)] <= c[i] {
      assert Parent(i) == hole ==> i == 2 * hole + 1 || i == 2 * hole + 2;
      assert Parent(i) == hole || counts[Parent(i)] <= counts[i];
    }
    forall i | 0 < i < |c| && Parent(i) == kid ensures c[Parent(kid)] <= c[i] {
      assert counts[Parent(i)] <= counts[i];
    }
  }

  lemma {:induction false} SunkFarEnough(counts: seq<nat>, hole: nat)
    requires hole < |counts| && OrderedBut(counts, hole)
    requires IsLeastKid(counts, hole, hole)
    ensures HeapOrdered(counts)
  {
    forall i | 0 < i < |counts| ensures counts[Parent(i)] <= counts[i] {
      if Parent(i) == hole { assert i == 2 * hole + 1 || i == 2 * hole + 2; }
    }
  }

  lemma {:induction false} RaisedCount(counts: seq<nat>, i: nat)
    requires HeapOrdered(counts) && i < |counts|
    ensures OrderedBut(counts[i := counts[i] + 1], i)
  {
    forall j | 0 < j < |counts| && Parent(j) == i && i > 0 ensures counts[Parent(i)] <= counts[j] {
      assert counts[Parent(i)] <= counts[i] <= counts[j];
    }
  }

  lemma {:induction false} AddedCount(counts: seq<nat>, c: nat)
    requires HeapOrdered(counts)
    ensures OrderedButUp(counts + [c], |counts|)
  {}

  /** Swapping a leaf with its larger parent moves it up. */
  lemma {:induction false} RiseStep(counts: seq<nat>, leaf: nat)
    requires 0 < leaf < |counts| && OrderedButUp(counts, leaf) && counts[leaf] < counts[Parent(leaf)]
    ensures OrderedButUp(Swapped(counts, Parent(leaf), leaf), Parent(leaf))
  {
    var p := Parent(leaf);
    var c := Swapped(counts, p, leaf);
    forall i | 0 < i < |c| && i != p ensures c[Parent(i)] <= c[i] {
      if i != leaf { assert counts[Parent(i)] <= counts[i]; }
    }
    forall i | 0 < i < |c| && Parent(i) == p && p > 0 ensures c[Parent(p)] <= c[i] {
      assert counts[Parent(p)] <= counts[p];
      if i != leaf { assert counts[p] <= counts[i]; }
    }
  }

  // ---------- the tally two parallel arrays and a position index stand for ----------

  ghost predicate Indexes(positions: map<string, nat>, values: seq<string>, counts: seq<nat>) {
    && |values| == |counts|
    && (forall i :: 0 <= i < |values| ==> values[i] in positions && positions[values[i]] == i)
    && (forall v :: v in positions ==> positions[v] < |values| && values[positions[v]] == v)
  }

  ghost function TallyOf(positions: map<string, nat>, counts: seq<nat>): map<string, nat>
    requires forall v :: v in positions ==> positions[v] < |counts|
  {
    map v | v in positions :: counts[positions[v]]
  }

  lemma {:induction false} TallySet(positions: map<string, nat>, values: seq<string>, counts: seq<nat>, i: nat, c: nat)
    requires Indexes(positions, values, counts) && i < |counts|
    ensures Indexes(positions, values, counts[i := c])
    ensures TallyOf(positions, counts[i := c]) == TallyOf(positions, counts)[values[i] := c]
  {}

  lemma {:induction false} TallyPush(positions: map<string, nat>, values: seq<string>, counts: seq<nat>, x: string,
                                     c: nat)
    requires Indexes(positions, values, counts) && x !in positions
    ensures Indexes(positions[x := |values|], values + [x], counts + [c])
    ensures TallyOf(positions[x := |values|], counts + [c]) == TallyOf(positions, counts)[x := c]
  {}

  lemma {:induction false} TallyRename(positions: map<string, nat>, values: seq<string>, counts: seq<nat>, x: string,
                                       c: nat)
    requires Indexes(positions, values, counts) && x !in positions && values != []
    ensures var positions' := (positions - {values[0]})[x := 0];
      && Indexes(positions', values[0 := x], counts[0 := c])
      && TallyOf(positions', counts[0 := c]) == (TallyOf(positions, counts) - {values[0]})[x := c]
  {}

  lemma {:induction false} TallySwap(positions: map<string, nat>, values: seq<string>, counts: seq<nat>, a: nat, b: nat)
    requires Indexes(positions, values, counts) && a < |values| && b < |values| && a != b
    ensures var positions' := positions[values[b] := a][values[a] := b];
      && Indexes(positions', Swapped(values, a, b), Swapped(counts, a, b))
      && TallyOf(positions', Swapped(counts, a, b)) == TallyOf(positions, counts)
  {}

  // ---------- error bounds ----------

  /** Monitored counts overestimate by at most `floor`; unmonitored values occur at most `floor` times. */
  ghost predicate Bounded(tally: map<string, nat>, stream: seq<string>, floor: nat) {
    && (forall v :: v in tally ==> Occurrences(stream, v) <= tally[v] <= Occurrences(stream, v) + floor)
    && (forall v :: v !in tally ==> Occurrences(stream, v) <= floor)
  }

  lemma {:induction false} OccurrencesAppended(stream: seq<string>, x: string, v: string)
    ensures Occurrences(stream + [x], v) == Occurrences(stream, v) + if x == v then 1 else 0
  {
    assert (stream + [x])[..|stream|] == stream;
  }

  lemma {:induction false} BumpBounded(tally: map<string, nat>, stream: seq<string>, floor: nat, x: string, floor': nat)
    requires Bounded(tally, stream, floor) && x in tally && floor <= floor'
    ensures Bounded(tally[x := tally[x] + 1], stream + [x], floor')
  {
    forall v ensures Occurrences(stream + [x], v) == Occurrences(stream, v) + if x == v then 1 else 0 {
      OccurrencesAppended(stream, x, v);
    }
  }

  lemma {:induction false} PushBounded(tally: map<string, nat>, stream: seq<string>, x: string, floor': nat)
    requires Bounded(tally, stream, 0) && x !in tally
    ensures Bounded(tally[x := 1], stream + [x], floor')
  {
    forall v ensures Occurrences(stream + [x], v) == Occurrences(stream, v) + if x == v then 1 else 0 {
      OccurrencesAppended(stream, x, v);
    }
  }

  lemma {:induction false} ReplaceBounded(tally: map<string, nat>, stream: seq<string>, floor: nat, u: string,
                                          x: string, floor': nat)
    requires Bounded(tally, stream, floor) && x !in tally && u in tally && tally[u] == floor && floor <= floor'
    ensures Bounded((tally - {u})[x := floor + 1], stream + [x], floor')
  {
    forall v ensures Occurrences(stream + [x], v) == Occurrences(stream, v) + if x == v then 1 else 0 {
      OccurrencesAppended(stream, x, v);
    }
  }

  // ---------- the counter ----------

  datatype FrequentItem = FrequentItem(value: string, count: nat)

  ghost predicate Descending(items: seq<FrequentItem>) {
    forall i, j :: 0 <= i < j < |items| ==> items[i].count >= items[j].count
  }

  /** The stable sort by falling count. */
  function SortDesc(items: seq<FrequentItem>): seq<FrequentItem> {
    if items == [] then [] else InsertDesc(SortDesc(items[..|items| - 1]), items[|items| - 1])
  }

  function InsertDesc(sorted: seq<FrequentItem>, x: FrequentItem): seq<FrequentItem> {
    if sorted == [] || sorted[|sorted| - 1].count >= x.count then sorted + [x]
    else InsertDesc(sorted[..|sorted| - 1], x) + [sorted[|sorted| - 1]]
  }

  lemma {:induction false} DescendingPushed(sorted: seq<FrequentItem>, last: FrequentItem)
    requires Descending(sorted) && forall x :: x in multiset(sorted) ==> x.count >= last.count
    ensures Descending(sorted + [last])
  {
    forall i | 0 <= i < |sorted| ensures sorted[i].count >= last.count { assert sorted[i] in multiset(sorted); }
  }

  lemma {:induction false} InsertDescContents(sorted: seq<FrequentItem>, x: FrequentItem)
    ensures multiset(InsertDesc(sorted, x)) == multiset(sorted + [x])
  {
    if sorted != [] && sorted[|sorted| - 1].count < x.count {
      var front, last := sorted[..|sorted| - 1], sorted[|sorted| - 1];
      assert sorted == front + [last];
      InsertDescContents(front, x);
    }
  }

  lemma {:induction false} InsertDescSorts(sorted: seq<FrequentItem>, x: FrequentItem)
    requires Descending(sorted)
    ensures Descending(InsertDesc(sorted, x))
  {
    if sorted != [] && sorted[|sorted| - 1].count < x.count {
      var front, last := sorted[..|sorted| - 1], sorted[|sorted| - 1];
      InsertDescContents(front, x);
      InsertDescSorts(front, x);
      forall y | y in multiset(InsertDesc(front, x)) ensures y.count >= last.count {
        assert y in front + [x];
      }
      DescendingPushed(InsertDesc(front, x), last);
    }
  }

  lemma {:induction false} SortDescSorts(items: seq<FrequentItem>)
    ensures Descending(SortDesc(items)) && multiset(SortDesc(items)) == multiset(items)
  {
    if items != [] {
      SortDescSorts(items[..|items| - 1]);
      InsertDescSorts(SortDesc(items[..|items| - 1]), items[|items| - 1]);
      InsertDescContents(SortDesc(items[..|items| - 1]), items[|items| - 1]);
      assert items == items[..|items| - 1] + [items[|items| - 1]];
    }
  }

  /** A prefix of the sorted items leaves out nothing bigger. */
  lemma {:induction false} PrefixIsTop(items: seq<FrequentItem>, k: nat, x: FrequentItem, i: nat)
    requires k <= |SortDesc(items)| && x in items && x !in SortDesc(items)[..k] && i < k
    ensures x.count <= SortDesc(items)[i].count
  {
    var sorted := SortDesc(items);
    SortDescSorts(items);
    assert forall m :: 0 <= m < k ==> sorted[m] == sorted[..k][m] != x;
    assert x in multiset(items);
    assert x in sorted;
  }

  class SpaceSavingCounter {
    const capacity: nat
    var positions: map<string, nat>
    var values: seq<string>
    var counts: seq<nat>
    var observed: nat
    ghost var stream: seq<string>

    /** The position index and the two parallel arrays describe the same tally. */
    ghost predicate Aligned()
      reads this`positions, this`values, this`counts
    {
      capacity >= 1 && |values| <= capacity && Indexes(positions, values, counts)
    }

    ghost function Tally(): map<string, nat>
      requires Aligned()
      reads this`positions, this`values, this`counts
    {
      TallyOf(positions, counts)
    }

    /** What an unmonitored value may have reached: nothing until the counter is full. */
    ghost function Floor(): nat
      requires |values| == |counts| && capacity >= 1
      reads this`values, this`counts
    {
      if |values| < capacity then 0 else counts[0]
    }

    ghost predicate Valid()
      reads this
    {
      Aligned() && HeapOrdered(counts) && Sum(counts) == observed == |stream| && Bounded(Tally(), stream, Floor())
    }

    constructor (capacity: nat)
      ensures Valid() && stream == [] && this.capacity == if capacity >= 1 then capacity else 1
    {
      this.capacity := if capacity >= 1 then capacity else 1;
      positions, values, counts, observed, stream := map[], [], [], 0, [];
    }

    method Swap(a: nat, b: nat)
      requires Aligned() && a < |values| && b < |values| && a != b
      modifies this`positions, this`values, this`counts
      ensures Aligned() && Tally() == old(Tally()) && counts == Swapped(old(counts), a, b)
    {
      TallySwap(positions, values, counts, a, b);
      values, counts := Swapped(values, a, b), Swapped(counts, a, b);
      positions := positions[values[a] := a];
      positions := positions[values[b] := b];
    }

    method SiftUp(index: nat)
      requires Aligned() && index < |counts| && OrderedButUp(counts, index)
      modifies this`positions, this`values, this`counts
      ensures Aligned() && Tally() == old(Tally()) && Sum(counts) == old(Sum(counts)) && HeapOrdered(counts)
      ensures |counts| == old(|counts|)
    {
      var current: nat := index;
      while current > 0
        invariant current < |counts| == old(|counts|) && Aligned() && Tally() == old(Tally())
        invariant Sum(counts) == old(Sum(counts)) && OrderedButUp(counts, current)
      {
        var parent: nat := (current - 1) / 2;
        if counts[parent] <= counts[current] { break; }
        SwapKeepsSum(counts, parent, current);
        RiseStep(counts, current);
        Swap(parent, current);
        current := parent;
      }
    }

    method SiftDown(index: nat)
      requires Aligned() && index < |counts| && OrderedBut(counts, index)
      modifies this`positions, this`values, this`counts
      ensures Aligned() && Tally() == old(Tally()) && Sum(counts) == old(Sum(counts)) && HeapOrdered(counts)
      ensures |counts| == old(|counts|)
    {
      var current: nat := index;
      while true
        invariant current < |counts| == old(|counts|) && Aligned() && Tally() == old(Tally())
        invariant Sum(counts) == old(Sum(counts)) && OrderedBut(counts, current)
        decreases |counts| - current
      {
        var smallest := LeastKid(counts, current);
        if smallest == current {
          SunkFarEnough(counts, current);
          return;
        }
        SwapKeepsSum(counts, smallest, current);
        SinkStep(counts, current, smallest);
        Swap(smallest, current);
        current := smallest;
      }
    }

    lemma {:induction false} FloorAtLeast(m: nat)
      requires Aligned() && capacity >= 1 && (|values| == capacity || m == 0)
      requires forall v :: v in Tally() ==> m <= Tally()[v]
      ensures m <= Floor()
    {
      if m > 0 { assert values[0] in Tally() && Tally()[values[0]] == counts[0]; }
    }

    lemma {:induction false} TallyAtLeastFloor()
      requires Aligned() && HeapOrdered(counts) && capacity >= 1
      ensures forall v :: v in Tally() ==> Floor() <= Tally()[v]
    {
      forall v | v in Tally() ensures Floor() <= Tally()[v] { RootIsLeast(counts, positions[v]); }
    }

    method Bump(value: string)
      requires Aligned() && HeapOrdered(counts) && value in positions
      modifies this`positions, this`values, this`counts
      ensures Aligned() && HeapOrdered(counts) && |counts| == old(|counts|) && Sum(counts) == old(Sum(counts)) + 1
      ensures Tally() == old(Tally())[value := old(Tally()[value]) + 1]
    {
      var existing := positions[value];
      SumUpdated(counts, existing, counts[existing] + 1);
      RaisedCount(counts, existing);
      TallySet(positions, values, counts, existing, counts[existing] + 1);
      counts := counts[existing := counts[existing] + 1];
      SiftDown(existing);
    }

    method Push(value: string)
      requires Aligned() && HeapOrdered(counts) && value !in positions && |values| < capacity
      modifies this`positions, this`values, this`counts
      ensures Aligned() && HeapOrdered(counts) && |counts| == old(|counts|) + 1 && Sum(counts) == old(Sum(counts)) + 1
      ensures Tally() == old(Tally())[value := 1]
    {
      AddedCount(counts, 1);
      SumToPrefix(counts, [1], |counts|);
      TallyPush(positions, values, counts, value, 1);
      values, counts := values + [value], counts + [1];
      positions := positions[value := |values| - 1];
      SiftUp(|values| - 1);
    }

    /** Gives the least monitored value's place, and its count and one more, to a new value. */
    method TakeLeast(value: string)
      requires Aligned() && HeapOrdered(counts) && value !in positions && |values| >= 1
      modifies this`positions, this`values, this`counts
      ensures Aligned() && OrderedBut(counts, 0) && |counts| == old(|counts|) && Sum(counts) == old(Sum(counts)) + 1
      ensures Tally() == (old(Tally()) - {old(values[0])})[value := old(counts[0]) + 1]
    {
      SumUpdated(counts, 0, counts[0] + 1);
      RaisedCount(counts, 0);
      TallyRename(positions, values, counts, value, counts[0] + 1);
      positions := positions - {values[0]};
      values := values[0 := value];
      counts := counts[0 := counts[0] + 1];
      positions := positions[value := 0];
    }

    method Replace(value: string)
      requires Aligned() && HeapOrdered(counts) && value !in positions && |values| >= 1
      modifies this`positions, this`values, this`counts
      ensures Aligned() && HeapOrdered(counts) && |counts| == old(|counts|) && Sum(counts) == old(Sum(counts)) + 1
      ensures Tally() == (old(Tally()) - {old(values[0])})[value := old(counts[0]) + 1]
    {
      TakeLeast(value);
      SiftDown(0);
    }

    /** One observation: a monitored value is bumped, a new one takes a free place or the least one's. */
    method Add(value: string)
      requires Valid()
      modifies this
      ensures Valid() && stream == old(stream) + [value]
      ensures value in Tally()
    {
      ghost var tally, floor := Tally(), Floor();
      TallyAtLeastFloor();
      observed, stream := observed + 1, stream + [value];
      if value in positions {
        Bump(value);
        FloorAtLeast(floor);
        BumpBounded(tally, old(stream), floor, value, Floor());
      } else if |values| < capacity {
        Push(value);
        PushBounded(tally, old(stream), value, Floor());
      } else {
        ghost var least := values[0];
        Replace(value);
        FloorAtLeast(floor);
        ReplaceBounded(tally, old(stream), floor, least, value, Floor());
      }
    }

    /** The Space-Saving guarantee: estimates never fall short and exceed the truth by at most the least count. */
    lemma {:induction false} EstimateBounds(v: string)
      requires Valid()
      ensures v in Tally() ==> Occurrences(stream, v) <= Tally()[v] <= Occurrences(stream, v) + Floor()
      ensures v !in Tally() ==> Occurrences(stream, v) <= Floor()
      ensures Floor() * capacity <= |stream|
    {
      if |values| == capacity {
        forall i | 0 <= i < |counts| ensures counts[0] <= counts[i] { RootIsLeast(counts, i); }
        SumToAtLeast(counts, |counts|, counts[0]);
      }
    }

    /** Every value occurring more than |stream| / capacity times is monitored. */
    lemma {:induction false} FrequentIsMonitored(v: string)
      requires Valid() && Occurrences(stream, v) * capacity > |stream|
      ensures v in Tally()
    {
      EstimateBounds(v);
      if v !in Tally() { NoMore(Occurrences(stream, v), Floor(), capacity); }
    }

    ghost predicate Monitors(item: FrequentItem)
      requires Aligned()
      reads this`positions, this`values, this`counts
    {
      item.value in Tally() && Tally()[item.value] == item.count
    }

    function Items(): (items: seq<FrequentItem>)
      requires |values| == |counts|
      reads this`values, this`counts
      ensures |items| == |values| && forall i :: 0 <= i < |items| ==> items[i] == FrequentItem(values[i], counts[i])
    {
      var vs, cs := values, counts;
      seq(|vs|, i requires 0 <= i < |vs| && |vs| == |cs| => FrequentItem(vs[i], cs[i]))
    }

    /** The k monitored values of highest count; ties keep heap order. */
    method Top(k: nat) returns (top: seq<FrequentItem>)
      requires Valid()
      ensures |top| == (if k <= |values| then k else |values|) && top <= SortDesc(Items()) && Descending(top)
      ensures forall i :: 0 <= i < |top| ==> Monitors(top[i])
      ensures forall i, v :: 0 <= i < |top| && v in Tally() && FrequentItem(v, Tally()[v]) !in top ==>
              Tally()[v] <= top[i].count
    {
      var items := Items();
      var sorted := SortDesc(items);
      SortDescSorts(items);
      assert |sorted| == |multiset(sorted)| == |items|;
      top := sorted[..if k <= |sorted| then k else |sorted|];
      forall i | 0 <= i < |top| ensures Monitors(top[i]) {
        assert top[i] in multiset(sorted);
        assert top[i] in items;
      }
      forall i, v | 0 <= i < |top| && v in Tally() && FrequentItem(v, Tally()[v]) !in top
        ensures Tally()[v] <= top[i].count
      {
        var x := FrequentItem(v, Tally()[v]);
        assert items[positions[v]] == x;
        PrefixIsTop(items, |top|, x, i);
      }
    }

    /** Whatever is not among the reported values occurs at most as often as the least reported count. */
    lemma {:induction false} TopIsHeavy(top: seq<FrequentItem>, v: string)
      requires Valid() && top != [] && Descending(top) && forall i :: 0 <= i < |top| ==> Monitors(top[i])
      requires v in Tally() && FrequentItem(v, Tally()[v]) !in top ==> Tally()[v] <= top[|top| - 1].count
      requires forall i :: 0 <= i < |top| ==> top[i].value != v
      ensures Occurrences(stream, v) <= top[|top| - 1].count
    {
      EstimateBounds(v);
      TallyAtLeastFloor();
      assert Monitors(top[|top| - 1]);
    }
  }

  lemma {:induction false} NoMore(x: nat, floor: nat, capacity: nat)
    requires x <= floor
    ensures x * capacity <= floor * capacity
  {}
}
