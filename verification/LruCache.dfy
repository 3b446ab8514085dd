/** LRUCache of src/utils/lru-cache.ts: a map into a doubly linked list kept in order of use. */
module LruCaches {
  import opened Wrappers
  import opened Sequences
  import opened LruSpec

  class LRUNode<K(==), V> {
    const key: K
    var value: V
    var prev: LRUNode?<K, V>
    var next: LRUNode?<K, V>

    constructor (key: K, value: V)
      ensures this.key == key && this.value == value && prev == null && next == null
    {
      this.key, this.value, prev, next := key, value, null, null;
    }
  }

  /** Every node knows its place, so no node is listed twice. */
  ghost predicate Placed<T>(s: seq<T>, place: map<T, nat>) {
    forall i :: 0 <= i < |s| ==> s[i] in place && place[s[i]] == i
  }

  ghost function Places<T>(s: seq<T>): (place: map<T, nat>)
    requires Distinct(s)
    ensures forall i :: 0 <= i < |s| ==> s[i] in place && place[s[i]] == i
  {
    if s == [] then map[] else Places(s[..|s| - 1])[s[|s| - 1] := |s| - 1]
  }

  lemma {:induction false} DistinctCount<T>(s: seq<T>)
    requires Distinct(s)
    ensures |set x | x in s| == |s|
  {
    if s != [] {
      var front, last := s[..|s| - 1], s[|s| - 1];
      DistinctCount(front);
      assert (set x | x in s) == (set x | x in front) + {last};
    }
  }

  ghost function Before<K, V>(nodes: seq<LRUNode<K, V>>, i: nat): LRUNode?<K, V>
    requires i < |nodes|
  {
    if i == 0 then null else nodes[i - 1]
  }

  ghost function After<K, V>(nodes: seq<LRUNode<K, V>>, i: nat): LRUNode?<K, V>
    requires i < |nodes|
  {
    if i + 1 < |nodes| then nodes[i + 1] else null
  }

  ghost predicate BackLinked<K, V>(ns: seq<LRUNode<K, V>>)
    reads ns`prev
  {
    forall k {:trigger ns[k].prev} :: 0 <= k < |ns| ==> ns[k].prev == Before(ns, k)
  }

  ghost predicate ForwardLinked<K, V>(ns: seq<LRUNode<K, V>>)
    reads ns`next
  {
    forall k {:trigger ns[k].next} :: 0 <= k < |ns| ==> ns[k].next == After(ns, k)
  }

  /** Forward links once node i is passed over. */
  ghost predicate ForwardSkips<K, V>(ns: seq<LRUNode<K, V>>, i: nat)
    requires i < |ns|
    reads ns`next
  {
    forall k {:trigger ns[k].next} :: 0 <= k < |ns| && k != i ==>
      ns[k].next == if k + 1 == i then After(ns, i) else After(ns, k)
  }

  /** Back links once node i is passed over. */
  ghost predicate BackSkips<K, V>(ns: seq<LRUNode<K, V>>, i: nat)
    requires i < |ns|
    reads ns`prev
  {
    forall k {:trigger ns[k].prev} :: 0 <= k < |ns| && k != i ==>
      ns[k].prev == if k == i + 1 then Before(ns, i) else Before(ns, k)
  }

  ghost function Dropped<T>(s: seq<T>, i: nat): seq<T>
    requires i < |s|
  {
    s[..i] + s[i + 1..]
  }

  /** A new node in front; the last one falls off when the list grows beyond the limit. */
  ghost function Admitted<K, V>(node: LRUNode<K, V>, ns: seq<LRUNode<K, V>>, maxSize: int): seq<LRUNode<K, V>> {
    if |ns| + 1 > maxSize then ([node] + ns)[..|ns|] else [node] + ns
  }

  ghost function Moved<T>(s: seq<T>, i: nat): seq<T>
    requires i < |s|
  {
    [s[i]] + s[..i] + s[i + 1..]
  }

  lemma {:induction false} SkippedIsLinked<K, V>(was: seq<LRUNode<K, V>>, i: nat, ns: seq<LRUNode<K, V>>)
    requires i < |was| && Distinct(was) && ForwardSkips(was, i) && BackSkips(was, i) && ns == Dropped(was, i)
    ensures BackLinked(ns) && ForwardLinked(ns) && Distinct(ns)
  {
    forall j | 0 <= j < |ns| ensures ns[j].prev == Before(ns, j) && ns[j].next == After(ns, j) {
      DetachedLinks(was, i, j);
    }
  }

  /** Neighbours after node i is taken out. */
  lemma {:induction false} DetachedLinks<K, V>(was: seq<LRUNode<K, V>>, i: nat, j: nat)
    requires i < |was| && j < |was| - 1
    ensures var nodes := was[..i] + was[i + 1..];
      && nodes[j] == was[if j < i then j else j + 1]
      && Before(nodes, j) == (if j < i then Before(was, j) else if j == i then Before(was, i) else Before(was, j + 1))
      && After(nodes, j) == (if j + 1 < i then After(was, j) else if j + 1 == i then After(was, i)
        else After(was, j + 1))
  {}

  /** The ends of the list after node i is taken out. */
  lemma {:induction false} DetachedEnds<K, V>(was: seq<LRUNode<K, V>>, i: nat, ns: seq<LRUNode<K, V>>)
    requires i < |was| && ns == Dropped(was, i)
    ensures (if ns == [] then null else ns[0]) == if i == 0 then After(was, 0) else was[0]
    ensures (if ns == [] then null else ns[|ns| - 1]) == if i + 1 == |was| then Before(was, i) else was[|was| - 1]
  {}

  /** Neighbours after a node is put in front. */
  lemma {:induction false} PrependedLinks<K, V>(node: LRUNode<K, V>, was: seq<LRUNode<K, V>>, j: nat)
    requires j < |was|
    ensures ([node] + was)[j + 1] == was[j]
    ensures Before([node] + was, j + 1) == (if j == 0 then node else Before(was, j))
    ensures After([node] + was, j + 1) == After(was, j)
  {}

  lemma {:induction false} PrependedIsLinked<K, V>(node: LRUNode<K, V>, was: seq<LRUNode<K, V>>, ns: seq<LRUNode<K, V>>)
    requires node.prev == null && node.next == (if was == [] then null else was[0]) && ForwardLinked(was)
    requires forall j {:trigger was[j].prev} :: 0 <= j < |was| ==>
             was[j].prev == if j == 0 then node else Before(was, j)
    requires ns == [node] + was && node !in was && Distinct(was)
    ensures BackLinked(ns) && ForwardLinked(ns) && Distinct(ns)
  {
    forall i | 0 <= i < |ns| ensures ns[i].prev == Before(ns, i) && ns[i].next == After(ns, i) {
      if i > 0 { PrependedLinks(node, was, i - 1); }
    }
  }

  /** The map holds exactly these nodes, each under its key. */
  ghost predicate Indexes<K, V>(entries: map<K, LRUNode<K, V>>, ns: seq<LRUNode<K, V>>) {
    && (forall i :: 0 <= i < |ns| ==> ns[i].key in entries && entries[ns[i].key] == ns[i])
    && (forall k :: k in entries ==> entries[k] in ns && entries[k].key == k)
  }

  ghost function EntriesOf<K, V>(ns: seq<LRUNode<K, V>>): (es: seq<Entry<K, V>>)
    reads ns`value
  {
    if ns == [] then [] else EntriesOf(ns[..|ns| - 1]) + [Entry(ns[|ns| - 1].key, ns[|ns| - 1].value)]
  }

  lemma {:induction false} EntriesAre<K, V>(ns: seq<LRUNode<K, V>>)
    ensures |EntriesOf(ns)| == |ns|
    ensures forall i :: 0 <= i < |ns| ==> EntriesOf(ns)[i] == Entry(ns[i].key, ns[i].value)
  {
    if ns != [] { EntriesAre(ns[..|ns| - 1]); }
  }

  lemma {:induction false} MovedIndexes<K, V>(entries: map<K, LRUNode<K, V>>, ns: seq<LRUNode<K, V>>, i: nat)
    requires Indexes(entries, ns) && i < |ns|
    ensures Indexes(entries, Moved(ns, i))
  {
    var m := Moved(ns, i);
    forall k | k in entries ensures entries[k] in m {
      var j :| 0 <= j < |ns| && ns[j] == entries[k];
      assert m[if j < i then j + 1 else if j == i then 0 else j] == ns[j];
    }
  }

  lemma {:induction false} MovedEntries<K, V>(ns: seq<LRUNode<K, V>>, i: nat)
    requires i < |ns|
    ensures |EntriesOf(ns)| == |ns| && EntriesOf(Moved(ns, i)) == Moved(EntriesOf(ns), i)
  {
    EntriesAre(ns);
    EntriesAre(Moved(ns, i));
  }

  lemma {:induction false} RemovedEntries<K, V>(ns: seq<LRUNode<K, V>>, i: nat)
    requires i < |ns|
    ensures |EntriesOf(ns)| == |ns|
    ensures EntriesOf(Dropped(ns, i)) == EntriesOf(ns)[..i] + EntriesOf(ns)[i + 1..]
  {
    EntriesAre(ns);
    EntriesAre(Dropped(ns, i));
  }

  lemma {:induction false} RemovedIndexes<K, V>(entries: map<K, LRUNode<K, V>>, ns: seq<LRUNode<K, V>>, i: nat)
    requires Indexes(entries, ns) && i < |ns| && Distinct(ns)
    ensures Indexes(entries - {ns[i].key}, Dropped(ns, i))
  {
    var rest := Dropped(ns, i);
    forall j | 0 <= j < |ns| && j != i ensures ns[j].key != ns[i].key && ns[j] in rest {
      assert entries[ns[j].key] == ns[j] && entries[ns[i].key] == ns[i];
      assert rest[if j < i then j else j - 1] == ns[j];
    }
  }

  lemma {:induction false} AddedIndexes<K, V>(entries: map<K, LRUNode<K, V>>, ns: seq<LRUNode<K, V>>, node: LRUNode<K,
                                              V>)
    requires Indexes(entries, ns) && node.key !in entries
    ensures Indexes(entries[node.key := node], [node] + ns)
  {
    assert ([node] + ns)[0] == node;
    forall n | n in ns ensures n in [node] + ns {}
  }

  lemma {:induction false} PrependedEntries<K, V>(node: LRUNode<K, V>, ns: seq<LRUNode<K, V>>)
    ensures |EntriesOf(ns)| == |ns| && EntriesOf([node] + ns) == [Entry(node.key, node.value)] + EntriesOf(ns)
    ensures EntriesOf(([node] + ns)[..|ns|]) == ([Entry(node.key, node.value)] + EntriesOf(ns))[..|ns|]
  {
    EntriesAre(ns);
    EntriesAre([node] + ns);
    EntriesAre(([node] + ns)[..|ns|]);
  }

  lemma {:induction false} SetNewKey<K, V>(es: seq<Entry<K, V>>, k: K, v: V, maxSize: int)
    requires Without(es, k) == es && Find(es, k) == None
    ensures AfterSet(es, k, v, maxSize) == if |es| + 1 > maxSize then ([Entry(k, v)] + es)[..|es|]
            else [Entry(k, v)] + es
    ensures Evicted(es, k, maxSize) == if |es| + 1 > maxSize then Some(([Entry(k, v)] + es)[|es|].key) else None
  {}

  class LRUCache<K(==), V> {
    const maxSize: int
    var entries: map<K, LRUNode<K, V>>
    var head: LRUNode?<K, V>
    var tail: LRUNode?<K, V>
    /** The list from head to tail. */
    ghost var nodes: seq<LRUNode<K, V>>

    /** Head and tail are the two ends of the list. */
    ghost predicate Ended()
      reads this`head, this`tail, this`nodes
    {
      && head == (if nodes == [] then null else nodes[0])
      && tail == (if nodes == [] then null else nodes[|nodes| - 1])
    }

    /** Forward and back links agree with the sequence and both ends are null. */
    ghost predicate Listed()
      reads this, nodes
    {
      Distinct(nodes) && Ended() && BackLinked(nodes) && ForwardLinked(nodes)
    }

    /** The map holds exactly the listed nodes. */
    ghost predicate Mapped()
      reads this`entries, this`nodes
    {
      Indexes(entries, nodes)
    }

    ghost predicate Valid()
      reads this, nodes
    {
      Listed() && Mapped() && |nodes| <= if maxSize > 0 then maxSize else 0
    }

    /** Keys and values from the most to the least recently used. */
    ghost function Recency(): seq<Entry<K, V>>
      reads this`nodes, nodes`value
    {
      EntriesOf(nodes)
    }

    constructor (maxSize: int)
      ensures Valid() && Recency() == [] && nodes == [] && this.maxSize == maxSize
    {
      this.maxSize := maxSize;
      entries, head, tail, nodes := map[], null, null, [];
    }

    method UnlinkForward(node: LRUNode<K, V>, ghost i: nat, ghost ns: seq<LRUNode<K, V>>, ghost place: map<LRUNode<K,
                         V>, nat>)
      requires BackLinked(ns) && ForwardLinked(ns) && Placed(ns, place) && i < |ns| && ns[i] == node
      modifies this`head, ns`next
      ensures ForwardSkips(ns, i) && node.next == old(node.next)
      ensures head == if i == 0 then After(ns, 0) else old(head)
    {
      assert forall k :: 0 <= k < |ns| ==> place[ns[k]] == k;
      if node.prev != null {
        node.prev.next := node.next;
      } else {
        head := node.next;
      }
    }

    method UnlinkBackward(node: LRUNode<K, V>, ghost i: nat, ghost ns: seq<LRUNode<K, V>>, ghost place: map<LRUNode<K,
                          V>, nat>)
      requires BackLinked(ns) && Placed(ns, place) && i < |ns| && ns[i] == node && node.next == After(ns, i)
      modifies this`tail, ns`prev
      ensures BackSkips(ns, i)
      ensures tail == if i + 1 == |ns| then Before(ns, i) else old(tail)
    {
      assert forall k :: 0 <= k < |ns| ==> place[ns[k]] == k;
      if node.next != null {
        node.next.prev := node.prev;
      } else {
        tail := node.prev;
      }
    }

    method Unlink(node: LRUNode<K, V>, ghost i: nat, ghost ns: seq<LRUNode<K, V>>, ghost place: map<LRUNode<K, V>, nat>)
      requires BackLinked(ns) && ForwardLinked(ns) && Placed(ns, place) && i < |ns| && ns[i] == node
      modifies this`head, this`tail, ns`prev, ns`next
      ensures ForwardSkips(ns, i) && BackSkips(ns, i) && node.prev == null && node.next == null
      ensures head == if i == 0 then After(ns, 0) else old(head)
      ensures tail == if i + 1 == |ns| then Before(ns, i) else old(tail)
    {
      UnlinkForward(node, i, ns, place);
      UnlinkBackward(node, i, ns, place);
      assert forall k :: 0 <= k < |ns| ==> place[ns[k]] == k;
      node.prev := null;
      node.next := null;
    }

    method Detach(node: LRUNode<K, V>, ghost i: nat)
      requires Listed() && i < |nodes| && nodes[i] == node
      modifies this`head, this`tail, this`nodes, nodes`prev, nodes`next
      ensures Listed() && nodes == old(Dropped(nodes, i))
      ensures node.prev == null && node.next == null
    {
      ghost var was := nodes;
      ghost var ns := Dropped(was, i);
      Unlink(node, i, was, Places(was));
      SkippedIsLinked(was, i, ns);
      DetachedEnds(was, i, ns);
      nodes := ns;
    }

    method Attach(node: LRUNode<K, V>, ghost was: seq<LRUNode<K, V>>, ghost place: map<LRUNode<K, V>, nat>)
      requires BackLinked(was) && ForwardLinked(was) && Placed(was, place) && node !in was
      requires head == (if was == [] then null else was[0]) && tail == (if was == [] then null else was[|was| - 1])
      modifies this`head, this`tail, was`prev, node`prev, node`next
      ensures node.prev == null && node.next == (if was == [] then null else was[0]) && ForwardLinked(was)
      ensures forall j {:trigger was[j].prev} :: 0 <= j < |was| ==>
              was[j].prev == if j == 0 then node else Before(was, j)
      ensures head == node && tail == if was == [] then node else was[|was| - 1]
    {
      assert forall k :: 0 <= k < |was| ==> place[was[k]] == k && was[k] != node;
      node.next := head;
      node.prev := null;
      if head != null {
        head.prev := node;
      }
      head := node;
      if tail == null {
        tail := node;
      }
    }

    method Prepend(node: LRUNode<K, V>)
      requires Listed() && node !in nodes
      modifies this`head, this`tail, this`nodes, nodes`prev, node`prev, node`next
      ensures Listed() && nodes == old([node] + nodes)
    {
      ghost var was := nodes;
      ghost var ns := [node] + was;
      Attach(node, was, Places(was));
      PrependedIsLinked(node, was, ns);
      nodes := ns;
    }

    method MoveToHead(node: LRUNode<K, V>, ghost i: nat)
      requires Listed() && i < |nodes| && nodes[i] == node
      modifies this`head, this`tail, this`nodes, nodes`prev, nodes`next
      ensures Listed() && nodes == old(Moved(nodes, i))
    {
      if node == head {
        assert nodes[0] == nodes[i];
        assert nodes == Moved(nodes, 0);
        return;
      }
      Detach(node, i);
      Prepend(node);
    }

    method EvictTail() returns (evicted: Option<K>)
      requires Listed() && Mapped()
      modifies this`entries, this`head, this`tail, this`nodes, nodes`prev, nodes`next
      ensures Listed() && Mapped()
      ensures evicted == old(if nodes == [] then None else Some(nodes[|nodes| - 1].key))
      ensures nodes == old(if nodes == [] then [] else nodes[..|nodes| - 1])
    {
      var last := tail;
      if last == null { return None; }
      entries := entries - {last.key};
      Detach(last, |nodes| - 1);
      evicted := Some(last.key);
    }

    /** The place of a cached key in the list. */
    ghost function PlaceOf(key: K): (i: nat)
      requires Mapped() && key in entries
      reads this`entries, this`nodes
      ensures i < |nodes| && nodes[i] == entries[key] && nodes[i].key == key
    {
      var i :| 0 <= i < |nodes| && nodes[i] == entries[key]; i
    }

    lemma {:induction false} KeysDistinct()
      requires Mapped() && Distinct(nodes)
      ensures DistinctKeys(Recency())
    {
      EntriesAre(nodes);
      forall i, j | 0 <= i < j < |nodes| ensures nodes[i].key != nodes[j].key {
        assert entries[nodes[i].key] == nodes[i] && entries[nodes[j].key] == nodes[j];
      }
    }

    lemma {:induction false} AbsentKey(key: K)
      requires Mapped() && key !in entries
      ensures Without(Recency(), key) == Recency() && Find(Recency(), key) == None
    {
      EntriesAre(nodes);
      forall i | 0 <= i < |nodes| ensures nodes[i].key != key { assert nodes[i].key in entries; }
      WithoutAbsent(Recency(), key);
    }

    lemma {:induction false} PresentKey(key: K)
      requires Mapped() && Distinct(nodes) && key in entries
      ensures |Recency()| == |nodes|
      ensures var i := PlaceOf(key);
        && Find(Recency(), key) == Some(entries[key].value)
        && Without(Recency(), key) == Recency()[..i] + Recency()[i + 1..]
        && AfterGet(Recency(), key) == Moved(Recency(), i)
    {
      EntriesAre(nodes);
      KeysDistinct();
      WithoutAt(Recency(), PlaceOf(key));
    }

    lemma {:induction false} SizeOfMap()
      requires Mapped() && Distinct(nodes)
      ensures |entries| == |nodes|
    {
      KeysDistinct();
      EntriesAre(nodes);
      var keys := seq(|nodes|, i requires 0 <= i < |nodes| reads nodes, this => nodes[i].key);
      forall k | k in entries ensures k in keys { assert keys[PlaceOf(k)] == k; }
      assert forall i :: 0 <= i < |keys| ==> keys[i] == nodes[i].key;
      assert entries.Keys == set k | k in keys;
      assert forall i, j :: 0 <= i < j < |keys| ==> Recency()[i].key != Recency()[j].key;
      DistinctCount(keys);
    }

    /** Moving a cached node to the front is what reading its key does to the entries. */
    lemma {:induction false} MovedIsRead(key: K)
      requires Mapped() && Distinct(nodes) && key in entries
      ensures AfterGet(Recency(), key) == EntriesOf(Moved(nodes, PlaceOf(key)))
      ensures Find(Recency(), key) == Some(entries[key].value)
      ensures Indexes(entries, Moved(nodes, PlaceOf(key)))
    {
      PresentKey(key);
      MovedEntries(nodes, PlaceOf(key));
      MovedIndexes(entries, nodes, PlaceOf(key));
    }

    /** MoveToHead as seen from outside. */
    method Touch(node: LRUNode<K, V>)
      requires Valid() && node.key in entries && entries[node.key] == node
      modifies this`head, this`tail, this`nodes, nodes`prev, nodes`next
      ensures Valid() && Recency() == AfterGet(old(Recency()), node.key)
      ensures forall n :: n in nodes ==> n in old(nodes)
    {
      MovedIsRead(node.key);
      MoveToHead(node, PlaceOf(node.key));
    }

    method Get(key: K) returns (value: Option<V>)
      requires Valid()
      modifies this`head, this`tail, this`nodes, nodes`prev, nodes`next
      ensures Valid() && (forall n :: n in nodes ==> n in old(nodes))
      ensures value == Find(old(Recency()), key) && Recency() == AfterGet(old(Recency()), key)
    {
      if key !in entries {
        AbsentKey(key);
        return None;
      }
      PresentKey(key);
      var node := entries[key];
      Touch(node);
      value := Some(node.value);
    }

    /** Overwriting an entry and then reading it is writing it. */
    static lemma {:induction false} OverwriteThenRead(es: seq<Entry<K, V>>, i: nat, v: V, maxSize: int)
      requires DistinctKeys(es) && i < |es|
      ensures AfterGet(es[i := Entry(es[i].key, v)], es[i].key) == AfterSet(es, es[i].key, v, maxSize)
      ensures Evicted(es, es[i].key, maxSize) == None
    {
      WithoutAt(es, i);
      WithoutAt(es[i := Entry(es[i].key, v)], i);
    }

    /** The node of a cached key is the only one with that key. */
    lemma {:induction false} OnlyNode(key: K)
      requires Valid() && key in entries
      ensures PlaceOf(key) < |nodes| && nodes[PlaceOf(key)] == entries[key] && entries[key].key == key
      ensures forall j :: 0 <= j < |nodes| && j != PlaceOf(key) ==> nodes[j] != entries[key]
    {
      KeysDistinct();
      EntriesAre(nodes);
      assert forall j :: 0 <= j < |nodes| && j != PlaceOf(key) ==> Recency()[j].key != Recency()[PlaceOf(key)].key;
    }

    /** Overwrites the value of a cached key in its node. */
    method Overwrite(node: LRUNode<K, V>, key: K, v: V)
      requires Valid() && key in entries && node == entries[key]
      modifies node`value
      ensures Valid() && PlaceOf(key) < |old(Recency())| && Recency() == old(Recency())[PlaceOf(key) := Entry(key, v)]
    {
      OnlyNode(key);
      EntriesAre(nodes);
      ghost var es, i := Recency(), PlaceOf(key);
      node.value := v;
      EntriesAre(nodes);
      assert forall j :: 0 <= j < |nodes| ==> Recency()[j] == es[i := Entry(key, v)][j];
    }

    method SetExisting(key: K, v: V)
      requires Valid() && key in entries
      modifies this`head, this`tail, this`nodes, nodes`prev, nodes`next, nodes`value
      ensures Valid() && (forall n :: n in nodes ==> n in old(nodes))
      ensures Recency() == AfterSet(old(Recency()), key, v, maxSize) && Evicted(old(Recency()), key, maxSize) == None
    {
      KeysDistinct();
      EntriesAre(nodes);
      OverwriteThenRead(Recency(), PlaceOf(key), v, maxSize);
      var node := entries[key];
      Overwrite(node, key, v);
      Touch(node);
    }

    /** Writing a key that is not cached puts its node in front and may push out the last one. */
    lemma {:induction false} AdmittedIsSet(node: LRUNode<K, V>)
      requires Mapped() && Distinct(nodes) && node.key !in entries
      ensures |entries| == |nodes|
      ensures AfterSet(Recency(), node.key, node.value, maxSize) == EntriesOf(Admitted(node, nodes, maxSize))
      ensures forall n :: n in Admitted(node, nodes, maxSize) ==> n == node || n in nodes
      ensures Evicted(Recency(), node.key, maxSize)
        == if |nodes| + 1 > maxSize then Some(([node] + nodes)[|nodes|].key) else None
    {
      AbsentKey(node.key);
      SizeOfMap();
      PrependedEntries(node, nodes);
      SetNewKey(Recency(), node.key, node.value, maxSize);
    }

    method SetNew(key: K, v: V) returns (evicted: Option<K>)
      requires Valid() && key !in entries
      modifies this`entries, this`head, this`tail, this`nodes, nodes`prev, nodes`next
      ensures Valid() && (forall n :: n in nodes ==> n in old(nodes) || fresh(n))
      ensures Recency() == AfterSet(old(Recency()), key, v, maxSize) && evicted == Evicted(old(Recency()), key, maxSize)
    {
      var node := new LRUNode(key, v);
      AdmittedIsSet(node);
      ghost var ns := Admitted(node, nodes, maxSize);
      evicted := Admit(node);
    }

    method Set(key: K, v: V) returns (evicted: Option<K>)
      requires Valid()
      modifies this`entries, this`head, this`tail, this`nodes, nodes`prev, nodes`next, nodes`value
      ensures Valid() && (forall n :: n in nodes ==> n in old(nodes) || fresh(n))
      ensures Recency() == AfterSet(old(Recency()), key, v, maxSize) && evicted == Evicted(old(Recency()), key, maxSize)
    {
      if key in entries {
        SetExisting(key, v);
        evicted := None;
      } else {
        evicted := SetNew(key, v);
      }
    }

    method Insert(node: LRUNode<K, V>)
      requires Listed() && Mapped() && node !in nodes && node.key !in entries
      modifies this`entries, this`head, this`tail, this`nodes, nodes`prev, node`prev, node`next
      ensures Listed() && Mapped() && nodes == old([node] + nodes) && |entries| == old(|entries|) + 1
    {
      AddedIndexes(entries, nodes, node);
      entries := entries[node.key := node];
      Prepend(node);
    }

    method Admit(node: LRUNode<K, V>) returns (evicted: Option<K>)
      requires Valid() && node !in nodes && node.key !in entries && |entries| == |nodes|
      modifies this`entries, this`head, this`tail, this`nodes, nodes`prev, nodes`next, node`prev, node`next
      ensures Valid()
      ensures evicted == if old(|nodes|) + 1 > maxSize then old(Some(([node] + nodes)[|nodes|].key)) else None
      ensures nodes == old(Admitted(node, nodes, maxSize))
    {
      Insert(node);
      if |entries| > maxSize {
        evicted := EvictTail();
      } else {
        evicted := None;
      }
    }

    lemma {:induction false} CachedKeys(key: K)
      requires Mapped() && Distinct(nodes)
      ensures key in entries <==> Find(Recency(), key).Some?
    {
      if key in entries { PresentKey(key); } else { AbsentKey(key); }
    }

    method Has(key: K) returns (found: bool)
      requires Valid()
      ensures found == (key in entries) == Find(Recency(), key).Some?
    {
      CachedKeys(key);
      found := key in entries;
    }

    lemma {:induction false} RemovedIsDeleted(key: K, rest: seq<LRUNode<K, V>>)
      requires Mapped() && Distinct(nodes) && key in entries && rest == Dropped(nodes, PlaceOf(key))
      ensures Find(Recency(), key).Some? && Without(Recency(), key) == EntriesOf(rest)
              && Indexes(entries - {key}, rest) && |rest| < |nodes|
    {
      PresentKey(key);
      RemovedEntries(nodes, PlaceOf(key));
      RemovedIndexes(entries, nodes, PlaceOf(key));
    }

    method Forget(key: K)
      requires Valid() && key in entries
      modifies this`entries, this`head, this`tail, this`nodes, nodes`prev, nodes`next
      ensures Valid() && nodes == old(Dropped(nodes, PlaceOf(key)))
    {
      ghost var i := PlaceOf(key);
      ghost var rest := Dropped(nodes, i);
      RemovedIsDeleted(key, rest);
      Detach(entries[key], i);
      entries := entries - {key};
    }

    method Delete(key: K) returns (found: bool)
      requires Valid()
      modifies this`entries, this`head, this`tail, this`nodes, nodes`prev, nodes`next
      ensures Valid() && (forall n :: n in nodes ==> n in old(nodes)) && Recency() == Without(old(Recency()), key)
      ensures found == Find(old(Recency()), key).Some?
    {
      if key !in entries {
        AbsentKey(key);
        return false;
      }
      RemovedIsDeleted(key, Dropped(nodes, PlaceOf(key)));
      Forget(key);
      found := true;
    }

    method Clear()
      requires Valid()
      modifies this`entries, this`head, this`tail, this`nodes
      ensures Valid() && Recency() == [] && nodes == []
    {
      entries, head, tail, nodes := map[], null, null, [];
    }

    method Size() returns (n: nat)
      requires Valid()
      ensures n == |Recency()| && n <= if maxSize > 0 then maxSize else 0
    {
      SizeOfMap();
      EntriesAre(nodes);
      n := |entries|;
    }
  }

  /** A cache after any sequence of operations stands for what the history leaves. */
  method RunAll<K(==), V>(maxSize: int, ops: seq<Op<K, V>>) returns (cache: LRUCache<K, V>)
    ensures cache.Valid() && cache.Recency() == Run(ops, maxSize) && cache.maxSize == maxSize
  {
    cache := new LRUCache(maxSize);
    for i := 0 to |ops|
      invariant fresh(cache) && (forall n :: n in cache.nodes ==> fresh(n)) && cache.maxSize == maxSize
      invariant cache.Valid() && cache.Recency() == Run(ops[..i], maxSize)
    {
      assert ops[..i + 1][..i] == ops[..i];
      ApplyOne(cache, ops[i]);
    }
    assert ops[..|ops|] == ops;
  }

  method ApplyOne<K(==), V>(cache: LRUCache<K, V>, op: Op<K, V>)
    requires cache.Valid()
    modifies cache`entries, cache`head, cache`tail, cache`nodes, cache.nodes`prev, cache.nodes`next, cache.nodes`value
    ensures cache.Valid() && (forall n :: n in cache.nodes ==> n in old(cache.nodes) || fresh(n))
    ensures cache.Recency() == Apply(old(cache.Recency()), op, cache.maxSize)
  {
    match op {
      case Get(key) => var value := cache.Get(key);
      case Set(key, value) => var evicted := cache.Set(key, value);
      case Delete(key) => var found := cache.Delete(key);
      case Clear => cache.Clear();
    }
  }
}
