/** The recency-ordered map an LRU cache stands for, most recently used entry first. */
module LruSpec {
  import opened Wrappers

  datatype Entry<K, V> = Entry(key: K, value: V)

  ghost predicate DistinctKeys<K, V>(es: seq<Entry<K, V>>) {
    forall i, j :: 0 <= i < j < |es| ==> es[i].key != es[j].key
  }

  predicate Has<K(==), V>(es: seq<Entry<K, V>>, k: K) {
    exists i :: 0 <= i < |es| && es[i].key == k
  }

  function Without<K(==), V>(es: seq<Entry<K, V>>, k: K): seq<Entry<K, V>> {
    if es == [] then [] else if es[0].key == k then Without(es[1..], k) else [es[0]] + Without(es[1..], k)
  }

  function Find<K(==), V>(es: seq<Entry<K, V>>, k: K): Option<V> {
    if es == [] then None else if es[0].key == k then Some(es[0].value) else Find(es[1..], k)
  }

  /** Reading a cached key makes it the most recent. */
  function AfterGet<K(==), V>(es: seq<Entry<K, V>>, k: K): seq<Entry<K, V>> {
    match Find(es, k)
    case None => es
    case Some(v) => [Entry(k, v)] + Without(es, k)
  }

  /** Writing makes the key the most recent; a new key beyond the limit pushes out the last one. */
  function AfterSet<K(==), V>(es: seq<Entry<K, V>>, k: K, v: V, maxSize: int): seq<Entry<K, V>> {
    var all := [Entry(k, v)] + Without(es, k);
    if Overflows(es, k, maxSize) then all[..|all| - 1] else all
  }

  predicate Overflows<K(==), V>(es: seq<Entry<K, V>>, k: K, maxSize: int) {
    Find(es, k).None? && |es| + 1 > maxSize
  }

  /** The key a write pushes out. */
  function Evicted<K(==), V>(es: seq<Entry<K, V>>, k: K, maxSize: int): Option<K> {
    if !Overflows(es, k, maxSize) then None else if es == [] then Some(k) else Some(es[|es| - 1].key)
  }

  // ---------- facts about the entries ----------

  lemma {:induction false} WithoutAt<K, V>(es: seq<Entry<K, V>>, i: nat)
    requires DistinctKeys(es) && i < |es|
    ensures Without(es, es[i].key) == es[..i] + es[i + 1..]
    ensures Find(es, es[i].key) == Some(es[i].value)
  {
    var k := es[i].key;
    if i == 0 {
      WithoutAbsent(es[1..], k);
    } else {
      WithoutAt(es[1..], i - 1);
      assert es[1..][..i - 1] == es[..i][1..] && es[1..][i..] == es[i + 1..];
    }
  }

  lemma {:induction false} WithoutAbsent<K, V>(es: seq<Entry<K, V>>, k: K)
    requires forall i :: 0 <= i < |es| ==> es[i].key != k
    ensures Without(es, k) == es && Find(es, k) == None
  {
    if es != [] { WithoutAbsent(es[1..], k); }
  }

  lemma {:induction false} WithoutMembers<K, V>(es: seq<Entry<K, V>>, k: K, e: Entry<K, V>)
    ensures e in Without(es, k) <==> e in es && e.key != k
  {
    if es != [] { WithoutMembers(es[1..], k, e); }
  }

  lemma {:induction false} FindHas<K, V>(es: seq<Entry<K, V>>, k: K)
    ensures Find(es, k).Some? <==> Has(es, k)
  {
    if es != [] {
      FindHas(es[1..], k);
      if Has(es[1..], k) {
        var i :| 0 <= i < |es[1..]| && es[1..][i].key == k;
        assert es[i + 1].key == k;
      }
      if Has(es, k) && es[0].key != k {
        var i :| 0 <= i < |es| && es[i].key == k;
        assert es[1..][i - 1].key == k;
      }
    }
  }

  // ---------- histories ----------

  datatype Op<K, V> = Get(key: K) | Set(key: K, value: V) | Delete(key: K) | Clear

  function Apply<K(==), V>(es: seq<Entry<K, V>>, op: Op<K, V>, maxSize: int): seq<Entry<K, V>> {
    match op
    case Get(k) => AfterGet(es, k)
    case Set(k, v) => AfterSet(es, k, v, maxSize)
    case Delete(k) => Without(es, k)
    case Clear => []
  }

  function Run<K(==), V>(ops: seq<Op<K, V>>, maxSize: int): seq<Entry<K, V>> {
    if ops == [] then [] else Apply(Run(ops[..|ops| - 1], maxSize), ops[|ops| - 1], maxSize)
  }

  predicate Uses<K(==), V>(op: Op<K, V>, k: K) {
    (op.Get? || op.Set?) && op.key == k
  }

  /** One plus the position of the last read or write of k; 0 when there is none. */
  function LastUse<K(==), V>(ops: seq<Op<K, V>>, k: K): (t: nat)
    ensures t <= |ops|
  {
    if ops == [] then 0 else if Uses(ops[|ops| - 1], k) then |ops| else LastUse(ops[..|ops| - 1], k)
  }

  /** The last value written under k since it was last deleted. */
  function LastWritten<K(==), V>(ops: seq<Op<K, V>>, k: K): Option<V> {
    if ops == [] then None
    else
      var last := ops[|ops| - 1];
      if last.Set? && last.key == k then Some(last.value)
      else if last.Clear? || (last.Delete? && last.key == k) then None
      else LastWritten(ops[..|ops| - 1], k)
  }

  ghost predicate ByLastUse<K, V>(es: seq<Entry<K, V>>, ops: seq<Op<K, V>>) {
    forall i, j :: 0 <= i < j < |es| ==> LastUse(ops, es[i].key) > LastUse(ops, es[j].key)
  }

  ghost predicate AllWritten<K, V>(es: seq<Entry<K, V>>, ops: seq<Op<K, V>>) {
    forall i :: 0 <= i < |es| ==> LastWritten(ops, es[i].key) == Some(es[i].value)
  }

  /** Taking entries out keeps the rest in order. */
  lemma {:induction false} WithoutOrdered<K, V>(es: seq<Entry<K, V>>, k: K, ops: seq<Op<K, V>>)
    requires ByLastUse(es, ops) && AllWritten(es, ops)
    ensures ByLastUse(Without(es, k), ops) && AllWritten(Without(es, k), ops)
    ensures forall i :: 0 <= i < |Without(es, k)| ==> Without(es, k)[i].key != k
    ensures |Without(es, k)| <= |es| && (Find(es, k).Some? ==> |Without(es, k)| < |es|)
    ensures forall i :: 0 <= i < |Without(es, k)| && es != [] ==>
            LastUse(ops, Without(es, k)[i].key) <= LastUse(ops, es[0].key)
  {
    if es != [] { WithoutOrdered(es[1..], k, ops); }
  }

  lemma {:induction false} FindWritten<K, V>(es: seq<Entry<K, V>>, k: K, ops: seq<Op<K, V>>)
    requires AllWritten(es, ops)
    ensures Find(es, k).Some? ==> LastWritten(ops, k) == Find(es, k)
  {
    if es != [] {
      assert LastWritten(ops, es[0].key) == Some(es[0].value);
      FindWritten(es[1..], k, ops);
    }
  }

  /** Entries of other keys keep their place when an operation is recorded. */
  lemma {:induction false} StillOrdered<K, V>(es: seq<Entry<K, V>>, ops: seq<Op<K, V>>, op: Op<K, V>)
    requires ByLastUse(es, ops) && AllWritten(es, ops) && !op.Clear?
    requires forall i :: 0 <= i < |es| ==> es[i].key != op.key
    ensures ByLastUse(es, ops + [op]) && AllWritten(es, ops + [op])
  {
    assert (ops + [op])[..|ops|] == ops;
    forall i | 0 <= i < |es|
      ensures LastUse(ops + [op], es[i].key) == LastUse(ops, es[i].key)
      ensures LastWritten(ops + [op], es[i].key) == LastWritten(ops, es[i].key)
    {}
  }

  /** Reading a key that is not there changes nothing. */
  lemma {:induction false} MissedGetOrdered<K, V>(es: seq<Entry<K, V>>, ops: seq<Op<K, V>>, k: K)
    requires ByLastUse(es, ops) && AllWritten(es, ops) && Find(es, k).None?
    ensures ByLastUse(es, ops + [Get(k)]) && AllWritten(es, ops + [Get(k)])
  {
    FindHas(es, k);
    StillOrdered(es, ops, Get(k));
  }

  lemma {:induction false} FrontOrdered<K, V>(es: seq<Entry<K, V>>, ops: seq<Op<K, V>>, op: Op<K, V>, v: V)
    requires ByLastUse(es, ops) && AllWritten(es, ops)
    requires (op.Get? && Find(es, op.key) == Some(v)) || (op.Set? && op.value == v)
    ensures ByLastUse([Entry(op.key, v)] + Without(es, op.key), ops + [op])
    ensures AllWritten([Entry(op.key, v)] + Without(es, op.key), ops + [op])
  {
    var rest := Without(es, op.key);
    WithoutOrdered(es, op.key, ops);
    StillOrdered(rest, ops, op);
    FindWritten(es, op.key, ops);
    assert (ops + [op])[..|ops|] == ops;
    assert LastUse(ops + [op], op.key) == |ops| + 1;
    forall i | 0 <= i < |rest| ensures LastUse(ops + [op], rest[i].key) <= |ops| {}
  }

  /** The cache after any history: entries stand in order of last use, each holds the last value written
      since its key was deleted, and there are at most maxSize of them. */
  lemma {:induction false} RunOrdered<K, V>(ops: seq<Op<K, V>>, maxSize: int)
    ensures ByLastUse(Run(ops, maxSize), ops) && AllWritten(Run(ops, maxSize), ops)
    ensures |Run(ops, maxSize)| <= if maxSize > 0 then maxSize else 0
  {
    if ops != [] {
      var front, op := ops[..|ops| - 1], ops[|ops| - 1];
      assert ops == front + [op];
      var es := Run(front, maxSize);
      RunOrdered(front, maxSize);
      match op
      case Get(k) =>
        if Find(es, k).None? {
          MissedGetOrdered(es, front, k);
        } else {
          WithoutOrdered(es, k, front);
          FrontOrdered(es, front, op, Find(es, k).value);
        }
      case Set(k, v) =>
        WithoutOrdered(es, k, front);
        FrontOrdered(es, front, op, v);
      case Delete(k) =>
        WithoutOrdered(es, k, front);
        StillOrdered(Without(es, k), front, op);
      case Clear =>
    }
  }

  lemma {:induction false} OverflowDropsLast<K, V>(es: seq<Entry<K, V>>, ops: seq<Op<K, V>>, k: K, v: V, maxSize: int)
    requires ByLastUse(es, ops) && es != [] && Overflows(es, k, maxSize)
    ensures AfterSet(es, k, v, maxSize) == [Entry(k, v)] + es[..|es| - 1]
    ensures forall i :: 0 <= i < |es| - 1 ==> LastUse(ops, es[|es| - 1].key) < LastUse(ops, es[i].key)
  {
    FindHas(es, k);
    WithoutAbsent(es, k);
  }

  /** A write that overflows pushes out the key whose last use is oldest. */
  lemma {:induction false} EvictsLeastRecent<K, V>(ops: seq<Op<K, V>>, k: K, v: V, maxSize: int)
    requires Evicted(Run(ops, maxSize), k, maxSize).Some? && Run(ops, maxSize) != []
    ensures var es, out := Run(ops, maxSize), Evicted(Run(ops, maxSize), k, maxSize).value;
      && es[|es| - 1].key == out && Run(ops + [Set(k, v)], maxSize) == [Entry(k, v)] + es[..|es| - 1]
      && forall i :: 0 <= i < |es| - 1 ==> LastUse(ops, out) < LastUse(ops, es[i].key)
  {
    assert (ops + [Set(k, v)])[..|ops|] == ops;
    RunOrdered(ops, maxSize);
    OverflowDropsLast(Run(ops, maxSize), ops, k, v, maxSize);
  }

  /** A write that does not overflow loses no other key. */
  lemma {:induction false} KeepsTheRest<K, V>(ops: seq<Op<K, V>>, k: K, v: V, maxSize: int, e: Entry<K, V>)
    requires Evicted(Run(ops, maxSize), k, maxSize).None? && e in Run(ops, maxSize) && e.key != k
    ensures e in Run(ops + [Set(k, v)], maxSize)
  {
    assert (ops + [Set(k, v)])[..|ops|] == ops;
    WithoutMembers(Run(ops, maxSize), k, e);
  }
}
