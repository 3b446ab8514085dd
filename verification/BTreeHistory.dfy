/** Ranges over the sorted map, and what a whole history of inserts leaves in it. */
module BTreeHistory {
  import opened BTreeSpec
  import opened BTreeContents

  datatype Interval = Interval(low: Bound, high: Bound, lowInclusive: bool, highInclusive: bool) {
    predicate Contains(k: Key) { !TooLow(k) && !TooHigh(k) }

    predicate TooLow(k: Key) {
      low.At? && (k < low.key || (k == low.key && !lowInclusive))
    }

    predicate TooHigh(k: Key) {
      high.At? && (k > high.key || (k == high.key && !highInclusive))
    }
  }

  /** The locations a range yields: entry by entry in key order. */
  function Select(es: seq<Entry>, iv: Interval): seq<Location> {
    if es == [] then []
    else (if iv.Contains(es[0].key) then es[0].locations else []) + Select(es[1..], iv)
  }

  lemma {:induction false} SelectConcat(a: seq<Entry>, b: seq<Entry>, iv: Interval)
    ensures Select(a + b, iv) == Select(a, iv) + Select(b, iv)
  {
    if a == [] {
      assert a + b == b;
    } else {
      assert (a + b)[1..] == a[1..] + b;
      SelectConcat(a[1..], b, iv);
    }
  }

  lemma {:induction false} SelectNothing(es: seq<Entry>, iv: Interval)
    requires forall i :: 0 <= i < |es| ==> !iv.Contains(es[i].key)
    ensures Select(es, iv) == []
  {
    if es != [] { SelectNothing(es[1..], iv); }
  }

  // ---------- histories ----------

  datatype Insertion = Insertion(key: Key, location: Location)

  function PutAll(ops: seq<Insertion>): seq<Entry> {
    if ops == [] then []
    else var last := ops[|ops| - 1]; Put(PutAll(ops[..|ops| - 1]), last.key, last.location)
  }

  /** The locations inserted under k, oldest first. */
  function InsertedUnder(ops: seq<Insertion>, k: Key): seq<Location> {
    if ops == [] then []
    else InsertedUnder(ops[..|ops| - 1], k) + if ops[|ops| - 1].key == k then [ops[|ops| - 1].location] else []
  }

  lemma {:induction false} PutAscends(es: seq<Entry>, k: Key, loc: Location)
    requires Ascending(es)
    ensures Ascending(Put(es, k, loc))
    ensures forall i :: 0 <= i < |Put(es, k, loc)| ==>
      Put(es, k, loc)[i].key == k || (es != [] && es[0].key <= Put(es, k, loc)[i].key)
  {
    if es != [] && es[0].key < k {
      PutAscends(es[1..], k, loc);
    }
  }

  lemma {:induction false} LookupAfterPut(es: seq<Entry>, k: Key, loc: Location, j: Key)
    requires Ascending(es)
    ensures Lookup(Put(es, k, loc), j) == Lookup(es, j) + if j == k then [loc] else []
  {
    if es == [] {
    } else if k < es[0].key {
      assert (Put(es, k, loc))[1..] == es;
      if j == k {
        LookupSkips(es, [], k);
        assert es + [] == es;
      }
    } else if es[0].key < k {
      LookupAfterPut(es[1..], k, loc, j);
    }
  }

  /** After any sequence of inserts the map is ascending and holds under every key exactly the
      locations inserted under it, in insertion order. */
  lemma {:induction false} HistoryRecovered(ops: seq<Insertion>, k: Key)
    ensures Ascending(PutAll(ops))
    ensures Lookup(PutAll(ops), k) == InsertedUnder(ops, k)
  {
    if ops != [] {
      var front, last := ops[..|ops| - 1], ops[|ops| - 1];
      HistoryRecovered(front, k);
      PutAscends(PutAll(front), last.key, last.location);
      LookupAfterPut(PutAll(front), last.key, last.location, k);
    }
  }

  // ---------- what a range yields ----------

  function Tagged(k: Key, locs: seq<Location>): (r: seq<Insertion>)
    ensures |r| == |locs|
  {
    seq(|locs|, i requires 0 <= i < |locs| => Insertion(k, locs[i]))
  }

  /** The yields of a range together with the keys they come from. */
  function SelectTagged(es: seq<Entry>, iv: Interval): seq<Insertion> {
    if es == [] then []
    else (if iv.Contains(es[0].key) then Tagged(es[0].key, es[0].locations) else []) + SelectTagged(es[1..], iv)
  }

  function InsertedWithin(ops: seq<Insertion>, iv: Interval): seq<Insertion> {
    if ops == [] then []
    else InsertedWithin(ops[..|ops| - 1], iv) + if iv.Contains(ops[|ops| - 1].key) then [ops[|ops| - 1]] else []
  }

  lemma {:induction false} TagsOfSelect(es: seq<Entry>, iv: Interval)
    ensures |SelectTagged(es, iv)| == |Select(es, iv)|
    ensures forall i :: 0 <= i < |Select(es, iv)| ==> SelectTagged(es, iv)[i].location == Select(es, iv)[i]
  {
    if es != [] { TagsOfSelect(es[1..], iv); }
  }

  lemma {:induction false} SelectTaggedAscends(es: seq<Entry>, iv: Interval)
    requires Ascending(es)
    ensures forall i, j :: 0 <= i <= j < |SelectTagged(es, iv)| ==>
            SelectTagged(es, iv)[i].key <= SelectTagged(es, iv)[j].key
    ensures es == [] ==> SelectTagged(es, iv) == []
    ensures forall i :: 0 <= i < |SelectTagged(es, iv)| && es != [] ==> es[0].key <= SelectTagged(es, iv)[i].key
  {
    if es != [] {
      SelectTaggedAscends(es[1..], iv);
      assert |es| > 1 ==> es[0].key < es[1].key == es[1..][0].key;
    }
  }

  lemma {:induction false} SelectTaggedAfterPut(es: seq<Entry>, k: Key, loc: Location, iv: Interval)
    ensures multiset(SelectTagged(Put(es, k, loc), iv))
      == multiset(SelectTagged(es, iv)) + if iv.Contains(k) then multiset{Insertion(k, loc)} else multiset{}
  {
    assert Tagged(k, [loc]) == [Insertion(k, loc)];
    if es == [] || k < es[0].key {
      assert (Put(es, k, loc))[1..] == es;
    } else if es[0].key == k {
      assert Tagged(k, es[0].locations + [loc]) == Tagged(k, es[0].locations) + [Insertion(k, loc)];
    } else {
      SelectTaggedAfterPut(es[1..], k, loc, iv);
    }
  }

  /** A range after any sequence of inserts yields exactly the locations inserted under keys of the
      interval, in ascending key order. */
  lemma {:induction false} RangeRecovered(ops: seq<Insertion>, iv: Interval)
    ensures multiset(SelectTagged(PutAll(ops), iv)) == multiset(InsertedWithin(ops, iv))
    ensures forall i, j :: 0 <= i <= j < |SelectTagged(PutAll(ops), iv)| ==>
      SelectTagged(PutAll(ops), iv)[i].key <= SelectTagged(PutAll(ops), iv)[j].key
    ensures |SelectTagged(PutAll(ops), iv)| == |Select(PutAll(ops), iv)|
    ensures forall i :: 0 <= i < |Select(PutAll(ops), iv)| ==>
      SelectTagged(PutAll(ops), iv)[i].location == Select(PutAll(ops), iv)[i]
  {
    if ops != [] {
      var front, last := ops[..|ops| - 1], ops[|ops| - 1];
      RangeRecovered(front, iv);
      SelectTaggedAfterPut(PutAll(front), last.key, last.location, iv);
    }
    HistoryRecovered(ops, 0.0);
    SelectTaggedAscends(PutAll(ops), iv);
    TagsOfSelect(PutAll(ops), iv);
  }
}
