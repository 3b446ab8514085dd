/** The sorted map a well-formed B+tree stands for. */
module BTreeContents {
  // An insert into the tree is a Put into the map, and a descent finds what the map holds.
  import opened BTreeSpec

  // ---------- the entries of a tree, in key order ----------

  function LeafEntries(keys: seq<Key>, values: seq<seq<Location>>): (es: seq<Entry>)
    requires |values| == |keys|
  {
    seq(|keys|, i requires 0 <= i < |keys| => Entry(keys[i], values[i]))
  }

  ghost predicate AllShaped(kids: seq<Tree>) {
    forall i :: 0 <= i < |kids| ==> Shaped(kids[i])
  }

  ghost function Entries(t: Tree): seq<Entry>
    requires Shaped(t)
    decreases t
  {
    match t
    case Leaf(keys, values) => LeafEntries(keys, values)
    case Inner(_, kids) => Flatten(kids)
  }

  ghost function Flatten(kids: seq<Tree>): seq<Entry>
    requires AllShaped(kids)
    decreases kids
  {
    if kids == [] then [] else Entries(kids[0]) + Flatten(kids[1..])
  }

  ghost predicate ShapedInserted(ins: Inserted) {
    match ins
    case Whole(t) => Shaped(t)
    case Cut(left, _, right) => Shaped(left) && Shaped(right)
  }

  ghost function InsertedEntries(ins: Inserted): seq<Entry>
    requires ShapedInserted(ins)
  {
    match ins
    case Whole(t) => Entries(t)
    case Cut(left, _, right) => Entries(left) + Entries(right)
  }

  // ---------- the sorted map ----------

  ghost predicate Ascending(es: seq<Entry>) {
    forall i, j :: 0 <= i < j < |es| ==> es[i].key < es[j].key
  }

  ghost predicate Within(es: seq<Entry>, lo: Bound, hi: Bound) {
    forall i :: 0 <= i < |es| ==> AtOrAbove(lo, es[i].key) && Below(es[i].key, hi)
  }

  ghost predicate AllBelow(es: seq<Entry>, k: Key) {
    forall i :: 0 <= i < |es| ==> es[i].key < k
  }

  ghost predicate AllAbove(k: Key, es: seq<Entry>) {
    forall i :: 0 <= i < |es| ==> k < es[i].key
  }

  /** Appends loc to the locations of k, adding k in order when it is new. */
  function Put(es: seq<Entry>, k: Key, loc: Location): seq<Entry> {
    if es == [] || k < es[0].key then [Entry(k, [loc])] + es
    else if es[0].key == k then [Entry(k, es[0].locations + [loc])] + es[1..]
    else [es[0]] + Put(es[1..], k, loc)
  }

  function Lookup(es: seq<Entry>, k: Key): seq<Location> {
    if es == [] then [] else if es[0].key == k then es[0].locations else Lookup(es[1..], k)
  }

  lemma {:induction false} PutAfter(a: seq<Entry>, b: seq<Entry>, k: Key, loc: Location)
    requires AllBelow(a, k)
    ensures Put(a + b, k, loc) == a + Put(b, k, loc)
  {
    if a == [] {
      assert a + b == b;
    } else {
      assert (a + b)[1..] == a[1..] + b;
      PutAfter(a[1..], b, k, loc);
    }
  }

  lemma {:induction false} PutBefore(b: seq<Entry>, c: seq<Entry>, k: Key, loc: Location)
    requires AllAbove(k, c)
    ensures Put(b + c, k, loc) == Put(b, k, loc) + c
  {
    if b == [] {
      assert b + c == c;
    } else {
      assert (b + c)[1..] == b[1..] + c;
      PutBefore(b[1..], c, k, loc);
    }
  }

  lemma {:induction false} LookupSkips(a: seq<Entry>, b: seq<Entry>, k: Key)
    requires forall i :: 0 <= i < |a| ==> a[i].key != k
    ensures Lookup(a + b, k) == Lookup(b, k)
  {
    if a == [] {
      assert a + b == b;
    } else {
      assert (a + b)[1..] == a[1..] + b;
      LookupSkips(a[1..], b, k);
    }
  }

  lemma {:induction false} LookupStops(b: seq<Entry>, c: seq<Entry>, k: Key)
    requires forall i :: 0 <= i < |c| ==> c[i].key != k
    ensures Lookup(b + c, k) == Lookup(b, k)
  {
    if b == [] {
      LookupSkips(c, [], k);
      assert c + [] == c && b + c == c;
    } else {
      assert (b + c)[1..] == b[1..] + c;
      LookupStops(b[1..], c, k);
    }
  }

  // ---------- entries of a good tree ----------

  lemma {:induction false} FlattenConcat(a: seq<Tree>, b: seq<Tree>)
    requires AllShaped(a)
    requires AllShaped(b)
    ensures AllShaped(a + b)
    ensures Flatten(a + b) == Flatten(a) + Flatten(b)
  {
    if a == [] {
      assert a + b == b;
    } else {
      assert (a + b)[1..] == a[1..] + b;
      FlattenConcat(a[1..], b);
    }
  }

  lemma {:induction false} FlattenAround(kids: seq<Tree>, i: nat)
    requires i < |kids| && AllShaped(kids)
    ensures Flatten(kids) == Flatten(kids[..i]) + Entries(kids[i]) + Flatten(kids[i + 1..])
    decreases i
  {
    if i > 0 {
      FlattenAround(kids[1..], i - 1);
      assert kids[..i][1..] == kids[1..][..i - 1] && kids[1..][i..] == kids[i + 1..];
    }
  }

  lemma {:induction false} Joined(a: seq<Entry>, b: seq<Entry>, lo: Bound, sep: Key, hi: Bound)
    requires Ascending(a) && Within(a, lo, At(sep)) && Ascending(b) && Within(b, At(sep), hi)
    requires Above(lo, sep) && Below(sep, hi)
    ensures Ascending(a + b) && Within(a + b, lo, hi)
  {}

  lemma {:induction false} FlattenAscends(order: nat, keys: seq<Key>, kids: seq<Tree>, d: nat, lo: Bound, hi: Bound)
    requires StrictlySorted(keys) && Bounded(keys, lo, hi) && GoodKids(order, keys, kids, d, lo, hi)
    requires AllShaped(kids)
    ensures Ascending(Flatten(kids)) && Within(Flatten(kids), lo, hi)
    decreases kids
  {
    EntriesAscend(order, kids[0], d, lo, HighOf(keys, 0, hi));
    if |keys| > 0 {
      SliceGood(order, keys, kids, d, lo, hi, 1, |keys|);
      assert keys[1..|keys|] == keys[1..] && kids[1..|keys| + 1] == kids[1..];
      FlattenAscends(order, keys[1..], kids[1..], d, At(keys[0]), hi);
      Joined(Entries(kids[0]), Flatten(kids[1..]), lo, keys[0], hi);
    } else {
      assert Flatten(kids) == Entries(kids[0]);
    }
  }

  /** In-order entries of a good tree are strictly ascending and stay inside its bounds. */
  lemma {:induction false} EntriesAscend(order: nat, t: Tree, d: nat, lo: Bound, hi: Bound)
    requires Good(order, t, d, lo, hi) && Shaped(t)
    ensures Ascending(Entries(t)) && Within(Entries(t), lo, hi)
    decreases t
  {
    match t
    case Leaf(_, _) =>
    case Inner(keys, kids) =>
      assert GoodKids(order, keys, kids, d - 1, lo, hi);
      FlattenAscends(order, keys, kids, d - 1, lo, hi);
  }

  /** Everything left of the kid a key descends into is below the key ... */
  lemma {:induction false} LeftOfDescent(order: nat, keys: seq<Key>, kids: seq<Tree>, d: nat, lo: Bound, hi: Bound,
                                         k: Key)
    requires StrictlySorted(keys) && Bounded(keys, lo, hi) && GoodKids(order, keys, kids, d, lo, hi)
    requires AllShaped(kids)
    ensures AllBelow(Flatten(kids[..UpperBound(keys, k)]), k)
  {
    var i := UpperBound(keys, k);
    if i > 0 {
      SliceGood(order, keys, kids, d, lo, hi, 0, i - 1);
      assert kids[0..i] == kids[..i];
      FlattenAscends(order, keys[0..i - 1], kids[..i], d, lo, At(keys[i - 1]));
      assert keys[i - 1] <= k;
    }
  }

  /** ... and everything right of it is above. */
  lemma {:induction false} RightOfDescent(order: nat, keys: seq<Key>, kids: seq<Tree>, d: nat, lo: Bound, hi: Bound,
                                          k: Key)
    requires StrictlySorted(keys) && Bounded(keys, lo, hi) && GoodKids(order, keys, kids, d, lo, hi)
    requires AllShaped(kids)
    ensures AllAbove(k, Flatten(kids[UpperBound(keys, k) + 1..]))
  {
    var i := UpperBound(keys, k);
    if i < |keys| {
      TailWithin(order, keys, kids, d, lo, hi, i + 1);
      assert k < keys[i];
    } else {
      assert kids[i + 1..] == [];
    }
  }

  /** The entries of a tail of the kids stay right of the separator before it. */
  lemma {:induction false} TailWithin(order: nat, keys: seq<Key>, kids: seq<Tree>, d: nat, lo: Bound, hi: Bound, a: nat)
    requires StrictlySorted(keys) && Bounded(keys, lo, hi) && GoodKids(order, keys, kids, d, lo, hi)
    requires AllShaped(kids) && 0 < a <= |keys|
    ensures Within(Flatten(kids[a..]), At(keys[a - 1]), hi)
  {
    SliceGood(order, keys, kids, d, lo, hi, a, |keys|);
    assert kids[a..|keys| + 1] == kids[a..];
    FlattenAscends(order, keys[a..|keys|], kids[a..], d, At(keys[a - 1]), hi);
  }

  // ---------- an insert is a Put ----------

  lemma {:induction false} LeafEntriesCut(keys: seq<Key>, values: seq<seq<Location>>, mid: nat)
    requires |values| == |keys| && mid <= |keys|
    ensures LeafEntries(keys, values) == LeafEntries(keys[..mid], values[..mid])
            + LeafEntries(keys[mid..], values[mid..])
  {}

  lemma {:induction false} LeafPut(keys: seq<Key>, values: seq<seq<Location>>, k: Key, loc: Location)
    requires |values| == |keys|
    ensures var es, pos := LeafEntries(keys, values), LowerBound(keys, k);
      Put(es, k, loc) == es[..pos] + Put(es[pos..], k, loc)
  {
    var es, pos := LeafEntries(keys, values), LowerBound(keys, k);
    assert es == es[..pos] + es[pos..];
    PutAfter(es[..pos], es[pos..], k, loc);
  }

  lemma {:induction false} LeafMissIsPut(keys: seq<Key>, values: seq<seq<Location>>, k: Key, loc: Location)
    requires |values| == |keys| && StrictlySorted(keys)
    requires var pos := LowerBound(keys, k); pos == |keys| || keys[pos] != k
    ensures var pos := LowerBound(keys, k);
      LeafEntries(InsertAt(keys, pos, k), InsertAt(values, pos, [loc])) == Put(LeafEntries(keys, values), k, loc)
  {
    var es, pos := LeafEntries(keys, values), LowerBound(keys, k);
    LeafPut(keys, values, k, loc);
    assert Put(es[pos..], k, loc) == [Entry(k, [loc])] + es[pos..];
  }

  lemma {:induction false} LeafHitIsPut(keys: seq<Key>, values: seq<seq<Location>>, k: Key, loc: Location)
    requires |values| == |keys| && StrictlySorted(keys)
    requires var pos := LowerBound(keys, k); pos < |keys| && keys[pos] == k
    ensures var pos := LowerBound(keys, k);
      LeafEntries(keys, values[pos := values[pos] + [loc]]) == Put(LeafEntries(keys, values), k, loc)
  {
    var es, pos := LeafEntries(keys, values), LowerBound(keys, k);
    LeafPut(keys, values, k, loc);
    assert Put(es[pos..], k, loc) == [Entry(k, values[pos] + [loc])] + es[pos..][1..];
  }

  /** A leaf that grew, split or not, holds what was put into it. */
  lemma {:induction false} GrownLeafEntries(order: nat, keys: seq<Key>, values: seq<seq<Location>>)
    requires order >= 2 && |values| == |keys|
    ensures |keys| >= order ==> InsertedEntries(SplitLeaf(keys, values)) == LeafEntries(keys, values)
    ensures InsertedEntries(Whole(Leaf(keys, values))) == LeafEntries(keys, values)
  {
    if |keys| >= order { LeafEntriesCut(keys, values, (|keys| + 1) / 2); }
  }

  lemma {:induction false} LeafHitInserted(order: nat, keys: seq<Key>, values: seq<seq<Location>>, k: Key,
                                           loc: Location)
    requires order >= 2 && |values| == |keys| && StrictlySorted(keys)
    requires LowerBound(keys, k) < |keys| && keys[LowerBound(keys, k)] == k
    ensures InsertedEntries(InsertLeaf(order, keys, values, k, loc)) == Put(LeafEntries(keys, values), k, loc)
  {
    LeafHitIsPut(keys, values, k, loc);
  }

  lemma {:induction false} InsertLeafIsPut(order: nat, keys: seq<Key>, values: seq<seq<Location>>, k: Key,
                                           loc: Location)
    requires order >= 2 && |values| == |keys| && StrictlySorted(keys)
    ensures InsertedEntries(InsertLeaf(order, keys, values, k, loc)) == Put(LeafEntries(keys, values), k, loc)
  {
    var pos := LowerBound(keys, k);
    if pos < |keys| && keys[pos] == k {
      LeafHitInserted(order, keys, values, k, loc);
    } else {
      LeafMissIsPut(keys, values, k, loc);
      GrownLeafEntries(order, InsertAt(keys, pos, k), InsertAt(values, pos, [loc]));
    }
  }

  lemma {:induction false} AdoptWholeEntries(kids: seq<Tree>, i: nat, kid: Tree)
    requires i < |kids| && Shaped(kid) && AllShaped(kids)
    ensures Flatten(kids[i := kid]) == Flatten(kids[..i]) + Entries(kid) + Flatten(kids[i + 1..])
  {
    FlattenAround(kids[i := kid], i);
    assert kids[i := kid][..i] == kids[..i] && kids[i := kid][i + 1..] == kids[i + 1..];
  }

  lemma {:induction false} AdoptCutEntries(kids: seq<Tree>, i: nat, left: Tree, right: Tree)
    requires i < |kids| && Shaped(left) && Shaped(right) && AllShaped(kids)
    ensures AllShaped(InsertAt(kids[i := left], i + 1, right))
    ensures Flatten(InsertAt(kids[i := left], i + 1, right))
      == Flatten(kids[..i]) + (Entries(left) + Entries(right)) + Flatten(kids[i + 1..])
  {
    var kids' := InsertAt(kids[i := left], i + 1, right);
    assert kids' == (kids[..i] + [left, right]) + kids[i + 1..];
    FlattenConcat(kids[..i], [left, right]);
    FlattenConcat(kids[..i] + [left, right], kids[i + 1..]);
    PairFlattened(left, right);
  }

  lemma {:induction false} PairFlattened(left: Tree, right: Tree)
    requires Shaped(left) && Shaped(right)
    ensures Flatten([left, right]) == Entries(left) + Entries(right)
  {
    assert [left, right][1..] == [right] && [right][1..] == [];
    assert Flatten([right]) == Entries(right) + Flatten([]);
  }

  lemma {:induction false} SplitInnerEntries(keys: seq<Key>, kids: seq<Tree>)
    requires |kids| == |keys| + 1 && |keys| >= 1 && AllShaped(kids)
    ensures ShapedInserted(SplitInner(keys, kids)) && InsertedEntries(SplitInner(keys, kids)) == Flatten(kids)
  {
    var mid := |keys| / 2;
    FlattenConcat(kids[..mid + 1], kids[mid + 1..]);
    assert kids == kids[..mid + 1] + kids[mid + 1..];
  }

  lemma {:induction false} AdoptEntries(order: nat, keys: seq<Key>, kids: seq<Tree>, i: nat, kid: Inserted)
    requires order >= 2 && |kids| == |keys| + 1 && i < |kids|
    requires AllShaped(kids)
    requires ShapedInserted(kid) && (kid.Cut? ==> LowerBound(keys, kid.up) == i)
    ensures ShapedInserted(Adopt(order, keys, kids, i, kid))
    ensures InsertedEntries(Adopt(order, keys, kids, i, kid))
      == Flatten(kids[..i]) + InsertedEntries(kid) + Flatten(kids[i + 1..])
  {
    match kid
    case Whole(kid') => AdoptWholeEntries(kids, i, kid');
    case Cut(left, up, right) =>
      AdoptCutEntries(kids, i, left, right);
      var keys', kids' := InsertAt(keys, i, up), InsertAt(kids[i := left], i + 1, right);
      if |keys'| >= order {
        SplitInnerEntries(keys', kids');
      } else {
        assert Shaped(Inner(keys', kids'));
      }
  }

  /** The tree's insert is the sorted map's Put, whatever splits it causes. */
  lemma {:induction false} InsertIsPut(order: nat, t: Tree, d: nat, lo: Bound, hi: Bound, k: Key, loc: Location)
    requires order >= 2 && Good(order, t, d, lo, hi) && Shaped(t) && AtOrAbove(lo, k) && Below(k, hi)
    ensures ShapedInserted(InsertInto(order, t, k, loc))
    ensures InsertedEntries(InsertInto(order, t, k, loc)) == Put(Entries(t), k, loc)
    decreases t
  {
    match t
    case Leaf(keys, values) => InsertLeafIsPut(order, keys, values, k, loc);
    case Inner(keys, kids) =>
      var i := UpperBound(keys, k);
      var kid := InsertInto(order, kids[i], k, loc);
      InsertIsPut(order, kids[i], d - 1, LowOf(keys, i, lo), HighOf(keys, i, hi), k, loc);
      KidSeparator(order, keys, kids, d, lo, hi, k, loc);
      assert InsertInto(order, t, k, loc) == Adopt(order, keys, kids, i, kid);
      AdoptEntries(order, keys, kids, i, kid);
      PutIntoKid(order, keys, kids, d, lo, hi, k, loc);
  }

  lemma {:induction false} KidSeparator(order: nat, keys: seq<Key>, kids: seq<Tree>, d: nat, lo: Bound, hi: Bound,
                                        k: Key, loc: Location)
    requires order >= 2 && Good(order, Inner(keys, kids), d, lo, hi) && AllShaped(kids)
    requires AtOrAbove(lo, k) && Below(k, hi)
    ensures var i := UpperBound(keys, k); var kid := InsertInto(order, kids[i], k, loc);
      kid.Cut? ==> LowerBound(keys, kid.up) == i
  {
    var i := UpperBound(keys, k);
    var kid := InsertInto(order, kids[i], k, loc);
    InsertGood(order, kids[i], d - 1, LowOf(keys, i, lo), HighOf(keys, i, hi), k, loc);
    if kid.Cut? { SeparatorPosition(keys, i, kid.up, lo, hi); }
  }

  lemma {:induction false} PutIntoKid(order: nat, keys: seq<Key>, kids: seq<Tree>, d: nat, lo: Bound, hi: Bound,
                                      k: Key, loc: Location)
    requires Good(order, Inner(keys, kids), d, lo, hi) && AllShaped(kids)
    ensures var i := UpperBound(keys, k);
      Put(Flatten(kids), k, loc) == Flatten(kids[..i]) + Put(Entries(kids[i]), k, loc) + Flatten(kids[i + 1..])
  {
    var i := UpperBound(keys, k);
    assert GoodKids(order, keys, kids, d - 1, lo, hi);
    FlattenAround(kids, i);
    LeftOfDescent(order, keys, kids, d - 1, lo, hi, k);
    RightOfDescent(order, keys, kids, d - 1, lo, hi, k);
    PutAround(Flatten(kids[..i]), Entries(kids[i]), Flatten(kids[i + 1..]), k, loc);
  }

  lemma {:induction false} PutAround(a: seq<Entry>, b: seq<Entry>, c: seq<Entry>, k: Key, loc: Location)
    requires AllBelow(a, k)
    requires AllAbove(k, c)
    ensures Put(a + b + c, k, loc) == a + Put(b, k, loc) + c
  {
    PutBefore(a + b, c, k, loc);
    PutAfter(a, b, k, loc);
  }

  lemma {:induction false} RootedEntries(ins: Inserted)
    requires ShapedInserted(ins)
    ensures Shaped(Rooted(ins)) && Entries(Rooted(ins)) == InsertedEntries(ins)
  {
    if ins.Cut? { PairFlattened(ins.left, ins.right); }
  }

  // ---------- descent ----------

  lemma {:induction false} LookupAround(a: seq<Entry>, b: seq<Entry>, c: seq<Entry>, k: Key)
    requires AllBelow(a, k) && AllAbove(k, c)
    ensures Lookup(a + b + c, k) == Lookup(b, k)
  {
    LookupStops(a + b, c, k);
    LookupSkips(a, b, k);
  }

  /** The kid a key descends into holds everything stored under the key. */
  lemma {:induction false} DescentFinds(order: nat, keys: seq<Key>, kids: seq<Tree>, d: nat, lo: Bound, hi: Bound,
                                        k: Key)
    requires d > 0 && StrictlySorted(keys) && Bounded(keys, lo, hi) && GoodKids(order, keys, kids, d - 1, lo, hi)
    requires AllShaped(kids)
    ensures Lookup(Flatten(kids), k) == Lookup(Entries(kids[UpperBound(keys, k)]), k)
  {
    var i := UpperBound(keys, k);
    LeftOfDescent(order, keys, kids, d - 1, lo, hi, k);
    RightOfDescent(order, keys, kids, d - 1, lo, hi, k);
    FlattenAround(kids, i);
    LookupAround(Flatten(kids[..i]), Entries(kids[i]), Flatten(kids[i + 1..]), k);
  }

  lemma {:induction false} LeafFinds(keys: seq<Key>, values: seq<seq<Location>>, k: Key)
    requires |values| == |keys| && StrictlySorted(keys)
    ensures var pos := LowerBound(keys, k);
      Lookup(LeafEntries(keys, values), k) == if pos < |keys| && keys[pos] == k then values[pos] else []
  {
    var es, pos := LeafEntries(keys, values), LowerBound(keys, k);
    assert es == es[..pos] + es[pos..];
    LookupSkips(es[..pos], es[pos..], k);
    if pos < |keys| && keys[pos] != k {
      LookupSkips(es[pos..], [], k);
      assert es[pos..] + [] == es[pos..];
    }
  }
}
