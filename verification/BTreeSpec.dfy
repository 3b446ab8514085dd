/** The B+tree of src/storage/btree.ts on values: what one insert makes of a tree, and when a tree is well formed. */
module BTreeSpec {
  // The classes of BTreeIndexes are proved against these functions.

  /** Keys are only ever compared. Every countable total order embeds in the rationals,
      so one ordered type stands for numbers, strings and booleans, with null below them all. */
  type Key = real

  datatype Location = Location(pageId: string, rowIndex: nat)

  datatype Entry = Entry(key: Key, locations: seq<Location>)

  datatype Tree =
    | Leaf(keys: seq<Key>, values: seq<seq<Location>>)
    | Inner(keys: seq<Key>, kids: seq<Tree>)

  /** What inserting into a node leaves behind: one node, or a cut in two around a separator. */
  datatype Inserted =
    | Whole(tree: Tree)
    | Cut(left: Tree, up: Key, right: Tree)

  datatype Bound = Open | At(key: Key)

  // ---------- positions in a key array ----------

  ghost predicate StrictlySorted(keys: seq<Key>) {
    forall i, j :: 0 <= i < j < |keys| ==> keys[i] < keys[j]
  }

  /** The number of leading keys below k. */
  function LowerBound(keys: seq<Key>, k: Key): (pos: nat)
    ensures pos <= |keys|
    ensures forall i :: 0 <= i < pos ==> keys[i] < k
    ensures pos < |keys| ==> k <= keys[pos]
  {
    if keys == [] || k <= keys[0] then 0 else 1 + LowerBound(keys[1..], k)
  }

  /** The number of leading keys at or below k. */
  function UpperBound(keys: seq<Key>, k: Key): (pos: nat)
    ensures pos <= |keys|
    ensures forall i :: 0 <= i < pos ==> keys[i] <= k
    ensures pos < |keys| ==> k < keys[pos]
  {
    if keys == [] || k < keys[0] then 0 else 1 + UpperBound(keys[1..], k)
  }

  function InsertAt<T>(s: seq<T>, pos: nat, x: T): seq<T>
    requires pos <= |s|
  {
    s[..pos] + [x] + s[pos..]
  }

  // ---------- one insert ----------

  ghost predicate Shaped(t: Tree) {
    match t
    case Leaf(keys, values) => |values| == |keys|
    case Inner(keys, kids) => |kids| == |keys| + 1 && forall i :: 0 <= i < |kids| ==> Shaped(kids[i])
  }

  function SplitLeaf(keys: seq<Key>, values: seq<seq<Location>>): Inserted
    requires |values| == |keys| >= 2
  {
    var mid := (|keys| + 1) / 2;
    Cut(Leaf(keys[..mid], values[..mid]), keys[mid], Leaf(keys[mid..], values[mid..]))
  }

  function SplitInner(keys: seq<Key>, kids: seq<Tree>): Inserted
    requires |kids| == |keys| + 1 && |keys| >= 1
  {
    var mid := |keys| / 2;
    Cut(Inner(keys[..mid], kids[..mid + 1]), keys[mid], Inner(keys[mid + 1..], kids[mid + 1..]))
  }

  function InsertLeaf(order: nat, keys: seq<Key>, values: seq<seq<Location>>, k: Key, loc: Location): Inserted
    requires order >= 2 && |values| == |keys|
  {
    var pos := LowerBound(keys, k);
    if pos < |keys| && keys[pos] == k then
      Whole(Leaf(keys, values[pos := values[pos] + [loc]]))
    else
      var keys', values' := InsertAt(keys, pos, k), InsertAt(values, pos, [loc]);
      if |keys'| >= order then SplitLeaf(keys', values') else Whole(Leaf(keys', values'))
  }

  /** Puts what became of kid i back under its parent. */
  function Adopt(order: nat, keys: seq<Key>, kids: seq<Tree>, i: nat, kid: Inserted): Inserted
    requires order >= 2 && |kids| == |keys| + 1 && i < |kids|
  {
    match kid
    case Whole(kid') => Whole(Inner(keys, kids[i := kid']))
    case Cut(left, up, right) =>
      var pos := LowerBound(keys, up);
      var keys', kids' := InsertAt(keys, pos, up), InsertAt(kids[i := left], pos + 1, right);
      if |keys'| >= order then SplitInner(keys', kids') else Whole(Inner(keys', kids'))
  }

  function InsertInto(order: nat, t: Tree, k: Key, loc: Location): Inserted
    requires order >= 2 && Shaped(t)
  {
    match t
    case Leaf(keys, values) => InsertLeaf(order, keys, values, k, loc)
    case Inner(keys, kids) =>
      var i := UpperBound(keys, k);
      Adopt(order, keys, kids, i, InsertInto(order, kids[i], k, loc))
  }

  /** The new root after an insert. */
  function Rooted(ins: Inserted): Tree {
    match ins
    case Whole(t) => t
    case Cut(left, up, right) => Inner([up], [left, right])
  }

  // ---------- well-formedness ----------

  ghost predicate AtOrAbove(lo: Bound, k: Key) { lo.At? ==> lo.key <= k }
  ghost predicate Above(lo: Bound, k: Key) { lo.At? ==> lo.key < k }
  ghost predicate Below(k: Key, hi: Bound) { hi.At? ==> k < hi.key }

  function LowOf(keys: seq<Key>, i: nat, lo: Bound): Bound
    requires i <= |keys|
  { if i == 0 then lo else At(keys[i - 1]) }

  function HighOf(keys: seq<Key>, i: nat, hi: Bound): Bound
    requires i <= |keys|
  { if i == |keys| then hi else At(keys[i]) }

  /** Every node but the root holds at least this many keys. */
  ghost predicate Filled(order: nat, t: Tree) {
    match t
    case Leaf(keys, _) => |keys| >= order / 2
    case Inner(keys, _) => |keys| + 1 >= (order + 1) / 2
  }

  /** Strictly sorted keys, fewer than `order` of them, separators bounding the subtrees,
      every leaf at depth d, every kid filled. */
  ghost predicate Good(order: nat, t: Tree, d: nat, lo: Bound, hi: Bound) {
    match t
    case Leaf(keys, values) =>
      && d == 0 && |values| == |keys| < order && StrictlySorted(keys)
      && forall i :: 0 <= i < |keys| ==> AtOrAbove(lo, keys[i]) && Below(keys[i], hi)
    case Inner(keys, kids) =>
      && d > 0 && |kids| == |keys| + 1 && |keys| < order && StrictlySorted(keys)
      && (forall i :: 0 <= i < |keys| ==> Above(lo, keys[i]) && Below(keys[i], hi))
      && forall i :: 0 <= i < |kids| ==>
          Good(order, kids[i], d - 1, LowOf(keys, i, lo), HighOf(keys, i, hi)) && Filled(order, kids[i])
  }

  ghost predicate GoodInserted(order: nat, ins: Inserted, d: nat, lo: Bound, hi: Bound) {
    match ins
    case Whole(t) => Good(order, t, d, lo, hi)
    case Cut(left, up, right) =>
      && Above(lo, up) && Below(up, hi)
      && Good(order, left, d, lo, At(up)) && Filled(order, left)
      && Good(order, right, d, At(up), hi) && Filled(order, right)
  }

  lemma {:induction false} GoodIsShaped(order: nat, t: Tree, d: nat, lo: Bound, hi: Bound)
    requires Good(order, t, d, lo, hi)
    ensures Shaped(t)
    decreases t
  {
    match t
    case Leaf(_, _) =>
    case Inner(keys, kids) =>
      forall i | 0 <= i < |kids| ensures Shaped(kids[i]) {
        GoodIsShaped(order, kids[i], d - 1, LowOf(keys, i, lo), HighOf(keys, i, hi));
      }
  }

  lemma {:induction false} SplitLeafGood(order: nat, keys: seq<Key>, values: seq<seq<Location>>, lo: Bound, hi: Bound)
    requires order >= 2 && |values| == |keys| == order && StrictlySorted(keys)
    requires forall i :: 0 <= i < |keys| ==> AtOrAbove(lo, keys[i]) && Below(keys[i], hi)
    ensures GoodInserted(order, SplitLeaf(keys, values), 0, lo, hi)
  {
    var mid := (|keys| + 1) / 2;
    assert AtOrAbove(lo, keys[0]) && keys[0] < keys[mid];
  }

  lemma {:induction false} InsertLeafGood(order: nat, keys: seq<Key>, values: seq<seq<Location>>, k: Key,
                                          loc: Location, lo: Bound, hi: Bound)
    requires order >= 2 && Good(order, Leaf(keys, values), 0, lo, hi)
    requires AtOrAbove(lo, k) && Below(k, hi)
    ensures GoodInserted(order, InsertLeaf(order, keys, values, k, loc), 0, lo, hi)
    ensures Filled(order, Leaf(keys, values)) && InsertLeaf(order, keys, values, k, loc).Whole? ==>
      Filled(order, InsertLeaf(order, keys, values, k, loc).tree)
  {
    var pos := LowerBound(keys, k);
    if pos < |keys| && keys[pos] == k {
    } else {
      var keys' := InsertAt(keys, pos, k);
      assert StrictlySorted(keys');
      if |keys'| >= order {
        SplitLeafGood(order, keys', InsertAt(values, pos, [loc]), lo, hi);
      }
    }
  }

  /** Under its bounds a cut-off separator belongs exactly at the position of the kid it came from. */
  lemma {:induction false} SeparatorPosition(keys: seq<Key>, i: nat, up: Key, lo: Bound, hi: Bound)
    requires StrictlySorted(keys) && i <= |keys|
    requires Above(LowOf(keys, i, lo), up) && Below(up, HighOf(keys, i, hi))
    ensures LowerBound(keys, up) == i
  {
    var pos := LowerBound(keys, up);
    assert i > 0 ==> keys[i - 1] < up;
    assert i < |keys| ==> up < keys[i];
  }

  ghost predicate GoodKids(order: nat, keys: seq<Key>, kids: seq<Tree>, d: nat, lo: Bound, hi: Bound) {
    && |kids| == |keys| + 1
    && forall i :: 0 <= i < |kids| ==>
        Good(order, kids[i], d, LowOf(keys, i, lo), HighOf(keys, i, hi)) && Filled(order, kids[i])
  }

  ghost predicate Bounded(keys: seq<Key>, lo: Bound, hi: Bound) {
    forall i :: 0 <= i < |keys| ==> Above(lo, keys[i]) && Below(keys[i], hi)
  }

  /** A run of kids with the separators between them is again a good list of kids. */
  lemma {:induction false} SliceGood(order: nat, keys: seq<Key>, kids: seq<Tree>, d: nat, lo: Bound, hi: Bound, a: nat,
                                     b: nat)
    requires StrictlySorted(keys) && Bounded(keys, lo, hi) && GoodKids(order, keys, kids, d, lo, hi)
    requires a <= b <= |keys|
    ensures GoodKids(order, keys[a..b], kids[a..b + 1], d, LowOf(keys, a, lo), HighOf(keys, b, hi))
    ensures StrictlySorted(keys[a..b]) && Bounded(keys[a..b], LowOf(keys, a, lo), HighOf(keys, b, hi))
  {
    var ks, ts := keys[a..b], kids[a..b + 1];
    forall i | 0 <= i < |ts|
      ensures Good(order, ts[i], d, LowOf(ks, i, LowOf(keys, a, lo)), HighOf(ks, i, HighOf(keys, b, hi)))
      ensures Filled(order, ts[i])
    {
      assert ts[i] == kids[a + i];
      assert LowOf(ks, i, LowOf(keys, a, lo)) == LowOf(keys, a + i, lo);
      assert HighOf(ks, i, HighOf(keys, b, hi)) == HighOf(keys, a + i, hi);
    }
  }

  lemma {:induction false} InnerSlice(order: nat, keys: seq<Key>, kids: seq<Tree>, d: nat, lo: Bound, hi: Bound,
                                      a: nat, b: nat)
    requires StrictlySorted(keys) && Bounded(keys, lo, hi) && d > 0 && GoodKids(order, keys, kids, d - 1, lo, hi)
    requires a <= b <= |keys| && b - a < order
    ensures Good(order, Inner(keys[a..b], kids[a..b + 1]), d, LowOf(keys, a, lo), HighOf(keys, b, hi))
  {
    SliceGood(order, keys, kids, d - 1, lo, hi, a, b);
  }

  lemma {:induction false} HalvesGood(order: nat, keys: seq<Key>, kids: seq<Tree>, mid: nat, d: nat, lo: Bound,
                                      hi: Bound)
    requires d > 0 && mid < |keys| <= order && StrictlySorted(keys)
    requires Bounded(keys, lo, hi) && GoodKids(order, keys, kids, d - 1, lo, hi)
    ensures Good(order, Inner(keys[..mid], kids[..mid + 1]), d, lo, At(keys[mid]))
    ensures Good(order, Inner(keys[mid + 1..], kids[mid + 1..]), d, At(keys[mid]), hi)
  {
    InnerSlice(order, keys, kids, d, lo, hi, 0, mid);
    InnerSlice(order, keys, kids, d, lo, hi, mid + 1, |keys|);
    assert keys[0..mid] == keys[..mid] && kids[0..mid + 1] == kids[..mid + 1];
    assert keys[mid + 1..|keys|] == keys[mid + 1..] && kids[mid + 1..|keys| + 1] == kids[mid + 1..];
  }

  lemma {:induction false} SplitInnerGood(order: nat, keys: seq<Key>, kids: seq<Tree>, d: nat, lo: Bound, hi: Bound)
    requires order >= 2 && d > 0 && |keys| == order && StrictlySorted(keys)
    requires Bounded(keys, lo, hi) && GoodKids(order, keys, kids, d - 1, lo, hi)
    ensures GoodInserted(order, SplitInner(keys, kids), d, lo, hi)
  {
    HalvesGood(order, keys, kids, |keys| / 2, d, lo, hi);
  }

  lemma {:induction false} SplicedKeys(keys: seq<Key>, i: nat, up: Key, lo: Bound, hi: Bound)
    requires StrictlySorted(keys) && i <= |keys| && Bounded(keys, lo, hi)
    requires Above(LowOf(keys, i, lo), up) && Below(up, HighOf(keys, i, hi))
    ensures StrictlySorted(InsertAt(keys, i, up)) && Bounded(InsertAt(keys, i, up), lo, hi)
  {
    var keys' := InsertAt(keys, i, up);
    assert Above(lo, up) && Below(up, hi);
    forall a, b | 0 <= a < b < |keys'| ensures keys'[a] < keys'[b] {
      if b == i {
        assert keys[a] <= keys[i - 1];
      } else if a == i {
        assert keys[i] <= keys[b - 1];
      }
    }
  }

  lemma {:induction false} SplicedKids(order: nat, keys: seq<Key>, kids: seq<Tree>, i: nat, left: Tree, up: Key,
                                       right: Tree, d: nat, lo: Bound, hi: Bound)
    requires GoodKids(order, keys, kids, d, lo, hi) && i < |kids|
    requires Good(order, left, d, LowOf(keys, i, lo), At(up)) && Filled(order, left)
    requires Good(order, right, d, At(up), HighOf(keys, i, hi)) && Filled(order, right)
    ensures GoodKids(order, InsertAt(keys, i, up), InsertAt(kids[i := left], i + 1, right), d, lo, hi)
  {
    var keys', kids' := InsertAt(keys, i, up), InsertAt(kids[i := left], i + 1, right);
    forall j | 0 <= j < |kids'|
      ensures Good(order, kids'[j], d, LowOf(keys', j, lo), HighOf(keys', j, hi)) && Filled(order, kids'[j])
    {
      if j < i {
        assert kids'[j] == kids[j] && LowOf(keys', j, lo) == LowOf(keys, j, lo)
               && HighOf(keys', j, hi) == HighOf(keys, j, hi);
      } else if j > i + 1 {
        assert kids'[j] == kids[j - 1] && LowOf(keys', j, lo) == LowOf(keys, j - 1, lo)
               && HighOf(keys', j, hi) == HighOf(keys, j - 1, hi);
      }
    }
  }

  lemma {:induction false} ReplacedKid(order: nat, keys: seq<Key>, kids: seq<Tree>, i: nat, kid: Tree, d: nat,
                                       lo: Bound, hi: Bound)
    requires GoodKids(order, keys, kids, d, lo, hi) && i < |kids|
    requires Good(order, kid, d, LowOf(keys, i, lo), HighOf(keys, i, hi)) && Filled(order, kid)
    ensures GoodKids(order, keys, kids[i := kid], d, lo, hi)
  {}

  lemma {:induction false} AdoptCutGood(order: nat, keys: seq<Key>, kids: seq<Tree>, i: nat, left: Tree, up: Key,
                                        right: Tree, d: nat, lo: Bound, hi: Bound)
    requires order >= 2 && |keys| < order && StrictlySorted(keys) && Bounded(keys, lo, hi)
    requires d > 0 && GoodKids(order, keys, kids, d - 1, lo, hi) && i < |kids|
    requires GoodInserted(order, Cut(left, up, right), d - 1, LowOf(keys, i, lo), HighOf(keys, i, hi))
    ensures GoodInserted(order, Adopt(order, keys, kids, i, Cut(left, up, right)), d, lo, hi)
  {
    SeparatorPosition(keys, i, up, lo, hi);
    SplicedKeys(keys, i, up, lo, hi);
    SplicedKids(order, keys, kids, i, left, up, right, d - 1, lo, hi);
    var keys', kids' := InsertAt(keys, i, up), InsertAt(kids[i := left], i + 1, right);
    if |keys'| >= order {
      assert Adopt(order, keys, kids, i, Cut(left, up, right)) == SplitInner(keys', kids');
      SplitInnerGood(order, keys', kids', d, lo, hi);
    } else {
      assert Adopt(order, keys, kids, i, Cut(left, up, right)) == Whole(Inner(keys', kids'));
    }
  }

  lemma {:induction false} AdoptGood(order: nat, keys: seq<Key>, kids: seq<Tree>, i: nat, kid: Inserted, d: nat,
                                     lo: Bound, hi: Bound)
    requires order >= 2 && |keys| < order && StrictlySorted(keys) && Bounded(keys, lo, hi)
    requires d > 0 && GoodKids(order, keys, kids, d - 1, lo, hi) && i < |kids|
    requires GoodInserted(order, kid, d - 1, LowOf(keys, i, lo), HighOf(keys, i, hi))
    requires kid.Whole? ==> Filled(order, kid.tree)
    ensures GoodInserted(order, Adopt(order, keys, kids, i, kid), d, lo, hi)
    ensures Filled(order, Inner(keys, kids)) && Adopt(order, keys, kids, i, kid).Whole? ==>
      Filled(order, Adopt(order, keys, kids, i, kid).tree)
  {
    match kid
    case Whole(kid') => ReplacedKid(order, keys, kids, i, kid', d - 1, lo, hi);
    case Cut(left, up, right) => AdoptCutGood(order, keys, kids, i, left, up, right, d, lo, hi);
  }

  /** One step up: what an insert made of a kid is adopted by its parent. */
  lemma {:induction false} InsertInnerGood(order: nat, keys: seq<Key>, kids: seq<Tree>, i: nat, kid: Inserted, d: nat,
                                           lo: Bound, hi: Bound)
    requires order >= 2 && Good(order, Inner(keys, kids), d, lo, hi) && i < |kids|
    requires GoodInserted(order, kid, d - 1, LowOf(keys, i, lo), HighOf(keys, i, hi))
    requires Filled(order, kids[i]) && kid.Whole? ==> Filled(order, kid.tree)
    ensures GoodInserted(order, Adopt(order, keys, kids, i, kid), d, lo, hi)
    ensures Filled(order, Inner(keys, kids)) && Adopt(order, keys, kids, i, kid).Whole? ==>
      Filled(order, Adopt(order, keys, kids, i, kid).tree)
  {
    assert GoodKids(order, keys, kids, d - 1, lo, hi);
    AdoptGood(order, keys, kids, i, kid, d, lo, hi);
  }

  /** One step down: the kid a key descends to is well formed within bounds that hold the key. */
  lemma {:induction false} KidGood(order: nat, keys: seq<Key>, kids: seq<Tree>, d: nat, lo: Bound, hi: Bound, k: Key)
    requires Good(order, Inner(keys, kids), d, lo, hi) && Shaped(Inner(keys, kids))
    requires AtOrAbove(lo, k) && Below(k, hi)
    ensures var i := UpperBound(keys, k);
      && d > 0 && Good(order, kids[i], d - 1, LowOf(keys, i, lo), HighOf(keys, i, hi))
      && Filled(order, kids[i]) && Shaped(kids[i])
      && AtOrAbove(LowOf(keys, i, lo), k) && Below(k, HighOf(keys, i, hi))
  {}

  /** Every split keeps the tree well formed. */
  lemma {:induction false} InsertGood(order: nat, t: Tree, d: nat, lo: Bound, hi: Bound, k: Key, loc: Location)
    requires order >= 2 && Good(order, t, d, lo, hi) && Shaped(t)
    requires AtOrAbove(lo, k) && Below(k, hi)
    ensures GoodInserted(order, InsertInto(order, t, k, loc), d, lo, hi)
    ensures Filled(order, t) && InsertInto(order, t, k, loc).Whole? ==> Filled(order, InsertInto(order, t, k, loc).tree)
    decreases t
  {
    match t
    case Leaf(keys, values) => InsertLeafGood(order, keys, values, k, loc, lo, hi);
    case Inner(keys, kids) =>
      var i := UpperBound(keys, k);
      KidGood(order, keys, kids, d, lo, hi, k);
      InsertGood(order, kids[i], d - 1, LowOf(keys, i, lo), HighOf(keys, i, hi), k, loc);
      InsertInnerGood(order, keys, kids, i, InsertInto(order, kids[i], k, loc), d, lo, hi);
  }
}
