/** BTreeIndex of src/storage/btree.ts: nodes on the heap, split and spliced in place, with a linked chain of leaves. */
module BTreeIndexes {
  // Every operation is proved against the sorted map of BTreeContents.
  import opened BTreeSpec
  import opened BTreeContents
  import opened BTreeHistory

  class Node {
    var isLeaf: bool
    var keys: seq<Key>
    var children: seq<Node>
    var values: seq<seq<Location>>
    var next: Node?

    constructor (leaf: bool)
      ensures isLeaf == leaf && keys == [] && children == [] && values == [] && next == null
    {
      isLeaf, keys, children, values, next := leaf, [], [], [], null;
    }
  }

  datatype SplitResult = NoSplit | SplitAt(key: Key, right: Node)

  // ---------- which nodes make up a tree ----------

  /** The nodes of a tree, arranged as the tree is; `nodes` are all of them. */
  datatype Layout = Layout(node: Node, kids: seq<Layout>, nodes: set<Node>)

  ghost function Covered(kids: seq<Layout>): set<Node> {
    set i, n | 0 <= i < |kids| && n in kids[i].nodes :: n
  }

  ghost predicate Laid(lay: Layout)
    decreases lay
  {
    lay.node in lay.nodes && LaidAll(lay.kids, lay.nodes - {lay.node})
  }

  /** Separate subtrees, all inside `nodes`. */
  ghost predicate LaidAll(kids: seq<Layout>, nodes: set<Node>)
    decreases kids
  {
    && (forall i :: 0 <= i < |kids| ==> Laid(kids[i]) && kids[i].nodes <= nodes)
    && forall i, j :: 0 <= i < j < |kids| ==> kids[i].nodes !! kids[j].nodes
  }

  ghost function FirstLeaf(lay: Layout): Node
    decreases lay
  {
    if lay.kids == [] then lay.node else FirstLeaf(lay.kids[0])
  }

  /** What the last leaf of kid i points at. */
  ghost function EndOf(kids: seq<Layout>, i: nat, end: Node?): Node? {
    if i + 1 < |kids| then FirstLeaf(kids[i + 1]) else end
  }

  ghost predicate Points(children: seq<Node>, kids: seq<Layout>) {
    |children| == |kids| && forall i :: 0 <= i < |kids| ==> children[i] == kids[i].node
  }

  /** The heap holds exactly tree t in these nodes, and the leaf chain runs through its leaves
      in order and leaves it towards `end`. */
  ghost predicate Mirrors(lay: Layout, t: Tree, end: Node?)
    requires Laid(lay)
    reads lay.nodes
    decreases lay
  {
    var n := lay.node;
    match t
    case Leaf(keys, values) => n.isLeaf && lay.kids == [] && n.keys == keys && n.values == values && n.next == end
    case Inner(keys, ts) =>
      && !n.isLeaf && n.keys == keys && |lay.kids| == |ts| > 0 && Points(n.children, lay.kids)
      && MirrorsAll(lay.kids, ts, end, lay.nodes - {lay.node})
  }

  ghost predicate MirrorsAll(lays: seq<Layout>, ts: seq<Tree>, end: Node?, nodes: set<Node>)
    requires |lays| == |ts| && LaidAll(lays, nodes)
    reads nodes
    decreases lays
  {
    forall i :: 0 <= i < |ts| ==> Mirrors(lays[i], ts[i], EndOf(lays, i, end))
  }

  // ---------- binary searches ----------

  method FindIndex(keys: seq<Key>, key: Key) returns (pos: nat)
    requires StrictlySorted(keys)
    ensures pos == LowerBound(keys, key)
  {
    var lo, hi := 0, |keys|;
    while lo < hi
      invariant 0 <= lo <= hi <= |keys|
      invariant forall i :: 0 <= i < lo ==> keys[i] < key
      invariant forall i :: hi <= i < |keys| ==> key <= keys[i]
    {
      var mid := (lo + hi) / 2;
      if keys[mid] < key { lo := mid + 1; } else { hi := mid; }
    }
    pos := lo;
    ghost var bound := LowerBound(keys, key);
    assert (bound < |keys| ==> key <= keys[bound]) && (pos < |keys| ==> key <= keys[pos]);
  }

  method FindChildIndex(node: Node, key: Key) returns (pos: nat)
    requires StrictlySorted(node.keys)
    ensures pos == UpperBound(node.keys, key)
  {
    var lo, hi := 0, |node.keys|;
    while lo < hi
      invariant 0 <= lo <= hi <= |node.keys|
      invariant forall i :: 0 <= i < lo ==> node.keys[i] <= key
      invariant forall i :: hi <= i < |node.keys| ==> key < node.keys[i]
    {
      var mid := (lo + hi) / 2;
      if node.keys[mid] <= key { lo := mid + 1; } else { hi := mid; }
    }
    pos := lo;
    ghost var bound := UpperBound(node.keys, key);
    assert (bound < |node.keys| ==> key < node.keys[bound]) && (pos < |node.keys| ==> key < node.keys[pos]);
  }

  // ---------- splits ----------

  method SplitLeafNode(leaf: Node) returns (split: SplitResult)
    requires leaf.isLeaf && |leaf.values| == |leaf.keys| >= 2
    modifies leaf
    ensures leaf.isLeaf && leaf.children == old(leaf.children)
    ensures var cut := SplitLeaf(old(leaf.keys), old(leaf.values));
      && split.SplitAt? && split.key == cut.up && fresh(split.right)
      && leaf.keys == cut.left.keys && leaf.values == cut.left.values && leaf.next == split.right
      && split.right.isLeaf && split.right.keys == cut.right.keys && split.right.values == cut.right.values
      && split.right.next == old(leaf.next)
  {
    var mid := (|leaf.keys| + 1) / 2;
    var rightKeys, rightValues := leaf.keys[mid..], leaf.values[mid..];
    leaf.keys, leaf.values := leaf.keys[..mid], leaf.values[..mid];
    var newRight := new Node(true);
    newRight.keys, newRight.values, newRight.next := rightKeys, rightValues, leaf.next;
    leaf.next := newRight;
    split := SplitAt(rightKeys[0], newRight);
  }

  method SplitInnerNode(node: Node) returns (split: SplitResult)
    requires !node.isLeaf && |node.children| == |node.keys| + 1 && |node.keys| >= 1
    modifies node
    ensures !node.isLeaf && split.SplitAt? && fresh(split.right) && !split.right.isLeaf
    ensures var mid := |old(node.keys)| / 2;
      && split.key == old(node.keys)[mid]
      && node.keys == old(node.keys)[..mid] && node.children == old(node.children)[..mid + 1]
      && split.right.keys == old(node.keys)[mid + 1..] && split.right.children == old(node.children)[mid + 1..]
  {
    var mid := |node.keys| / 2;
    var upKey := node.keys[mid];
    var rightKeys := node.keys[mid + 1..];
    node.keys := node.keys[..mid];
    var rightChildren := node.children[mid + 1..];
    node.children := node.children[..mid + 1];
    var newRight := new Node(false);
    newRight.keys, newRight.children := rightKeys, rightChildren;
    split := SplitAt(upKey, newRight);
  }

  // ---------- insert ----------

  /** The heap shows what InsertInto makes of a tree: one layout, or two with a separator between. */
  ghost predicate Shows(ins: Inserted, split: SplitResult, left: Layout, right: Layout, end: Node?)
    requires Laid(left) && Laid(right)
    reads left.nodes, right.nodes
  {
    match ins
    case Whole(t) => split.NoSplit? && right == left && Mirrors(left, t, end)
    case Cut(lt, up, rt) =>
      && split == SplitAt(up, right.node) && left.nodes !! right.nodes
      && Mirrors(left, lt, FirstLeaf(right)) && Mirrors(right, rt, end)
  }

  method InsertIntoLeaf(order: nat, node: Node, key: Key, loc: Location, ghost lay: Layout, ghost t: Tree,
                        ghost end: Node?)
    returns (split: SplitResult, ghost right: Layout)
    requires order >= 2 && t.Leaf? && |t.values| == |t.keys| && StrictlySorted(t.keys)
    requires lay.node == node && Laid(lay) && Mirrors(lay, t, end)
    modifies node
    ensures Laid(right) && Shows(InsertLeaf(order, t.keys, t.values, key, loc), split, lay, right, end)
    ensures split.SplitAt? ==> fresh(right.nodes)
  {
    right := lay;
    var pos := FindIndex(node.keys, key);
    if pos < |node.keys| && node.keys[pos] == key {
      node.values := node.values[pos := node.values[pos] + [loc]];
      return NoSplit, lay;
    }
    node.keys := InsertAt(node.keys, pos, key);
    node.values := InsertAt(node.values, pos, [loc]);
    if |node.keys| >= order {
      split := SplitLeafNode(node);
      right := Layout(split.right, [], {split.right});
    } else {
      split := NoSplit;
    }
  }

  // ---------- putting a changed kid back ----------

  /** Every kid but i is untouched by work confined to `changed`. */
  ghost predicate Apart(kids: seq<Layout>, i: nat, changed: set<Node>) {
    forall j :: 0 <= j < |kids| && j != i ==> kids[j].nodes !! changed
  }

  ghost predicate MirrorsAllBut(kids: seq<Layout>, ts: seq<Tree>, i: nat, end: Node?, nodes: set<Node>)
    requires |kids| == |ts| && LaidAll(kids, nodes)
    reads nodes
  {
    forall j :: 0 <= j < |ts| && j != i ==> Mirrors(kids[j], ts[j], EndOf(kids, j, end))
  }

  lemma {:induction false} LaidReplaced(kids: seq<Layout>, i: nat, left: Layout, nodes: set<Node>)
    requires LaidAll(kids, nodes) && i < |kids| && Laid(left) && Apart(kids, i, left.nodes)
    ensures LaidAll(kids[i := left], nodes + left.nodes)
  {}

  lemma {:induction false} LaidSpliced(kids: seq<Layout>, i: nat, left: Layout, right: Layout, nodes: set<Node>)
    requires LaidAll(kids, nodes) && i < |kids| && Laid(left) && Laid(right)
    requires Apart(kids, i, left.nodes) && Apart(kids, i, right.nodes) && left.nodes !! right.nodes
    ensures LaidAll(InsertAt(kids[i := left], i + 1, right), nodes + left.nodes + right.nodes)
  {
    var kids' := InsertAt(kids[i := left], i + 1, right);
    assert forall j :: 0 <= j < i ==> kids'[j] == kids[j];
    assert forall j :: i + 1 < j < |kids'| ==> kids'[j] == kids[j - 1];
  }

  lemma {:induction false} MirrorsReplaced(kids: seq<Layout>, ts: seq<Tree>, i: nat, left: Layout, lt: Tree,
                                           end: Node?, nodes: set<Node>)
    requires |kids| == |ts| && LaidAll(kids, nodes) && i < |kids| && MirrorsAllBut(kids, ts, i, end, nodes)
    requires Laid(left) && Apart(kids, i, left.nodes) && FirstLeaf(left) == FirstLeaf(kids[i])
    requires Mirrors(left, lt, EndOf(kids, i, end))
    ensures LaidAll(kids[i := left], nodes + left.nodes)
    ensures MirrorsAll(kids[i := left], ts[i := lt], end, nodes + left.nodes)
  {
    LaidReplaced(kids, i, left, nodes);
    var kids' := kids[i := left];
    assert forall j :: 0 <= j < |kids| ==> EndOf(kids', j, end) == EndOf(kids, j, end);
  }

  lemma {:induction false} EndOfSpliced(kids: seq<Layout>, i: nat, left: Layout, right: Layout, end: Node?, j: nat)
    requires i < |kids| && FirstLeaf(left) == FirstLeaf(kids[i]) && j <= |kids|
    ensures var kids' := InsertAt(kids[i := left], i + 1, right);
      EndOf(kids', j, end) == if j < i then EndOf(kids, j, end) else if j == i then FirstLeaf(right)
        else EndOf(kids, j - 1, end)
  {
    var kids' := InsertAt(kids[i := left], i + 1, right);
    if j + 1 < i {
      assert kids'[j + 1] == kids[j + 1];
    } else if j + 1 == i {
      assert kids'[j + 1] == left;
    } else if j == i {
      assert kids'[j + 1] == right;
    } else if j < |kids| {
      assert kids'[j + 1] == kids[j];
    }
  }

  lemma {:induction false} SplicedAt<T>(s: seq<T>, i: nat, left: T, right: T, j: nat)
    requires i < |s| && j <= |s|
    ensures InsertAt(s[i := left], i + 1, right)[j]
      == if j < i then s[j] else if j == i then left else if j == i + 1 then right else s[j - 1]
  {}

  lemma {:induction false} MirrorsSplicedAt(kids: seq<Layout>, ts: seq<Tree>, i: nat, left: Layout, lt: Tree,
                                            right: Layout, rt: Tree, end: Node?, nodes: set<Node>, j: nat)
    requires |kids| == |ts| && LaidAll(kids, nodes) && i < |kids| && MirrorsAllBut(kids, ts, i, end, nodes)
    requires Laid(left) && Laid(right) && FirstLeaf(left) == FirstLeaf(kids[i]) && j <= |kids|
    requires Mirrors(left, lt, FirstLeaf(right)) && Mirrors(right, rt, EndOf(kids, i, end))
    ensures var kids' := InsertAt(kids[i := left], i + 1, right);
      Laid(kids'[j]) && Mirrors(kids'[j], InsertAt(ts[i := lt], i + 1, rt)[j], EndOf(kids', j, end))
  {
    EndOfSpliced(kids, i, left, right, end, j);
    SplicedAt(kids, i, left, right, j);
    SplicedAt(ts, i, lt, rt, j);
    if j < i {
      assert Mirrors(kids[j], ts[j], EndOf(kids, j, end));
    } else if j > i + 1 {
      assert Mirrors(kids[j - 1], ts[j - 1], EndOf(kids, j - 1, end));
    }
  }

  lemma {:induction false} MirrorsSpliced(kids: seq<Layout>, ts: seq<Tree>, i: nat, left: Layout, lt: Tree,
                                          right: Layout, rt: Tree, end: Node?, nodes: set<Node>)
    requires |kids| == |ts| && LaidAll(kids, nodes) && i < |kids| && MirrorsAllBut(kids, ts, i, end, nodes)
    requires Laid(left) && Laid(right) && FirstLeaf(left) == FirstLeaf(kids[i])
    requires Apart(kids, i, left.nodes) && Apart(kids, i, right.nodes) && left.nodes !! right.nodes
    requires Mirrors(left, lt, FirstLeaf(right)) && Mirrors(right, rt, EndOf(kids, i, end))
    ensures LaidAll(InsertAt(kids[i := left], i + 1, right), nodes + left.nodes + right.nodes)
    ensures MirrorsAll(InsertAt(kids[i := left], i + 1, right), InsertAt(ts[i := lt], i + 1, rt), end,
                       nodes + left.nodes + right.nodes)
  {
    LaidSpliced(kids, i, left, right, nodes);
    var kids', ts' := InsertAt(kids[i := left], i + 1, right), InsertAt(ts[i := lt], i + 1, rt);
    forall j | 0 <= j < |ts'| ensures Mirrors(kids'[j], ts'[j], EndOf(kids', j, end)) {
      MirrorsSplicedAt(kids, ts, i, left, lt, right, rt, end, nodes, j);
    }
  }

  lemma {:induction false} LaidCut(kids: seq<Layout>, m: nat, nodes: set<Node>)
    requires LaidAll(kids, nodes) && m <= |kids|
    ensures LaidAll(kids[..m], Covered(kids[..m])) && LaidAll(kids[m..], Covered(kids[m..]))
    ensures Covered(kids[..m]) !! Covered(kids[m..])
    ensures Covered(kids[..m]) <= nodes && Covered(kids[m..]) <= nodes
  {
    forall n | n in Covered(kids[..m]) ensures n in nodes && n !in Covered(kids[m..]) {
      var i :| 0 <= i < m && n in kids[..m][i].nodes;
      assert kids[..m][i] == kids[i];
      assert forall j :: 0 <= j < |kids| - m ==> kids[m..][j] == kids[m + j];
    }
    forall n | n in Covered(kids[m..]) ensures n in nodes {
      var j :| 0 <= j < |kids| - m && n in kids[m..][j].nodes;
      assert kids[m..][j] == kids[m + j];
    }
  }

  lemma {:induction false} MirrorsCut(kids: seq<Layout>, ts: seq<Tree>, m: nat, end: Node?, nodes: set<Node>)
    requires |kids| == |ts| && 0 < m < |kids| && LaidAll(kids, nodes) && MirrorsAll(kids, ts, end, nodes)
    ensures LaidAll(kids[..m], Covered(kids[..m])) && LaidAll(kids[m..], Covered(kids[m..]))
    ensures MirrorsAll(kids[..m], ts[..m], FirstLeaf(kids[m]), Covered(kids[..m]))
    ensures MirrorsAll(kids[m..], ts[m..], end, Covered(kids[m..]))
  {
    LaidCut(kids, m, nodes);
    forall j | 0 <= j < m ensures Mirrors(kids[..m][j], ts[..m][j], EndOf(kids[..m], j, FirstLeaf(kids[m]))) {
      assert EndOf(kids[..m], j, FirstLeaf(kids[m])) == EndOf(kids, j, end) && kids[..m][j] == kids[j];
    }
    forall j | 0 <= j < |kids| - m ensures Mirrors(kids[m..][j], ts[m..][j], EndOf(kids[m..], j, end)) {
      assert EndOf(kids[m..], j, end) == EndOf(kids, m + j, end) && kids[m..][j] == kids[m + j];
    }
  }

  /** A node outside its kids' nodes carries them as an inner tree. */
  lemma {:induction false} InnerMirrors(node: Node, keys: seq<Key>, kids: seq<Layout>, ts: seq<Tree>, end: Node?,
                                        nodes: set<Node>)
    requires !node.isLeaf && node.keys == keys && Points(node.children, kids) && |kids| == |ts| > 0
    requires node !in nodes && LaidAll(kids, nodes) && MirrorsAll(kids, ts, end, nodes)
    ensures Laid(Layout(node, kids, nodes + {node}))
            && Mirrors(Layout(node, kids, nodes + {node}), Inner(keys, ts), end)
  {
    assert nodes + {node} - {node} == nodes;
  }

  lemma {:induction false} PointsCut(children: seq<Node>, kids: seq<Layout>, m: nat)
    requires Points(children, kids) && m <= |kids|
    ensures Points(children[..m], kids[..m]) && Points(children[m..], kids[m..])
  {}

  lemma {:induction false} PointsSpliced(children: seq<Node>, kids: seq<Layout>, i: nat, left: Layout, right: Layout)
    requires Points(children, kids) && i < |kids| && left.node == kids[i].node
    ensures Points(InsertAt(children, i + 1, right.node), InsertAt(kids[i := left], i + 1, right))
  {}

  ghost function LeftHalf(node: Node, kids: seq<Layout>, m: nat): Layout
    requires m <= |kids|
  {
    Layout(node, kids[..m], Covered(kids[..m]) + {node})
  }

  ghost function RightHalf(node: Node, kids: seq<Layout>, m: nat): Layout
    requires m <= |kids|
  {
    Layout(node, kids[m..], Covered(kids[m..]) + {node})
  }

  lemma {:induction false} LeftHalfMirrors(node: Node, keys: seq<Key>, kids: seq<Layout>, ts: seq<Tree>, m: nat,
                                           end: Node?, nodes: set<Node>)
    requires |kids| == |ts| && 0 < m < |kids| && node !in nodes && LaidAll(kids, nodes)
             && MirrorsAll(kids, ts, end, nodes)
    requires !node.isLeaf && node.keys == keys && Points(node.children, kids[..m])
    ensures Laid(LeftHalf(node, kids, m)) && LeftHalf(node, kids, m).nodes <= nodes + {node}
    ensures Mirrors(LeftHalf(node, kids, m), Inner(keys, ts[..m]), FirstLeaf(kids[m]))
  {
    LaidCut(kids, m, nodes);
    MirrorsCut(kids, ts, m, end, nodes);
    InnerMirrors(node, keys, kids[..m], ts[..m], FirstLeaf(kids[m]), Covered(kids[..m]));
  }

  lemma {:induction false} RightHalfMirrors(node: Node, keys: seq<Key>, kids: seq<Layout>, ts: seq<Tree>, m: nat,
                                            end: Node?, nodes: set<Node>)
    requires |kids| == |ts| && 0 < m < |kids| && node !in nodes && LaidAll(kids, nodes)
             && MirrorsAll(kids, ts, end, nodes)
    requires !node.isLeaf && node.keys == keys && Points(node.children, kids[m..])
    ensures Laid(RightHalf(node, kids, m)) && RightHalf(node, kids, m).nodes <= nodes + {node}
    ensures Mirrors(RightHalf(node, kids, m), Inner(keys, ts[m..]), end)
    ensures FirstLeaf(RightHalf(node, kids, m)) == FirstLeaf(kids[m])
  {
    LaidCut(kids, m, nodes);
    MirrorsCut(kids, ts, m, end, nodes);
    InnerMirrors(node, keys, kids[m..], ts[m..], end, Covered(kids[m..]));
  }

  lemma {:induction false} HalvesApart(node: Node, other: Node, kids: seq<Layout>, m: nat, nodes: set<Node>)
    requires LaidAll(kids, nodes) && m <= |kids| && node !in nodes && other !in nodes && node != other
    ensures LeftHalf(node, kids, m).nodes !! RightHalf(other, kids, m).nodes
  {
    LaidCut(kids, m, nodes);
  }

  lemma {:induction false} HalvesShow(keys: seq<Key>, ts: seq<Tree>, mid: nat, split: SplitResult,
                                      left: Layout, right: Layout, end: Node?)
    requires |ts| == |keys| + 1 && mid == |keys| / 2 < |keys| && split == SplitAt(keys[mid], right.node)
    requires Laid(left) && Laid(right) && left.nodes !! right.nodes
    requires Mirrors(left, Inner(keys[..mid], ts[..mid + 1]), FirstLeaf(right))
    requires Mirrors(right, Inner(keys[mid + 1..], ts[mid + 1..]), end)
    ensures Shows(SplitInner(keys, ts), split, left, right, end)
  {}

  /** Two nodes that hold the halves of an inner node show its split. */
  lemma {:induction false} HalvesOf(node: Node, other: Node, keys: seq<Key>, kids: seq<Layout>, ts: seq<Tree>,
                                    mid: nat, end: Node?, nodes: set<Node>)
    requires mid == |keys| / 2 < |keys| && |kids| == |ts| == |keys| + 1
    requires LaidAll(kids, nodes) && MirrorsAll(kids, ts, end, nodes)
    requires node !in nodes && other !in nodes && node != other && !node.isLeaf && !other.isLeaf
    requires node.keys == keys[..mid] && Points(node.children, kids[..mid + 1])
    requires other.keys == keys[mid + 1..] && Points(other.children, kids[mid + 1..])
    ensures var left, right := LeftHalf(node, kids, mid + 1), RightHalf(other, kids, mid + 1);
      && Laid(left) && Laid(right) && Shows(SplitInner(keys, ts), SplitAt(keys[mid], other), left, right, end)
      && left.nodes <= nodes + {node} && right.nodes <= nodes + {other}
  {
    var left, right := LeftHalf(node, kids, mid + 1), RightHalf(other, kids, mid + 1);
    HalvesApart(node, other, kids, mid + 1, nodes);
    LeftHalfMirrors(node, keys[..mid], kids, ts, mid + 1, end, nodes);
    RightHalfMirrors(other, keys[mid + 1..], kids, ts, mid + 1, end, nodes);
    HalvesShow(keys, ts, mid, SplitAt(keys[mid], other), left, right, end);
  }

  /** Cuts a full inner node in two. */
  method CutInner(node: Node, ghost kids: seq<Layout>, ghost ts: seq<Tree>, ghost end: Node?, ghost nodes: set<Node>)
    returns (split: SplitResult, ghost left: Layout, ghost right: Layout)
    requires !node.isLeaf && Points(node.children, kids) && |kids| == |ts| == |node.keys| + 1 && |node.keys| >= 1
    requires node !in nodes && LaidAll(kids, nodes) && MirrorsAll(kids, ts, end, nodes)
    modifies node
    ensures Laid(left) && Laid(right) && Shows(SplitInner(old(node.keys), ts), split, left, right, end)
    ensures left.node == node && FirstLeaf(left) == FirstLeaf(kids[0])
    ensures left.nodes <= nodes + {node} && right.nodes <= nodes + {right.node} && fresh(right.node)
  {
    ghost var mid, keys := |node.keys| / 2, node.keys;
    PointsCut(node.children, kids, mid + 1);
    split := SplitInnerNode(node);
    left, right := LeftHalf(node, kids, mid + 1), RightHalf(split.right, kids, mid + 1);
    HalvesOf(node, split.right, keys, kids, ts, mid, end, nodes);
  }

  /** Splices the separator and the right half of a split kid into the parent, cutting it when full. */
  method AdoptSplit(order: nat, node: Node, split: SplitResult,
                    ghost kids: seq<Layout>, ghost ts: seq<Tree>, ghost end: Node?, ghost nodes: set<Node>)
    returns (result: SplitResult, ghost left: Layout, ghost right: Layout)
    requires order >= 2 && !node.isLeaf && split.SplitAt? && StrictlySorted(node.keys)
    requires |kids| == |ts| == |node.keys| + 2 && |node.children| == |node.keys| + 1
    requires Points(InsertAt(node.children, LowerBound(node.keys, split.key) + 1, split.right), kids)
    requires node !in nodes && LaidAll(kids, nodes) && MirrorsAll(kids, ts, end, nodes)
    modifies node
    ensures Laid(left) && Laid(right)
    ensures var keys := InsertAt(old(node.keys), LowerBound(old(node.keys), split.key), split.key);
      Shows(if |keys| >= order then SplitInner(keys, ts) else Whole(Inner(keys, ts)), result, left, right, end)
    ensures left.node == node && FirstLeaf(left) == FirstLeaf(kids[0]) && left.nodes <= nodes + {node}
    ensures result.SplitAt? ==> right.nodes <= nodes + {right.node} && fresh(right.node)
  {
    var pos := FindIndex(node.keys, split.key);
    node.keys := InsertAt(node.keys, pos, split.key);
    node.children := InsertAt(node.children, pos + 1, split.right);
    if |node.keys| >= order {
      result, left, right := CutInner(node, kids, ts, end, nodes);
    } else {
      InnerMirrors(node, node.keys, kids, ts, end, nodes);
      left := Layout(node, kids, nodes + {node});
      result, right := NoSplit, left;
    }
  }

  // ---------- insert ----------

  /** One kid of an inner node, as the heap shows it. */
  lemma {:induction false} KidOf(lay: Layout, t: Tree, end: Node?, i: nat)
    requires Laid(lay) && Mirrors(lay, t, end) && t.Inner? && i < |t.kids|
    ensures |lay.node.children| == |lay.kids| == |t.kids| && lay.node.children[i] == lay.kids[i].node
    ensures Laid(lay.kids[i]) && Mirrors(lay.kids[i], t.kids[i], EndOf(lay.kids, i, end))
    ensures lay.kids[i].nodes <= lay.nodes - {lay.node} && Apart(lay.kids, i, lay.kids[i].nodes)
  {}

  method InsertInternal(order: nat, node: Node, key: Key, loc: Location, ghost lay: Layout, ghost t: Tree,
                        ghost d: nat, ghost lo: Bound, ghost hi: Bound, ghost end: Node?)
    returns (split: SplitResult, ghost left: Layout, ghost right: Layout, ghost added: set<Node>)
    requires order >= 2 && lay.node == node && Laid(lay) && Mirrors(lay, t, end)
    requires Good(order, t, d, lo, hi) && Shaped(t) && AtOrAbove(lo, key) && Below(key, hi)
    modifies lay.nodes
    ensures Laid(left) && Laid(right) && Shows(InsertInto(order, t, key, loc), split, left, right, end)
    ensures left.node == node && FirstLeaf(left) == FirstLeaf(lay)
    ensures fresh(added) && left.nodes + right.nodes <= lay.nodes + added
    decreases lay, 2
  {
    if node.isLeaf {
      left := lay;
      split, right := InsertIntoLeaf(order, node, key, loc, lay, t, end);
      added := if split.SplitAt? then right.nodes else {};
    } else {
      split, left, right, added := InsertIntoInner(order, node, key, loc, lay, t, d, lo, hi, end);
    }
  }

  /** Inserts below an inner node; the node itself and the other kids stay as they were. */
  method InsertIntoKid(order: nat, node: Node, i: nat, key: Key, loc: Location, ghost lay: Layout, ghost t: Tree,
                       ghost d: nat, ghost lo: Bound, ghost hi: Bound, ghost end: Node?)
    returns (split: SplitResult, ghost left: Layout, ghost right: Layout, ghost added: set<Node>)
    requires order >= 2 && lay.node == node && Laid(lay) && Mirrors(lay, t, end) && t.Inner?
    requires |t.kids| == |t.keys| + 1 && i < |t.kids| && Shaped(t.kids[i]) && d > 0
    requires Good(order, t.kids[i], d - 1, LowOf(t.keys, i, lo), HighOf(t.keys, i, hi))
    requires AtOrAbove(LowOf(t.keys, i, lo), key) && Below(key, HighOf(t.keys, i, hi))
    modifies lay.nodes - {node}
    ensures Laid(left) && Laid(right)
    ensures Shows(InsertInto(order, t.kids[i], key, loc), split, left, right, EndOf(lay.kids, i, end))
    ensures left.node == lay.kids[i].node && FirstLeaf(left) == FirstLeaf(lay.kids[i])
    ensures Apart(lay.kids, i, left.nodes) && Apart(lay.kids, i, right.nodes)
    ensures node !in left.nodes + right.nodes
    ensures fresh(added) && left.nodes + right.nodes <= lay.nodes + added
    ensures MirrorsAllBut(lay.kids, t.kids, i, end, lay.nodes - {node})
    decreases lay, 0
  {
    KidOf(lay, t, end, i);
    assert MirrorsAllBut(lay.kids, t.kids, i, end, lay.nodes - {node}) by {
      assert MirrorsAll(lay.kids, t.kids, end, lay.nodes - {node});
    }
    split, left, right, added := InsertInternal(order, node.children[i], key, loc, lay.kids[i], t.kids[i], d - 1,
                                                LowOf(t.keys, i, lo), HighOf(t.keys, i, hi), EndOf(lay.kids, i, end));
  }

  /** Brings a parent up to date with what became of its kid i. */
  method AdoptResult(order: nat, node: Node, split: SplitResult, ghost kid: Inserted, ghost kids: seq<Layout>,
                     ghost ts: seq<Tree>, ghost i: nat, ghost kidLeft: Layout, ghost kidRight: Layout,
                     ghost end: Node?, ghost nodes: set<Node>, ghost all: set<Node>)
    returns (result: SplitResult, ghost left: Layout, ghost right: Layout, ghost added: set<Node>)
    requires nodes + kidLeft.nodes + kidRight.nodes + {node} <= all
    requires order >= 2 && i < |kids| == |ts| == |node.keys| + 1 && LaidAll(kids, nodes) && node !in nodes
    requires !node.isLeaf && StrictlySorted(node.keys) && Points(node.children, kids)
    requires Laid(kidLeft) && Laid(kidRight) && Shows(kid, split, kidLeft, kidRight, EndOf(kids, i, end))
    requires kidLeft.node == kids[i].node && FirstLeaf(kidLeft) == FirstLeaf(kids[i])
    requires Apart(kids, i, kidLeft.nodes) && Apart(kids, i, kidRight.nodes) && node !in kidLeft.nodes + kidRight.nodes
    requires MirrorsAllBut(kids, ts, i, end, nodes)
    requires kid.Cut? ==> LowerBound(node.keys, kid.up) == i
    modifies node
    ensures Laid(left) && Laid(right) && Shows(Adopt(order, old(node.keys), ts, i, kid), result, left, right, end)
    ensures left.node == node && FirstLeaf(left) == FirstLeaf(kids[0])
    ensures fresh(added) && left.nodes + right.nodes <= all + added
  {
    if split.NoSplit? {
      MirrorsReplaced(kids, ts, i, kidLeft, kid.tree, end, nodes);
      InnerMirrors(node, node.keys, kids[i := kidLeft], ts[i := kid.tree], end, nodes + kidLeft.nodes);
      left := Layout(node, kids[i := kidLeft], nodes + kidLeft.nodes + {node});
      result, right, added := NoSplit, left, {};
    } else {
      MirrorsSpliced(kids, ts, i, kidLeft, kid.left, kidRight, kid.right, end, nodes);
      PointsSpliced(node.children, kids, i, kidLeft, kidRight);
      result, left, right := AdoptSplit(order, node, split, InsertAt(kids[i := kidLeft], i + 1, kidRight),
                                        InsertAt(ts[i := kid.left], i + 1, kid.right), end,
                                        nodes + kidLeft.nodes + kidRight.nodes);
      added := if result.SplitAt? then {right.node} else {};
    }
  }

  method InsertIntoInner(order: nat, node: Node, key: Key, loc: Location, ghost lay: Layout, ghost t: Tree,
                         ghost d: nat, ghost lo: Bound, ghost hi: Bound, ghost end: Node?)
    returns (split: SplitResult, ghost left: Layout, ghost right: Layout, ghost added: set<Node>)
    requires order >= 2 && lay.node == node && Laid(lay) && Mirrors(lay, t, end) && t.Inner?
    requires Good(order, t, d, lo, hi) && Shaped(t) && AtOrAbove(lo, key) && Below(key, hi)
    modifies lay.nodes
    ensures Laid(left) && Laid(right) && Shows(InsertInto(order, t, key, loc), split, left, right, end)
    ensures left.node == node && FirstLeaf(left) == FirstLeaf(lay)
    ensures fresh(added) && left.nodes + right.nodes <= lay.nodes + added
    decreases lay, 1
  {
    var i := FindChildIndex(node, key);
    ghost var nodes := lay.nodes - {node};
    KidSeparator(order, t.keys, t.kids, d, lo, hi, key, loc);
    var kidSplit;
    ghost var kidLeft, kidRight, kidAdded, parentAdded;
    kidSplit, kidLeft, kidRight, kidAdded := InsertIntoKid(order, node, i, key, loc, lay, t, d, lo, hi, end);
    ghost var kid := InsertInto(order, t.kids[i], key, loc);
    assert InsertInto(order, t, key, loc) == Adopt(order, t.keys, t.kids, i, kid);
    split, left, right, parentAdded := AdoptResult(order, node, kidSplit, kid, lay.kids, t.kids, i, kidLeft, kidRight,
                                                   end, nodes, lay.nodes + kidAdded);
    added := kidAdded + parentAdded;
  }

  // ---------- the leaf chain ----------

  ghost function Leaves(lay: Layout): seq<Node>
    decreases lay
  {
    if lay.kids == [] then [lay.node] else LeavesOf(lay.kids)
  }

  ghost function LeavesOf(kids: seq<Layout>): seq<Node>
    decreases kids
  {
    if kids == [] then [] else Leaves(kids[0]) + LeavesOf(kids[1..])
  }

  ghost function LeafTrees(t: Tree): seq<Tree>
    decreases t
  {
    match t
    case Leaf(_, _) => [t]
    case Inner(_, ts) => LeafTreesOf(ts)
  }

  ghost function LeafTreesOf(ts: seq<Tree>): seq<Tree>
    decreases ts
  {
    if ts == [] then [] else LeafTrees(ts[0]) + LeafTreesOf(ts[1..])
  }

  /** Following `next` from the first of these nodes visits exactly these leaves, then `end`. */
  ghost predicate Chained(ls: seq<Node>, lts: seq<Tree>, end: Node?)
    reads ls
  {
    |ls| == |lts| && forall j :: 0 <= j < |ls| ==> Linked(ls, lts, end, j)
  }

  ghost predicate Linked(ls: seq<Node>, lts: seq<Tree>, end: Node?, j: nat)
    requires j < |ls| == |lts|
    reads ls
  {
    && ls[j].isLeaf && lts[j] == Leaf(ls[j].keys, ls[j].values)
    && ls[j].next == if j + 1 < |ls| then ls[j + 1] else end
  }

  lemma {:induction false} ChainedConcat(a: seq<Node>, at: seq<Tree>, b: seq<Node>, bt: seq<Tree>, end: Node?)
    requires a != [] && b != [] && Chained(a, at, b[0]) && Chained(b, bt, end)
    ensures Chained(a + b, at + bt, end)
  {
    forall j | 0 <= j < |a + b| ensures Linked(a + b, at + bt, end, j) {
      if j < |a| {
        assert Linked(a, at, b[0], j);
      } else {
        assert Linked(b, bt, end, j - |a|);
      }
    }
  }

  /** The chain runs through exactly the in-order leaves. */
  lemma {:induction false} MirrorsChain(lay: Layout, t: Tree, end: Node?)
    requires Laid(lay) && Mirrors(lay, t, end)
    ensures Leaves(lay) != [] && Leaves(lay)[0] == FirstLeaf(lay) && Chained(Leaves(lay), LeafTrees(t), end)
    decreases lay
  {
    match t
    case Leaf(_, _) =>
    case Inner(_, ts) => KidsChain(lay.kids, ts, end, lay.nodes - {lay.node});
  }

  lemma {:induction false} KidsChain(kids: seq<Layout>, ts: seq<Tree>, end: Node?, nodes: set<Node>)
    requires |kids| == |ts| > 0 && LaidAll(kids, nodes) && MirrorsAll(kids, ts, end, nodes)
    ensures LeavesOf(kids) != [] && LeavesOf(kids)[0] == FirstLeaf(kids[0])
            && Chained(LeavesOf(kids), LeafTreesOf(ts), end)
    decreases kids
  {
    assert Mirrors(kids[0], ts[0], EndOf(kids, 0, end));
    MirrorsChain(kids[0], ts[0], EndOf(kids, 0, end));
    if |kids| == 1 {
      assert LeavesOf(kids) == Leaves(kids[0]) && LeafTreesOf(ts) == LeafTrees(ts[0]);
    } else {
      LaidTail(kids, ts, end, nodes);
      KidsChain(kids[1..], ts[1..], end, nodes);
      ChainedConcat(Leaves(kids[0]), LeafTrees(ts[0]), LeavesOf(kids[1..]), LeafTreesOf(ts[1..]), end);
    }
  }

  lemma {:induction false} LaidTail(kids: seq<Layout>, ts: seq<Tree>, end: Node?, nodes: set<Node>)
    requires |kids| == |ts| > 1 && LaidAll(kids, nodes) && MirrorsAll(kids, ts, end, nodes)
    ensures LaidAll(kids[1..], nodes) && MirrorsAll(kids[1..], ts[1..], end, nodes)
  {
    forall j | 0 <= j < |kids| - 1 ensures Mirrors(kids[1..][j], ts[1..][j], EndOf(kids[1..], j, end)) {
      assert EndOf(kids[1..], j, end) == EndOf(kids, j + 1, end);
    }
  }

  lemma {:induction false} LeavesHoldEntries(t: Tree)
    requires Shaped(t)
    ensures AllShaped(LeafTrees(t)) && Flatten(LeafTrees(t)) == Entries(t)
    decreases t
  {
    match t
    case Leaf(_, _) => assert [t][1..] == [];
    case Inner(_, ts) => KidLeavesHoldEntries(ts);
  }

  lemma {:induction false} KidLeavesHoldEntries(ts: seq<Tree>)
    requires AllShaped(ts)
    ensures AllShaped(LeafTreesOf(ts)) && Flatten(LeafTreesOf(ts)) == Flatten(ts)
    decreases ts
  {
    if ts != [] {
      LeavesHoldEntries(ts[0]);
      KidLeavesHoldEntries(ts[1..]);
      FlattenConcat(LeafTrees(ts[0]), LeafTreesOf(ts[1..]));
    }
  }

  lemma {:induction false} LeavesAround(kids: seq<Layout>, i: nat)
    requires i < |kids|
    ensures LeavesOf(kids) == LeavesOf(kids[..i]) + Leaves(kids[i]) + LeavesOf(kids[i + 1..])
    decreases i
  {
    if i > 0 {
      LeavesAround(kids[1..], i - 1);
      assert kids[..i][1..] == kids[1..][..i - 1] && kids[1..][i..] == kids[i + 1..];
    }
  }

  lemma {:induction false} LeafTreesAround(ts: seq<Tree>, i: nat)
    requires i < |ts|
    ensures LeafTreesOf(ts) == LeafTreesOf(ts[..i]) + LeafTrees(ts[i]) + LeafTreesOf(ts[i + 1..])
    decreases i
  {
    if i > 0 {
      LeafTreesAround(ts[1..], i - 1);
      assert ts[..i][1..] == ts[1..][..i - 1] && ts[1..][i..] == ts[i + 1..];
    }
  }

  // ---------- descending to a leaf ----------

  /** A subtree reached by descending from the root, with the leaves to its left and right. */
  datatype Place = Place(lay: Layout, tree: Tree, depth: nat, lo: Bound, hi: Bound, end: Node?,
                         before: seq<Node>, beforeTrees: seq<Tree>, after: seq<Node>, afterTrees: seq<Tree>)

  ghost predicate SoundPlace(order: nat, p: Place)
    reads p.lay.nodes
  {
    Laid(p.lay) && Mirrors(p.lay, p.tree, p.end) && Shaped(p.tree) && Good(order, p.tree, p.depth, p.lo, p.hi)
  }

  ghost predicate Positioned(p: Place, lay: Layout, t: Tree) {
    && Leaves(lay) == p.before + Leaves(p.lay) + p.after && |p.before| == |p.beforeTrees|
    && LeafTrees(t) == p.beforeTrees + LeafTrees(p.tree) + p.afterTrees
    && AllShaped(p.beforeTrees) && AllShaped(p.afterTrees)
  }

  /** Everything left of the place is below k, everything right of it above. */
  ghost predicate Brackets(p: Place, k: Key) {
    && AllShaped(p.beforeTrees) && AllShaped(p.afterTrees)
    && AllBelow(Flatten(p.beforeTrees), k) && AllAbove(k, Flatten(p.afterTrees))
  }

  ghost function KidPlace(p: Place, i: nat): Place
    requires p.tree.Inner? && i < |p.tree.kids| == |p.lay.kids| == |p.tree.keys| + 1 && p.depth > 0
  {
    Place(p.lay.kids[i], p.tree.kids[i], p.depth - 1, LowOf(p.tree.keys, i, p.lo), HighOf(p.tree.keys, i, p.hi),
          EndOf(p.lay.kids, i, p.end),
          p.before + LeavesOf(p.lay.kids[..i]), p.beforeTrees + LeafTreesOf(p.tree.kids[..i]),
          LeavesOf(p.lay.kids[i + 1..]) + p.after, LeafTreesOf(p.tree.kids[i + 1..]) + p.afterTrees)
  }

  lemma {:induction false} SameLeafCount(kids: seq<Layout>, ts: seq<Tree>, end: Node?, nodes: set<Node>, i: nat)
    requires |kids| == |ts| && i < |kids| && LaidAll(kids, nodes) && MirrorsAll(kids, ts, end, nodes)
    ensures |LeavesOf(kids[..i])| == |LeafTreesOf(ts[..i])|
  {
    if i > 0 {
      MirrorsCut(kids, ts, i, end, nodes);
      KidsChain(kids[..i], ts[..i], FirstLeaf(kids[i]), Covered(kids[..i]));
    }
  }

  lemma {:induction false} StepDown(order: nat, p: Place, i: nat)
    requires SoundPlace(order, p) && p.tree.Inner? && i < |p.tree.kids|
    ensures |p.lay.kids| == |p.tree.kids| == |p.tree.keys| + 1 && p.depth > 0
    ensures |p.lay.node.children| == |p.lay.kids| && p.lay.node.children[i] == KidPlace(p, i).lay.node
    ensures SoundPlace(order, KidPlace(p, i))
  {
    KidOf(p.lay, p.tree, p.end, i);
  }

  lemma {:induction false} Regrouped<T>(before: seq<T>, a: seq<T>, b: seq<T>, c: seq<T>, after: seq<T>)
    ensures before + (a + b + c) + after == (before + a) + b + (c + after)
  {}

  lemma {:induction false} AllShapedConcat(a: seq<Tree>, b: seq<Tree>)
    requires AllShaped(a) && AllShaped(b)
    ensures AllShaped(a + b)
  {}

  lemma {:induction false} StepPosition(order: nat, p: Place, lay: Layout, t: Tree, i: nat)
    requires SoundPlace(order, p) && Positioned(p, lay, t) && p.tree.Inner? && i < |p.tree.kids|
    requires |p.lay.kids| == |p.tree.kids| == |p.tree.keys| + 1 && p.depth > 0
    ensures Positioned(KidPlace(p, i), lay, t)
  {
    var kids, ts, nodes := p.lay.kids, p.tree.kids, p.lay.nodes - {p.lay.node};
    LeavesAround(kids, i);
    LeafTreesAround(ts, i);
    SameLeafCount(kids, ts, p.end, nodes, i);
    Regrouped(p.before, LeavesOf(kids[..i]), Leaves(kids[i]), LeavesOf(kids[i + 1..]), p.after);
    Regrouped(p.beforeTrees, LeafTreesOf(ts[..i]), LeafTrees(ts[i]), LeafTreesOf(ts[i + 1..]), p.afterTrees);
    KidLeavesHoldEntries(ts[..i]);
    KidLeavesHoldEntries(ts[i + 1..]);
    AllShapedConcat(p.beforeTrees, LeafTreesOf(ts[..i]));
    AllShapedConcat(LeafTreesOf(ts[i + 1..]), p.afterTrees);
  }

  lemma {:induction false} BelowExtended(a: seq<Tree>, ts: seq<Tree>, k: Key)
    requires AllShaped(a) && AllShaped(ts) && AllBelow(Flatten(a), k) && AllBelow(Flatten(ts), k)
    ensures AllShaped(a + LeafTreesOf(ts)) && AllBelow(Flatten(a + LeafTreesOf(ts)), k)
  {
    KidLeavesHoldEntries(ts);
    FlattenConcat(a, LeafTreesOf(ts));
  }

  lemma {:induction false} AboveExtended(ts: seq<Tree>, b: seq<Tree>, k: Key)
    requires AllShaped(ts) && AllShaped(b) && AllAbove(k, Flatten(ts)) && AllAbove(k, Flatten(b))
    ensures AllShaped(LeafTreesOf(ts) + b) && AllAbove(k, Flatten(LeafTreesOf(ts) + b))
  {
    KidLeavesHoldEntries(ts);
    FlattenConcat(LeafTreesOf(ts), b);
  }

  lemma {:induction false} StepBelow(order: nat, p: Place, k: Key, i: nat)
    requires p.tree.Inner? && Shaped(p.tree) && Good(order, p.tree, p.depth, p.lo, p.hi) && Brackets(p, k)
    requires |p.tree.kids| == |p.tree.keys| + 1 && p.depth > 0 && i == UpperBound(p.tree.keys, k)
    ensures AllShaped(p.beforeTrees + LeafTreesOf(p.tree.kids[..i]))
    ensures AllBelow(Flatten(p.beforeTrees + LeafTreesOf(p.tree.kids[..i])), k)
  {
    LeftOfDescent(order, p.tree.keys, p.tree.kids, p.depth - 1, p.lo, p.hi, k);
    BelowExtended(p.beforeTrees, p.tree.kids[..i], k);
  }

  lemma {:induction false} StepAbove(order: nat, p: Place, k: Key, i: nat)
    requires p.tree.Inner? && Shaped(p.tree) && Good(order, p.tree, p.depth, p.lo, p.hi) && Brackets(p, k)
    requires |p.tree.kids| == |p.tree.keys| + 1 && p.depth > 0 && i == UpperBound(p.tree.keys, k)
    ensures AllShaped(LeafTreesOf(p.tree.kids[i + 1..]) + p.afterTrees)
    ensures AllAbove(k, Flatten(LeafTreesOf(p.tree.kids[i + 1..]) + p.afterTrees))
  {
    RightOfDescent(order, p.tree.keys, p.tree.kids, p.depth - 1, p.lo, p.hi, k);
    AboveExtended(p.tree.kids[i + 1..], p.afterTrees, k);
  }

  lemma {:induction false} StepBrackets(order: nat, p: Place, k: Key)
    requires p.tree.Inner? && Shaped(p.tree) && Good(order, p.tree, p.depth, p.lo, p.hi) && Brackets(p, k)
    requires |p.tree.kids| == |p.lay.kids| == |p.tree.keys| + 1 && p.depth > 0
    ensures Brackets(KidPlace(p, UpperBound(p.tree.keys, k)), k)
  {
    var i := UpperBound(p.tree.keys, k);
    StepBelow(order, p, k, i);
    StepAbove(order, p, k, i);
  }

  // ---------- the index ----------

  ghost predicate NoneTooLow(es: seq<Entry>, iv: Interval) {
    forall i :: 0 <= i < |es| ==> !iv.TooLow(es[i].key)
  }

  ghost predicate Precedes(a: seq<Entry>, b: seq<Entry>) {
    forall i, j :: 0 <= i < |a| && 0 <= j < |b| ==> a[i].key < b[j].key
  }

  /** One more entry of a leaf that is neither too low nor too high. */
  lemma {:induction false} SelectOneMore(es: seq<Entry>, from: nat, i: nat, iv: Interval)
    requires from <= i < |es| && iv.Contains(es[i].key)
    ensures Select(es[from..i + 1], iv) == Select(es[from..i], iv) + es[i].locations
  {
    assert es[from..i + 1] == es[from..i] + [es[i]];
    SelectConcat(es[from..i], [es[i]], iv);
    assert [es[i]][1..] == [];
  }

  lemma {:induction false} SelectStopsAt(es: seq<Entry>, from: nat, i: nat, iv: Interval)
    requires from <= i <= |es| && forall j :: i <= j < |es| ==> !iv.Contains(es[j].key)
    ensures Select(es[from..], iv) == Select(es[from..i], iv)
  {
    assert es[from..] == es[from..i] + es[i..];
    SelectConcat(es[from..i], es[i..], iv);
    SelectNothing(es[i..], iv);
  }

  /** What a range still has to yield from entry `from` of a leaf on, until a key is past the interval. */
  method YieldLeaf(leaf: Node, from: nat, iv: Interval) returns (out: seq<Location>, past: bool)
    requires |leaf.values| == |leaf.keys| && from <= |leaf.keys|
    requires StrictlySorted(leaf.keys) && NoneTooLow(LeafEntries(leaf.keys, leaf.values)[from..], iv)
    ensures out == Select(LeafEntries(leaf.keys, leaf.values)[from..], iv)
    ensures past <==> exists j :: from <= j < |leaf.keys| && iv.TooHigh(leaf.keys[j])
  {
    ghost var es := LeafEntries(leaf.keys, leaf.values);
    var i := from;
    out, past := [], false;
    while i < |leaf.keys| && !iv.TooHigh(leaf.keys[i])
      invariant from <= i <= |leaf.keys|
      invariant forall j :: from <= j < i ==> !iv.TooHigh(leaf.keys[j])
      invariant out == Select(es[from..i], iv)
    {
      assert es[from..][i - from].key == leaf.keys[i];
      SelectOneMore(es, from, i, iv);
      out := out + leaf.values[i];
      i := i + 1;
    }
    past := i < |leaf.keys|;
    SelectStopsAt(es, from, i, iv);
  }

  /** A new root over the two halves of the old one. */
  method Grow(oldRoot: Node, split: SplitResult, ghost ins: Inserted, ghost left: Layout, ghost right: Layout)
    returns (newRoot: Node, ghost lay: Layout)
    requires split.SplitAt? && ins.Cut? && Laid(left) && Laid(right) && left.node == oldRoot
    requires Shows(ins, split, left, right, null)
    ensures lay.node == newRoot && Laid(lay) && lay.nodes == left.nodes + right.nodes + {newRoot} && fresh(newRoot)
    ensures Mirrors(lay, Rooted(ins), null)
  {
    newRoot := new Node(false);
    newRoot.keys, newRoot.children := [split.key], [oldRoot, split.right];
    InnerMirrors(newRoot, [split.key], [left, right], [ins.left, ins.right], null, left.nodes + right.nodes);
    lay := Layout(newRoot, [left, right], left.nodes + right.nodes + {newRoot});
  }

  /** What the new root of an insert is, on values. */
  lemma {:induction false} RootAfterInsert(order: nat, t: Tree, d: nat, key: Key, loc: Location)
    requires order >= 2 && Good(order, t, d, Open, Open) && Shaped(t)
    ensures var ins := InsertInto(order, t, key, loc);
      && Good(order, Rooted(ins), if ins.Cut? then d + 1 else d, Open, Open)
      && Shaped(Rooted(ins)) && Entries(Rooted(ins)) == Put(Entries(t), key, loc)
  {
    var ins := InsertInto(order, t, key, loc);
    InsertGood(order, t, d, Open, Open, key, loc);
    InsertIsPut(order, t, d, Open, Open, key, loc);
    RootedEntries(ins);
    if ins.Cut? { RootOverCut(order, ins.left, ins.up, ins.right, d); }
  }

  lemma {:induction false} RootOverCut(order: nat, left: Tree, up: Key, right: Tree, d: nat)
    requires order >= 2 && GoodInserted(order, Cut(left, up, right), d, Open, Open)
    ensures Good(order, Inner([up], [left, right]), d + 1, Open, Open)
  {}

  // ---------- ranges ----------

  /** Where a range starts: leaf j of the chain, entry `from` of it. */
  ghost predicate StartsAt(ls: seq<Node>, lts: seq<Tree>, j: nat, from: nat, iv: Interval) {
    && j < |ls| == |lts| && AllShaped(lts) && lts[j].Leaf? && from <= |lts[j].keys|
    && Select(Flatten(lts[..j]), iv) == []
    && Select(Entries(lts[j])[..from], iv) == [] && NoneTooLow(Entries(lts[j])[from..], iv)
    && NoneTooLow(Flatten(lts[j + 1..]), iv)
  }

  /** A whole tree on the heap: its value, its depth and its nodes. */
  datatype Snapshot = Snapshot(tree: Tree, depth: nat, layout: Layout)

  ghost predicate Sound(order: nat, root: Node, s: Snapshot)
    reads s.layout.nodes
  {
    && order >= 2 && s.layout.node == root && Laid(s.layout) && Mirrors(s.layout, s.tree, null)
    && Good(order, s.tree, s.depth, Open, Open) && Shaped(s.tree)
  }

  method InsertAtRoot(order: nat, root: Node, key: Key, loc: Location, ghost s: Snapshot)
    returns (newRoot: Node, ghost s': Snapshot, ghost added: set<Node>)
    requires Sound(order, root, s)
    modifies s.layout.nodes
    ensures Sound(order, newRoot, s') && Entries(s'.tree) == Put(Entries(s.tree), key, loc)
    ensures fresh(added) && s'.layout.nodes <= s.layout.nodes + added
  {
    var result;
    ghost var left, right;
    ghost var ins := InsertInto(order, s.tree, key, loc);
    RootAfterInsert(order, s.tree, s.depth, key, loc);
    result, left, right, added := InsertInternal(order, root, key, loc, s.layout, s.tree, s.depth, Open, Open, null);
    if result.SplitAt? {
      ghost var lay;
      newRoot, lay := Grow(root, result, ins, left, right);
      s' := Snapshot(Rooted(ins), s.depth + 1, lay);
      added := added + {newRoot};
    } else {
      newRoot, s' := root, Snapshot(ins.tree, s.depth, left);
    }
  }

  lemma {:induction false} SeekBelow(p: Place, iv: Interval, pos: nat)
    requires p.tree.Leaf? && Shaped(p.tree) && StrictlySorted(p.tree.keys) && iv.low.At? && Brackets(p, iv.low.key)
    requires var lb := LowerBound(p.tree.keys, iv.low.key);
      pos == if !iv.lowInclusive && lb < |p.tree.keys| && p.tree.keys[lb] == iv.low.key then lb + 1 else lb
    ensures Select(Flatten(p.beforeTrees), iv) == [] && Select(Entries(p.tree)[..pos], iv) == []
    ensures NoneTooLow(Entries(p.tree)[pos..], iv) && NoneTooLow(Flatten(p.afterTrees), iv)
  {
    SelectNothing(Flatten(p.beforeTrees), iv);
    SelectNothing(Entries(p.tree)[..pos], iv);
  }

  lemma {:induction false} PlacedStart(p: Place, lay: Layout, t: Tree, pos: nat, iv: Interval)
    requires p.tree.Leaf? && Shaped(p.tree) && p.lay.kids == [] && Positioned(p, lay, t) && pos <= |p.tree.keys|
    requires Select(Flatten(p.beforeTrees), iv) == [] && Select(Entries(p.tree)[..pos], iv) == []
    requires NoneTooLow(Entries(p.tree)[pos..], iv) && NoneTooLow(Flatten(p.afterTrees), iv)
    requires |Leaves(lay)| == |LeafTrees(t)| && AllShaped(LeafTrees(t))
    ensures StartsAt(Leaves(lay), LeafTrees(t), |p.before|, pos, iv) && Leaves(lay)[|p.before|] == p.lay.node
  {
    var j := |p.before|;
    assert LeafTrees(t)[..j] == p.beforeTrees && LeafTrees(t)[j + 1..] == p.afterTrees;
  }

  lemma {:induction false} SoundChain(order: nat, root: Node, s: Snapshot)
    requires Sound(order, root, s)
    ensures Chained(Leaves(s.layout), LeafTrees(s.tree), null) && |Leaves(s.layout)| == |LeafTrees(s.tree)|
    ensures AllShaped(LeafTrees(s.tree)) && Flatten(LeafTrees(s.tree)) == Entries(s.tree) && Ascending(Entries(s.tree))
  {
    MirrorsChain(s.layout, s.tree, null);
    LeavesHoldEntries(s.tree);
    EntriesAscend(order, s.tree, s.depth, Open, Open);
  }

  method SeekLow(order: nat, root: Node, iv: Interval, ghost s: Snapshot) returns (leaf: Node, pos: nat, ghost j: nat)
    requires Sound(order, root, s) && iv.low.At?
    requires |Leaves(s.layout)| == |LeafTrees(s.tree)| && AllShaped(LeafTrees(s.tree))
    ensures StartsAt(Leaves(s.layout), LeafTrees(s.tree), j, pos, iv) && Leaves(s.layout)[j] == leaf
  {
    leaf := root;
    ghost var p := RootPlace(s);
    assert Positioned(p, s.layout, s.tree);
    while !leaf.isLeaf
      invariant SoundPlace(order, p) && p.lay.node == leaf
      invariant Positioned(p, s.layout, s.tree) && Brackets(p, iv.low.key)
      decreases p.tree
    {
      var idx := FindChildIndex(leaf, iv.low.key);
      StepDown(order, p, idx);
      StepPosition(order, p, s.layout, s.tree, idx);
      StepBrackets(order, p, iv.low.key);
      p, leaf := KidPlace(p, idx), leaf.children[idx];
    }
    pos := FindIndex(leaf.keys, iv.low.key);
    if !iv.lowInclusive && pos < |leaf.keys| && leaf.keys[pos] == iv.low.key {
      pos := pos + 1;
    }
    j := |p.before|;
    SeekBelow(p, iv, pos);
    PlacedStart(p, s.layout, s.tree, pos, iv);
  }

  method SeekFirst(order: nat, root: Node, iv: Interval, ghost s: Snapshot) returns (leaf: Node, ghost j: nat)
    requires Sound(order, root, s) && iv.low.Open?
    requires |Leaves(s.layout)| == |LeafTrees(s.tree)| && AllShaped(LeafTrees(s.tree))
    ensures StartsAt(Leaves(s.layout), LeafTrees(s.tree), j, 0, iv) && Leaves(s.layout)[j] == leaf
  {
    leaf := root;
    ghost var p := RootPlace(s);
    assert Positioned(p, s.layout, s.tree);
    while !leaf.isLeaf
      invariant SoundPlace(order, p) && p.lay.node == leaf
      invariant Positioned(p, s.layout, s.tree) && p.beforeTrees == []
      decreases p.tree
    {
      StepDown(order, p, 0);
      StepPosition(order, p, s.layout, s.tree, 0);
      p, leaf := KidPlace(p, 0), leaf.children[0];
    }
    j := |p.before|;
    PlacedStart(p, s.layout, s.tree, 0, iv);
  }

  // ---------- walking the chain ----------

  lemma {:induction false} AscendingPart(a: seq<Entry>, b: seq<Entry>, c: seq<Entry>)
    requires Ascending(a + b + c)
    ensures Ascending(b) && Precedes(b, c)
  {
    var es := a + b + c;
    assert forall i :: 0 <= i < |b| ==> es[|a| + i] == b[i];
    assert forall j :: 0 <= j < |c| ==> es[|a| + |b| + j] == c[j];
  }

  lemma {:induction false} LeafAmong(lts: seq<Tree>, j: nat)
    requires AllShaped(lts) && j < |lts| && lts[j].Leaf? && Ascending(Flatten(lts))
    ensures Flatten(lts[..j + 1]) == Flatten(lts[..j]) + Entries(lts[j])
    ensures StrictlySorted(lts[j].keys)
    ensures Precedes(Entries(lts[j]), Flatten(lts[j + 1..]))
    ensures Flatten(lts) == Flatten(lts[..j + 1]) + Flatten(lts[j + 1..])
  {
    FlattenAround(lts, j);
    FlattenAround(lts[..j + 1], j);
    assert lts[..j + 1][..j] == lts[..j] && lts[..j + 1][j + 1..] == [];
    AscendingPart(Flatten(lts[..j]), Entries(lts[j]), Flatten(lts[j + 1..]));
    forall i, m | 0 <= i < m < |lts[j].keys| ensures lts[j].keys[i] < lts[j].keys[m] {
      assert Entries(lts[j])[i].key < Entries(lts[j])[m].key;
    }
  }

  lemma {:induction false} SelectFrom(es: seq<Entry>, from: nat, iv: Interval)
    requires from <= |es| && Select(es[..from], iv) == []
    ensures Select(es, iv) == Select(es[from..], iv)
  {
    assert es == es[..from] + es[from..];
    SelectConcat(es[..from], es[from..], iv);
  }

  lemma {:induction false} NextStart(ls: seq<Node>, lts: seq<Tree>, j: nat, iv: Interval)
    requires |ls| == |lts| && AllShaped(lts) && j + 1 < |ls| && NoneTooLow(Flatten(lts[j + 1..]), iv)
    ensures NoneTooLow(Entries(lts[j + 1]), iv) && NoneTooLow(Flatten(lts[j + 2..]), iv)
  {
    assert lts[j + 1..][1..] == lts[j + 2..];
    var a, b := Entries(lts[j + 1]), Flatten(lts[j + 2..]);
    assert Flatten(lts[j + 1..]) == a + b;
    assert forall i :: 0 <= i < |a| ==> (a + b)[i] == a[i];
    assert forall i :: 0 <= i < |b| ==> (a + b)[|a| + i] == b[i];
  }

  lemma {:induction false} SelectLeaf(lts: seq<Tree>, j: nat, from: nat, iv: Interval)
    requires AllShaped(lts) && j < |lts| && lts[j].Leaf? && Ascending(Flatten(lts)) && from <= |lts[j].keys|
    requires Select(Entries(lts[j])[..from], iv) == []
    ensures Select(Flatten(lts[..j + 1]), iv) == Select(Flatten(lts[..j]), iv) + Select(Entries(lts[j])[from..], iv)
  {
    LeafAmong(lts, j);
    SelectFrom(Entries(lts[j]), from, iv);
    SelectConcat(Flatten(lts[..j]), Entries(lts[j]), iv);
  }

  /** Once a key is past the interval, nothing after its leaf is selected. */
  lemma {:induction false} PastTheEnd(lts: seq<Tree>, j: nat, m: nat, iv: Interval)
    requires AllShaped(lts) && j < |lts| && lts[j].Leaf? && Ascending(Flatten(lts)) && m < |lts[j].keys|
    requires iv.TooHigh(lts[j].keys[m])
    ensures Select(Flatten(lts), iv) == Select(Flatten(lts[..j + 1]), iv)
  {
    LeafAmong(lts, j);
    var rest := Flatten(lts[j + 1..]);
    assert iv.TooHigh(Entries(lts[j])[m].key);
    assert forall i :: 0 <= i < |rest| ==> !iv.Contains(rest[i].key);
    SelectNothing(rest, iv);
    SelectConcat(Flatten(lts[..j + 1]), rest, iv);
  }

  /** The part of the walk still ahead. */
  ghost predicate Ahead(ls: seq<Node>, lts: seq<Tree>, j: nat, from: nat, iv: Interval)
    requires |ls| == |lts| && AllShaped(lts) && j < |ls|
  {
    && lts[j].Leaf? && from <= |lts[j].keys| && Select(Entries(lts[j])[..from], iv) == []
    && NoneTooLow(Entries(lts[j])[from..], iv) && NoneTooLow(Flatten(lts[j + 1..]), iv)
  }

  lemma {:induction false} NextAhead(ls: seq<Node>, lts: seq<Tree>, j: nat, from: nat, iv: Interval)
    requires |ls| == |lts| && AllShaped(lts) && j + 1 < |ls| && Ahead(ls, lts, j, from, iv) && lts[j + 1].Leaf?
    ensures Ahead(ls, lts, j + 1, 0, iv)
  {
    NextStart(ls, lts, j, iv);
    assert Entries(lts[j + 1])[0..] == Entries(lts[j + 1]);
  }

  /** Yields one leaf and says whether the walk is over. */
  method WalkLeaf(leaf: Node, from: nat, iv: Interval, ghost ls: seq<Node>, ghost lts: seq<Tree>, ghost j: nat)
    returns (more: seq<Location>, past: bool)
    requires Chained(ls, lts, null) && AllShaped(lts) && Ascending(Flatten(lts))
    requires j < |ls| && ls[j] == leaf && Ahead(ls, lts, j, from, iv)
    ensures Select(Flatten(lts[..j + 1]), iv) == Select(Flatten(lts[..j]), iv) + more
    ensures past ==> Select(Flatten(lts), iv) == Select(Flatten(lts[..j + 1]), iv)
    ensures leaf.next == if j + 1 < |ls| then ls[j + 1] else null
    ensures j + 1 < |ls| ==> Ahead(ls, lts, j + 1, 0, iv)
  {
    assert Linked(ls, lts, null, j);
    LeafAmong(lts, j);
    more, past := YieldLeaf(leaf, from, iv);
    SelectLeaf(lts, j, from, iv);
    if past {
      ghost var m :| from <= m < |leaf.keys| && iv.TooHigh(leaf.keys[m]);
      PastTheEnd(lts, j, m, iv);
    }
    if j + 1 < |ls| {
      assert Linked(ls, lts, null, j + 1);
      NextAhead(ls, lts, j, from, iv);
    }
  }

  method Walk(leaf: Node, from: nat, iv: Interval, ghost ls: seq<Node>, ghost lts: seq<Tree>, ghost start: nat)
    returns (out: seq<Location>)
    requires Chained(ls, lts, null) && StartsAt(ls, lts, start, from, iv) && ls[start] == leaf
    requires Ascending(Flatten(lts))
    ensures out == Select(Flatten(lts), iv)
  {
    var current: Node?, i: nat := leaf, from;
    ghost var j := start;
    out := [];
    while current != null
      invariant j <= |ls| && current == if j < |ls| then ls[j] else null
      invariant j < |ls| ==> Ahead(ls, lts, j, i, iv)
      invariant out == Select(Flatten(lts[..j]), iv)
      decreases |ls| - j
    {
      var more, past := WalkLeaf(current, i, iv, ls, lts, j);
      out := out + more;
      if past { return; }
      current, i := current.next, 0;
      j := j + 1;
    }
    assert lts[..j] == lts;
  }

  class BTreeIndex {
    var root: Node
    const order: nat
    ghost var now: Snapshot

    /** The order is at least 2: with order 1 a split leaf would leave nothing on the right. */
    ghost predicate Valid()
      reads this, now.layout.nodes
    {
      Sound(order, root, now)
    }

    ghost function Contents(): seq<Entry>
      requires Valid()
      reads this, now.layout.nodes
    {
      Entries(now.tree)
    }

    constructor (order: nat)
      requires order >= 2
      ensures Valid() && this.order == order && Contents() == [] && fresh(now.layout.nodes)
    {
      var leaf := new Node(true);
      this.order := order;
      root := leaf;
      now := Snapshot(Leaf([], []), 0, Layout(leaf, [], {leaf}));
    }

    method Insert(key: Key, rowLocation: Location)
      requires Valid()
      modifies this, now.layout.nodes
      ensures Valid() && fresh(now.layout.nodes - old(now.layout.nodes))
      ensures Contents() == Put(old(Contents()), key, rowLocation)
    {
      ghost var added;
      root, now, added := InsertAtRoot(order, root, key, rowLocation, now);
    }

    method Search(key: Key) returns (locations: seq<Location>)
      requires Valid()
      ensures locations == Lookup(Contents(), key)
    {
      var node := root;
      ghost var p := RootPlace(now);
      while !node.isLeaf
        invariant SoundPlace(order, p) && p.lay.node == node
        invariant Lookup(Entries(p.tree), key) == Lookup(Contents(), key)
        decreases p.tree
      {
        var idx := FindChildIndex(node, key);
        DescentFinds(order, p.tree.keys, p.tree.kids, p.depth, p.lo, p.hi, key);
        StepDown(order, p, idx);
        p, node := KidPlace(p, idx), node.children[idx];
      }
      LeafFinds(node.keys, node.values, key);
      var pos := FindIndex(node.keys, key);
      if pos < |node.keys| && node.keys[pos] == key {
        return node.values[pos];
      }
      return [];
    }

    /** A range in one piece: the source yields the same locations one at a time. */
    method Range(iv: Interval) returns (out: seq<Location>)
      requires Valid()
      ensures out == Select(Contents(), iv)
    {
      SoundChain(order, root, now);
      var leaf, pos := root, 0;
      ghost var j;
      if iv.low.At? {
        leaf, pos, j := SeekLow(order, root, iv, now);
      } else {
        leaf, j := SeekFirst(order, root, iv, now);
      }
      SoundChain(order, root, now);
      out := Walk(leaf, pos, iv, Leaves(now.layout), LeafTrees(now.tree), j);
    }
  }

  ghost function RootPlace(s: Snapshot): Place {
    Place(s.layout, s.tree, s.depth, Open, Open, null, [], [], [], [])
  }

  // ---------- whole histories ----------

  /** An index after any sequence of inserts. */
  method InsertAll(order: nat, ops: seq<Insertion>) returns (index: BTreeIndex)
    requires order >= 2
    ensures index.Valid() && fresh(index) && fresh(index.now.layout.nodes) && index.Contents() == PutAll(ops)
  {
    index := new BTreeIndex(order);
    for i := 0 to |ops|
      invariant fresh(index) && fresh(index.now.layout.nodes) && index.Valid() && index.Contents() == PutAll(ops[..i])
    {
      assert ops[..i + 1][..i] == ops[..i];
      index.Insert(ops[i].key, ops[i].location);
    }
    assert ops[..|ops|] == ops;
  }

  /** A search finds exactly the locations inserted under the key, oldest first. */
  method SearchAfter(order: nat, ops: seq<Insertion>, key: Key) returns (locations: seq<Location>)
    requires order >= 2
    ensures locations == InsertedUnder(ops, key)
  {
    var index := InsertAll(order, ops);
    locations := index.Search(key);
    HistoryRecovered(ops, key);
  }

  /** A range yields exactly the locations inserted under keys of the interval, in ascending order of their keys. */
  method RangeAfter(order: nat, ops: seq<Insertion>, iv: Interval)
      returns (out: seq<Location>, ghost tagged: seq<Insertion>)
    requires order >= 2
    ensures |tagged| == |out| && forall i :: 0 <= i < |out| ==> tagged[i].location == out[i]
    ensures multiset(tagged) == multiset(InsertedWithin(ops, iv))
    ensures forall i, j :: 0 <= i <= j < |tagged| ==> tagged[i].key <= tagged[j].key
  {
    var index := InsertAll(order, ops);
    out := index.Range(iv);
    tagged := SelectTagged(PutAll(ops), iv);
    RangeRecovered(ops, iv);
  }
}
