/** The B+ tree on linked nodes, changed in place: node vectors are edited, leaves are
    relinked on a split, and the root is reassigned.  Every method is proved against the
    value-level functions of module BTree, for the whole linked structure. */
module BPlusTree {
  import opened BTree
  import opened BTreeLaws
  import opened Sequences

  class Node {
    var isLeaf: bool
    var keys: seq<int>
    var values: seq<int>
    var children: seq<Node>
    var next: Node?

    constructor (leaf: bool)
      ensures isLeaf == leaf && keys == [] && values == [] && children == [] && next == null
    {
      isLeaf, keys, values, children, next := leaf, [], [], [], null;
    }
  }

  /** Which objects make up a subtree, in its shape. */
  datatype Layout = LeafAt(node: Node) | InnerAt(node: Node, kids: seq<Layout>)

  ghost function Nodes(s: Layout): set<Node> {
    match s
    case LeafAt(n) => {n}
    case InnerAt(n, kids) => {n} + NodesOf(kids)
  }

  ghost function NodesOf(ss: seq<Layout>): set<Node> {
    set i, n | 0 <= i < |ss| && n in Nodes(ss[i]) :: n
  }

  /** No object occurs twice. */
  ghost predicate Apart(s: Layout) {
    s.InnerAt? ==>
      && |s.kids| > 0
      && s.node !in NodesOf(s.kids)
      && ApartKids(s.kids)
  }

  ghost predicate ApartKids(ss: seq<Layout>) {
    && (forall i :: 0 <= i < |ss| ==> Apart(ss[i]))
    && forall i, j :: 0 <= i < j < |ss| ==> Nodes(ss[i]) !! Nodes(ss[j])
  }

  ghost function Roots(ss: seq<Layout>): seq<Node> {
    seq(|ss|, i requires 0 <= i < |ss| => ss[i].node)
  }

  /** The objects of s hold exactly the tree t. */
  ghost predicate Holds(s: Layout, t: Tree)
    reads Nodes(s)
    decreases s, 1
  {
    match s
    case LeafAt(n) => t.Leaf? && n.isLeaf && n.keys == t.keys && n.values == t.rows && n.children == []
    case InnerAt(n, kids) =>
      t.Inner? && !n.isLeaf && n.keys == t.keys && n.children == Roots(kids) && KidsHold(kids, t.kids)
  }

  ghost predicate KidsHold(ss: seq<Layout>, ts: seq<Tree>)
    reads NodesOf(ss)
    decreases ss, 0
  {
    |ss| == |ts| && forall i :: 0 <= i < |ss| ==> Nodes(ss[i]) <= NodesOf(ss) && Holds(ss[i], ts[i])
  }

  /** The leaf objects, left to right. */
  ghost function LeafNodes(s: Layout): seq<Node>
    decreases s, 1
  {
    match s
    case LeafAt(n) => [n]
    case InnerAt(_, kids) => LeafNodesOf(kids)
  }

  ghost function LeafNodesOf(ss: seq<Layout>): seq<Node>
    decreases ss, 0
  {
    if ss == [] then [] else LeafNodes(ss[0]) + LeafNodesOf(ss[1..])
  }

  /** Following next runs through the leaves in order and then reaches `after`. */
  ghost predicate Chained(leaves: seq<Node>, after: Node?)
    reads leaves
  {
    forall i {:trigger leaves[i]} :: 0 <= i < |leaves| ==> leaves[i].next == Succ(leaves, i, after)
  }

  ghost function Succ(leaves: seq<Node>, i: nat, after: Node?): Node?
    requires i < |leaves|
  {
    if i + 1 < |leaves| then leaves[i + 1] else after
  }

  // ---------- Layout facts ----------

  lemma {:induction false} KidNodes(s: Layout, i: nat)
    requires s.InnerAt? && i < |s.kids|
    ensures Nodes(s.kids[i]) <= NodesOf(s.kids) <= Nodes(s)
    ensures s.kids[i].node in Nodes(s.kids[i])
  {
    forall n | n in Nodes(s.kids[i]) ensures n in NodesOf(s.kids) {}
  }

  lemma {:induction false} LeafNodesConcat(a: seq<Layout>, b: seq<Layout>)
    ensures LeafNodesOf(a + b) == LeafNodesOf(a) + LeafNodesOf(b)
  {
    if a == [] {
      assert a + b == b;
    } else {
      assert (a + b)[0] == a[0] && (a + b)[1..] == a[1..] + b;
      LeafNodesConcat(a[1..], b);
    }
  }

  lemma {:induction false} LeafNodesOfOne(s: Layout)
    ensures LeafNodesOf([s]) == LeafNodes(s)
  {
    assert LeafNodesOf([s][1..]) == [];
  }

  lemma {:induction false} LeafNodesAround(kids: seq<Layout>, i: nat)
    requires i < |kids|
    ensures LeafNodesOf(kids) == LeafNodesOf(kids[..i]) + LeafNodes(kids[i]) + LeafNodesOf(kids[i + 1..])
  {
    if i > 0 {
      LeafNodesAround(kids[1..], i - 1);
      assert kids[1..][..i - 1] == kids[..i][1..];
      assert kids[1..][i..] == kids[i + 1..];
    }
  }

  lemma {:induction false} LeafNodesInside(s: Layout)
    ensures forall n :: n in LeafNodes(s) ==> n in Nodes(s)
    decreases s, 1
  {
    if s.InnerAt? { LeafNodesOfInside(s.kids); }
  }

  lemma {:induction false} LeafNodesOfInside(ss: seq<Layout>)
    ensures forall n :: n in LeafNodesOf(ss) ==> n in NodesOf(ss)
    decreases ss, 0
  {
    if ss != [] {
      LeafNodesInside(ss[0]);
      LeafNodesOfInside(ss[1..]);
      forall n | n in NodesOf(ss[1..]) ensures n in NodesOf(ss) {
        var i :| 0 <= i < |ss| - 1 && n in Nodes(ss[1..][i]);
        assert n in Nodes(ss[i + 1]);
      }
      assert forall n :: n in Nodes(ss[0]) ==> n in NodesOf(ss);
    }
  }

  lemma {:induction false} SomeLeaf(s: Layout)
    requires Apart(s)
    ensures LeafNodes(s) != []
  {
    if s.InnerAt? { SomeLeaf(s.kids[0]); }
  }

  // ---------- Chains ----------

  ghost function FirstOr(ns: seq<Node>, after: Node?): Node? {
    if ns == [] then after else ns[0]
  }

  lemma {:induction false} ChainConcat(a: seq<Node>, b: seq<Node>, after: Node?)
    ensures Chained(a + b, after) <==> Chained(a, FirstOr(b, after)) && Chained(b, after)
  {
    var s := a + b;
    if Chained(s, after) {
      forall i | 0 <= i < |a| ensures a[i].next == Succ(a, i, FirstOr(b, after)) {
        assert s[i].next == Succ(s, i, after);
      }
      forall i | 0 <= i < |b| ensures b[i].next == Succ(b, i, after) {
        assert s[|a| + i].next == Succ(s, |a| + i, after);
      }
    }
    if Chained(a, FirstOr(b, after)) && Chained(b, after) {
      forall i | 0 <= i < |s| ensures s[i].next == Succ(s, i, after) {
        if i < |a| { assert a[i].next == Succ(a, i, FirstOr(b, after)); }
        else { assert b[i - |a|].next == Succ(b, i - |a|, after); }
      }
    }
  }

  lemma {:induction false} ChainSplit(a: seq<Node>, b: seq<Node>, c: seq<Node>, after: Node?)
    requires Chained(a + b + c, after) && b != []
    ensures Chained(a, b[0]) && Chained(b, FirstOr(c, after)) && Chained(c, after)
  {
    ChainConcat(a + b, c, after);
    ChainConcat(a, b, FirstOr(c, after));
  }

  lemma {:induction false} ChainJoin(a: seq<Node>, b: seq<Node>, c: seq<Node>, after: Node?)
    requires b != [] && Chained(a, b[0]) && Chained(b, FirstOr(c, after)) && Chained(c, after)
    ensures Chained(a + b + c, after)
  {
    ChainConcat(a + b, c, after);
    ChainConcat(a, b, FirstOr(c, after));
  }

  // ---------- Replacing one child by one or two ----------

  /** The children with child i replaced by the layouts in parts. */
  ghost function Spliced<T>(ss: seq<T>, i: nat, parts: seq<T>): seq<T>
    requires i < |ss|
  {
    ss[..i] + parts + ss[i + 1..]
  }

  lemma {:induction false} SplicedNodes(ss: seq<Layout>, i: nat, parts: seq<Layout>)
    requires i < |ss|
    ensures NodesOf(Spliced(ss, i, parts)) <= NodesOf(ss) + NodesOf(parts)
  {
    var ss' := Spliced(ss, i, parts);
    forall n | n in NodesOf(ss') ensures n in NodesOf(ss) + NodesOf(parts) {
      var j :| 0 <= j < |ss'| && n in Nodes(ss'[j]);
      if j < i { assert n in Nodes(ss[j]); }
      else if j < i + |parts| { assert n in Nodes(parts[j - i]); }
      else { assert n in Nodes(ss[j - |parts| + 1]); }
    }
  }

  lemma {:induction false} SplicedApart(ss: seq<Layout>, i: nat, parts: seq<Layout>)
    requires i < |ss| && ApartKids(ss) && ApartKids(parts)
    requires forall j :: 0 <= j < |ss| && j != i ==> Nodes(ss[j]) !! NodesOf(parts)
    ensures ApartKids(Spliced(ss, i, parts))
  {
    var ss' := Spliced(ss, i, parts);
    forall j | 0 <= j < |parts| ensures Nodes(parts[j]) <= NodesOf(parts) {
      forall n | n in Nodes(parts[j]) ensures n in NodesOf(parts) {}
    }
    forall j, k | 0 <= j < k < |ss'| ensures Nodes(ss'[j]) !! Nodes(ss'[k]) {
      SplicedAt(ss, i, parts, j);
      SplicedAt(ss, i, parts, k);
    }
    forall j | 0 <= j < |ss'| ensures Apart(ss'[j]) {
      SplicedAt(ss, i, parts, j);
    }
  }

  lemma {:induction false} SplicedAt<T>(ss: seq<T>, i: nat, parts: seq<T>, j: nat)
    requires i < |ss| && j < |Spliced(ss, i, parts)|
    ensures Spliced(ss, i, parts)[j]
         == if j < i then ss[j] else if j < i + |parts| then parts[j - i] else ss[j - |parts| + 1]
  {}

  lemma {:induction false} SplicedLeaves(ss: seq<Layout>, i: nat, parts: seq<Layout>)
    requires i < |ss|
    ensures LeafNodesOf(Spliced(ss, i, parts)) == LeafNodesOf(ss[..i]) + LeafNodesOf(parts) + LeafNodesOf(ss[i + 1..])
  {
    LeafNodesConcat(ss[..i] + parts, ss[i + 1..]);
    LeafNodesConcat(ss[..i], parts);
  }

  // ---------- Searching ----------

  /** The linear scan over the separators of an inner node. */
  method FindChildIndex(node: Node, key: int) returns (index: nat)
    ensures index == ChildIndex(node.keys, key)
  {
    index := 0;
    while index < |node.keys| && key >= node.keys[index]
      invariant index <= |node.keys|
      invariant ChildIndex(node.keys, key) == index + ChildIndex(node.keys[index..], key)
    {
      assert node.keys[index..][1..] == node.keys[index + 1..];
      index := index + 1;
    }
  }

  // ---------- Insertion ----------

  /** node, and newNode when it was split off, hold what the value-level insertion gives. */
  ghost predicate Grew(node: Node, newNode: Node?, splitKey: int, parts: seq<Layout>, g: Grown)
    reads NodesOf(parts)
  {
    && ApartKids(parts)
    && match g
       case Whole(t) =>
         newNode == null && |parts| == 1 && parts[0].node == node && KidsHold(parts, [t])
       case Halves(l, sep, r) =>
         && newNode != null && |parts| == 2 && parts[0].node == node && parts[1].node == newNode
         && splitKey == sep && KidsHold(parts, [l, r])
  }

  lemma {:induction false} OnePart(s: Layout, t: Tree)
    requires Apart(s) && Holds(s, t)
    ensures NodesOf([s]) == Nodes(s)
    ensures Grew(s.node, null, 0, [s], Whole(t))
    ensures LeafNodesOf([s]) == LeafNodes(s)
  {
    assert [s][0] == s;
    assert forall n :: n in NodesOf([s]) <==> n in Nodes(s);
    LeafNodesOfOne(s);
  }

  lemma {:induction false} TwoParts(l: Layout, r: Layout, tl: Tree, sep: int, tr: Tree)
    requires Apart(l) && Apart(r) && Nodes(l) !! Nodes(r)
    requires Holds(l, tl) && Holds(r, tr)
    ensures NodesOf([l, r]) == Nodes(l) + Nodes(r)
    ensures Grew(l.node, r.node, sep, [l, r], Halves(tl, sep, tr))
    ensures LeafNodesOf([l, r]) == LeafNodes(l) + LeafNodes(r)
  {
    var ss := [l, r];
    assert ss[0] == l && ss[1] == r;
    assert forall n :: n in NodesOf(ss) <==> n in Nodes(l) || n in Nodes(r);
    assert ss[1..] == [r];
    LeafNodesOfOne(r);
  }

  /** The upper half of an overfull leaf moves to a new leaf linked in right behind it. */
  method SplitLeaf(node: Node) returns (newNode: Node, splitKey: int)
    requires node.isLeaf && |node.keys| == |node.values| > 0
    modifies node
    ensures fresh(newNode) && newNode.isLeaf && newNode.children == []
    ensures var mid := |old(node.keys)| / 2;
      && splitKey == old(node.keys)[mid]
      && newNode.keys == old(node.keys)[mid..] && newNode.values == old(node.values)[mid..]
      && node.keys == old(node.keys)[..mid] && node.values == old(node.values)[..mid]
    ensures node.isLeaf && node.children == old(node.children)
    ensures newNode.next == old(node.next) && node.next == newNode
  {
    newNode := new Node(true);
    var sz := |node.keys|;
    var mid := sz / 2;
    splitKey := node.keys[mid];
    var i := mid;
    while i < sz
      invariant mid <= i <= sz == |node.keys| == |node.values|
      invariant newNode.keys == node.keys[mid..i] && newNode.values == node.values[mid..i]
      invariant newNode.isLeaf && newNode.children == []
      invariant unchanged(node)
    {
      assert node.keys[mid..i + 1] == node.keys[mid..i] + [node.keys[i]];
      assert node.values[mid..i + 1] == node.values[mid..i] + [node.values[i]];
      newNode.keys := newNode.keys + [node.keys[i]];
      newNode.values := newNode.values + [node.values[i]];
      i := i + 1;
    }
    assert node.keys[mid..] == node.keys[mid..sz] && node.values[mid..] == node.values[mid..sz];
    node.keys := node.keys[..mid];
    node.values := node.values[..mid];
    newNode.next := node.next;
    node.next := newNode;
  }

  method InsertLeaf(node: Node, key: int, row: int, order: nat, ghost t: Tree)
    returns (newNode: Node?, splitKey: int, ghost parts: seq<Layout>, ghost made: set<Node>)
    requires t.Leaf? && Shaped(t) && Holds(LeafAt(node), t)
    modifies node
    ensures Grew(node, newNode, splitKey, parts, Insert(t, key, row, order))
    ensures Chained(LeafNodesOf(parts), old(node.next))
    ensures fresh(made) && NodesOf(parts) == {node} + made
    ensures LeafNodesOf(parts) != [] && LeafNodesOf(parts)[0] == node
  {
    newNode, splitKey := null, 0;
    var pos := LowerBound(node.keys, key);
    node.keys := InsertAt(node.keys, pos, key);
    node.values := InsertAt(node.values, pos, row);
    if |node.keys| > order {
      newNode, splitKey := SplitLeaf(node);
      parts := [LeafAt(node), LeafAt(newNode)];
      ghost var g := Insert(t, key, row, order);
      made := {newNode};
      TwoParts(LeafAt(node), LeafAt(newNode), g.left, splitKey, g.right);
    } else {
      made := {};
      parts := [LeafAt(node)];
      OnePart(LeafAt(node), Insert(t, key, row, order).tree);
    }
  }

  /** The upper keys and children of an overfull inner node move to a new one; the middle
      key goes up.  A correction: the source shortens the key vector before it copies the keys
      behind the middle, and so reads past its end (BTreeRuns.ReadsPastEndIff says when); here
      they are copied first. */
  method SplitInner(node: Node) returns (newNode: Node, splitKey: int)
    requires !node.isLeaf && |node.children| == |node.keys| + 1 && |node.keys| > 0
    modifies node
    ensures fresh(newNode) && !newNode.isLeaf
    ensures var mid := |old(node.keys)| / 2;
      && splitKey == old(node.keys)[mid]
      && newNode.keys == old(node.keys)[mid + 1..] && newNode.children == old(node.children)[mid + 1..]
      && node.keys == old(node.keys)[..mid] && node.children == old(node.children)[..mid + 1]
    ensures !node.isLeaf
  {
    newNode := new Node(false);
    var sz := |node.keys|;
    var mid := sz / 2;
    splitKey := node.keys[mid];
    var i := mid + 1;
    while i < sz
      invariant mid < i <= sz == |node.keys|
      invariant newNode.keys == node.keys[mid + 1..i] && newNode.children == []
      invariant !newNode.isLeaf && unchanged(node)
    {
      assert node.keys[mid + 1..i + 1] == node.keys[mid + 1..i] + [node.keys[i]];
      newNode.keys := newNode.keys + [node.keys[i]];
      i := i + 1;
    }
    assert node.keys[mid + 1..] == node.keys[mid + 1..sz];
    node.keys := node.keys[..mid];
    var childCount := |node.children|;
    i := mid + 1;
    while i < childCount
      invariant mid < i <= childCount == |node.children|
      invariant newNode.children == node.children[mid + 1..i]
      invariant !newNode.isLeaf && newNode.keys == old(node.keys)[mid + 1..]
      invariant !node.isLeaf && node.keys == old(node.keys)[..mid] && node.children == old(node.children)
    {
      assert node.children[mid + 1..i + 1] == node.children[mid + 1..i] + [node.children[i]];
      newNode.children := newNode.children + [node.children[i]];
      i := i + 1;
    }
    assert node.children[mid + 1..] == node.children[mid + 1..childCount];
    node.children := node.children[..mid + 1];
  }

  lemma {:induction false} CutNodes(ss: seq<Layout>, n: nat)
    requires ApartKids(ss) && n <= |ss|
    ensures ApartKids(ss[..n]) && ApartKids(ss[n..])
    ensures NodesOf(ss[..n]) !! NodesOf(ss[n..])
    ensures NodesOf(ss) == NodesOf(ss[..n]) + NodesOf(ss[n..])
  {
    CutNodesUnion(ss, n);
    CutNodesApart(ss, n);
    var b := ss[n..];
    assert forall i :: 0 <= i < |b| ==> b[i] == ss[n + i];
  }

  lemma {:induction false} CutNodesApart(ss: seq<Layout>, n: nat)
    requires ApartKids(ss) && n <= |ss|
    ensures NodesOf(ss[..n]) !! NodesOf(ss[n..])
  {
    var a, b := ss[..n], ss[n..];
    forall x | x in NodesOf(a) ensures x !in NodesOf(b) {
      var i :| 0 <= i < n && x in Nodes(a[i]);
      assert forall j :: 0 <= j < |b| ==> b[j] == ss[n + j] && Nodes(ss[i]) !! Nodes(ss[n + j]);
    }
  }

  lemma {:induction false} CutNodesUnion(ss: seq<Layout>, n: nat)
    requires n <= |ss|
    ensures NodesOf(ss) == NodesOf(ss[..n]) + NodesOf(ss[n..])
  {
    var a, b := ss[..n], ss[n..];
    forall x | x in NodesOf(ss) ensures x in NodesOf(a) + NodesOf(b) {
      var i :| 0 <= i < |ss| && x in Nodes(ss[i]);
      if i < n { assert x in Nodes(a[i]); } else { assert x in Nodes(b[i - n]); }
    }
    forall x | x in NodesOf(a) ensures x in NodesOf(ss) {
      var i :| 0 <= i < |a| && x in Nodes(a[i]);
      assert x in Nodes(ss[i]);
    }
    forall x | x in NodesOf(b) ensures x in NodesOf(ss) {
      var i :| 0 <= i < |b| && x in Nodes(b[i]);
      assert x in Nodes(ss[n + i]);
    }
  }

  lemma {:induction false} CutKids(ss: seq<Layout>, ts: seq<Tree>, n: nat)
    requires KidsHold(ss, ts) && n <= |ss|
    ensures KidsHold(ss[..n], ts[..n]) && KidsHold(ss[n..], ts[n..])
  {
    var a, b := ss[n..], ts[n..];
    KidsHoldPart(ss, ts, ss[..n], ts[..n], 0);
    forall i | 0 <= i < |a| ensures a[i] == ss[n + i] && b[i] == ts[n + i] {}
    KidsHoldPart(ss, ts, a, b, n);
  }

  lemma {:induction false} KidsHoldPart(ss: seq<Layout>, ts: seq<Tree>, a: seq<Layout>, b: seq<Tree>, from: nat)
    requires KidsHold(ss, ts) && |a| == |b| && from + |a| <= |ss|
    requires forall i :: 0 <= i < |a| ==> a[i] == ss[from + i] && b[i] == ts[from + i]
    ensures KidsHold(a, b)
  {
    forall i | 0 <= i < |a| ensures Nodes(a[i]) <= NodesOf(a) && Holds(a[i], b[i]) {
      NodesOfHas(a, i);
      assert Holds(ss[from + i], ts[from + i]);
    }
  }

  lemma {:induction false} NodesOfHas(ss: seq<Layout>, i: nat)
    requires i < |ss|
    ensures Nodes(ss[i]) <= NodesOf(ss)
  {
    forall x | x in Nodes(ss[i]) ensures x in NodesOf(ss) {}
  }

  lemma {:induction false} CutLeaves(ss: seq<Layout>, n: nat)
    requires n <= |ss|
    ensures Roots(ss[..n]) == Roots(ss)[..n] && Roots(ss[n..]) == Roots(ss)[n..]
    ensures LeafNodesOf(ss) == LeafNodesOf(ss[..n]) + LeafNodesOf(ss[n..])
  {
    assert ss == ss[..n] + ss[n..];
    LeafNodesConcat(ss[..n], ss[n..]);
  }

  lemma {:induction false} HalvesHold(node: Node, newNode: Node, kids: seq<Layout>, keys: seq<int>, ts: seq<Tree>,
                                      mid: nat)
    requires mid < |keys| && |ts| == |keys| + 1 && KidsHold(kids, ts) && ApartKids(kids)
    requires node != newNode && node !in NodesOf(kids) && newNode !in NodesOf(kids)
    requires !node.isLeaf && node.keys == keys[..mid] && node.children == Roots(kids)[..mid + 1]
    requires !newNode.isLeaf && newNode.keys == keys[mid + 1..] && newNode.children == Roots(kids)[mid + 1..]
    ensures var l, r := InnerAt(node, kids[..mid + 1]), InnerAt(newNode, kids[mid + 1..]);
      && Grew(node, newNode, keys[mid], [l, r],
              Halves(Inner(keys[..mid], ts[..mid + 1]), keys[mid], Inner(keys[mid + 1..], ts[mid + 1..])))
      && NodesOf([l, r]) == NodesOf(kids) + {node, newNode}
      && LeafNodesOf([l, r]) == LeafNodesOf(kids)
  {
    CutNodes(kids, mid + 1);
    CutKids(kids, ts, mid + 1);
    CutLeaves(kids, mid + 1);
    TwoParts(InnerAt(node, kids[..mid + 1]), InnerAt(newNode, kids[mid + 1..]),
             Inner(keys[..mid], ts[..mid + 1]), keys[mid], Inner(keys[mid + 1..], ts[mid + 1..]));
  }

  lemma {:induction false} NodesAllocated(s: Layout)
    ensures forall n :: n in Nodes(s) ==> allocated(n)
    decreases s, 1
  {
    if s.InnerAt? { KidsAllocated(s.kids); }
  }

  lemma {:induction false} KidsAllocated(ss: seq<Layout>)
    ensures forall n :: n in NodesOf(ss) ==> allocated(n)
    decreases ss, 0
  {
    forall i | 0 <= i < |ss| ensures forall n :: n in Nodes(ss[i]) ==> allocated(n) {
      NodesAllocated(ss[i]);
    }
  }

  lemma {:induction false} LeafListAllocated(ns: seq<Node>)
    ensures forall j :: 0 <= j < |ns| ==> allocated(ns[j])
  {}

  lemma {:induction false} LeavesAllocated(s: Layout)
    ensures var b := LeafNodes(s); forall j :: 0 <= j < |b| ==> b[j] in Nodes(s) && allocated(b[j])
  {
    NodesAllocated(s);
    LeafNodesInside(s);
    var b := LeafNodes(s);
    assert forall j :: 0 <= j < |b| ==> b[j] in b;
  }

  /** An inner node whose children are in place, split when it is overfull. */
  method GrowNode(node: Node, order: nat, ghost kids: seq<Layout>, ghost keys: seq<int>, ghost ts: seq<Tree>)
    returns (newNode: Node?, splitKey: int, ghost parts: seq<Layout>, ghost made: set<Node>)
    requires |ts| == |keys| + 1 && !node.isLeaf && node.keys == keys && node.children == Roots(kids)
    requires KidsHold(kids, ts) && ApartKids(kids) && node !in NodesOf(kids)
    modifies node
    ensures Grew(node, newNode, splitKey, parts, GrowInner(keys, ts, order))
    ensures fresh(made) && NodesOf(parts) == NodesOf(kids) + {node} + made
    ensures LeafNodesOf(parts) == LeafNodesOf(kids)
  {
    newNode, splitKey := null, 0;
    if |node.keys| > order {
      KidsAllocated(kids);
      newNode, splitKey := SplitInner(node);
      ghost var mid := |keys| / 2;
      parts := [InnerAt(node, kids[..mid + 1]), InnerAt(newNode, kids[mid + 1..])];
      made := {newNode};
      HalvesHold(node, newNode, kids, keys, ts, mid);
    } else {
      made := {};
      parts := [InnerAt(node, kids)];
      OnePart(InnerAt(node, kids), Inner(keys, ts));
    }
  }

  ghost function PartsOf(g: Grown): seq<Tree> {
    match g
    case Whole(t) => [t]
    case Halves(l, _, r) => [l, r]
  }

  lemma {:induction false} GrowAboveSpliced(keys: seq<int>, ts: seq<Tree>, i: nat, g: Grown, order: nat)
    requires i < |ts| == |keys| + 1
    ensures GrowAbove(keys, ts, i, g, order)
         == if g.Whole? then Whole(Inner(keys, Spliced(ts, i, PartsOf(g))))
            else GrowInner(InsertAt(keys, i, g.sep), Spliced(ts, i, PartsOf(g)), order)
  {
    if g.Whole? {
      assert Spliced(ts, i, PartsOf(g)) == ts[i := g.tree];
    } else {
      assert Spliced(ts, i, PartsOf(g)) == InsertAt(ts[i := g.left], i + 1, g.right);
    }
  }

  /** Node pointers follow the layout when child i becomes one or two nodes. */
  lemma {:induction false} SplicedRoots(kids: seq<Layout>, i: nat, parts: seq<Layout>)
    requires i < |kids| && 1 <= |parts| <= 2 && parts[0].node == kids[i].node
    ensures |parts| == 1 ==> Roots(Spliced(kids, i, parts)) == Roots(kids)
    ensures |parts| == 2 ==> Roots(Spliced(kids, i, parts)) == InsertAt(Roots(kids), i + 1, parts[1].node)
  {
    forall j | 0 <= j < |kids| + |parts| - 1
      ensures Spliced(kids, i, parts)[j]
           == if j < i then kids[j] else if j < i + |parts| then parts[j - i] else kids[j - |parts| + 1]
    {
      SplicedAt(kids, i, parts, j);
    }
  }

  /** The parent takes in a separator and a new child, and splits in turn when overfull. */
  method AdoptChild(node: Node, index: nat, newChild: Node, sep: int, order: nat,
                    ghost kids: seq<Layout>, ghost ts: seq<Tree>)
    returns (newNode: Node?, splitKey: int, ghost parts: seq<Layout>, ghost made: set<Node>)
    requires !node.isLeaf && index <= |node.keys| && |node.children| == |node.keys| + 1
    requires InsertAt(node.children, index + 1, newChild) == Roots(kids)
    requires KidsHold(kids, ts) && ApartKids(kids) && node !in NodesOf(kids)
    modifies node
    ensures |ts| == |old(node.keys)| + 2
    ensures Grew(node, newNode, splitKey, parts, GrowInner(InsertAt(old(node.keys), index, sep), ts, order))
    ensures fresh(made) && NodesOf(parts) == NodesOf(kids) + {node} + made
    ensures LeafNodesOf(parts) == LeafNodesOf(kids)
  {
    ghost var keys := InsertAt(node.keys, index, sep);
    node.keys := InsertAt(node.keys, index, sep);
    node.children := InsertAt(node.children, index + 1, newChild);
    newNode, splitKey, parts, made := GrowNode(node, order, kids, keys, ts);
  }

  /** Every child but i still holds its tree; child i became parts. */
  lemma {:induction false} SplicedHold(kids: seq<Layout>, ts: seq<Tree>, i: nat, parts: seq<Layout>, g: Grown)
    requires i < |kids| == |ts| && KidsHold(parts, PartsOf(g))
    requires forall j :: 0 <= j < |kids| && j != i ==> Holds(kids[j], ts[j])
    ensures KidsHold(Spliced(kids, i, parts), Spliced(ts, i, PartsOf(g)))
  {
    var kids', ts' := Spliced(kids, i, parts), Spliced(ts, i, PartsOf(g));
    forall j | 0 <= j < |kids'| ensures Nodes(kids'[j]) <= NodesOf(kids') && Holds(kids'[j], ts'[j]) {
      SplicedAt(kids, i, parts, j);
      SplicedAt(ts, i, PartsOf(g), j);
      NodesOfHas(kids', j);
    }
  }

  /** Child i has become g; node itself has not changed yet. */
  method InsertAbove(node: Node, index: nat, newChild: Node?, sep: int, order: nat,
                     ghost kids: seq<Layout>, ghost ts: seq<Tree>, ghost g: Grown, ghost kidParts: seq<Layout>,
                     ghost after: Node?)
    returns (newNode: Node?, splitKey: int, ghost parts: seq<Layout>, ghost made: set<Node>)
    requires !node.isLeaf && node.children == Roots(kids)
    requires |ts| == |kids| == |node.keys| + 1 && index < |kids|
    requires Grew(node.children[index], newChild, sep, kidParts, g)
    requires forall j :: 0 <= j < |kids| && j != index ==> Holds(kids[j], ts[j])
    requires ApartKids(Spliced(kids, index, kidParts)) && node !in NodesOf(Spliced(kids, index, kidParts))
    requires Chained(LeafNodesOf(Spliced(kids, index, kidParts)), after)
    modifies node
    ensures Grew(node, newNode, splitKey, parts, GrowAbove(old(node.keys), ts, index, g, order))
    ensures fresh(made) && NodesOf(parts) == NodesOf(Spliced(kids, index, kidParts)) + {node} + made
    ensures LeafNodesOf(parts) == LeafNodesOf(Spliced(kids, index, kidParts))
    ensures Chained(LeafNodesOf(parts), after)
  {
    ghost var kids', ts' := Spliced(kids, index, kidParts), Spliced(ts, index, PartsOf(g));
    ghost var leaves := LeafNodesOf(kids');
    LeafNodesOfInside(kids');
    KidsAllocated(kids');
    GrowAboveSpliced(node.keys, ts, index, g, order);
    SplicedRoots(kids, index, kidParts);
    SplicedHold(kids, ts, index, kidParts, g);
    if newChild != null {
      newNode, splitKey, parts, made := AdoptChild(node, index, newChild, sep, order, kids', ts');
    } else {
      newNode, splitKey, made := null, 0, {};
      parts := [InnerAt(node, kids')];
      OnePart(InnerAt(node, kids'), Inner(node.keys, ts'));
    }
    forall i | 0 <= i < |leaves| ensures leaves[i].next == Succ(leaves, i, after) {
      assert leaves[i] in leaves && leaves[i] != node;
    }
  }

  lemma {:induction false} SplicedFacts(s: Layout, i: nat, parts: seq<Layout>)
    requires s.InnerAt? && Apart(s) && i < |s.kids| && ApartKids(parts)
    requires forall n :: n in NodesOf(parts) && n in Nodes(s) ==> n in Nodes(s.kids[i])
    ensures ApartKids(Spliced(s.kids, i, parts)) && s.node !in NodesOf(Spliced(s.kids, i, parts))
    ensures NodesOf(Spliced(s.kids, i, parts)) <= Nodes(s) + NodesOf(parts)
  {
    forall j | 0 <= j < |s.kids| && j != i ensures Nodes(s.kids[j]) !! NodesOf(parts) {
      KidNodes(s, j);
      assert Nodes(s.kids[j]) !! Nodes(s.kids[i]);
    }
    KidNodes(s, i);
    SplicedApart(s.kids, i, parts);
    SplicedNodes(s.kids, i, parts);
  }

  /** The leaf chain through a subtree, cut around child i. */
  lemma {:induction false} ChainAtKid(s: Layout, i: nat, after: Node?)
    requires s.InnerAt? && Apart(s) && i < |s.kids| && Chained(LeafNodes(s), after)
    ensures var a, b, c := LeafNodesOf(s.kids[..i]), LeafNodes(s.kids[i]), LeafNodesOf(s.kids[i + 1..]);
      && LeafNodes(s) == a + b + c && b != []
      && Chained(a, b[0]) && Chained(b, FirstOr(c, after)) && Chained(c, after)
  {
    LeafNodesAround(s.kids, i);
    SomeLeaf(s.kids[i]);
    ChainSplit(LeafNodesOf(s.kids[..i]), LeafNodes(s.kids[i]), LeafNodesOf(s.kids[i + 1..]), after);
  }

  /** Leaves outside child i are none of its objects. */
  lemma {:induction false} OtherLeaves(s: Layout, i: nat)
    requires s.InnerAt? && Apart(s) && i < |s.kids|
    ensures var a, c := LeafNodesOf(s.kids[..i]), LeafNodesOf(s.kids[i + 1..]);
      && (forall j :: 0 <= j < |a| ==> a[j] !in Nodes(s.kids[i]) && allocated(a[j]))
      && (forall j :: 0 <= j < |c| ==> c[j] !in Nodes(s.kids[i]) && allocated(c[j]))
  {
    var a, c := LeafNodesOf(s.kids[..i]), LeafNodesOf(s.kids[i + 1..]);
    LeafNodesOfInside(s.kids[..i]);
    LeafNodesOfInside(s.kids[i + 1..]);
    KidsAllocated(s.kids[..i]);
    KidsAllocated(s.kids[i + 1..]);
    forall j | 0 <= j < |a| ensures a[j] !in Nodes(s.kids[i]) && allocated(a[j]) {
      assert a[j] in a;
      var k :| 0 <= k < i && a[j] in Nodes(s.kids[..i][k]);
      assert Nodes(s.kids[k]) !! Nodes(s.kids[i]);
    }
    forall j | 0 <= j < |c| ensures c[j] !in Nodes(s.kids[i]) && allocated(c[j]) {
      assert c[j] in c;
      var k :| 0 <= k < |s.kids| - i - 1 && c[j] in Nodes(s.kids[i + 1..][k]);
      assert Nodes(s.kids[i]) !! Nodes(s.kids[i + 1 + k]);
    }
  }

  /** Child i of s replaced by parts: still no object twice, and the chain runs through. */
  lemma {:induction false} ChildReplaced(s: Layout, i: nat, parts: seq<Layout>, after: Node?)
    requires s.InnerAt? && Apart(s) && i < |s.kids| && ApartKids(parts)
    requires forall n :: n in NodesOf(parts) && n in Nodes(s) ==> n in Nodes(s.kids[i])
    requires LeafNodesOf(parts) != []
    requires Chained(LeafNodesOf(s.kids[..i]), LeafNodesOf(parts)[0])
    requires Chained(LeafNodesOf(parts), FirstOr(LeafNodesOf(s.kids[i + 1..]), after))
    requires Chained(LeafNodesOf(s.kids[i + 1..]), after)
    ensures var kids' := Spliced(s.kids, i, parts);
      && ApartKids(kids') && s.node !in NodesOf(kids')
      && NodesOf(kids') <= Nodes(s) + NodesOf(parts)
      && LeafNodesOf(kids') == LeafNodesOf(s.kids[..i]) + LeafNodesOf(parts) + LeafNodesOf(s.kids[i + 1..])
      && Chained(LeafNodesOf(kids'), after)
  {
    SplicedFacts(s, i, parts);
    KidNodes(s, i);
    ChainJoin(LeafNodesOf(s.kids[..i]), LeafNodesOf(parts), LeafNodesOf(s.kids[i + 1..]), after);
    SplicedLeaves(s.kids, i, parts);
  }

  /** The recursive insertion.  The links leaving the subtree are kept, and its first leaf
      stays its first leaf, so the chain outside is not disturbed. */
  method InsertNode(node: Node, key: int, row: int, order: nat, ghost s: Layout, ghost t: Tree, ghost after: Node?)
    returns (newNode: Node?, splitKey: int, ghost parts: seq<Layout>, ghost made: set<Node>)
    requires s.node == node && Apart(s) && Holds(s, t) && Shaped(t) && Chained(LeafNodes(s), after)
    modifies Nodes(s)
    ensures Grew(node, newNode, splitKey, parts, Insert(t, key, row, order))
    ensures Chained(LeafNodesOf(parts), after)
    ensures fresh(made) && NodesOf(parts) <= Nodes(s) + made
    ensures LeafNodes(s) != [] && LeafNodesOf(parts) != [] && LeafNodesOf(parts)[0] == LeafNodes(s)[0]
    decreases t, 2
  {
    SomeLeaf(s);
    if node.isLeaf {
      assert LeafNodes(s)[0] == node;
      newNode, splitKey, parts, made := InsertLeaf(node, key, row, order, t);
    } else {
      newNode, splitKey, parts, made := InsertInner(node, key, row, order, s, t, after);
    }
  }

  /** Insertion into the chosen child: node itself and the other children stay as they
      are, and the leaf chain runs through what the child has become. */
  method InsertBelow(node: Node, index: nat, key: int, row: int, order: nat, ghost s: Layout, ghost t: Tree,
                     ghost after: Node?)
    returns (newChild: Node?, sep: int, ghost kidParts: seq<Layout>, ghost made: set<Node>)
    requires t.Inner? && s.node == node && Apart(s) && Holds(s, t) && Shaped(t) && Chained(LeafNodes(s), after)
    requires index == ChildIndex(t.keys, key)
    modifies Nodes(s)
    ensures |s.kids| == |t.kids|
    ensures !node.isLeaf && node.keys == t.keys && node.children == Roots(s.kids)
    ensures Grew(node.children[index], newChild, sep, kidParts, Insert(t.kids[index], key, row, order))
    ensures forall j :: 0 <= j < |s.kids| && j != index ==> Holds(s.kids[j], t.kids[j])
    ensures var kids' := Spliced(s.kids, index, kidParts);
      && ApartKids(kids') && node !in NodesOf(kids')
      && fresh(made) && NodesOf(kids') <= Nodes(s) + made
      && Chained(LeafNodesOf(kids'), after)
      && LeafNodes(s) != [] && LeafNodesOf(kids') != [] && LeafNodesOf(kids')[0] == LeafNodes(s)[0]
    decreases t, 0
  {
    ghost var kid := s.kids[index];
    ghost var a, b, c := LeafNodesOf(s.kids[..index]), LeafNodes(kid), LeafNodesOf(s.kids[index + 1..]);
    KidNodes(s, index);
    ChainAtKid(s, index, after);
    OtherLeaves(s, index);
    NodesAllocated(s);
    ghost var next := FirstOr(c, after);
    newChild, sep, kidParts, made := InsertNode(node.children[index], key, row, order, kid, t.kids[index], next);
    ChildReplaced(s, index, kidParts, after);
    FirstLeafKept(s, index, kidParts);
  }

  lemma {:induction false} FirstLeafKept(s: Layout, i: nat, parts: seq<Layout>)
    requires s.InnerAt? && i < |s.kids| && LeafNodesOf(parts) != [] && LeafNodes(s.kids[i]) != []
    requires LeafNodesOf(parts)[0] == LeafNodes(s.kids[i])[0]
    requires LeafNodesOf(Spliced(s.kids, i, parts))
          == LeafNodesOf(s.kids[..i]) + LeafNodesOf(parts) + LeafNodesOf(s.kids[i + 1..])
    ensures LeafNodes(s) != [] && LeafNodesOf(Spliced(s.kids, i, parts)) != []
    ensures LeafNodesOf(Spliced(s.kids, i, parts))[0] == LeafNodes(s)[0]
  {
    LeafNodesAround(s.kids, i);
  }

  method InsertInner(node: Node, key: int, row: int, order: nat, ghost s: Layout, ghost t: Tree, ghost after: Node?)
    returns (newNode: Node?, splitKey: int, ghost parts: seq<Layout>, ghost made: set<Node>)
    requires t.Inner? && s.node == node && Apart(s) && Holds(s, t) && Shaped(t) && Chained(LeafNodes(s), after)
    modifies Nodes(s)
    ensures Grew(node, newNode, splitKey, parts, Insert(t, key, row, order))
    ensures Chained(LeafNodesOf(parts), after)
    ensures fresh(made) && NodesOf(parts) <= Nodes(s) + made
    ensures LeafNodes(s) != [] && LeafNodesOf(parts) != [] && LeafNodesOf(parts)[0] == LeafNodes(s)[0]
    decreases t, 1
  {
    LeavesAllocated(s);
    NodesAllocated(s);
    var index := FindChildIndex(node, key);
    var newChild, sep;
    ghost var kidParts, below;
    newChild, sep, kidParts, below := InsertBelow(node, index, key, row, order, s, t, after);
    newNode, splitKey, parts, made := InsertAbove(node, index, newChild, sep, order, s.kids, t.kids,
                                            Insert(t.kids[index], key, row, order), kidParts, after);
    made := made + below;
  }

  // ---------- Removal ----------

  /** Deletion from the leaf a descent reaches; no node is added, dropped or relinked. */
  method RemoveNode(node: Node, key: int, ghost s: Layout, ghost t: Tree) returns (r: Node)
    requires s.node == node && Apart(s) && Holds(s, t) && Shaped(t)
    modifies Nodes(s)
    ensures r == node && Holds(s, Remove(t, key))
    ensures forall n :: n in Nodes(s) && old(allocated(n)) ==> n.next == old(n.next)
    decreases t, 2
  {
    if node.isLeaf {
      var pos := LowerBound(node.keys, key);
      if pos < |node.keys| && node.keys[pos] == key {
        node.keys := RemoveAt(node.keys, pos);
        node.values := RemoveAt(node.values, pos);
      }
    } else {
      NodesAllocated(s);
      var index := FindChildIndex(node, key);
      RemoveBelow(node, index, key, s, t);
    }
    r := node;
  }

  method RemoveBelow(node: Node, index: nat, key: int, ghost s: Layout, ghost t: Tree)
    requires t.Inner? && s.node == node && Apart(s) && Holds(s, t) && Shaped(t) && index == ChildIndex(t.keys, key)
    modifies Nodes(s)
    ensures Holds(s, Remove(t, key))
    ensures forall n :: n in Nodes(s) && old(allocated(n)) ==> n.next == old(n.next)
    decreases t, 1
  {
    NodesAllocated(s);
    var child := RemoveInKid(node, index, key, s, t);
    node.children := node.children[index := child];
  }

  method RemoveInKid(node: Node, index: nat, key: int, ghost s: Layout, ghost t: Tree) returns (child: Node)
    requires t.Inner? && s.node == node && Apart(s) && Holds(s, t) && Shaped(t) && index == ChildIndex(t.keys, key)
    modifies NodesOf(s.kids)
    ensures |s.kids| == |t.kids| && child == s.kids[index].node
    ensures KidsHold(s.kids, t.kids[index := Remove(t.kids[index], key)])
    ensures forall n :: n in NodesOf(s.kids) && old(allocated(n)) ==> n.next == old(n.next)
    decreases t, 0
  {
    KidNodes(s, index);
    KidHolds(s, t, index);
    NodesAllocated(s);
    child := RemoveNode(node.children[index], key, s.kids[index], t.kids[index]);
    forall j | 0 <= j < |s.kids| && j != index ensures Holds(s.kids[j], t.kids[j]) {
      KidNodes(s, j);
      assert old(Holds(s.kids[j], t.kids[j])) && Nodes(s.kids[j]) !! Nodes(s.kids[index]);
    }
    KidReplaced(s.kids, t.kids, index, Remove(t.kids[index], key));
  }

  lemma {:induction false} KidHolds(s: Layout, t: Tree, i: nat)
    requires s.InnerAt? && Holds(s, t) && i < |s.kids|
    ensures t.Inner? && |t.kids| == |s.kids| && Holds(s.kids[i], t.kids[i])
    ensures s.node.children == Roots(s.kids)
  {}

  lemma {:induction false} KidReplaced(ss: seq<Layout>, ts: seq<Tree>, i: nat, kid: Tree)
    requires i < |ss| == |ts| && Holds(ss[i], kid)
    requires forall j :: 0 <= j < |ss| && j != i ==> Holds(ss[j], ts[j])
    ensures KidsHold(ss, ts[i := kid])
  {
    forall j | 0 <= j < |ss| ensures Nodes(ss[j]) <= NodesOf(ss) { NodesOfHas(ss, j); }
  }

  // ---------- Search ----------

  /** findUnlocked: walk down to a leaf and look the key up there.  visited counts the nodes. */
  method Search(root: Node, key: int, ghost s0: Layout, ghost t0: Tree) returns (row: int, ghost visited: nat)
    requires s0.node == root && Holds(s0, t0) && Shaped(t0)
    ensures row == Find(t0, key) && visited == PathLength(t0, key)
  {
    var node := root;
    visited := 0;
    ghost var s, t := s0, t0;
    while true
      invariant s.node == node && Holds(s, t) && Shaped(t)
      invariant Find(t, key) == Find(t0, key)
      invariant visited + PathLength(t, key) == PathLength(t0, key)
      decreases t
    {
      visited := visited + 1;
      if node.isLeaf {
        var pos := LowerBound(node.keys, key);
        if pos < |node.keys| && node.keys[pos] == key {
          return node.values[pos], visited;
        }
        return -1, visited;
      }
      KidHolds(s, t, ChildIndex(t.keys, key));
      NodesAllocated(s.kids[ChildIndex(t.keys, key)]);
      var index := FindChildIndex(node, key);
      node := node.children[index];
      s, t := s.kids[index], t.kids[index];
    }
  }

  /** The leaf objects hold the leaves of the tree, position by position. */
  lemma {:induction false} LeafContents(s: Layout, t: Tree)
    requires Holds(s, t)
    ensures |LeafNodes(s)| == |LeafList(t)|
    ensures forall j :: 0 <= j < |LeafNodes(s)| ==> Holds(LeafAt(LeafNodes(s)[j]), LeafList(t)[j])
    decreases s, 1
  {
    if s.InnerAt? { LeafContentsOf(s.kids, t.kids); }
  }

  lemma {:induction false} LeafContentsOf(ss: seq<Layout>, ts: seq<Tree>)
    requires |ss| == |ts| && forall i :: 0 <= i < |ss| ==> Holds(ss[i], ts[i])
    ensures |LeafNodesOf(ss)| == |LeafListOf(ts)|
    ensures forall j :: 0 <= j < |LeafNodesOf(ss)| ==> Holds(LeafAt(LeafNodesOf(ss)[j]), LeafListOf(ts)[j])
    decreases ss, 0
  {
    if ss != [] {
      LeafContents(ss[0], ts[0]);
      LeafContentsOf(ss[1..], ts[1..]);
    }
  }

  lemma {:induction false} Regroup<T>(pre: seq<T>, a: seq<T>, b: seq<T>, c: seq<T>, post: seq<T>)
    ensures pre + (a + b + c) + post == (pre + a) + b + (c + post)
  {}

  /** One step of the descent for k, into child i. */
  lemma {:induction false} DescendOne(s: Layout, t: Tree, k: int, i: nat, pre: seq<Node>, post: seq<Node>)
    requires s.InnerAt? && Holds(s, t) && Shaped(t) && i < |s.kids|
    ensures t.Inner? && i < |t.kids|
    ensures i == ChildIndex(t.keys, k) ==>
      |LeafNodesOf(s.kids[..i])| + LeavesBefore(t.kids[i], k) == LeavesBefore(t, k)
    ensures pre + LeafNodes(s) + post
         == (pre + LeafNodesOf(s.kids[..i])) + LeafNodes(s.kids[i]) + (LeafNodesOf(s.kids[i + 1..]) + post)
  {
    LeafNodesAround(s.kids, i);
    LeafContentsOf(s.kids[..i], t.kids[..i]);
    Regroup(pre, LeafNodesOf(s.kids[..i]), LeafNodes(s.kids[i]), LeafNodesOf(s.kids[i + 1..]), post);
  }

  /** The leaf at which the range scan for min starts. */
  method DescendTo(root: Node, min: int, ghost s0: Layout, ghost t0: Tree) returns (node: Node)
    requires s0.node == root && Holds(s0, t0) && Shaped(t0)
    ensures LeavesBefore(t0, min) < |LeafNodes(s0)| && node == LeafNodes(s0)[LeavesBefore(t0, min)]
  {
    node := root;
    ghost var s, t, pre, post := s0, t0, [], [];
    while !node.isLeaf
      invariant s.node == node && Holds(s, t) && Shaped(t)
      invariant LeafNodes(s0) == pre + LeafNodes(s) + post
      invariant |pre| + LeavesBefore(t, min) == LeavesBefore(t0, min)
      decreases t
    {
      var index := 0;
      while index < |node.keys| && min >= node.keys[index]
        invariant index <= |node.keys|
        invariant ChildIndex(node.keys, min) == index + ChildIndex(node.keys[index..], min)
      {
        assert node.keys[index..][1..] == node.keys[index + 1..];
        index := index + 1;
      }
      KidHolds(s, t, index);
      DescendOne(s, t, min, index, pre, post);
      pre, post := pre + LeafNodesOf(s.kids[..index]), LeafNodesOf(s.kids[index + 1..]) + post;
      node := node.children[index];
      s, t := s.kids[index], t.kids[index];
    }
  }

  /** The scan of one leaf stops at the first key above max. */
  method ScanLeaf(node: Node, min: int, max: int, results: seq<int>) returns (r: seq<int>)
    requires |node.keys| == |node.values|
    ensures r == results + ScanOne(node.keys, node.values, min, max)
  {
    r := results;
    var i := 0;
    ghost var keys, values := node.keys, node.values;
    assert keys[0..] == keys && values[0..] == values;
    while i < |node.keys|
      invariant i <= |node.keys|
      invariant r + ScanOne(keys[i..], values[i..], min, max) == results + ScanOne(keys, values, min, max)
    {
      assert keys[i..][1..] == keys[i + 1..] && values[i..][1..] == values[i + 1..];
      if node.keys[i] > max {
        assert r + [] == r;
        return;
      }
      if node.keys[i] >= min {
        Reassociate(r, [node.values[i]], ScanOne(keys[i + 1..], values[i + 1..], min, max));
        r := r + [node.values[i]];
      }
      i := i + 1;
    }
    assert r + [] == r;
  }

  lemma {:induction false} LeavesAscend(t: Tree, order: nat, lo: Bound, hi: Bound, height: nat)
    requires Valid(t, order, lo, hi, height)
    ensures forall l :: l in LeafList(t) ==> l.Leaf? && Shaped(l) && Ascending(l.keys)
    decreases t, 1, 0
  {
    if t.Inner? { KidLeavesAscend(t.keys, t.kids, 0, order, lo, hi, height - 1); assert t.kids[0..] == t.kids; }
  }

  lemma {:induction false} KidLeavesAscend(keys: seq<int>, kids: seq<Tree>, i: nat, order: nat, lo: Bound, hi: Bound,
                                           height: nat)
    requires ValidKids(keys, kids, order, lo, hi, height) && i <= |kids|
    ensures forall l :: l in LeafListOf(kids[i..]) ==> l.Leaf? && Shaped(l) && Ascending(l.keys)
    decreases kids, 0, |kids| - i
  {
    if i < |kids| {
      LeavesAscend(kids[i], order, LoOf(keys, i, lo), HiOf(keys, i, hi), height);
      KidLeavesAscend(keys, kids, i + 1, order, lo, hi, height);
      assert kids[i..][1..] == kids[i + 1..];
    }
  }

  // ---------- The tree ----------

  /** The nodes of s hold t, and their leaves are chained up to the end. */
  ghost predicate Linked(root: Node, s: Layout, t: Tree)
    reads Nodes(s)
  {
    LeafNodesInside(s);
    s.node == root && Apart(s) && Holds(s, t) && Chained(LeafNodes(s), null)
  }

  lemma {:induction false} LinkedLeaf(root: Node, s: Layout, t: Tree, j: nat)
    requires Linked(root, s, t) && j < |LeafNodes(s)|
    ensures |LeafNodes(s)| == |LeafList(t)|
    ensures var leaf, node := LeafList(t)[j], LeafNodes(s)[j];
      && leaf in LeafList(t)
      && leaf.Leaf? && node.keys == leaf.keys && node.values == leaf.rows
      && node.next == (if j + 1 < |LeafNodes(s)| then LeafNodes(s)[j + 1] else null)
  {
    LeafContents(s, t);
    assert Holds(LeafAt(LeafNodes(s)[j]), LeafList(t)[j]);
    assert LeafNodes(s)[j].next == Succ(LeafNodes(s), j, null);
  }

  /** The chain loop of a range scan, from leaf number `from` on. */
  method ScanChain(first: Node, min: int, max: int, ghost s: Layout, ghost t: Tree, ghost from: nat)
    returns (results: seq<int>)
    requires Linked(s.node, s, t) && |LeafNodes(s)| == |LeafList(t)|
    requires from < |LeafNodes(s)| && first == LeafNodes(s)[from]
    requires forall l :: l in LeafList(t) ==> Shaped(l)
    ensures results == ScanLeaves(LeafList(t)[from..], min, max)
  {
    results := [];
    var node: Node? := first;
    ghost var ls, ts, j := LeafNodes(s), LeafList(t), from;
    NodesAllocated(s);
    while node != null
      invariant from <= j <= |ls| && node == if j < |ls| then ls[j] else null
      invariant Linked(s.node, s, t)
      invariant results + ScanLeaves(ts[j..], min, max) == ScanLeaves(ts[from..], min, max)
      decreases |ls| - j
    {
      LinkedLeaf(s.node, s, t, j);
      ghost var before := results;
      results := ScanLeaf(node, min, max, results);
      LinkedLeaf(s.node, s, t, j);
      ScanLeavesFrom(ts, j, min, max);
      Reassociate(before, ScanOne(ts[j].keys, ts[j].rows, min, max), ScanLeaves(ts[j + 1..], min, max));
      node := node.next;
      j := j + 1;
    }
    assert results + [] == results;
  }

  lemma {:induction false} ScanLeavesFrom(ts: seq<Tree>, j: nat, min: int, max: int)
    requires j < |ts| && ts[j].Leaf?
    ensures ScanLeaves(ts[j..], min, max)
         == ScanOne(ts[j].keys, ts[j].rows, min, max) + ScanLeaves(ts[j + 1..], min, max)
  {
    assert ts[j..][1..] == ts[j + 1..];
  }

  lemma {:induction false} LinkedOne(parts: seq<Layout>, t: Tree)
    requires |parts| == 1 && ApartKids(parts) && KidsHold(parts, [t]) && Chained(LeafNodesOf(parts), null)
    ensures Linked(parts[0].node, parts[0], t) && Nodes(parts[0]) == NodesOf(parts)
  {
    assert parts == [parts[0]];
    LeafNodesOfOne(parts[0]);
    forall n | n in NodesOf(parts) ensures n in Nodes(parts[0]) {}
  }

  lemma {:induction false} LinkedInner(root: Node, parts: seq<Layout>, keys: seq<int>, ts: seq<Tree>)
    requires |parts| > 0 && ApartKids(parts) && KidsHold(parts, ts) && Chained(LeafNodesOf(parts), null)
    requires root !in NodesOf(parts)
    requires !root.isLeaf && root.keys == keys && root.children == Roots(parts)
    ensures Linked(root, InnerAt(root, parts), Inner(keys, ts))
  {}

  /** The new root above the two halves of the old one. */
  method GrowRoot(oldRoot: Node, newRoot: Node, splitKey: int, ghost parts: seq<Layout>, ghost l: Tree, ghost r: Tree)
    returns (root: Node)
    requires Grew(oldRoot, newRoot, splitKey, parts, Halves(l, splitKey, r)) && Chained(LeafNodesOf(parts), null)
    ensures fresh(root) && root !in NodesOf(parts)
    ensures Linked(root, InnerAt(root, parts), Inner([splitKey], [l, r]))
  {
    KidsAllocated(parts);
    LeafListAllocated(LeafNodesOf(parts));
    assert Roots(parts) == [oldRoot, newRoot];
    root := new Node(false);
    root.keys := root.keys + [splitKey];
    root.children := root.children + [oldRoot];
    root.children := root.children + [newRoot];
    LinkedInner(root, parts, [splitKey], [l, r]);
  }

  /** Insertion from the root down. */
  method InsertFromRoot(root: Node, key: int, row: int, order: nat, ghost s: Layout, ghost t: Tree)
    returns (root': Node, ghost s': Layout, ghost made: set<Node>)
    requires Linked(root, s, t) && Shaped(t)
    modifies Nodes(s)
    ensures Linked(root', s', InsertRoot(t, key, row, order))
    ensures fresh(made) && Nodes(s') <= Nodes(s) + made
  {
    var newRoot, splitKey;
    ghost var parts;
    newRoot, splitKey, parts, made := InsertNode(root, key, row, order, s, t, null);
    ghost var g := Insert(t, key, row, order);
    if newRoot != null {
      root' := GrowRoot(root, newRoot, splitKey, parts, g.left, g.right);
      s' := InnerAt(root', parts);
      made := made + {root'};
    } else {
      root' := root;
      s' := parts[0];
      LinkedOne(parts, g.tree);
    }
  }

  lemma {:induction false} OnlyKidLinked(root: Node, s: Layout, t: Tree)
    requires Linked(root, s, t) && s.InnerAt? && |s.kids| == 1
    ensures t.Inner? && |t.kids| == 1 && root.children == [s.kids[0].node]
    ensures Linked(root.children[0], s.kids[0], t.kids[0]) && Nodes(s.kids[0]) <= Nodes(s)
  {
    var kid := s.kids[0];
    assert s.kids == [kid];
    LeafNodesOfOne(kid);
    KidNodes(s, 0);
    assert KidsHold(s.kids, t.kids) && Holds(s.kids[0], t.kids[0]);
    assert ApartKids(s.kids) && Apart(s.kids[0]);
  }

  /** Removal from the root down; the root gives up a level if one child is left. */
  method RemoveFromRoot(root: Node, key: int, ghost s: Layout, ghost t: Tree) returns (root': Node, ghost s': Layout)
    requires Linked(root, s, t) && Shaped(t)
    modifies Nodes(s)
    ensures Linked(root', s', RemoveRoot(t, key)) && Nodes(s') <= Nodes(s)
  {
    LeavesAllocated(s);
    root' := RemoveNode(root, key, s, t);
    s' := s;
    if !root'.isLeaf && |root'.children| == 1 {
      OnlyKidLinked(root', s, Remove(t, key));
      root', s' := root'.children[0], s.kids[0];
    }
  }

  /** In an ordered tree the scan misses no row of the range. */
  lemma {:induction false} ScanIsRange(t: Tree, min: int, max: int, order: nat, height: nat)
    requires Valid(t, order, Open, Open, height) && Shaped(t) && LeavesBefore(t, min) < |LeafList(t)|
    ensures KeysAscend(Entries(t))
    ensures ScanLeaves(LeafList(t)[LeavesBefore(t, min)..], min, max) == RowsBetween(Entries(t), min, max)
  {
    EntriesOrdered(t, order, Open, Open, height);
    ScanFromDescent(t, min, max, order, height);
    LeavesAscend(t, order, Open, Open, height);
    var ts := LeafList(t)[LeavesBefore(t, min)..];
    forall j | 0 <= j < |ts|
      ensures ts[j].Leaf? && Shaped(ts[j]) && Ascending(ts[j].keys)
    {
      assert ts[j] in LeafList(t);
    }
    ScanLeavesIsRows(ts, min, max);
  }

  /** Inserting an absent key keeps an ordered tree ordered, perhaps a level higher. */
  lemma {:induction false} OrderKept(t: Tree, key: int, row: int, order: nat, height: nat) returns (height': nat)
    requires Shaped(t)
    ensures Valid(t, order, Open, Open, height) ==>
      Entries(InsertRoot(t, key, row, order)) == InsertEntry(Entries(t), key, row)
    ensures Valid(t, order, Open, Open, height) && key !in MapOf(Entries(t)) ==>
      && Valid(InsertRoot(t, key, row, order), order, Open, Open, height')
      && MapOf(Entries(InsertRoot(t, key, row, order))) == MapOf(Entries(t))[key := row]
  {
    height' := height;
    if Valid(t, order, Open, Open, height) {
      InsertRootAddsEntry(t, key, row, order, height);
    }
    if Valid(t, order, Open, Open, height) && key !in MapOf(Entries(t)) {
      height' := InsertRootRefines(t, key, row, order, height);
    }
  }

  /** Removing a key keeps an ordered tree ordered. */
  lemma {:induction false} OrderKeptByRemoval(t: Tree, key: int, order: nat, height: nat)
    requires Shaped(t)
    ensures Valid(t, order, Open, Open, height) ==>
      && Valid(RemoveRoot(t, key), order, Open, Open, height)
      && MapOf(Entries(RemoveRoot(t, key))) == MapOf(Entries(t)) - {key}
  {
    if Valid(t, order, Open, Open, height) {
      RemoveRootRefines(t, key, order, height);
    }
  }

  class BPlusTree {
    var order: nat
    var minKeys: nat
    var root: Node
    ghost var layout: Layout
    ghost var tree: Tree
    ghost var height: nat

    /** The linked nodes hold `tree`, and its leaves are chained in order. */
    ghost predicate Wired()
      reads this, Nodes(layout)
    {
      minKeys == (order + 1) / 2 && Linked(root, layout, tree) && Shaped(tree)
    }

    /** The tree satisfies the invariant of every run that meets no hidden key. */
    ghost predicate Ordered()
      reads this
    {
      Shaped(tree) && Valid(tree, order, Open, Open, height)
    }

    ghost predicate Inv()
      reads this, Nodes(layout)
    {
      Wired() && Ordered()
    }

    /** The finite map the tree refines. */
    ghost function Contents(): map<int, int>
      reads this
      requires Shaped(tree)
    {
      MapOf(Entries(tree))
    }

    constructor (order: nat)
      ensures Inv() && this.order == order && Contents() == map[] && fresh(Nodes(layout))
    {
      var leaf := new Node(true);
      this.order := order;
      this.minKeys := (order + 1) / 2;
      this.root := leaf;
      this.layout := LeafAt(leaf);
      this.tree := Leaf([], []);
      this.height := 1;
    }

    /** What the search in the tree gives: in an ordered tree the row of the key, or -1. */
    method FindUnlocked(key: int) returns (row: int)
      requires Wired()
      ensures Wired() && row == Find(tree, key)
      ensures Ordered() ==> row == RowAt(Contents(), key)
    {
      NodesAllocated(layout);
      if Ordered() {
        FindIsLookup(tree, key, order, height);
      }
      ghost var visited;
      row, visited := Search(root, key, layout, tree);
    }

    /** A key that find sees is refused and nothing changes; otherwise its pair is added, in the
        tree the value-level insertion gives.  An ordered tree stays ordered unless the key was
        there with row id -1, which find does not see: then its pairs stand side by side. */
    method InsertUnlocked(key: int, row: int) returns (ok: bool, ghost made: set<Node>)
      requires Wired()
      modifies this, Nodes(layout)
      ensures Wired() && order == old(order) && fresh(made) && Nodes(layout) <= old(Nodes(layout)) + made
      ensures ok == (Find(old(tree), key) == -1)
      ensures tree == if ok then InsertRoot(old(tree), key, row, order) else old(tree)
      ensures old(Ordered()) ==>
        Entries(tree) == if ok then InsertEntry(old(Entries(tree)), key, row) else old(Entries(tree))
      ensures old(Ordered()) && !Hidden(old(Contents()), key) ==>
        && Ordered() && ok == (key !in old(Contents()))
        && Contents() == if ok then old(Contents())[key := row] else old(Contents())
    {
      var found := FindUnlocked(key);
      if found != -1 {
        return false, {};
      }
      ghost var height' := OrderKept(tree, key, row, order, height);
      made := AddPair(key, row);
      height := height';
      ok := true;
    }

    method AddPair(key: int, row: int) returns (ghost made: set<Node>)
      requires Wired()
      modifies this`root, this`layout, this`tree, Nodes(layout)
      ensures Wired() && fresh(made) && Nodes(layout) <= old(Nodes(layout)) + made
      ensures tree == InsertRoot(old(tree), key, row, order)
    {
      ghost var t' := InsertRoot(tree, key, row, order);
      root, layout, made := InsertFromRoot(root, key, row, order, layout, tree);
      tree := t';
    }

    /** A key that find does not see is refused; otherwise its pair is taken out, in an ordered
        tree that pair alone. */
    method RemoveUnlocked(key: int) returns (ok: bool)
      requires Wired()
      modifies this, Nodes(layout)
      ensures Wired() && order == old(order) && Nodes(layout) <= old(Nodes(layout))
      ensures ok == (Find(old(tree), key) != -1)
      ensures tree == if ok then RemoveRoot(old(tree), key) else old(tree)
      ensures old(Ordered()) ==>
        && Ordered() && ok == (RowAt(old(Contents()), key) != -1)
        && Contents() == if ok then old(Contents()) - {key} else old(Contents())
    {
      var found := FindUnlocked(key);
      if found == -1 {
        return false;
      }
      OrderKeptByRemoval(tree, key, order, height);
      TakeOut(key);
      ok := true;
    }

    method TakeOut(key: int)
      requires Wired()
      modifies this`root, this`layout, this`tree, Nodes(layout)
      ensures Wired() && Nodes(layout) <= old(Nodes(layout))
      ensures tree == RemoveRoot(old(tree), key)
    {
      ghost var t' := RemoveRoot(tree, key);
      root, layout := RemoveFromRoot(root, key, layout, tree);
      tree := t';
    }

    /** What the scan of the leaf chain takes, from the leaf the descent for min reaches: in an ordered
        tree the rows of all keys in [min, max], in ascending key order. */
    method RangeSearchUnlocked(min: int, max: int) returns (results: seq<int>)
      requires Wired()
      ensures Wired() && LeavesBefore(tree, min) < |LeafList(tree)|
      ensures results == ScanLeaves(LeafList(tree)[LeavesBefore(tree, min)..], min, max)
      ensures Ordered() ==> KeysAscend(Entries(tree)) && results == RowsBetween(Entries(tree), min, max)
    {
      LeafContents(layout, tree);
      LeavesHoldEntries(tree);
      NodesAllocated(layout);
      LeavesAllocated(layout);
      var node := DescendTo(root, min, layout, tree);
      results := ScanChain(node, min, max, layout, tree, LeavesBefore(tree, min));
      if Ordered() {
        ScanIsRange(tree, min, max, order, height);
      }
    }

    method Clear()
      requires Wired()
      modifies this
      ensures Inv() && order == old(order) && Contents() == map[] && fresh(Nodes(layout))
    {
      root := new Node(true);
      layout, tree, height := LeafAt(root), Leaf([], []), 1;
    }
  }
}
