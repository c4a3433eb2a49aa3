/** Saving a linked B+ tree as a list of records and building linked nodes from one. */
module BPlusTreeFile {
  import opened BTree
  import opened BTreeLaws
  import opened BTreeSerial
  import opened BPlusTree
  import opened Sequences

  // ---------- Saving ----------

  lemma {:induction false} FlattenKidsSnoc(ts: seq<Tree>, i: nat, at: nat, parent: int, child: int)
    requires i < |ts|
    ensures FlattenKids(ts[..i + 1], at, parent, child)
         == FlattenKids(ts[..i], at, parent, child)
          + Flatten(ts[i], at + |FlattenKids(ts[..i], at, parent, child)|, parent, child + i)
    decreases i
  {
    if i == 0 {
      assert ts[..1][1..] == [];
    } else {
      FlattenKidsLater(ts, i, at, parent, child);
    }
  }

  lemma {:induction false} FlattenKidsLater(ts: seq<Tree>, i: nat, at: nat, parent: int, child: int)
    requires 0 < i < |ts|
    ensures FlattenKids(ts[..i + 1], at, parent, child)
         == FlattenKids(ts[..i], at, parent, child)
          + Flatten(ts[i], at + |FlattenKids(ts[..i], at, parent, child)|, parent, child + i)
    decreases i, 0
  {
    var a, b := ts[..i + 1], ts[..i];
    FlattenKidsSnoc(ts[1..], i - 1, at + Size(ts[0]), parent, child + 1);
    assert a[1..] == ts[1..][..i] && b[1..] == ts[1..][..i - 1];
    assert a[0] == ts[0] && b[0] == ts[0];
    var first, rest := Flatten(ts[0], at, parent, child), FlattenKids(b[1..], at + Size(ts[0]), parent, child + 1);
    Reassociate(first, rest, Flatten(ts[i], at + |first| + |rest|, parent, child + i));
  }

  /** The recursive writer: the records of the subtree are appended in preorder. */
  method SerializeNode(node: Node, nodes: seq<FlatNode>, parentIndex: int, childIndex: int, ghost s: Layout,
                       ghost t: Tree)
    returns (out: seq<FlatNode>)
    requires s.node == node && Holds(s, t)
    ensures out == nodes + Flatten(t, |nodes|, parentIndex, childIndex)
    decreases t, 1
  {
    if node.isLeaf {
      out := nodes + [FlatLeaf(parentIndex, childIndex, node.keys, node.values, |nodes|)];
    } else {
      out := nodes + [FlatInner(parentIndex, childIndex, node.keys, |node.children|)];
      out := SerializeKids(node.children, out, |nodes|, s.kids, t.kids);
    }
  }

  lemma {:induction false} AppendKid(nodes: seq<FlatNode>, ts: seq<Tree>, i: nat, parent: int)
    requires i < |ts|
    ensures var done := nodes + FlattenKids(ts[..i], |nodes|, parent, 0);
      nodes + FlattenKids(ts[..i + 1], |nodes|, parent, 0) == done + Flatten(ts[i], |done|, parent, i)
  {
    FlattenKidsSnoc(ts, i, |nodes|, parent, 0);
  }

  method SerializeKids(children: seq<Node>, nodes: seq<FlatNode>, currentIndex: nat, ghost ss: seq<Layout>,
                       ghost ts: seq<Tree>)
    returns (out: seq<FlatNode>)
    requires children == Roots(ss) && KidsHold(ss, ts)
    ensures out == nodes + FlattenKids(ts, |nodes|, currentIndex, 0)
    decreases ts, 0
  {
    out := nodes;
    KidsAllocated(ss);
    var i := 0;
    while i < |children|
      invariant i <= |children| && KidsHold(ss, ts)
      invariant out == nodes + FlattenKids(ts[..i], |nodes|, currentIndex, 0)
    {
      AppendKid(nodes, ts, i, currentIndex);
      out := SerializeNode(children[i], out, currentIndex, i, ss[i], ts[i]);
      i := i + 1;
    }
    assert ts[..i] == ts;
  }

  method Serialize(tree: BPlusTree) returns (nodes: seq<FlatNode>)
    requires tree.Wired()
    ensures nodes == Flatten(tree.tree, 0, -1, 0)
  {
    nodes := SerializeNode(tree.root, [], -1, 0, tree.layout, tree.tree);
  }

  // ---------- Loading ----------

  /** all[i] is built from record i: its keys and rows, and as children the records right
      behind it. */
  ghost predicate Built(all: seq<Node>, nodes: seq<FlatNode>, i: nat)
    requires i < |all| == |nodes|
    reads all
  {
    var node, rec := all[i], nodes[i];
    && node.isLeaf == rec.FlatLeaf? && node.keys == rec.keys
    && node.values == (if rec.FlatLeaf? then rec.rows else [])
    && node.children == (if rec.FlatLeaf? then [] else all[i + 1..Min(i + 1 + rec.childCount, |all|)])
  }

  ghost predicate Distinct(ns: seq<Node>) {
    forall i, j :: 0 <= i < j < |ns| ==> ns[i] != ns[j]
  }

  /** The objects of the leaf records, in list order. */
  ghost function LeafObjects(all: seq<Node>, nodes: seq<FlatNode>): seq<Node>
    requires |all| == |nodes|
  {
    if all == [] then []
    else
      var n := |all| - 1;
      LeafObjects(all[..n], nodes[..n]) + if nodes[n].FlatLeaf? then [all[n]] else []
  }

  /** First pass: one new node for each record, without children or links. */
  method CreateNodes(nodes: seq<FlatNode>) returns (all: seq<Node>)
    ensures |all| == |nodes| && Distinct(all) && fresh(all)
    ensures forall i :: 0 <= i < |all| ==> Blank(all, nodes, i) && all[i].next == null
  {
    all := [];
    var i := 0;
    while i < |nodes|
      invariant i == |all| <= |nodes| && Distinct(all) && fresh(all)
      invariant forall j :: 0 <= j < i ==>
        && all[j].isLeaf == nodes[j].FlatLeaf? && all[j].keys == nodes[j].keys
        && all[j].values == (if nodes[j].FlatLeaf? then nodes[j].rows else [])
        && all[j].children == [] && all[j].next == null
    {
      ghost var before := all;
      var node := new Node(nodes[i].FlatLeaf?);
      assert node !in before;
      node.keys := nodes[i].keys;
      if nodes[i].FlatLeaf? {
        node.values := nodes[i].rows;
      }
      all := all + [node];
      i := i + 1;
    }
  }

  /** Record i has its node, but no children yet. */
  ghost predicate Blank(all: seq<Node>, nodes: seq<FlatNode>, i: nat)
    requires i < |all| == |nodes|
    reads all
  {
    var node, rec := all[i], nodes[i];
    && node.isLeaf == rec.FlatLeaf? && node.keys == rec.keys
    && node.values == (if rec.FlatLeaf? then rec.rows else [])
    && node.children == []
  }

  /** Second pass, one inner record: child c is the record i + 1 + c, while there is one. */
  method LinkOne(all: seq<Node>, nodes: seq<FlatNode>, i: nat)
    requires i < |all| == |nodes| && nodes[i].FlatInner? && Blank(all, nodes, i)
    modifies all[i]
    ensures Built(all, nodes, i) && all[i].next == old(all[i].next)
  {
    var node: Node := all[i];
    var startIdx := i + 1;
    var c := 0;
    while c < nodes[i].childCount
      invariant c <= nodes[i].childCount
      invariant node.children == all[startIdx..Min(startIdx + c, |all|)]
      invariant unchanged(node`isLeaf, node`keys, node`values, node`next)
    {
      if startIdx + c < |all| {
        assert all[startIdx..startIdx + c + 1] == all[startIdx..startIdx + c] + [all[startIdx + c]];
        node.children := node.children + [all[startIdx + c]];
      }
      c := c + 1;
    }
  }

  /** The first i nodes have their children, the others have none yet, and none is linked. */
  ghost predicate LinkedUpTo(all: seq<Node>, nodes: seq<FlatNode>, i: nat)
    requires |all| == |nodes|
    reads all
  {
    forall j :: 0 <= j < |all| ==>
      (if j < i then Built(all, nodes, j) else Blank(all, nodes, j)) && all[j].next == null
  }

  method LinkNext(all: seq<Node>, nodes: seq<FlatNode>, i: nat)
    requires i < |all| == |nodes| && Distinct(all) && LinkedUpTo(all, nodes, i)
    modifies all[i]
    ensures LinkedUpTo(all, nodes, i + 1)
  {
    assert Blank(all, nodes, i);
    if nodes[i].FlatInner? {
      LinkOne(all, nodes, i);
    }
    forall j | 0 <= j < |all| && j != i
      ensures (if j < i + 1 then Built(all, nodes, j) else Blank(all, nodes, j)) && all[j].next == null
    {
      assert all[j] != all[i];
      assert old(if j < i then Built(all, nodes, j) else Blank(all, nodes, j));
    }
  }

  method LinkChildren(all: seq<Node>, nodes: seq<FlatNode>)
    requires |all| == |nodes| && Distinct(all)
    requires forall i :: 0 <= i < |all| ==> Blank(all, nodes, i) && all[i].next == null
    modifies all
    ensures forall i :: 0 <= i < |all| ==> Built(all, nodes, i) && all[i].next == null
  {
    var i := 0;
    while i < |nodes|
      invariant i <= |nodes| && LinkedUpTo(all, nodes, i)
    {
      LinkNext(all, nodes, i);
      i := i + 1;
    }
  }

  /** The leaf nodes, in list order. */
  method CollectLeaves(all: seq<Node>, nodes: seq<FlatNode>) returns (leaves: seq<Node>)
    requires |all| == |nodes| && forall i :: 0 <= i < |all| ==> all[i].isLeaf == nodes[i].FlatLeaf?
    ensures leaves == LeafObjects(all, nodes)
  {
    leaves := [];
    var i := 0;
    while i < |all|
      invariant i <= |all| && leaves == LeafObjects(all[..i], nodes[..i])
    {
      assert all[..i + 1][..i] == all[..i] && nodes[..i + 1][..i] == nodes[..i];
      if all[i].isLeaf {
        leaves := leaves + [all[i]];
      }
      i := i + 1;
    }
    assert all[..i] == all && nodes[..i] == nodes;
  }

  /** Third pass: each leaf is linked to the next one, the last to nothing.  Without a leaf the
      bound |leaves| - 1 wraps around and the loop leaves the vector: that is the answer no. */
  method LinkLeaves(leaves: seq<Node>) returns (ok: bool)
    requires Distinct(leaves)
    modifies leaves
    ensures ok == (leaves != []) && (ok ==> Chained(leaves, null))
    ensures forall n :: n in leaves ==>
      n.isLeaf == old(n.isLeaf) && n.keys == old(n.keys) && n.values == old(n.values) && n.children == old(n.children)
  {
    if leaves == [] {
      return false;
    }
    var i := 0;
    while i < |leaves| - 1
      invariant i <= |leaves| - 1
      invariant forall j {:trigger leaves[j]} :: 0 <= j < i ==> leaves[j].next == leaves[j + 1]
      invariant forall n :: n in leaves ==>
        n.isLeaf == old(n.isLeaf) && n.keys == old(n.keys) && n.values == old(n.values) && n.children == old(n.children)
    {
      leaves[i].next := leaves[i + 1];
      i := i + 1;
    }
    leaves[|leaves| - 1].next := null;
    ok := true;
  }

  lemma {:induction false} LeafObjectsAreNodes(all: seq<Node>, nodes: seq<FlatNode>)
    requires |all| == |nodes| && Distinct(all)
    ensures Distinct(LeafObjects(all, nodes))
    ensures forall n :: n in LeafObjects(all, nodes) ==> n in all
  {
    if all != [] {
      var n := |all| - 1;
      LeafObjectsAreNodes(all[..n], nodes[..n]);
      var front := LeafObjects(all[..n], nodes[..n]);
      assert forall x :: x in all[..n] ==> x != all[n];
      assert all[n] !in front;
      assert Distinct(front + [all[n]]);
    }
  }

  lemma {:induction false} SomeLeafObject(all: seq<Node>, nodes: seq<FlatNode>)
    requires |all| == |nodes|
    ensures HasLeaf(nodes) <==> LeafObjects(all, nodes) != []
  {
    if all != [] {
      var n := |all| - 1;
      SomeLeafObject(all[..n], nodes[..n]);
      assert nodes == nodes[..n] + [nodes[n]];
      assert nodes[n].FlatLeaf? || HasLeaf(nodes[..n]) <==> HasLeaf(nodes);
    }
  }

  predicate HasLeaf(nodes: seq<FlatNode>) {
    exists rec :: rec in nodes && rec.FlatLeaf?
  }

  method LinkAll(all: seq<Node>, nodes: seq<FlatNode>) returns (ok: bool)
    requires |all| == |nodes| && Distinct(all)
    requires forall i :: 0 <= i < |all| ==> Blank(all, nodes, i) && all[i].next == null
    modifies all
    ensures forall i :: 0 <= i < |all| ==> Built(all, nodes, i)
    ensures ok == HasLeaf(nodes) && (ok ==> Chained(LeafObjects(all, nodes), null))
  {
    LinkChildren(all, nodes);
    LeafObjectsAreNodes(all, nodes);
    SomeLeafObject(all, nodes);
    var leaves := CollectLeaves(all, nodes);
    forall i | 0 <= i < |leaves| ensures leaves[i] in all { assert leaves[i] in leaves; }
    label beforeLeaves:
    ok := LinkLeaves(leaves);
    forall i | 0 <= i < |all| ensures Built(all, nodes, i) {
      assert old@beforeLeaves(Built(all, nodes, i));
      var node := all[i];
      assert node in leaves || unchanged@beforeLeaves(node);
    }
  }

  /** The three passes of deserialize: nodes, children as coded, and the leaf chain.  No root
      comes back from records without a leaf. */
  method Deserialize(nodes: seq<FlatNode>, rootIndex: int) returns (root: Node?, all: seq<Node>)
    ensures |all| == |nodes| && Distinct(all) && fresh(all)
    ensures forall i :: 0 <= i < |all| ==> Built(all, nodes, i)
    ensures root != null <==> HasLeaf(nodes)
    ensures root != null ==> fresh(root) && Chained(LeafObjects(all, nodes), null)
    ensures root != null && 0 <= rootIndex < |all| ==> root == all[rootIndex]
    ensures root != null && !(0 <= rootIndex < |all|) ==>
      Holds(LeafAt(root), Leaf([], [])) && root.next == null
  {
    all := CreateNodes(nodes);
    var ok := LinkAll(all, nodes);
    if !ok {
      root := null;
    } else if 0 <= rootIndex < |all| {
      root := all[rootIndex];
    } else {
      ghost var leaves := LeafObjects(all, nodes);
      LeafListAllocated(leaves);
      root := new Node(true);
    }
  }

  /** Whatever the depth, the chain visits leaf objects holding the leaf records in order. */
  lemma {:induction false} ChainHoldsLeaves(all: seq<Node>, nodes: seq<FlatNode>)
    requires |all| == |nodes| && forall i :: 0 <= i < |all| ==> Built(all, nodes, i)
    ensures var ls, rs := LeafObjects(all, nodes), LeafRecords(nodes);
      && |ls| == |rs|
      && forall j :: 0 <= j < |ls| ==> rs[j].Leaf? && ls[j].keys == rs[j].keys && ls[j].values == rs[j].rows
  {
    forall i | 0 <= i < |all|
      ensures all[i].keys == nodes[i].keys && (nodes[i].FlatLeaf? ==> all[i].values == nodes[i].rows)
    {
      assert Built(all, nodes, i);
    }
    LeafFieldsHold(all, nodes);
  }

  lemma {:induction false} LeafFieldsHold(all: seq<Node>, nodes: seq<FlatNode>)
    requires |all| == |nodes|
    requires forall i :: 0 <= i < |all| ==>
      all[i].keys == nodes[i].keys && (nodes[i].FlatLeaf? ==> all[i].values == nodes[i].rows)
    ensures var ls, rs := LeafObjects(all, nodes), LeafRecords(nodes);
      && |ls| == |rs|
      && forall j :: 0 <= j < |ls| ==> rs[j].Leaf? && ls[j].keys == rs[j].keys && ls[j].values == rs[j].rows
  {
    if all != [] {
      var n := |all| - 1;
      LeafFieldsHold(all[..n], nodes[..n]);
      assert nodes == nodes[..n] + [nodes[n]];
      LeafRecordsConcat(nodes[..n], [nodes[n]]);
      assert [nodes[n]][1..] == [];
    }
  }

  /** The layout of a loaded tree of at most two levels. */
  ghost function LoadedLayout(all: seq<Node>, t: Tree): Layout
    requires all != []
  {
    if t.Leaf? then LeafAt(all[0])
    else InnerAt(all[0], seq(|all| - 1, i requires 0 <= i < |all| - 1 => LeafAt(all[i + 1])))
  }

  lemma {:induction false} LeafLayouts(ns: seq<Node>, ss: seq<Layout>)
    requires |ss| == |ns| && forall i :: 0 <= i < |ns| ==> ss[i] == LeafAt(ns[i])
    ensures LeafNodesOf(ss) == ns && Roots(ss) == ns
    ensures NodesOf(ss) == set n | n in ns
    ensures Distinct(ns) ==> ApartKids(ss)
  {
    LeafLists(ns, ss);
    forall n | n in ns ensures n in NodesOf(ss) {
      var i :| 0 <= i < |ns| && ns[i] == n;
      assert n in Nodes(ss[i]);
    }
  }

  lemma {:induction false} LeafLists(ns: seq<Node>, ss: seq<Layout>)
    requires |ss| == |ns| && forall i :: 0 <= i < |ns| ==> ss[i] == LeafAt(ns[i])
    ensures LeafNodesOf(ss) == ns && Roots(ss) == ns
  {
    if ns != [] {
      LeafLists(ns[1..], ss[1..]);
      assert ns == [ns[0]] + ns[1..];
    }
  }

  lemma {:induction false} AllLeafObjects(all: seq<Node>, nodes: seq<FlatNode>)
    requires |all| == |nodes| >= 1 && forall i :: 1 <= i < |nodes| ==> nodes[i].FlatLeaf?
    ensures LeafObjects(all, nodes) == if nodes[0].FlatLeaf? then all else all[1..]
  {
    var n := |all| - 1;
    if n == 0 {
      assert all == [all[0]] && all[1..] == [];
    } else {
      var front := all[..n];
      AllLeafObjects(front, nodes[..n]);
      assert all == front + [all[n]];
      assert all[1..] == front[1..] + [all[n]];
    }
  }

  /** The records behind the first are those of these leaves. */
  ghost predicate KidRecords(nodes: seq<FlatNode>, ts: seq<Tree>) {
    && |nodes| == |ts| + 1
    && forall j :: 0 <= j < |ts| ==>
         ts[j].Leaf? && nodes[j + 1] == FlatLeaf(0, j, ts[j].keys, ts[j].rows, j + 1)
  }

  /** The records of a tree of at most two levels: a leaf, or an inner node and its leaves. */
  lemma {:induction false} ShallowRecords(t: Tree, order: nat, height: nat)
    requires Valid(t, order, Open, Open, height) && height <= 2
    ensures var nodes := Flatten(t, 0, -1, 0);
      && nodes[0].keys == t.keys && nodes[0].FlatLeaf? == t.Leaf?
      && (t.Leaf? ==> |nodes| == 1 && nodes[0].rows == t.rows)
      && (t.Inner? ==> |nodes| == |t.kids| + 1 >= 2 && nodes[0] == FlatInner(-1, 0, t.keys, |t.kids|))
      && (t.Inner? ==> KidRecords(nodes, t.kids))
  {
    if t.Inner? {
      KidValid(t, 0, order, Open, Open, height);
      forall j | 0 <= j < |t.kids| ensures t.kids[j].Leaf? { KidValid(t, j, order, Open, Open, height); }
      LeafKidsFlatten(t.kids, 1, 0, 0);
      var nodes := Flatten(t, 0, -1, 0);
      forall j | 0 <= j < |t.kids|
        ensures nodes[j + 1] == FlatLeaf(0, j, t.kids[j].keys, t.kids[j].rows, j + 1)
      {
        assert nodes[j + 1] == FlattenKids(t.kids, 1, 0, 0)[j];
      }
    }
  }

  lemma {:induction false} LoadedKids(all: seq<Node>, nodes: seq<FlatNode>, ts: seq<Tree>, ss: seq<Layout>)
    requires |all| == |nodes| == |ss| + 1 && |ts| == |ss|
    requires forall i :: 0 <= i < |all| ==> Built(all, nodes, i)
    requires forall i :: 0 <= i < |ss| ==> ss[i] == LeafAt(all[i + 1])
    requires KidRecords(nodes, ts)
    ensures KidsHold(ss, ts)
  {
    forall j | 0 <= j < |ss| ensures Nodes(ss[j]) <= NodesOf(ss) && Holds(ss[j], ts[j]) {
      NodesOfHas(ss, j);
      assert Built(all, nodes, j + 1);
    }
  }

  lemma {:induction false} LoadedApart(all: seq<Node>, ss: seq<Layout>)
    requires |all| == |ss| + 1 >= 2 && Distinct(all)
    requires forall i :: 0 <= i < |ss| ==> ss[i] == LeafAt(all[i + 1])
    ensures Apart(InnerAt(all[0], ss)) && LeafNodesOf(ss) == Roots(ss) == all[1..]
  {
    var rest := all[1..];
    LeafLayouts(rest, ss);
    assert all[0] !in rest;
  }

  lemma {:induction false} LoadedInner(all: seq<Node>, nodes: seq<FlatNode>, t: Tree, ss: seq<Layout>)
    requires |all| == |nodes| == |ss| + 1 >= 2 && t.Inner? && |t.kids| == |ss|
    requires Built(all, nodes, 0) && KidsHold(ss, t.kids) && Roots(ss) == all[1..]
    requires nodes[0] == FlatInner(-1, 0, t.keys, |t.kids|)
    ensures Holds(InnerAt(all[0], ss), t)
  {
    assert all[1..|all|] == all[1..];
  }

  /** As coded, loading links a tree of at most two levels exactly as it was. */
  lemma {:induction false} LoadedIsLinked(all: seq<Node>, nodes: seq<FlatNode>, t: Tree, order: nat, height: nat)
    requires |all| == |nodes| && Distinct(all) && nodes == Flatten(t, 0, -1, 0)
    requires forall i :: 0 <= i < |all| ==> Built(all, nodes, i)
    requires Chained(LeafObjects(all, nodes), null)
    requires Valid(t, order, Open, Open, height) && height <= 2
    ensures Linked(all[0], LoadedLayout(all, t), t)
  {
    ShallowRecords(t, order, height);
    if t.Inner? {
      forall j | 1 <= j < |nodes| ensures nodes[j].FlatLeaf? {
        var k := j - 1;
        assert t.kids[k].Leaf? && nodes[k + 1].FlatLeaf?;
      }
    }
    AllLeafObjects(all, nodes);
    if t.Inner? {
      var ss := LoadedLayout(all, t).kids;
      LoadedKids(all, nodes, t.kids, ss);
      LoadedApart(all, ss);
      LoadedInner(all, nodes, t, ss);
    } else {
      assert Built(all, nodes, 0);
      assert all == [all[0]];
    }
  }

  lemma {:induction false} SavedHasLeaf(t: Tree, order: nat, height: nat)
    requires Valid(t, order, Open, Open, height) && height <= 2
    ensures HasLeaf(Flatten(t, 0, -1, 0))
  {
    ShallowRecords(t, order, height);
    assert Flatten(t, 0, -1, 0)[if t.Leaf? then 0 else 1].FlatLeaf?;
  }

  /** Loading the records of a tree of at most two levels. */
  method Load(nodes: seq<FlatNode>, order: nat, ghost t: Tree, ghost height: nat) returns (copy: BPlusTree)
    requires Valid(t, order, Open, Open, height) && height <= 2 && nodes == Flatten(t, 0, -1, 0)
    ensures copy.Inv() && fresh(copy) && copy.order == order && copy.tree == t
  {
    copy := new BPlusTree(order);
    SavedHasLeaf(t, order, height);
    var root, all := Deserialize(nodes, 0);
    LoadedIsLinked(all, nodes, t, order, height);
    ValidIsShaped(t, order, Open, Open, height);
    copy.root, copy.layout, copy.tree, copy.height := root, LoadedLayout(all, t), t, height;
  }

  /** Saving a tree of at most two levels and loading it again gives an equal, valid tree. */
  method SaveAndLoad(tree: BPlusTree) returns (copy: BPlusTree)
    requires tree.Inv() && tree.height <= 2
    ensures copy.Inv() && fresh(copy) && copy.order == tree.order && copy.tree == tree.tree
  {
    var nodes := Serialize(tree);
    copy := Load(nodes, tree.order, tree.tree, tree.height);
  }

  /** What following children from n shows, whatever nodes are shared on the way. */
  ghost predicate Shows(n: Node, t: Tree)
    reads *
    decreases t
  {
    && n.isLeaf == t.Leaf? && n.keys == t.keys
    && match t
       case Leaf(_, rows) => n.values == rows && n.children == []
       case Inner(_, kids) =>
         |n.children| == |kids| && forall i :: 0 <= i < |kids| ==> Shows(n.children[i], kids[i])
  }

  /** The loaded objects show the tree that Unfold reads off the records: the original one
      exactly when it has at most two levels. */
  lemma {:induction false} LoadedShowsUnfold(all: seq<Node>, nodes: seq<FlatNode>, i: nat)
    requires |all| == |nodes| && i < |all| && forall j :: 0 <= j < |all| ==> Built(all, nodes, j)
    ensures Shows(all[i], Unfold(nodes, i))
    decreases |all| - i
  {
    assert Built(all, nodes, i);
    if nodes[i].FlatInner? {
      var to := Min(i + 1 + nodes[i].childCount, |all|);
      forall j | i + 1 <= j < to ensures Shows(all[j], Unfold(nodes, j)) {
        LoadedShowsUnfold(all, nodes, j);
      }
      forall c | 0 <= c < to - (i + 1) ensures Shows(all[i].children[c], Unfold(nodes, i).kids[c]) {
        assert all[i].children[c] == all[i + 1 + c];
      }
    }
  }
}
