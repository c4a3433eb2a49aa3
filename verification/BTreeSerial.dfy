/** The serialized form of a B+ tree: a flat list of node records in preorder, and what
    reading that list back gives. */
module BTreeSerial {
  import opened BTree
  import opened BTreeLaws

  /** One record: where it hangs, its keys, and either its rows and its own position, or the
      number of its children. */
  datatype FlatNode =
    | FlatLeaf(parentIndex: int, childIndex: int, keys: seq<int>, rows: seq<int>, selfIndex: nat)
    | FlatInner(parentIndex: int, childIndex: int, keys: seq<int>, childCount: nat)

  // ---------- Writing ----------

  /** The records of t when its root record lands at position `at`. */
  function Flatten(t: Tree, at: nat, parent: int, child: int): (r: seq<FlatNode>)
    ensures |r| == Size(t) > 0
    decreases t, 1
  {
    match t
    case Leaf(keys, rows) => [FlatLeaf(parent, child, keys, rows, at)]
    case Inner(keys, kids) => [FlatInner(parent, child, keys, |kids|)] + FlattenKids(kids, at + 1, at, 0)
  }

  function FlattenKids(ts: seq<Tree>, at: nat, parent: int, child: int): (r: seq<FlatNode>)
    ensures |r| == SizeOf(ts)
    decreases ts, 0
  {
    if ts == [] then []
    else Flatten(ts[0], at, parent, child) + FlattenKids(ts[1..], at + Size(ts[0]), parent, child + 1)
  }

  function Size(t: Tree): nat
    decreases t, 1
  {
    match t
    case Leaf(_, _) => 1
    case Inner(_, kids) => 1 + SizeOf(kids)
  }

  function SizeOf(ts: seq<Tree>): nat
    decreases ts, 0
  {
    if ts == [] then 0 else Size(ts[0]) + SizeOf(ts[1..])
  }

  // ---------- Reading, as coded ----------

  /** The tree hanging at record i when child c of an inner record is the record right
      behind it by 1 + c, as far as there are records. */
  function Unfold(nodes: seq<FlatNode>, i: nat): Tree
    requires i < |nodes|
    decreases |nodes| - i, 0
  {
    match nodes[i]
    case FlatLeaf(_, _, keys, rows, _) => Leaf(keys, rows)
    case FlatInner(_, _, keys, count) => Inner(keys, UnfoldRun(nodes, i + 1, Min(i + 1 + count, |nodes|)))
  }

  /** The trees hanging at records from .. to. */
  function UnfoldRun(nodes: seq<FlatNode>, from: nat, to: nat): (r: seq<Tree>)
    requires from <= to <= |nodes|
    ensures |r| == to - from
    ensures forall j :: from <= j < to ==> r[j - from] == Unfold(nodes, j)
    decreases |nodes| - from, 1
  {
    if from == to then [] else [Unfold(nodes, from)] + UnfoldRun(nodes, from + 1, to)
  }

  function Min(a: nat, b: nat): nat {
    if a < b then a else b
  }

  // ---------- Reading, by subtree offsets (a correction of the coded placement) ----------

  datatype Parsed = Failed | Parsed(tree: Tree, next: nat)
  datatype ParsedRun = RunFailed | ParsedRun(trees: seq<Tree>, next: nat)

  /** The tree whose records start at i, and where they end. */
  function Read(nodes: seq<FlatNode>, i: nat): (r: Parsed)
    ensures r.Parsed? ==> i < r.next <= |nodes|
    decreases |nodes| - i, 0, 0
  {
    if i >= |nodes| then Failed
    else match nodes[i]
      case FlatLeaf(_, _, keys, rows, _) => Parsed(Leaf(keys, rows), i + 1)
      case FlatInner(_, _, keys, count) =>
        match ReadRun(nodes, i + 1, count)
        case RunFailed => Failed
        case ParsedRun(kids, next) => Parsed(Inner(keys, kids), next)
  }

  function ReadRun(nodes: seq<FlatNode>, i: nat, count: nat): (r: ParsedRun)
    ensures r.ParsedRun? ==> i <= r.next && (i <= |nodes| ==> r.next <= |nodes|)
    decreases |nodes| - i, 1, count
  {
    if count == 0 then ParsedRun([], i)
    else match Read(nodes, i)
      case Failed => RunFailed
      case Parsed(t, next) =>
        match ReadRun(nodes, next, count - 1)
        case RunFailed => RunFailed
        case ParsedRun(ts, end) => ParsedRun([t] + ts, end)
  }

  /** Read with subtree offsets, the list gives back the tree at every depth. */
  lemma {:induction false} ReadFlatten(t: Tree, at: nat, parent: int, child: int, pre: seq<FlatNode>,
                                       post: seq<FlatNode>)
    ensures Read(pre + Flatten(t, at, parent, child) + post, |pre|) == Parsed(t, |pre| + Size(t))
    decreases t, 1
  {
    var nodes := pre + Flatten(t, at, parent, child) + post;
    if t.Inner? {
      var head := [FlatInner(parent, child, t.keys, |t.kids|)];
      ReadFlattenKids(t.kids, at + 1, at, 0, pre + head, post);
      assert nodes == (pre + head) + FlattenKids(t.kids, at + 1, at, 0) + post;
    }
  }

  lemma {:induction false} Regroup(pre: seq<FlatNode>, first: seq<FlatNode>, rest: seq<FlatNode>, post: seq<FlatNode>)
    ensures pre + first + (rest + post) == pre + (first + rest) + post
    ensures (pre + first) + rest + post == pre + (first + rest) + post
  {}

  lemma {:induction false} ReadFlattenKids(ts: seq<Tree>, at: nat, parent: int, child: int, pre: seq<FlatNode>,
                                           post: seq<FlatNode>)
    ensures ReadRun(pre + FlattenKids(ts, at, parent, child) + post, |pre|, |ts|) == ParsedRun(ts, |pre| + SizeOf(ts))
    decreases ts, 0
  {
    if ts != [] {
      ReadFlattenSome(ts, at, parent, child, pre, post);
    }
  }

  lemma {:induction false} ReadFlattenSome(ts: seq<Tree>, at: nat, parent: int, child: int, pre: seq<FlatNode>,
                                           post: seq<FlatNode>)
    requires ts != []
    ensures ReadRun(pre + FlattenKids(ts, at, parent, child) + post, |pre|, |ts|) == ParsedRun(ts, |pre| + SizeOf(ts))
    decreases ts, 0, 0
  {
    var first := Flatten(ts[0], at, parent, child);
    var rest := FlattenKids(ts[1..], at + Size(ts[0]), parent, child + 1);
    ReadFlatten(ts[0], at, parent, child, pre, rest + post);
    ReadFlattenKids(ts[1..], at + Size(ts[0]), parent, child + 1, pre + first, post);
    Regroup(pre, first, rest, post);
  }

  // ---------- Leaf order ----------

  /** The leaf records of a list, in list order. */
  function LeafRecords(nodes: seq<FlatNode>): seq<Tree> {
    if nodes == [] then []
    else (if nodes[0].FlatLeaf? then [Leaf(nodes[0].keys, nodes[0].rows)] else []) + LeafRecords(nodes[1..])
  }

  lemma {:induction false} LeafRecordsConcat(a: seq<FlatNode>, b: seq<FlatNode>)
    ensures LeafRecords(a + b) == LeafRecords(a) + LeafRecords(b)
  {
    if a == [] {
      assert a + b == b;
    } else {
      assert (a + b)[0] == a[0] && (a + b)[1..] == a[1..] + b;
      LeafRecordsConcat(a[1..], b);
    }
  }

  /** Linking leaf records in list order links the leaves in key order, at every depth. */
  lemma {:induction false} LeafRecordsOfFlatten(t: Tree, at: nat, parent: int, child: int)
    ensures LeafRecords(Flatten(t, at, parent, child)) == LeafList(t)
    decreases t, 1
  {
    match t
    case Leaf(keys, rows) =>
      assert Flatten(t, at, parent, child)[1..] == [];
    case Inner(keys, kids) =>
      var head := [FlatInner(parent, child, keys, |kids|)];
      assert head[1..] == [];
      LeafRecordsConcat(head, FlattenKids(kids, at + 1, at, 0));
      LeafRecordsOfKids(kids, at + 1, at, 0);
  }

  lemma {:induction false} LeafRecordsOfKids(ts: seq<Tree>, at: nat, parent: int, child: int)
    ensures LeafRecords(FlattenKids(ts, at, parent, child)) == LeafListOf(ts)
    decreases ts, 0
  {
    if ts != [] {
      LeafRecordsConcat(Flatten(ts[0], at, parent, child), FlattenKids(ts[1..], at + Size(ts[0]), parent, child + 1));
      LeafRecordsOfFlatten(ts[0], at, parent, child);
      LeafRecordsOfKids(ts[1..], at + Size(ts[0]), parent, child + 1);
    }
  }

  // ---------- When the coded placement is right ----------

  lemma {:induction false} LeafKidsFlatten(ts: seq<Tree>, at: nat, parent: int, child: int)
    requires forall j :: 0 <= j < |ts| ==> ts[j].Leaf?
    ensures |FlattenKids(ts, at, parent, child)| == |ts|
    ensures forall j :: 0 <= j < |ts| ==>
      FlattenKids(ts, at, parent, child)[j] == FlatLeaf(parent, child + j, ts[j].keys, ts[j].rows, at + j)
  {
    if ts != [] { LeafKidsFlatten(ts[1..], at + 1, parent, child + 1); }
  }

  lemma {:induction false} ShallowRoundTrip(t: Tree, order: nat, height: nat)
    requires Valid(t, order, Open, Open, height) && height <= 2
    ensures Unfold(Flatten(t, 0, -1, 0), 0) == t
  {
    if t.Inner? {
      forall j | 0 <= j < |t.kids| ensures t.kids[j].Leaf? { KidValid(t, j, order, Open, Open, height); }
      LeafKidsFlatten(t.kids, 1, 0, 0);
      var nodes := Flatten(t, 0, -1, 0);
      forall j | 0 <= j < |t.kids| ensures Unfold(nodes, j + 1) == t.kids[j] {
        assert nodes[j + 1] == FlattenKids(t.kids, 1, 0, 0)[j];
      }
      assert UnfoldRun(nodes, 1, |nodes|) == t.kids;
    }
  }

  /** The levels met on the way down the first children. */
  function LeftDepth(t: Tree): nat {
    if t.Inner? && t.kids != [] then 1 + LeftDepth(t.kids[0]) else 1
  }

  lemma {:induction false} LeftDepthIsHeight(t: Tree, order: nat, lo: Bound, hi: Bound, height: nat)
    requires Valid(t, order, lo, hi, height)
    ensures LeftDepth(t) == height
    decreases t
  {
    if t.Inner? {
      KidValid(t, 0, order, lo, hi, height);
      LeftDepthIsHeight(t.kids[0], order, LoOf(t.keys, 0, lo), HiOf(t.keys, 0, hi), height - 1);
    }
  }

  /** From record i on: depth - 1 inner records with children, and then a leaf. */
  predicate Spine(nodes: seq<FlatNode>, i: nat, depth: nat) {
    && 1 <= depth && i + depth <= |nodes| && nodes[i + depth - 1].FlatLeaf?
    && forall j :: i <= j < i + depth - 1 ==> nodes[j].FlatInner? && nodes[j].childCount >= 1
  }

  /** A written tree starts with the nodes on the way down its first children. */
  lemma {:induction false} FlattenSpine(t: Tree, at: nat, parent: int, child: int)
    requires Shaped(t)
    ensures Spine(Flatten(t, at, parent, child), 0, LeftDepth(t))
    decreases t
  {
    if t.Inner? {
      FlattenSpine(t.kids[0], at + 1, at, 0);
      var below := Flatten(t.kids[0], at + 1, at, 0);
      var nodes := Flatten(t, at, parent, child);
      assert forall j :: 0 <= j < |below| ==> nodes[j + 1] == below[j];
      forall j | 1 <= j < LeftDepth(t) - 1 ensures nodes[j].FlatInner? && nodes[j].childCount >= 1 {
        assert nodes[j] == below[j - 1];
      }
    }
  }

  lemma {:induction false} UnfoldSpine(nodes: seq<FlatNode>, i: nat, depth: nat)
    requires Spine(nodes, i, depth)
    ensures LeftDepth(Unfold(nodes, i)) == depth
    decreases depth
  {
    if depth > 1 { UnfoldSpine(nodes, i + 1, depth - 1); }
  }

  /** From three levels on, the second child is read from the record of the first child's first
      child, which lies a level too low. */
  lemma {:induction false} DeepRoundTripFails(t: Tree, order: nat, height: nat)
    requires Valid(t, order, Open, Open, height) && height > 2
    ensures Unfold(Flatten(t, 0, -1, 0), 0) != t
  {
    var nodes := Flatten(t, 0, -1, 0);
    ValidIsShaped(t, order, Open, Open, height);
    KidValid(t, 1, order, Open, Open, height);
    LeftDepthIsHeight(t, order, Open, Open, height);
    LeftDepthIsHeight(t.kids[1], order, At(t.keys[0]), HiOf(t.keys, 1, Open), height - 1);
    FlattenSpine(t, 0, -1, 0);
    UnfoldSpine(nodes, 2, height - 2);
    assert Unfold(nodes, 0).kids[1] == Unfold(nodes, 2);
  }

  /** The coded placement of children gives a valid tree back exactly when the tree has at
      most two levels. */
  lemma {:induction false} CodedRoundTrip(t: Tree, order: nat, height: nat)
    requires Valid(t, order, Open, Open, height)
    ensures Unfold(Flatten(t, 0, -1, 0), 0) == t <==> height <= 2
  {
    if height <= 2 { ShallowRoundTrip(t, order, height); } else { DeepRoundTripFails(t, order, height); }
  }
}
