/** The B+ tree as a value: its shape, the invariant every operation keeps, and the
    finite map it stands for.  Module BPlusTree carries these functions out on linked
    nodes, in place. */
module BTree {

  datatype Entry = Entry(key: int, row: int)

  datatype Tree =
    | Leaf(keys: seq<int>, rows: seq<int>)
    | Inner(keys: seq<int>, kids: seq<Tree>)

  /** What inserting below a node hands back to its parent. */
  datatype Grown = Whole(tree: Tree) | Halves(left: Tree, sep: int, right: Tree)

  datatype Bound = Open | At(key: int)

  predicate NotBelow(lo: Bound, k: int) {
    lo.Open? || lo.key <= k
  }

  predicate Below(k: int, hi: Bound) {
    hi.Open? || k < hi.key
  }

  // ---------- Searching inside one node ----------

  ghost predicate Ascending(s: seq<int>) {
    forall i, j :: 0 <= i < j < |s| ==> s[i] < s[j]
  }

  /** std::lower_bound: the first position whose key is not below k. */
  function LowerBound(keys: seq<int>, k: int): (p: nat)
    ensures p <= |keys|
    ensures forall j :: 0 <= j < p ==> keys[j] < k
    ensures p < |keys| ==> k <= keys[p]
  {
    if keys == [] || k <= keys[0] then 0 else 1 + LowerBound(keys[1..], k)
  }

  /** The child to descend into: the number of leading separators not above k. */
  function ChildIndex(keys: seq<int>, k: int): (p: nat)
    ensures p <= |keys|
    ensures forall j :: 0 <= j < p ==> keys[j] <= k
    ensures p < |keys| ==> k < keys[p]
  {
    if keys == [] || k < keys[0] then 0 else 1 + ChildIndex(keys[1..], k)
  }

  /** vector::insert before position p. */
  function InsertAt<T>(s: seq<T>, p: nat, x: T): (r: seq<T>)
    requires p <= |s|
    ensures |r| == |s| + 1 && r[p] == x
    ensures forall j :: 0 <= j < p ==> r[j] == s[j]
    ensures forall j :: p < j < |r| ==> r[j] == s[j - 1]
  {
    s[..p] + [x] + s[p..]
  }

  /** vector::erase of position p. */
  function RemoveAt<T>(s: seq<T>, p: nat): (r: seq<T>)
    requires p < |s|
    ensures |r| == |s| - 1
    ensures forall j :: 0 <= j < p ==> r[j] == s[j]
    ensures forall j :: p <= j < |r| ==> r[j] == s[j + 1]
  {
    s[..p] + s[p + 1..]
  }

  // ---------- Shape and invariant ----------

  /** Every node carries as many rows, or one more child, than it has keys. */
  predicate Shaped(t: Tree) {
    match t
    case Leaf(keys, rows) => |keys| == |rows|
    case Inner(keys, kids) =>
      |kids| == |keys| + 1 && forall i :: 0 <= i < |kids| ==> Shaped(kids[i])
  }

  function LoOf(keys: seq<int>, i: nat, lo: Bound): Bound
    requires i <= |keys|
  {
    if i == 0 then lo else At(keys[i - 1])
  }

  function HiOf(keys: seq<int>, i: nat, hi: Bound): Bound
    requires i <= |keys|
  {
    if i == |keys| then hi else At(keys[i])
  }

  /** a may stand before b as a separator: only nodes of order 0 repeat a separator. */
  predicate Parts(a: int, b: int, order: nat) {
    a < b || (a == b && order == 0)
  }

  /** A separator between its bounds. */
  predicate Between(lo: Bound, s: int, hi: Bound, order: nat) {
    (lo.Open? || Parts(lo.key, s, order)) && (hi.Open? || Parts(s, hi.key, order))
  }

  /** Separators of an inner node ascend between its bounds. */
  ghost predicate Separates(keys: seq<int>, order: nat, lo: Bound, hi: Bound) {
    && (forall i, j :: 0 <= i < j < |keys| ==> Parts(keys[i], keys[j], order))
    && (forall i :: 0 <= i < |keys| ==> Between(lo, keys[i], hi, order))
  }

  /** The fewest separators an inner node keeps: below order 2 only the root, which has no
      bounds, is sure to have one. */
  function FewestKeys(order: nat, lo: Bound, hi: Bound): nat {
    if order >= 2 || (lo.Open? && hi.Open?) then 1 else 0
  }

  /** The most keys a node keeps. */
  function MostKeys(order: nat): nat {
    if order == 0 then 1 else order
  }

  /** Child i is a valid tree for the keys in [keys[i-1], keys[i]). */
  ghost predicate ValidKids(keys: seq<int>, kids: seq<Tree>, order: nat, lo: Bound, hi: Bound, height: nat)
    decreases kids
  {
    && |kids| == |keys| + 1
    && forall i :: 0 <= i < |kids| ==> Valid(kids[i], order, LoOf(keys, i, lo), HiOf(keys, i, hi), height)
  }

  ghost predicate ValidLeaf(keys: seq<int>, rows: seq<int>, lo: Bound, hi: Bound) {
    && |keys| == |rows|
    && Ascending(keys)
    && forall i :: 0 <= i < |keys| ==> NotBelow(lo, keys[i]) && Below(keys[i], hi)
  }

  /** The invariant of every run: ordered keys inside their bounds, at most `order`
      keys (one, for order 0) in a node, and all leaves `height` levels down. */
  ghost predicate Valid(t: Tree, order: nat, lo: Bound, hi: Bound, height: nat)
    decreases t
  {
    match t
    case Leaf(keys, rows) =>
      height == 1 && |keys| <= MostKeys(order) && ValidLeaf(keys, rows, lo, hi)
    case Inner(keys, kids) =>
      && height > 1
      && FewestKeys(order, lo, hi) <= |keys| <= MostKeys(order)
      && Separates(keys, order, lo, hi)
      && ValidKids(keys, kids, order, lo, hi, height - 1)
  }

  lemma {:induction false} ValidIsShaped(t: Tree, order: nat, lo: Bound, hi: Bound, height: nat)
    requires Valid(t, order, lo, hi, height)
    ensures Shaped(t)
    decreases t
  {
    match t
    case Leaf(_, _) =>
    case Inner(keys, kids) =>
      forall i | 0 <= i < |kids| ensures Shaped(kids[i]) {
        ValidIsShaped(kids[i], order, LoOf(keys, i, lo), HiOf(keys, i, hi), height - 1);
      }
  }

  // ---------- Contents ----------

  function Zip(keys: seq<int>, rows: seq<int>): (es: seq<Entry>)
    requires |keys| == |rows|
    ensures |es| == |keys|
    ensures forall i :: 0 <= i < |es| ==> es[i] == Entry(keys[i], rows[i])
  {
    seq(|keys|, i requires 0 <= i < |keys| => Entry(keys[i], rows[i]))
  }

  /** All key/row pairs, left to right. */
  function Entries(t: Tree): seq<Entry>
    requires Shaped(t)
    decreases t, 1
  {
    match t
    case Leaf(keys, rows) => Zip(keys, rows)
    case Inner(_, kids) => EntriesOf(kids)
  }

  function EntriesOf(ts: seq<Tree>): seq<Entry>
    requires forall i :: 0 <= i < |ts| ==> Shaped(ts[i])
    decreases ts, 0
  {
    if ts == [] then [] else Entries(ts[0]) + EntriesOf(ts[1..])
  }

  /** The leaves, left to right. */
  function LeafList(t: Tree): seq<Tree>
    decreases t, 1
  {
    match t
    case Leaf(_, _) => [t]
    case Inner(_, kids) => LeafListOf(kids)
  }

  function LeafListOf(ts: seq<Tree>): seq<Tree>
    decreases ts, 0
  {
    if ts == [] then [] else LeafList(ts[0]) + LeafListOf(ts[1..])
  }

  ghost predicate KeysAscend(es: seq<Entry>) {
    forall i, j :: 0 <= i < j < |es| ==> es[i].key < es[j].key
  }

  ghost predicate AllIn(es: seq<Entry>, lo: Bound, hi: Bound) {
    forall e :: e in es ==> NotBelow(lo, e.key) && Below(e.key, hi)
  }

  /** The finite map a list of entries stands for. */
  function MapOf(es: seq<Entry>): (m: map<int, int>)
    ensures forall k :: k in m <==> exists e :: e in es && e.key == k
  {
    if es == [] then map[]
    else
      var m := MapOf(es[..|es| - 1]);
      assert es == es[..|es| - 1] + [es[|es| - 1]];
      m[es[|es| - 1].key := es[|es| - 1].row]
  }

  // ---------- Operations ----------

  predicate ShapedGrown(g: Grown) {
    match g
    case Whole(t) => Shaped(t)
    case Halves(l, _, r) => Shaped(l) && Shaped(r)
  }

  function GrowLeaf(keys: seq<int>, rows: seq<int>, order: nat): (r: Grown)
    requires |keys| == |rows|
    ensures ShapedGrown(r)
  {
    if |keys| > order then
      var mid := |keys| / 2;
      Halves(Leaf(keys[..mid], rows[..mid]), keys[mid], Leaf(keys[mid..], rows[mid..]))
    else Whole(Leaf(keys, rows))
  }

  function GrowInner(keys: seq<int>, kids: seq<Tree>, order: nat): (r: Grown)
    requires |kids| == |keys| + 1
    ensures (forall i :: 0 <= i < |kids| ==> Shaped(kids[i])) ==> ShapedGrown(r)
  {
    if |keys| > order then
      var mid := |keys| / 2;
      Halves(Inner(keys[..mid], kids[..mid + 1]), keys[mid], Inner(keys[mid + 1..], kids[mid + 1..]))
    else Whole(Inner(keys, kids))
  }

  /** The parent once its child i has become g. */
  function GrowAbove(keys: seq<int>, kids: seq<Tree>, i: nat, g: Grown, order: nat): (r: Grown)
    requires |kids| == |keys| + 1 && i < |kids|
    ensures (forall i :: 0 <= i < |kids| ==> Shaped(kids[i])) && ShapedGrown(g) ==> ShapedGrown(r)
  {
    match g
    case Whole(c) => Whole(Inner(keys, kids[i := c]))
    case Halves(l, s, r) => GrowInner(InsertAt(keys, i, s), InsertAt(kids[i := l], i + 1, r), order)
  }

  /** Insertion below a node, splitting where a node would hold more than `order` keys. */
  function Insert(t: Tree, k: int, row: int, order: nat): (r: Grown)
    requires Shaped(t)
    ensures ShapedGrown(r)
    decreases t
  {
    match t
    case Leaf(keys, rows) =>
      var p := LowerBound(keys, k);
      GrowLeaf(InsertAt(keys, p, k), InsertAt(rows, p, row), order)
    case Inner(keys, kids) =>
      var i := ChildIndex(keys, k);
      GrowAbove(keys, kids, i, Insert(kids[i], k, row, order), order)
  }

  /** Insertion at the root, which grows a level when the old root was split. */
  function InsertRoot(t: Tree, k: int, row: int, order: nat): (r: Tree)
    requires Shaped(t)
    ensures Shaped(r)
  {
    match Insert(t, k, row, order)
    case Whole(t') => t'
    case Halves(l, s, r) => Inner([s], [l, r])
  }

  function Find(t: Tree, k: int): int
    requires Shaped(t)
    decreases t
  {
    match t
    case Leaf(keys, rows) =>
      var p := LowerBound(keys, k);
      if p < |keys| && keys[p] == k then rows[p] else -1
    case Inner(keys, kids) => Find(kids[ChildIndex(keys, k)], k)
  }

  /** Deletion takes the pair out of its leaf and leaves every node in place. */
  function Remove(t: Tree, k: int): (r: Tree)
    requires Shaped(t)
    ensures Shaped(r)
    decreases t
  {
    match t
    case Leaf(keys, rows) =>
      var p := LowerBound(keys, k);
      if p < |keys| && keys[p] == k then Leaf(RemoveAt(keys, p), RemoveAt(rows, p)) else t
    case Inner(keys, kids) =>
      var i := ChildIndex(keys, k);
      Inner(keys, kids[i := Remove(kids[i], k)])
  }

  /** Deletion at the root; a root with a single child would give up a level. */
  function RemoveRoot(t: Tree, k: int): (r: Tree)
    requires Shaped(t)
    ensures Shaped(r)
  {
    var t' := Remove(t, k);
    if t'.Inner? && |t'.kids| == 1 then t'.kids[0] else t'
  }

  // ---------- What the operations mean on lists of entries ----------

  function InsertEntry(es: seq<Entry>, k: int, row: int): seq<Entry> {
    if es == [] || k <= es[0].key then [Entry(k, row)] + es
    else [es[0]] + InsertEntry(es[1..], k, row)
  }

  function RemoveKey(es: seq<Entry>, k: int): seq<Entry> {
    if es == [] then []
    else if es[0].key == k then RemoveKey(es[1..], k)
    else [es[0]] + RemoveKey(es[1..], k)
  }

  /** The rows of the entries whose key lies in [min, max], in order. */
  function RowsBetween(es: seq<Entry>, min: int, max: int): seq<int> {
    if es == [] then []
    else (if min <= es[0].key <= max then [es[0].row] else []) + RowsBetween(es[1..], min, max)
  }

  /** What the scan of one leaf takes: it stops at the first key above max. */
  function ScanOne(keys: seq<int>, rows: seq<int>, min: int, max: int): seq<int> {
    if keys == [] || rows == [] || keys[0] > max then []
    else (if keys[0] >= min then [rows[0]] else []) + ScanOne(keys[1..], rows[1..], min, max)
  }

  /** What the scan of a chain of leaves takes. */
  function ScanLeaves(ts: seq<Tree>, min: int, max: int): seq<int> {
    if ts == [] then []
    else (if ts[0].Leaf? then ScanOne(ts[0].keys, ts[0].rows, min, max) else []) + ScanLeaves(ts[1..], min, max)
  }

  /** How many nodes a search for k walks through. */
  function PathLength(t: Tree, k: int): nat
    requires Shaped(t)
    decreases t
  {
    match t
    case Leaf(_, _) => 1
    case Inner(keys, kids) => 1 + PathLength(kids[ChildIndex(keys, k)], k)
  }

  function RowAt(m: map<int, int>, k: int): int {
    if k in m then m[k] else -1
  }

  /** The key is there, but its row id reads as "absent". */
  predicate Hidden(m: map<int, int>, k: int) {
    k in m && m[k] == -1
  }
}
