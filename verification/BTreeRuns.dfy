/** Whole runs of insert and remove on a B+ tree, and how high an insert-only tree grows. */
module BTreeRuns {
  import opened BTree
  import opened BTreeLaws

  datatype Op = Ins(key: int, row: int) | Del(key: int)

  /** One call of insertUnlocked or removeUnlocked, with its Boolean answer. */
  function Step(t: Tree, op: Op, order: nat): (r: (Tree, bool))
    requires Shaped(t)
    ensures Shaped(r.0)
  {
    if op.Ins? then
      if Find(t, op.key) != -1 then (t, false) else (InsertRoot(t, op.key, op.row, order), true)
    else
      if Find(t, op.key) == -1 then (t, false) else (RemoveRoot(t, op.key), true)
  }

  /** The same call on a finite map. */
  function StepMap(m: map<int, int>, op: Op): (map<int, int>, bool) {
    if op.Ins? then
      if op.key in m then (m, false) else (m[op.key := op.row], true)
    else
      if op.key !in m then (m, false) else (m - {op.key}, true)
  }

  /** A run of calls from an empty leaf: the tree it builds and the answers it gets. */
  function Run(ops: seq<Op>, order: nat): (r: (Tree, seq<bool>))
    ensures Shaped(r.0)
  {
    if ops == [] then (Leaf([], []), [])
    else
      var (t, answers) := Run(ops[..|ops| - 1], order);
      var (t', a) := Step(t, ops[|ops| - 1], order);
      (t', answers + [a])
  }

  function RunMap(ops: seq<Op>): (map<int, int>, seq<bool>) {
    if ops == [] then (map[], [])
    else
      var (m, answers) := RunMap(ops[..|ops| - 1]);
      var (m', a) := StepMap(m, ops[|ops| - 1]);
      (m', answers + [a])
  }

  /** Some call of the run meets a key that is stored with row id -1. */
  predicate MeetsHidden(ops: seq<Op>) {
    ops != [] &&
    var front, last := ops[..|ops| - 1], ops[|ops| - 1];
    MeetsHidden(front) || Hidden(RunMap(front).0, last.key)
  }

  /** One operation keeps the invariant and does to the map what StepMap says. */
  lemma {:induction false} StepRefines(t: Tree, op: Op, order: nat, height: nat) returns (height': nat)
    requires Valid(t, order, Open, Open, height)
    requires Shaped(t) && !Hidden(MapOf(Entries(t)), op.key)
    ensures var (t', ok) := Step(t, op, order);
      && Valid(t', order, Open, Open, height') && Shaped(t')
      && (MapOf(Entries(t')), ok) == StepMap(MapOf(Entries(t)), op)
  {
    FindIsLookup(t, op.key, order, height);
    height' := height;
    if op.Ins? {
      if Find(t, op.key) == -1 { height' := InsertRootRefines(t, op.key, op.row, order, height); }
    } else {
      RemoveRootRefines(t, op.key, order, height);
    }
  }

  lemma {:induction false} RunKeepsValid(ops: seq<Op>, order: nat) returns (height: nat)
    requires !MeetsHidden(ops)
    ensures Valid(Run(ops, order).0, order, Open, Open, height)
    ensures RunMap(ops) == (MapOf(Entries(Run(ops, order).0)), Run(ops, order).1)
  {
    if ops == [] {
      height := 1;
    } else {
      var front, last := ops[..|ops| - 1], ops[|ops| - 1];
      height := RunKeepsValid(front, order);
      height := StepRefines(Run(front, order).0, last, order, height);
    }
  }

  /** After any run of inserts and removes the tree is valid, holds the map the same run
      builds, every call answered as the map would, and find reads that map. */
  lemma {:induction false} RunsRefine(ops: seq<Op>, order: nat)
    requires !MeetsHidden(ops)
    ensures exists height: nat :: Valid(Run(ops, order).0, order, Open, Open, height)
    ensures RunMap(ops) == (MapOf(Entries(Run(ops, order).0)), Run(ops, order).1)
    ensures forall k :: Find(Run(ops, order).0, k) == RowAt(RunMap(ops).0, k)
  {
    var height := RunKeepsValid(ops, order);
    var t := Run(ops, order).0;
    forall k ensures Find(t, k) == RowAt(RunMap(ops).0, k) {
      FindIsLookup(t, k, order, height);
    }
  }

  // ---------- The row id -1 ----------

  /** The tree gives the answers of the finite map exactly when no call meets a key stored with
      row id -1: such a key is taken in again instead of refused, and cannot be removed. */
  lemma {:induction false} AnswersAreRightIff(ops: seq<Op>, order: nat)
    ensures Run(ops, order).1 == RunMap(ops).1 <==> !MeetsHidden(ops)
  {
    AnswersCounted(ops, order);
    if !MeetsHidden(ops) {
      var _ := RunKeepsValid(ops, order);
    } else {
      var front, last := ops[..|ops| - 1], ops[|ops| - 1];
      var n := |front|;
      AnswersCounted(front, order);
      AnswersAreRightIff(front, order);
      if MeetsHidden(front) {
        assert Run(ops, order).1[..n] == Run(front, order).1 && RunMap(ops).1[..n] == RunMap(front).1;
      } else {
        var height := RunKeepsValid(front, order);
        FindIsLookup(Run(front, order).0, last.key, order, height);
        assert Run(ops, order).1[n] != RunMap(ops).1[n];
      }
    }
  }

  lemma {:induction false} AnswersCounted(ops: seq<Op>, order: nat)
    ensures |Run(ops, order).1| == |RunMap(ops).1| == |ops|
  {
    if ops != [] { AnswersCounted(ops[..|ops| - 1], order); }
  }

  /** Where a descent for k ends in a subtree that may have been split. */
  function FindIn(g: Grown, k: int): int
    requires ShapedGrown(g)
  {
    match g
    case Whole(t) => Find(t, k)
    case Halves(l, s, r) => if k < s then Find(l, k) else Find(r, k)
  }

  lemma {:induction false} LowerBoundIs(keys: seq<int>, k: int, p: nat)
    requires p <= |keys| && (forall j :: 0 <= j < p ==> keys[j] < k) && (p < |keys| ==> k <= keys[p])
    ensures LowerBound(keys, k) == p
  {
  }

  lemma {:induction false} FindInGrownLeaf(keys: seq<int>, rows: seq<int>, order: nat, k: int)
    requires |keys| == |rows| && Ascending(keys)
    ensures FindIn(GrowLeaf(keys, rows, order), k) == Find(Leaf(keys, rows), k)
  {
    var p, mid := LowerBound(keys, k), |keys| / 2;
    if |keys| > order {
      if k < keys[mid] {
        LowerBoundIs(keys[..mid], k, if p < mid then p else mid);
      } else {
        LowerBoundIs(keys[mid..], k, p - mid);
      }
    }
  }

  lemma {:induction false} FindInGrownInner(keys: seq<int>, kids: seq<Tree>, order: nat, k: int)
    requires |kids| == |keys| + 1 && forall i :: 0 <= i < |kids| ==> Shaped(kids[i])
    requires forall j :: ChildIndex(keys, k) <= j < |keys| ==> k < keys[j]
    ensures FindIn(GrowInner(keys, kids, order), k) == Find(kids[ChildIndex(keys, k)], k)
  {
    var c, mid := ChildIndex(keys, k), |keys| / 2;
    if |keys| > order {
      if k < keys[mid] {
        ChildIndexIs(keys[..mid], k, c);
        assert kids[..mid + 1][c] == kids[c];
      } else {
        ChildIndexIs(keys[mid + 1..], k, c - mid - 1);
        assert kids[mid + 1..][c - mid - 1] == kids[c];
      }
    }
  }

  lemma {:induction false} ChildIndexIs(keys: seq<int>, k: int, c: nat)
    requires c <= |keys| && (forall j :: 0 <= j < c ==> keys[j] <= k) && (c < |keys| ==> k < keys[c])
    ensures ChildIndex(keys, k) == c
  {
  }

  lemma {:induction false} ChildIndexInserted(keys: seq<int>, s: int, k: int)
    requires Ascending(keys)
    ensures var i := ChildIndex(keys, k);
      var keys' := InsertAt(keys, i, s);
      && ChildIndex(keys', k) == (if k < s then i else i + 1)
      && forall j :: ChildIndex(keys', k) <= j < |keys'| ==> k < keys'[j]
  {
    var i := ChildIndex(keys, k);
    var keys' := InsertAt(keys, i, s);
    var c := if k < s then i else i + 1;
    AboveInserted(keys, i, s, k);
    ChildIndexIs(keys', k, c);
  }

  lemma {:induction false} AboveInserted(keys: seq<int>, i: nat, s: int, k: int)
    requires Ascending(keys) && i <= |keys| && (i < |keys| ==> k < keys[i])
    ensures var keys' := InsertAt(keys, i, s);
      forall j :: (if k < s then i else i + 1) <= j < |keys'| ==> k < keys'[j]
  {
    assert forall j :: i <= j < |keys| ==> k < keys[j];
  }

  lemma {:induction false} FindAbove(keys: seq<int>, kids: seq<Tree>, g: Grown, order: nat, k: int)
    requires |kids| == |keys| + 1 && forall i :: 0 <= i < |kids| ==> Shaped(kids[i])
    requires Ascending(keys) && ShapedGrown(g)
    ensures FindIn(GrowAbove(keys, kids, ChildIndex(keys, k), g, order), k) == FindIn(g, k)
  {
    var i := ChildIndex(keys, k);
    match g
    case Whole(_) =>
    case Halves(l, s, r) =>
      ChildIndexInserted(keys, s, k);
      FindInGrownInner(InsertAt(keys, i, s), InsertAt(kids[i := l], i + 1, r), order, k);
  }

  lemma {:induction false} FindInsertedInLeaf(keys: seq<int>, rows: seq<int>, k: int, row: int, order: nat, lo: Bound,
                                              hi: Bound)
    requires ValidLeaf(keys, rows, lo, hi)
    requires forall e :: e in Zip(keys, rows) ==> e.key != k
    ensures var p := LowerBound(keys, k);
      FindIn(GrowLeaf(InsertAt(keys, p, k), InsertAt(rows, p, row), order), k) == row
  {
    assert forall j :: 0 <= j < |keys| ==> Zip(keys, rows)[j].key == keys[j];
    var p := LowerBound(keys, k);
    var keys' := InsertAt(keys, p, k);
    LowerBoundIs(keys', k, p);
    FindInGrownLeaf(keys', InsertAt(rows, p, row), order, k);
  }

  /** A key just inserted is found where it was put, whatever row id it carries. */
  lemma {:induction false} FindInserted(t: Tree, k: int, row: int, order: nat, lo: Bound, hi: Bound, height: nat)
    requires Valid(t, order, lo, hi, height)
    requires Shaped(t) && forall e :: e in Entries(t) ==> e.key != k
    ensures FindIn(Insert(t, k, row, order), k) == row
    decreases t
  {
    match t
    case Leaf(keys, rows) =>
      FindInsertedInLeaf(keys, rows, k, row, order, lo, hi);
    case Inner(keys, kids) =>
      AroundChosenKid(t, k, order, lo, hi, height);
      var i := ChildIndex(keys, k);
      assert forall e :: e in Entries(kids[i]) ==> e in Entries(t);
      FindInserted(kids[i], k, row, order, LoOf(keys, i, lo), HiOf(keys, i, hi), height - 1);
      FindAbove(keys, kids, Insert(kids[i], k, row, order), order, k);
  }

  lemma {:induction false} FindInsertedAtRoot(t: Tree, k: int, row: int, order: nat, height: nat)
    requires Valid(t, order, Open, Open, height)
    requires Shaped(t) && k !in MapOf(Entries(t))
    ensures Find(InsertRoot(t, k, row, order), k) == row
  {
    FindInserted(t, k, row, order, Open, Open, height);
  }

  /** Once an absent key is inserted, inserting it again is refused and removing it succeeds,
      as on the map, exactly when its row id is not the "absent" answer -1. */
  lemma {:induction false} SeenAgainIff(ops: seq<Op>, k: int, row: int, again: int, order: nat)
    requires !MeetsHidden(ops)
    requires k !in RunMap(ops).0
    ensures var t := Run(ops + [Ins(k, row)], order).0;
      && Find(t, k) == row
      && (Step(t, Ins(k, again), order).1 == false <==> row != -1)
      && (Step(t, Del(k), order).1 == true <==> row != -1)
  {
    var height := RunKeepsValid(ops, order);
    var t := Run(ops, order).0;
    FindIsLookup(t, k, order, height);
    FindInsertedAtRoot(t, k, row, order, height);
    assert (ops + [Ins(k, row)])[..|ops|] == ops;
  }

  // ---------- Reading past a shortened key vector ----------

  /** The insertion splits an inner node of three keys or more.  The source shortens such a node
      before it copies the keys behind the middle: it reads past the end of the key vector. */
  predicate ReadsPastEnd(t: Tree, k: int, row: int, order: nat)
    requires Shaped(t)
    decreases t
  {
    match t
    case Leaf(_, _) => false
    case Inner(keys, kids) =>
      var i := ChildIndex(keys, k);
      || ReadsPastEnd(kids[i], k, row, order)
      || (Insert(kids[i], k, row, order).Halves? && |keys| + 1 > order && |keys| + 1 >= 3)
  }

  /** Some insertion of the run does so. */
  predicate RunReadsPastEnd(ops: seq<Op>, order: nat) {
    ops != [] &&
    var front, last := ops[..|ops| - 1], ops[|ops| - 1];
    var t := Run(front, order).0;
    || RunReadsPastEnd(front, order)
    || (last.Ins? && Find(t, last.key) == -1 && ReadsPastEnd(t, last.key, last.row, order))
  }

  lemma {:induction false} HeightIsUnique(t: Tree, order: nat, lo: Bound, hi: Bound, height: nat, height': nat)
    requires Valid(t, order, lo, hi, height) && Valid(t, order, lo, hi, height')
    ensures height == height'
    decreases t
  {
    if t.Inner? {
      KidValid(t, 0, order, lo, hi, height);
      KidValid(t, 0, order, lo, hi, height');
      HeightIsUnique(t.kids[0], order, LoOf(t.keys, 0, lo), HiOf(t.keys, 0, hi), height - 1, height' - 1);
    }
  }

  /** In a tree of order 0 or 1 no node ever has three keys. */
  lemma {:induction false} NarrowSplit(t: Tree, k: int, row: int, order: nat, lo: Bound, hi: Bound, height: nat)
    requires Valid(t, order, lo, hi, height) && Shaped(t) && order < 2
    ensures !ReadsPastEnd(t, k, row, order)
    decreases t
  {
    if t.Inner? {
      var i := ChildIndex(t.keys, k);
      KidValid(t, i, order, lo, hi, height);
      NarrowSplit(t.kids[i], k, row, order, LoOf(t.keys, i, lo), HiOf(t.keys, i, hi), height - 1);
    }
  }

  /** Below two levels no inner node is split, and at two levels only the root can be. */
  lemma {:induction false} ShallowSplit(t: Tree, k: int, row: int, order: nat, lo: Bound, hi: Bound, height: nat)
    requires Valid(t, order, lo, hi, height) && Shaped(t) && order >= 2 && height <= 2
    ensures ReadsPastEnd(t, k, row, order) <==> height == 2 && Insert(t, k, row, order).Halves?
  {
    if t.Inner? {
      KidValid(t, ChildIndex(t.keys, k), order, lo, hi, height);
    }
  }

  /** A run reads past the end of a key vector exactly when its tree has grown to three levels,
      orders 0 and 1 apart, at which no node has keys behind the middle. */
  lemma {:induction false} ReadsPastEndIff(ops: seq<Op>, order: nat, height: nat)
    requires !MeetsHidden(ops)
    requires Valid(Run(ops, order).0, order, Open, Open, height)
    ensures RunReadsPastEnd(ops, order) <==> order >= 2 && height >= 3
  {
    if ops != [] {
      var front, last := ops[..|ops| - 1], ops[|ops| - 1];
      var t := Run(front, order).0;
      var before := RunKeepsValid(front, order);
      ReadsPastEndIff(front, order, before);
      FindIsLookup(t, last.key, order, before);
      var after := before;
      if last.Ins? && Find(t, last.key) == -1 {
        after := InsertRootRefines(t, last.key, last.row, order, before);
        if order < 2 {
          NarrowSplit(t, last.key, last.row, order, Open, Open, before);
        } else if before <= 2 {
          ShallowSplit(t, last.key, last.row, order, Open, Open, before);
        }
      } else if last.Del? {
        RemoveRootRefines(t, last.key, order, before);
      }
      HeightIsUnique(Run(ops, order).0, order, Open, Open, after, height);
    }
  }

  lemma {:induction false} OneMoreKey(ops: seq<Op>, k: int, t: Tree, t': Tree)
    requires Run(ops, 2).0 == t && Shaped(t) && Find(t, k) == -1 && InsertRoot(t, k, k, 2) == t'
    ensures Run(ops + [Ins(k, k)], 2).0 == t'
    ensures RunReadsPastEnd(ops + [Ins(k, k)], 2) <==> RunReadsPastEnd(ops, 2) || ReadsPastEnd(t, k, k, 2)
  {
    assert (ops + [Ins(k, k)])[..|ops|] == ops;
  }

  /** Appending a key above all keys of a leaf of order 2. */
  lemma {:induction false} AppendToLeaf(keys: seq<int>, k: int)
    requires forall j :: 0 <= j < |keys| ==> keys[j] < k
    ensures Find(Leaf(keys, keys), k) == -1
    ensures |keys| < 2 ==> Insert(Leaf(keys, keys), k, k, 2) == Whole(Leaf(keys + [k], keys + [k]))
    ensures |keys| == 2 ==>
      Insert(Leaf(keys, keys), k, k, 2)
      == Halves(Leaf([keys[0]], [keys[0]]), keys[1], Leaf([keys[1], k], [keys[1], k]))
  {
    assert LowerBound(keys, k) == |keys|;
    assert InsertAt(keys, |keys|, k) == keys + [k];
    if |keys| == 2 {
      assert (keys + [k])[..1] == [keys[0]] && (keys + [k])[1..] == [keys[1], k];
    }
  }

  /** Appending a key above all separators goes into the last child. */
  lemma {:induction false} AppendBelow(keys: seq<int>, kids: seq<Tree>, k: int)
    requires Shaped(Inner(keys, kids)) && forall j :: 0 <= j < |keys| ==> keys[j] < k
    ensures var t, last := Inner(keys, kids), kids[|keys|];
      && Find(t, k) == Find(last, k)
      && Insert(t, k, k, 2) == GrowAbove(keys, kids, |keys|, Insert(last, k, k, 2), 2)
      && (ReadsPastEnd(t, k, k, 2) <==>
            ReadsPastEnd(last, k, k, 2) || (Insert(last, k, k, 2).Halves? && |keys| + 1 > 2 && |keys| + 1 >= 3))
  {
    assert ChildIndex(keys, k) == |keys|;
  }

  lemma {:induction false} GrowAtEnd(keys: seq<int>, kids: seq<Tree>, l: Tree, s: int, r: Tree)
    requires |kids| == |keys| + 1 && |keys| < 2
    ensures GrowAbove(keys, kids, |keys|, Halves(l, s, r), 2) == Whole(Inner(keys + [s], kids[..|keys|] + [l, r]))
  {
    assert InsertAt(keys, |keys|, s) == keys + [s];
    assert InsertAt(kids[|keys| := l], |keys| + 1, r) == kids[..|keys|] + [l, r];
  }

  lemma {:induction false} LastReplaced<T>(a: T, b: T, l: T, r: T)
    ensures [a, b][..1] + [l, r] == [a, l, r]
  {
  }

  lemma {:induction false} TwoKeys(a: int, b: int)
    requires a < b
    ensures Run([Ins(a, a)] + [Ins(b, b)], 2).0 == Leaf([a, b], [a, b])
    ensures !RunReadsPastEnd([Ins(a, a)] + [Ins(b, b)], 2)
  {
    OneKey(a);
    AppendToLeaf([a], b);
    assert [a] + [b] == [a, b];
    OneMoreKey([Ins(a, a)], b, Leaf([a], [a]), Leaf([a, b], [a, b]));
  }

  lemma {:induction false} OneKey(a: int)
    ensures Run([Ins(a, a)], 2).0 == Leaf([a], [a]) && !RunReadsPastEnd([Ins(a, a)], 2)
  {
    AppendToLeaf([], a);
    assert [] + [a] == [a] && [] + [Ins(a, a)] == [Ins(a, a)];
    OneMoreKey([], a, Leaf([], []), Leaf([a], [a]));
  }

  /** The third key splits the only leaf. */
  lemma {:induction false} ThirdKey(ops: seq<Op>, a: int, b: int, c: int)
    requires a < b < c && Run(ops, 2).0 == Leaf([a, b], [a, b])
    ensures Run(ops + [Ins(c, c)], 2).0 == Inner([b], [Leaf([a], [a]), Leaf([b, c], [b, c])])
    ensures RunReadsPastEnd(ops + [Ins(c, c)], 2) <==> RunReadsPastEnd(ops, 2)
  {
    AppendToLeaf([a, b], c);
    OneMoreKey(ops, c, Leaf([a, b], [a, b]), Inner([b], [Leaf([a], [a]), Leaf([b, c], [b, c])]));
  }

  /** The fourth splits the last leaf. */
  lemma {:induction false} FourthKey(ops: seq<Op>, a: int, b: int, c: int, d: int)
    requires a < b < c < d && Run(ops, 2).0 == Inner([b], [Leaf([a], [a]), Leaf([b, c], [b, c])])
    ensures Run(ops + [Ins(d, d)], 2).0 == Inner([b, c], [Leaf([a], [a]), Leaf([b], [b]), Leaf([c, d], [c, d])])
    ensures RunReadsPastEnd(ops + [Ins(d, d)], 2) <==> RunReadsPastEnd(ops, 2)
  {
    var keys, first, last := [b], Leaf([a], [a]), Leaf([b, c], [b, c]);
    AppendToLeaf([b, c], d);
    AppendBelow(keys, [first, last], d);
    GrowAtEnd(keys, [first, last], Leaf([b], [b]), c, Leaf([c, d], [c, d]));
    LastReplaced(first, last, Leaf([b], [b]), Leaf([c, d], [c, d]));
    assert keys + [c] == [b, c];
    OneMoreKey(ops, d, Inner(keys, [first, last]), Inner([b, c], [first, Leaf([b], [b]), Leaf([c, d], [c, d])]));
  }

  /** The fifth splits the root. */
  lemma {:induction false} FifthKey(ops: seq<Op>, a: int, b: int, c: int, d: int, e: int)
    requires a < b < c < d < e
    requires Run(ops, 2).0 == Inner([b, c], [Leaf([a], [a]), Leaf([b], [b]), Leaf([c, d], [c, d])])
    ensures RunReadsPastEnd(ops + [Ins(e, e)], 2)
  {
    var keys, kids := [b, c], [Leaf([a], [a]), Leaf([b], [b]), Leaf([c, d], [c, d])];
    AppendToLeaf([c, d], e);
    AppendBelow(keys, kids, e);
    OneMoreKey(ops, e, Inner(keys, kids), InsertRoot(Inner(keys, kids), e, e, 2));
  }

  /** In a tree of order 2 any five ascending keys do it, and the first four do not. */
  lemma {:induction false} FiveKeysReadPastEnd(a: int, b: int, c: int, d: int, e: int)
    requires a < b < c < d < e
    ensures var four := [Ins(a, a)] + [Ins(b, b)] + [Ins(c, c)] + [Ins(d, d)];
      !RunReadsPastEnd(four, 2) && RunReadsPastEnd(four + [Ins(e, e)], 2)
  {
    TwoKeys(a, b);
    ThirdKey([Ins(a, a)] + [Ins(b, b)], a, b, c);
    FourthKey([Ins(a, a)] + [Ins(b, b)] + [Ins(c, c)], a, b, c, d);
    FifthKey([Ins(a, a)] + [Ins(b, b)] + [Ins(c, c)] + [Ins(d, d)], a, b, c, d, e);
  }

  // ---------- Occupancy of insert-only trees ----------

  /** Minimum occupancy of a node that is not the root. */
  ghost predicate Occupied(t: Tree, order: nat)
    decreases t
  {
    match t
    case Leaf(keys, _) => |keys| >= (order + 1) / 2
    case Inner(keys, kids) => |keys| >= order / 2 && forall i :: 0 <= i < |kids| ==> Occupied(kids[i], order)
  }

  ghost predicate RootOccupied(t: Tree, order: nat) {
    t.Inner? ==> forall i :: 0 <= i < |t.kids| ==> Occupied(t.kids[i], order)
  }

  ghost predicate OccupiedGrown(g: Grown, order: nat, isRoot: bool) {
    match g
    case Whole(t) => if isRoot then RootOccupied(t, order) else Occupied(t, order)
    case Halves(l, _, r) => Occupied(l, order) && Occupied(r, order)
  }

  lemma {:induction false} GrowInnerOccupied(keys: seq<int>, kids: seq<Tree>, order: nat, isRoot: bool)
    requires |kids| == |keys| + 1 && |keys| <= MostKeys(order) + 1 && (isRoot || |keys| >= order / 2)
    requires forall i :: 0 <= i < |kids| ==> Occupied(kids[i], order)
    ensures OccupiedGrown(GrowInner(keys, kids, order), order, isRoot)
  {}

  lemma {:induction false} GrowAboveOccupied(keys: seq<int>, kids: seq<Tree>, i: nat, g: Grown, order: nat,
                                             isRoot: bool)
    requires |kids| == |keys| + 1 && |keys| <= MostKeys(order) && i < |kids| && (isRoot || |keys| >= order / 2)
    requires forall i :: 0 <= i < |kids| ==> Occupied(kids[i], order)
    requires OccupiedGrown(g, order, false)
    ensures OccupiedGrown(GrowAbove(keys, kids, i, g, order), order, isRoot)
  {
    match g
    case Whole(_) =>
    case Halves(l, s, r) =>
      GrowInnerOccupied(InsertAt(keys, i, s), InsertAt(kids[i := l], i + 1, r), order, isRoot);
  }

  /** Both halves of every split stay at or above the minimum. */
  lemma {:induction false} InsertKeepsOccupied(t: Tree, k: int, row: int, order: nat, lo: Bound, hi: Bound,
                                               height: nat, isRoot: bool)
    requires Valid(t, order, lo, hi, height) && Shaped(t)
    requires if isRoot then RootOccupied(t, order) else Occupied(t, order)
    ensures OccupiedGrown(Insert(t, k, row, order), order, isRoot)
    decreases t
  {
    match t
    case Leaf(keys, rows) =>
    case Inner(keys, kids) =>
      var i := ChildIndex(keys, k);
      InsertKeepsOccupied(kids[i], k, row, order, LoOf(keys, i, lo), HiOf(keys, i, hi), height - 1, false);
      GrowAboveOccupied(keys, kids, i, Insert(kids[i], k, row, order), order, isRoot);
  }

  /** Insert-only runs never leave a node other than the root under-full. */
  lemma {:induction false} InsertRunsStayOccupied(ops: seq<Op>, order: nat)
    requires !MeetsHidden(ops) && forall op :: op in ops ==> op.Ins?
    ensures RootOccupied(Run(ops, order).0, order)
  {
    if ops != [] {
      var front, last := ops[..|ops| - 1], ops[|ops| - 1];
      InsertRunsStayOccupied(front, order);
      var height := RunKeepsValid(front, order);
      InsertKeepsOccupied(Run(front, order).0, last.key, last.row, order, Open, Open, height, true);
    }
  }

  function Pow(b: nat, e: nat): nat {
    if e == 0 then 1 else b * Pow(b, e - 1)
  }

  /** The fewest entries a non-root subtree of `height` levels can hold. */
  function FewestBelow(order: nat, height: nat): nat
    requires height >= 1
  {
    Pow(order / 2 + 1, height - 1) * ((order + 1) / 2)
  }

  function Times(n: nat, m: nat): (r: nat)
    ensures r == n * m
  {
    if n == 0 then 0 else
      assert n * m == m + (n - 1) * m;
      m + Times(n - 1, m)
  }

  lemma {:induction false} OccupiedHoldsMany(t: Tree, order: nat, lo: Bound, hi: Bound, height: nat)
    requires Valid(t, order, lo, hi, height) && Occupied(t, order)
    ensures Shaped(t) && height >= 1
    ensures |Entries(t)| >= FewestBelow(order, height)
    decreases t, 1
  {
    ValidIsShaped(t, order, lo, hi, height);
    if t.Inner? {
      KidsHoldMany(t.keys, t.kids, 0, order, lo, hi, height - 1, FewestBelow(order, height - 1));
      assert t.kids[0..] == t.kids;
      MoreKids(order / 2 + 1, |t.kids|, FewestBelow(order, height - 1));
      PowStep(order / 2 + 1, height - 2, (order + 1) / 2);
    }
  }

  lemma {:induction false} MoreKids(a: nat, b: nat, m: nat)
    requires a <= b
    ensures a * m <= b * m
  {}

  lemma {:induction false} PowStep(b: nat, e: nat, c: nat)
    ensures b * (Pow(b, e) * c) == Pow(b, e + 1) * c
  {}

  lemma {:induction false} KidsHoldMany(keys: seq<int>, kids: seq<Tree>, i: nat, order: nat, lo: Bound, hi: Bound,
                                        height: nat, least: nat)
    requires ValidKids(keys, kids, order, lo, hi, height) && height >= 1 && i <= |kids|
    requires least == FewestBelow(order, height)
    requires forall j :: 0 <= j < |kids| ==> Shaped(kids[j]) && Occupied(kids[j], order)
    ensures |EntriesOf(kids[i..])| >= Times(|kids| - i, least)
    decreases kids, 0, |kids| - i
  {
    if i < |kids| {
      OccupiedHoldsMany(kids[i], order, LoOf(keys, i, lo), HiOf(keys, i, hi), height);
      KidsHoldMany(keys, kids, i + 1, order, lo, hi, height, least);
      assert kids[i..][1..] == kids[i + 1..];
    }
  }

  lemma {:induction false} RootHoldsMany(t: Tree, order: nat, height: nat)
    requires height >= 2 && Valid(t, order, Open, Open, height) && RootOccupied(t, order)
    ensures Shaped(t) && |Entries(t)| >= 2 * FewestBelow(order, height - 1)
  {
    ValidIsShaped(t, order, Open, Open, height);
    KidsHoldMany(t.keys, t.kids, 0, order, Open, Open, height - 1, FewestBelow(order, height - 1));
    assert t.kids[0..] == t.kids;
    MoreKids(2, |t.kids|, FewestBelow(order, height - 1));
  }

  /** An insert-only tree of h >= 2 levels holds at least 2 (order/2+1)^(h-2) ((order+1)/2)
      keys, so the path find walks is logarithmic in the number of keys. */
  lemma {:induction false} InsertOnlyTreesAreShallow(ops: seq<Op>, order: nat, height: nat)
    requires !MeetsHidden(ops) && forall op :: op in ops ==> op.Ins?
    requires height >= 2 && Valid(Run(ops, order).0, order, Open, Open, height)
    ensures |RunMap(ops).0| >= 2 * (Pow(order / 2 + 1, height - 2) * ((order + 1) / 2))
  {
    var t := Run(ops, order).0;
    RunsRefine(ops, order);
    InsertRunsStayOccupied(ops, order);
    RootHoldsMany(t, order, height);
    EntriesOrdered(t, order, Open, Open, height);
    MapOfSize(Entries(t));
  }

  /** In an insert-only tree a search for any key walks through a path of n >= 2 nodes only if the tree
      holds at least 2 (order/2+1)^(n-2) ((order+1)/2) keys. */
  lemma {:induction false} SearchPathsAreShort(ops: seq<Op>, order: nat, k: int)
    requires !MeetsHidden(ops) && forall op :: op in ops ==> op.Ins?
    ensures var n := PathLength(Run(ops, order).0, k);
      n >= 2 ==> |RunMap(ops).0| >= 2 * (Pow(order / 2 + 1, n - 2) * ((order + 1) / 2))
  {
    var height := RunKeepsValid(ops, order);
    PathIsHeight(Run(ops, order).0, k, order, Open, Open, height);
    if height >= 2 {
      InsertOnlyTreesAreShallow(ops, order, height);
    }
  }

  lemma {:induction false} MapOfSize(es: seq<Entry>)
    requires KeysAscend(es)
    ensures |MapOf(es)| == |es|
  {
    if es != [] {
      var front, last := es[..|es| - 1], es[|es| - 1];
      MapOfSize(front);
      assert last.key !in MapOf(front);
    }
  }
}
