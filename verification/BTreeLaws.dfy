/** The laws of the B+ tree: every operation keeps the invariant and does to the list of
    entries exactly what its finite-map reading says. */
module BTreeLaws {
  import opened BTree
  import opened Sequences

  lemma {:induction false} KidValid(t: Tree, i: nat, order: nat, lo: Bound, hi: Bound, height: nat)
    requires t.Inner? && Valid(t, order, lo, hi, height) && i < |t.kids|
    ensures |t.kids| == |t.keys| + 1 && height > 1 && Separates(t.keys, order, lo, hi)
    ensures |t.keys| >= FewestKeys(order, lo, hi)
    ensures Valid(t.kids[i], order, LoOf(t.keys, i, lo), HiOf(t.keys, i, hi), height - 1)
    ensures t.kids[i].Leaf? <==> height == 2
  {}

  // ---------- Entries of a run of children ----------

  lemma {:induction false} EntriesOfConcat(a: seq<Tree>, b: seq<Tree>)
    requires forall i :: 0 <= i < |a| ==> Shaped(a[i])
    requires forall i :: 0 <= i < |b| ==> Shaped(b[i])
    ensures EntriesOf(a + b) == EntriesOf(a) + EntriesOf(b)
  {
    if a == [] {
      assert a + b == b;
    } else {
      assert (a + b)[0] == a[0] && (a + b)[1..] == a[1..] + b;
      EntriesOfConcat(a[1..], b);
    }
  }

  lemma {:induction false} EntriesOfOne(t: Tree)
    requires Shaped(t)
    ensures EntriesOf([t]) == Entries(t)
  {
    assert EntriesOf([t][1..]) == [];
  }

  /** The children around child i, and their entries. */
  lemma {:induction false} EntriesAround(kids: seq<Tree>, i: nat)
    requires i < |kids|
    requires forall j :: 0 <= j < |kids| ==> Shaped(kids[j])
    ensures EntriesOf(kids) == EntriesOf(kids[..i]) + Entries(kids[i]) + EntriesOf(kids[i + 1..])
  {
    assert kids == kids[..i] + kids[i..];
    EntriesOfConcat(kids[..i], kids[i..]);
    assert kids[i..][1..] == kids[i + 1..];
    Reassociate(EntriesOf(kids[..i]), Entries(kids[i]), EntriesOf(kids[i + 1..]));
  }

  // ---------- Order ----------

  lemma {:induction false} EntriesOrdered(t: Tree, order: nat, lo: Bound, hi: Bound, height: nat)
    requires Valid(t, order, lo, hi, height)
    ensures Shaped(t)
    ensures KeysAscend(Entries(t)) && AllIn(Entries(t), lo, hi)
    decreases t, 1, 0
  {
    ValidIsShaped(t, order, lo, hi, height);
    if t.Inner? {
      KidsOrdered(t.keys, t.kids, 0, order, lo, hi, height - 1);
      assert t.kids[0..] == t.kids;
    }
  }

  lemma {:induction false} KidsOrdered(keys: seq<int>, kids: seq<Tree>, i: nat, order: nat, lo: Bound, hi: Bound,
                                       height: nat)
    requires Separates(keys, order, lo, hi) && ValidKids(keys, kids, order, lo, hi, height) && i <= |kids|
    ensures forall j :: 0 <= j < |kids| ==> Shaped(kids[j])
    ensures KeysAscend(EntriesOf(kids[i..]))
    ensures i < |kids| ==> AllIn(EntriesOf(kids[i..]), LoOf(keys, i, lo), hi)
    decreases kids, 0, |kids| - i
  {
    forall j | 0 <= j < |kids| ensures Shaped(kids[j]) {
      ValidIsShaped(kids[j], order, LoOf(keys, j, lo), HiOf(keys, j, hi), height);
    }
    if i < |kids| {
      EntriesOrdered(kids[i], order, LoOf(keys, i, lo), HiOf(keys, i, hi), height);
      KidsOrdered(keys, kids, i + 1, order, lo, hi, height);
      assert kids[i..][1..] == kids[i + 1..];
    }
  }

  /** Children before child i only hold keys below separator i-1. */
  lemma {:induction false} KidsBefore(keys: seq<int>, kids: seq<Tree>, i: nat, order: nat, lo: Bound, hi: Bound,
                                      height: nat)
    requires Separates(keys, order, lo, hi) && ValidKids(keys, kids, order, lo, hi, height) && 1 <= i < |kids|
    ensures forall j :: 0 <= j < |kids| ==> Shaped(kids[j])
    ensures AllIn(EntriesOf(kids[..i]), lo, At(keys[i - 1]))
  {
    forall j | 0 <= j < |kids| ensures Shaped(kids[j]) {
      ValidIsShaped(kids[j], order, LoOf(keys, j, lo), HiOf(keys, j, hi), height);
    }
    EntriesOrdered(kids[i - 1], order, LoOf(keys, i - 1, lo), HiOf(keys, i - 1, hi), height);
    if i > 1 { KidsBefore(keys, kids, i - 1, order, lo, hi, height); }
    assert kids[..i] == kids[..i - 1] + [kids[i - 1]];
    EntriesOfConcat(kids[..i - 1], [kids[i - 1]]);
    EntriesOfOne(kids[i - 1]);
  }

  /** Around the child chosen for k, entries to the left have smaller keys and entries to
      the right larger ones. */
  lemma {:induction false} AroundChosenKid(t: Tree, k: int, order: nat, lo: Bound, hi: Bound, height: nat)
    requires t.Inner? && Valid(t, order, lo, hi, height)
    ensures Shaped(t)
    ensures var i := ChildIndex(t.keys, k);
      && Entries(t) == EntriesOf(t.kids[..i]) + Entries(t.kids[i]) + EntriesOf(t.kids[i + 1..])
      && (forall e :: e in EntriesOf(t.kids[..i]) ==> e.key < k)
      && (forall e :: e in EntriesOf(t.kids[i + 1..]) ==> k < e.key)
      && Valid(t.kids[i], order, LoOf(t.keys, i, lo), HiOf(t.keys, i, hi), height - 1)
      && (NotBelow(lo, k) ==> NotBelow(LoOf(t.keys, i, lo), k))
      && (Below(k, hi) ==> Below(k, HiOf(t.keys, i, hi)))
  {
    ValidIsShaped(t, order, lo, hi, height);
    var i := ChildIndex(t.keys, k);
    EntriesAround(t.kids, i);
    if i > 0 { KidsBefore(t.keys, t.kids, i, order, lo, hi, height - 1); }
    KidsOrdered(t.keys, t.kids, i + 1, order, lo, hi, height - 1);
  }

  // ---------- Laws of the entry lists ----------

  lemma {:induction false} InsertEntryMiddle(a: seq<Entry>, b: seq<Entry>, c: seq<Entry>, k: int, row: int)
    requires forall e :: e in a ==> e.key < k
    requires forall e :: e in c ==> k < e.key
    ensures InsertEntry(a + b + c, k, row) == a + InsertEntry(b, k, row) + c
  {
    var s := a + b + c;
    if a != [] {
      assert a[0] in a;
      assert s[0] == a[0] && s[1..] == a[1..] + b + c;
      InsertEntryMiddle(a[1..], b, c, k, row);
    } else if b != [] {
      assert s[0] == b[0] && s[1..] == [] + b[1..] + c;
      if b[0].key < k { InsertEntryMiddle([], b[1..], c, k, row); }
    } else if c != [] {
      assert s == c && c[0] in c;
    }
  }

  lemma {:induction false} RemoveKeyConcat(a: seq<Entry>, b: seq<Entry>, k: int)
    ensures RemoveKey(a + b, k) == RemoveKey(a, k) + RemoveKey(b, k)
  {
    if a == [] {
      assert a + b == b;
    } else {
      assert (a + b)[0] == a[0] && (a + b)[1..] == a[1..] + b;
      RemoveKeyConcat(a[1..], b, k);
    }
  }

  lemma {:induction false} RemoveAbsentKey(es: seq<Entry>, k: int)
    requires forall e :: e in es ==> e.key != k
    ensures RemoveKey(es, k) == es
  {
    if es != [] { RemoveAbsentKey(es[1..], k); }
  }

  lemma {:induction false} RemoveKeyMiddle(a: seq<Entry>, b: seq<Entry>, c: seq<Entry>, k: int)
    requires forall e :: e in a ==> e.key < k
    requires forall e :: e in c ==> k < e.key
    ensures RemoveKey(a + b + c, k) == a + RemoveKey(b, k) + c
  {
    RemoveKeyConcat(a + b, c, k);
    RemoveKeyConcat(a, b, k);
    RemoveAbsentKey(a, k);
    RemoveAbsentKey(c, k);
  }

  lemma {:induction false} RowsBetweenConcat(a: seq<Entry>, b: seq<Entry>, min: int, max: int)
    ensures RowsBetween(a + b, min, max) == RowsBetween(a, min, max) + RowsBetween(b, min, max)
  {
    if a == [] {
      assert a + b == b;
    } else {
      assert (a + b)[0] == a[0] && (a + b)[1..] == a[1..] + b;
      RowsBetweenConcat(a[1..], b, min, max);
    }
  }

  lemma {:induction false} NoRowsBelow(es: seq<Entry>, min: int, max: int)
    requires forall e :: e in es ==> e.key < min
    ensures RowsBetween(es, min, max) == []
  {
    if es != [] { NoRowsBelow(es[1..], min, max); }
  }

  // ---------- The map a list of entries stands for ----------

  /** m holds exactly the pairs of es. */
  ghost predicate Represents(m: map<int, int>, es: seq<Entry>) {
    && (forall e :: e in es ==> e.key in m && m[e.key] == e.row)
    && (forall x :: x in m ==> Entry(x, m[x]) in es)
  }

  lemma {:induction false} MapOfHolds(es: seq<Entry>)
    requires KeysAscend(es)
    ensures Represents(MapOf(es), es)
  {
    if es != [] {
      var front, last := es[..|es| - 1], es[|es| - 1];
      assert es == front + [last];
      MapOfHolds(front);
      assert forall e :: e in es <==> e in front || e == last;
    }
  }

  lemma {:induction false} HoldsUnique(m: map<int, int>, m': map<int, int>, es: seq<Entry>)
    requires Represents(m, es) && Represents(m', es)
    ensures m == m'
  {
    assert forall x :: x in m ==> Entry(x, m[x]) in es;
    assert forall x :: x in m' ==> Entry(x, m'[x]) in es;
  }

  lemma {:induction false} InsertEntryMembers(es: seq<Entry>, k: int, row: int)
    ensures forall e :: e in InsertEntry(es, k, row) <==> e == Entry(k, row) || e in es
  {
    if es != [] && es[0].key < k { InsertEntryMembers(es[1..], k, row); }
  }

  lemma {:induction false} InsertEntryAscends(es: seq<Entry>, k: int, row: int)
    requires KeysAscend(es) && forall e :: e in es ==> e.key != k
    ensures KeysAscend(InsertEntry(es, k, row))
  {
    if es != [] && es[0].key < k {
      InsertEntryAscends(es[1..], k, row);
      InsertEntryMembers(es[1..], k, row);
      var r := InsertEntry(es[1..], k, row);
      forall j | 0 <= j < |r| ensures es[0].key < r[j].key {
        assert r[j] in r;
      }
    }
  }

  lemma {:induction false} RemoveKeyMembers(es: seq<Entry>, k: int)
    ensures forall e :: e in RemoveKey(es, k) <==> e in es && e.key != k
  {
    if es != [] { RemoveKeyMembers(es[1..], k); }
  }

  lemma {:induction false} RemoveKeyAscends(es: seq<Entry>, k: int)
    requires KeysAscend(es)
    ensures KeysAscend(RemoveKey(es, k))
  {
    if es != [] {
      RemoveKeyAscends(es[1..], k);
      RemoveKeyMembers(es[1..], k);
      var r := RemoveKey(es[1..], k);
      forall j | 0 <= j < |r| ensures es[0].key < r[j].key {
        assert r[j] in r;
      }
    }
  }

  lemma {:induction false} HoldsInsert(m: map<int, int>, es: seq<Entry>, k: int, row: int)
    requires Represents(m, es) && forall e :: e in es ==> e.key != k
    ensures Represents(m[k := row], InsertEntry(es, k, row))
  {
    InsertEntryMembers(es, k, row);
    forall x | x in m ensures Entry(x, m[x]) in InsertEntry(es, k, row) {
      assert Entry(x, m[x]) in es;
    }
  }

  lemma {:induction false} MapOfInsert(es: seq<Entry>, k: int, row: int)
    requires KeysAscend(es) && forall e :: e in es ==> e.key != k
    ensures MapOf(InsertEntry(es, k, row)) == MapOf(es)[k := row]
  {
    InsertEntryAscends(es, k, row);
    MapOfHolds(es);
    MapOfHolds(InsertEntry(es, k, row));
    HoldsInsert(MapOf(es), es, k, row);
    HoldsUnique(MapOf(InsertEntry(es, k, row)), MapOf(es)[k := row], InsertEntry(es, k, row));
  }

  lemma {:induction false} MapOfRemove(es: seq<Entry>, k: int)
    requires KeysAscend(es)
    ensures MapOf(RemoveKey(es, k)) == MapOf(es) - {k}
  {
    var es' := RemoveKey(es, k);
    RemoveKeyMembers(es, k);
    RemoveKeyAscends(es, k);
    MapOfHolds(es);
    MapOfHolds(es');
    HoldsUnique(MapOf(es'), MapOf(es) - {k}, es');
  }

  // ---------- Find ----------

  /** Find returns the row stored under k, or -1 when k is absent. */
  lemma {:induction false} FindReadsEntries(t: Tree, k: int, order: nat, lo: Bound, hi: Bound, height: nat)
    requires Valid(t, order, lo, hi, height)
    ensures Shaped(t)
    ensures Entry(k, Find(t, k)) in Entries(t) || (Find(t, k) == -1 && forall e :: e in Entries(t) ==> e.key != k)
    decreases t
  {
    ValidIsShaped(t, order, lo, hi, height);
    match t
    case Leaf(keys, rows) =>
      var p := LowerBound(keys, k);
      if p < |keys| && keys[p] == k {
        assert Zip(keys, rows)[p] == Entry(k, rows[p]);
      }
    case Inner(keys, kids) =>
      AroundChosenKid(t, k, order, lo, hi, height);
      var i := ChildIndex(keys, k);
      FindReadsEntries(kids[i], k, order, LoOf(keys, i, lo), HiOf(keys, i, hi), height - 1);
  }

  /** The search refines the finite map. */
  lemma {:induction false} FindIsLookup(t: Tree, k: int, order: nat, height: nat)
    requires Valid(t, order, Open, Open, height)
    ensures Shaped(t)
    ensures Find(t, k) == RowAt(MapOf(Entries(t)), k)
  {
    EntriesOrdered(t, order, Open, Open, height);
    FindReadsEntries(t, k, order, Open, Open, height);
    MapOfHolds(Entries(t));
  }

  // ---------- Insert ----------

  ghost function GrownEntries(g: Grown): seq<Entry>
    requires ShapedGrown(g)
  {
    match g
    case Whole(t) => Entries(t)
    case Halves(l, _, r) => Entries(l) + Entries(r)
  }

  /** A grown subtree is valid in its parent's place; two halves meet at a separator
      strictly inside the bounds. */
  ghost predicate ValidGrown(g: Grown, order: nat, lo: Bound, hi: Bound, height: nat) {
    match g
    case Whole(t) => Valid(t, order, lo, hi, height)
    case Halves(l, s, r) =>
      && Valid(l, order, lo, At(s), height) && Valid(r, order, At(s), hi, height)
      && Between(lo, s, hi, order)
  }

  lemma {:induction false} ZipInsert(keys: seq<int>, rows: seq<int>, k: int, row: int)
    requires |keys| == |rows| && Ascending(keys)
    ensures var p := LowerBound(keys, k);
      Zip(InsertAt(keys, p, k), InsertAt(rows, p, row)) == InsertEntry(Zip(keys, rows), k, row)
  {
    var p := LowerBound(keys, k);
    var es := Zip(keys, rows);
    InsertEntryAt(es, p, k, row);
    assert Zip(InsertAt(keys, p, k), InsertAt(rows, p, row)) == InsertAt(es, p, Entry(k, row));
  }

  lemma {:induction false} InsertEntryAt(es: seq<Entry>, p: nat, k: int, row: int)
    requires p <= |es|
    requires forall j :: 0 <= j < p ==> es[j].key < k
    requires p < |es| ==> k <= es[p].key
    ensures InsertEntry(es, k, row) == InsertAt(es, p, Entry(k, row))
  {
    if p > 0 { InsertEntryAt(es[1..], p - 1, k, row); }
  }

  lemma {:induction false} GrowLeafEntries(keys: seq<int>, rows: seq<int>, order: nat)
    requires |keys| == |rows|
    ensures ShapedGrown(GrowLeaf(keys, rows, order))
    ensures GrownEntries(GrowLeaf(keys, rows, order)) == Zip(keys, rows)
  {
    if |keys| > order {
      var mid := |keys| / 2;
      assert Zip(keys[..mid], rows[..mid]) + Zip(keys[mid..], rows[mid..]) == Zip(keys, rows);
    }
  }

  lemma {:induction false} GrowInnerEntries(keys: seq<int>, kids: seq<Tree>, order: nat)
    requires |kids| == |keys| + 1 && forall i :: 0 <= i < |kids| ==> Shaped(kids[i])
    ensures ShapedGrown(GrowInner(keys, kids, order))
    ensures GrownEntries(GrowInner(keys, kids, order)) == EntriesOf(kids)
  {
    if |keys| > order {
      var mid := |keys| / 2;
      assert kids == kids[..mid + 1] + kids[mid + 1..];
      EntriesOfConcat(kids[..mid + 1], kids[mid + 1..]);
    }
  }

  /** The entries of a child list in which child i became one or two trees. */
  lemma {:induction false} EntriesReplaced(kids: seq<Tree>, i: nat, mid: seq<Tree>)
    requires i < |kids|
    requires forall j :: 0 <= j < |kids| ==> Shaped(kids[j])
    requires forall j :: 0 <= j < |mid| ==> Shaped(mid[j])
    ensures var kids' := kids[..i] + mid + kids[i + 1..];
      && (forall j :: 0 <= j < |kids'| ==> Shaped(kids'[j]))
      && EntriesOf(kids') == EntriesOf(kids[..i]) + EntriesOf(mid) + EntriesOf(kids[i + 1..])
  {
    EntriesOfConcat(kids[..i] + mid, kids[i + 1..]);
    EntriesOfConcat(kids[..i], mid);
  }

  lemma {:induction false} WholeEntries(kids: seq<Tree>, i: nat, c: Tree)
    requires i < |kids| && Shaped(c)
    requires forall j :: 0 <= j < |kids| ==> Shaped(kids[j])
    ensures var kids' := kids[i := c];
      && (forall j :: 0 <= j < |kids'| ==> Shaped(kids'[j]))
      && EntriesOf(kids') == EntriesOf(kids[..i]) + Entries(c) + EntriesOf(kids[i + 1..])
  {
    EntriesReplaced(kids, i, [c]);
    EntriesOfOne(c);
    assert kids[i := c] == kids[..i] + [c] + kids[i + 1..];
  }

  lemma {:induction false} HalvesEntries(kids: seq<Tree>, i: nat, l: Tree, r: Tree)
    requires i < |kids| && Shaped(l) && Shaped(r)
    requires forall j :: 0 <= j < |kids| ==> Shaped(kids[j])
    ensures var kids' := InsertAt(kids[i := l], i + 1, r);
      && (forall j :: 0 <= j < |kids'| ==> Shaped(kids'[j]))
      && EntriesOf(kids') == EntriesOf(kids[..i]) + (Entries(l) + Entries(r)) + EntriesOf(kids[i + 1..])
  {
    EntriesReplaced(kids, i, [l, r]);
    assert [l, r][1..] == [r];
    EntriesOfOne(r);
    assert InsertAt(kids[i := l], i + 1, r) == kids[..i] + [l, r] + kids[i + 1..];
  }

  lemma {:induction false} GrowAboveEntries(keys: seq<int>, kids: seq<Tree>, i: nat, g: Grown, order: nat)
    requires |kids| == |keys| + 1 && i < |kids| && ShapedGrown(g)
    requires forall j :: 0 <= j < |kids| ==> Shaped(kids[j])
    ensures ShapedGrown(GrowAbove(keys, kids, i, g, order))
    ensures GrownEntries(GrowAbove(keys, kids, i, g, order))
         == EntriesOf(kids[..i]) + GrownEntries(g) + EntriesOf(kids[i + 1..])
  {
    match g
    case Whole(c) =>
      WholeEntries(kids, i, c);
    case Halves(l, s, r) =>
      HalvesEntries(kids, i, l, r);
      GrowInnerEntries(InsertAt(keys, i, s), InsertAt(kids[i := l], i + 1, r), order);
  }

  /** What insertion adds to child i it adds to the whole. */
  lemma {:induction false} InsertAddsAbove(t: Tree, k: int, row: int, g: Grown, order: nat, lo: Bound, hi: Bound,
                                           height: nat)
    requires t.Inner? && Valid(t, order, lo, hi, height) && Shaped(t) && ShapedGrown(g)
    requires GrownEntries(g) == InsertEntry(Entries(t.kids[ChildIndex(t.keys, k)]), k, row)
    ensures ShapedGrown(GrowAbove(t.keys, t.kids, ChildIndex(t.keys, k), g, order))
    ensures GrownEntries(GrowAbove(t.keys, t.kids, ChildIndex(t.keys, k), g, order)) == InsertEntry(Entries(t), k, row)
  {
    var i := ChildIndex(t.keys, k);
    AroundChosenKid(t, k, order, lo, hi, height);
    InsertEntryMiddle(EntriesOf(t.kids[..i]), Entries(t.kids[i]), EntriesOf(t.kids[i + 1..]), k, row);
    GrowAboveEntries(t.keys, t.kids, i, g, order);
  }

  /** Insertion adds exactly the new pair, at its place in key order. */
  lemma {:induction false} InsertAddsEntry(t: Tree, k: int, row: int, order: nat, lo: Bound, hi: Bound, height: nat)
    requires Valid(t, order, lo, hi, height)
    ensures Shaped(t) && ShapedGrown(Insert(t, k, row, order))
    ensures GrownEntries(Insert(t, k, row, order)) == InsertEntry(Entries(t), k, row)
    decreases t
  {
    ValidIsShaped(t, order, lo, hi, height);
    match t
    case Leaf(keys, rows) =>
      var p := LowerBound(keys, k);
      ZipInsert(keys, rows, k, row);
      GrowLeafEntries(InsertAt(keys, p, k), InsertAt(rows, p, row), order);
    case Inner(keys, kids) =>
      var i := ChildIndex(keys, k);
      InsertAddsEntry(kids[i], k, row, order, LoOf(keys, i, lo), HiOf(keys, i, hi), height - 1);
      InsertAddsAbove(t, k, row, Insert(kids[i], k, row, order), order, lo, hi, height);
  }

  lemma {:induction false} GrowLeafValid(keys: seq<int>, rows: seq<int>, order: nat, lo: Bound, hi: Bound)
    requires |keys| <= MostKeys(order) + 1 && ValidLeaf(keys, rows, lo, hi)
    ensures ValidGrown(GrowLeaf(keys, rows, order), order, lo, hi, 1)
  {
    if |keys| > order { assert order > 0 ==> NotBelow(lo, keys[0]) && keys[0] < keys[|keys| / 2]; }
  }

  lemma {:induction false} LeftPartValid(keys: seq<int>, kids: seq<Tree>, mid: nat, order: nat, lo: Bound, hi: Bound,
                                         height: nat)
    requires mid < |keys| && FewestKeys(order, lo, At(keys[mid])) <= mid <= MostKeys(order) && height >= 1
    requires Separates(keys, order, lo, hi) && ValidKids(keys, kids, order, lo, hi, height)
    ensures Valid(Inner(keys[..mid], kids[..mid + 1]), order, lo, At(keys[mid]), height + 1)
  {
    var ks, cs, top := keys[..mid], kids[..mid + 1], At(keys[mid]);
    forall j | 0 <= j < |cs| ensures Valid(cs[j], order, LoOf(ks, j, lo), HiOf(ks, j, top), height) {
      assert LoOf(ks, j, lo) == LoOf(keys, j, lo) && HiOf(ks, j, top) == HiOf(keys, j, hi);
    }
  }

  lemma {:induction false} RightPartValid(keys: seq<int>, kids: seq<Tree>, mid: nat, order: nat, lo: Bound, hi: Bound,
                                          height: nat)
    requires mid < |keys| <= mid + 1 + MostKeys(order) && height >= 1
    requires FewestKeys(order, At(keys[mid]), hi) <= |keys| - mid - 1
    requires Separates(keys, order, lo, hi) && ValidKids(keys, kids, order, lo, hi, height)
    ensures Valid(Inner(keys[mid + 1..], kids[mid + 1..]), order, At(keys[mid]), hi, height + 1)
  {
    var ks, cs, bottom := keys[mid + 1..], kids[mid + 1..], At(keys[mid]);
    forall j | 0 <= j < |cs| ensures Valid(cs[j], order, LoOf(ks, j, bottom), HiOf(ks, j, hi), height) {
      assert cs[j] == kids[mid + 1 + j];
      assert LoOf(ks, j, bottom) == LoOf(keys, mid + 1 + j, lo) && HiOf(ks, j, hi) == HiOf(keys, mid + 1 + j, hi);
    }
  }

  lemma {:induction false} GrowInnerValid(keys: seq<int>, kids: seq<Tree>, order: nat, lo: Bound, hi: Bound,
                                          height: nat)
    requires 1 <= |keys| <= MostKeys(order) + 1
    requires Separates(keys, order, lo, hi) && ValidKids(keys, kids, order, lo, hi, height) && height >= 1
    ensures ValidGrown(GrowInner(keys, kids, order), order, lo, hi, height + 1)
  {
    if |keys| > order {
      LeftPartValid(keys, kids, |keys| / 2, order, lo, hi, height);
      RightPartValid(keys, kids, |keys| / 2, order, lo, hi, height);
    }
  }

  /** Putting the two halves of child i, and their separator, into the parent. */
  lemma {:induction false} AdoptValid(keys: seq<int>, kids: seq<Tree>, i: nat, l: Tree, s: int, r: Tree,
                   order: nat, lo: Bound, hi: Bound, height: nat)
    requires Separates(keys, order, lo, hi) && ValidKids(keys, kids, order, lo, hi, height) && i < |kids|
    requires ValidGrown(Halves(l, s, r), order, LoOf(keys, i, lo), HiOf(keys, i, hi), height)
    ensures var keys', kids' := InsertAt(keys, i, s), InsertAt(kids[i := l], i + 1, r);
      Separates(keys', order, lo, hi) && ValidKids(keys', kids', order, lo, hi, height)
  {
    var keys', kids' := InsertAt(keys, i, s), InsertAt(kids[i := l], i + 1, r);
    AdoptSeparates(keys, i, s, order, lo, hi);
    forall j | 0 <= j < |kids'| ensures Valid(kids'[j], order, LoOf(keys', j, lo), HiOf(keys', j, hi), height) {
      if j < i {
        assert LoOf(keys', j, lo) == LoOf(keys, j, lo) && HiOf(keys', j, hi) == HiOf(keys, j, hi);
        assert kids'[j] == kids[j];
      } else if j > i + 1 {
        assert kids'[j] == kids[j - 1];
        assert LoOf(keys', j, lo) == LoOf(keys, j - 1, lo) && HiOf(keys', j, hi) == HiOf(keys, j - 1, hi);
      }
    }
  }

  lemma {:induction false} AdoptSeparates(keys: seq<int>, i: nat, s: int, order: nat, lo: Bound, hi: Bound)
    requires Separates(keys, order, lo, hi) && i <= |keys|
    requires Between(LoOf(keys, i, lo), s, HiOf(keys, i, hi), order)
    ensures Separates(InsertAt(keys, i, s), order, lo, hi)
  {
    var keys' := InsertAt(keys, i, s);
    forall a, b | 0 <= a < b < |keys'| ensures Parts(keys'[a], keys'[b], order) {
      if a < i <= b { assert a < i - 1 ==> Parts(keys[a], keys[i - 1], order); }
      if a <= i < b { assert i < b - 1 ==> Parts(keys[i], keys[b - 1], order); }
    }
    if i > 0 { assert Between(lo, keys[0], hi, order); }
    if i < |keys| { assert Between(lo, keys[|keys| - 1], hi, order); }
  }

  lemma {:induction false} InsertAscends(keys: seq<int>, i: nat, s: int)
    requires Ascending(keys) && i <= |keys|
    requires i > 0 ==> keys[i - 1] < s
    requires i < |keys| ==> s < keys[i]
    ensures Ascending(InsertAt(keys, i, s))
  {
    assert forall j :: 0 <= j < i ==> keys[j] <= keys[i - 1];
    assert forall j :: i <= j < |keys| ==> keys[i] <= keys[j];
  }

  lemma {:induction false} LeafInsertValid(keys: seq<int>, rows: seq<int>, k: int, row: int, lo: Bound, hi: Bound)
    requires ValidLeaf(keys, rows, lo, hi) && NotBelow(lo, k) && Below(k, hi)
    requires k !in keys
    ensures var p := LowerBound(keys, k);
      ValidLeaf(InsertAt(keys, p, k), InsertAt(rows, p, row), lo, hi)
  {
    var p := LowerBound(keys, k);
    InsertAscends(keys, p, k);
  }

  lemma {:induction false} InsertLeafKeepsValid(keys: seq<int>, rows: seq<int>, k: int, row: int, order: nat,
                                                lo: Bound, hi: Bound)
    requires Valid(Leaf(keys, rows), order, lo, hi, 1)
    requires NotBelow(lo, k) && Below(k, hi)
    requires forall e :: e in Zip(keys, rows) ==> e.key != k
    ensures ValidGrown(Insert(Leaf(keys, rows), k, row, order), order, lo, hi, 1)
  {
    var p := LowerBound(keys, k);
    forall j | 0 <= j < |keys| ensures keys[j] != k { assert Zip(keys, rows)[j] in Zip(keys, rows); }
    LeafInsertValid(keys, rows, k, row, lo, hi);
    GrowLeafValid(InsertAt(keys, p, k), InsertAt(rows, p, row), order, lo, hi);
  }

  lemma {:induction false} GrowAboveValid(keys: seq<int>, kids: seq<Tree>, i: nat, g: Grown, order: nat, lo: Bound,
                                          hi: Bound, height: nat)
    requires |keys| <= MostKeys(order) && height >= 1 && i < |kids|
    requires FewestKeys(order, lo, hi) <= |keys|
    requires Separates(keys, order, lo, hi) && ValidKids(keys, kids, order, lo, hi, height)
    requires ValidGrown(g, order, LoOf(keys, i, lo), HiOf(keys, i, hi), height)
    ensures ValidGrown(GrowAbove(keys, kids, i, g, order), order, lo, hi, height + 1)
  {
    match g
    case Whole(c) =>
      assert ValidKids(keys, kids[i := c], order, lo, hi, height);
    case Halves(l, s, r) =>
      AdoptValid(keys, kids, i, l, s, r, order, lo, hi, height);
      GrowInnerValid(InsertAt(keys, i, s), InsertAt(kids[i := l], i + 1, r), order, lo, hi, height);
  }

  /** Inserting an absent key keeps the invariant, split by split. */
  lemma {:induction false} InsertKeepsValid(t: Tree, k: int, row: int, order: nat, lo: Bound, hi: Bound, height: nat)
    requires Valid(t, order, lo, hi, height)
    requires NotBelow(lo, k) && Below(k, hi)
    requires Shaped(t) && forall e :: e in Entries(t) ==> e.key != k
    ensures ValidGrown(Insert(t, k, row, order), order, lo, hi, height)
    decreases t
  {
    match t
    case Leaf(keys, rows) =>
      InsertLeafKeepsValid(keys, rows, k, row, order, lo, hi);
    case Inner(keys, kids) =>
      AroundChosenKid(t, k, order, lo, hi, height);
      var i := ChildIndex(keys, k);
      assert forall e :: e in Entries(kids[i]) ==> e in Entries(t);
      InsertKeepsValid(kids[i], k, row, order, LoOf(keys, i, lo), HiOf(keys, i, hi), height - 1);
      GrowAboveValid(keys, kids, i, Insert(kids[i], k, row, order), order, lo, hi, height - 1);
  }

  /** The new root over the two halves of the old one. */
  lemma {:induction false} NewRoot(l: Tree, s: int, r: Tree, order: nat, height: nat)
    requires ValidGrown(Halves(l, s, r), order, Open, Open, height) && height >= 1
    ensures Valid(Inner([s], [l, r]), order, Open, Open, height + 1)
    ensures Shaped(l) && Shaped(r) && Shaped(Inner([s], [l, r]))
    ensures Entries(Inner([s], [l, r])) == Entries(l) + Entries(r)
  {
    ValidIsShaped(l, order, Open, At(s), height);
    ValidIsShaped(r, order, At(s), Open, height);
    assert ValidKids([s], [l, r], order, Open, Open, height);
    assert [l, r][1..] == [r];
    EntriesOfOne(r);
  }

  /** Whether or not the key is there already, its pair is put in its place in key order. */
  lemma {:induction false} InsertRootAddsEntry(t: Tree, k: int, row: int, order: nat, height: nat)
    requires Valid(t, order, Open, Open, height)
    ensures Shaped(t) && Shaped(InsertRoot(t, k, row, order))
    ensures Entries(InsertRoot(t, k, row, order)) == InsertEntry(Entries(t), k, row)
  {
    InsertAddsEntry(t, k, row, order, Open, Open, height);
    match Insert(t, k, row, order)
    case Whole(_) =>
    case Halves(l, s, r) =>
      assert [l, r][1..] == [r];
      EntriesOfOne(r);
  }

  lemma {:induction false} InsertRootEntries(t: Tree, k: int, row: int, order: nat, height: nat) returns (height': nat)
    requires Valid(t, order, Open, Open, height)
    requires Shaped(t) && forall e :: e in Entries(t) ==> e.key != k
    ensures height' == if Insert(t, k, row, order).Whole? then height else height + 1
    ensures Valid(InsertRoot(t, k, row, order), order, Open, Open, height')
    ensures Shaped(InsertRoot(t, k, row, order))
    ensures Entries(InsertRoot(t, k, row, order)) == InsertEntry(Entries(t), k, row)
  {
    InsertAddsEntry(t, k, row, order, Open, Open, height);
    InsertKeepsValid(t, k, row, order, Open, Open, height);
    match Insert(t, k, row, order)
    case Whole(_) =>
      height' := height;
    case Halves(l, s, r) =>
      height' := height + 1;
      NewRoot(l, s, r, order, height);
  }

  /** insertUnlocked on a value: the new tree is valid, perhaps one level higher, and its
      map is the old one with the new pair. */
  lemma {:induction false} InsertRootRefines(t: Tree, k: int, row: int, order: nat, height: nat) returns (height': nat)
    requires Valid(t, order, Open, Open, height)
    requires Shaped(t) && k !in MapOf(Entries(t))
    ensures height' == if Insert(t, k, row, order).Whole? then height else height + 1
    ensures Valid(InsertRoot(t, k, row, order), order, Open, Open, height')
    ensures Shaped(InsertRoot(t, k, row, order))
    ensures MapOf(Entries(InsertRoot(t, k, row, order))) == MapOf(Entries(t))[k := row]
  {
    height' := InsertRootEntries(t, k, row, order, height);
    EntriesOrdered(t, order, Open, Open, height);
    MapOfInsert(Entries(t), k, row);
  }

  // ---------- Remove ----------

  lemma {:induction false} RemoveAtKey(es: seq<Entry>, p: nat, k: int)
    requires KeysAscend(es) && p < |es| && es[p].key == k
    ensures RemoveKey(es, k) == RemoveAt(es, p)
  {
    assert es == es[..p] + ([es[p]] + es[p + 1..]);
    RemoveKeyConcat(es[..p], [es[p]] + es[p + 1..], k);
    RemoveKeyConcat([es[p]], es[p + 1..], k);
    RemoveAbsentKey(es[..p], k);
    RemoveAbsentKey(es[p + 1..], k);
  }

  lemma {:induction false} RemoveLeaf(keys: seq<int>, rows: seq<int>, k: int, order: nat, lo: Bound, hi: Bound)
    requires Valid(Leaf(keys, rows), order, lo, hi, 1)
    ensures Valid(Remove(Leaf(keys, rows), k), order, lo, hi, 1)
    ensures Shaped(Remove(Leaf(keys, rows), k))
    ensures Entries(Remove(Leaf(keys, rows), k)) == RemoveKey(Zip(keys, rows), k)
  {
    var p := LowerBound(keys, k);
    var es := Zip(keys, rows);
    if p < |keys| && keys[p] == k {
      RemoveAtKey(es, p, k);
      assert Zip(RemoveAt(keys, p), RemoveAt(rows, p)) == RemoveAt(es, p);
    } else {
      assert forall j :: p < j < |keys| ==> keys[p] < keys[j];
      RemoveAbsentKey(es, k);
    }
  }

  lemma {:induction false} KidSwapped(t: Tree, i: nat, kid: Tree, order: nat, lo: Bound, hi: Bound, height: nat)
    requires t.Inner? && Shaped(t) && i < |t.kids| && Valid(t, order, lo, hi, height)
    requires Valid(kid, order, LoOf(t.keys, i, lo), HiOf(t.keys, i, hi), height - 1)
    ensures Valid(Inner(t.keys, t.kids[i := kid]), order, lo, hi, height)
  {
    assert ValidKids(t.keys, t.kids[i := kid], order, lo, hi, height - 1);
  }

  lemma {:induction false} RemoveAbove(t: Tree, k: int, kid: Tree, order: nat, lo: Bound, hi: Bound, height: nat)
    requires t.Inner? && Valid(t, order, lo, hi, height) && Shaped(t) && Shaped(kid)
    requires Entries(kid) == RemoveKey(Entries(t.kids[ChildIndex(t.keys, k)]), k)
    ensures var t' := Inner(t.keys, t.kids[ChildIndex(t.keys, k) := kid]);
      Shaped(t') && Entries(t') == RemoveKey(Entries(t), k)
  {
    var i := ChildIndex(t.keys, k);
    AroundChosenKid(t, k, order, lo, hi, height);
    KidEntries(t, i, kid);
    RemovedMiddle(EntriesOf(t.kids[..i]), Entries(t.kids[i]), EntriesOf(t.kids[i + 1..]), k, Entries(kid), Entries(t));
  }

  lemma {:induction false} RemovedMiddle(a: seq<Entry>, b: seq<Entry>, c: seq<Entry>, k: int, left: seq<Entry>,
                                         whole: seq<Entry>)
    requires whole == a + b + c && left == RemoveKey(b, k)
    requires (forall e :: e in a ==> e.key < k) && forall e :: e in c ==> k < e.key
    ensures a + left + c == RemoveKey(whole, k)
  {
    RemoveKeyMiddle(a, b, c, k);
  }

  lemma {:induction false} KidEntries(t: Tree, i: nat, kid: Tree)
    requires t.Inner? && Shaped(t) && i < |t.kids| && Shaped(kid)
    ensures var t' := Inner(t.keys, t.kids[i := kid]);
      Shaped(t') && Entries(t') == EntriesOf(t.kids[..i]) + Entries(kid) + EntriesOf(t.kids[i + 1..])
  {
    WholeEntries(t.kids, i, kid);
  }

  /** Deletion keeps the invariant and takes out its key alone. */
  lemma {:induction false} RemoveDropsEntry(t: Tree, k: int, order: nat, lo: Bound, hi: Bound, height: nat)
    requires Valid(t, order, lo, hi, height)
    ensures Shaped(t) && Shaped(Remove(t, k))
    ensures Valid(Remove(t, k), order, lo, hi, height)
    ensures Entries(Remove(t, k)) == RemoveKey(Entries(t), k)
    decreases t
  {
    ValidIsShaped(t, order, lo, hi, height);
    match t
    case Leaf(keys, rows) =>
      RemoveLeaf(keys, rows, k, order, lo, hi);
    case Inner(keys, kids) =>
      var i := ChildIndex(keys, k);
      RemoveDropsEntry(kids[i], k, order, LoOf(keys, i, lo), HiOf(keys, i, hi), height - 1);
      KidSwapped(t, i, Remove(kids[i], k), order, lo, hi, height);
      RemoveAbove(t, k, Remove(kids[i], k), order, lo, hi, height);
  }

  /** removeUnlocked on a value; the branch that lowers the root is never taken. */
  lemma {:induction false} RemoveRootRefines(t: Tree, k: int, order: nat, height: nat)
    requires Valid(t, order, Open, Open, height)
    ensures Shaped(t) && RemoveRoot(t, k) == Remove(t, k)
    ensures Valid(RemoveRoot(t, k), order, Open, Open, height)
    ensures Shaped(RemoveRoot(t, k))
    ensures MapOf(Entries(RemoveRoot(t, k))) == MapOf(Entries(t)) - {k}
  {
    EntriesOrdered(t, order, Open, Open, height);
    RemoveDropsEntry(t, k, order, Open, Open, height);
    MapOfRemove(Entries(t), k);
  }

  // ---------- Range search ----------

  /** How many leaves lie before the one the descent for k reaches. */
  function LeavesBefore(t: Tree, k: int): (n: nat)
    requires Shaped(t)
    decreases t
  {
    match t
    case Leaf(_, _) => 0
    case Inner(keys, kids) =>
      var i := ChildIndex(keys, k);
      |LeafListOf(kids[..i])| + LeavesBefore(kids[i], k)
  }

  lemma {:induction false} LeavesAround(kids: seq<Tree>, i: nat)
    requires i < |kids|
    ensures LeafListOf(kids) == LeafListOf(kids[..i]) + LeafList(kids[i]) + LeafListOf(kids[i + 1..])
  {
    if i > 0 {
      LeavesAround(kids[1..], i - 1);
      assert kids[1..][..i - 1] == kids[..i][1..];
      assert kids[1..][i..] == kids[i + 1..];
    }
  }

  /** The leaves hold the entries, in the same order. */
  lemma {:induction false} LeavesHoldEntries(t: Tree)
    requires Shaped(t)
    ensures forall j :: 0 <= j < |LeafList(t)| ==> LeafList(t)[j].Leaf? && Shaped(LeafList(t)[j])
    ensures EntriesOf(LeafList(t)) == Entries(t)
    decreases t, 1
  {
    match t
    case Leaf(_, _) => EntriesOfOne(t);
    case Inner(_, kids) => LeavesHoldEntriesOf(kids);
  }

  lemma {:induction false} LeavesHoldEntriesOf(ts: seq<Tree>)
    requires forall i :: 0 <= i < |ts| ==> Shaped(ts[i])
    ensures forall j :: 0 <= j < |LeafListOf(ts)| ==> LeafListOf(ts)[j].Leaf? && Shaped(LeafListOf(ts)[j])
    ensures EntriesOf(LeafListOf(ts)) == EntriesOf(ts)
    decreases ts, 0
  {
    if ts != [] {
      LeavesHoldEntries(ts[0]);
      LeavesHoldEntriesOf(ts[1..]);
      EntriesOfConcat(LeafList(ts[0]), LeafListOf(ts[1..]));
    }
  }

  lemma {:induction false} LeavesBeforeAbove(kids: seq<Tree>, i: nat, n: nat)
    requires i < |kids| && n <= |LeafList(kids[i])|
    requires forall j :: 0 <= j < |kids| ==> Shaped(kids[j])
    requires forall j :: 0 <= j < |LeafList(kids[i])| ==> Shaped(LeafList(kids[i])[j])
    ensures var a := LeafListOf(kids[..i]);
      && |a| + |LeafList(kids[i])| <= |LeafListOf(kids)|
      && LeafListOf(kids)[..|a| + n] == a + LeafList(kids[i])[..n]
      && (forall j :: 0 <= j < |a| ==> Shaped(a[j]))
      && EntriesOf(a + LeafList(kids[i])[..n]) == EntriesOf(kids[..i]) + EntriesOf(LeafList(kids[i])[..n])
  {
    var a := LeafListOf(kids[..i]);
    LeavesAround(kids, i);
    LeavesHoldEntriesOf(kids[..i]);
    EntriesOfConcat(a, LeafList(kids[i])[..n]);
  }

  /** Leaves left of the one the descent reaches hold only smaller keys. */
  lemma {:induction false} LeavesBeforeAreBelow(t: Tree, k: int, order: nat, lo: Bound, hi: Bound, height: nat)
    requires Valid(t, order, lo, hi, height)
    ensures Shaped(t) && LeavesBefore(t, k) < |LeafList(t)|
    ensures forall j :: 0 <= j < |LeafList(t)| ==> Shaped(LeafList(t)[j])
    ensures forall e :: e in EntriesOf(LeafList(t)[..LeavesBefore(t, k)]) ==> e.key < k
    decreases t
  {
    ValidIsShaped(t, order, lo, hi, height);
    LeavesHoldEntries(t);
    if t.Inner? {
      var i := ChildIndex(t.keys, k);
      LeavesBeforeAreBelow(t.kids[i], k, order, LoOf(t.keys, i, lo), HiOf(t.keys, i, hi), height - 1);
      LeavesBeforeAbove(t.kids, i, LeavesBefore(t.kids[i], k));
      AroundChosenKid(t, k, order, lo, hi, height);
    }
  }

  /** Scanning the leaf chain from the leaf the descent for min reaches misses no row
      of the range. */
  lemma {:induction false} ScanFromDescent(t: Tree, min: int, max: int, order: nat, height: nat)
    requires Valid(t, order, Open, Open, height)
    ensures Shaped(t) && LeavesBefore(t, min) < |LeafList(t)|
    ensures forall j :: 0 <= j < |LeafList(t)| ==> Shaped(LeafList(t)[j])
    ensures RowsBetween(EntriesOf(LeafList(t)[LeavesBefore(t, min)..]), min, max) == RowsBetween(Entries(t), min, max)
  {
    LeavesBeforeAreBelow(t, min, order, Open, Open, height);
    LeavesHoldEntries(t);
    var n := LeavesBefore(t, min);
    var a, b := LeafList(t)[..n], LeafList(t)[n..];
    assert LeafList(t) == a + b;
    EntriesOfConcat(a, b);
    RowsBetweenConcat(EntriesOf(a), EntriesOf(b), min, max);
    NoRowsBelow(EntriesOf(a), min, max);
  }

  lemma {:induction false} NothingAbove(es: seq<Entry>, min: int, max: int)
    requires forall e :: e in es ==> max < e.key
    ensures RowsBetween(es, min, max) == []
  {
    if es != [] { NothingAbove(es[1..], min, max); }
  }

  /** In a leaf with ascending keys nothing behind the first key above max is missed. */
  lemma {:induction false} ScanOneIsRows(keys: seq<int>, rows: seq<int>, min: int, max: int)
    requires |keys| == |rows| && Ascending(keys)
    ensures ScanOne(keys, rows, min, max) == RowsBetween(Zip(keys, rows), min, max)
  {
    if keys != [] {
      var es := Zip(keys, rows);
      assert es[1..] == Zip(keys[1..], rows[1..]);
      if keys[0] > max {
        NothingAbove(es, min, max);
      } else {
        ScanOneIsRows(keys[1..], rows[1..], min, max);
      }
    }
  }

  lemma {:induction false} ScanLeavesIsRows(ts: seq<Tree>, min: int, max: int)
    requires forall j :: 0 <= j < |ts| ==> ts[j].Leaf? && Shaped(ts[j]) && Ascending(ts[j].keys)
    ensures ScanLeaves(ts, min, max) == RowsBetween(EntriesOf(ts), min, max)
  {
    if ts != [] {
      ScanOneIsRows(ts[0].keys, ts[0].rows, min, max);
      ScanLeavesIsRows(ts[1..], min, max);
      RowsBetweenConcat(Entries(ts[0]), EntriesOf(ts[1..]), min, max);
    }
  }

  // ---------- The length of a search ----------

  /** A search walks through as many nodes as the tree has levels. */
  lemma {:induction false} PathIsHeight(t: Tree, k: int, order: nat, lo: Bound, hi: Bound, height: nat)
    requires Valid(t, order, lo, hi, height)
    ensures Shaped(t) && PathLength(t, k) == height
    decreases t
  {
    ValidIsShaped(t, order, lo, hi, height);
    if t.Inner? {
      var i := ChildIndex(t.keys, k);
      PathIsHeight(t.kids[i], k, order, LoOf(t.keys, i, lo), HiOf(t.keys, i, hi), height - 1);
    }
  }
}
