/** Building a PRIMARY index over the rows of a table. */
module PrimaryIndex {
  import opened Values
  import opened BTree
  import opened BTreeLaws
  import opened BPlusTree

  const INDEX_ORDER: nat := 200

  /** The integer the first column reads as; a row without columns has none. */
  function KeyOf(row: Row): Option<int> {
    if row == [] then None else GetInt(row[0])
  }

  /** The smallest row id, counted from 1, whose first column reads as k, or -1. */
  function FirstWith(rows: seq<Row>, k: int): (r: int)
    ensures r == -1 || 1 <= r <= |rows|
    ensures r == -1 ==> forall i :: 0 <= i < |rows| ==> KeyOf(rows[i]) != Some(k)
    ensures r != -1 ==> KeyOf(rows[r - 1]) == Some(k) && forall i :: 0 <= i < r - 1 ==> KeyOf(rows[i]) != Some(k)
  {
    if rows == [] then -1
    else
      var n := |rows| - 1;
      var r := FirstWith(rows[..n], k);
      if r != -1 then r else if KeyOf(rows[n]) == Some(k) then n + 1 else -1
  }

  /** A map answers every key as the linear scan of the rows does, and stores no -1. */
  ghost predicate Indexes(m: map<int, int>, rows: seq<Row>) {
    forall k :: RowAt(m, k) == FirstWith(rows, k) && !Hidden(m, k)
  }

  lemma {:induction false} IndexOneMore(m: map<int, int>, rows: seq<Row>, n: nat)
    requires n < |rows| && Indexes(m, rows[..n])
    ensures KeyOf(rows[n]).None? || KeyOf(rows[n]).value in m ==> Indexes(m, rows[..n + 1])
    ensures KeyOf(rows[n]).Some? && KeyOf(rows[n]).value !in m ==>
      Indexes(m[KeyOf(rows[n]).value := n + 1], rows[..n + 1])
  {
    var a, b := rows[..n], rows[..n + 1];
    forall k ensures FirstWith(b, k) == if FirstWith(a, k) != -1 then FirstWith(a, k)
                                        else if KeyOf(rows[n]) == Some(k) then n + 1 else -1 {
      assert b[..n] == a && b[n] == rows[n];
    }
    assert forall k :: RowAt(m, k) == FirstWith(a, k) && !Hidden(m, k);
  }

  /** One row of the build loop: without columns it is skipped, and a key that is already
      indexed is refused by the tree.  ok is false when the reading throws. */
  method AddRow(tree: BPlusTree, rows: seq<Row>, i: nat) returns (ok: bool, ghost made: set<Node>)
    requires tree.Inv() && i < |rows| && Indexes(tree.Contents(), rows[..i])
    modifies tree, Nodes(tree.layout)
    ensures tree.Inv() && tree.order == old(tree.order)
    ensures fresh(made) && Nodes(tree.layout) <= old(Nodes(tree.layout)) + made
    ensures ok == (rows[i] == [] || KeyOf(rows[i]).Some?)
    ensures ok ==> Indexes(tree.Contents(), rows[..i + 1])
  {
    IndexOneMore(tree.Contents(), rows, i);
    ok, made := true, {};
    if |rows[i]| > 0 {
      var key := GetInt(rows[i][0]);
      if key.None? {
        return false, {};
      }
      var added;
      added, made := tree.InsertUnlocked(key.value, i + 1);
    }
  }

  /** The build loop of createIndex, over the rows numbered from 1. */
  method CreatePrimary(rows: seq<Row>) returns (ok: bool, tree: BPlusTree)
    ensures tree.Inv() && tree.order == INDEX_ORDER && fresh(tree)
    ensures ok <==> forall i :: 0 <= i < |rows| && rows[i] != [] ==> GetInt(rows[i][0]).Some?
    ensures ok ==> Indexes(tree.Contents(), rows)
  {
    tree := new BPlusTree(INDEX_ORDER);
    var i := 0;
    ghost var made := Nodes(tree.layout);
    while i < |rows|
      invariant i <= |rows| && tree.Inv() && tree.order == INDEX_ORDER
      invariant fresh(tree) && fresh(made) && Nodes(tree.layout) <= made
      invariant forall j :: 0 <= j < i ==> rows[j] == [] || KeyOf(rows[j]).Some?
      invariant Indexes(tree.Contents(), rows[..i])
    {
      ghost var more;
      ok, more := AddRow(tree, rows, i);
      if !ok {
        return;
      }
      made := made + more;
      i := i + 1;
    }
    assert rows[..i] == rows;
    ok := true;
  }

  /** A lookup in the index is the linear scan of the table. */
  method LookUp(tree: BPlusTree, rows: seq<Row>, key: int) returns (row: int)
    requires tree.Inv() && Indexes(tree.Contents(), rows)
    ensures row == FirstWith(rows, key)
  {
    row := tree.FindUnlocked(key);
  }

  /** The keys of the entries that lie in [min, max], in order. */
  function KeysBetween(es: seq<Entry>, min: int, max: int): seq<int> {
    if es == [] then []
    else (if min <= es[0].key <= max then [es[0].key] else []) + KeysBetween(es[1..], min, max)
  }

  lemma {:induction false} RangeRows(es: seq<Entry>, min: int, max: int)
    ensures var keys, rows := KeysBetween(es, min, max), RowsBetween(es, min, max);
      && |keys| == |rows|
      && forall i :: 0 <= i < |keys| ==> min <= keys[i] <= max && Entry(keys[i], rows[i]) in es
  {
    if es != [] {
      RangeRows(es[1..], min, max);
    }
  }

  lemma {:induction false} RangeHasKeys(es: seq<Entry>, min: int, max: int, e: Entry)
    requires e in es && min <= e.key <= max
    ensures e.key in KeysBetween(es, min, max)
  {
    if e != es[0] {
      RangeHasKeys(es[1..], min, max, e);
    }
  }

  lemma {:induction false} RangeAscends(es: seq<Entry>, min: int, max: int)
    requires KeysAscend(es)
    ensures Ascending(KeysBetween(es, min, max))
  {
    if es != [] {
      RangeAscends(es[1..], min, max);
      RangeRows(es[1..], min, max);
      var later := KeysBetween(es[1..], min, max);
      forall i | 0 <= i < |later| ensures es[0].key < later[i] {
        assert Entry(later[i], RowsBetween(es[1..], min, max)[i]) in es[1..];
      }
    }
  }

  /** They ascend, and beside each stands its row. */
  lemma {:induction false} RangeKeys(es: seq<Entry>, min: int, max: int)
    requires KeysAscend(es)
    ensures var keys, rows := KeysBetween(es, min, max), RowsBetween(es, min, max);
      && Ascending(keys) && |keys| == |rows|
      && (forall i :: 0 <= i < |keys| ==> min <= keys[i] <= max && Entry(keys[i], rows[i]) in es)
      && (forall e :: e in es && min <= e.key <= max ==> e.key in keys)
  {
    RangeAscends(es, min, max);
    RangeRows(es, min, max);
    forall e | e in es && min <= e.key <= max ensures e.key in KeysBetween(es, min, max) {
      RangeHasKeys(es, min, max, e);
    }
  }

  /** keys are the keys of [min, max] that some row has, ascending, and beside each stands the
      row the scan finds for it. */
  ghost predicate ScanOfRange(rows: seq<Row>, min: int, max: int, keys: seq<int>, results: seq<int>) {
    && Ascending(keys) && |keys| == |results|
    && (forall i :: 0 <= i < |keys| ==> results[i] == FirstWith(rows, keys[i]))
    && (forall k :: k in keys <==> min <= k <= max && FirstWith(rows, k) != -1)
  }

  /** A range search gives, in ascending key order, the scan's row for each key of the range
      that has one, and nothing else. */
  method LookUpRange(tree: BPlusTree, rows: seq<Row>, min: int, max: int) returns (results: seq<int>)
    requires tree.Inv() && Indexes(tree.Contents(), rows)
    ensures exists keys :: ScanOfRange(rows, min, max, keys, results)
  {
    results := tree.RangeSearchUnlocked(min, max);
    ghost var keys := KeysBetween(Entries(tree.tree), min, max);
    MapOfHolds(Entries(tree.tree));
    RangeIsScan(Entries(tree.tree), tree.Contents(), rows, min, max);
    assert ScanOfRange(rows, min, max, keys, results);
  }

  lemma {:induction false} RangeIsScan(es: seq<Entry>, m: map<int, int>, rows: seq<Row>, min: int, max: int)
    requires KeysAscend(es) && Represents(m, es) && Indexes(m, rows)
    ensures ScanOfRange(rows, min, max, KeysBetween(es, min, max), RowsBetween(es, min, max))
  {
    RangeKeys(es, min, max);
    var keys, results := KeysBetween(es, min, max), RowsBetween(es, min, max);
    forall i | 0 <= i < |keys| ensures results[i] == FirstWith(rows, keys[i]) != -1 {
      assert Entry(keys[i], results[i]) in es;
      assert RowAt(m, keys[i]) == FirstWith(rows, keys[i]) && !Hidden(m, keys[i]);
    }
    forall k | min <= k <= max && FirstWith(rows, k) != -1 ensures k in keys {
      assert RowAt(m, k) == FirstWith(rows, k);
      assert Entry(k, m[k]) in es;
    }
  }
}
