/** The ORDER BY operator: it collects its child's rows, sorts them and hands them out. */
module SortOperator {
  import opened Values
  import opened Operators
  import opened Filter
  import opened SortOrder

  /** No row stands behind one that it should come before. */
  ghost predicate Ordered(rows: seq<Row>, items: seq<SortItem>, names: seq<string>, setting: Setting) {
    forall i, j :: 0 <= i < j < |rows| ==> !Before(rows[j], rows[i], items, names, setting)
  }

  ghost predicate AllRegular(rows: seq<Row>, items: seq<SortItem>, kinds: seq<Kind>, names: seq<string>,
                             setting: Setting) {
    |items| == |kinds| && forall i :: 0 <= i < |rows| ==> Regular(rows[i], items, kinds, names, setting)
  }

  /** Stands for std::sort: what callers may use is that it permutes, and, if the comparator is
      a strict weak order on the rows, that it orders them.  None if a comparison throws. */
  method StdSort(rows: seq<Row>, items: seq<SortItem>, ghost kinds: seq<Kind>, names: seq<string>, setting: Setting)
      returns (sorted: Option<seq<Row>>)
    ensures sorted.Some? ==> multiset(sorted.value) == multiset(rows)
    ensures AllRegular(rows, items, kinds, names, setting) ==>
      sorted.Some? && Ordered(sorted.value, items, names, setting)
  {
    ghost var regular := AllRegular(rows, items, kinds, names, setting);
    var out: seq<Row> := [];
    var i := 0;
    while i < |rows|
      invariant 0 <= i <= |rows|
      invariant multiset(out) == multiset(rows[..i])
      invariant regular ==> AllRegular(out, items, kinds, names, setting) && Ordered(out, items, names, setting)
    {
      assert rows[..i + 1] == rows[..i] + [rows[i]];
      var next := InsertOne(out, rows[i], items, kinds, names, setting);
      if next.None? { return None; }
      out := next.value;
      i := i + 1;
    }
    assert rows[..|rows|] == rows;
    return Some(out);
  }

  method InsertOne(rows: seq<Row>, row: Row, items: seq<SortItem>, ghost kinds: seq<Kind>, names: seq<string>,
                   setting: Setting)
      returns (out: Option<seq<Row>>)
    ensures out.Some? ==> multiset(out.value) == multiset(rows) + multiset{row}
    ensures AllRegular(rows, items, kinds, names, setting) && AllRegular([row], items, kinds, names, setting) ==>
      out.Some? && AllRegular(out.value, items, kinds, names, setting)
      && (Ordered(rows, items, names, setting) ==> Ordered(out.value, items, names, setting))
  {
    var place := FindPlace(rows, row, items, kinds, names, setting);
    if place.None? { return None; }
    InsertedMultiset(rows, place.value, row);
    if AllRegular(rows, items, kinds, names, setting) && AllRegular([row], items, kinds, names, setting) {
      InsertKeepsOrder(rows, place.value, row, items, kinds, names, setting);
    }
    return Some(Inserted(rows, place.value, row));
  }

  function Inserted(rows: seq<Row>, k: nat, row: Row): seq<Row>
    requires k <= |rows|
  {
    rows[..k] + [row] + rows[k..]
  }

  lemma {:induction false} InsertedMultiset(rows: seq<Row>, k: nat, row: Row)
    requires k <= |rows|
    ensures multiset(Inserted(rows, k, row)) == multiset(rows) + multiset{row}
  {
    assert rows == rows[..k] + rows[k..];
  }

  /** The first place whose row comes behind the given one. */
  method FindPlace(rows: seq<Row>, row: Row, items: seq<SortItem>, ghost kinds: seq<Kind>, names: seq<string>,
                   setting: Setting)
      returns (k: Option<nat>)
    ensures k.Some? ==> k.value <= |rows|
    ensures k.Some? ==> forall j :: 0 <= j < k.value ==> !Before(row, rows[j], items, names, setting)
    ensures k.Some? && k.value < |rows| ==> Before(row, rows[k.value], items, names, setting)
    ensures AllRegular(rows, items, kinds, names, setting) && AllRegular([row], items, kinds, names, setting) ==>
      k.Some?
  {
    var n := 0;
    while n < |rows|
      invariant 0 <= n <= |rows|
      invariant forall j :: 0 <= j < n ==> !Before(row, rows[j], items, names, setting)
    {
      var less := CompareRows(row, rows[n], items, names, setting);
      if less.None? {
        if AllRegular(rows, items, kinds, names, setting) && AllRegular([row], items, kinds, names, setting) {
          assert Regular([row][0], items, kinds, names, setting);
          LessIsRowOrder(row, rows[n], items, kinds, names, setting);
        }
        return None;
      }
      if less.value { return Some(n); }
      n := n + 1;
    }
    return Some(n);
  }

  lemma {:induction false} InsertKeepsOrder(rows: seq<Row>, k: nat, row: Row, items: seq<SortItem>, kinds: seq<Kind>,
                                            names: seq<string>, setting: Setting)
    requires k <= |rows| && AllRegular(rows, items, kinds, names, setting)
    requires AllRegular([row], items, kinds, names, setting)
    requires forall j :: 0 <= j < k ==> !Before(row, rows[j], items, names, setting)
    requires k < |rows| ==> Before(row, rows[k], items, names, setting)
    ensures AllRegular(Inserted(rows, k, row), items, kinds, names, setting)
    ensures Ordered(rows, items, names, setting) ==> Ordered(Inserted(rows, k, row), items, names, setting)
  {
    assert Regular([row][0], items, kinds, names, setting);
    var out := Inserted(rows, k, row);
    assert forall i :: 0 <= i < |out| ==> out[i] == if i < k then rows[i] else if i == k then row else rows[i - 1];
    forall i, j | 0 <= i < j < |out| && Ordered(rows, items, names, setting)
      ensures !Before(out[j], out[i], items, names, setting)
    {
      if i == k && Before(out[j], row, items, names, setting) {
        StrictWeakOrder(rows[j - 1], row, rows[k], items, kinds, names, setting);
      }
    }
  }

  /** Everything the child yields, up to its end or its failure; false if it fails. */
  method Collect(child: RowSource) returns (rows: seq<Row>, ok: bool)
    requires child.Valid()
    modifies child
    ensures child.Valid() && ok == !old(child.Pending().failed)
    ensures rows == old(child.Pending().rows)
  {
    rows := [];
    ghost var all := child.Pending();
    while true
      invariant child.Valid() && |rows| <= |all.rows| && rows == all.rows[..|rows|]
      invariant child.Pending() == Run(all.rows[|rows|..], all.failed) && all.failed == child.failsAtEnd
      decreases |all.rows| - |rows|
    {
      if |rows| < |all.rows| {
        OneRowOn(all.rows, |rows|);
      }
      var r := child.Next();
      if !r.Got? { return rows, r.Eof?; }
      rows := rows + [r.row];
    }
  }

  class SortOperator {
    const child: RowSource
    const items: seq<SortItem>
    const names: seq<string>
    const setting: Setting
    var isOpen: bool
    var sortedRows: seq<Row>
    var currentRowIndex: nat

    ghost predicate Valid()
      reads this, child
    {
      child.Valid() && currentRowIndex <= |sortedRows| && (!isOpen ==> currentRowIndex == 0)
    }

    /** The rows still to be handed out. */
    ghost function Pending(): seq<Row>
      reads this, child
      requires Valid()
    {
      sortedRows[currentRowIndex..]
    }

    constructor (child: RowSource, items: seq<SortItem>, names: seq<string>, setting: Setting)
      requires child.Valid()
      ensures Valid() && !isOpen && sortedRows == [] && this.child == child && this.items == items
      ensures this.names == names && this.setting == setting
    {
      this.child, this.items, this.names, this.setting := child, items, names, setting;
      isOpen, sortedRows, currentRowIndex := false, [], 0;
    }

    /** Opening an open operator changes nothing.  Otherwise the child's rows are put behind those that
        an earlier, failed opening has left, and all are sorted; opening fails if the child fails or a
        comparison throws, and then leaves the rows. */
    method Open(ghost kinds: seq<Kind>) returns (ok: bool)
      requires Valid()
      modifies this, child
      ensures Valid() && ok == isOpen
      ensures old(isOpen) ==> ok && Pending() == old(Pending())
      ensures !old(isOpen) ==>
        var all := old(sortedRows) + old(child.Pending().rows);
        && multiset(sortedRows) == multiset(all) && sortedRows == Pending()
        && (ok ==> !old(child.Pending().failed))
        && (AllRegular(all, items, kinds, names, setting) ==>
              ok == !old(child.Pending().failed) && (ok ==> Ordered(Pending(), items, names, setting)))
    {
      if isOpen { return true; }
      var rows, read := Collect(child);
      sortedRows := sortedRows + rows;
      assert Pending() == sortedRows;
      if !read { return false; }
      var sorted := StdSort(sortedRows, items, kinds, names, setting);
      if sorted.None? { return false; }
      sortedRows, isOpen := sorted.value, true;
      assert Pending() == sortedRows;
      return true;
    }

    method Next() returns (r: Fetched)
      requires Valid()
      modifies this
      ensures Valid() && isOpen == old(isOpen)
      ensures !isOpen ==> r == Error
      ensures isOpen && old(Pending()) != [] ==> r == Got(old(Pending())[0]) && Pending() == old(Pending())[1..]
      ensures isOpen && old(Pending()) == [] ==> r == Eof && Pending() == []
    {
      if !isOpen { return Error; }
      if currentRowIndex >= |sortedRows| { return Eof; }
      r := Got(sortedRows[currentRowIndex]);
      currentRowIndex := currentRowIndex + 1;
    }

    /** Pulling to the end. */
    method PullAll() returns (rows: seq<Row>)
      requires Valid() && isOpen
      modifies this
      ensures rows == old(Pending())
    {
      rows := [];
      ghost var all := Pending();
      while true
        invariant Valid() && isOpen && |rows| <= |all|
        invariant rows == all[..|rows|] && Pending() == all[|rows|..]
        decreases |all| - |rows|
      {
        if |rows| < |all| {
          OneRowOn(all, |rows|);
        }
        var r := Next();
        if !r.Got? { return; }
        rows := rows + [r.row];
      }
    }

    /** Opening and pulling to the end: the child's rows, each as often, in the asked order. */
    method Drain(ghost kinds: seq<Kind>) returns (rows: seq<Row>, failed: bool)
      requires Valid() && !isOpen && sortedRows == []
      modifies this, child
      ensures !failed ==> multiset(rows) == multiset(old(child.Pending().rows))
      ensures AllRegular(old(child.Pending().rows), items, kinds, names, setting) ==>
        failed == old(child.Pending().failed) && (!failed ==> Ordered(rows, items, names, setting))
    {
      assert [] + child.Pending().rows == child.Pending().rows;
      var ok := Open(kinds);
      if !ok { return [], true; }
      rows := PullAll();
      failed := false;
    }

    method Close()
      requires Valid()
      modifies this
      ensures Valid() && !isOpen
      ensures old(isOpen) ==> sortedRows == [] && currentRowIndex == 0
    {
      if isOpen {
        sortedRows, currentRowIndex, isOpen := [], 0, false;
      }
    }
  }
}
