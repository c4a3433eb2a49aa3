/** The aggregate operator: it streams its child's rows into groups and hands out one row per
    group. */
module AggregateOperator {
  import opened Values
  import opened Expressions
  import opened Operators
  import opened Filter
  import opened Aggregates
  import opened Groups
  import opened GroupLaws

  class AggregateOperator {
    const child: RowSource
    const grouping: Grouping
    var isOpen: bool
    var groupOrder: seq<Key>
    var groups: seq<seq<Agg>>
    var currentGroupIndex: nat

    ghost predicate Valid()
      reads this, child
    {
      child.Valid() && TableOk(grouping, Contents()) && currentGroupIndex <= |groupOrder|
    }

    function Contents(): Table
      reads this
    {
      Table(groupOrder, groups)
    }

    /** The output rows still to come, and whether a lookup throws behind them. */
    ghost function Pending(): Run
      reads this, child
      requires Valid()
    {
      OutputRun(grouping, Contents(), currentGroupIndex)
    }

    constructor (child: RowSource, grouping: Grouping)
      requires child.Valid()
      ensures Valid() && !isOpen && this.child == child && this.grouping == grouping
      ensures Contents() == Table([], []) && currentGroupIndex == 0
    {
      this.child, this.grouping := child, grouping;
      isOpen, groupOrder, groups, currentGroupIndex := false, [], [], 0;
    }

    /** Looks for the group with that key among the keys of its hash. */
    method FindGroup(key: Key) returns (found: Found)
      ensures found == Find(groupOrder, key, 0, grouping)
    {
      var j := 0;
      while j < |groupOrder|
        invariant 0 <= j <= |groupOrder|
        invariant Find(groupOrder, key, j, grouping) == Find(groupOrder, key, 0, grouping)
      {
        if KeyHash(groupOrder[j], grouping) == KeyHash(key, grouping) {
          var same := SameGroup(groupOrder[j], key, grouping.setting.text);
          if same.None? { return Throws; }
          if same.value { return Place(j); }
        }
        j := j + 1;
      }
      return Absent;
    }

    method UpdateStates(states: seq<Agg>, row: Row) returns (r: Option<seq<Agg>>)
      requires |states| == |grouping.aggregates|
      ensures r == AddToStates(grouping, states, row, |grouping.aggregates|)
    {
      var g := grouping;
      var context := BuildRowContext(g.names, row);
      var out := states;
      var i := 0;
      while i < |g.aggregates|
        invariant 0 <= i <= |g.aggregates| && |out| == |states|
        invariant AddToStates(g, states, row, i) == Some(out)
      {
        var v := Eval(g.aggregates[i].arg, Env(context, g.setting.text, g.setting.scalar, g.setting.run));
        if v.None? {
          StopsHere(g, states, row, i + 1, |g.aggregates|);
          return None;
        }
        var s := AddValue(out[i], g.aggregates[i].name, v.value, g.setting.text);
        if s.None? {
          StopsHere(g, states, row, i + 1, |g.aggregates|);
          return None;
        }
        out := out[i := s.value];
        i := i + 1;
      }
      return Some(out);
    }

    /** One row into its group, which is made if it is new. */
    method TakeRow(row: Row) returns (ok: bool)
      requires Valid()
      modifies this`groupOrder, this`groups
      ensures var t := AddRow(grouping, old(Contents()), row);
        ok == t.Some? && (ok ==> Contents() == t.value)
    {
      var context := BuildRowContext(grouping.names, row);
      var setting := grouping.setting;
      var key := EvalAll(grouping.groupBy, Env(context, setting.text, setting.scalar, setting.run));
      if key.None? { return false; }
      var found := FindGroup(key.value);
      if found.Throws? { return false; }
      var states := if found.Place? then groups[found.j] else Fresh(grouping);
      var updated := UpdateStates(states, row);
      if updated.None? { return false; }
      if found.Place? {
        groups := groups[found.j := updated.value];
      } else {
        groupOrder, groups := groupOrder + [key.value], groups + [updated.value];
      }
      return true;
    }

    /** Fails if the child fails, or a key, an argument or an aggregate does. */
    method BuildGroups() returns (ok: bool)
      requires Valid() && Contents() == Table([], [])
      modifies child, this`groupOrder, this`groups
      ensures ok ==> Valid()
      ensures ok == (!old(child.Pending().failed) && AddRows(grouping, old(child.Pending().rows)).Some?)
      ensures ok ==> AddRows(grouping, old(child.Pending().rows)) == Some(Contents())
    {
      ghost var input := child.Pending().rows;
      ghost var n := 0;
      assert input[0..] == input;
      while true
        invariant Valid() && n <= |input| && child.Pending() == Run(input[n..], child.failsAtEnd)
        invariant AddRows(grouping, input[..n]) == Some(Contents())
        decreases |input| - n
      {
        var r := child.Next();
        if !r.Got? {
          assert input[..n] == input;
          return r.Eof?;
        }
        NextRow(grouping, input, n);
        var took := TakeRow(r.row);
        if !took { return false; }
        n := n + 1;
      }
    }

    /** Opening an open operator changes nothing. */
    method Open() returns (ok: bool)
      requires Valid() && (!isOpen ==> Contents() == Table([], []) && currentGroupIndex == 0)
      modifies this, child
      ensures ok ==> Valid() && isOpen
      ensures old(isOpen) ==> ok && Pending() == old(Pending())
      ensures !old(isOpen) ==>
        && ok == (!old(child.Pending().failed) && AddRows(grouping, old(child.Pending().rows)).Some?)
        && (ok ==> Pending() == GroupRun(grouping, old(child.Pending().rows)))
    {
      if isOpen { return true; }
      ok := BuildGroups();
      if ok { isOpen := true; }
    }

    /** Each call looks the next key up and hands out its row. */
    method Next() returns (r: Fetched)
      requires Valid()
      modifies this`currentGroupIndex
      ensures Valid()
      ensures !isOpen ==> r == Error
      ensures isOpen && old(Pending()).rows != [] ==>
        r == Got(old(Pending()).rows[0]) && Pending() == Run(old(Pending()).rows[1..], old(Pending()).failed)
      ensures isOpen && old(Pending()).rows == [] ==>
        r == (if old(Pending()).failed then Error else Eof) && Pending() == old(Pending())
    {
      if !isOpen { return Error; }
      while currentGroupIndex < |groupOrder|
        invariant Valid() && Pending() == old(Pending())
        decreases |groupOrder| - currentGroupIndex
      {
        var key := groupOrder[currentGroupIndex];
        var found := FindGroup(key);
        if found.Throws? { return Error; }
        currentGroupIndex := currentGroupIndex + 1;
        if found.Place? { return Got(OutputRow(grouping, key, groups[found.j])); }
      }
      return Eof;
    }

    method PullAll() returns (rows: seq<Row>, failed: bool)
      requires Valid() && isOpen
      modifies this`currentGroupIndex
      ensures Run(rows, failed) == old(Pending())
    {
      rows := [];
      ghost var all := Pending();
      while true
        invariant Valid() && isOpen && |rows| <= |all.rows|
        invariant rows == all.rows[..|rows|] && Pending() == Run(all.rows[|rows|..], all.failed)
        decreases |all.rows| - |rows|
      {
        if |rows| < |all.rows| {
          OneRowOn(all.rows, |rows|);
        }
        var r := Next();
        if !r.Got? { return rows, r.Error?; }
        rows := rows + [r.row];
      }
    }

    /** Opening and pulling to the end: one row per group, in the order of appearance, with the
        aggregates of all its rows, up to the first key whose lookup throws. */
    method Drain(ghost keyTypes: seq<DataType>, ghost kinds: seq<Kind>) returns (rows: seq<Row>, failed: bool)
      requires Valid() && !isOpen && Contents() == Table([], []) && currentGroupIndex == 0
      requires |kinds| == |grouping.aggregates|
      modifies this, child
      ensures Run(rows, failed)
           == if old(child.Pending().failed) then Run([], true) else GroupRun(grouping, old(child.Pending().rows))
      ensures RegularRows(grouping, old(child.Pending().rows), keyTypes, kinds) && BOOLEAN !in keyTypes ==>
        && failed == old(child.Pending().failed)
        && (!failed ==> IsGrouped(grouping, old(child.Pending().rows), rows))
    {
      ghost var input := child.Pending().rows;
      if RegularRows(grouping, input, keyTypes, kinds) && BOOLEAN !in keyTypes {
        RegularRowsAreGrouped(grouping, input, keyTypes, kinds);
      }
      var ok := Open();
      if !ok { return [], true; }
      rows, failed := PullAll();
    }

    method Close()
      requires Valid()
      modifies this
      ensures Valid() && !isOpen
      ensures old(isOpen) ==> Contents() == Table([], []) && currentGroupIndex == 0
    {
      if isOpen {
        groupOrder, groups, currentGroupIndex, isOpen := [], [], 0, false;
      }
    }
  }

  /** Once an aggregate fails on a row, so do all further ones. */
  lemma {:induction false} StopsHere(g: Grouping, states: seq<Agg>, row: Row, n: nat, m: nat)
    requires n <= m <= |g.aggregates| == |states| && AddToStates(g, states, row, n).None?
    ensures AddToStates(g, states, row, m).None?
    decreases m
  {
    if n < m {
      StopsHere(g, states, row, n, m - 1);
    }
  }

  /** One step of streaming, and a step that fails fails the whole. */
  lemma {:induction false} NextRow(g: Grouping, rows: seq<Row>, n: nat)
    requires n < |rows| && AddRows(g, rows[..n]).Some?
    ensures AddRows(g, rows[..n + 1]) == AddRow(g, AddRows(g, rows[..n]).value, rows[n])
    ensures AddRows(g, rows[..n + 1]).None? ==> AddRows(g, rows).None?
    ensures rows[n..][0] == rows[n] && rows[n..][1..] == rows[n + 1..]
  {
    assert rows[..n + 1][..n] == rows[..n];
    if AddRows(g, rows[..n + 1]).None? {
      FailureStays(g, rows, n + 1);
    }
  }

  lemma {:induction false} FailureStays(g: Grouping, rows: seq<Row>, n: nat)
    requires n <= |rows| && AddRows(g, rows[..n]).None?
    ensures AddRows(g, rows).None?
    decreases |rows|
  {
    if n == |rows| {
      assert rows[..n] == rows;
    } else {
      assert rows[..|rows| - 1][..n] == rows[..n];
      FailureStays(g, rows[..|rows| - 1], n);
    }
  }
}
