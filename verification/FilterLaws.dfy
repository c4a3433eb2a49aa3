/** What the names of a row stand for, and which rows a WHERE lets through. */
module FilterLaws {
  import opened Values
  import opened ValueLaws
  import opened Expressions
  import opened ExpressionLaws
  import opened Operators
  import opened Filter

  // ---------- Names ----------

  /** The short form of a name is what follows its first dot. */
  lemma {:induction false} ShortNameMeans(name: string)
    ensures ShortName(name) == None <==> '.' !in name
    ensures ShortName(name).Some? ==> exists table :: '.' !in table && name == table + "." + ShortName(name).value
  {
    if name != "" {
      if name[0] == '.' {
        assert name == "" + "." + name[1..];
      } else {
        ShortNameMeans(name[1..]);
        if ShortName(name).Some? {
          var table :| '.' !in table && name[1..] == table + "." + ShortName(name).value;
          assert name == [name[0]] + table + "." + ShortName(name).value;
        }
      }
    }
  }

  lemma {:induction false} ShortNameOf(table: string, column: string)
    requires '.' !in table
    ensures ShortName(table + "." + column) == Some(column)
  {
    var name := table + "." + column;
    if table == "" {
      assert name[1..] == column;
    } else {
      assert name[1..] == table[1..] + "." + column;
      ShortNameOf(table[1..], column);
    }
  }

  predicate Named(names: seq<string>, n: nat, s: string)
    requires n <= |names|
  {
    exists i :: 0 <= i < n && (names[i] == s || ShortName(names[i]) == Some(s))
  }

  predicate LastFull(names: seq<string>, n: nat, s: string, j: int)
    requires n <= |names|
  {
    0 <= j < n && names[j] == s && s !in names[j + 1..n]
  }

  predicate FirstShort(names: seq<string>, n: nat, s: string, j: int)
    requires n <= |names|
  {
    && 0 <= j < n && ShortName(names[j]) == Some(s) && s !in names[..n]
    && forall i :: 0 <= i < j ==> ShortName(names[i]) != Some(s)
  }

  /** A name stands for the last column that is called so; where none is, for the first column with
      that short name; and otherwise for nothing. */
  lemma {:induction false} ContextMeans(names: seq<string>, row: Row, n: nat, s: string)
    requires n <= |names| && n <= |row|
    ensures var context := ContextUpTo(names, row, n);
      && (forall j :: LastFull(names, n, s, j) ==> s in context && context[s] == row[j])
      && (forall j :: FirstShort(names, n, s, j) ==> s in context && context[s] == row[j])
      && (s in context <==> Named(names, n, s))
  {
    ContextHas(names, row, n, s);
    forall j | LastFull(names, n, s, j)
      ensures s in ContextUpTo(names, row, n) && ContextUpTo(names, row, n)[s] == row[j]
    {
      LastFullCounts(names, row, n, s, j);
    }
    forall j | FirstShort(names, n, s, j)
      ensures s in ContextUpTo(names, row, n) && ContextUpTo(names, row, n)[s] == row[j]
    {
      FirstShortCounts(names, row, n, s, j);
    }
  }

  /** One more column adds its name, and its short name where that is free. */
  lemma {:induction false} AddedColumn(context: map<string, Value>, name: string, v: Value, s: string)
    ensures var context' := AddColumn(context, name, v);
      && (s in context' <==> s in context || s == name || ShortName(name) == Some(s))
      && (s == name ==> context'[s] == v)
      && (s in context && s != name ==> context'[s] == context[s])
      && (s !in context && ShortName(name) == Some(s) ==> context'[s] == v)
  {
    ShortNameMeans(name);
  }

  lemma {:induction false} ContextHas(names: seq<string>, row: Row, n: nat, s: string)
    requires n <= |names| && n <= |row|
    ensures s in ContextUpTo(names, row, n) <==> Named(names, n, s)
  {
    if n > 0 {
      ContextHas(names, row, n - 1, s);
      AddedColumn(ContextUpTo(names, row, n - 1), names[n - 1], row[n - 1], s);
    }
  }

  lemma {:induction false} LastFullCounts(names: seq<string>, row: Row, n: nat, s: string, j: int)
    requires n <= |names| && n <= |row| && LastFull(names, n, s, j)
    ensures s in ContextUpTo(names, row, n) && ContextUpTo(names, row, n)[s] == row[j]
  {
    AddedColumn(ContextUpTo(names, row, n - 1), names[n - 1], row[n - 1], s);
    if j < n - 1 {
      assert names[j + 1..n] == names[j + 1..n - 1] + [names[n - 1]];
      LastFullCounts(names, row, n - 1, s, j);
    }
  }

  lemma {:induction false} FirstShortCounts(names: seq<string>, row: Row, n: nat, s: string, j: int)
    requires n <= |names| && n <= |row| && FirstShort(names, n, s, j)
    ensures s in ContextUpTo(names, row, n) && ContextUpTo(names, row, n)[s] == row[j]
  {
    AddedColumn(ContextUpTo(names, row, n - 1), names[n - 1], row[n - 1], s);
    assert names[..n] == names[..n - 1] + [names[n - 1]];
    if j < n - 1 {
      FirstShortCounts(names, row, n - 1, s, j);
    } else {
      ContextHas(names, row, n - 1, s);
      assert forall i :: 0 <= i < n - 1 ==> names[i] == names[..n][i];
    }
  }

  /** The column a reference means among the first n: the one called by the whole reference, or else
      by the column name alone. */
  predicate Denotes(names: seq<string>, n: nat, table: string, column: string, j: int)
    requires n <= |names|
  {
    var whole := if table == "" then column else table + "." + column;
    || LastFull(names, n, whole, j) || FirstShort(names, n, whole, j)
    || (!Named(names, n, whole) && (LastFull(names, n, column, j) || FirstShort(names, n, column, j)))
  }

  function Width(names: seq<string>, row: Row): nat {
    if |names| < |row| then |names| else |row|
  }

  function EnvOf(names: seq<string>, row: Row, setting: Setting): Env {
    Env(ContextOf(names, row), setting.text, setting.scalar, setting.run)
  }

  /** A column reference reads the value of the column it means. */
  lemma {:induction false} ColumnMeans(names: seq<string>, row: Row, table: string, column: string, setting: Setting)
    ensures forall j :: Denotes(names, Width(names, row), table, column, j) ==>
      Eval(Col(table, column), EnvOf(names, row, setting)) == Some(row[j])
  {
    var n, whole := Width(names, row), if table == "" then column else table + "." + column;
    ContextMeans(names, row, n, whole);
    ContextMeans(names, row, n, column);
  }

  /** It fails where it means none. */
  lemma {:induction false} ColumnFails(names: seq<string>, row: Row, table: string, column: string, setting: Setting)
    ensures Eval(Col(table, column), EnvOf(names, row, setting)) == None ||
      exists j :: Denotes(names, Width(names, row), table, column, j)
  {
    var n, whole := Width(names, row), if table == "" then column else table + "." + column;
    ContextMeans(names, row, n, whole);
    ContextMeans(names, row, n, column);
    NamedOrNot(names, n, whole);
    NamedOrNot(names, n, column);
    if Named(names, n, whole) {
      var j :| LastFull(names, n, whole, j) || FirstShort(names, n, whole, j);
      assert Denotes(names, n, table, column, j);
    } else if Named(names, n, column) {
      var j :| LastFull(names, n, column, j) || FirstShort(names, n, column, j);
      assert Denotes(names, n, table, column, j);
    }
  }

  lemma {:induction false} NamedOrNot(names: seq<string>, n: nat, s: string)
    requires n <= |names|
    ensures Named(names, n, s) <==> exists j :: LastFull(names, n, s, j) || FirstShort(names, n, s, j)
  {
    if i :| 0 <= i < n && names[i] == s {
      var j := LastOf(names, n, s, i);
      assert LastFull(names, n, s, j);
    } else if i :| 0 <= i < n && ShortName(names[i]) == Some(s) {
      var j := FirstOf(names, n, s, i);
      assert FirstShort(names, n, s, j);
    }
  }

  ghost function LastOf(names: seq<string>, n: nat, s: string, i: nat): (j: nat)
    requires i < n <= |names| && names[i] == s
    ensures LastFull(names, n, s, j)
    decreases n - i
  {
    if k :| i < k < n && names[k] == s then LastOf(names, n, s, k) else i
  }

  ghost function FirstOf(names: seq<string>, n: nat, s: string, i: nat): (j: nat)
    requires i < n <= |names| && ShortName(names[i]) == Some(s) && s !in names[..n]
    ensures FirstShort(names, n, s, j)
    decreases i
  {
    if k :| 0 <= k < i && ShortName(names[k]) == Some(s) then FirstOf(names, n, s, k) else i
  }

  // ---------- WHERE ----------

  /** The rows of a list that pass a test, in order. */
  ghost function Chosen(rows: seq<Row>, keep: Row -> bool): seq<Row> {
    if rows == [] then []
    else (if keep(rows[0]) then [rows[0]] else []) + Chosen(rows[1..], keep)
  }

  /** A filter whose condition says of each of the rows what the test says yields those that pass,
      and then ends as its child does. */
  lemma {:induction false} FilterChooses(rows: seq<Row>, failsAtEnd: bool, e: Expr, names: seq<string>,
                                         setting: Setting, keep: Row -> bool)
    requires forall row :: row in rows ==> JudgeRow(e, names, row, setting) == if keep(row) then Keep else Drop
    ensures FilterRun(rows, failsAtEnd, e, names, setting) == Run(Chosen(rows, keep), failsAtEnd)
  {
    if rows != [] {
      FilterChooses(rows[1..], failsAtEnd, e, names, setting, keep);
    }
  }

  /** A filter ends with an error on the first row on which its condition fails. */
  lemma {:induction false} FilterStops(before: seq<Row>, row: Row, after: seq<Row>, failsAtEnd: bool, e: Expr,
                                       names: seq<string>, setting: Setting)
    requires forall r :: r in before ==> JudgeRow(e, names, r, setting) != Fails
    requires JudgeRow(e, names, row, setting) == Fails
    ensures FilterRun(before + [row] + after, failsAtEnd, e, names, setting) ==
      Run(FilterRun(before, false, e, names, setting).rows, true)
  {
    if before != [] {
      assert (before + [row] + after)[1..] == before[1..] + [row] + after;
      FilterStops(before[1..], row, after, failsAtEnd, e, names, setting);
    }
  }

  /** WHERE column op constant yields exactly the rows whose value in the column is related to the
      constant, in order. */
  lemma {:induction false} WhereKeepsTheRelated(rows: seq<Row>, failsAtEnd: bool, names: seq<string>, setting: Setting,
                                                table: string, column: string, j: nat, op: string, w: Value)
    requires op in {"=", "!=", "<", "<=", ">", ">="}
    requires forall row :: row in rows ==>
      Denotes(names, Width(names, row), table, column, j) && Comparable(row[j], w, setting.text)
    ensures FilterRun(rows, failsAtEnd, Bin(Col(table, column), op, Lit(w)), names, setting) ==
      Run(Chosen(rows, row => j < |row| && Related(row[j], op, w, setting.text)), failsAtEnd)
  {
    var e, keep := Bin(Col(table, column), op, Lit(w)), row => j < |row| && Related(row[j], op, w, setting.text);
    forall row | row in rows ensures JudgeRow(e, names, row, setting) == if keep(row) then Keep else Drop {
      ColumnMeans(names, row, table, column, setting);
      ComparisonMeaning(Col(table, column), op, Lit(w), EnvOf(names, row, setting));
    }
    FilterChooses(rows, failsAtEnd, e, names, setting, keep);
  }
}
