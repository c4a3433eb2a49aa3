/** DELETE and UPDATE over a data file whose row ids are places that every rewrite renumbers. */
module Dml {
  import opened Values
  import opened Expressions
  import opened RowText
  import opened RowTextLaws
  import opened Sequences
  import opened Rewrites
  import opened TableFile

  /** A statement's WHERE clause, if it has one, and what it is evaluated with. */
  datatype Where = Where(
    condition: Option<Expr>,
    names: seq<string>,
    text: Text,
    scalar: (string, seq<Value>) -> Option<Value>,
    run: Query -> Option<seq<Value>>)

  datatype Assignment = Assignment(column: string, value: Expr)

  /** The columns among the first n that the row reaches. */
  function ContextUpTo(names: seq<string>, row: Row, n: nat): map<string, Value>
    requires n <= |names| && n <= |row|
  {
    if n == 0 then map[] else ContextUpTo(names, row, n - 1)[names[n - 1] := row[n - 1]]
  }

  /** Distinct names stand each for their own value, and no other name for anything. */
  lemma {:induction false} ContextMeans(names: seq<string>, row: Row, n: nat)
    requires n <= |names| && n <= |row| && forall i, j :: 0 <= i < j < n ==> names[i] != names[j]
    ensures forall j :: 0 <= j < n ==>
      names[j] in ContextUpTo(names, row, n) && ContextUpTo(names, row, n)[names[j]] == row[j]
    ensures forall name :: name in ContextUpTo(names, row, n) <==> name in names[..n]
  {
    if n > 0 {
      ContextMeans(names, row, n - 1);
      assert names[..n] == names[..n - 1] + [names[n - 1]];
    }
  }

  function EnvOf(w: Where, row: Row): Env {
    var n := if |w.names| < |row| then |w.names| else |row|;
    Env(ContextUpTo(w.names, row, n), w.text, w.scalar, w.run)
  }

  method BuildContext(names: seq<string>, row: Row) returns (context: map<string, Value>)
    ensures context == ContextUpTo(names, row, if |names| < |row| then |names| else |row|)
  {
    context := map[];
    var i := 0;
    while i < |names| && i < |row|
      invariant i <= |names| && i <= |row| && context == ContextUpTo(names, row, i)
    {
      context := context[names[i] := row[i]];
      i := i + 1;
    }
  }

  function JudgeRow(w: Where, row: Row): Verdict {
    if w.condition.None? then Keep else Judge(w.condition.value, EnvOf(w, row))
  }

  method Evaluate(w: Where, row: Row) returns (verdict: Verdict)
    ensures verdict == JudgeRow(w, row)
  {
    verdict := Keep;
    if w.condition.Some? {
      var context := BuildContext(w.names, row);
      verdict := Judge(w.condition.value, Env(context, w.text, w.scalar, w.run));
    }
  }

  /** The rows on which the clause is not true. */
  function Remaining(rows: seq<Row>, w: Where): seq<Row> {
    if rows == [] then []
    else if JudgeRow(w, rows[0]) == Keep then Remaining(rows[1..], w)
    else [rows[0]] + Remaining(rows[1..], w)
  }

  /** The ids, in order, of the first n rows on which the clause is true. */
  function Matching(rows: seq<Row>, w: Where, n: nat): seq<int>
    requires n <= |rows|
  {
    if n == 0 then []
    else Matching(rows, w, n - 1) + (if JudgeRow(w, rows[n - 1]) == Keep then [n] else [])
  }

  // ---------- DELETE ----------

  /** The rows once every match behind the first m rows is deleted. */
  function Deleted(rows: seq<Row>, w: Where, m: nat): seq<Row>
    requires m <= |rows|
  {
    rows[..m] + Remaining(rows[m..], w)
  }

  lemma {:induction false} DeletedEnds(rows: seq<Row>, w: Where)
    ensures Deleted(rows, w, |rows|) == rows && Deleted(rows, w, 0) == Remaining(rows, w)
  {
    assert rows[0..] == rows;
  }

  /** The id of the last match. */
  lemma {:induction false} LastMatch(rows: seq<Row>, w: Where, n: nat) returns (at: nat)
    requires n <= |rows| && Matching(rows, w, n) != []
    ensures 1 <= at <= n && JudgeRow(w, rows[at - 1]) == Keep
    ensures Matching(rows, w, n) == Matching(rows, w, at) == Matching(rows, w, at - 1) + [at]
  {
    if JudgeRow(w, rows[n - 1]) == Keep {
      at := n;
    } else {
      assert Matching(rows, w, n) == Matching(rows, w, n - 1);
      at := LastMatch(rows, w, n - 1);
    }
  }

  lemma {:induction false} RemainingFrom(rows: seq<Row>, w: Where, i: nat)
    requires i < |rows|
    ensures Remaining(rows[i..], w)
         == (if JudgeRow(w, rows[i]) == Keep then [] else [rows[i]]) + Remaining(rows[i + 1..], w)
  {
    assert rows[i..][1..] == rows[i + 1..];
  }

  /** Without matches between them, deleting behind either place is the same. */
  lemma {:induction false} DeletedBetween(rows: seq<Row>, w: Where, m: nat, n: nat)
    requires m <= n <= |rows| && Matching(rows, w, m) == Matching(rows, w, n)
    ensures Deleted(rows, w, m) == Deleted(rows, w, n)
  {
    if m < n {
      MatchingGrows(rows, w, m, n - 1);
      assert Matching(rows, w, n) == Matching(rows, w, n - 1);
      DeletedBetween(rows, w, m, n - 1);
      DeletedPast(rows, w, n - 1);
    }
  }

  lemma {:induction false} DeletedPast(rows: seq<Row>, w: Where, i: nat)
    requires i < |rows| && JudgeRow(w, rows[i]) != Keep
    ensures Deleted(rows, w, i) == Deleted(rows, w, i + 1)
  {
    RemainingFrom(rows, w, i);
    assert rows[..i + 1] == rows[..i] + [rows[i]];
  }

  lemma {:induction false} MatchingGrows(rows: seq<Row>, w: Where, m: nat, n: nat)
    requires m <= n <= |rows|
    ensures |Matching(rows, w, m)| <= |Matching(rows, w, n)|
    ensures |Matching(rows, w, m)| == |Matching(rows, w, n)| ==> Matching(rows, w, m) == Matching(rows, w, n)
    decreases n
  {
    if m < n {
      MatchingGrows(rows, w, m, n - 1);
    }
  }

  lemma {:induction false} RemainingAreRows(rows: seq<Row>, w: Where)
    ensures forall row :: row in Remaining(rows, w) ==> row in rows
    ensures |Remaining(rows, w)| + |Matching(rows, w, |rows|)| == |rows|
  {
    RemainingCount(rows, w, |rows|);
    assert rows[..|rows|] == rows;
    RemainingIn(rows, w);
  }

  lemma {:induction false} RemainingIn(rows: seq<Row>, w: Where)
    ensures forall row :: row in Remaining(rows, w) ==> row in rows
  {
    if rows != [] {
      RemainingIn(rows[1..], w);
    }
  }

  lemma {:induction false} RemainingSnoc(rows: seq<Row>, w: Where, row: Row)
    ensures Remaining(rows + [row], w)
         == Remaining(rows, w) + (if JudgeRow(w, row) == Keep then [] else [row])
  {
    if rows == [] {
      assert (rows + [row])[1..] == [];
    } else {
      assert (rows + [row])[1..] == rows[1..] + [row];
      RemainingSnoc(rows[1..], w, row);
    }
  }

  lemma {:induction false} RemainingCount(rows: seq<Row>, w: Where, n: nat)
    requires n <= |rows|
    ensures |Remaining(rows[..n], w)| + |Matching(rows, w, n)| == n
  {
    if n > 0 {
      RemainingCount(rows, w, n - 1);
      assert rows[..n] == rows[..n - 1] + [rows[n - 1]];
      RemainingSnoc(rows[..n - 1], w, rows[n - 1]);
    }
  }

  /** The ids of the matching rows, or None if the clause fails on some row. */
  method CollectMatches(rows: seq<Row>, w: Where) returns (ids: Option<seq<int>>)
    ensures ids.None? <==> exists i :: 0 <= i < |rows| && JudgeRow(w, rows[i]) == Fails
    ensures ids.Some? ==> ids.value == Matching(rows, w, |rows|)
  {
    var found: seq<int> := [];
    var i := 0;
    while i < |rows|
      invariant 0 <= i <= |rows| && found == Matching(rows, w, i)
      invariant forall j :: 0 <= j < i ==> JudgeRow(w, rows[j]) != Fails
    {
      var verdict := Evaluate(w, rows[i]);
      if verdict.Fails? { return None; }
      if verdict.Keep? { found := found + [i + 1]; }
      i := i + 1;
    }
    return Some(found);
  }

  /** How the file of a table loads and writes rows, */
  function StoreOf(types: seq<DataType>, text: Text): Store<Row> {
    Store((content: string) => Load(content, types, text), (rows: seq<Row>) => Content(rows, text))
  }

  /** which rows its columns take, */
  function TakenBy(types: seq<DataType>, text: Text): Row -> bool {
    (row: Row) => Taken(row, types, text)
  }

  /** and what a rewrite makes of them. */
  function Conversion(types: seq<DataType>, text: Text): Row -> Row {
    (row: Row) => ConvertedRow(row, types, text)
  }

  lemma {:induction false} TakenRowsConvert(types: seq<DataType>, text: Text)
    requires PrintsPlainly(text)
    ensures Converts(StoreOf(types, text), TakenBy(types, text), Conversion(types, text))
  {
    var good, convert := TakenBy(types, text), Conversion(types, text);
    forall row | good(row)
      ensures good(convert(row)) && convert(convert(row)) == convert(row)
    {
      TakenRowReadsAs(row, types, text);
      FileRowIsTaken(convert(row), types, text);
    }
    forall rows | AllGood(rows, good)
      ensures Load(Content(rows, text), types, text) == Some(Mapped(rows, convert))
    {
      GoodIsTaken(rows, types, text);
      TakenRowsReadAs(rows, types, text);
    }
  }

  lemma {:induction false} GoodIsTaken(rows: seq<Row>, types: seq<DataType>, text: Text)
    ensures AllGood(rows, TakenBy(types, text)) <==> AllTaken(rows, types, text)
    ensures Mapped(rows, Conversion(types, text)) == ConvertedRows(rows, types, text)
  {
    var good := TakenBy(types, text);
    assert forall i :: 0 <= i < |rows| ==> good(rows[i]) == Taken(rows[i], types, text);
  }

  /** Finds the matching rows, and deletes them from the last to the first. */
  method ExecuteDelete(file: TableFile, w: Where) returns (affected: Option<nat>)
    modifies file
    ensures var rows := Load(old(file.content), file.types, file.text);
      if rows.None? || exists i :: 0 <= i < |rows.value| && JudgeRow(w, rows.value[i]) == Fails then
        affected == None && file.content == old(file.content)
      else
        var ids := Matching(rows.value, w, |rows.value|);
        var r := DeleteFrom(StoreOf(file.types, file.text), old(file.content), ids, |ids|);
        file.content == r.0 && affected == r.1
  {
    var data := file.LoadTable();
    if data.None? { return None; }
    var found := CollectMatches(data.value, w);
    if found.None? { return None; }
    affected := DeleteIds(file, found.value);
  }

  /** One turn of the loop: what is left to do is the same as before. */
  method DeleteNext(file: TableFile, ids: seq<int>, k: nat, ghost end: string, ghost count: Option<nat>)
      returns (ok: bool)
    requires 0 < k <= |ids| && DeletesTo(StoreOf(file.types, file.text), file.content, ids, k, end, count)
    modifies file
    ensures if ok then DeletesTo(StoreOf(file.types, file.text), file.content, ids, k - 1, end, count)
            else file.content == end && count == None
  {
    DeletionTurn(StoreOf(file.types, file.text), file.content, ids, k);
    ok := file.DeleteRow(ids[k - 1]);
  }

  method DeleteIds(file: TableFile, ids: seq<int>) returns (affected: Option<nat>)
    modifies file
    ensures var r := DeleteFrom(StoreOf(file.types, file.text), old(file.content), ids, |ids|);
      file.content == r.0 && affected == r.1
  {
    ghost var goal := DeleteFrom(StoreOf(file.types, file.text), file.content, ids, |ids|);
    var deleted := 0;
    var k := |ids|;
    while k > 0
      invariant 0 <= k <= |ids| && deleted == |ids| - k
      invariant DeletesTo(StoreOf(file.types, file.text), file.content, ids, k, goal.0, goal.1)
    {
      var ok := DeleteNext(file, ids, k, goal.0, goal.1);
      if !ok { return None; }
      deleted := deleted + 1;
      k := k - 1;
    }
    return Some(deleted);
  }

  lemma {:induction false} DeletedAreTaken(rows: seq<Row>, w: Where, n: nat, types: seq<DataType>, text: Text)
    requires n <= |rows| && AllTaken(rows, types, text)
    ensures AllTaken(Deleted(rows, w, n), types, text)
  {
    RemainingIn(rows[n..], w);
    var left := Deleted(rows, w, n);
    forall i | 0 <= i < |left|
      ensures Taken(left[i], types, text)
    {
      assert left[i] in rows[..n] || left[i] in rows[n..];
      assert left[i] in rows;
    }
  }

  /** Erasing the matches, the last first, leaves the remaining rows. */
  lemma {:induction false} ErasuresLeave(rows: seq<Row>, w: Where, ids: seq<int>, k: nat, m: nat)
    requires m <= |rows| && k <= |ids| && ids[..k] == Matching(rows, w, m)
    ensures Erasures(Deleted(rows, w, m), ids, k) == Remaining(rows, w)
    decreases k
  {
    if k == 0 {
      NoneLeft(rows, w, ids, m);
    } else {
      var at := DeletionStep(rows, w, m, ids, k);
      ErasuresLeave(rows, w, ids, k - 1, at - 1);
    }
  }

  lemma {:induction false} NoneLeft(rows: seq<Row>, w: Where, ids: seq<int>, m: nat)
    requires m <= |rows| && ids[..0] == Matching(rows, w, m)
    ensures Deleted(rows, w, m) == Remaining(rows, w)
  {
    DeletedBetween(rows, w, 0, m);
    DeletedEnds(rows, w);
  }

  /** DELETE takes out exactly the rows on which the clause is true and keeps the others in order,
      although each deletion renumbers the rows behind it.  The others are rewritten: their doubles
      become what their texts read as, so they are unchanged exactly when their doubles are kept. */
  lemma {:induction false} DeleteLeavesTheOthers(content: string, rows: seq<Row>, w: Where, types: seq<DataType>,
                                                 text: Text)
    requires PrintsPlainly(text) && Load(content, types, text) == Some(rows) && DoublesSettle(rows, text)
    ensures var ids, left := Matching(rows, w, |rows|), Remaining(rows, w);
      var (content', affected) := DeleteFrom(StoreOf(types, text), content, ids, |ids|);
      && affected == Some(|rows| - |left|)
      && (ids == [] ==> content' == content && left == rows)
      && (ids != [] ==> Load(content', types, text) == Some(ConvertedRows(left, types, text)))
      && (ids != [] ==> (Load(content', types, text) == Some(left) <==> DoublesKept(left, text)))
  {
    var ids := Matching(rows, w, |rows|);
    LoadedRowsAreTakenIff(content, rows, types, text);
    DeletedEnds(rows, w);
    assert ids[..|ids|] == ids;
    RemainingAreRows(rows, w);
    ErasuresLeave(rows, w, ids, |ids|, |rows|);
    if ids != [] {
      TakenRowsConvert(types, text);
      GoodIsTaken(rows, types, text);
      GoodIsTaken(Remaining(rows, w), types, text);
      DeletionsConvert(StoreOf(types, text), content, rows, ids, |ids|, TakenBy(types, text), Conversion(types, text));
    }
    if ids == [] {
      DeletedBetween(rows, w, 0, |rows|);
    }
    RemainingKeptIff(content, rows, w, types, text);
  }

  lemma {:induction false} RemainingKeptIff(content: string, rows: seq<Row>, w: Where, types: seq<DataType>, text: Text)
    requires PrintsPlainly(text) && Load(content, types, text) == Some(rows) && AllTaken(rows, types, text)
    ensures var left := Remaining(rows, w);
      ConvertedRows(left, types, text) == left <==> DoublesKept(left, text)
  {
    var left := Remaining(rows, w);
    DeletedEnds(rows, w);
    DeletedAreTaken(rows, w, 0, types, text);
    TakenRowsReadAs(left, types, text);
    LoadedRowsAreStorable(content, types, text);
    RemainingIn(rows, w);
    forall i | 0 <= i < |left|
      ensures 0 < |left[i]| <= |types| && AlmostAll(left[i], types, text)
    {
      assert left[i] in rows;
    }
    AlmostRowsAreKeptIff(left, types, text);
    if DoublesKept(left, text) {
      FileRowsAreTaken(left, types, text);
    }
  }

  /** Deleting the last of the matching ids takes the rows from one state to the next. */
  lemma {:induction false} DeletionStep(rows: seq<Row>, w: Where, n: nat, ids: seq<int>, k: nat) returns (at: nat)
    requires n <= |rows| && 0 < k <= |ids| && ids[..k] == Matching(rows, w, n)
    ensures 1 <= at <= n && ids[k - 1] == at && ids[..k - 1] == Matching(rows, w, at - 1)
    ensures Erase(Deleted(rows, w, n), at) == Deleted(rows, w, at - 1)
  {
    at := LastMatch(rows, w, n);
    LastOfFirst(ids, k, Matching(rows, w, at - 1), at);
    EraseMatch(rows, w, n, at);
  }

  lemma {:induction false} LastOfFirst(ids: seq<int>, k: nat, before: seq<int>, at: int)
    requires 0 < k <= |ids| && ids[..k] == before + [at]
    ensures ids[k - 1] == at && ids[..k - 1] == before
  {
    assert ids[k - 1] == ids[..k][k - 1];
    assert ids[..k - 1] == ids[..k][..k - 1];
  }

  lemma {:induction false} EraseMatch(rows: seq<Row>, w: Where, n: nat, at: nat)
    requires 1 <= at <= n <= |rows| && JudgeRow(w, rows[at - 1]) == Keep
    requires Matching(rows, w, at) == Matching(rows, w, n)
    ensures Erase(Deleted(rows, w, n), at) == Deleted(rows, w, at - 1)
  {
    DeletedBetween(rows, w, at, n);
    RemainingFrom(rows, w, at - 1);
    assert Deleted(rows, w, at)[at..] == Remaining(rows[at..], w);
    assert Deleted(rows, w, at)[..at - 1] == rows[..at - 1];
  }

  // ---------- UPDATE ----------

  /** The place of the first column of that name, or the number of columns. */
  function FindColumn(names: seq<string>, column: string): (i: nat)
    ensures i <= |names| && column !in names[..i]
    ensures i < |names| ==> names[i] == column
  {
    if names == [] || names[0] == column then 0 else 1 + FindColumn(names[1..], column)
  }

  /** The row after all assignments, each evaluated on the original row. */
  function AssignAll(row: Row, assignments: seq<Assignment>, names: seq<string>, env: Env): (r: Option<Row>)
    ensures r.Some? ==> |r.value| == |row|
    decreases assignments
  {
    if assignments == [] then Some(row)
    else
      match Eval(assignments[0].value, env)
      case None => None
      case Some(v) =>
        var i := FindColumn(names, assignments[0].column);
        AssignAll(if i < |names| && i < |row| then row[i := v] else row, assignments[1..], names, env)
  }

  /** The assignment is to the j-th column: the first of that name. */
  predicate Assigns(names: seq<string>, a: Assignment, j: int) {
    0 <= j < |names| && names[j] == a.column && a.column !in names[..j]
  }

  /** The k-th assignment is the last to the j-th column. */
  predicate LastTo(names: seq<string>, assignments: seq<Assignment>, j: int, k: int) {
    && 0 <= k < |assignments| && Assigns(names, assignments[k], j)
    && forall m :: k < m < |assignments| ==> !Assigns(names, assignments[m], j)
  }

  /** Each value is that of the last assignment to its column, evaluated in env, and without one the
      old value. */
  ghost predicate Changed(row: Row, assignments: seq<Assignment>, names: seq<string>, env: Env, changed: Row) {
    && |changed| == |row|
    && forall j :: 0 <= j < |row| ==>
      && (forall k :: LastTo(names, assignments, j, k) ==> Eval(assignments[k].value, env) == Some(changed[j]))
      && ((forall k :: 0 <= k < |assignments| ==> !Assigns(names, assignments[k], j)) ==> changed[j] == row[j])
  }

  /** The assignments change the row so as soon as all their values evaluate, and fail otherwise. */
  lemma {:induction false} AssignMeans(row: Row, assignments: seq<Assignment>, names: seq<string>, env: Env)
    ensures var r := AssignAll(row, assignments, names, env);
      && (r.Some? <==> forall k :: 0 <= k < |assignments| ==> Eval(assignments[k].value, env).Some?)
      && (r.Some? ==> Changed(row, assignments, names, env, r.value))
    decreases |assignments|
  {
    if assignments != [] && Eval(assignments[0].value, env).Some? {
      var a, rest := assignments[0], assignments[1..];
      var i := FindColumn(names, a.column);
      var row1 := if i < |names| && i < |row| then row[i := Eval(a.value, env).value] else row;
      AssignMeans(row1, rest, names, env);
      assert forall j :: Assigns(names, a, j) <==> i < |names| && j == i;
      if AssignAll(row1, rest, names, env).Some? {
        ChangedByOneMore(row, row1, assignments, names, env, AssignAll(row1, rest, names, env).value);
      }
    }
  }

  lemma {:induction false} ChangedByOneMore(row: Row, row1: Row, assignments: seq<Assignment>, names: seq<string>,
                                            env: Env, changed: Row)
    requires assignments != [] && Changed(row1, assignments[1..], names, env, changed) && |row1| == |row|
    requires forall j :: 0 <= j < |row| ==>
      if Assigns(names, assignments[0], j) then Eval(assignments[0].value, env) == Some(row1[j]) else row1[j] == row[j]
    ensures Changed(row, assignments, names, env, changed)
  {
    var rest := assignments[1..];
    assert forall m :: 0 < m < |assignments| ==> assignments[m] == rest[m - 1];
    forall j | 0 <= j < |row|
      ensures forall k :: LastTo(names, assignments, j, k) ==> Eval(assignments[k].value, env) == Some(changed[j])
      ensures (forall k :: 0 <= k < |assignments| ==> !Assigns(names, assignments[k], j)) ==> changed[j] == row[j]
    {
      forall k | LastTo(names, assignments, j, k)
        ensures Eval(assignments[k].value, env) == Some(changed[j])
      {
        if k > 0 {
          assert LastTo(names, rest, j, k - 1);
        }
      }
    }
  }

  /** What UPDATE does about a row: it fails if the clause or an assignment does, and writes the changed
      row if the clause is true. */
  function TurnAt(row: Row, w: Where, assignments: seq<Assignment>): Turn<Row> {
    match JudgeRow(w, row)
    case Fails => Stop
    case Drop => Pass
    case Keep =>
      match AssignAll(row, assignments, w.names, EnvOf(w, row))
      case None => Stop
      case Some(changed) => Write(changed)
  }

  function Turning(w: Where, assignments: seq<Assignment>): Row -> Turn<Row> {
    (row: Row) => TurnAt(row, w, assignments)
  }

  lemma {:induction false} TextCell(cell: string, rest: seq<string>, types: seq<DataType>, text: Text)
    requires types != [] && types[0] == VARCHAR && Unquote(cell) == cell && !IsNullSpelling(cell)
    ensures var r := ReadCells(rest, types[1..], text);
      ReadCells([cell] + rest, types, text) == if r.Read? then Read([StringValue(cell)] + r.row) else r
  {
    assert ([cell] + rest)[1..] == rest;
  }

  lemma {:induction false} TwoPieces(a: string, b: string, sep: char)
    requires sep !in a && sep !in b && b != ""
    ensures Pieces(a + [sep] + b, sep) == [a] + [b]
  {
    PiecesStart(a, sep, b);
    PiecesStart(b, sep, "");
  }

  lemma {:induction false} CommaLine(a: string, b: string, text: Text)
    requires ',' !in a && ',' !in b && '\'' !in a && '\'' !in b
    ensures Pieces(WriteRow([StringValue(a + "," + b)], text), ',') == ["'" + a] + [b + "'"]
  {
    EscapePlain(a + "," + b);
    Framed("'", a, ",", b);
    TwoPieces("'" + a, b + "'", ',');
  }

  lemma {:induction false} TornCells(a: string, b: string)
    requires '\'' !in a && '\'' !in b && a != "" && b != ""
    ensures Unquote("'" + a) == "'" + a && !IsNullSpelling("'" + a)
    ensures Unquote(b + "'") == b + "'" && !IsNullSpelling(b + "'")
  {
    var x, y := "'" + a, b + "'";
    assert x[|x| - 1] == a[|a| - 1] && a[|a| - 1] in a;
    assert y[0] == b[0] && b[0] in b;
    assert x[0] == '\'' && y[|y| - 1] == '\'';
  }

  /** A row shorter than its column list takes a comma as the end of a cell: the row of the one text
      'a,b' comes back as two. */
  lemma {:induction false} CommaTearsRow(a: string, b: string, text: Text)
    requires ',' !in a && ',' !in b && '\'' !in a && '\'' !in b && a != "" && b != ""
    ensures var types := [VARCHAR, VARCHAR];
      var changed := [StringValue(a + "," + b)];
      && !Taken(changed, types, text)
      && ReadRow(WriteRow(changed, text), types, text) == Read([StringValue("'" + a)] + [StringValue(b + "'")])
  {
    CommaLine(a, b, text);
    TornCells(a, b);
    var types := [VARCHAR, VARCHAR];
    assert types[1..] == [VARCHAR];
    TextCell(b + "'", [], types[1..], text);
    assert [b + "'"] + [] == [b + "'"] && [StringValue(b + "'")] + [] == [StringValue(b + "'")];
    TextCell("'" + a, [b + "'"], types, text);
    NotTaken(a + "," + b, types, text);
  }

  lemma {:induction false} NotTaken(s: string, types: seq<DataType>, text: Text)
    requires ',' in s && types == [VARCHAR, VARCHAR]
    ensures !Taken([StringValue(s)], types, text)
  {
    assert Converted([StringValue(s)][0], types[0], text).None?;
  }

  function TwoTexts(a: string, b: string): Row {
    [StringValue(a), StringValue(b)]
  }

  lemma {:induction false} TwoTextsLine(a: string, b: string, text: Text)
    requires PrintsPlainly(text) && '\n' !in a && '\n' !in b
    ensures OneLine(TwoTexts(a, b), text)
    ensures ReadRow(WriteRow(TwoTexts(a, b), text), [VARCHAR, VARCHAR], text).TooMany? <==> ',' in a || ',' in b
  {
    var row := TwoTexts(a, b);
    FullRowIsPassedOverIff(row, [VARCHAR, VARCHAR], text);
    assert NoCommas(row) <==> !HasComma(row[0]) && !HasComma(row[1]);
    WrittenOnOneLine(row, text);
  }

  /** One assignment to the first column. */
  lemma {:induction false} AssignFirst(row: Row, names: seq<string>, v: Value, env: Env)
    requires |row| == |names| > 0
    ensures AssignAll(row, [Assignment(names[0], Lit(v))], names, env) == Some(row[0 := v])
  {
    assert [Assignment(names[0], Lit(v))][1..] == [];
  }

  /** A text with a comma loses a row.  In a table of two text columns with the rows (k, v) and (l, u),
      UPDATE without WHERE that sets the first column to such a text reports two rows; yet the first row
      is gone, as its line is passed over from then on, and the second, now renumbered, is unchanged:
      its change is written behind the end, and that line is passed over too. */
  lemma {:induction false} CommaLosesARow(k: string, v: string, l: string, u: string, s: string, w: Where, text: Text)
    requires PrintsPlainly(text) && PlainText(k) && PlainText(v) && PlainText(l) && PlainText(u)
    requires ',' in s && '\n' !in s && w.condition == None && |w.names| == 2
    ensures var types, rows := [VARCHAR, VARCHAR], [TwoTexts(k, v), TwoTexts(l, u)];
      var content := Content(rows, text);
      var change := [Assignment(w.names[0], Lit(StringValue(s)))];
      var (content', affected) := UpdateFrom(StoreOf(types, text), content, rows, 0, 0, Turning(w, change));
      && Load(content, types, text) == Some(rows)
      && affected == Some(2) && Load(content', types, text) == Some([TwoTexts(l, u)])
  {
    var types, first, second := [VARCHAR, VARCHAR], TwoTexts(k, v), TwoTexts(l, u);
    var turn := Turning(w, [Assignment(w.names[0], Lit(StringValue(s)))]);
    FileRowsSurvive([first, second], types, text);
    CommaTurn(k, v, s, w);
    CommaTurn(l, u, s, w);
    CommaPassedOver(s, v, second, text);
    CommaPassedOver(s, u, second, text);
    TwoPassedOver(StoreOf(types, text), first, second, TwoTexts(s, v), TwoTexts(s, u), turn);
  }

  lemma {:induction false} CommaTurn(k: string, v: string, s: string, w: Where)
    requires w.condition == None && |w.names| == 2
    ensures TurnAt(TwoTexts(k, v), w, [Assignment(w.names[0], Lit(StringValue(s)))]) == Write(TwoTexts(s, v))
  {
    var row := TwoTexts(k, v);
    AssignFirst(row, w.names, StringValue(s), EnvOf(w, row));
    assert row[0 := StringValue(s)] == TwoTexts(s, v);
  }

  lemma {:induction false} CommaPassedOver(s: string, v: string, kept: Row, text: Text)
    requires PrintsPlainly(text) && ',' in s && '\n' !in s && '\n' !in v
    requires FileRow(kept, [VARCHAR, VARCHAR], text)
    ensures Load(Content([TwoTexts(s, v), kept], text), [VARCHAR, VARCHAR], text) == Some([kept])
    ensures Load(Content([kept, TwoTexts(s, v)], text), [VARCHAR, VARCHAR], text) == Some([kept])
  {
    TwoTextsLine(s, v, text);
    FileRowReadsAsItself(kept, [VARCHAR, VARCHAR], text);
    PassedOver(TwoTexts(s, v), kept, [VARCHAR, VARCHAR], text);
  }

  method Assign(row: Row, w: Where, assignments: seq<Assignment>, context: map<string, Value>) returns (r: Option<Row>)
    ensures r == AssignAll(row, assignments, w.names, Env(context, w.text, w.scalar, w.run))
  {
    ghost var env := Env(context, w.text, w.scalar, w.run);
    var changed := row;
    var i := 0;
    assert assignments[0..] == assignments;
    while i < |assignments|
      invariant 0 <= i <= |assignments|
      invariant AssignAll(changed, assignments[i..], w.names, env) == AssignAll(row, assignments, w.names, env)
    {
      var v := Eval(assignments[i].value, Env(context, w.text, w.scalar, w.run));
      if v.None? { return None; }
      var at := FindColumn(w.names, assignments[i].column);
      assert assignments[i..][1..] == assignments[i + 1..];
      if at < |w.names| && at < |changed| {
        changed := changed[at := v.value];
      }
      i := i + 1;
    }
    return Some(changed);
  }

  /** The turn of a row on which the clause is true. */
  method UpdateNext(file: TableFile, rows: seq<Row>, i: nat, ghost updated: nat, w: Where, assignments: seq<Assignment>)
      returns (ok: bool)
    requires i < |rows| && JudgeRow(w, rows[i]) == Keep
    modifies file
    ensures var st, turn := StoreOf(file.types, file.text), Turning(w, assignments);
      var before := UpdateFrom(st, old(file.content), rows, i, updated, turn);
      if ok then
        var after := UpdateFrom(st, file.content, rows, i + 1, updated + 1, turn);
        before.0 == after.0 && before.1 == after.1
      else before.0 == file.content && before.1 == None
  {
    var context := BuildContext(w.names, rows[i]);
    var changed := Assign(rows[i], w, assignments, context);
    if changed.None? { return false; }
    ok := file.UpdateRow(i + 1, changed.value);
  }

  method ExecuteUpdate(file: TableFile, w: Where, assignments: seq<Assignment>) returns (affected: Option<nat>)
    modifies file
    ensures var rows := Load(old(file.content), file.types, file.text);
      if rows.None? then affected == None && file.content == old(file.content)
      else
        var turn := Turning(w, assignments);
        var r := UpdateFrom(StoreOf(file.types, file.text), old(file.content), rows.value, 0, 0, turn);
        file.content == r.0 && affected == r.1
  {
    var data := file.LoadTable();
    if data.None? { return None; }
    var rows := data.value;
    ghost var st, turn := StoreOf(file.types, file.text), Turning(w, assignments);
    ghost var goal := UpdateFrom(st, file.content, rows, 0, 0, turn);
    var updated := 0;
    var i := 0;
    while i < |rows|
      invariant 0 <= i <= |rows|
      invariant UpdateFrom(st, file.content, rows, i, updated, turn).0 == goal.0
      invariant UpdateFrom(st, file.content, rows, i, updated, turn).1 == goal.1
    {
      var verdict := Evaluate(w, rows[i]);
      if verdict.Fails? { return None; }
      if verdict.Keep? {
        var ok := UpdateNext(file, rows, i, updated, w, assignments);
        if !ok { return None; }
        updated := updated + 1;
      }
      i := i + 1;
    }
    return Some(updated);
  }

  /** The columns take what the assignments make of each matching row. */
  ghost predicate AcceptsAll(rows: seq<Row>, w: Where, assignments: seq<Assignment>, types: seq<DataType>, text: Text) {
    GoodTurns(rows, Turning(w, assignments), TakenBy(types, text))
  }

  /** Among the rows before a failure, those written are the matching ones. */
  lemma {:induction false} WritesAreMatches(rows: seq<Row>, w: Where, assignments: seq<Assignment>, n: nat)
    requires n <= Reach(rows, 0, Turning(w, assignments))
    ensures Writes(rows, n, Turning(w, assignments)) == |Matching(rows, w, n)|
  {
    if n > 0 {
      WritesAreMatches(rows, w, assignments, n - 1);
      NoStopBefore(rows, 0, Turning(w, assignments), n - 1);
    }
  }

  lemma {:induction false} NoStopBefore(rows: seq<Row>, i: nat, turn: Row -> Turn<Row>, j: nat)
    requires i <= j < |rows| && j < Reach(rows, i, turn)
    ensures !turn(rows[j]).Stop?
    decreases j - i
  {
    if i < j {
      NoStopBefore(rows, i + 1, turn, j);
    }
  }

  /** UPDATE replaces the matching rows at their places by their changed values, each converted to its
      column's type, touches no other row, and counts them.  If a row fails, the ones before it stay
      updated.  Once a row is replaced, every row is rewritten: doubles become what their texts read
      as, which changes nothing if they are kept. */
  lemma {:induction false} UpdateReplacesTheMatches(content: string, rows: seq<Row>, w: Where,
                                                    assignments: seq<Assignment>, types: seq<DataType>, text: Text)
    requires PrintsPlainly(text) && Load(content, types, text) == Some(rows) && DoublesSettle(rows, text)
    requires AcceptsAll(rows, w, assignments, types, text)
    ensures var turn := Turning(w, assignments);
      var (content', affected) := UpdateFrom(StoreOf(types, text), content, rows, 0, 0, turn);
      var n := Reach(rows, 0, turn);
      var after := Updated(rows, n, turn, Conversion(types, text));
      && affected == (if n == |rows| then Some(|Matching(rows, w, n)|) else None)
      && FailsFirstAt(rows, n, w, assignments) && ChangedUpTo(rows, n, w, assignments, types, text, after)
      && (Matching(rows, w, n) == [] ==> content' == content && after == rows)
      && (Matching(rows, w, n) != [] ==> Load(content', types, text) == Some(ConvertedRows(after, types, text)))
      && (DoublesKept(rows, text) ==> Load(content', types, text) == Some(after))
  {
    var st, turn, good, convert := StoreOf(types, text), Turning(w, assignments), TakenBy(types, text),
                                   Conversion(types, text);
    var n := Reach(rows, 0, turn);
    var after := Updated(rows, n, turn, convert);
    LoadedRowsAreTakenIff(content, rows, types, text);
    GoodIsTaken(rows, types, text);
    TakenRowsConvert(types, text);
    assert Updated(rows, 0, turn, convert) == rows;
    UpdatesConvert(st, content, rows, rows, 0, turn, good, convert);
    WritesAreMatches(rows, w, assignments, n);
    UpdatedAreChanged(rows, w, assignments, types, text);
    ReachesFirstFailure(rows, 0, w, assignments);
    GoodIsTaken(after, types, text);
    if Matching(rows, w, n) == [] {
      UpdatedBetween(rows, 0, n, turn, convert);
    }
    if DoublesKept(rows, text) {
      LoadedRowsAreKeptIff(content, rows, types, text);
      UpdatedAreFileRows(rows, n, w, assignments, types, text);
      FileRowsAreTaken(after, types, text);
    }
  }

  /** What UPDATE leaves of the rows when it reaches the n-th: the matching ones before it changed by the
      assignments and converted, the others as they were. */
  ghost predicate ChangedUpTo(rows: seq<Row>, n: nat, w: Where, assignments: seq<Assignment>, types: seq<DataType>,
                              text: Text, after: seq<Row>) {
    && |after| == |rows|
    && forall i :: 0 <= i < |rows| ==>
      if i < n && JudgeRow(w, rows[i]) == Keep then ChangedTo(rows[i], w, assignments, types, text, after[i])
      else after[i] == rows[i]
  }

  ghost predicate ChangedTo(row: Row, w: Where, assignments: seq<Assignment>, types: seq<DataType>, text: Text,
                            converted: Row) {
    exists changed :: Changed(row, assignments, w.names, EnvOf(w, row), changed) &&
      converted == ConvertedRow(changed, types, text)
  }

  lemma {:induction false} UpdatedAreChanged(rows: seq<Row>, w: Where, assignments: seq<Assignment>,
                                             types: seq<DataType>, text: Text)
    ensures var turn := Turning(w, assignments);
      var n := Reach(rows, 0, turn);
      ChangedUpTo(rows, n, w, assignments, types, text, Updated(rows, n, turn, Conversion(types, text)))
  {
    var turn, convert := Turning(w, assignments), Conversion(types, text);
    var n := Reach(rows, 0, turn);
    var after := Updated(rows, n, turn, convert);
    forall i | 0 <= i < n && JudgeRow(w, rows[i]) == Keep
      ensures ChangedTo(rows[i], w, assignments, types, text, after[i])
    {
      NoStopBefore(rows, 0, turn, i);
      AssignMeans(rows[i], assignments, w.names, EnvOf(w, rows[i]));
      assert after[i] == ConvertedRow(AssignAll(rows[i], assignments, w.names, EnvOf(w, rows[i])).value, types, text);
    }
  }

  /** The clause fails on the row, or is true and an assignment fails. */
  predicate RowFails(row: Row, w: Where, assignments: seq<Assignment>) {
    || JudgeRow(w, row) == Fails
    || (JudgeRow(w, row) == Keep
        && exists k :: 0 <= k < |assignments| && Eval(assignments[k].value, EnvOf(w, row)) == None)
  }

  /** UPDATE reaches the first row that fails, or the end. */
  ghost predicate FailsFirstAt(rows: seq<Row>, n: nat, w: Where, assignments: seq<Assignment>) {
    && n <= |rows| && (forall i :: 0 <= i < n ==> !RowFails(rows[i], w, assignments))
    && (n < |rows| ==> RowFails(rows[n], w, assignments))
  }

  lemma {:induction false} ReachesFirstFailure(rows: seq<Row>, i: nat, w: Where, assignments: seq<Assignment>)
    requires i <= |rows| && forall j :: 0 <= j < i ==> !RowFails(rows[j], w, assignments)
    ensures FailsFirstAt(rows, Reach(rows, i, Turning(w, assignments)), w, assignments)
    decreases |rows| - i
  {
    if i < |rows| {
      StopsIffFails(rows[i], w, assignments);
      if !RowFails(rows[i], w, assignments) {
        ReachesFirstFailure(rows, i + 1, w, assignments);
      }
    }
  }

  lemma {:induction false} StopsIffFails(row: Row, w: Where, assignments: seq<Assignment>)
    ensures TurnAt(row, w, assignments).Stop? <==> RowFails(row, w, assignments)
  {
    AssignMeans(row, assignments, w.names, EnvOf(w, row));
  }

  lemma {:induction false} UpdatedAreFileRows(rows: seq<Row>, n: nat, w: Where, assignments: seq<Assignment>,
                                              types: seq<DataType>, text: Text)
    requires PrintsPlainly(text) && n <= |rows| && FileRows(rows, types, text)
    requires AcceptsAll(rows, w, assignments, types, text)
    ensures FileRows(Updated(rows, n, Turning(w, assignments), Conversion(types, text)), types, text)
  {
    var turn, good := Turning(w, assignments), TakenBy(types, text);
    forall i | 0 <= i < |rows|
      ensures FileRow(Updated(rows, n, turn, Conversion(types, text))[i], types, text)
    {
      assert FileRow(rows[i], types, text);
      if i < n && turn(rows[i]).Write? {
        assert good(turn(rows[i]).row);
        TakenRowReadsAs(turn(rows[i]).row, types, text);
      }
    }
  }
}
