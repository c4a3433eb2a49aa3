/** A table's data file: rows are lines, and a row id is the place of its row in the file. */
module TableFile {
  import opened Values
  import opened RowText
  import opened RowTextLaws
  import opened Sequences
  import opened Rewrites

  // ---------- Text ----------

  method ToSqlString(v: Value, text: Text) returns (s: string)
    ensures s == ToSql(v, text)
  {
    if v.Null? { return "\\N"; }
    var plain := GetString(v, text);
    if WrittenBare(v.ty) { return plain; }
    var i := 0;
    s := "'";
    while i < |plain|
      invariant 0 <= i <= |plain|
      invariant s + Escape(plain[i..]) == "'" + Escape(plain)
    {
      ghost var before := s;
      if plain[i] == '\'' { s := s + "'"; }
      s := s + [plain[i]];
      assert plain[i..][1..] == plain[i + 1..];
      assert s + Escape(plain[i + 1..]) == before + Escape(plain[i..]);
      i := i + 1;
    }
    assert plain[i..] == "" && s + "" == s;
    s := s + "'";
  }

  /** What WriteRow puts behind the first cells. */
  function Tail(row: Row, i: nat, text: Text): string
    requires i <= |row|
  {
    if i == |row| then "" else (if i > 0 then "," else "") + WriteRow(row[i..], text)
  }

  method RowToCsv(row: Row, text: Text) returns (csv: string)
    ensures csv == WriteRow(row, text)
  {
    csv := "";
    var i := 0;
    assert row[0..] == row;
    while i < |row|
      invariant 0 <= i <= |row|
      invariant csv + Tail(row, i, text) == WriteRow(row, text)
    {
      ghost var before := csv;
      if i > 0 { csv := csv + ","; }
      var cell := ToSqlString(row[i], text);
      TailFrom(row, i, text);
      Concat4(before, if i > 0 then "," else "", cell, Tail(row, i + 1, text));
      csv := csv + cell;
      i := i + 1;
    }
    assert csv + "" == csv;
  }

  lemma {:induction false} TailFrom(row: Row, i: nat, text: Text)
    requires i < |row|
    ensures Tail(row, i, text) == (if i > 0 then "," else "") + (ToSql(row[i], text) + Tail(row, i + 1, text))
  {
    assert row[i..][1..] == row[i + 1..];
    assert i + 1 == |row| ==> ToSql(row[i], text) + "" == ToSql(row[i], text);
  }

  lemma {:induction false} Concat4(a: string, b: string, c: string, d: string)
    ensures a + (b + (c + d)) == a + b + c + d
    ensures b == "" ==> a + b == a
  {
  }

  method UnquoteCell(cell: string) returns (s: string)
    ensures s == Unquote(cell)
  {
    if cell == "" || cell[0] != '\'' || cell[|cell| - 1] != '\'' { return cell; }
    var inner := if |cell| == 1 then "" else cell[1..|cell| - 1];
    s := "";
    var i := 0;
    assert inner[0..] == inner && "" + Unescape(inner) == Unescape(inner);
    while i < |inner|
      invariant 0 <= i <= |inner|
      invariant s + Unescape(inner[i..]) == Unescape(inner)
    {
      ghost var before, at := s, i;
      s := s + [inner[i]];
      if inner[i] == '\'' && i + 1 < |inner| && inner[i + 1] == '\'' {
        i := i + 1;
      }
      i := i + 1;
      UnescapeFrom(inner, at, i);
      Reassociate(before, [inner[at]], Unescape(inner[i..]));
    }
    assert s + "" == s;
  }

  lemma {:induction false} UnescapeFrom(s: string, i: nat, next: nat)
    requires i < |s|
    requires next == if s[i] == '\'' && i + 1 < |s| && s[i + 1] == '\'' then i + 2 else i + 1
    ensures Unescape(s[i..]) == [s[i]] + Unescape(s[next..])
  {
    assert s[i..][next - i..] == s[next..];
  }

  /** std::getline: the first piece, and what is left of the stream. */
  method GetLine(stream: string, sep: char) returns (piece: string, rest: string)
    requires stream != ""
    ensures Pieces(stream, sep) == [piece] + Pieces(rest, sep) && |rest| < |stream|
  {
    var i := IndexOf(stream, sep);
    FirstPiece(stream, sep);
    if i == |stream| {
      piece, rest := stream, "";
    } else {
      piece, rest := stream[..i], stream[i + 1..];
    }
  }

  lemma {:induction false} FirstPiece(s: string, sep: char)
    requires s != ""
    ensures var i := IndexOf(s, sep);
      Pieces(s, sep) == if i == |s| then [s] + Pieces("", sep) else [s[..i]] + Pieces(s[i + 1..], sep)
  {
    assert [s] + [] == [s];
  }

  function Behind(row: Row, r: RowResult): RowResult {
    if r.Read? then Read(row + r.row) else r
  }

  /** One cell further behind the values read so far. */
  lemma {:induction false} NextCell(row: Row, cell: string, rest: seq<string>, types: seq<DataType>, text: Text)
    requires |row| <= |types|
    ensures var r := Behind(row, ReadCells([cell] + rest, types[|row|..], text));
      if |row| == |types| then r == TooMany
      else
        var v := ParseFrom(Unquote(cell), types[|row|], text);
        if v.None? then r == Throws else r == Behind(row + [v.value], ReadCells(rest, types[|row| + 1..], text))
  {
    assert ([cell] + rest)[1..] == rest;
    if |row| < |types| {
      assert types[|row|..][1..] == types[|row| + 1..];
      var v := ParseFrom(Unquote(cell), types[|row|], text);
      var right := ReadCells(rest, types[|row| + 1..], text);
      if v.Some? && right.Read? {
        Reassociate(row, [v.value], right.row);
      }
    }
  }

  method CsvToRow(csv: string, types: seq<DataType>, text: Text) returns (r: RowResult)
    ensures r == ReadRow(csv, types, text)
  {
    var row: Row := [];
    var stream := csv;
    assert types[0..] == types;
    assert Behind([], ReadRow(csv, types, text)) == ReadRow(csv, types, text);
    while stream != ""
      invariant |row| <= |types|
      invariant Behind(row, ReadCells(Pieces(stream, ','), types[|row|..], text)) == ReadRow(csv, types, text)
      decreases |stream|
    {
      var cell;
      cell, stream := GetLine(stream, ',');
      NextCell(row, cell, Pieces(stream, ','), types, text);
      if |row| == |types| { return TooMany; }
      cell := UnquoteCell(cell);
      var v := ParseFrom(cell, types[|row|], text);
      if v.None? { return Throws; }
      row := row + [v.value];
    }
    assert row + [] == row;
    r := Read(row);
  }

  // ---------- The file ----------

  datatype Op = Insert(row: Row) | Update(id: int, row: Row) | Delete(id: int)

  class TableFile {
    var content: string
    const types: seq<DataType>
    const text: Text

    constructor (types: seq<DataType>, text: Text)
      ensures content == "" && this.types == types && this.text == text
    {
      content, this.types, this.text := "", types, text;
    }

    method LoadTable() returns (data: Option<seq<Row>>)
      ensures data == Load(content, types, text)
    {
      var rows := [];
      var stream := content;
      assert forall loaded: seq<Row> :: [] + loaded == loaded;
      while stream != ""
        invariant Before(rows, Load(stream, types, text)) == Load(content, types, text)
        decreases |stream|
      {
        ghost var left := Load(stream, types, text);
        var line;
        line, stream := GetLine(stream, '\n');
        ghost var right := Load(stream, types, text);
        if line != "" {
          var r := CsvToRow(line, types, text);
          if r.Throws? { return None; }
          if r.Read? {
            assert right.Some? ==> rows + ([r.row] + right.value) == rows + [r.row] + right.value;
            rows := rows + [r.row];
          }
        }
      }
      assert rows + [] == rows;
      return Some(rows);
    }

    method InsertRow(row: Row)
      modifies this
      ensures content == old(content) + WriteRow(row, text) + "\n"
    {
      var csv := RowToCsv(row, text);
      content := content + csv + "\n";
    }

    /** Writes the whole file anew. */
    method WriteRows(rows: seq<Row>)
      modifies this
      ensures content == Content(rows, text)
    {
      var out := "";
      var i := 0;
      assert rows[0..] == rows;
      while i < |rows|
        invariant 0 <= i <= |rows|
        invariant out + Content(rows[i..], text) == Content(rows, text)
      {
        var csv := RowToCsv(rows[i], text);
        assert rows[i..][1..] == rows[i + 1..];
        Reassociate(csv, "\n", Content(rows[i + 1..], text));
        Concat4(out, csv, "\n", Content(rows[i + 1..], text));
        out := out + csv + "\n";
        i := i + 1;
      }
      assert out + "" == out;
      content := out;
    }

    /** Fails, leaving the file, when the file cannot be read. */
    method DeleteRow(id: int) returns (ok: bool)
      modifies this
      ensures var rows := Load(old(content), types, text);
        && ok == rows.Some?
        && content == if ok then Content(Erase(rows.value, id), text) else old(content)
    {
      var data := LoadTable();
      if data.None? { return false; }
      WriteRows(Erase(data.value, id));
      return true;
    }

    method UpdateRow(id: int, row: Row) returns (ok: bool)
      modifies this
      ensures var rows := Load(old(content), types, text);
        && ok == rows.Some?
        && content == if ok then Content(Put(rows.value, id, row), text) else old(content)
    {
      var data := LoadTable();
      if data.None? { return false; }
      WriteRows(Put(data.value, id, row));
      return true;
    }

    /** One operation on a file that holds rows: it then holds the rows the operation asks for. */
    method Apply(op: Op, ghost rows: seq<Row>) returns (ok: bool)
      requires PrintsPlainly(text) && Holds(content, rows, types, text)
      requires op.Delete? || FileRow(op.row, types, text)
      modifies this
      ensures ok && Holds(content, StepRows(rows, op), types, text)
    {
      StepHolds(content, rows, op, types, text);
      match op
      case Insert(row) =>
        InsertRow(row);
        ok := true;
      case Update(id, row) => ok := UpdateRow(id, row);
      case Delete(id) => ok := DeleteRow(id);
    }

    /** From an empty table, any operations with storable rows leave a file that loads as the
        list of rows the operations make. */
    method ApplyAll(ops: seq<Op>) returns (data: Option<seq<Row>>)
      requires PrintsPlainly(text) && content == ""
      requires forall i :: 0 <= i < |ops| ==> ops[i].Delete? || FileRow(ops[i].row, types, text)
      modifies this
      ensures data == Some(RunRows([], ops))
    {
      ghost var rows: seq<Row> := [];
      var i := 0;
      assert ops[0..] == ops;
      while i < |ops|
        invariant 0 <= i <= |ops|
        invariant Holds(content, rows, types, text)
        invariant RunRows(rows, ops[i..]) == RunRows([], ops)
      {
        var ok := Apply(ops[i], rows);
        rows := StepRows(rows, ops[i]);
        assert ops[i..][1..] == ops[i + 1..];
        i := i + 1;
      }
      data := LoadTable();
    }
  }

  function Before(rows: seq<Row>, loaded: Option<seq<Row>>): Option<seq<Row>> {
    if loaded.None? then None else Some(rows + loaded.value)
  }

  // ---------- The file as a list of rows ----------

  function StepRows(rows: seq<Row>, op: Op): seq<Row> {
    match op
    case Insert(row) => rows + [row]
    case Update(id, row) => Put(rows, id, row)
    case Delete(id) => Erase(rows, id)
  }

  function RunRows(rows: seq<Row>, ops: seq<Op>): seq<Row>
    decreases ops
  {
    if ops == [] then rows else RunRows(StepRows(rows, ops[0]), ops[1..])
  }

  predicate Holds(content: string, rows: seq<Row>, types: seq<DataType>, text: Text) {
    EndsLine(content) && Load(content, types, text) == Some(rows) && FileRows(rows, types, text)
  }

  function StepFile(content: string, rows: seq<Row>, op: Op, text: Text): string {
    match op
    case Insert(row) => content + WriteRow(row, text) + "\n"
    case _ => Content(StepRows(rows, op), text)
  }

  lemma {:induction false} ContentHolds(rows: seq<Row>, types: seq<DataType>, text: Text)
    requires PrintsPlainly(text) && FileRows(rows, types, text)
    ensures Holds(Content(rows, text), rows, types, text)
  {
    FileRowsSurvive(rows, types, text);
    ContentEndsLine(rows, text);
  }

  lemma {:induction false} PutIsFileRows(rows: seq<Row>, id: int, row: Row, types: seq<DataType>, text: Text)
    requires FileRows(rows, types, text) && FileRow(row, types, text)
    ensures FileRows(Put(rows, id, row), types, text)
  {
    var after := Put(rows, id, row);
    forall i | 0 <= i < |after|
      ensures FileRow(after[i], types, text)
    {
      assert after[i] == row || after[i] in rows;
    }
  }

  /** The file written with a row put in place loads as those rows, with the payloads of that row
      under the column types, exactly when each of these is storable. */
  lemma {:induction false} PutSurvivesIff(rows: seq<Row>, id: int, changed: Row, types: seq<DataType>, text: Text)
    requires PrintsPlainly(text) && FileRows(rows, types, text) && 1 <= id <= |rows|
    requires OneLine(changed, text) && |changed| <= |types|
    requires forall i :: 0 <= i < |changed| ==> WellMade(changed[i])
    ensures Load(Content(Put(rows, id, changed), text), types, text) == Some(Put(rows, id, RetagRow(changed, types)))
       <==> forall i :: 0 <= i < |changed| ==> Storable(Retag(changed[i], types[i]), types[i], text)
  {
    RetaggedSurvivesIff(changed, types, text);
    PutReadsIff(rows, id, changed, RetagRow(changed, types), types, text);
  }

  /** Such a file loads as the rows with `back` in that place exactly when the row reads as it. */
  lemma {:induction false} PutReadsIff(rows: seq<Row>, id: int, changed: Row, back: Row, types: seq<DataType>,
                                       text: Text)
    requires PrintsPlainly(text) && FileRows(rows, types, text) && 1 <= id <= |rows| && OneLine(changed, text)
    ensures Load(Content(Put(rows, id, changed), text), types, text) == Some(Put(rows, id, back))
       <==> ReadRow(WriteRow(changed, text), types, text) == Read(back)
  {
    var put, read := Put(rows, id, changed), Put(rows, id, back);
    forall i | 0 <= i < |put|
      ensures OneLine(put[i], text)
      ensures i != id - 1 ==> ReadsAs(put[i], types, text, read[i])
    {
      if i != id - 1 { FileRowReadsAsItself(rows[i], types, text); }
    }
    if ReadsAs(changed, types, text, back) {
      ContentReadsAs(put, types, text, read);
    }
    if Load(Content(put, text), types, text) == Some(read) {
      LinesOfContent(put, text);
      WrittenLinesAt(put, text);
      LinesOneByOne(WrittenLines(put, text), types, text, read);
      assert ReadRow(WrittenLines(put, text)[id - 1], types, text) == Read(read[id - 1]);
    }
  }

  lemma {:induction false} EraseIsFileRows(rows: seq<Row>, id: int, types: seq<DataType>, text: Text)
    requires FileRows(rows, types, text)
    ensures FileRows(Erase(rows, id), types, text)
  {
    var after := Erase(rows, id);
    forall i | 0 <= i < |after|
      ensures FileRow(after[i], types, text)
    {
      assert after[i] in rows;
    }
  }

  lemma {:induction false} InsertHolds(content: string, rows: seq<Row>, row: Row, types: seq<DataType>, text: Text)
    requires PrintsPlainly(text) && Holds(content, rows, types, text) && FileRow(row, types, text)
    ensures Holds(content + WriteRow(row, text) + "\n", rows + [row], types, text)
  {
    FileRowReadsAsItself(row, types, text);
    AppendLoads(content, row, types, text, row);
  }

  lemma {:induction false} StepHolds(content: string, rows: seq<Row>, op: Op, types: seq<DataType>, text: Text)
    requires PrintsPlainly(text) && Holds(content, rows, types, text)
    requires op.Delete? || FileRow(op.row, types, text)
    ensures Holds(StepFile(content, rows, op, text), StepRows(rows, op), types, text)
  {
    match op
    case Insert(row) =>
      InsertHolds(content, rows, row, types, text);
    case Update(id, row) =>
      PutIsFileRows(rows, id, row, types, text);
      ContentHolds(Put(rows, id, row), types, text);
    case Delete(id) =>
      EraseIsFileRows(rows, id, types, text);
      ContentHolds(Erase(rows, id), types, text);
  }
}
