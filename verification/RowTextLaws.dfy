/** Which rows a file keeps: exactly those made of storable values. */
module RowTextLaws {
  import opened Values
  import opened ValueLaws
  import opened RowText
  import opened Sequences

  // ---------- Cells ----------

  lemma {:induction false} UnescapeEscape(s: string)
    ensures Unescape(Escape(s)) == s
  {
    if s != "" {
      UnescapeEscape(s[1..]);
      assert Escape(s)[if s[0] == '\'' then 2 else 1..] == Escape(s[1..]);
      assert s == [s[0]] + s[1..];
    }
  }

  lemma {:induction false} EscapeChars(s: string, c: char)
    ensures c in Escape(s) <==> c in s
  {
    if s != "" {
      EscapeChars(s[1..], c);
      assert s == [s[0]] + s[1..];
    }
  }

  lemma {:induction false} UnescapeChars(s: string, c: char)
    requires c in Unescape(s)
    ensures c in s
  {
    if s != "" {
      if |s| > 1 && s[0] == '\'' && s[1] == '\'' {
        if c != '\'' { UnescapeChars(s[2..], c); }
      } else if c != s[0] {
        UnescapeChars(s[1..], c);
      }
    }
  }

  lemma {:induction false} UnquoteChars(cell: string, c: char)
    requires c in Unquote(cell)
    ensures c in cell
  {
    if cell != "" && cell[0] == '\'' && cell[|cell| - 1] == '\'' {
      UnescapeChars(if |cell| == 1 then "" else cell[1..|cell| - 1], c);
    }
  }

  lemma {:induction false} UnquoteQuoted(s: string)
    ensures Unquote("'" + Escape(s) + "'") == s
  {
    var cell := "'" + Escape(s) + "'";
    assert cell[1..|cell| - 1] == Escape(s);
    UnescapeEscape(s);
  }

  predicate Clean(v: Value, text: Text) {
    ToSql(v, text) != "" && ',' !in ToSql(v, text) && '\n' !in ToSql(v, text)
  }

  lemma {:induction false} NumberReadsBack(v: Value, ty: DataType, text: Text)
    requires PrintsPlainly(text) && Storable(v, ty, text) && v.Datum? && WrittenBare(ty)
    ensures ReadBack(v, ty, text) == Some(v) && Clean(v, text)
  {
    var s := GetString(v, text);
    if IsInteger(ty) {
      IntTextChars(v.p.n);
      ParseIntText(v.p.n);
    }
    assert s[0] in s;
  }

  lemma {:induction false} QuotedIsClean(s: string)
    requires ',' !in s && '\n' !in s
    ensures var q := "'" + Escape(s) + "'"; q != "" && ',' !in q && '\n' !in q
  {
    EscapeChars(s, ',');
    EscapeChars(s, '\n');
  }

  lemma {:induction false} TextReadsBack(v: Value, ty: DataType, text: Text)
    requires Storable(v, ty, text) && v.Datum? && !WrittenBare(ty)
    ensures ReadBack(v, ty, text) == Some(v) && Clean(v, text)
  {
    UnquoteQuoted(v.p.s);
    if ty.BOOLEAN? {
      TruthParses(text);
      assert ',' !in v.p.s && '\n' !in v.p.s;
    }
    QuotedIsClean(v.p.s);
  }

  lemma {:induction false} LowerTruth()
    ensures Lower("true") == "true" && Lower("false") == "false"
  {
  }

  /** A storable value is written in one clean cell and reads back as itself. */
  lemma {:induction false} StorableReadsBack(v: Value, ty: DataType, text: Text)
    requires PrintsPlainly(text) && Storable(v, ty, text)
    ensures ReadBack(v, ty, text) == Some(v) && Clean(v, text)
  {
    if v.Datum? {
      if WrittenBare(ty) {
        NumberReadsBack(v, ty, text);
      } else {
        TextReadsBack(v, ty, text);
      }
    }
  }

  /** Storable, except that a double need not survive its text. */
  predicate Almost(v: Value, ty: DataType, text: Text) {
    if v.Datum? && IsReal(ty) then v.ty == ty && v.p.D? else Storable(v, ty, text)
  }

  lemma {:induction false} AlmostIsClean(v: Value, ty: DataType, text: Text)
    requires PrintsPlainly(text) && Almost(v, ty, text)
    ensures Clean(v, text)
    ensures ReadBack(v, ty, text) == Some(v) ==> Storable(v, ty, text)
  {
    if v.Datum? && IsReal(ty) {
      var s := text.ofReal(v.p.x);
      assert s[0] in s;
    } else {
      StorableReadsBack(v, ty, text);
    }
  }

  /** Doubles aside, whatever is read from a cell is storable. */
  lemma {:induction false} ParsedIsStorable(cell: string, ty: DataType, text: Text, v: Value)
    requires ',' !in cell && '\n' !in cell && ParseFrom(Unquote(cell), ty, text) == Some(v)
    ensures Almost(v, ty, text)
  {
    if ',' in Unquote(cell) { UnquoteChars(cell, ','); }
    if '\n' in Unquote(cell) { UnquoteChars(cell, '\n'); }
  }

  // ---------- Splitting ----------

  lemma {:induction false} IndexIn(a: string, sep: char, rest: string)
    requires sep !in a
    ensures IndexOf(a, sep) == |a| && IndexOf(a + [sep] + rest, sep) == |a|
  {
    if a != "" {
      assert (a + [sep] + rest)[1..] == a[1..] + [sep] + rest;
      IndexIn(a[1..], sep, rest);
    }
  }

  lemma {:induction false} PiecesStart(a: string, sep: char, rest: string)
    requires sep !in a
    ensures Pieces(a + [sep] + rest, sep) == [a] + Pieces(rest, sep)
    ensures a != "" ==> Pieces(a, sep) == [a]
  {
    IndexIn(a, sep, rest);
    var s := a + [sep] + rest;
    assert s[..|a|] == a && s[|a| + 1..] == rest;
  }

  lemma {:induction false} PiecesAvoid(s: string, sep: char, other: char)
    ensures forall p :: p in Pieces(s, sep) ==> sep !in p && (other !in s ==> other !in p)
    ensures s != "" ==> Pieces(s, sep) != []
  {
    if s != "" {
      var i := IndexOf(s, sep);
      if i < |s| {
        PiecesAvoid(s[i + 1..], sep, other);
      } else {
        assert s[..i] == s;
      }
    }
  }

  // ---------- Rows ----------

  function Cells(row: Row, text: Text): seq<string> {
    if row == [] then [] else [ToSql(row[0], text)] + Cells(row[1..], text)
  }

  predicate CleanRow(row: Row, text: Text) {
    forall i :: 0 <= i < |row| ==> Clean(row[i], text)
  }

  lemma {:induction false} CellsOfWritten(row: Row, text: Text)
    requires CleanRow(row, text)
    ensures Pieces(WriteRow(row, text), ',') == Cells(row, text)
    ensures '\n' !in WriteRow(row, text) && (row != [] ==> WriteRow(row, text) != "")
  {
    if row != [] {
      assert Clean(row[0], text);
      CellsOfWritten(row[1..], text);
      PiecesStart(ToSql(row[0], text), ',', WriteRow(row[1..], text));
    }
  }

  /** Value by value what the row reads back as. */
  predicate ReadsBackAs(row: Row, types: seq<DataType>, text: Text, back: Row) {
    && |row| == |back| <= |types|
    && forall i :: 0 <= i < |row| ==> ReadBack(row[i], types[i], text) == Some(back[i])
  }

  lemma {:induction false} ReadCellsBack(row: Row, types: seq<DataType>, text: Text, back: Row)
    ensures ReadCells(Cells(row, text), types, text) == Read(back) <==> ReadsBackAs(row, types, text, back)
  {
    var cells := Cells(row, text);
    if row == [] {
    } else if types == [] {
    } else {
      assert cells[1..] == Cells(row[1..], text);
      var v := ReadBack(row[0], types[0], text);
      if back == [] {
      } else {
        ReadCellsBack(row[1..], types[1..], text, back[1..]);
        assert back == [back[0]] + back[1..];
        if ReadsBackAs(row[1..], types[1..], text, back[1..]) && v == Some(back[0]) {
          assert forall i :: 0 < i < |row| ==> row[i] == row[1..][i - 1] && types[i] == types[1..][i - 1]
                                               && back[i] == back[1..][i - 1];
        }
      }
    }
  }

  predicate AlmostAll(row: Row, types: seq<DataType>, text: Text)
    requires |row| <= |types|
  {
    forall i :: 0 <= i < |row| ==> Almost(row[i], types[i], text)
  }

  /** What a line reads as is storable, doubles aside, and as long as the line has cells. */
  lemma {:induction false} CellsReadAreStorable(cells: seq<string>, types: seq<DataType>, text: Text)
    requires forall p :: p in cells ==> ',' !in p && '\n' !in p
    ensures var r := ReadCells(cells, types, text);
      r.Read? ==> |r.row| == |cells| <= |types| && AlmostAll(r.row, types, text)
  {
    if cells != [] && types != [] {
      CellsReadAreStorable(cells[1..], types[1..], text);
      match ParseFrom(Unquote(cells[0]), types[0], text)
      case None =>
      case Some(v) => ParsedIsStorable(cells[0], types[0], text, v);
    }
  }

  /** A row read back from its own line is unchanged exactly when all its values are storable. */
  lemma {:induction false} RowSurvivesIff(row: Row, types: seq<DataType>, text: Text)
    requires PrintsPlainly(text) && '\n' !in WriteRow(row, text)
    ensures ReadRow(WriteRow(row, text), types, text) == Read(row)
       <==> |row| <= |types| && forall i :: 0 <= i < |row| ==> Storable(row[i], types[i], text)
  {
    var line := WriteRow(row, text);
    if |row| <= |types| && forall i :: 0 <= i < |row| ==> Storable(row[i], types[i], text) {
      StorableRowReadsBack(row, types, text);
      CellsOfWritten(row, text);
      ReadCellsBack(row, types, text, row);
    }
    if ReadRow(line, types, text) == Read(row) {
      PiecesAvoid(line, ',', '\n');
      CellsReadAreStorable(Pieces(line, ','), types, text);
      AlmostSurvives(row, types, text);
    }
  }

  lemma {:induction false} StorableRowReadsBack(row: Row, types: seq<DataType>, text: Text)
    requires PrintsPlainly(text) && |row| <= |types|
    requires forall i :: 0 <= i < |row| ==> Storable(row[i], types[i], text)
    ensures ReadsBackAs(row, types, text, row) && CleanRow(row, text)
  {
    forall i | 0 <= i < |row|
      ensures ReadBack(row[i], types[i], text) == Some(row[i]) && Clean(row[i], text)
    {
      StorableReadsBack(row[i], types[i], text);
    }
  }

  lemma {:induction false} AlmostSurvives(row: Row, types: seq<DataType>, text: Text)
    requires PrintsPlainly(text) && |row| <= |types| && AlmostAll(row, types, text)
    ensures CleanRow(row, text)
    ensures ReadRow(WriteRow(row, text), types, text) == Read(row)
       ==> forall i :: 0 <= i < |row| ==> Storable(row[i], types[i], text)
  {
    forall i | 0 <= i < |row|
      ensures Clean(row[i], text)
      ensures ReadBack(row[i], types[i], text) == Some(row[i]) ==> Storable(row[i], types[i], text)
    {
      AlmostIsClean(row[i], types[i], text);
    }
    CellsOfWritten(row, text);
    ReadCellsBack(row, types, text, row);
  }

  // ---------- Values of another type ----------

  /** However it is written, a text that does not start with an apostrophe under a bare tag is
      what its cell unquotes to. */
  lemma {:induction false} WrittenText(v: Value, text: Text)
    requires v.Datum? && (WrittenBare(v.ty) ==> GetString(v, text) != "" && GetString(v, text)[0] != '\'')
    ensures Unquote(ToSql(v, text)) == GetString(v, text)
    ensures ',' !in GetString(v, text) && '\n' !in GetString(v, text) ==> Clean(v, text)
  {
    UnquoteQuoted(GetString(v, text));
    if ',' !in GetString(v, text) && '\n' !in GetString(v, text) {
      QuotedIsClean(GetString(v, text));
    }
  }

  lemma {:induction false} NumberText(v: Value, text: Text)
    requires PrintsPlainly(text) && v.Datum? && !v.p.S?
    ensures var s := GetString(v, text);
      s != "" && s[0] != '\'' && ',' !in s && '\n' !in s && !IsNullSpelling(s)
  {
    var s := GetString(v, text);
    if v.p.I? {
      IntTextChars(v.p.n);
    }
    assert s[0] in s;
  }

  lemma {:induction false} WellMadeText(v: Value, text: Text)
    requires PrintsPlainly(text) && WellMade(v) && v.Datum?
    ensures Unquote(ToSql(v, text)) == GetString(v, text)
    ensures (v.p.S? ==> ',' !in v.p.s && '\n' !in v.p.s) ==> Clean(v, text)
    ensures !v.p.S? ==> !IsNullSpelling(GetString(v, text))
  {
    if !v.p.S? {
      NumberText(v, text);
    }
    WrittenText(v, text);
  }

  /** A converted value is what the written value is read back as, and is storable. */
  lemma {:induction false} ConvertedReadsBack(v: Value, ty: DataType, text: Text)
    requires PrintsPlainly(text) && Converted(v, ty, text).Some?
    ensures Clean(v, text) && ReadBack(v, ty, text) == Converted(v, ty, text)
    ensures Storable(Converted(v, ty, text).value, ty, text)
  {
    if v.Datum? {
      WellMadeText(v, text);
      if WrittenBare(ty) {
        ConvertedNumber(v, ty, text);
      } else if ty.BOOLEAN? {
        ConvertedTruth(v, text);
      } else {
        ConvertedText(v, ty, text);
      }
    }
  }

  lemma {:induction false} ConvertedNumber(v: Value, ty: DataType, text: Text)
    requires PrintsPlainly(text) && v.Datum? && WrittenBare(ty) && Converted(v, ty, text).Some?
    ensures Clean(v, text) && ParseFrom(GetString(v, text), ty, text) == Converted(v, ty, text)
    ensures Storable(Converted(v, ty, text).value, ty, text)
  {
    NumberText(v, text);
    WellMadeText(v, text);
    if IsInteger(ty) {
      ParseIntText(v.p.n);
    }
  }

  lemma {:induction false} TruthParses(text: Text)
    ensures ParseFrom("true", BOOLEAN, text) == Some(BoolValue(true))
    ensures ParseFrom("false", BOOLEAN, text) == Some(BoolValue(false))
  {
    LowerTruth();
  }

  lemma {:induction false} ConvertedTruth(v: Value, text: Text)
    requires PrintsPlainly(text) && v.Datum? && Converted(v, BOOLEAN, text).Some?
    ensures Clean(v, text) && ParseFrom(GetString(v, text), BOOLEAN, text) == Converted(v, BOOLEAN, text)
    ensures Storable(Converted(v, BOOLEAN, text).value, BOOLEAN, text)
  {
    assert v.p == S("true") || v.p == S("false");
    assert ',' !in v.p.s && '\n' !in v.p.s;
    WellMadeText(v, text);
    TruthParses(text);
  }

  lemma {:induction false} ConvertedText(v: Value, ty: DataType, text: Text)
    requires PrintsPlainly(text) && v.Datum? && !WrittenBare(ty) && !ty.BOOLEAN? && Converted(v, ty, text).Some?
    ensures Clean(v, text) && ParseFrom(GetString(v, text), ty, text) == Converted(v, ty, text)
    ensures Storable(Converted(v, ty, text).value, ty, text)
  {
    assert PlainText(GetString(v, text));
    WellMadeText(v, text);
  }

  /** A value that the column already holds converts to itself. */
  lemma {:induction false} StorableConverts(v: Value, ty: DataType, text: Text)
    requires Storable(v, ty, text)
    ensures Converted(v, ty, text) == Some(v)
  {
  }

  function RetagRow(row: Row, types: seq<DataType>): Row
    requires |row| <= |types|
  {
    seq(|row|, i requires 0 <= i < |row| => Retag(row[i], types[i]))
  }

  /** A row whose values may carry other tags reads back as the same row under the column
      types exactly when each value is storable there. */
  lemma {:induction false} RetaggedSurvivesIff(row: Row, types: seq<DataType>, text: Text)
    requires PrintsPlainly(text) && |row| <= |types| && '\n' !in WriteRow(row, text)
    requires forall i :: 0 <= i < |row| ==> WellMade(row[i])
    ensures ReadRow(WriteRow(row, text), types, text) == Read(RetagRow(row, types))
       <==> forall i :: 0 <= i < |row| ==> Storable(Retag(row[i], types[i]), types[i], text)
  {
    var back := RetagRow(row, types);
    if forall i :: 0 <= i < |row| ==> Storable(Retag(row[i], types[i]), types[i], text) {
      forall i | 0 <= i < |row|
        ensures ReadBack(row[i], types[i], text) == Some(back[i]) && Clean(row[i], text)
      {
        RetaggedReadsBack(row[i], types[i], text);
      }
      CellsOfWritten(row, text);
      ReadCellsBack(row, types, text, back);
    }
    if ReadRow(WriteRow(row, text), types, text) == Read(back) {
      RetaggedSurvives(row, types, text);
    }
  }

  lemma {:induction false} RetaggedReadsBack(v: Value, ty: DataType, text: Text)
    requires PrintsPlainly(text) && WellMade(v) && Storable(Retag(v, ty), ty, text)
    ensures ReadBack(v, ty, text) == Some(Retag(v, ty)) && Clean(v, text)
  {
    assert Converted(v, ty, text) == Some(Retag(v, ty));
    ConvertedReadsBack(v, ty, text);
  }

  lemma {:induction false} RetaggedIsClean(v: Value, ty: DataType, text: Text)
    requires PrintsPlainly(text) && WellMade(v) && Almost(Retag(v, ty), ty, text)
    ensures Clean(v, text)
    ensures ReadBack(v, ty, text) == Some(Retag(v, ty)) ==> Storable(Retag(v, ty), ty, text)
  {
    if v.Datum? {
      assert v.p.S? ==> ',' !in v.p.s && '\n' !in v.p.s;
      WellMadeText(v, text);
    }
  }

  lemma {:induction false} RetaggedSurvives(row: Row, types: seq<DataType>, text: Text)
    requires PrintsPlainly(text) && |row| <= |types| && '\n' !in WriteRow(row, text)
    requires forall i :: 0 <= i < |row| ==> WellMade(row[i])
    requires ReadRow(WriteRow(row, text), types, text) == Read(RetagRow(row, types))
    ensures forall i :: 0 <= i < |row| ==> Storable(Retag(row[i], types[i]), types[i], text)
  {
    var line, back := WriteRow(row, text), RetagRow(row, types);
    PiecesAvoid(line, ',', '\n');
    CellsReadAreStorable(Pieces(line, ','), types, text);
    forall i | 0 <= i < |row|
      ensures Clean(row[i], text)
      ensures ReadBack(row[i], types[i], text) == Some(back[i]) ==> Storable(back[i], types[i], text)
    {
      assert Almost(back[i], types[i], text);
      RetaggedIsClean(row[i], types[i], text);
    }
    CellsOfWritten(row, text);
    ReadCellsBack(row, types, text, back);
  }

  // ---------- Rows with a comma ----------

  predicate HasComma(v: Value) {
    v.Datum? && v.p.S? && ',' in v.p.s
  }

  /** Two texts around a separator have the pieces of both. */
  lemma {:induction false} PiecesJoin(a: string, sep: char, b: string)
    requires a != "" && a[|a| - 1] != sep && b != ""
    ensures |Pieces(a + [sep] + b, sep)| == |Pieces(a, sep)| + |Pieces(b, sep)|
    decreases |a|
  {
    var i := IndexOf(a, sep);
    if i < |a| {
      assert a == a[..i] + [sep] + a[i + 1..];
      PiecesJoinMore(a[..i], a[i + 1..], sep, b);
    } else {
      PiecesStart(a, sep, b);
    }
  }

  lemma {:induction false} PiecesJoinMore(first: string, rest: string, sep: char, b: string)
    requires sep !in first && rest != "" && rest[|rest| - 1] != sep && b != ""
    ensures var a := first + [sep] + rest;
      |Pieces(a + [sep] + b, sep)| == |Pieces(a, sep)| + |Pieces(b, sep)|
    decreases |first| + 1 + |rest|, 0
  {
    Separated(first, [sep], rest, b);
    PiecesJoin(rest, sep, b);
    PiecesStart(first, sep, rest);
    PiecesStart(first, sep, rest + [sep] + b);
  }

  lemma {:induction false} OnePieceIff(s: string, sep: char)
    requires s != "" && s[|s| - 1] != sep
    ensures |Pieces(s, sep)| >= 1 && (|Pieces(s, sep)| == 1 <==> sep !in s)
  {
    var i := IndexOf(s, sep);
    if i < |s| {
      PiecesAvoid(s[i + 1..], sep, sep);
    }
  }

  lemma {:induction false} WrittenCommas(v: Value, text: Text)
    requires PrintsPlainly(text) && WellMade(v)
    ensures ToSql(v, text) != "" && ToSql(v, text)[|ToSql(v, text)| - 1] != ','
    ensures ',' in ToSql(v, text) <==> HasComma(v)
  {
    if v.Datum? {
      var s := GetString(v, text);
      EscapeChars(s, ',');
      if !v.p.S? {
        NumberText(v, text);
        assert s[|s| - 1] in s;
      }
    }
  }

  predicate NoCommas(row: Row) {
    forall i :: 0 <= i < |row| ==> !HasComma(row[i])
  }

  lemma {:induction false} NoCommasSplit(row: Row)
    requires row != []
    ensures NoCommas(row) <==> !HasComma(row[0]) && NoCommas(row[1..])
  {
    assert forall i :: 0 < i < |row| ==> row[i] == row[1..][i - 1];
  }

  /** The line of a row has a piece for each value, and more exactly if a text holds a comma. */
  lemma {:induction false} RowPieces(row: Row, text: Text)
    requires PrintsPlainly(text) && row != [] && forall i :: 0 <= i < |row| ==> WellMade(row[i])
    ensures var line := WriteRow(row, text);
      && line != "" && line[|line| - 1] != ','
      && |Pieces(line, ',')| >= |row| && (|Pieces(line, ',')| == |row| <==> NoCommas(row))
  {
    WrittenCommas(row[0], text);
    OnePieceIff(ToSql(row[0], text), ',');
    NoCommasSplit(row);
    if |row| > 1 {
      RowPieces(row[1..], text);
      PiecesJoin(ToSql(row[0], text), ',', WriteRow(row[1..], text));
    }
  }

  lemma {:induction false} TextCellsCount(cells: seq<string>, types: seq<DataType>, text: Text)
    requires forall i :: 0 <= i < |types| ==> !WrittenBare(types[i])
    ensures var r := ReadCells(cells, types, text);
      if |cells| <= |types| then r.Read? else r.TooMany?
  {
    if cells != [] && types != [] {
      TextCellsCount(cells[1..], types[1..], text);
    }
  }

  /** In a table of text columns, a row with a value in every column is passed over when it is read
      back exactly when one of its texts holds a comma. */
  lemma {:induction false} FullRowIsPassedOverIff(row: Row, types: seq<DataType>, text: Text)
    requires PrintsPlainly(text) && |row| == |types| > 0
    requires forall i :: 0 <= i < |row| ==> WellMade(row[i]) && !WrittenBare(types[i])
    ensures ReadRow(WriteRow(row, text), types, text).TooMany? <==> !NoCommas(row)
  {
    RowPieces(row, text);
    TextCellsCount(Pieces(WriteRow(row, text), ','), types, text);
  }

  // ---------- Files ----------

  function WrittenLines(rows: seq<Row>, text: Text): seq<string> {
    if rows == [] then [] else [WriteRow(rows[0], text)] + WrittenLines(rows[1..], text)
  }

  /** The row is written on one line, not an empty one. */
  predicate OneLine(row: Row, text: Text) {
    WriteRow(row, text) != "" && '\n' !in WriteRow(row, text)
  }

  lemma {:induction false} WrittenOnOneLine(row: Row, text: Text)
    requires PrintsPlainly(text) && row != []
    requires forall i :: 0 <= i < |row| ==> WellMade(row[i]) && '\n' !in GetString(row[i], text)
    ensures OneLine(row, text)
  {
    EscapeChars(GetString(row[0], text), '\n');
    WrittenCommas(row[0], text);
    if |row| > 1 {
      WrittenOnOneLine(row[1..], text);
    }
  }

  lemma {:induction false} LinesOfContent(rows: seq<Row>, text: Text)
    requires forall i :: 0 <= i < |rows| ==> OneLine(rows[i], text)
    ensures Pieces(Content(rows, text), '\n') == WrittenLines(rows, text)
  {
    if rows != [] {
      assert OneLine(rows[0], text);
      LinesOfContent(rows[1..], text);
      PiecesStart(WriteRow(rows[0], text), '\n', Content(rows[1..], text));
    }
  }

  /** Written on a line of its own, the row reads as back. */
  predicate ReadsAs(row: Row, types: seq<DataType>, text: Text, back: Row) {
    OneLine(row, text) && ReadRow(WriteRow(row, text), types, text) == Read(back)
  }

  predicate RowsReadAs(rows: seq<Row>, types: seq<DataType>, text: Text, back: seq<Row>) {
    && |rows| == |back|
    && forall i :: 0 <= i < |rows| ==> ReadsAs(rows[i], types, text, back[i])
  }

  lemma {:induction false} LinesReadBack(rows: seq<Row>, types: seq<DataType>, text: Text, back: seq<Row>)
    requires RowsReadAs(rows, types, text, back)
    ensures LoadLines(WrittenLines(rows, text), types, text) == Some(back)
  {
    if rows != [] {
      assert ReadsAs(rows[0], types, text, back[0]);
      LinesReadBack(rows[1..], types, text, back[1..]);
      assert WrittenLines(rows, text)[1..] == WrittenLines(rows[1..], text);
      assert back == [back[0]] + back[1..];
    }
  }

  lemma {:induction false} ContentReadsAs(rows: seq<Row>, types: seq<DataType>, text: Text, back: seq<Row>)
    requires RowsReadAs(rows, types, text, back)
    ensures Load(Content(rows, text), types, text) == Some(back)
  {
    forall i | 0 <= i < |rows|
      ensures OneLine(rows[i], text)
    {
      assert ReadsAs(rows[i], types, text, back[i]);
    }
    LinesOfContent(rows, text);
    LinesReadBack(rows, types, text, back);
  }

  lemma {:induction false} FileRowReadsAsItself(row: Row, types: seq<DataType>, text: Text)
    requires PrintsPlainly(text) && FileRow(row, types, text)
    ensures ReadsAs(row, types, text, row)
  {
    StorableRowReadsBack(row, types, text);
    CellsOfWritten(row, text);
    ReadCellsBack(row, types, text, row);
  }

  /** Any content that can be read gives rows that are storable, doubles aside. */
  lemma {:induction false} LinesReadAreStorable(lines: seq<string>, types: seq<DataType>, text: Text)
    requires forall p :: p in lines ==> '\n' !in p
    ensures var rows := LoadLines(lines, types, text);
      rows.Some? ==> AlmostRows(rows.value, types, text)
  {
    if lines != [] {
      LinesReadAreStorable(lines[1..], types, text);
      if lines[0] != "" {
        LineReadIsStorable(lines[0], types, text);
      }
    }
  }

  lemma {:induction false} LineReadIsStorable(line: string, types: seq<DataType>, text: Text)
    requires line != "" && '\n' !in line
    ensures var r := ReadRow(line, types, text);
      r.Read? ==> 0 < |r.row| <= |types| && AlmostAll(r.row, types, text)
  {
    PiecesAvoid(line, ',', '\n');
    CellsReadAreStorable(Pieces(line, ','), types, text);
  }

  predicate AlmostRows(rows: seq<Row>, types: seq<DataType>, text: Text) {
    forall i :: 0 <= i < |rows| ==> 0 < |rows[i]| <= |types| && AlmostAll(rows[i], types, text)
  }

  lemma {:induction false} LoadedRowsAreStorable(content: string, types: seq<DataType>, text: Text)
    ensures var rows := Load(content, types, text);
      rows.Some? ==> AlmostRows(rows.value, types, text)
  {
    PiecesAvoid(content, '\n', '\n');
    LinesReadAreStorable(Pieces(content, '\n'), types, text);
  }

  /** Every double prints as a text that reads as the same double. */
  predicate DoublesKept(rows: seq<Row>, text: Text) {
    forall i, j :: 0 <= i < |rows| && 0 <= j < |rows[i]| ==>
      var v := rows[i][j];
      v.Datum? && v.p.D? ==> text.toReal(text.ofReal(v.p.x)) == Some(v.p.x)
  }

  lemma {:induction false} AlmostRowsAreKeptIff(rows: seq<Row>, types: seq<DataType>, text: Text)
    requires AlmostRows(rows, types, text)
    ensures FileRows(rows, types, text) <==> DoublesKept(rows, text)
  {
    forall i | 0 <= i < |rows|
      ensures FileRow(rows[i], types, text) <==> DoublesKept([rows[i]], text)
    {
      assert AlmostAll(rows[i], types, text);
      forall j | 0 <= j < |rows[i]|
        ensures Almost(rows[i][j], types[j], text) && [rows[i]][0] == rows[i]
      {
      }
    }
  }

  /** The rows any file loads as are ones a file keeps exactly when it keeps their doubles. */
  lemma {:induction false} LoadedRowsAreKeptIff(content: string, rows: seq<Row>, types: seq<DataType>, text: Text)
    requires Load(content, types, text) == Some(rows)
    ensures FileRows(rows, types, text) <==> DoublesKept(rows, text)
  {
    LoadedRowsAreStorable(content, types, text);
    AlmostRowsAreKeptIff(rows, types, text);
  }

  // ---------- Rewriting rows ----------

  /** Each value converted to the type of its column, where the column takes it. */
  function ConvertedRow(row: Row, types: seq<DataType>, text: Text): (r: Row)
    ensures |r| == |row|
  {
    seq(|row|, i requires 0 <= i < |row| =>
      if i < |types| && Converted(row[i], types[i], text).Some? then Converted(row[i], types[i], text).value
      else row[i])
  }

  function ConvertedRows(rows: seq<Row>, types: seq<DataType>, text: Text): (r: seq<Row>)
    ensures |r| == |rows|
  {
    seq(|rows|, i requires 0 <= i < |rows| => ConvertedRow(rows[i], types, text))
  }

  /** A row with a value in some column, each taken by its column. */
  predicate Taken(row: Row, types: seq<DataType>, text: Text) {
    0 < |row| <= |types| && forall i :: 0 <= i < |row| ==> Converted(row[i], types[i], text).Some?
  }

  predicate AllTaken(rows: seq<Row>, types: seq<DataType>, text: Text) {
    forall i :: 0 <= i < |rows| ==> Taken(rows[i], types, text)
  }

  /** Such a row is written on one line that reads as its converted values. */
  lemma {:induction false} TakenRowReadsAs(row: Row, types: seq<DataType>, text: Text)
    requires PrintsPlainly(text) && Taken(row, types, text)
    ensures ReadsAs(row, types, text, ConvertedRow(row, types, text))
    ensures FileRow(ConvertedRow(row, types, text), types, text)
  {
    var back := ConvertedRow(row, types, text);
    forall i | 0 <= i < |row|
      ensures ReadBack(row[i], types[i], text) == Some(back[i]) && Clean(row[i], text)
      ensures Storable(back[i], types[i], text)
    {
      ConvertedReadsBack(row[i], types[i], text);
    }
    CellsOfWritten(row, text);
    ReadCellsBack(row, types, text, back);
  }

  lemma {:induction false} FileRowIsTaken(row: Row, types: seq<DataType>, text: Text)
    requires FileRow(row, types, text)
    ensures Taken(row, types, text) && ConvertedRow(row, types, text) == row
  {
    forall i | 0 <= i < |row|
      ensures Converted(row[i], types[i], text) == Some(row[i])
    {
      StorableConverts(row[i], types[i], text);
    }
  }

  /** Rewriting rows that their columns take converts them, and a second time changes nothing. */
  lemma {:induction false} TakenRowsReadAs(rows: seq<Row>, types: seq<DataType>, text: Text)
    requires PrintsPlainly(text) && AllTaken(rows, types, text)
    ensures Load(Content(rows, text), types, text) == Some(ConvertedRows(rows, types, text))
    ensures FileRows(ConvertedRows(rows, types, text), types, text)
    ensures AllTaken(ConvertedRows(rows, types, text), types, text)
    ensures ConvertedRows(ConvertedRows(rows, types, text), types, text) == ConvertedRows(rows, types, text)
  {
    var back := ConvertedRows(rows, types, text);
    forall i | 0 <= i < |rows|
      ensures ReadsAs(rows[i], types, text, back[i]) && FileRow(back[i], types, text)
    {
      assert Taken(rows[i], types, text);
      TakenRowReadsAs(rows[i], types, text);
    }
    ContentReadsAs(rows, types, text, back);
    FileRowsAreTaken(back, types, text);
  }

  lemma {:induction false} FileRowsAreTaken(rows: seq<Row>, types: seq<DataType>, text: Text)
    requires FileRows(rows, types, text)
    ensures AllTaken(rows, types, text) && ConvertedRows(rows, types, text) == rows
  {
    forall i | 0 <= i < |rows|
      ensures Taken(rows[i], types, text) && ConvertedRow(rows[i], types, text) == rows[i]
    {
      FileRowIsTaken(rows[i], types, text);
    }
  }

  /** A double prints as a text that reads as a double, and that one is kept. */
  predicate Settles(v: Value, text: Text) {
    v.Datum? && v.p.D? ==>
      var y := text.toReal(text.ofReal(v.p.x));
      y.Some? && text.toReal(text.ofReal(y.value)) == y
  }

  predicate DoublesSettle(rows: seq<Row>, text: Text) {
    forall i, j :: 0 <= i < |rows| && 0 <= j < |rows[i]| ==> Settles(rows[i][j], text)
  }

  /** The rows any file loads as are taken by their columns exactly when their doubles settle. */
  lemma {:induction false} LoadedRowsAreTakenIff(content: string, rows: seq<Row>, types: seq<DataType>, text: Text)
    requires Load(content, types, text) == Some(rows)
    ensures AllTaken(rows, types, text) <==> DoublesSettle(rows, text)
  {
    LoadedRowsAreStorable(content, types, text);
    forall i | 0 <= i < |rows|
      ensures Taken(rows[i], types, text) <==> DoublesSettle([rows[i]], text)
    {
      AlmostRowIsTakenIff(rows[i], types, text);
    }
    if AllTaken(rows, types, text) {
      forall i, j | 0 <= i < |rows| && 0 <= j < |rows[i]|
        ensures rows[i][j] == [rows[i]][0][j] && DoublesSettle([rows[i]], text)
      {
        assert Taken(rows[i], types, text);
      }
    }
    if DoublesSettle(rows, text) {
      forall i | 0 <= i < |rows|
        ensures Taken(rows[i], types, text)
      {
        assert DoublesSettle([rows[i]], text);
      }
    }
  }

  lemma {:induction false} AlmostRowIsTakenIff(row: Row, types: seq<DataType>, text: Text)
    requires 0 < |row| <= |types| && AlmostAll(row, types, text)
    ensures Taken(row, types, text) <==> DoublesSettle([row], text)
  {
    forall j | 0 <= j < |row|
      ensures [row][0] == row
      ensures Converted(row[j], types[j], text).Some? <==> Settles(row[j], text)
    {
      AlmostIsTakenIff(row[j], types[j], text);
    }
  }

  lemma {:induction false} AlmostIsTakenIff(v: Value, ty: DataType, text: Text)
    requires Almost(v, ty, text)
    ensures Converted(v, ty, text).Some? <==> Settles(v, text)
  {
    if !(v.Datum? && IsReal(ty)) {
      StorableConverts(v, ty, text);
    }
  }

  /** A file gives back the rows it was written from exactly when every row is a file row. */
  lemma {:induction false} FileSurvivesIff(rows: seq<Row>, types: seq<DataType>, text: Text)
    requires PrintsPlainly(text)
    ensures Load(Content(rows, text), types, text) == Some(rows) <==> FileRows(rows, types, text)
  {
    if FileRows(rows, types, text) {
      FileRowsSurvive(rows, types, text);
    }
    if Load(Content(rows, text), types, text) == Some(rows) {
      LoadedRowsAreStorable(Content(rows, text), types, text);
      SurvivorsAreFileRows(rows, types, text);
    }
  }

  lemma {:induction false} FileRowsSurvive(rows: seq<Row>, types: seq<DataType>, text: Text)
    requires PrintsPlainly(text) && FileRows(rows, types, text)
    ensures RowsReadAs(rows, types, text, rows)
    ensures Load(Content(rows, text), types, text) == Some(rows)
  {
    forall i | 0 <= i < |rows|
      ensures ReadsAs(rows[i], types, text, rows[i])
    {
      FileRowReadsAsItself(rows[i], types, text);
    }
    ContentReadsAs(rows, types, text, rows);
  }

  lemma {:induction false} SurvivorsAreFileRows(rows: seq<Row>, types: seq<DataType>, text: Text)
    requires PrintsPlainly(text) && AlmostRows(rows, types, text)
    requires Load(Content(rows, text), types, text) == Some(rows)
    ensures FileRows(rows, types, text)
  {
    forall i | 0 <= i < |rows|
      ensures OneLine(rows[i], text)
    {
      AlmostSurvives(rows[i], types, text);
      CellsOfWritten(rows[i], text);
    }
    LinesOfContent(rows, text);
    LinesSurvive(rows, types, text);
  }

  lemma {:induction false} LinesSurvive(rows: seq<Row>, types: seq<DataType>, text: Text)
    requires PrintsPlainly(text) && AlmostRows(rows, types, text)
    requires LoadLines(WrittenLines(rows, text), types, text) == Some(rows)
    ensures FileRows(rows, types, text)
  {
    if rows != [] {
      AlmostSurvives(rows[0], types, text);
      CellsOfWritten(rows[0], text);
      assert Cells(rows[0], text) != [];
      assert WrittenLines(rows, text)[1..] == WrittenLines(rows[1..], text);
      NotTooMany(rows[0], types, text);
      LinesSurvive(rows[1..], types, text);
      assert forall i :: 0 < i < |rows| ==> rows[i] == rows[1..][i - 1];
    }
  }

  lemma {:induction false} NotTooMany(row: Row, types: seq<DataType>, text: Text)
    requires |row| <= |types|
    ensures !ReadCells(Cells(row, text), types, text).TooMany?
  {
    if row != [] {
      NotTooMany(row[1..], types[1..], text);
      assert Cells(row, text)[1..] == Cells(row[1..], text);
    }
  }

  /** When as many rows are loaded as there are lines, each line is read as its row. */
  lemma {:induction false} LinesOneByOne(lines: seq<string>, types: seq<DataType>, text: Text, back: seq<Row>)
    requires LoadLines(lines, types, text) == Some(back)
    ensures |back| <= |lines|
    ensures |back| == |lines| ==> forall i :: 0 <= i < |lines| ==> ReadRow(lines[i], types, text) == Read(back[i])
  {
    if lines != [] {
      var rest := LoadLines(lines[1..], types, text).value;
      LinesOneByOne(lines[1..], types, text, rest);
      if |back| == |lines| {
        assert back == [back[0]] + rest;
        assert forall i :: 0 < i < |lines| ==> lines[i] == lines[1..][i - 1] && back[i] == rest[i - 1];
      }
    }
  }

  lemma {:induction false} WrittenLinesAt(rows: seq<Row>, text: Text)
    ensures |WrittenLines(rows, text)| == |rows|
    ensures forall i :: 0 <= i < |rows| ==> WrittenLines(rows, text)[i] == WriteRow(rows[i], text)
  {
    WrittenCount(rows, text);
    forall i | 0 <= i < |rows|
      ensures WrittenLines(rows, text)[i] == WriteRow(rows[i], text)
    {
      WrittenAt(rows, text, i);
    }
  }

  lemma {:induction false} WrittenCount(rows: seq<Row>, text: Text)
    ensures |WrittenLines(rows, text)| == |rows|
  {
    if rows != [] {
      WrittenCount(rows[1..], text);
    }
  }

  lemma {:induction false} WrittenAt(rows: seq<Row>, text: Text, i: nat)
    requires i < |rows| == |WrittenLines(rows, text)|
    ensures WrittenLines(rows, text)[i] == WriteRow(rows[i], text)
  {
    if i > 0 {
      WrittenAt(rows[1..], text, i - 1);
    }
  }

  /** A row that is passed over leaves no trace of itself. */
  lemma {:induction false} PassedOver(lost: Row, kept: Row, types: seq<DataType>, text: Text)
    requires OneLine(lost, text) && ReadRow(WriteRow(lost, text), types, text).TooMany?
    requires ReadsAs(kept, types, text, kept)
    ensures Load(Content([lost, kept], text), types, text) == Some([kept])
    ensures Load(Content([kept, lost], text), types, text) == Some([kept])
  {
    LinesOfContent([lost, kept], text);
    LinesOfContent([kept, lost], text);
    var a, b := WriteRow(lost, text), WriteRow(kept, text);
    WrittenTwo(lost, kept, text);
    WrittenTwo(kept, lost, text);
    LoadTwo(a, b, types, text);
    LoadTwo(b, a, types, text);
  }

  lemma {:induction false} WrittenTwo(a: Row, b: Row, text: Text)
    ensures WrittenLines([a, b], text) == [WriteRow(a, text), WriteRow(b, text)]
  {
    assert [a, b][1..] == [b] && [b][1..] == [];
    assert WrittenLines([b], text) == [WriteRow(b, text)] + WrittenLines([], text);
  }

  lemma {:induction false} LoadTwo(a: string, b: string, types: seq<DataType>, text: Text)
    requires a != "" && b != ""
    ensures var x, y := ReadRow(a, types, text), ReadRow(b, types, text);
      && (x.TooMany? && y.Read? ==> LoadLines([a, b], types, text) == Some([y.row]))
      && (x.Read? && y.TooMany? ==> LoadLines([a, b], types, text) == Some([x.row]))
  {
    LoadOne(b, types, text);
    assert [a, b][1..] == [b];
    var x := ReadRow(a, types, text);
    assert x.Read? ==> [x.row] + [] == [x.row];
  }

  lemma {:induction false} LoadOne(a: string, types: seq<DataType>, text: Text)
    requires a != ""
    ensures var x := ReadRow(a, types, text);
      LoadLines([a], types, text) == if x.Read? then Some([x.row]) else if x.TooMany? then Some([]) else None
  {
    assert [a][1..] == [];
    var x := ReadRow(a, types, text);
    assert x.Read? ==> [x.row] + [] == [x.row];
  }

  // ---------- Appending ----------

  predicate EndsLine(content: string) {
    content == "" || content[|content| - 1] == '\n'
  }

  lemma {:induction false} PiecesAppend(content: string, line: string)
    requires EndsLine(content) && '\n' !in line
    ensures Pieces(content + (line + ['\n']), '\n') == Pieces(content, '\n') + [line]
    decreases |content|
  {
    var added := line + ['\n'];
    if content == "" {
      Reassociate(line, ['\n'], "");
      assert content + added == line + ['\n'] + "";
      PiecesStart(line, '\n', "");
    } else {
      var first, rest := FirstLine(content);
      PiecesAppend(rest, line);
      Reassociate(first + ['\n'], rest, added);
      PiecesStart(first, '\n', rest + added);
      Reassociate([first], Pieces(rest, '\n'), [line]);
    }
  }

  lemma {:induction false} FirstLine(content: string) returns (first: string, rest: string)
    requires content != "" && EndsLine(content)
    ensures content == first + ['\n'] + rest && '\n' !in first && EndsLine(rest)
    ensures Pieces(content, '\n') == [first] + Pieces(rest, '\n')
  {
    var i := IndexOf(content, '\n');
    assert i < |content|;
    first, rest := content[..i], content[i + 1..];
  }

  lemma {:induction false} LoadLinesAppend(lines: seq<string>, line: string, types: seq<DataType>, text: Text,
                                           back: Row)
    requires line != "" && ReadRow(line, types, text) == Read(back)
    ensures var rows := LoadLines(lines, types, text);
      LoadLines(lines + [line], types, text) == if rows.None? then None else Some(rows.value + [back])
  {
    if lines == [] {
      assert (lines + [line])[1..] == [];
      assert [back] + [] == [] + [back];
    } else {
      assert (lines + [line])[1..] == lines[1..] + [line];
      LoadLinesAppend(lines[1..], line, types, text, back);
      var rest := LoadLines(lines[1..], types, text);
      var first := ReadRow(lines[0], types, text);
      if rest.Some? && first.Read? {
        Reassociate([first.row], rest.value, [back]);
      }
    }
  }

  /** A row written behind a complete last line is loaded after the rows before it. */
  lemma {:induction false} AppendLoads(content: string, row: Row, types: seq<DataType>, text: Text, back: Row)
    requires EndsLine(content) && ReadsAs(row, types, text, back)
    ensures var rows := Load(content, types, text);
      Load(content + WriteRow(row, text) + "\n", types, text)
      == if rows.None? then None else Some(rows.value + [back])
  {
    var line := WriteRow(row, text);
    PiecesAppend(content, line);
    Reassociate(content, line, "\n");
    LoadLinesAppend(Pieces(content, '\n'), line, types, text, back);
  }

  lemma {:induction false} ContentEndsLine(rows: seq<Row>, text: Text)
    ensures EndsLine(Content(rows, text))
  {
    if rows != [] {
      ContentEndsLine(rows[1..], text);
    }
  }

  // ---------- The format ----------

  lemma {:induction false} EscapePlain(s: string)
    requires '\'' !in s
    ensures Escape(s) == s
  {
    if s != "" {
      EscapePlain(s[1..]);
      assert s == [s[0]] + s[1..];
    }
  }

  /** An apostrophe in a text is written twice, and nothing else is changed. */
  lemma {:induction false} EscapeDoubles(a: string, b: string)
    requires '\'' !in a
    ensures Escape(a) == a && Escape(a + "'" + b) == a + "''" + Escape(b)
  {
    EscapePlain(a);
    var s := a + "'" + b;
    if a == "" {
      assert s[1..] == b;
    } else {
      assert s[1..] == a[1..] + "'" + b;
      EscapeDoubles(a[1..], b);
      assert a == [a[0]] + a[1..];
    }
  }

  /** A cell holds \N for NULL, the digits of an integer, what the library prints for a double, and a text
      between apostrophes. */
  lemma {:induction false} CellFormat(ty: DataType, n: int, x: real, s: string, text: Text)
    ensures ToSql(Null(ty), text) == ['\\', 'N']
    ensures ty in {TINYINT, SMALLINT, INT, BIGINT} ==> ToSql(Datum(ty, I(n)), text) == IntText(n)
    ensures ty in {FLOAT, DOUBLE, DECIMAL} ==> ToSql(Datum(ty, D(x)), text) == text.ofReal(x)
    ensures ty in {CHAR, VARCHAR, TEXT, DATE, TIME, DATETIME, TIMESTAMP, BOOLEAN} && '\'' !in s ==>
      ToSql(Datum(ty, S(s)), text) == "'" + s + "'"
  {
    if '\'' !in s {
      EscapePlain(s);
    }
  }

  /** A line is its cells with a comma between any two. */
  lemma {:induction false} LineFormat(row: Row, more: Row, text: Text)
    requires row != [] && more != []
    ensures WriteRow([row[0]], text) == ToSql(row[0], text)
    ensures WriteRow(row + more, text) == WriteRow(row, text) + "," + WriteRow(more, text)
    decreases |row|
  {
    if |row| == 1 {
      assert (row + more)[1..] == more;
    } else {
      assert (row + more)[1..] == row[1..] + more;
      LineFormat(row[1..], more, text);
    }
  }

  /** What a column of each type makes of a cell: NULL of five spellings, in a BOOLEAN column true of
      'true', '1' and 'yes' in any case and false of everything else, and a text of itself. */
  lemma {:induction false} CellReading(s: string, ty: DataType, text: Text)
    ensures (ParseFrom(s, ty, text).Some? && ParseFrom(s, ty, text).value.Null?) <==>
      s in {"", "NULL", "null", "\\N", "\\\\N"}
    ensures ParseFrom(s, ty, text).Some? && ParseFrom(s, ty, text).value.Datum? ==>
      var v := ParseFrom(s, ty, text).value;
      && v.ty == ty
      && (ty in {TINYINT, SMALLINT, INT, BIGINT} <==> v.p.I?) && (ty in {FLOAT, DOUBLE, DECIMAL} <==> v.p.D?)
      && (ty == BOOLEAN ==> v.p == S(if Spells(s, "true") || s == "1" || Spells(s, "yes") then "true" else "false"))
      && (v.p.S? && ty != BOOLEAN ==> v.p.s == s)
  {
    TruthOf(Datum(ty, S(s)));
  }
}
