/** Rows as lines of text: how a row is written, and how a line is read back. */
module RowText {
  import opened Values

  // ---------- Writing ----------

  function Escape(s: string): string {
    if s == "" then ""
    else if s[0] == '\'' then "''" + Escape(s[1..])
    else [s[0]] + Escape(s[1..])
  }

  predicate WrittenBare(ty: DataType) {
    IsInteger(ty) || IsReal(ty)
  }

  /** Value::toSQLString. */
  function ToSql(v: Value, text: Text): string {
    if v.Null? then "\\N"
    else if WrittenBare(v.ty) then GetString(v, text)
    else "'" + Escape(GetString(v, text)) + "'"
  }

  function WriteRow(row: Row, text: Text): string {
    if row == [] then ""
    else if |row| == 1 then ToSql(row[0], text)
    else ToSql(row[0], text) + "," + WriteRow(row[1..], text)
  }

  // ---------- Reading ----------

  predicate IsNullSpelling(s: string) {
    s == "NULL" || s == "null" || s == "\\N" || s == "\\\\N" || s == ""
  }

  /** Value::parseFrom; None stands for a number that cannot be read, which throws. */
  function ParseFrom(s: string, ty: DataType, text: Text): Option<Value> {
    if IsNullSpelling(s) then Some(Null(ty))
    else if IsInteger(ty) then
      match ParseInt(s)
      case None => None
      case Some(n) => Some(Datum(ty, I(n)))
    else if IsReal(ty) then
      match text.toReal(s)
      case None => None
      case Some(x) => Some(Datum(ty, D(x)))
    else if ty.BOOLEAN? then
      var truth := Lower(s) == "true" || Lower(s) == "1" || Lower(s) == "yes";
      Some(Datum(ty, S(if truth then "true" else "false")))
    else Some(Datum(ty, S(s)))
  }

  function Unescape(s: string): string {
    if s == "" then ""
    else if |s| > 1 && s[0] == '\'' && s[1] == '\'' then "'" + Unescape(s[2..])
    else [s[0]] + Unescape(s[1..])
  }

  /** A cell that starts and ends with an apostrophe loses both (a lone apostrophe, itself). */
  function Unquote(cell: string): string {
    if cell != "" && cell[0] == '\'' && cell[|cell| - 1] == '\'' then
      Unescape(if |cell| == 1 then "" else cell[1..|cell| - 1])
    else cell
  }

  function IndexOf(s: string, sep: char): (i: nat)
    ensures i <= |s| && sep !in s[..i] && (i < |s| ==> s[i] == sep)
  {
    if s == "" || s[0] == sep then 0
    else
      var i := 1 + IndexOf(s[1..], sep);
      assert s[..i] == [s[0]] + s[1..][..i - 1];
      i
  }

  /** What repeated getline takes: nothing follows a separator that ends the text. */
  function Pieces(s: string, sep: char): seq<string> {
    if s == "" then []
    else
      var i := IndexOf(s, sep);
      if i == |s| then [s] else [s[..i]] + Pieces(s[i + 1..], sep)
  }

  datatype RowResult = Read(row: Row) | TooMany | Throws

  function ReadCells(cells: seq<string>, types: seq<DataType>, text: Text): RowResult {
    if cells == [] then Read([])
    else if types == [] then TooMany
    else
      match ParseFrom(Unquote(cells[0]), types[0], text)
      case None => Throws
      case Some(v) =>
        match ReadCells(cells[1..], types[1..], text)
        case Read(row) => Read([v] + row)
        case bad => bad
  }

  function ReadRow(line: string, types: seq<DataType>, text: Text): RowResult {
    ReadCells(Pieces(line, ','), types, text)
  }

  /** Empty lines and lines with too many cells are passed over; None if a cell throws. */
  function LoadLines(lines: seq<string>, types: seq<DataType>, text: Text): Option<seq<Row>> {
    if lines == [] then Some([])
    else
      var rest := LoadLines(lines[1..], types, text);
      if lines[0] == "" then rest
      else
        match ReadRow(lines[0], types, text)
        case Throws => None
        case TooMany => rest
        case Read(row) => if rest.None? then None else Some([row] + rest.value)
  }

  function Load(content: string, types: seq<DataType>, text: Text): Option<seq<Row>> {
    LoadLines(Pieces(content, '\n'), types, text)
  }

  function Content(rows: seq<Row>, text: Text): string {
    if rows == [] then "" else WriteRow(rows[0], text) + "\n" + Content(rows[1..], text)
  }

  // ---------- What survives ----------

  /** What a written value reads back as in a column of type ty. */
  function ReadBack(v: Value, ty: DataType, text: Text): Option<Value> {
    ParseFrom(Unquote(ToSql(v, text)), ty, text)
  }

  /** Doubles print as digits, signs and points. */
  ghost predicate PrintsPlainly(text: Text) {
    forall x: real ::
      text.ofReal(x) != "" && forall c :: c in text.ofReal(x) ==> IsDigit(c) || c == '-' || c == '.'
  }

  predicate PlainText(s: string) {
    ',' !in s && '\n' !in s && !IsNullSpelling(s)
  }

  /** v is a value of a column of type ty that its text keeps. */
  predicate Storable(v: Value, ty: DataType, text: Text) {
    v.ty == ty &&
    (v.Datum? ==>
       if IsInteger(ty) then v.p.I? && FitsInt64(v.p.n)
       else if IsReal(ty) then v.p.D? && text.toReal(text.ofReal(v.p.x)) == Some(v.p.x)
       else if ty.BOOLEAN? then v.p == S("true") || v.p == S("false")
       else v.p.S? && PlainText(v.p.s))
  }

  /** A row the file keeps: not empty, no longer than the column list, each value storable. */
  predicate FileRow(row: Row, types: seq<DataType>, text: Text) {
    0 < |row| <= |types| && forall i :: 0 <= i < |row| ==> Storable(row[i], types[i], text)
  }

  predicate FileRows(rows: seq<Row>, types: seq<DataType>, text: Text) {
    forall i :: 0 <= i < |rows| ==> FileRow(rows[i], types, text)
  }

  /** The value under the type of its column. */
  function Retag(v: Value, ty: DataType): Value {
    match v
    case Null(_) => Null(ty)
    case Datum(_, p) => Datum(ty, p)
  }

  /** No text under the tag of a number, as every value the engine makes. */
  predicate WellMade(v: Value) {
    v.Datum? && v.p.S? ==> !WrittenBare(v.ty)
  }

  /** What a value of any type becomes in a column of type ty: NULL, a 64-bit integer, the double
      its text reads as if that one is kept, a canonical truth value, or plain text (a number as its
      text).  None for a value that the column does not take. */
  function Converted(v: Value, ty: DataType, text: Text): Option<Value> {
    match v
    case Null(_) => Some(Null(ty))
    case Datum(tag, p) =>
      if IsInteger(ty) then
        if p.I? && FitsInt64(p.n) then Some(Datum(ty, p)) else None
      else if IsReal(ty) then
        var x := if p.S? then None else text.toReal(GetString(v, text));
        if x.Some? && text.toReal(text.ofReal(x.value)) == x then Some(Datum(ty, D(x.value))) else None
      else if ty.BOOLEAN? then
        if WellMade(v) && (p == S("true") || p == S("false")) then Some(Datum(ty, p)) else None
      else if WellMade(v) && PlainText(GetString(v, text)) then Some(Datum(ty, S(GetString(v, text))))
      else None
  }
}
