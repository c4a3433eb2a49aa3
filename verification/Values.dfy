/** SQL values: a type tag and a payload, their readings as integer, text and truth, and
    the comparison every operator uses.  Numbers are exact. */
module Values {

  datatype Option<+T> = None | Some(value: T)

  datatype DataType =
    | TINYINT | SMALLINT | INT | BIGINT
    | FLOAT | DOUBLE | DECIMAL
    | CHAR | VARCHAR | TEXT
    | DATE | TIME | DATETIME | TIMESTAMP
    | BOOLEAN | NULL_TYPE | UNKNOWN

  datatype Payload = I(n: int) | D(x: real) | S(s: string)

  /** A NULL keeps the type tag it was given. */
  datatype Value = Null(ty: DataType) | Datum(ty: DataType, p: Payload)

  type Row = seq<Value>

  /** Library conversions between doubles and text, which the values use but do not define. */
  datatype Text = Text(ofReal: real -> string, toReal: string -> Option<real>)

  const NULL: Value := Null(NULL_TYPE)

  function IntValue(n: int): Value { Datum(INT, I(n)) }
  function BigValue(n: int): Value { Datum(BIGINT, I(n)) }
  function DoubleValue(x: real): Value { Datum(DOUBLE, D(x)) }
  function StringValue(s: string): Value { Datum(VARCHAR, S(s)) }
  function BoolValue(b: bool): Value { Datum(BOOLEAN, S(if b then "true" else "false")) }

  predicate IsInteger(ty: DataType) {
    ty.TINYINT? || ty.SMALLINT? || ty.INT? || ty.BIGINT?
  }

  predicate IsReal(ty: DataType) {
    ty.FLOAT? || ty.DOUBLE? || ty.DECIMAL?
  }

  /** BOOLEAN counts as numeric here. */
  predicate IsNumeric(ty: DataType) {
    IsInteger(ty) || IsReal(ty) || ty.BOOLEAN?
  }

  // ---------- Decimal text ----------

  const MIN_INT64 := -0x8000_0000_0000_0000
  const MAX_INT64 := 0x7fff_ffff_ffff_ffff

  predicate FitsInt64(n: int) {
    MIN_INT64 <= n <= MAX_INT64
  }

  function DigitChar(d: nat): (c: char)
    requires d < 10
    ensures '0' <= c <= '9' && c as int - '0' as int == d
  {
    ('0' as int + d) as char
  }

  predicate IsDigit(c: char) {
    '0' <= c <= '9'
  }

  function NatText(n: nat): (s: string)
    ensures s != [] && forall i :: 0 <= i < |s| ==> IsDigit(s[i])
  {
    if n < 10 then [DigitChar(n)] else NatText(n / 10) + [DigitChar(n % 10)]
  }

  /** std::to_string on an integer. */
  function IntText(n: int): string {
    if n < 0 then ['-'] + NatText(-n) else NatText(n)
  }

  /** The number read from the longest run of digits at the front, added to acc. */
  function ReadDigits(s: string, acc: nat): nat {
    if s == [] || !IsDigit(s[0]) then acc
    else ReadDigits(s[1..], 10 * acc + (s[0] as int - '0' as int))
  }

  predicate IsSpace(c: char) {
    c == ' ' || '\t' <= c <= '\r'
  }

  function SkipSpaces(s: string): string {
    if s != [] && IsSpace(s[0]) then SkipSpaces(s[1..]) else s
  }

  /** std::stoll: blanks, a sign, then at least one digit; what follows is ignored.  None
      stands for the exceptions it throws. */
  function ParseInt(s: string): Option<int> {
    var t := SkipSpaces(s);
    var neg := t != [] && t[0] == '-';
    var u := if t != [] && (t[0] == '-' || t[0] == '+') then t[1..] else t;
    if u == [] || !IsDigit(u[0]) then None
    else
      var m: int := ReadDigits(u, 0);
      var n := if neg then -m else m;
      if FitsInt64(n) then Some(n) else None
  }

  lemma {:induction false} ReadDigitsSnoc(s: string, d: nat, acc: nat)
    requires d < 10 && forall i :: 0 <= i < |s| ==> IsDigit(s[i])
    ensures ReadDigits(s + [DigitChar(d)], acc) == 10 * ReadDigits(s, acc) + d
  {
    if s == [] {
      assert (s + [DigitChar(d)])[1..] == [];
    } else {
      assert (s + [DigitChar(d)])[1..] == s[1..] + [DigitChar(d)];
      ReadDigitsSnoc(s[1..], d, 10 * acc + (s[0] as int - '0' as int));
    }
  }

  lemma {:induction false} ReadNatText(n: nat)
    ensures ReadDigits(NatText(n), 0) == n
  {
    if n < 10 {
      assert NatText(n)[1..] == [];
    } else {
      ReadNatText(n / 10);
      ReadDigitsSnoc(NatText(n / 10), n % 10, 0);
    }
  }

  /** Every 64-bit integer reads back from its own decimal text. */
  lemma {:induction false} ParseIntText(n: int)
    requires FitsInt64(n)
    ensures ParseInt(IntText(n)) == Some(n)
  {
    ReadNatText(if n < 0 then -n else n);
    if n < 0 {
      assert IntText(n)[1..] == NatText(-n);
    }
  }

  lemma {:induction false} IntTextChars(n: int)
    ensures IntText(n) != [] && forall c :: c in IntText(n) ==> IsDigit(c) || c == '-'
  {}

  // ---------- Readings of a value ----------

  /** static_cast<int64_t>: towards zero. */
  function Truncate(x: real): int {
    if x < 0.0 then -((-x).Floor) else x.Floor
  }

  /** Value::getInt; None when the text has no integer in front. */
  function GetInt(v: Value): Option<int> {
    match v
    case Null(_) => Some(0)
    case Datum(_, I(n)) => Some(n)
    case Datum(_, D(x)) => Some(Truncate(x))
    case Datum(_, S(s)) => ParseInt(s)
  }

  function GetDouble(v: Value, text: Text): Option<real> {
    match v
    case Null(_) => Some(0.0)
    case Datum(_, I(n)) => Some(n as real)
    case Datum(_, D(x)) => Some(x)
    case Datum(_, S(s)) => text.toReal(s)
  }

  function GetString(v: Value, text: Text): string {
    match v
    case Null(_) => "NULL"
    case Datum(_, I(n)) => IntText(n)
    case Datum(_, D(x)) => text.ofReal(x)
    case Datum(_, S(s)) => s
  }

  function LowerChar(c: char): char {
    if 'A' <= c <= 'Z' then (c as int + 32) as char else c
  }

  function Lower(s: string): string {
    seq(|s|, i requires 0 <= i < |s| => LowerChar(s[i]))
  }

  function GetBool(v: Value): bool {
    match v
    case Null(_) => false
    case Datum(_, I(n)) => n != 0
    case Datum(_, D(x)) => x != 0.0
    case Datum(_, S(s)) => Lower(s) == "true" || Lower(s) == "1" || Lower(s) == "yes"
  }

  // ---------- Comparison ----------

  /** std::string::compare, up to its sign. */
  function CompareText(a: string, b: string): int {
    if a == [] && b == [] then 0
    else if a == [] then -1
    else if b == [] then 1
    else if a[0] < b[0] then -1
    else if a[0] > b[0] then 1
    else CompareText(a[1..], b[1..])
  }

  function CompareReal(a: real, b: real): int {
    if a < b then -1 else if a > b then 1 else 0
  }

  /** Value::compareTo, up to its sign; None when a numeric reading of text throws. */
  function CompareTo(v: Value, w: Value, text: Text): Option<int> {
    if v.Null? then Some(if w.Null? then 0 else -1)
    else if w.Null? then Some(1)
    else if IsNumeric(v.ty) && IsNumeric(w.ty) then
      match (GetDouble(v, text), GetDouble(w, text))
      case (Some(a), Some(b)) => Some(CompareReal(a, b))
      case _ => None
    else Some(CompareText(GetString(v, text), GetString(w, text)))
  }

  lemma {:induction false} CompareTextAntisymmetric(a: string, b: string)
    ensures CompareText(a, b) == -CompareText(b, a)
    ensures CompareText(a, b) == 0 <==> a == b
  {
    if a != [] && b != [] && a[0] == b[0] {
      CompareTextAntisymmetric(a[1..], b[1..]);
      assert a == [a[0]] + a[1..] && b == [b[0]] + b[1..];
    }
  }

  lemma {:induction false} CompareTextTransitive(a: string, b: string, c: string)
    requires CompareText(a, b) <= 0 && CompareText(b, c) <= 0
    ensures CompareText(a, c) <= 0
    ensures CompareText(a, b) < 0 || CompareText(b, c) < 0 ==> CompareText(a, c) < 0
  {
    if a != [] && b != [] && c != [] && a[0] == b[0] == c[0] {
      CompareTextTransitive(a[1..], b[1..], c[1..]);
    }
  }

  // ---------- Values of one kind ----------

  datatype Kind = Numbers | Texts

  /** NULL, or a value that compares as the kind does: as a number that can be read, or as text. */
  predicate OfKind(v: Value, kind: Kind, text: Text) {
    v.Datum? ==>
      match kind
      case Numbers => IsNumeric(v.ty) && GetDouble(v, text).Some?
      case Texts => !IsNumeric(v.ty)
  }

  lemma {:induction false} CompareFlips(a: Value, b: Value, kind: Kind, text: Text)
    requires a.Datum? && b.Datum? && OfKind(a, kind, text) && OfKind(b, kind, text)
    ensures CompareTo(a, b, text).Some? && CompareTo(b, a, text).Some?
    ensures CompareTo(a, b, text).value == -CompareTo(b, a, text).value
  {
    CompareTextAntisymmetric(GetString(a, text), GetString(b, text));
  }

  lemma {:induction false} CompareChains(a: Value, b: Value, c: Value, kind: Kind, text: Text)
    requires a.Datum? && b.Datum? && c.Datum?
    requires OfKind(a, kind, text) && OfKind(b, kind, text) && OfKind(c, kind, text)
    ensures CompareTo(a, b, text).Some? && CompareTo(b, c, text).Some? && CompareTo(a, c, text).Some?
    ensures CompareTo(a, b, text).value <= 0 && CompareTo(b, c, text).value <= 0 ==>
      && CompareTo(a, c, text).value <= 0
      && (CompareTo(a, b, text).value < 0 || CompareTo(b, c, text).value < 0 ==> CompareTo(a, c, text).value < 0)
  {
    if kind.Texts? {
      var x, y, z := GetString(a, text), GetString(b, text), GetString(c, text);
      if CompareText(x, y) <= 0 && CompareText(y, z) <= 0 {
        CompareTextTransitive(x, y, z);
      }
    }
  }
}
