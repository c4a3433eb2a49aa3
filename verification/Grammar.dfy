/** The expression grammar: what recursive descent over tokens computes, and the token list an
    expression is written with. */
module Grammar {
  import opened Values
  import opened Expressions

  /** A token.  Nested stands for a whole SELECT statement. */
  datatype Token =
    | Keyword(text: string)
    | Identifier(text: string)
    | IntLiteral(number: nat)
    | FloatLiteral(amount: real)
    | StringLiteral(text: string)
    | Operator(text: string)
    | Nested(query: Query)
    | LeftParen
    | RightParen
    | Comma
    | Dot
    | Other

  /** A parse gives a value and the tokens that follow it, or fails. */
  datatype Parsed<T> = Ok(value: T, rest: seq<Token>) | Fail

  // The levels of the grammar, loosest first.
  const OR_LEVEL := 0
  const AND_LEVEL := 1
  const NOT_LEVEL := 2
  const MEMBER_LEVEL := 3
  const COMPARE_LEVEL := 4
  const ADD_LEVEL := 5
  const MULTIPLY_LEVEL := 6
  const SIGN_LEVEL := 7
  const PRIMARY_LEVEL := 8

  type Level = n: nat | n <= 8

  const INT_MAX := 2147483647

  predicate At(ts: seq<Token>, t: Token) {
    ts != [] && ts[0] == t
  }

  /** The levels whose operators chain in a loop. */
  predicate Chains(level: Level) {
    level == OR_LEVEL || level == AND_LEVEL || level == COMPARE_LEVEL || level == ADD_LEVEL
    || level == MULTIPLY_LEVEL
  }

  predicate Joins(level: Level, t: Token) {
    if level == OR_LEVEL then t == Keyword("OR")
    else if level == AND_LEVEL then t == Keyword("AND")
    else if level == COMPARE_LEVEL then
      t.Operator? && (t.text == "=" || t.text == "<>" || t.text == "!=" || t.text == "<"
                      || t.text == ">" || t.text == "<=" || t.text == ">=")
    else if level == ADD_LEVEL then t.Operator? && (t.text == "+" || t.text == "-")
    else if level == MULTIPLY_LEVEL then
      t.Operator? && (t.text == "*" || t.text == "/" || t.text == "%")
    else false
  }

  /** The token that makes the NOT and the sign level take an operand of their own level. */
  predicate Prefixes(level: Level, t: Token) {
    if level == NOT_LEVEL then t == Keyword("NOT")
    else if level == SIGN_LEVEL then t.Operator? && (t.text == "-" || t.text == "+")
    else false
  }

  // ---------- Parsing ----------

  function Parse(level: Level, ts: seq<Token>): (r: Parsed<Expr>)
    ensures r.Ok? ==> |r.rest| < |ts|
    decreases |ts|, 9 - level
  {
    if level == PRIMARY_LEVEL then ParsePrimary(ts)
    else if level == NOT_LEVEL || level == SIGN_LEVEL then
      if ts != [] && Prefixes(level, ts[0]) then
        match Parse(level, ts[1..])
        case Fail => Fail
        case Ok(x, rest) => Ok(Un(ts[0].text, x), rest)
      else Parse(level + 1, ts)
    else
      match Parse(level + 1, ts)
      case Fail => Fail
      case Ok(left, rest) =>
        if level == MEMBER_LEVEL then Member(left, rest) else Chain(level, left, rest)
  }

  /** The loop of a level: take operators of this level, grouping to the left. */
  function Chain(level: Level, left: Expr, ts: seq<Token>): (r: Parsed<Expr>)
    requires Chains(level)
    ensures r.Ok? ==> |r.rest| <= |ts|
    decreases |ts|, 9
  {
    if ts == [] || !Joins(level, ts[0]) then Ok(left, ts)
    else
      match Parse(level + 1, ts[1..])
      case Fail => Fail
      case Ok(right, rest) => Chain(level, Bin(left, ts[0].text, right), rest)
  }

  /** What may follow a comparison: at most one of IN, NOT IN, EXISTS and NOT EXISTS.  The
      keyword is dropped when no parenthesis follows it, and a NOT when neither keyword does. */
  function Member(left: Expr, ts: seq<Token>): (r: Parsed<Expr>)
    ensures r.Ok? ==> |r.rest| <= |ts|
  {
    if At(ts, Keyword("IN")) then
      if |ts| > 2 && ts[1] == LeftParen && ts[2].Nested? then
        Closed(InSub(left, ts[2].query, false), ts[3..])
      else if |ts| > 1 && ts[1] == LeftParen then Fail
      else Ok(left, ts[1..])
    else if At(ts, Keyword("NOT")) then
      var after := ts[1..];
      if At(after, Keyword("IN")) then
        if |after| > 2 && after[1] == LeftParen && after[2].Nested? then
          Closed(InSub(left, after[2].query, true), after[3..])
        else Ok(left, SkipParen(after[1..]))
      else if At(after, Keyword("EXISTS")) then MemberExists(left, after[1..], true)
      else Ok(left, after)
    else if At(ts, Keyword("EXISTS")) then MemberExists(left, ts[1..], false)
    else Ok(left, ts)
  }

  /** What follows EXISTS; the expression before it is lost. */
  function MemberExists(left: Expr, ts: seq<Token>, notExists: bool): (r: Parsed<Expr>)
    ensures r.Ok? ==> |r.rest| <= |ts|
  {
    if |ts| > 1 && ts[0] == LeftParen && ts[1].Nested? then
      Closed(Exists(ts[1].query, notExists), ts[2..])
    else Ok(left, SkipParen(ts))
  }

  function SkipParen(ts: seq<Token>): (rest: seq<Token>)
    ensures |rest| <= |ts|
  {
    if At(ts, LeftParen) then ts[1..] else ts
  }

  function Closed(e: Expr, ts: seq<Token>): (r: Parsed<Expr>)
    ensures r.Ok? ==> |r.rest| < |ts|
  {
    if At(ts, RightParen) then Ok(e, ts[1..]) else Fail
  }

  function ParsePrimary(ts: seq<Token>): (r: Parsed<Expr>)
    ensures r.Ok? ==> |r.rest| < |ts|
    decreases |ts|, 0
  {
    if ts == [] then Fail
    else
      match ts[0]
      case IntLiteral(n) => if n > INT_MAX then Fail else Ok(Lit(IntValue(n)), ts[1..])
      case FloatLiteral(x) => Ok(Lit(DoubleValue(x)), ts[1..])
      case StringLiteral(s) => Ok(Lit(StringValue(s)), ts[1..])
      case Operator(op) => if op == "*" then Ok(Lit(StringValue("*")), ts[1..]) else Fail
      case Identifier(name) =>
        if At(ts[1..], LeftParen) then
          (match ParseArguments(ts[2..])
           case Fail => Fail
           case Ok(args, rest) => Closed(Call(name, args), rest))
        else if At(ts[1..], Dot) then
          if |ts| > 2 && (ts[2].Identifier? || ts[2].Keyword?) then Ok(Col(name, ts[2].text), ts[3..])
          else Fail
        else Ok(Col("", name), ts[1..])
      case LeftParen =>
        (match Parse(OR_LEVEL, ts[1..])
         case Fail => Fail
         case Ok(e, rest) => Closed(e, rest))
      case _ => Fail
  }

  function ParseArguments(ts: seq<Token>): (r: Parsed<seq<Expr>>)
    ensures r.Ok? ==> |r.rest| <= |ts|
    decreases |ts|, 11
  {
    if At(ts, RightParen) then Ok([], ts)
    else
      match Parse(OR_LEVEL, ts)
      case Fail => Fail
      case Ok(e, rest) => MoreArguments([e], rest)
  }

  /** The loop over the arguments after the first. */
  function MoreArguments(done: seq<Expr>, ts: seq<Token>): (r: Parsed<seq<Expr>>)
    ensures r.Ok? ==> |r.rest| <= |ts|
    decreases |ts|, 10
  {
    if !At(ts, Comma) then Ok(done, ts)
    else
      match Parse(OR_LEVEL, ts[1..])
      case Fail => Fail
      case Ok(e, rest) => MoreArguments(done + [e], rest)
  }

  // ---------- Writing ----------

  /** The trees the grammar can write: see GrammarLaws.WritableIffParsed. */
  predicate Writable(e: Expr) {
    match e
    case Lit(Datum(INT, I(n))) => 0 <= n <= INT_MAX
    case Lit(Datum(DOUBLE, D(_))) => true
    case Lit(Datum(VARCHAR, S(_))) => true
    case Lit(_) => false
    case Col(_, _) => true
    case Bin(l, op, r) => BinaryLevel(op).Some? && Writable(l) && Writable(r)
    case Un(op, x) => (op == "NOT" || op == "-" || op == "+") && Writable(x)
    case Call(_, args) => forall i :: 0 <= i < |args| ==> Writable(args[i])
    case InSub(l, _, _) => Writable(l)
    case Exists(_, _) => true
  }

  function BinaryToken(op: string): Token {
    if op == "OR" || op == "AND" then Keyword(op) else Operator(op)
  }

  /** The level whose loop takes this operator. */
  function BinaryLevel(op: string): (l: Option<Level>)
    ensures l.Some? ==> Chains(l.value) && Joins(l.value, BinaryToken(op))
  {
    if op == "OR" then Some(OR_LEVEL)
    else if op == "AND" then Some(AND_LEVEL)
    else if Joins(COMPARE_LEVEL, Operator(op)) then Some(COMPARE_LEVEL)
    else if Joins(ADD_LEVEL, Operator(op)) then Some(ADD_LEVEL)
    else if Joins(MULTIPLY_LEVEL, Operator(op)) then Some(MULTIPLY_LEVEL)
    else None
  }

  function LevelOf(e: Expr): Level
    requires Writable(e)
  {
    match e
    case Bin(_, op, _) => BinaryLevel(op).value
    case Un(op, _) => if op == "NOT" then NOT_LEVEL else SIGN_LEVEL
    case InSub(_, _, _) => MEMBER_LEVEL
    case Exists(_, _) => MEMBER_LEVEL
    case _ => PRIMARY_LEVEL
  }

  /** The tokens of e where the grammar expects the given level: parentheses only around a tree
      that binds more loosely. */
  function Write(e: Expr, level: Level): seq<Token>
    requires Writable(e)
    decreases e, 2
  {
    if LevelOf(e) < level then [LeftParen] + WriteBare(e) + [RightParen] else WriteBare(e)
  }

  function WriteBare(e: Expr): seq<Token>
    requires Writable(e)
    decreases e, 1
  {
    match e
    case Lit(v) => [LiteralToken(v)]
    case Col(table, column) =>
      if table == "" then [Identifier(column)] else [Identifier(table), Dot, Identifier(column)]
    case Bin(l, op, r) =>
      var level := BinaryLevel(op).value;
      Write(l, level) + [BinaryToken(op)] + Write(r, level + 1)
    case Un(op, x) =>
      if op == "NOT" then [Keyword(op)] + Write(x, NOT_LEVEL)
      else [Operator(op)] + Write(x, SIGN_LEVEL)
    case Call(name, args) =>
      [Identifier(name), LeftParen] + WriteArguments(args) + [RightParen]
    case InSub(l, query, notIn) =>
      Write(l, COMPARE_LEVEL) + (if notIn then [Keyword("NOT")] else [])
      + [Keyword("IN"), LeftParen, Nested(query), RightParen]
    case Exists(query, notExists) =>
      // EXISTS is only read after some expression, which is then lost.
      [IntLiteral(0)] + (if notExists then [Keyword("NOT")] else [])
      + [Keyword("EXISTS"), LeftParen, Nested(query), RightParen]
  }

  function LiteralToken(v: Value): Token
    requires Writable(Lit(v))
  {
    match v.p
    case I(n) => IntLiteral(n)
    case D(x) => FloatLiteral(x)
    case S(s) => StringLiteral(s)
  }

  function WriteArguments(args: seq<Expr>): seq<Token>
    requires forall i :: 0 <= i < |args| ==> Writable(args[i])
    decreases args, 0
  {
    if args == [] then [] else Write(args[0], OR_LEVEL) + WriteMore(args[1..])
  }

  function WriteMore(args: seq<Expr>): seq<Token>
    requires forall i :: 0 <= i < |args| ==> Writable(args[i])
    decreases args, 0
  {
    if args == [] then [] else [Comma] + Write(args[0], OR_LEVEL) + WriteMore(args[1..])
  }
}
