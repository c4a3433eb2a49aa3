/** Expression trees and their evaluation against one row. */
module Expressions {
  import opened Values

  /** A nested SELECT; what it returns is a parameter of evaluation. */
  datatype Query = Query(id: int)

  datatype Expr =
    | Lit(v: Value)
    | Col(table: string, column: string)
    | Bin(left: Expr, op: string, right: Expr)
    | Un(op: string, operand: Expr)
    | Call(name: string, args: seq<Expr>)
    | InSub(left: Expr, query: Query, notIn: bool)
    | Exists(query: Query, notExists: bool)

  /** What an expression is evaluated in: the columns of the row, library conversions, the
      scalar functions, and the first column of each nested query. */
  datatype Env = Env(
    columns: map<string, Value>,
    text: Text,
    scalar: (string, seq<Value>) -> Option<Value>,
    run: Query -> Option<seq<Value>>)

  predicate IsArithmetic(op: string) {
    op == "+" || op == "-" || op == "*" || op == "/"
  }

  predicate IsComparison(op: string) {
    op == "=" || op == "!=" || op == "<" || op == ">" || op == "<=" || op == ">="
  }

  predicate IsAggregate(name: string) {
    name == "COUNT" || name == "SUM" || name == "AVG" || name == "MAX" || name == "MIN"
  }

  /** Integer division towards zero. */
  function TruncDiv(l: int, r: int): int
    requires r != 0
  {
    var q := (if l < 0 then -l else l) / (if r < 0 then -r else r);
    if (l < 0) == (r < 0) then q else -q
  }

  function AsReal(v: Value, text: Text): Option<real> {
    if v.ty == INT then
      match GetInt(v)
      case None => None
      case Some(n) => Some(n as real)
    else GetDouble(v, text)
  }

  function RealArithmetic(l: real, op: string, r: real): Option<Value> {
    if op == "+" then Some(DoubleValue(l + r))
    else if op == "-" then Some(DoubleValue(l - r))
    else if op == "*" then Some(DoubleValue(l * r))
    else if op == "/" then if r == 0.0 then None else Some(DoubleValue(l / r))
    else Some(DoubleValue(0.0))
  }

  function IntArithmetic(l: int, op: string, r: int): Option<Value> {
    if op == "+" then Some(BigValue(l + r))
    else if op == "-" then Some(BigValue(l - r))
    else if op == "*" then Some(BigValue(l * r))
    else if op == "/" then if r == 0 then None else Some(BigValue(TruncDiv(l, r)))
    else Some(BigValue(0))
  }

  /** NULL if either side is; DOUBLE as soon as one side is; otherwise on integers. */
  function Arithmetic(l: Value, op: string, r: Value, text: Text): Option<Value> {
    if l.Null? || r.Null? then Some(NULL)
    else if l.ty == DOUBLE || r.ty == DOUBLE then
      match (AsReal(l, text), AsReal(r, text))
      case (Some(a), Some(b)) => RealArithmetic(a, op, b)
      case _ => None
    else
      match (GetInt(l), GetInt(r))
      case (Some(a), Some(b)) => IntArithmetic(a, op, b)
      case _ => None
  }

  /** NULL counts as false. */
  function Logical(l: Value, op: string, r: Value): Value {
    BoolValue(if op == "AND" then GetBool(l) && GetBool(r)
              else if op == "OR" then GetBool(l) || GetBool(r)
              else false)
  }

  function Comparison(l: Value, op: string, r: Value, text: Text): Option<Value> {
    if l.Null? || r.Null? then Some(NULL)
    else
      match CompareTo(l, r, text)
      case None => None
      case Some(c) =>
        Some(BoolValue(if op == "=" then c == 0 else if op == "!=" then c != 0
                       else if op == "<" then c < 0 else if op == ">" then c > 0
                       else if op == "<=" then c <= 0 else if op == ">=" then c >= 0
                       else false))
  }

  function Binary(l: Value, op: string, r: Value, text: Text): Option<Value> {
    if IsArithmetic(op) then Arithmetic(l, op, r, text)
    else if op == "AND" || op == "OR" then Some(Logical(l, op, r))
    else if IsComparison(op) then Comparison(l, op, r, text)
    else None
  }

  function Unary(op: string, v: Value, text: Text): Option<Value> {
    if op == "NOT" then
      if v.Null? then Some(NULL) else Some(BoolValue(!GetBool(v)))
    else if op == "-" then
      if v.Null? then Some(NULL)
      else if v.ty == INT then
        match GetInt(v)
        case None => None
        case Some(n) => Some(BigValue(-n))
      else if v.ty == DOUBLE then
        match GetDouble(v, text)
        case None => None
        case Some(x) => Some(DoubleValue(-x))
      else None
    else None
  }

  function ColumnValue(table: string, column: string, env: Env): Option<Value> {
    var qualified := if table == "" then column else table + "." + column;
    if qualified in env.columns then Some(env.columns[qualified])
    else if column in env.columns then Some(env.columns[column])
    else None
  }

  /** Whether v equals one of vs, looking from the front until it does. */
  function Among(v: Value, vs: seq<Value>, text: Text): Option<bool> {
    if vs == [] then Some(false)
    else
      match CompareTo(v, vs[0], text)
      case None => None
      case Some(c) => if c == 0 then Some(true) else Among(v, vs[1..], text)
  }

  /** Both operands of every operator are evaluated.  None stands for an error result or a
      thrown exception. */
  function Eval(e: Expr, env: Env): Option<Value>
    decreases e, 1
  {
    match e
    case Lit(v) => Some(v)
    case Col(table, column) => ColumnValue(table, column, env)
    case Bin(l, op, r) =>
      (match (Eval(l, env), Eval(r, env))
       case (Some(a), Some(b)) => Binary(a, op, b, env.text)
       case _ => None)
    case Un(op, x) =>
      (match Eval(x, env)
       case None => None
       case Some(v) => Unary(op, v, env.text))
    case Call(name, args) =>
      (match EvalAll(args, env)
       case None => None
       case Some(vs) => if IsAggregate(name) then None else env.scalar(name, vs))
    case InSub(l, query, notIn) =>
      (match (Eval(l, env), env.run(query))
       case (Some(v), Some(vs)) =>
         (match Among(v, vs, env.text)
          case None => None
          case Some(found) => Some(BoolValue(found != notIn)))
       case _ => None)
    case Exists(query, notExists) =>
      (match env.run(query)
       case None => None
       case Some(vs) => Some(BoolValue((vs != []) != notExists)))
  }

  function EvalAll(es: seq<Expr>, env: Env): Option<seq<Value>>
    decreases es, 0
  {
    if es == [] then Some([])
    else
      match (Eval(es[0], env), EvalAll(es[1..], env))
      case (Some(v), Some(vs)) => Some([v] + vs)
      case _ => None
  }

  /** The truth test a WHERE or ON result goes through: not NULL and true. */
  predicate Truth(v: Value) {
    v.Datum? && GetBool(v)
  }

  /** What a condition says about one row. */
  datatype Verdict = Keep | Drop | Fails

  function Judge(e: Expr, env: Env): Verdict {
    match Eval(e, env)
    case None => Fails
    case Some(v) => if Truth(v) then Keep else Drop
  }

  // ---------- Printing ----------

  /** The text toString gives: no quotes around strings, no blank after a prefix operator,
      and every nested query alike. */
  function Print(e: Expr, text: Text): string
    decreases e, 1
  {
    match e
    case Lit(v) => GetString(v, text)
    case Col(table, column) => if table == "" then column else table + "." + column
    case Bin(l, op, r) => "(" + Print(l, text) + " " + op + " " + Print(r, text) + ")"
    case Un(op, x) => op + Print(x, text)
    case Call(name, args) => name + "(" + PrintArgs(args, text) + ")"
    case InSub(l, _, notIn) => Print(l, text) + " " + (if notIn then "NOT IN" else "IN") + " (SELECT ...)"
    case Exists(_, notExists) => (if notExists then "NOT EXISTS" else "EXISTS") + " (SELECT ...)"
  }

  function PrintArgs(es: seq<Expr>, text: Text): string
    decreases es, 0
  {
    if es == [] then ""
    else if |es| == 1 then Print(es[0], text)
    else Print(es[0], text) + ", " + PrintArgs(es[1..], text)
  }
}
