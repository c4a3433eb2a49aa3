/** The query rewriter's passes over a WHERE expression, and what they preserve of its
    meaning under the engine's own NULL rules. */
module Rewriter {
  import opened Values
  import opened Expressions

  function UpperChar(c: char): char {
    if 'a' <= c <= 'z' then (c as int - 32) as char else c
  }

  function Upper(s: string): string {
    seq(|s|, i requires 0 <= i < |s| => UpperChar(s[i]))
  }

  predicate AlwaysTrue(e: Expr) {
    e.Lit? && GetBool(e.v)
  }

  predicate AlwaysFalse(e: Expr) {
    e.Lit? && !GetBool(e.v)
  }

  // ---------- Redundant conditions ----------

  function JoinAnd(l: Expr, op: string, r: Expr, text: Text): Expr {
    if AlwaysFalse(l) || AlwaysFalse(r) then Lit(BoolValue(false))
    else if AlwaysTrue(l) then r
    else if AlwaysTrue(r) then l
    else if Print(l, text) == Print(r, text) then l
    else Bin(l, op, r)
  }

  function JoinOr(l: Expr, op: string, r: Expr, text: Text): Expr {
    if AlwaysTrue(l) || AlwaysTrue(r) then Lit(BoolValue(true))
    else if AlwaysFalse(l) then r
    else if AlwaysFalse(r) then l
    else if Print(l, text) == Print(r, text) then l
    else Bin(l, op, r)
  }

  /** eliminateRedundantConditions: down the AND/OR spine only. */
  function Eliminate(e: Expr, text: Text): Expr {
    match e
    case Bin(l, op, r) =>
      if Upper(op) == "AND" then JoinAnd(Eliminate(l, text), op, Eliminate(r, text), text)
      else if Upper(op) == "OR" then JoinOr(Eliminate(l, text), op, Eliminate(r, text), text)
      else e
    case _ => e
  }

  // ---------- Constant folding ----------

  function FoldNumbers(l: Value, op: string, r: Value): Option<Value> {
    if op == "/" then
      match GetInt(r)
      case None => None
      case Some(b) =>
        if b == 0 then Some(NULL)
        else
          match GetInt(l)
          case None => None
          case Some(a) => Some(BigValue(TruncDiv(a, b)))
    else
      match (GetInt(l), GetInt(r))
      case (Some(a), Some(b)) =>
        Some(BigValue(if op == "+" then a + b else if op == "-" then a - b else a * b))
      case _ => None
  }

  /** The literal a folded node becomes, or the node on its folded operands. */
  function FoldPair(l: Expr, op: string, r: Expr): Expr {
    if l.Lit? && r.Lit? && IsArithmetic(Upper(op)) && IsNumeric(l.v.ty) && IsNumeric(r.v.ty) then
      match FoldNumbers(l.v, Upper(op), r.v)
      case Some(v) => Lit(v)
      case None => Bin(l, op, r)
    else Bin(l, op, r)
  }

  /** foldConstants: under binary and prefix operators. */
  function Fold(e: Expr): Expr {
    match e
    case Bin(l, op, r) => FoldPair(Fold(l), op, Fold(r))
    case Un(op, x) => Un(op, Fold(x))
    case _ => e
  }

  // ---------- Simplification and the whole rewrite ----------

  function Simplify(e: Expr): Expr {
    match e
    case Bin(l, op, r) =>
      if Upper(op) == "AND" || Upper(op) == "OR" then Bin(Simplify(l), op, Simplify(r)) else e
    case _ => e
  }

  function Rewrite(e: Expr, text: Text): Expr {
    Simplify(Fold(Eliminate(e, text)))
  }

  // ---------- What each pass preserves ----------

  /** Where two sides of the spine are merged because they print alike, they are equal. */
  predicate PrintsApart(e: Expr, text: Text) {
    match e
    case Bin(l, op, r) =>
      Upper(op) == "AND" || Upper(op) == "OR" ==>
        && PrintsApart(l, text) && PrintsApart(r, text)
        && var l', r' := Eliminate(l, text), Eliminate(r, text);
           (!l'.Lit? && !r'.Lit? && Print(l', text) == Print(r', text) ==> l' == r')
    case _ => true
  }

  lemma {:induction false} UpperOfOperator(op: string)
    ensures op == "AND" ==> Upper(op) == "AND"
    ensures op == "OR" ==> Upper(op) == "OR"
    ensures IsArithmetic(op) ==> Upper(op) == op
  {
    assert Upper("AND") == "AND" && Upper("OR") == "OR";
    assert Upper("+") == "+" && Upper("-") == "-" && Upper("*") == "*" && Upper("/") == "/";
  }

  /** Letter by letter the word in capitals, each in either case. */
  predicate InAnyCase(s: string, word: string) {
    |s| == |word| && forall i :: 0 <= i < |s| ==> s[i] == word[i] || s[i] as int == word[i] as int + 32
  }

  /** The passes take an operator for AND or OR in whatever case it is written. */
  lemma {:induction false} SpineOperatorsInAnyCase(op: string)
    ensures Upper(op) == "AND" <==> InAnyCase(op, "AND")
    ensures Upper(op) == "OR" <==> InAnyCase(op, "OR")
  {
    UpperIsInAnyCase(op, "AND");
    UpperIsInAnyCase(op, "OR");
  }

  lemma {:induction false} UpperIsInAnyCase(s: string, word: string)
    requires forall i :: 0 <= i < |word| ==> 'A' <= word[i] <= 'Z'
    ensures Upper(s) == word <==> InAnyCase(s, word)
  {
    assert |Upper(s)| == |s|;
    assert forall i :: 0 <= i < |s| ==> Upper(s)[i] == UpperChar(s[i]);
    if |s| == |word| {
      forall i | 0 <= i < |s|
        ensures (s[i] == word[i] || s[i] as int == word[i] as int + 32) <==> UpperChar(s[i]) == word[i]
      {
      }
    }
  }

  lemma {:induction false} NotUpper()
    ensures !IsArithmetic("AND") && !IsArithmetic("OR")
  {}

  /** An operator that evaluates and reads AND or OR in capitals is AND or OR. */
  lemma {:induction false} SpineOperator(op: string, l: Value, r: Value, text: Text)
    requires Binary(l, op, r, text).Some? && (Upper(op) == "AND" || Upper(op) == "OR")
    ensures op == Upper(op)
  {
    UpperOfOperator(op);
    assert Upper("=") == "=" && Upper("!=") == "!=" && Upper("<") == "<";
    assert Upper(">") == ">" && Upper("<=") == "<=" && Upper(">=") == ">=";
  }

  lemma {:induction false} BoolTruth(b: bool)
    ensures Truth(BoolValue(b)) == b
  {
    assert Lower("true") == "true" && Lower("false") == "false";
  }

  lemma {:induction false} SpineEvaluates(l: Expr, op: string, r: Expr, env: Env)
    requires Eval(l, env).Some? && Eval(r, env).Some? && (op == "AND" || op == "OR")
    ensures Eval(Bin(l, op, r), env).Some?
  {
    NotUpper();
  }

  lemma {:induction false} JoinAndTruth(l: Expr, r: Expr, env: Env)
    requires Eval(l, env).Some? && Eval(r, env).Some?
    requires !l.Lit? && !r.Lit? && Print(l, env.text) == Print(r, env.text) ==> l == r
    ensures Judge(JoinAnd(l, "AND", r, env.text), env)
         == if Truth(Eval(l, env).value) && Truth(Eval(r, env).value) then Keep else Drop
  {
    BoolTruth(true);
    BoolTruth(false);
    if JoinAnd(l, "AND", r, env.text) == Bin(l, "AND", r) {
      SpineEvaluates(l, "AND", r, env);
      SpineTruth(l, "AND", r, env);
    }
  }

  lemma {:induction false} JoinOrTruth(l: Expr, r: Expr, env: Env)
    requires Eval(l, env).Some? && Eval(r, env).Some?
    requires !l.Lit? && !r.Lit? && Print(l, env.text) == Print(r, env.text) ==> l == r
    ensures Judge(JoinOr(l, "OR", r, env.text), env)
         == if Truth(Eval(l, env).value) || Truth(Eval(r, env).value) then Keep else Drop
  {
    BoolTruth(true);
    BoolTruth(false);
    if JoinOr(l, "OR", r, env.text) == Bin(l, "OR", r) {
      SpineEvaluates(l, "OR", r, env);
      SpineTruth(l, "OR", r, env);
    }
  }

  lemma {:induction false} SpineTruth(l: Expr, op: string, r: Expr, env: Env)
    requires Eval(Bin(l, op, r), env).Some? && (op == "AND" || op == "OR")
    ensures Eval(l, env).Some? && Eval(r, env).Some?
    ensures var a, b := Truth(Eval(l, env).value), Truth(Eval(r, env).value);
      Judge(Bin(l, op, r), env) == if (if op == "AND" then a && b else a || b) then Keep else Drop
  {
    BoolTruth(true);
    BoolTruth(false);
    NotUpper();
  }

  /** On every row on which the condition evaluates, the reduced one evaluates too and is
      true exactly when the condition is. */
  lemma {:induction false} EliminateKeepsTruth(e: Expr, env: Env)
    requires Eval(e, env).Some? && PrintsApart(e, env.text)
    ensures Judge(Eliminate(e, env.text), env) == Judge(e, env)
  {
    if e.Bin? && (Upper(e.op) == "AND" || Upper(e.op) == "OR") {
      EliminateKeepsTruth(e.left, env);
      EliminateKeepsTruth(e.right, env);
      SpineOperator(e.op, Eval(e.left, env).value, Eval(e.right, env).value, env.text);
      SpineTruth(e.left, e.op, e.right, env);
      if e.op == "AND" {
        JoinAndTruth(Eliminate(e.left, env.text), Eliminate(e.right, env.text), env);
      } else {
        JoinOrTruth(Eliminate(e.left, env.text), Eliminate(e.right, env.text), env);
      }
    }
  }

  /** Reducing keeps the truth of the condition in every environment in which it evaluates. */
  ghost predicate KeepsTruth(e: Expr, text: Text) {
    forall env: Env | env.text == text && Eval(e, env).Some? :: Judge(Eliminate(e, text), env) == Judge(e, env)
  }

  /** Two IN conditions on one literal print alike, whatever their nested queries are. */
  function TwoIns(v: Value, op: string, q: Query, q': Query, notIn: bool): Expr {
    Bin(InSub(Lit(v), q, notIn), op, InSub(Lit(v), q', notIn))
  }

  lemma {:induction false} TwoInsJoin(v: Value, op: string, q: Query, q': Query, notIn: bool, text: Text)
    requires op == "AND" || op == "OR"
    ensures Eliminate(TwoIns(v, op, q, q', notIn), text) == InSub(Lit(v), q, notIn)
  {
    UpperOfOperator(op);
    var l, r := InSub(Lit(v), q, notIn), InSub(Lit(v), q', notIn);
    assert Eliminate(l, text) == l && Eliminate(r, text) == r && Print(l, text) == Print(r, text);
  }

  /** A value that equals v however v is read. */
  function Twin(v: Value, text: Text): Value {
    if v.Null? then NULL else StringValue(GetString(v, text))
  }

  lemma {:induction false} TwinIsAmong(v: Value, text: Text)
    ensures Among(v, [Twin(v, text)], text) == Some(true) && Among(v, [], text) == Some(false)
  {
    CompareTextAntisymmetric(GetString(v, text), GetString(v, text));
  }

  /** Of the nested queries only one finds the literal. */
  function Telling(v: Value, q: Query, text: Text): Env {
    Env(map[], text, (name, args) => None, (query: Query) => Some(if query == q then [Twin(v, text)] else []))
  }

  lemma {:induction false} InTelling(v: Value, q: Query, asked: Query, notIn: bool, text: Text)
    ensures Eval(InSub(Lit(v), asked, notIn), Telling(v, q, text)) == Some(BoolValue((asked == q) != notIn))
    ensures Judge(InSub(Lit(v), asked, notIn), Telling(v, q, text)) == if (asked == q) != notIn then Keep else Drop
  {
    TwinIsAmong(v, text);
    BoolTruth((asked == q) != notIn);
  }

  /** The second of two IN conditions on one literal is dropped because it prints like the first: that
      keeps the truth in every environment exactly when the nested queries are the same. */
  lemma {:induction false} AlikePrintsLoseACondition(v: Value, op: string, q: Query, q': Query, notIn: bool, text: Text)
    requires op == "AND" || op == "OR"
    ensures KeepsTruth(TwoIns(v, op, q, q', notIn), text) <==> q == q'
  {
    var e, l, r := TwoIns(v, op, q, q', notIn), InSub(Lit(v), q, notIn), InSub(Lit(v), q', notIn);
    TwoInsJoin(v, op, q, q', notIn, text);
    if q == q' {
      forall env: Env | env.text == text && Eval(e, env).Some?
        ensures Judge(Eliminate(e, text), env) == Judge(e, env)
      {
        SpineTruth(l, op, r, env);
      }
    } else {
      var env := Telling(v, if (op == "AND") != notIn then q else q', text);
      InTelling(v, if (op == "AND") != notIn then q else q', q, notIn, text);
      InTelling(v, if (op == "AND") != notIn then q else q', q', notIn, text);
      SpineEvaluates(l, op, r, env);
      SpineTruth(l, op, r, env);
      assert Judge(Eliminate(e, text), env) != Judge(e, env);
    }
  }

  // ---------- Shape of the reduced condition ----------

  /** No literal is left as an operand of the spine, and no two operands of one node print
      alike. */
  predicate Reduced(e: Expr, text: Text) {
    match e
    case Bin(l, op, r) =>
      Upper(op) == "AND" || Upper(op) == "OR" ==>
        && Reduced(l, text) && Reduced(r, text) && !l.Lit? && !r.Lit? && Print(l, text) != Print(r, text)
    case _ => true
  }

  lemma {:induction false} EliminateReduces(e: Expr, text: Text)
    ensures Reduced(Eliminate(e, text), text)
  {
    if e.Bin? && (Upper(e.op) == "AND" || Upper(e.op) == "OR") {
      EliminateReduces(e.left, text);
      EliminateReduces(e.right, text);
    }
  }

  lemma {:induction false} ReducedStays(e: Expr, text: Text)
    requires Reduced(e, text)
    ensures Eliminate(e, text) == e
  {
    if e.Bin? && (Upper(e.op) == "AND" || Upper(e.op) == "OR") {
      ReducedStays(e.left, text);
      ReducedStays(e.right, text);
    }
  }

  /** A second pass changes nothing. */
  lemma {:induction false} EliminateIdempotent(e: Expr, text: Text)
    ensures Eliminate(Eliminate(e, text), text) == Eliminate(e, text)
  {
    EliminateReduces(e, text);
    ReducedStays(Eliminate(e, text), text);
  }

  // ---------- Folding ----------

  /** Two numeric literals that folding computes as the evaluator would: both have a value
      and neither is a DOUBLE, whose fraction folding cuts off. */
  predicate FoldsExactly(l: Value, r: Value) {
    l.Datum? && r.Datum? && l.ty != DOUBLE && r.ty != DOUBLE
  }

  /** Every pair of literals that folding computes is one it computes exactly. */
  predicate FoldSafe(e: Expr) {
    match e
    case Bin(l, op, r) =>
      && FoldSafe(l) && FoldSafe(r)
      && var l', r' := Fold(l), Fold(r);
         (l'.Lit? && r'.Lit? && IsArithmetic(Upper(op)) && IsNumeric(l'.v.ty) && IsNumeric(r'.v.ty)
          ==> FoldsExactly(l'.v, r'.v))
    case Un(_, x) => FoldSafe(x)
    case _ => true
  }

  lemma {:induction false} FoldPairExact(l: Expr, op: string, r: Expr, env: Env)
    requires l.Lit? && r.Lit? && FoldsExactly(l.v, r.v)
    requires Eval(Bin(l, op, r), env).Some?
    ensures Eval(FoldPair(l, op, r), env) == Eval(Bin(l, op, r), env)
  {
    UpperOfOperator(op);
    if IsArithmetic(Upper(op)) && !IsArithmetic(op) {
      ArithmeticInCapitals(op);
    }
  }

  lemma {:induction false} ArithmeticInCapitals(op: string)
    requires IsArithmetic(Upper(op))
    ensures op == Upper(op)
  {
    assert |op| == 1 && UpperChar(op[0]) == Upper(op)[0];
    assert op == [op[0]];
  }

  /** Folding keeps the exact value wherever the condition evaluates, under NOT,
      comparisons and arithmetic alike. */
  lemma {:induction false} FoldKeepsValue(e: Expr, env: Env)
    requires Eval(e, env).Some? && FoldSafe(e)
    ensures Eval(Fold(e), env) == Eval(e, env)
  {
    match e
    case Bin(l, op, r) =>
      FoldKeepsValue(l, env);
      FoldKeepsValue(r, env);
      var l', r' := Fold(l), Fold(r);
      assert Eval(Bin(l', op, r'), env) == Eval(e, env);
      if l'.Lit? && r'.Lit? && IsArithmetic(Upper(op)) && IsNumeric(l'.v.ty) && IsNumeric(r'.v.ty) {
        FoldPairExact(l', op, r', env);
      }
    case Un(op, x) => FoldKeepsValue(x, env);
    case _ =>
  }

  predicate NumberLiteral(v: Value) {
    v.Datum? && ((IsInteger(v.ty) && v.p.I?) || (IsReal(v.ty) && v.p.D?))
  }

  /** No operator that folding reaches is left with a number on either side. */
  predicate Folded(e: Expr) {
    match e
    case Bin(l, op, r) =>
      && Folded(l) && Folded(r)
      && !(op in {"+", "-", "*", "/"} && l.Lit? && r.Lit? && NumberLiteral(l.v) && NumberLiteral(r.v))
    case Un(_, x) => Folded(x)
    case _ => true
  }

  /** Folding computes all arithmetic on number literals, however deep below operators. */
  lemma {:induction false} FoldReduces(e: Expr)
    ensures Folded(Fold(e))
  {
    match e
    case Bin(l, op, r) =>
      FoldReduces(l);
      FoldReduces(r);
      UpperOfOperator(op);
    case Un(op, x) => FoldReduces(x);
    case _ =>
  }

  /** Folding makes a literal of an operator exactly if it is arithmetic on two literals of numeric types
      that read as whole numbers, the dividend not being read if the divisor is zero; otherwise it leaves
      the operator on its folded operands. */
  lemma {:induction false} FoldComputesIff(l: Expr, op: string, r: Expr)
    ensures Fold(Bin(l, op, r)).Lit? <==>
      && op in {"+", "-", "*", "/"} && Fold(l).Lit? && Fold(r).Lit?
      && IsNumeric(Fold(l).v.ty) && IsNumeric(Fold(r).v.ty) && GetInt(Fold(r).v).Some?
      && (GetInt(Fold(l).v).Some? || (op == "/" && GetInt(Fold(r).v) == Some(0)))
    ensures Fold(Bin(l, op, r)).Lit? || Fold(Bin(l, op, r)) == Bin(Fold(l), op, Fold(r))
  {
    UpperOfOperator(op);
    if IsArithmetic(Upper(op)) {
      ArithmeticInCapitals(op);
    }
  }

  /** For two number literals under an arithmetic operator, folding keeps the value if and
      only if neither is a DOUBLE. */
  lemma {:induction false} FoldExactIff(l: Value, op: string, r: Value, env: Env)
    requires NumberLiteral(l) && NumberLiteral(r) && IsArithmetic(op)
    requires Eval(Bin(Lit(l), op, Lit(r)), env).Some?
    ensures Eval(Fold(Bin(Lit(l), op, Lit(r))), env) == Eval(Bin(Lit(l), op, Lit(r)), env)
        <==> l.ty != DOUBLE && r.ty != DOUBLE
  {
    UpperOfOperator(op);
    assert Fold(Bin(Lit(l), op, Lit(r))) == FoldPair(Lit(l), op, Lit(r));
    if l.ty != DOUBLE && r.ty != DOUBLE {
      FoldPairExact(Lit(l), op, Lit(r), env);
    }
  }

  /** The number a literal stands for. */
  function Exact(v: Value): real
    requires NumberLiteral(v)
  {
    match v.p
    case I(n) => n as real
    case D(x) => x
  }

  /** The operator on the literals cut to whole numbers gives the same number as on the literals. */
  predicate CutsLevel(l: Value, op: string, r: Value)
    requires NumberLiteral(l) && NumberLiteral(r)
  {
    var a, b := GetInt(l).value, GetInt(r).value;
    var x, y := Exact(l), Exact(r);
    if op == "+" then (a + b) as real == x + y
    else if op == "-" then (a - b) as real == x - y
    else if op == "*" then (a * b) as real == x * y
    else b != 0 && TruncDiv(a, b) as real == x / y
  }

  lemma {:induction false} FoldedNumbers(l: Value, op: string, r: Value, env: Env)
    requires NumberLiteral(l) && NumberLiteral(r) && IsArithmetic(op)
    ensures FoldNumbers(l, op, r).Some?
    ensures Eval(Fold(Bin(Lit(l), op, Lit(r))), env) == FoldNumbers(l, op, r)
  {
    UpperOfOperator(op);
    assert Fold(Bin(Lit(l), op, Lit(r))) == FoldPair(Lit(l), op, Lit(r));
  }

  lemma {:induction false} EvaluatedNumbers(l: Value, op: string, r: Value, env: Env)
    requires NumberLiteral(l) && NumberLiteral(r) && IsArithmetic(op) && (l.ty == DOUBLE || r.ty == DOUBLE)
    ensures Eval(Bin(Lit(l), op, Lit(r)), env) == RealArithmetic(Exact(l), op, Exact(r))
  {
    assert AsReal(l, env.text) == Some(Exact(l)) && AsReal(r, env.text) == Some(Exact(r));
    assert Eval(Lit(l), env) == Some(l) && Eval(Lit(r), env) == Some(r);
  }

  lemma {:induction false} LevelNumbers(n: int, x: real, text: Text)
    ensures CompareTo(BigValue(n), DoubleValue(x), text) == Some(0) <==> n as real == x
    ensures CompareTo(NULL, DoubleValue(x), text) != Some(0)
  {
  }

  lemma {:induction false} SumLevelIff(l: Value, r: Value, text: Text)
    requires NumberLiteral(l) && NumberLiteral(r)
    ensures FoldNumbers(l, "+", r).Some?
    ensures CompareTo(FoldNumbers(l, "+", r).value, DoubleValue(Exact(l) + Exact(r)), text) == Some(0)
       <==> CutsLevel(l, "+", r)
  {
    LevelNumbers(GetInt(l).value + GetInt(r).value, Exact(l) + Exact(r), text);
  }

  lemma {:induction false} DifferenceLevelIff(l: Value, r: Value, text: Text)
    requires NumberLiteral(l) && NumberLiteral(r)
    ensures FoldNumbers(l, "-", r).Some?
    ensures CompareTo(FoldNumbers(l, "-", r).value, DoubleValue(Exact(l) - Exact(r)), text) == Some(0)
       <==> CutsLevel(l, "-", r)
  {
    LevelNumbers(GetInt(l).value - GetInt(r).value, Exact(l) - Exact(r), text);
  }

  lemma {:induction false} ProductLevelIff(l: Value, r: Value, text: Text)
    requires NumberLiteral(l) && NumberLiteral(r)
    ensures FoldNumbers(l, "*", r).Some?
    ensures CompareTo(FoldNumbers(l, "*", r).value, DoubleValue(Exact(l) * Exact(r)), text) == Some(0)
       <==> CutsLevel(l, "*", r)
  {
    FoldedProduct(l, r);
    CutProduct(l, r);
    LevelNumbers(GetInt(l).value * GetInt(r).value, Exact(l) * Exact(r), text);
  }

  lemma {:induction false} FoldedProduct(l: Value, r: Value)
    requires NumberLiteral(l) && NumberLiteral(r)
    ensures FoldNumbers(l, "*", r) == Some(BigValue(GetInt(l).value * GetInt(r).value))
  {
  }

  lemma {:induction false} CutProduct(l: Value, r: Value)
    requires NumberLiteral(l) && NumberLiteral(r)
    ensures CutsLevel(l, "*", r) == ((GetInt(l).value * GetInt(r).value) as real == Exact(l) * Exact(r))
  {
  }

  lemma {:induction false} NumbersLevelIff(l: Value, op: string, r: Value, text: Text)
    requires NumberLiteral(l) && NumberLiteral(r) && IsArithmetic(op)
    requires FoldNumbers(l, op, r).Some? && RealArithmetic(Exact(l), op, Exact(r)).Some?
    ensures CompareTo(FoldNumbers(l, op, r).value, RealArithmetic(Exact(l), op, Exact(r)).value, text) == Some(0)
       <==> CutsLevel(l, op, r)
  {
    if op == "+" {
      SumLevelIff(l, r, text);
    } else if op == "-" {
      DifferenceLevelIff(l, r, text);
    } else if op == "*" {
      ProductLevelIff(l, r, text);
    } else {
      assert op == "/";
      QuotientLevelIff(l, r, text);
    }
  }

  lemma {:induction false} QuotientLevelIff(l: Value, r: Value, text: Text)
    requires NumberLiteral(l) && NumberLiteral(r) && Exact(r) != 0.0
    ensures FoldNumbers(l, "/", r).Some?
    ensures CompareTo(FoldNumbers(l, "/", r).value, DoubleValue(Exact(l) / Exact(r)), text) == Some(0)
       <==> CutsLevel(l, "/", r)
  {
    var a, b := GetInt(l).value, GetInt(r).value;
    var x := Exact(l) / Exact(r);
    if b != 0 {
      LevelNumbers(TruncDiv(a, b), x, text);
    } else {
      LevelNumbers(0, x, text);
    }
  }

  /** With a DOUBLE among them, the folded value compares equal to the evaluated one if and only
      if cutting both literals changes nothing in the result. */
  lemma {:induction false} FoldLevelIff(l: Value, op: string, r: Value, env: Env)
    requires NumberLiteral(l) && NumberLiteral(r) && IsArithmetic(op) && (l.ty == DOUBLE || r.ty == DOUBLE)
    requires Eval(Bin(Lit(l), op, Lit(r)), env).Some?
    ensures var e := Bin(Lit(l), op, Lit(r));
      && Eval(Fold(e), env).Some?
      && (CompareTo(Eval(Fold(e), env).value, Eval(e, env).value, env.text) == Some(0) <==> CutsLevel(l, op, r))
  {
    FoldedNumbers(l, op, r, env);
    EvaluatedNumbers(l, op, r, env);
    NumbersLevelIff(l, op, r, env.text);
  }

  /** WHERE 0.5 + 0.5 = 1 is true of every row and its rewritten form of none. */
  lemma {:induction false} FoldedHalvesDropEveryRow(env: Env)
    ensures var half := Lit(DoubleValue(0.5));
      var e := Bin(Bin(half, "+", half), "=", Lit(IntValue(1)));
      Judge(e, env) == Keep && Judge(Rewrite(e, env.text), env) == Drop
  {
    var half := Lit(DoubleValue(0.5));
    var sum := Bin(half, "+", half);
    var e := Bin(sum, "=", Lit(IntValue(1)));
    UpperOfOperator("+");
    BoolTruth(true);
    BoolTruth(false);
    EqualsIsNoSpine();
    assert Fold(sum) == FoldPair(half, "+", half) == Lit(BigValue(0));
    assert Fold(e) == Bin(Lit(BigValue(0)), "=", Lit(IntValue(1)));
    assert Eval(sum, env) == Some(DoubleValue(1.0));
  }

  lemma {:induction false} EqualsIsNoSpine()
    ensures Upper("=") == "=" && !IsArithmetic("=")
  {
  }

  // ---------- The whole rewrite ----------

  lemma {:induction false} SimplifyIsIdentity(e: Expr)
    ensures Simplify(e) == e
  {
    if e.Bin? && (Upper(e.op) == "AND" || Upper(e.op) == "OR") {
      SimplifyIsIdentity(e.left);
      SimplifyIsIdentity(e.right);
    }
  }

  /** The spine pass keeps or drops whole conditions, so it leaves folding as safe as it was. */
  lemma {:induction false} EliminateKeepsFoldSafe(e: Expr, text: Text)
    requires FoldSafe(e)
    ensures FoldSafe(Eliminate(e, text))
  {
    if e.Bin? && (Upper(e.op) == "AND" || Upper(e.op) == "OR") {
      EliminateKeepsFoldSafe(e.left, text);
      EliminateKeepsFoldSafe(e.right, text);
      NotUpper();
    }
  }

  /** The rewritten WHERE keeps and drops the same rows, on every row on which the original
      evaluates. */
  lemma {:induction false} RewriteKeepsTruth(e: Expr, env: Env)
    requires Eval(e, env).Some? && PrintsApart(e, env.text) && FoldSafe(e)
    ensures Judge(Rewrite(e, env.text), env) == Judge(e, env)
  {
    var e' := Eliminate(e, env.text);
    EliminateKeepsTruth(e, env);
    EliminateKeepsFoldSafe(e, env.text);
    FoldKeepsValue(e', env);
    SimplifyIsIdentity(Fold(e'));
  }
}
