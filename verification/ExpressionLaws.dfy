/** What the operators of an expression mean, apart from how evaluation computes them. */
module ExpressionLaws {
  import opened Values
  import opened ValueLaws
  import opened Expressions

  // ---------- Comparisons ----------

  /** What a comparison says of two things, of which the left is below the right, the same, or
      neither. */
  predicate Stands(op: string, below: bool, same: bool) {
    match op
    case "=" => same
    case "!=" => !same
    case "<" => below
    case "<=" => below || same
    case ">" => !below && !same
    case ">=" => !below
    case _ => false
  }

  /** The value reads as the number x; a text does as the library says. */
  predicate ReadsAs(v: Value, x: real, text: Text)
    requires v.Datum?
  {
    match v.p
    case I(n) => x == n as real
    case D(y) => x == y
    case S(s) => text.toReal(s) == Some(x)
  }

  /** The values stand in the relation: as numbers if both have numeric types, otherwise by their
      texts; NULL stands in none. */
  ghost predicate Related(v: Value, op: string, w: Value, text: Text) {
    && v.Datum? && w.Datum?
    && if v.ty in NUMERIC && w.ty in NUMERIC then
         exists x, y :: ReadsAs(v, x, text) && ReadsAs(w, y, text) && Stands(op, x < y, x == y)
       else
         var a, b := GetString(v, text), GetString(w, text);
         Stands(op, Precedes(a, b), a == b)
  }

  /** A comparison of the two does not throw. */
  ghost predicate Comparable(v: Value, w: Value, text: Text) {
    v.Datum? && w.Datum? && v.ty in NUMERIC && w.ty in NUMERIC ==>
      exists x, y :: ReadsAs(v, x, text) && ReadsAs(w, y, text)
  }

  /** A comparison keeps a row exactly if the operands are related, whatever they are. */
  lemma {:induction false} ComparisonMeaning(l: Expr, op: string, r: Expr, env: Env)
    requires op in {"=", "!=", "<", "<=", ">", ">="} && Eval(l, env).Some? && Eval(r, env).Some?
    ensures var v, w := Eval(l, env).value, Eval(r, env).value;
      && (v.Null? || w.Null? ==> Eval(Bin(l, op, r), env) == Some(NULL))
      && (Judge(Bin(l, op, r), env) ==
          if !Comparable(v, w, env.text) then Fails else if Related(v, op, w, env.text) then Keep else Drop)
  {
    var v, w := Eval(l, env).value, Eval(r, env).value;
    assert Eval(Bin(l, op, r), env) == Comparison(v, op, w, env.text);
    if v.Datum? && w.Datum? {
      ComparesAs(v, op, w, env.text);
      if Comparison(v, op, w, env.text).Some? {
        BooleansAreTrue(Related(v, op, w, env.text));
      }
    }
  }

  lemma {:induction false} BooleansAreTrue(b: bool)
    ensures Truth(BoolValue(b)) == b
  {
    TruthOf(BoolValue(b));
  }

  lemma {:induction false} ComparesAs(v: Value, op: string, w: Value, text: Text)
    requires op in {"=", "!=", "<", "<=", ">", ">="} && v.Datum? && w.Datum?
    ensures Comparison(v, op, w, text) ==
      if Comparable(v, w, text) then Some(BoolValue(Related(v, op, w, text))) else None
  {
    if v.ty in NUMERIC && w.ty in NUMERIC {
      NumbersCompareAs(v, op, w, text);
    } else {
      CompareTexts(v, w, text);
    }
  }

  lemma {:induction false} NumbersCompareAs(v: Value, op: string, w: Value, text: Text)
    requires op in {"=", "!=", "<", "<=", ">", ">="} && v.Datum? && w.Datum? && v.ty in NUMERIC && w.ty in NUMERIC
    ensures Comparison(v, op, w, text) ==
      if Comparable(v, w, text) then Some(BoolValue(Related(v, op, w, text))) else None
  {
    var a, b := GetDouble(v, text), GetDouble(w, text);
    assert forall x :: ReadsAs(v, x, text) <==> a == Some(x);
    assert forall y :: ReadsAs(w, y, text) <==> b == Some(y);
    if a.Some? && b.Some? {
      assert ReadsAs(v, a.value, text) && ReadsAs(w, b.value, text);
    }
  }

  /** On integers the six operators are those of the integers. */
  lemma {:induction false} IntegersCompare(m: int, n: int, env: Env)
    ensures JudgeOf(IntValue(m), "=", IntValue(n), env) == if m == n then Keep else Drop
    ensures JudgeOf(IntValue(m), "!=", IntValue(n), env) == if m != n then Keep else Drop
    ensures JudgeOf(IntValue(m), "<", IntValue(n), env) == if m < n then Keep else Drop
    ensures JudgeOf(IntValue(m), "<=", IntValue(n), env) == if m <= n then Keep else Drop
    ensures JudgeOf(IntValue(m), ">", IntValue(n), env) == if m > n then Keep else Drop
    ensures JudgeOf(IntValue(m), ">=", IntValue(n), env) == if m >= n then Keep else Drop
  {
    forall op | op in {"=", "!=", "<", "<=", ">", ">="}
      ensures JudgeOf(IntValue(m), op, IntValue(n), env) == if Stands(op, m < n, m == n) then Keep else Drop
    {
      ComparisonMeaning(Lit(IntValue(m)), op, Lit(IntValue(n)), env);
      assert ReadsAs(IntValue(m), m as real, env.text) && ReadsAs(IntValue(n), n as real, env.text);
      assert Comparable(IntValue(m), IntValue(n), env.text);
    }
  }

  /** On texts they are those of the lexicographic order. */
  lemma {:induction false} TextsCompare(a: string, b: string, env: Env)
    ensures JudgeOf(StringValue(a), "=", StringValue(b), env) == if a == b then Keep else Drop
    ensures JudgeOf(StringValue(a), "!=", StringValue(b), env) == if a != b then Keep else Drop
    ensures JudgeOf(StringValue(a), "<", StringValue(b), env) == if Precedes(a, b) then Keep else Drop
    ensures JudgeOf(StringValue(a), "<=", StringValue(b), env) == if Precedes(a, b) || a == b then Keep else Drop
    ensures JudgeOf(StringValue(a), ">", StringValue(b), env) == if Precedes(b, a) then Keep else Drop
    ensures JudgeOf(StringValue(a), ">=", StringValue(b), env) == if Precedes(b, a) || a == b then Keep else Drop
  {
    CompareTextIsOrder(a, b);
    forall op | op in {"=", "!=", "<", "<=", ">", ">="}
      ensures JudgeOf(StringValue(a), op, StringValue(b), env) ==
        if Stands(op, Precedes(a, b), a == b) then Keep else Drop
    {
      JudgedTexts(a, op, b, env);
    }
  }

  lemma {:induction false} JudgedTexts(a: string, op: string, b: string, env: Env)
    requires op in {"=", "!=", "<", "<=", ">", ">="}
    ensures JudgeOf(StringValue(a), op, StringValue(b), env) ==
      if Stands(op, Precedes(a, b), a == b) then Keep else Drop
  {
    assert VARCHAR !in NUMERIC;
    ComparisonMeaning(Lit(StringValue(a)), op, Lit(StringValue(b)), env);
  }

  function JudgeOf(v: Value, op: string, w: Value, env: Env): Verdict {
    Judge(Bin(Lit(v), op, Lit(w)), env)
  }

  // ---------- Truth ----------

  /** A condition evaluates, possibly to NULL. */
  predicate Evaluates(e: Expr, env: Env) {
    Judge(e, env) != Fails
  }

  /** AND keeps what both keep and OR what one keeps, as soon as both sides evaluate; an error on
      either side is an error of the whole. */
  lemma {:induction false} ConnectivesMean(l: Expr, r: Expr, env: Env)
    ensures Evaluates(Bin(l, "AND", r), env) <==> Evaluates(l, env) && Evaluates(r, env)
    ensures Evaluates(Bin(l, "OR", r), env) <==> Evaluates(l, env) && Evaluates(r, env)
    ensures Judge(Bin(l, "AND", r), env) == Keep <==> Judge(l, env) == Keep && Judge(r, env) == Keep
    ensures Evaluates(Bin(l, "OR", r), env) ==>
      (Judge(Bin(l, "OR", r), env) == Keep <==> Judge(l, env) == Keep || Judge(r, env) == Keep)
  {
    if Evaluates(l, env) && Evaluates(r, env) {
      var v, w := Eval(l, env).value, Eval(r, env).value;
      assert Eval(Bin(l, "AND", r), env) == Some(Logical(v, "AND", w));
      assert Eval(Bin(l, "OR", r), env) == Some(Logical(v, "OR", w));
      BooleansAreTrue(GetBool(v) && GetBool(w));
      BooleansAreTrue(GetBool(v) || GetBool(w));
    }
  }

  /** NOT keeps what its operand drops, but not where the operand is NULL. */
  lemma {:induction false} NegationMeans(e: Expr, env: Env)
    ensures Judge(Un("NOT", e), env) == match Eval(e, env)
      case None => Fails
      case Some(Null(_)) => Drop
      case Some(Datum(_, _)) => if Judge(e, env) == Keep then Drop else Keep
  {
    if Eval(e, env).Some? && Eval(e, env).value.Datum? {
      BooleansAreTrue(!GetBool(Eval(e, env).value));
    }
  }

  // ---------- Nested queries ----------

  /** The values are the same: both NULL, or equal as = says. */
  ghost predicate Same(v: Value, w: Value, text: Text) {
    (v.Null? && w.Null?) || Related(v, "=", w, text)
  }

  /** v is the same as the value at i, and can be compared with those in front of it. */
  ghost predicate FoundAt(v: Value, vs: seq<Value>, i: int, text: Text) {
    0 <= i < |vs| && Same(v, vs[i], text) && forall j :: 0 <= j < i ==> Comparable(v, vs[j], text)
  }

  /** v can be compared with every value and is the same as none. */
  ghost predicate NotFound(v: Value, vs: seq<Value>, text: Text) {
    forall i :: 0 <= i < |vs| ==> Comparable(v, vs[i], text) && !Same(v, vs[i], text)
  }

  lemma {:induction false} FoundBehind(v: Value, vs: seq<Value>, text: Text)
    requires vs != [] && Comparable(v, vs[0], text) && !Same(v, vs[0], text)
    ensures (exists i :: FoundAt(v, vs, i, text)) <==> exists i :: FoundAt(v, vs[1..], i, text)
    ensures NotFound(v, vs, text) <==> NotFound(v, vs[1..], text)
  {
    if i :| FoundAt(v, vs, i, text) {
      assert FoundAt(v, vs[1..], i - 1, text);
    }
    if i :| FoundAt(v, vs[1..], i, text) {
      forall j | 0 <= j < i + 1 ensures Comparable(v, vs[j], text) {
        if j > 0 { assert vs[j] == vs[1..][j - 1]; }
      }
      assert FoundAt(v, vs, i + 1, text);
    }
    if NotFound(v, vs[1..], text) {
      forall i | 0 <= i < |vs| ensures Comparable(v, vs[i], text) && !Same(v, vs[i], text) {
        if i > 0 { assert vs[i] == vs[1..][i - 1]; }
      }
    }
  }

  lemma {:induction false} AmongMeans(v: Value, vs: seq<Value>, text: Text)
    ensures Among(v, vs, text) == Some(true) <==> exists i :: FoundAt(v, vs, i, text)
    ensures Among(v, vs, text) == Some(false) <==> NotFound(v, vs, text)
  {
    if vs != [] {
      SameCompares(v, vs[0], text);
      if Among(v, vs, text) == Some(true) && Same(v, vs[0], text) {
        assert FoundAt(v, vs, 0, text);
      }
      if Comparable(v, vs[0], text) && !Same(v, vs[0], text) {
        AmongMeans(v, vs[1..], text);
        FoundBehind(v, vs, text);
      }
    }
  }

  /** x IN (SELECT ...) keeps a row on which x is found and NOT IN one on which it is not, NULL being
      the same as NULL; the answer is an error where the search meets a value it cannot compare first.
      EXISTS asks for a row, NOT EXISTS for none. */
  lemma {:induction false} SubqueriesMean(l: Expr, query: Query, env: Env)
    requires Eval(l, env).Some? && env.run(query).Some?
    ensures var v, vs := Eval(l, env).value, env.run(query).value;
      && (Judge(InSub(l, query, false), env) == Keep <==> exists i :: FoundAt(v, vs, i, env.text))
      && (Judge(InSub(l, query, false), env) == Drop <==> NotFound(v, vs, env.text))
      && (Judge(InSub(l, query, true), env) == Keep <==> NotFound(v, vs, env.text))
      && (Judge(InSub(l, query, true), env) == Drop <==> exists i :: FoundAt(v, vs, i, env.text))
      && (Judge(Exists(query, false), env) == if vs == [] then Drop else Keep)
      && (Judge(Exists(query, true), env) == if vs == [] then Keep else Drop)
  {
    var v, vs := Eval(l, env).value, env.run(query).value;
    AmongMeans(v, vs, env.text);
    Judged(InSub(l, query, false), env);
    Judged(InSub(l, query, true), env);
    Judged(Exists(query, false), env);
    Judged(Exists(query, true), env);
  }

  lemma {:induction false} Judged(e: Expr, env: Env)
    ensures forall b :: Eval(e, env) == Some(BoolValue(b)) ==> Judge(e, env) == if b then Keep else Drop
  {
    BooleansAreTrue(true);
    BooleansAreTrue(false);
  }

  lemma {:induction false} SameCompares(v: Value, w: Value, text: Text)
    ensures CompareTo(v, w, text).Some? <==> Comparable(v, w, text)
    ensures CompareTo(v, w, text) == Some(0) <==> Same(v, w, text)
  {
    if v.Datum? && w.Datum? {
      ComparesAs(v, "=", w, text);
      assert BoolValue(true) != BoolValue(false);
    }
  }

  // ---------- Calls ----------

  /** The arguments evaluate to the values, one for one. */
  predicate EvaluateTo(args: seq<Expr>, vs: seq<Value>, env: Env) {
    |vs| == |args| && forall i :: 0 <= i < |args| ==> Eval(args[i], env) == Some(vs[i])
  }

  lemma {:induction false} EvalAllMeans(args: seq<Expr>, env: Env)
    ensures EvalAll(args, env).Some? <==> forall i :: 0 <= i < |args| ==> Eval(args[i], env).Some?
    ensures EvalAll(args, env).Some? ==> EvaluateTo(args, EvalAll(args, env).value, env)
  {
    if args != [] {
      EvalAllMeans(args[1..], env);
      assert forall i :: 0 < i < |args| ==> args[i] == args[1..][i - 1];
    }
  }

  /** A call applies its scalar function to the values of its arguments, and fails where one does not
      evaluate; an aggregate in an expression always fails. */
  lemma {:induction false} CallMeans(name: string, args: seq<Expr>, env: Env)
    ensures name in {"COUNT", "SUM", "AVG", "MAX", "MIN"} ==> Eval(Call(name, args), env) == None
    ensures (exists i :: 0 <= i < |args| && Eval(args[i], env).None?) ==> Eval(Call(name, args), env) == None
    ensures name !in {"COUNT", "SUM", "AVG", "MAX", "MIN"} ==>
      forall vs :: EvaluateTo(args, vs, env) ==> Eval(Call(name, args), env) == env.scalar(name, vs)
  {
    EvalAllMeans(args, env);
    if EvalAll(args, env).Some? {
      assert forall vs :: EvaluateTo(args, vs, env) ==> vs == EvalAll(args, env).value;
    }
  }

  // ---------- Arithmetic ----------

  /** Dividing m by n gives q: what is left over is smaller than n and has the sign of m. */
  predicate Divides(m: int, n: int, q: int) {
    var rest := m - q * n;
    Abs(rest) < Abs(n) && (rest == 0 || (rest < 0) == (m < 0))
  }

  function Abs(n: int): int {
    if n < 0 then -n else n
  }

  lemma {:induction false} TruncDivDivides(m: int, n: int)
    requires n != 0
    ensures Divides(m, n, TruncDiv(m, n))
  {
    var a, b := Abs(m), Abs(n);
    var q := a / b;
    assert a == q * b + a % b;
    assert m - TruncDiv(m, n) * n == if m < 0 then -(a % b) else a % b;
  }

  /** There is one such quotient. */
  lemma {:induction false} QuotientIsOne(m: int, n: int, p: int, q: int)
    requires n != 0 && Divides(m, n, p) && Divides(m, n, q)
    ensures p == q
  {
    assert (p - q) * n == (m - q * n) - (m - p * n);
    if p != q {
      Multiple(p - q, n);
    }
  }

  lemma {:induction false} Multiple(k: int, n: int)
    requires k != 0
    ensures Abs(k * n) >= Abs(n)
  {
    var a, b := Abs(k) - 1, Abs(n);
    assert a * b >= 0;
    assert Abs(k * n) == (a + 1) * b == a * b + b;
  }

  /** On integers, whatever their types: the exact result, tagged BIGINT; division goes towards zero,
      and by zero it is an error. */
  lemma {:induction false} IntegerArithmetic(l: Expr, r: Expr, env: Env, m: int, n: int)
    requires Eval(l, env).Some? && Eval(l, env).value.Datum? && Eval(l, env).value.p == I(m)
    requires Eval(r, env).Some? && Eval(r, env).value.Datum? && Eval(r, env).value.p == I(n)
    requires Eval(l, env).value.ty != DOUBLE && Eval(r, env).value.ty != DOUBLE
    ensures Eval(Bin(l, "+", r), env) == Some(Datum(BIGINT, I(m + n)))
    ensures Eval(Bin(l, "-", r), env) == Some(Datum(BIGINT, I(m - n)))
    ensures Eval(Bin(l, "*", r), env) == Some(Datum(BIGINT, I(m * n)))
    ensures n == 0 ==> Eval(Bin(l, "/", r), env) == None
    ensures n != 0 ==> exists q :: Divides(m, n, q)
    ensures n != 0 ==> forall q :: Divides(m, n, q) ==> Eval(Bin(l, "/", r), env) == Some(Datum(BIGINT, I(q)))
  {
    if n != 0 {
      TruncDivDivides(m, n);
      forall q | Divides(m, n, q)
        ensures q == TruncDiv(m, n)
      {
        QuotientIsOne(m, n, q, TruncDiv(m, n));
      }
    }
  }

  /** A number, which an INT value holds as an integer. */
  predicate IsNumber(v: Value, x: real) {
    HasNumber(v) && NumberIn(v) == x && (v.ty == INT ==> v.p.I?)
  }

  lemma {:induction false} RealsAreTaken(l: Expr, op: string, r: Expr, env: Env, x: real, y: real)
    requires Eval(l, env).Some? && IsNumber(Eval(l, env).value, x)
    requires Eval(r, env).Some? && IsNumber(Eval(r, env).value, y)
    requires IsArithmetic(op) && (Eval(l, env).value.ty == DOUBLE || Eval(r, env).value.ty == DOUBLE)
    ensures Eval(Bin(l, op, r), env) == RealArithmetic(x, op, y)
  {
    var v, w := Eval(l, env).value, Eval(r, env).value;
    assert Eval(Bin(l, op, r), env) == Arithmetic(v, op, w, env.text);
  }

  /** As soon as one side is a DOUBLE, with a number on both sides: the real result. */
  lemma {:induction false} RealArithmeticMeans(l: Expr, r: Expr, env: Env, x: real, y: real)
    requires Eval(l, env).Some? && IsNumber(Eval(l, env).value, x)
    requires Eval(r, env).Some? && IsNumber(Eval(r, env).value, y)
    requires Eval(l, env).value.ty == DOUBLE || Eval(r, env).value.ty == DOUBLE
    ensures Eval(Bin(l, "+", r), env) == Some(Datum(DOUBLE, D(x + y)))
    ensures Eval(Bin(l, "-", r), env) == Some(Datum(DOUBLE, D(x - y)))
    ensures Eval(Bin(l, "*", r), env) == Some(Datum(DOUBLE, D(x * y)))
  {
    RealsAreTaken(l, "+", r, env, x, y);
    RealsAreTaken(l, "-", r, env, x, y);
    RealsAreTaken(l, "*", r, env, x, y);
  }

  lemma {:induction false} RealDivisionMeans(l: Expr, r: Expr, env: Env, x: real, y: real)
    requires Eval(l, env).Some? && IsNumber(Eval(l, env).value, x)
    requires Eval(r, env).Some? && IsNumber(Eval(r, env).value, y)
    requires Eval(l, env).value.ty == DOUBLE || Eval(r, env).value.ty == DOUBLE
    ensures y == 0.0 ==> Eval(Bin(l, "/", r), env) == None
    ensures y != 0.0 ==> exists q: real :: q * y == x && Eval(Bin(l, "/", r), env) == Some(Datum(DOUBLE, D(q)))
  {
    RealsAreTaken(l, "/", r, env, x, y);
    RealQuotient(x, y);
  }

  lemma {:induction false} RealQuotient(x: real, y: real)
    ensures y == 0.0 ==> RealArithmetic(x, "/", y) == None
    ensures y != 0.0 ==> exists q: real :: q * y == x && RealArithmetic(x, "/", y) == Some(Datum(DOUBLE, D(q)))
  {
    if y != 0.0 {
      var q := x / y;
      assert q * y == x && RealArithmetic(x, "/", y) == Some(Datum(DOUBLE, D(q)));
    }
  }

  /** NULL on either side makes arithmetic NULL, even a division by zero. */
  lemma {:induction false} NullArithmetic(l: Expr, op: string, r: Expr, env: Env)
    requires op in {"+", "-", "*", "/"} && Eval(l, env).Some? && Eval(r, env).Some?
    requires Eval(l, env).value.Null? || Eval(r, env).value.Null?
    ensures Eval(Bin(l, op, r), env) == Some(NULL) && Judge(Bin(l, op, r), env) == Drop
  {
  }

  /** Minus turns the sign of an INT or a DOUBLE and leaves NULL; every other type is an error, so
      that a second minus on an integer always is. */
  lemma {:induction false} MinusMeans(e: Expr, env: Env)
    requires Eval(e, env).Some? && (Eval(e, env).value.Datum? ==> !Eval(e, env).value.p.S?)
    ensures var v, w := Eval(e, env).value, Eval(Un("-", e), env);
      && (v.Null? ==> w == Some(NULL))
      && (v.Datum? && v.ty == INT && v.p.I? ==> w == Some(Datum(BIGINT, I(-v.p.n))))
      && (v.Datum? && v.ty == DOUBLE ==> w == Some(Datum(DOUBLE, D(-NumberIn(v)))))
      && (v.Datum? && v.ty != INT && v.ty != DOUBLE ==> w == None)
      && (v.Datum? && v.ty == INT ==> Eval(Un("-", Un("-", e)), env) == None)
  {
    assert Eval(Un("-", Un("-", e)), env) ==
      match Eval(Un("-", e), env) case None => None case Some(v) => Unary("-", v, env.text);
  }
}
