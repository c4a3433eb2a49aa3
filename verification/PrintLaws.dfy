/** Which conditions print apart, and what that means for the rewriter. */
module PrintLaws {
  import opened Values
  import opened Expressions
  import opened Operators
  import opened Rewriter
  import opened Filter

  // ---------- Words ----------

  const DELIMITERS := {' ', '(', ')', ','}

  predicate NoneOf(s: string, chars: set<char>) {
    forall i :: 0 <= i < |s| ==> s[i] !in chars
  }

  /** The place of the first of the characters, or the length. */
  function FirstOf(s: string, chars: set<char>): nat {
    if s == "" || s[0] in chars then 0 else 1 + FirstOf(s[1..], chars)
  }

  lemma {:induction false} FirstBehind(a: string, r: string, chars: set<char>)
    requires NoneOf(a, chars) && (r == "" || r[0] in chars)
    ensures FirstOf(a + r, chars) == |a|
  {
    if a == "" {
      assert a + r == r;
    } else {
      assert (a + r)[1..] == a[1..] + r;
      FirstBehind(a[1..], r, chars);
    }
  }

  /** A text without blanks, parentheses and commas. */
  predicate Word(s: string) {
    s != "" && NoneOf(s, DELIMITERS)
  }

  /** A name that is not read as a number and has no dot. */
  predicate Name(s: string) {
    Word(s) && !IsDigit(s[0]) && s[0] != '-' && NoneOf(s, {'.'})
  }

  predicate Stops(rest: string) {
    rest == "" || rest[0] in DELIMITERS
  }

  lemma {:induction false} WordEnds(a: string, r: string, b: string, q: string)
    requires Word(a) && Word(b) && Stops(r) && Stops(q) && a + r == b + q
    ensures a == b && r == q
  {
    var s := a + r;
    FirstBehind(a, r, DELIMITERS);
    FirstBehind(b, q, DELIMITERS);
    assert a == s[..|a|] && b == s[..|b|] && r == s[|a|..] && q == s[|b|..];
  }

  // ---------- Plain expressions ----------

  /** Built from columns, integers, binary operators, calls, and NOT before a binary operator. */
  predicate Plain(e: Expr) {
    match e
    case Lit(v) => v.Datum? && v.ty == INT && v.p.I?
    case Col(table, column) => (table == "" || Name(table)) && Name(column)
    case Bin(l, op, r) => Word(op) && Plain(l) && Plain(r)
    case Un(op, x) => Name(op) && x.Bin? && Plain(x)
    case Call(name, args) => Name(name) && forall i :: 0 <= i < |args| ==> Plain(args[i])
    case _ => false
  }

  lemma {:induction false} IntTextIsWord(n: int)
    ensures Word(IntText(n)) && (IsDigit(IntText(n)[0]) || IntText(n)[0] == '-')
  {
    IntTextChars(n);
    forall i | 0 <= i < |IntText(n)|
      ensures IntText(n)[i] !in DELIMITERS
    {
      assert IntText(n)[i] in IntText(n);
    }
    assert IntText(n)[0] in IntText(n);
  }

  lemma {:induction false} IntTextIsOne(m: int, n: int)
    requires IntText(m) == IntText(n)
    ensures m == n
  {
    ReadNatText(if m < 0 then -m else m);
    ReadNatText(if n < 0 then -n else n);
    assert IntText(m)[1..] == IntText(n)[1..];
  }

  function FullName(table: string, column: string): string {
    if table == "" then column else table + "." + column
  }

  lemma {:induction false} FullNameIsOne(t: string, c: string, u: string, d: string)
    requires (t == "" || Name(t)) && Name(c) && (u == "" || Name(u)) && Name(d)
    requires FullName(t, c) == FullName(u, d)
    ensures t == u && c == d
  {
    var s := FullName(t, c);
    FullNameDot(t, c);
    FullNameDot(u, d);
    assert FirstOf(s, {'.'}) < |s| ==> t == s[..|t|] && u == s[..|u|] && c == s[|t| + 1..] && d == s[|u| + 1..];
  }

  lemma {:induction false} FullNameDot(t: string, c: string)
    requires (t == "" || Name(t)) && Name(c)
    ensures FirstOf(FullName(t, c), {'.'}) == if t == "" then |FullName(t, c)| else |t|
  {
    if t == "" {
      FirstBehind(c, "", {'.'});
      assert c + "" == c;
    } else {
      FirstBehind(t, "." + c, {'.'});
      assert t + ("." + c) == FullName(t, c);
    }
  }

  lemma {:induction false} FullNameIsWord(t: string, c: string)
    requires (t == "" || Name(t)) && Name(c)
    ensures Word(FullName(t, c)) && !IsDigit(FullName(t, c)[0]) && FullName(t, c)[0] != '-'
  {
  }

  /** How the print of a plain expression starts tells what kind it is. */
  lemma {:induction false} PrintStarts(e: Expr, text: Text)
    requires Plain(e)
    ensures Print(e, text) != ""
    ensures var c := Print(e, text)[0];
      && (e.Bin? <==> c == '(') && (e.Lit? <==> IsDigit(c) || c == '-') && c != ')' && c != ',' && c != ' '
  {
    match e
    case Lit(v) => IntTextIsWord(v.p.n);
    case Col(t, c) => FullNameIsWord(t, c);
    case Bin(_, _, _) =>
    case Un(op, _) => assert Print(e, text)[0] == op[0];
    case Call(name, _) => assert Print(e, text)[0] == name[0];
  }

  /** The print of a plain expression determines it, whatever stands behind the print. */
  lemma {:induction false} PrintIsOne(e: Expr, r: string, f: Expr, q: string, text: Text)
    requires Plain(e) && Plain(f) && Ends(r) && Ends(q) && Print(e, text) + r == Print(f, text) + q
    ensures e == f && r == q
    decreases e, 1
  {
    PrintStarts(e, text);
    PrintStarts(f, text);
    assert (Print(e, text) + r)[0] == Print(e, text)[0] && (Print(f, text) + q)[0] == Print(f, text)[0];
    match e
    case Lit(v) =>
      IntTextIsWord(v.p.n);
      IntTextIsWord(f.v.p.n);
      WordEnds(IntText(v.p.n), r, IntText(f.v.p.n), q);
      IntTextIsOne(v.p.n, f.v.p.n);
    case Bin(_, _, _) => BinaryPrintIsOne(e, r, f, q, text);
    case Col(_, _) => NamePrintIsOne(e, r, f, q, text);
    case Un(_, _) => NamePrintIsOne(e, r, f, q, text);
    case Call(_, _) => NamePrintIsOne(e, r, f, q, text);
  }

  predicate Ends(rest: string) {
    rest == "" || rest[0] == ' ' || rest[0] == ')' || rest[0] == ','
  }

  lemma {:induction false} BinaryPrintIsOne(e: Expr, r: string, f: Expr, q: string, text: Text)
    requires e.Bin? && f.Bin? && Plain(e) && Plain(f) && Ends(r) && Ends(q)
    requires Print(e, text) + r == Print(f, text) + q
    ensures e == f && r == q
    decreases e, 0
  {
    var x, y := AfterLeft(e, r, text), AfterLeft(f, q, text);
    BinaryPrint(e, r, text);
    BinaryPrint(f, q, text);
    PrintIsOne(e.left, x, f.left, y, text);
    WordEnds(e.op, AfterOp(e, r, text), f.op, AfterOp(f, q, text));
    PrintIsOne(e.right, ")" + r, f.right, ")" + q, text);
    assert r == (")" + r)[1..] && q == (")" + q)[1..];
  }

  function AfterOp(e: Expr, r: string, text: Text): string
    requires e.Bin?
  {
    " " + (Print(e.right, text) + (")" + r))
  }

  function AfterLeft(e: Expr, r: string, text: Text): string
    requires e.Bin?
  {
    " " + (e.op + AfterOp(e, r, text))
  }

  lemma {:induction false} BinaryPrint(e: Expr, r: string, text: Text)
    requires e.Bin?
    ensures Print(e, text) + r != "" && (Print(e, text) + r)[1..] == Print(e.left, text) + AfterLeft(e, r, text)
    ensures AfterLeft(e, r, text)[1..] == e.op + AfterOp(e, r, text)
    ensures AfterOp(e, r, text)[1..] == Print(e.right, text) + (")" + r)
  {
    var s := Print(e, text) + r;
    assert s == "(" + (Print(e.left, text) + AfterLeft(e, r, text));
  }

  /** What starts with a name: a column, a prefix operator or a call. */
  predicate Named(e: Expr) {
    e.Col? || e.Un? || e.Call?
  }

  /** That name, and what follows it. */
  function Head(e: Expr): string
    requires Named(e)
  {
    match e
    case Col(table, column) => FullName(table, column)
    case Un(op, _) => op
    case Call(name, _) => name
  }

  function Behind(e: Expr, r: string, text: Text): string
    requires Named(e)
  {
    match e
    case Col(_, _) => r
    case Un(_, x) => Print(x, text) + r
    case Call(_, args) => "(" + (PrintArgs(args, text) + (")" + r))
  }

  lemma {:induction false} NamePrint(e: Expr, r: string, text: Text)
    requires Named(e) && Plain(e) && Ends(r)
    ensures Print(e, text) + r == Head(e) + Behind(e, r, text) && Word(Head(e)) && Stops(Behind(e, r, text))
    ensures !e.Col? <==> Behind(e, r, text) != "" && Behind(e, r, text)[0] == '('
  {
    match e
    case Col(t, c) => FullNameIsWord(t, c);
    case Un(op, x) => assert Print(e, text) + r == Head(e) + Behind(e, r, text);
    case Call(name, args) => assert Print(e, text) + r == Head(e) + Behind(e, r, text);
  }

  lemma {:induction false} NamePrintIsOne(e: Expr, r: string, f: Expr, q: string, text: Text)
    requires Named(e) && Named(f) && Plain(e) && Plain(f) && Ends(r) && Ends(q)
    requires Print(e, text) + r == Print(f, text) + q
    ensures e == f && r == q
    decreases e, 0
  {
    NamePrint(e, r, text);
    NamePrint(f, q, text);
    WordEnds(Head(e), Behind(e, r, text), Head(f), Behind(f, q, text));
    match e
    case Col(_, _) => FullNameIsOne(e.table, e.column, f.table, f.column);
    case Un(_, x) =>
      if f.Call? {
        OperatorIsNoCall(x, r, f.args, q, text);
      } else {
        PrintIsOne(x, r, f.operand, q, text);
      }
    case Call(_, args) =>
      if f.Un? {
        CallIsNoOperator(args, r, f.operand, q, text);
      } else {
        var inner, inner' := PrintArgs(args, text) + (")" + r), PrintArgs(f.args, text) + (")" + q);
        assert inner == Behind(e, r, text)[1..] && inner' == Behind(f, q, text)[1..];
        ArgsPrintIsOne(args, r, f.args, q, text);
      }
  }

  /** What stands in parentheses behind a prefix operator is no argument list: a blank follows its first
      operand, and none follows the first argument. */
  lemma {:induction false} OperatorIsNoCall(x: Expr, r: string, args: seq<Expr>, q: string, text: Text)
    requires x.Bin? && Plain(x) && forall i :: 0 <= i < |args| ==> Plain(args[i])
    ensures Print(x, text) + r != "(" + (PrintArgs(args, text) + (")" + q))
    decreases x, 0
  {
    if Print(x, text) + r == "(" + (PrintArgs(args, text) + (")" + q)) {
      BinaryPrint(x, r, text);
      var inner := PrintArgs(args, text) + (")" + q);
      assert inner == ("(" + inner)[1..];
      NoneOrSome(args, q, text);
      PrintStarts(x.left, text);
      assert inner[0] == Print(x.left, text)[0];
      ArgsPrint(args, q, text);
      AfterFirstTells(args, q, text);
      PrintIsOne(x.left, AfterLeft(x, r, text), args[0], AfterFirst(args, q, text), text);
      assert false;
    }
  }

  lemma {:induction false} CallIsNoOperator(args: seq<Expr>, r: string, x: Expr, q: string, text: Text)
    requires x.Bin? && Plain(x) && forall i :: 0 <= i < |args| ==> Plain(args[i])
    ensures "(" + (PrintArgs(args, text) + (")" + r)) != Print(x, text) + q
    decreases args, 0
  {
    if "(" + (PrintArgs(args, text) + (")" + r)) == Print(x, text) + q {
      BinaryPrint(x, q, text);
      var inner := PrintArgs(args, text) + (")" + r);
      assert inner == ("(" + inner)[1..];
      NoneOrSome(args, r, text);
      PrintStarts(x.left, text);
      assert inner[0] == Print(x.left, text)[0];
      ArgsPrint(args, r, text);
      AfterFirstTells(args, r, text);
      PrintIsOne(args[0], AfterFirst(args, r, text), x.left, AfterLeft(x, q, text), text);
      assert false;
    }
  }

  /** What follows the first of some arguments. */
  function AfterFirst(args: seq<Expr>, r: string, text: Text): string
    requires args != []
  {
    if |args| == 1 then ")" + r else "," + (" " + (PrintArgs(args[1..], text) + (")" + r)))
  }

  lemma {:induction false} ArgsPrint(args: seq<Expr>, r: string, text: Text)
    requires args != []
    ensures PrintArgs(args, text) + (")" + r) == Print(args[0], text) + AfterFirst(args, r, text)
  {
  }

  /** What follows the first argument tells whether it is the only one. */
  lemma {:induction false} AfterFirstTells(args: seq<Expr>, r: string, text: Text)
    requires args != []
    ensures var s := AfterFirst(args, r, text);
      && s != "" && (|args| == 1 <==> s[0] == ')')
      && (|args| == 1 ==> s[1..] == r)
      && (|args| > 1 ==> |s| > 1 && s[2..] == PrintArgs(args[1..], text) + (")" + r))
  {
  }

  lemma {:induction false} ArgsPrintIsOne(args: seq<Expr>, r: string, args': seq<Expr>, q: string, text: Text)
    requires forall i :: 0 <= i < |args| ==> Plain(args[i])
    requires forall i :: 0 <= i < |args'| ==> Plain(args'[i])
    requires PrintArgs(args, text) + (")" + r) == PrintArgs(args', text) + (")" + q)
    ensures args == args' && r == q
    decreases args, 3
  {
    NoneOrSome(args, r, text);
    NoneOrSome(args', q, text);
    if args == [] {
      assert r == (PrintArgs(args, text) + (")" + r))[1..] && q == (PrintArgs(args', text) + (")" + q))[1..];
    } else {
      SomeArgsPrintIsOne(args, r, args', q, text);
    }
  }

  lemma {:induction false} SomeArgsPrintIsOne(args: seq<Expr>, r: string, args': seq<Expr>, q: string, text: Text)
    requires args != [] && args' != []
    requires forall i :: 0 <= i < |args| ==> Plain(args[i])
    requires forall i :: 0 <= i < |args'| ==> Plain(args'[i])
    requires PrintArgs(args, text) + (")" + r) == PrintArgs(args', text) + (")" + q)
    ensures args == args' && r == q
    decreases args, 2
  {
    ArgsPrint(args, r, text);
    ArgsPrint(args', q, text);
    AfterFirstTells(args, r, text);
    AfterFirstTells(args', q, text);
    PrintIsOne(args[0], AfterFirst(args, r, text), args'[0], AfterFirst(args', q, text), text);
    if |args| > 1 {
      ArgsPrintIsOne(args[1..], r, args'[1..], q, text);
    }
    assert args == [args[0]] + args[1..] && args' == [args'[0]] + args'[1..];
  }

  lemma {:induction false} NoneOrSome(args: seq<Expr>, r: string, text: Text)
    requires forall i :: 0 <= i < |args| ==> Plain(args[i])
    ensures var s := PrintArgs(args, text) + (")" + r);
      s != "" && (args == [] <==> s[0] == ')')
  {
    if args != [] {
      ArgsPrint(args, r, text);
      PrintStarts(args[0], text);
    }
  }

  /** Plain expressions print alike exactly if they are the same. */
  lemma {:induction false} PlainPrintsApart(e: Expr, f: Expr, text: Text)
    requires Plain(e) && Plain(f)
    ensures Print(e, text) == Print(f, text) <==> e == f
  {
    if Print(e, text) == Print(f, text) {
      PrintIsOne(e, "", f, "", text);
    }
  }

  /** Two IN conditions on plain operands print alike exactly if these and their negations are the same,
      whatever their nested queries; and two EXISTS conditions if their negations are. */
  lemma {:induction false} ClausesPrintAlikeIff(l: Expr, q: Query, n: bool, l': Expr, q': Query, n': bool, text: Text)
    requires Plain(l) && Plain(l')
    ensures Print(InSub(l, q, n), text) == Print(InSub(l', q', n'), text) <==> l == l' && n == n'
    ensures Print(Exists(q, n), text) == Print(Exists(q', n'), text) <==> n == n'
  {
    var a, b := InTail(n), InTail(n');
    assert Print(InSub(l, q, n), text) == Print(l, text) + a;
    assert Print(InSub(l', q', n'), text) == Print(l', text) + b;
    if Print(l, text) + a == Print(l', text) + b {
      PrintIsOne(l, a, l', b, text);
      assert |a| == |b|;
    }
  }

  function InTail(n: bool): string {
    " " + (if n then "NOT IN" else "IN") + " (SELECT ...)"
  }

  // ---------- The rewriter on plain conditions ----------

  lemma {:induction false} EliminateStaysPlain(e: Expr, text: Text)
    requires Plain(e)
    ensures Plain(Eliminate(e, text)) || Eliminate(e, text).Lit?
  {
    match e
    case Bin(l, op, r) =>
      EliminateStaysPlain(l, text);
      EliminateStaysPlain(r, text);
    case _ =>
  }

  /** Where the rewriter merges two sides of a plain condition, they are the same, */
  lemma {:induction false} PlainIsMergedRightly(e: Expr, text: Text)
    requires Plain(e)
    ensures PrintsApart(e, text)
  {
    match e
    case Bin(l, op, r) =>
      PlainIsMergedRightly(l, text);
      PlainIsMergedRightly(r, text);
      EliminateStaysPlain(l, text);
      EliminateStaysPlain(r, text);
      var l', r' := Eliminate(l, text), Eliminate(r, text);
      if !l'.Lit? && !r'.Lit? {
        PlainPrintsApart(l', r', text);
      }
    case _ =>
  }

  predicate WholeOrNull(v: Value) {
    v == NULL || (v.Datum? && (v.ty == INT || v.ty == BIGINT) && v.p.I?)
  }

  /** and what it computes is exact. */
  lemma {:induction false} PlainFoldsExactly(e: Expr)
    requires Plain(e)
    ensures FoldSafe(e) && WholeLiteral(Fold(e))
  {
    match e
    case Bin(l, op, r) =>
      PlainFoldsExactly(l);
      PlainFoldsExactly(r);
      PairFoldsExactly(Fold(l), op, Fold(r));
    case Un(_, x) => PlainFoldsExactly(x);
    case _ =>
  }

  predicate WholeLiteral(e: Expr) {
    e.Lit? ==> WholeOrNull(e.v)
  }

  lemma {:induction false} PairFoldsExactly(l: Expr, op: string, r: Expr)
    requires WholeLiteral(l) && WholeLiteral(r)
    ensures l.Lit? && r.Lit? && IsNumeric(l.v.ty) && IsNumeric(r.v.ty) ==> FoldsExactly(l.v, r.v)
    ensures WholeLiteral(FoldPair(l, op, r))
  {
  }

  /** WHERE with a condition built from columns, integers, operators, NOT and calls yields the same rows when
      it is rewritten, wherever it drains without error, and all its rows even where it does not. */
  lemma {:induction false} PlainWhereSameRows(rows: seq<Row>, failsAtEnd: bool, e: Expr, names: seq<string>,
                                              setting: Setting)
    requires Plain(e)
    ensures var original := FilterRun(rows, failsAtEnd, e, names, setting);
      var rewritten := FilterRun(rows, failsAtEnd, Rewrite(e, setting.text), names, setting);
      original.rows <= rewritten.rows && (!original.failed ==> rewritten == original)
  {
    PlainIsMergedRightly(e, setting.text);
    PlainFoldsExactly(e);
    RewrittenWhereSameRows(rows, failsAtEnd, e, names, setting);
  }

  /** A text prints like a column of that name, so that of the two conditions a = b and a = 'b' joined by
      AND or OR the second is dropped. */
  lemma {:induction false} QuotesAreLost(a: Expr, op: string, b: string, spine: string, text: Text)
    requires op !in {"AND", "OR"} && !InAnyCase(op, "AND") && !InAnyCase(op, "OR") && spine in {"AND", "OR"}
    ensures var column, quoted := Bin(a, op, Col("", b)), Bin(a, op, Lit(StringValue(b)));
      && Print(column, text) == Print(quoted, text)
      && Eliminate(Bin(column, spine, quoted), text) == column
      && Eliminate(Bin(quoted, spine, column), text) == quoted
  {
    SpineOperatorsInAnyCase(op);
    SpineOperatorsInAnyCase(spine);
  }
}
