/** Parsing inverts writing, and the grammar reads exactly the trees that can be written. */
module GrammarLaws {
  import opened Values
  import opened Expressions
  import opened Grammar
  import opened Sequences

  /** The token t ends an expression read at this level: no loop from this level inwards takes
      it, nor does a member clause, and it does not continue a name. */
  ghost predicate Ends(level: int, t: Token) {
    && t != LeftParen && t != Dot
    && (forall j: Level :: level <= j ==> !Joins(j, t))
    && (level <= MEMBER_LEVEL ==>
          t != Keyword("IN") && t != Keyword("NOT") && t != Keyword("EXISTS"))
  }

  ghost predicate Follows(level: int, rest: seq<Token>) {
    rest == [] || Ends(level, rest[0])
  }

  /** What may follow an expression that the loop of this level may still extend. */
  ghost predicate Follows1(level: Level, rest: seq<Token>) {
    Follows(if Chains(level) then level + 1 else level, rest)
  }

  /** What this level makes of the tree e once the tighter levels have read it. */
  function After(level: Level, e: Expr, rest: seq<Token>): Parsed<Expr> {
    if Chains(level) then Chain(level, e, rest) else Ok(e, rest)
  }

  lemma {:induction false} FollowsInwards(level: Level, inner: Level, rest: seq<Token>)
    requires Follows1(level, rest) && level < inner
    ensures Follows(inner, rest) && Follows1(inner, rest) && Follows(level + 1, rest)
  {
    if rest != [] {
      assert Ends(if Chains(level) then level + 1 else level, rest[0]);
    }
  }

  lemma {:induction false} PunctuationEnds(rest: seq<Token>)
    requires At(rest, Comma) || At(rest, RightParen)
    ensures Follows(OR_LEVEL, rest) && Follows1(OR_LEVEL, rest)
  {
  }

  /** A binary operator ends every operand read inside its own level. */
  lemma {:induction false} OperatorEnds(op: string, rest: seq<Token>)
    requires BinaryLevel(op).Some? && At(rest, BinaryToken(op))
    ensures Follows1(BinaryLevel(op).value, rest)
  {
  }

  lemma {:induction false} LevelPassesOn(level: Level, ts: seq<Token>, e: Expr, rest: seq<Token>)
    requires level < PRIMARY_LEVEL && Follows1(level, rest)
    requires ts != [] && !Prefixes(level, ts[0])
    requires Parse(level + 1, ts) == After(level + 1, e, rest)
    ensures Parse(level, ts) == After(level, e, rest)
  {
    FollowsInwards(level, level + 1, rest);
    assert Parse(level + 1, ts) == Ok(e, rest);
  }

  /** A tree read at a tight level is passed out to a looser one. */
  lemma {:induction false} LevelsPassOn(outer: Level, inner: Level, ts: seq<Token>, e: Expr, rest: seq<Token>)
    requires outer <= inner && Follows1(outer, rest)
    requires ts != [] && forall j: Level :: outer <= j < inner ==> !Prefixes(j, ts[0])
    requires Parse(inner, ts) == After(inner, e, rest)
    ensures Parse(outer, ts) == After(outer, e, rest)
    decreases inner - outer
  {
    if outer < inner {
      if outer < inner - 1 {
        FollowsInwards(outer, inner - 1, rest);
      }
      LevelPassesOn(inner - 1, ts, e, rest);
      LevelsPassOn(outer, inner - 1, ts, e, rest);
    }
  }

  /** A written tree starts with a prefix operator only at a level that reads one. */
  lemma {:induction false} FirstToken(e: Expr, level: Level, j: Level)
    requires Writable(e) && j < level
    ensures Write(e, level) != [] && !Prefixes(j, Write(e, level)[0])
    decreases e, 1
  {
    if LevelOf(e) >= level {
      FirstBareToken(e, j);
    }
  }

  lemma {:induction false} FirstBareToken(e: Expr, j: Level)
    requires Writable(e) && j < LevelOf(e)
    ensures WriteBare(e) != [] && !Prefixes(j, WriteBare(e)[0])
    decreases e, 0
  {
    match e
    case Bin(l, op, r) => FirstToken(l, BinaryLevel(op).value, j);
    case InSub(l, query, notIn) => FirstToken(l, COMPARE_LEVEL, j);
    case _ =>
  }

  lemma {:induction false} WriteParse(e: Expr, level: Level, rest: seq<Token>)
    requires Writable(e) && Follows1(level, rest)
    ensures Parse(level, Write(e, level) + rest) == After(level, e, rest)
    decreases e, 2
  {
    if LevelOf(e) >= level {
      BareParseAt(e, level, rest);
    } else {
      BareParseAt(e, OR_LEVEL, [RightParen] + rest);
      Parenthesised(e, WriteBare(e), rest);
      LevelsPassOn(level, PRIMARY_LEVEL, Write(e, level) + rest, e, rest);
    }
  }

  lemma {:induction false} Parenthesised(e: Expr, inside: seq<Token>, rest: seq<Token>)
    requires Parse(OR_LEVEL, inside + ([RightParen] + rest)) == Ok(e, [RightParen] + rest)
    ensures ParsePrimary([LeftParen] + inside + [RightParen] + rest) == Ok(e, rest)
  {
    assert ([LeftParen] + inside + [RightParen] + rest)[1..] == inside + ([RightParen] + rest);
    assert ([RightParen] + rest)[1..] == rest;
  }

  lemma {:induction false} BareParseAt(e: Expr, level: Level, rest: seq<Token>)
    requires Writable(e) && level <= LevelOf(e) && Follows1(level, rest)
    ensures Parse(level, WriteBare(e) + rest) == After(level, e, rest)
    decreases e, 1
  {
    var own := LevelOf(e);
    if level < own {
      FollowsInwards(level, own, rest);
      forall j: Level | level <= j < own
        ensures WriteBare(e) != [] && !Prefixes(j, WriteBare(e)[0])
      {
        FirstBareToken(e, j);
      }
      assert WriteBare(e) != [] by { FirstBareToken(e, level); }
    }
    BareParse(e, rest);
    if level < own {
      assert (WriteBare(e) + rest)[0] == WriteBare(e)[0];
      LevelsPassOn(level, own, WriteBare(e) + rest, e, rest);
    }
  }

  lemma {:induction false} BareParse(e: Expr, rest: seq<Token>)
    requires Writable(e) && Follows1(LevelOf(e), rest)
    ensures Parse(LevelOf(e), WriteBare(e) + rest) == After(LevelOf(e), e, rest)
    decreases e, 0
  {
    match e
    case Lit(v) => BareLeaf(e, rest);
    case Col(table, column) => BareLeaf(e, rest);
    case Bin(l, op, r) => BareBinary(l, op, r, rest);
    case Un(op, x) => BareUnary(op, x, rest);
    case Call(name, args) => BareCall(name, args, rest);
    case InSub(l, query, notIn) => BareMember(l, query, notIn, rest);
    case Exists(query, notExists) => BareExists(query, notExists, rest);
  }

  lemma {:induction false} BareLeaf(e: Expr, rest: seq<Token>)
    requires Writable(e) && (e.Lit? || e.Col?) && Follows(PRIMARY_LEVEL, rest)
    ensures ParsePrimary(WriteBare(e) + rest) == Ok(e, rest)
  {
    var ts := WriteBare(e) + rest;
    assert |WriteBare(e)| == 1 ==> ts[1..] == rest;
    assert |WriteBare(e)| == 3 ==> ts[3..] == rest && ts[1..][0] == Dot;
  }

  lemma {:induction false} BareUnary(op: string, x: Expr, rest: seq<Token>)
    requires Writable(Un(op, x)) && Follows(LevelOf(Un(op, x)), rest)
    ensures Parse(LevelOf(Un(op, x)), WriteBare(Un(op, x)) + rest) == Ok(Un(op, x), rest)
    decreases Un(op, x), 0, 0
  {
    var level := LevelOf(Un(op, x));
    WriteParse(x, level, rest);
    UnaryStarts(op, x, rest);
  }

  lemma {:induction false} UnaryStarts(op: string, x: Expr, rest: seq<Token>)
    requires Writable(Un(op, x))
    ensures var ts := WriteBare(Un(op, x)) + rest;
      && ts != [] && Prefixes(LevelOf(Un(op, x)), ts[0]) && ts[0].text == op
      && ts[1..] == Write(x, LevelOf(Un(op, x))) + rest
  {
  }

  lemma {:induction false} BareBinary(l: Expr, op: string, r: Expr, rest: seq<Token>)
    requires Writable(Bin(l, op, r)) && Follows1(BinaryLevel(op).value, rest)
    ensures Parse(BinaryLevel(op).value, WriteBare(Bin(l, op, r)) + rest)
         == Chain(BinaryLevel(op).value, Bin(l, op, r), rest)
    decreases Bin(l, op, r), 0, 0
  {
    var level := BinaryLevel(op).value;
    var right := Write(r, level + 1);
    var tail := [BinaryToken(op)] + (right + rest);
    OperatorEnds(op, tail);
    WriteParse(l, level, tail);
    FollowsInwards(level, level + 1, rest);
    WriteParse(r, level + 1, rest);
    OneLink(level, l, op, r, right, rest);
    Regroup(Write(l, level), [BinaryToken(op)], right, rest);
  }

  /** One turn of the loop of a level. */
  lemma {:induction false} OneLink(level: Level, l: Expr, op: string, r: Expr, right: seq<Token>, rest: seq<Token>)
    requires BinaryLevel(op) == Some(level) && Parse(level + 1, right + rest) == Ok(r, rest)
    ensures Chain(level, l, [BinaryToken(op)] + (right + rest)) == Chain(level, Bin(l, op, r), rest)
  {
    assert ([BinaryToken(op)] + (right + rest))[1..] == right + rest;
  }

  function Clause(word: string, query: Query, negated: bool, rest: seq<Token>): seq<Token> {
    (if negated then [Keyword("NOT")] else [])
    + [Keyword(word), LeftParen, Nested(query), RightParen] + rest
  }

  lemma {:induction false} InIsRead(l: Expr, query: Query, negated: bool, rest: seq<Token>)
    ensures Member(l, Clause("IN", query, negated, rest)) == Ok(InSub(l, query, negated), rest)
  {
    var close := [RightParen] + rest;
    assert close[1..] == rest;
    var clause := [Keyword("IN"), LeftParen, Nested(query), RightParen] + rest;
    assert clause[3..] == close;
    if negated {
      assert Clause("IN", query, negated, rest)[1..] == clause;
    } else {
      assert Clause("IN", query, negated, rest) == clause;
    }
  }

  lemma {:induction false} ExistsIsRead(l: Expr, query: Query, negated: bool, rest: seq<Token>)
    ensures Member(l, Clause("EXISTS", query, negated, rest)) == Ok(Exists(query, negated), rest)
  {
    var clause := [LeftParen, Nested(query), RightParen] + rest;
    QueryIsRead(l, query, negated, rest);
    var ts := Clause("EXISTS", query, negated, rest);
    if negated {
      assert ts[1..] == [Keyword("EXISTS")] + clause;
      assert ts[1..][1..] == clause;
    } else {
      assert ts[1..] == clause;
    }
  }

  lemma {:induction false} QueryIsRead(l: Expr, query: Query, negated: bool, rest: seq<Token>)
    ensures MemberExists(l, [LeftParen, Nested(query), RightParen] + rest, negated) == Ok(Exists(query, negated), rest)
  {
    var clause := [LeftParen, Nested(query), RightParen] + rest;
    assert clause[2..] == [RightParen] + rest;
    assert clause[2..][1..] == rest;
  }

  lemma {:induction false} BareMember(l: Expr, query: Query, notIn: bool, rest: seq<Token>)
    requires Writable(l) && Follows(MEMBER_LEVEL, rest)
    ensures Parse(MEMBER_LEVEL, WriteBare(InSub(l, query, notIn)) + rest) == Ok(InSub(l, query, notIn), rest)
    decreases InSub(l, query, notIn), 0, 0
  {
    var tail := Clause("IN", query, notIn, rest);
    assert WriteBare(InSub(l, query, notIn)) + rest == Write(l, COMPARE_LEVEL) + tail;
    WriteParse(l, COMPARE_LEVEL, tail);
    assert Parse(COMPARE_LEVEL, Write(l, COMPARE_LEVEL) + tail) == Ok(l, tail);
    InIsRead(l, query, notIn, rest);
  }

  lemma {:induction false} BareExists(query: Query, notExists: bool, rest: seq<Token>)
    requires Follows(MEMBER_LEVEL, rest)
    ensures Parse(MEMBER_LEVEL, WriteBare(Exists(query, notExists)) + rest) == Ok(Exists(query, notExists), rest)
  {
    var zero := Lit(IntValue(0));
    var tail := Clause("EXISTS", query, notExists, rest);
    var ts := WriteBare(Exists(query, notExists)) + rest;
    assert ts == [IntLiteral(0)] + tail;
    assert ts[1..] == tail;
    LevelsPassOn(COMPARE_LEVEL, PRIMARY_LEVEL, ts, zero, tail);
    assert Parse(COMPARE_LEVEL, ts) == Ok(zero, tail);
    ExistsIsRead(zero, query, notExists, rest);
  }

  lemma {:induction false} BareCall(name: string, args: seq<Expr>, rest: seq<Token>)
    requires Writable(Call(name, args)) && Follows(PRIMARY_LEVEL, rest)
    ensures ParsePrimary(WriteBare(Call(name, args)) + rest) == Ok(Call(name, args), rest)
    decreases Call(name, args), 0, 0
  {
    var ts := WriteBare(Call(name, args)) + rest;
    var tail := [RightParen] + rest;
    assert ts[1..][0] == LeftParen;
    assert ts[2..] == WriteArguments(args) + tail;
    assert tail[1..] == rest;
    ArgumentsParse(args, tail);
  }

  lemma {:induction false} ArgumentsParse(args: seq<Expr>, tail: seq<Token>)
    requires forall i :: 0 <= i < |args| ==> Writable(args[i])
    requires At(tail, RightParen)
    ensures ParseArguments(WriteArguments(args) + tail) == Ok(args, tail)
    decreases args, 3
  {
    var ts := WriteArguments(args) + tail;
    if args == [] {
      assert ts == tail;
    } else {
      var more := WriteMore(args[1..]) + tail;
      assert ts == Write(args[0], OR_LEVEL) + more;
      ArgumentParse(args[0], more);
      assert !At(ts, RightParen) by { FirstIsNotClose(args[0], OR_LEVEL); }
      assert [args[0]] + args[1..] == args;
      MoreParse([args[0]], args[1..], tail);
    }
  }

  lemma {:induction false} ArgumentParse(arg: Expr, more: seq<Token>)
    requires Writable(arg) && (At(more, Comma) || At(more, RightParen))
    ensures Parse(OR_LEVEL, Write(arg, OR_LEVEL) + more) == Ok(arg, more)
    decreases arg, 3
  {
    PunctuationEnds(more);
    WriteParse(arg, OR_LEVEL, more);
  }

  lemma {:induction false} MoreParse(done: seq<Expr>, args: seq<Expr>, tail: seq<Token>)
    requires forall i :: 0 <= i < |args| ==> Writable(args[i])
    requires At(tail, RightParen)
    ensures MoreArguments(done, WriteMore(args) + tail) == Ok(done + args, tail)
    decreases args, 3
  {
    if args == [] {
      assert WriteMore(args) + tail == tail && done + args == done;
    } else {
      var more := WriteMore(args[1..]) + tail;
      ArgumentParse(args[0], more);
      MoreParse(done + [args[0]], args[1..], tail);
      assert done + [args[0]] + args[1..] == done + args;
      MoreStarts(args, tail);
      OneMore(done, args[0], Write(args[0], OR_LEVEL), more);
    }
  }

  lemma {:induction false} MoreStarts(args: seq<Expr>, tail: seq<Token>)
    requires args != [] && forall i :: 0 <= i < |args| ==> Writable(args[i])
    ensures WriteMore(args) + tail == [Comma] + (Write(args[0], OR_LEVEL) + (WriteMore(args[1..]) + tail))
  {
    Regroup([Comma], Write(args[0], OR_LEVEL), WriteMore(args[1..]), tail);
  }

  lemma {:induction false} OneMore(done: seq<Expr>, arg: Expr, written: seq<Token>, more: seq<Token>)
    requires Parse(OR_LEVEL, written + more) == Ok(arg, more)
    ensures MoreArguments(done, [Comma] + (written + more)) == MoreArguments(done + [arg], more)
  {
    assert ([Comma] + (written + more))[1..] == written + more;
  }

  lemma {:induction false} FirstIsNotClose(e: Expr, level: Level)
    requires Writable(e)
    ensures Write(e, level) != [] && Write(e, level)[0] != RightParen
    decreases e
  {
    match e
    case Bin(l, op, r) => FirstIsNotClose(l, BinaryLevel(op).value);
    case InSub(l, query, notIn) => FirstIsNotClose(l, COMPARE_LEVEL);
    case _ =>
  }

  /** Written with the parentheses precedence needs, a tree is read back, and reading stops
      exactly where the tree ends. */
  lemma {:induction false} ParseInvertsWrite(e: Expr, rest: seq<Token>)
    requires Writable(e) && Follows(OR_LEVEL, rest)
    ensures Parse(OR_LEVEL, Write(e, OR_LEVEL) + rest) == Ok(e, rest)
  {
    FollowsFrom(rest);
    WriteParse(e, OR_LEVEL, rest);
  }

  // ---------- Precedence ----------

  /** How tightly a binary operator binds: OR, AND, the comparisons, + and -, and then *, / and %. */
  function Binding(op: string): nat {
    match op
    case "OR" => 1
    case "AND" => 2
    case "=" => 3 case "<>" => 3 case "!=" => 3 case "<" => 3 case ">" => 3 case "<=" => 3 case ">=" => 3
    case "+" => 4 case "-" => 4
    case "*" => 5 case "/" => 5 case "%" => 5
    case _ => 0
  }

  function Symbol(op: string): Token {
    match op
    case "OR" => Keyword("OR")
    case "AND" => Keyword("AND")
    case "NOT" => Keyword("NOT")
    case _ => Operator(op)
  }

  /** A tree written as it stands at every level, such as a name, a number, a text or a call. */
  ghost predicate Atom(e: Expr, ts: seq<Token>) {
    Writable(e) && LevelOf(e) == PRIMARY_LEVEL && WriteBare(e) == ts
  }

  lemma {:induction false} Atoms(n: nat, x: real, s: string, table: string, column: string)
    ensures n < 0x8000_0000 ==> Atom(Lit(IntValue(n)), [IntLiteral(n)])
    ensures Atom(Lit(DoubleValue(x)), [FloatLiteral(x)]) && Atom(Lit(StringValue(s)), [StringLiteral(s)])
    ensures Atom(Col("", column), [Identifier(column)])
    ensures table != "" ==> Atom(Col(table, column), [Identifier(table), Dot, Identifier(column)])
  {
  }

  lemma {:induction false} BindingIsLevel(op: string)
    ensures BinaryLevel(op).Some? <==> Binding(op) > 0
    ensures Binding(op) > 0 ==> BinaryToken(op) == Symbol(op)
    ensures BinaryLevel(op) == match Binding(op)
      case 0 => None
      case 1 => Some(OR_LEVEL)
      case 2 => Some(AND_LEVEL)
      case 3 => Some(COMPARE_LEVEL)
      case 4 => Some(ADD_LEVEL)
      case _ => Some(MULTIPLY_LEVEL)
  {
  }

  lemma {:induction false} WrittenBinary(l: Expr, x: seq<Token>, op: string, r: Expr, y: seq<Token>, level: Level)
    requires Binding(op) > 0 && Writable(l) && Writable(r) && level <= BinaryLevel(op).value
    requires Write(l, BinaryLevel(op).value) == x && Write(r, BinaryLevel(op).value + 1) == y
    ensures Writable(Bin(l, op, r)) && Write(Bin(l, op, r), level) == x + [Symbol(op)] + y
  {
    BindingIsLevel(op);
  }

  lemma {:induction false} WrittenUnary(sign: string, e: Expr, x: seq<Token>, level: Level)
    requires sign in {"NOT", "-", "+"} && Writable(e) && level <= LevelOf(Un(sign, e))
    requires Write(e, LevelOf(Un(sign, e))) == x
    ensures Write(Un(sign, e), level) == [Symbol(sign)] + x
  {
  }

  lemma {:induction false} WrittenMember(e: Expr, x: seq<Token>, query: Query, level: Level)
    requires Writable(e) && Write(e, COMPARE_LEVEL) == x && level <= MEMBER_LEVEL
    ensures Write(InSub(e, query, false), level) == x + InClause(query)
  {
  }

  function InClause(query: Query): seq<Token> {
    [Keyword("IN"), LeftParen, Nested(query), RightParen]
  }

  lemma {:induction false} ReadWhole(e: Expr, ts: seq<Token>)
    requires Writable(e) && Write(e, OR_LEVEL) == ts
    ensures Parse(OR_LEVEL, ts) == Ok(e, [])
  {
    assert ts + [] == ts;
    ParseInvertsWrite(e, []);
  }

  /** Of two operators the one that binds more tightly takes the operand between them, and of two that
      bind alike the first. */
  lemma {:induction false} TighterTakesTheMiddle(a: Expr, x: seq<Token>, op1: string, b: Expr, y: seq<Token>,
                                                 op2: string, c: Expr, z: seq<Token>)
    requires Atom(a, x) && Atom(b, y) && Atom(c, z) && Binding(op1) > 0 && Binding(op2) > 0
    ensures Parse(OR_LEVEL, x + [Symbol(op1)] + y + [Symbol(op2)] + z) ==
      Ok(if Binding(op1) >= Binding(op2) then Bin(Bin(a, op1, b), op2, c) else Bin(a, op1, Bin(b, op2, c)), [])
  {
    BindingIsLevel(op1);
    BindingIsLevel(op2);
    var l1, l2 := BinaryLevel(op1).value, BinaryLevel(op2).value;
    if Binding(op1) >= Binding(op2) {
      WrittenBinary(a, x, op1, b, y, l2);
      WrittenBinary(Bin(a, op1, b), x + [Symbol(op1)] + y, op2, c, z, OR_LEVEL);
      ReadWhole(Bin(Bin(a, op1, b), op2, c), x + [Symbol(op1)] + y + [Symbol(op2)] + z);
    } else {
      WrittenBinary(b, y, op2, c, z, l1 + 1);
      WrittenBinary(a, x, op1, Bin(b, op2, c), y + [Symbol(op2)] + z, OR_LEVEL);
      assert x + [Symbol(op1)] + (y + [Symbol(op2)] + z) == x + [Symbol(op1)] + y + [Symbol(op2)] + z;
      ReadWhole(Bin(a, op1, Bin(b, op2, c)), x + [Symbol(op1)] + y + [Symbol(op2)] + z);
    }
  }

  /** A sign takes the operand next to it alone, and NOT everything up to the next AND or OR. */
  lemma {:induction false} PrefixTakes(sign: string, a: Expr, x: seq<Token>, op: string, b: Expr, y: seq<Token>)
    requires Atom(a, x) && Atom(b, y) && sign in {"NOT", "-", "+"} && Binding(op) > 0
    ensures Parse(OR_LEVEL, [Symbol(sign)] + x + [Symbol(op)] + y) ==
      Ok(if sign == "NOT" && Binding(op) >= 3 then Un(sign, Bin(a, op, b)) else Bin(Un(sign, a), op, b), [])
  {
    BindingIsLevel(op);
    if sign == "NOT" && Binding(op) >= 3 {
      WrittenBinary(a, x, op, b, y, NOT_LEVEL);
      WrittenUnary(sign, Bin(a, op, b), x + [Symbol(op)] + y, OR_LEVEL);
      assert [Symbol(sign)] + (x + [Symbol(op)] + y) == [Symbol(sign)] + x + [Symbol(op)] + y;
      ReadWhole(Un(sign, Bin(a, op, b)), [Symbol(sign)] + x + [Symbol(op)] + y);
    } else {
      WrittenUnary(sign, a, x, BinaryLevel(op).value);
      WrittenBinary(Un(sign, a), [Symbol(sign)] + x, op, b, y, OR_LEVEL);
      ReadWhole(Bin(Un(sign, a), op, b), [Symbol(sign)] + x + [Symbol(op)] + y);
    }
  }

  /** IN takes the whole comparison in front of it, but no AND or OR, */
  lemma {:induction false} InTakes(a: Expr, x: seq<Token>, op: string, b: Expr, y: seq<Token>, query: Query)
    requires Atom(a, x) && Atom(b, y) && Binding(op) > 0
    ensures Parse(OR_LEVEL, x + [Symbol(op)] + y + InClause(query)) ==
      Ok(if Binding(op) >= 3 then InSub(Bin(a, op, b), query, false) else Bin(a, op, InSub(b, query, false)), [])
  {
    BindingIsLevel(op);
    if Binding(op) >= 3 {
      WrittenBinary(a, x, op, b, y, COMPARE_LEVEL);
      WrittenMember(Bin(a, op, b), x + [Symbol(op)] + y, query, OR_LEVEL);
      ReadWhole(InSub(Bin(a, op, b), query, false), x + [Symbol(op)] + y + InClause(query));
    } else {
      WrittenMember(b, y, query, BinaryLevel(op).value + 1);
      WrittenBinary(a, x, op, InSub(b, query, false), y + InClause(query), OR_LEVEL);
      assert x + [Symbol(op)] + (y + InClause(query)) == x + [Symbol(op)] + y + InClause(query);
      ReadWhole(Bin(a, op, InSub(b, query, false)), x + [Symbol(op)] + y + InClause(query));
    }
  }

  /** and no NOT. */
  lemma {:induction false} NotTakesIn(a: Expr, x: seq<Token>, query: Query)
    requires Atom(a, x)
    ensures Parse(OR_LEVEL, [Keyword("NOT")] + x + InClause(query)) == Ok(Un("NOT", InSub(a, query, false)), [])
  {
    WrittenMember(a, x, query, NOT_LEVEL);
    WrittenUnary("NOT", InSub(a, query, false), x + InClause(query), OR_LEVEL);
    assert [Keyword("NOT")] + (x + InClause(query)) == [Keyword("NOT")] + x + InClause(query);
    ReadWhole(Un("NOT", InSub(a, query, false)), [Keyword("NOT")] + x + InClause(query));
  }

  // ---------- The smallest pieces ----------

  /** An integer literal is read exactly if it fits 31 bits. */
  lemma {:induction false} IntegerLiteralIff(level: Level, n: nat)
    ensures Parse(level, [IntLiteral(n)]) == if n < 0x8000_0000 then Ok(Lit(IntValue(n)), []) else Fail
    decreases PRIMARY_LEVEL - level
  {
    if level < PRIMARY_LEVEL {
      IntegerLiteralIff(level + 1, n);
    }
  }

  /** A star where a value is expected is the text '*', so that f(*) is the call of f on that text; and
      reading goes on right behind it. */
  lemma {:induction false} StarIsText(name: string, rest: seq<Token>)
    requires Follows(OR_LEVEL, rest)
    ensures Parse(OR_LEVEL, [Operator("*")] + rest) == Ok(Lit(StringValue("*")), rest)
    ensures Parse(OR_LEVEL, [Identifier(name), LeftParen, Operator("*"), RightParen] + rest) ==
      Ok(Call(name, [Lit(StringValue("*"))]), rest)
  {
    var close := [RightParen] + rest;
    StarIsRead(rest);
    PunctuationEnds(close);
    StarIsRead(close);
    var call := [Identifier(name), LeftParen, Operator("*"), RightParen] + rest;
    assert call[1..][0] == LeftParen && call[2..] == [Operator("*")] + close && close[1..] == rest;
    assert ParseArguments(call[2..]) == Ok([Lit(StringValue("*"))], close);
    assert ParsePrimary(call) == Ok(Call(name, [Lit(StringValue("*"))]), rest);
    FollowsFrom(rest);
    LevelsPassOn(OR_LEVEL, PRIMARY_LEVEL, call, Call(name, [Lit(StringValue("*"))]), rest);
  }

  lemma {:induction false} StarIsRead(rest: seq<Token>)
    requires Follows(OR_LEVEL, rest)
    ensures Parse(OR_LEVEL, [Operator("*")] + rest) == Ok(Lit(StringValue("*")), rest)
  {
    var star := [Operator("*")] + rest;
    assert star[1..] == rest;
    FollowsFrom(rest);
    LevelsPassOn(OR_LEVEL, PRIMARY_LEVEL, star, Lit(StringValue("*")), rest);
  }

  lemma {:induction false} FollowsFrom(rest: seq<Token>)
    requires Follows(OR_LEVEL, rest)
    ensures Follows1(OR_LEVEL, rest)
  {
    if rest != [] {
      assert Ends(OR_LEVEL + 1, rest[0]);
    }
  }

  /** A parenthesis that is not closed behind the expression in it is refused. */
  lemma {:induction false} UnclosedIsRefused(e: Expr, rest: seq<Token>)
    requires Writable(e) && Follows(OR_LEVEL, rest) && !At(rest, RightParen)
    ensures ParsePrimary([LeftParen] + Write(e, OR_LEVEL) + rest) == Fail
  {
    assert ([LeftParen] + Write(e, OR_LEVEL) + rest)[1..] == Write(e, OR_LEVEL) + rest;
    ParseInvertsWrite(e, rest);
  }

  // ---------- What can be read ----------

  ghost predicate Fine(r: Parsed<Expr>) {
    r.Ok? ==> Writable(r.value)
  }

  ghost predicate AllWritable(es: seq<Expr>) {
    forall i :: 0 <= i < |es| ==> Writable(es[i])
  }

  lemma {:induction false} ParsedIsWritable(level: Level, ts: seq<Token>)
    ensures Fine(Parse(level, ts))
    decreases |ts|, 9 - level
  {
    if level == PRIMARY_LEVEL {
      PrimaryIsWritable(ts);
    } else if level == NOT_LEVEL || level == SIGN_LEVEL {
      if ts != [] && Prefixes(level, ts[0]) {
        ParsedIsWritable(level, ts[1..]);
      } else {
        ParsedIsWritable(level + 1, ts);
      }
    } else {
      ParsedIsWritable(level + 1, ts);
      match Parse(level + 1, ts)
      case Fail =>
      case Ok(left, rest) =>
        if level != MEMBER_LEVEL {
          ChainIsWritable(level, left, rest);
        }
    }
  }

  lemma {:induction false} ChainIsWritable(level: Level, left: Expr, ts: seq<Token>)
    requires Chains(level) && Writable(left)
    ensures Fine(Chain(level, left, ts))
    decreases |ts|, 9
  {
    if ts != [] && Joins(level, ts[0]) {
      ParsedIsWritable(level + 1, ts[1..]);
      match Parse(level + 1, ts[1..])
      case Fail =>
      case Ok(right, rest) =>
        assert BinaryLevel(ts[0].text).Some?;
        ChainIsWritable(level, Bin(left, ts[0].text, right), rest);
    }
  }

  lemma {:induction false} PrimaryIsWritable(ts: seq<Token>)
    ensures Fine(ParsePrimary(ts))
    decreases |ts|, 0
  {
    if ts != [] {
      match ts[0]
      case Identifier(name) =>
        if At(ts[1..], LeftParen) {
          ArgumentsAreWritable(ts[2..]);
        }
      case LeftParen => ParsedIsWritable(OR_LEVEL, ts[1..]);
      case _ =>
    }
  }

  lemma {:induction false} ArgumentsAreWritable(ts: seq<Token>)
    ensures ParseArguments(ts).Ok? ==> AllWritable(ParseArguments(ts).value)
    decreases |ts|, 11
  {
    if !At(ts, RightParen) {
      ParsedIsWritable(OR_LEVEL, ts);
      match Parse(OR_LEVEL, ts)
      case Fail =>
      case Ok(e, rest) => MoreAreWritable([e], rest);
    }
  }

  lemma {:induction false} MoreAreWritable(done: seq<Expr>, ts: seq<Token>)
    requires AllWritable(done)
    ensures MoreArguments(done, ts).Ok? ==> AllWritable(MoreArguments(done, ts).value)
    decreases |ts|, 10
  {
    if At(ts, Comma) {
      ParsedIsWritable(OR_LEVEL, ts[1..]);
      match Parse(OR_LEVEL, ts[1..])
      case Fail =>
      case Ok(e, rest) => MoreAreWritable(done + [e], rest);
    }
  }

  /** The trees that some token list reads as are exactly the writable ones. */
  lemma {:induction false} WritableIffParsed(e: Expr)
    ensures Writable(e) <==> exists ts: seq<Token> :: Parse(OR_LEVEL, ts) == Ok(e, [])
  {
    if Writable(e) {
      ParseInvertsWrite(e, []);
      assert Write(e, OR_LEVEL) + [] == Write(e, OR_LEVEL);
    }
    if ts: seq<Token> :| Parse(OR_LEVEL, ts) == Ok(e, []) {
      ParsedIsWritable(OR_LEVEL, ts);
    }
  }

  // ---------- Where the grammar loses something ----------

  /** EXISTS cannot start an expression, so WHERE EXISTS (SELECT ...) is refused. */
  lemma {:induction false} ExistsCannotStart(level: Level, ts: seq<Token>)
    requires At(ts, Keyword("EXISTS"))
    ensures Parse(level, ts) == Fail
    decreases 9 - level
  {
    if level < PRIMARY_LEVEL {
      ExistsCannotStart(level + 1, ts);
    }
  }

  /** Without a nested query IN is dropped, or refused if a parenthesis follows it; NOT IN, EXISTS and
      NOT EXISTS are dropped, and so is a parenthesis behind them. */
  lemma {:induction false} WithoutQuery(left: Expr, rest: seq<Token>)
    requires !(|rest| > 1 && rest[0] == LeftParen && rest[1].Nested?)
    ensures Member(left, [Keyword("IN")] + rest) == if At(rest, LeftParen) then Fail else Ok(left, rest)
    ensures var on := if At(rest, LeftParen) then rest[1..] else rest;
      && Member(left, [Keyword("NOT"), Keyword("IN")] + rest) == Ok(left, on)
      && Member(left, [Keyword("EXISTS")] + rest) == Ok(left, on)
      && Member(left, [Keyword("NOT"), Keyword("EXISTS")] + rest) == Ok(left, on)
  {
    InWithoutQuery(left, rest);
    NotInWithoutQuery(left, rest);
    ExistsWithoutQuery(left, rest);
  }

  lemma {:induction false} InWithoutQuery(left: Expr, rest: seq<Token>)
    requires !(|rest| > 1 && rest[0] == LeftParen && rest[1].Nested?)
    ensures Member(left, [Keyword("IN")] + rest) == if At(rest, LeftParen) then Fail else Ok(left, rest)
  {
    assert ([Keyword("IN")] + rest)[1..] == rest;
  }

  lemma {:induction false} NotInWithoutQuery(left: Expr, rest: seq<Token>)
    requires !(|rest| > 1 && rest[0] == LeftParen && rest[1].Nested?)
    ensures Member(left, [Keyword("NOT"), Keyword("IN")] + rest) ==
      Ok(left, if At(rest, LeftParen) then rest[1..] else rest)
  {
    var ts := [Keyword("NOT"), Keyword("IN")] + rest;
    assert ts[1..] == [Keyword("IN")] + rest && ts[1..][1..] == rest;
  }

  lemma {:induction false} ExistsWithoutQuery(left: Expr, rest: seq<Token>)
    requires !(|rest| > 1 && rest[0] == LeftParen && rest[1].Nested?)
    ensures var on := if At(rest, LeftParen) then rest[1..] else rest;
      && Member(left, [Keyword("EXISTS")] + rest) == Ok(left, on)
      && Member(left, [Keyword("NOT"), Keyword("EXISTS")] + rest) == Ok(left, on)
  {
    assert ([Keyword("EXISTS")] + rest)[1..] == rest;
    var ts := [Keyword("NOT"), Keyword("EXISTS")] + rest;
    assert ts[1..] == [Keyword("EXISTS")] + rest && ts[1..][1..] == rest;
  }

  /** With a nested query the parenthesis has to be closed behind it. */
  lemma {:induction false} OpenQueryIsRefused(left: Expr, query: Query, rest: seq<Token>)
    requires !At(rest, RightParen)
    ensures var open := [LeftParen, Nested(query)] + rest;
      && Member(left, [Keyword("IN")] + open) == Fail && Member(left, [Keyword("NOT"), Keyword("IN")] + open) == Fail
      && Member(left, [Keyword("EXISTS")] + open) == Fail
      && Member(left, [Keyword("NOT"), Keyword("EXISTS")] + open) == Fail
  {
    OpenInIsRefused(left, query, rest);
    OpenExistsIsRefused(left, query, rest);
  }

  lemma {:induction false} OpenInIsRefused(left: Expr, query: Query, rest: seq<Token>)
    requires !At(rest, RightParen)
    ensures var ts := [Keyword("IN")] + ([LeftParen, Nested(query)] + rest);
      Member(left, ts) == Fail && Member(left, [Keyword("NOT")] + ts) == Fail
    ensures var open := [LeftParen, Nested(query)] + rest;
      [Keyword("NOT")] + ([Keyword("IN")] + open) == [Keyword("NOT"), Keyword("IN")] + open
  {
    var ts := [Keyword("IN")] + ([LeftParen, Nested(query)] + rest);
    assert ts[3..] == rest && ([Keyword("NOT")] + ts)[1..] == ts;
  }

  lemma {:induction false} OpenExistsIsRefused(left: Expr, query: Query, rest: seq<Token>)
    requires !At(rest, RightParen)
    ensures var open := [LeftParen, Nested(query)] + rest;
      && Member(left, [Keyword("EXISTS")] + open) == Fail
      && Member(left, [Keyword("NOT"), Keyword("EXISTS")] + open) == Fail
  {
    var open := [LeftParen, Nested(query)] + rest;
    assert open[2..] == rest;
    assert MemberExists(left, open, true) == Fail && MemberExists(left, open, false) == Fail;
    var ts := [Keyword("EXISTS")] + open;
    assert ts[1..] == open && ([Keyword("NOT"), Keyword("EXISTS")] + open)[1..] == ts;
  }

  /** A NOT behind a comparison that neither IN nor EXISTS follows is dropped. */
  lemma {:induction false} StrayNotIsDropped(e: Expr, rest: seq<Token>)
    requires Writable(e) && LevelOf(e) > MEMBER_LEVEL
    requires !At(rest, Keyword("IN")) && !At(rest, Keyword("EXISTS"))
    ensures Parse(MEMBER_LEVEL, WriteBare(e) + [Keyword("NOT")] + rest) == Ok(e, rest)
  {
    var tail := [Keyword("NOT")] + rest;
    assert WriteBare(e) + [Keyword("NOT")] + rest == WriteBare(e) + tail;
    BareParseAt(e, COMPARE_LEVEL, tail);
    assert Parse(COMPARE_LEVEL, WriteBare(e) + tail) == Ok(e, tail);
    assert tail[1..] == rest;
  }
}
