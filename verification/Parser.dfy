/** The recursive-descent parser: a position in the token list that every method moves. */
module Parser {
  import opened Values
  import opened Expressions
  import opened Grammar

  class Parser {
    const tokens: seq<Token>
    var pos: nat

    ghost predicate Valid()
      reads this
    {
      pos <= |tokens|
    }

    /** The tokens not taken yet. */
    ghost function Ahead(): seq<Token>
      requires Valid()
      reads this
    {
      tokens[pos..]
    }

    /** The value e (None for an exception) and the position are what p says. */
    ghost predicate Agrees<T>(p: Parsed<T>, e: Option<T>)
      reads this
    {
      match p
      case Ok(v, rest) => e == Some(v) && Valid() && Ahead() == rest
      case Fail => e.None?
    }

    constructor (tokens: seq<Token>)
      ensures Valid() && this.tokens == tokens && Ahead() == tokens
    {
      this.tokens := tokens;
      pos := 0;
    }

    predicate Check(t: Token)
      requires Valid()
      reads this
      ensures Check(t) <==> At(Ahead(), t)
    {
      pos < |tokens| && tokens[pos] == t
    }

    method Advance()
      requires Valid() && pos < |tokens|
      modifies this
      ensures Valid() && pos == old(pos) + 1 && Ahead() == old(Ahead())[1..]
    {
      pos := pos + 1;
    }

    method Match(t: Token) returns (taken: bool)
      requires Valid()
      modifies this
      ensures Valid() && taken == At(old(Ahead()), t)
      ensures Ahead() == if taken then old(Ahead())[1..] else old(Ahead())
    {
      taken := Check(t);
      if taken {
        Advance();
      }
    }

    /** The next token is an operator that the loop of this level takes. */
    predicate CheckJoins(level: Level)
      requires Valid()
      reads this
      ensures CheckJoins(level) <==> Ahead() != [] && Joins(level, Ahead()[0])
    {
      pos < |tokens| && Joins(level, tokens[pos])
    }

    method ParseExpression() returns (e: Option<Expr>)
      requires Valid()
      modifies this
      ensures Agrees(Parse(OR_LEVEL, old(Ahead())), e)
      decreases |tokens| - pos, 10
    {
      e := ParseOr();
    }

    method ParseOr() returns (e: Option<Expr>)
      requires Valid()
      modifies this
      ensures Agrees(Parse(OR_LEVEL, old(Ahead())), e)
      decreases |tokens| - pos, 9
    {
      ghost var spec := Parse(OR_LEVEL, Ahead());
      e := ParseAnd();
      if e.None? { return; }
      var left := e.value;
      while CheckJoins(OR_LEVEL)
        invariant Valid() && pos > old(pos)
        invariant spec == Chain(OR_LEVEL, left, Ahead())
        decreases |tokens| - pos
      {
        var op := tokens[pos].text;
        Advance();
        e := ParseAnd();
        if e.None? { return; }
        left := Bin(left, op, e.value);
      }
      e := Some(left);
    }

    method ParseAnd() returns (e: Option<Expr>)
      requires Valid()
      modifies this
      ensures Agrees(Parse(AND_LEVEL, old(Ahead())), e)
      decreases |tokens| - pos, 8
    {
      ghost var spec := Parse(AND_LEVEL, Ahead());
      e := ParseNot();
      if e.None? { return; }
      var left := e.value;
      while CheckJoins(AND_LEVEL)
        invariant Valid() && pos > old(pos)
        invariant spec == Chain(AND_LEVEL, left, Ahead())
        decreases |tokens| - pos
      {
        var op := tokens[pos].text;
        Advance();
        e := ParseNot();
        if e.None? { return; }
        left := Bin(left, op, e.value);
      }
      e := Some(left);
    }

    method ParseNot() returns (e: Option<Expr>)
      requires Valid()
      modifies this
      ensures Agrees(Parse(NOT_LEVEL, old(Ahead())), e)
      decreases |tokens| - pos, 7
    {
      if Check(Keyword("NOT")) {
        Advance();
        e := ParseNot();
        if e.Some? {
          e := Some(Un("NOT", e.value));
        }
      } else {
        e := ParseComparison();
      }
    }

    method ParseComparison() returns (e: Option<Expr>)
      requires Valid()
      modifies this
      ensures Agrees(Parse(MEMBER_LEVEL, old(Ahead())), e)
      decreases |tokens| - pos, 6
    {
      ghost var spec := Parse(COMPARE_LEVEL, Ahead());
      e := ParseAdditive();
      if e.None? { return; }
      var left := e.value;
      while CheckJoins(COMPARE_LEVEL)
        invariant Valid() && pos > old(pos)
        invariant spec == Chain(COMPARE_LEVEL, left, Ahead())
        decreases |tokens| - pos
      {
        var op := tokens[pos].text;
        Advance();
        e := ParseAdditive();
        if e.None? { return; }
        left := Bin(left, op, e.value);
      }
      e := ParseMember(left);
    }

    /** The part of a comparison behind its loop. */
    method ParseMember(left: Expr) returns (e: Option<Expr>)
      requires Valid()
      modifies this
      ensures Agrees(Member(left, old(Ahead())), e)
    {
      e := Some(left);
      if Check(Keyword("IN")) {
        Advance();
        var open := Match(LeftParen);
        if open {
          if pos < |tokens| && tokens[pos].Nested? {
            var query := tokens[pos].query;
            Advance();
            e := Close(InSub(left, query, false));
          } else {
            e := None;
          }
        }
      } else if Check(Keyword("NOT")) {
        Advance();
        if Check(Keyword("IN")) {
          Advance();
          var open := Match(LeftParen);
          if open && pos < |tokens| && tokens[pos].Nested? {
            var query := tokens[pos].query;
            Advance();
            e := Close(InSub(left, query, true));
          }
        } else if Check(Keyword("EXISTS")) {
          Advance();
          e := ParseExists(left, true);
        }
      } else if Check(Keyword("EXISTS")) {
        Advance();
        e := ParseExists(left, false);
      }
    }

    method ParseExists(left: Expr, notExists: bool) returns (e: Option<Expr>)
      requires Valid()
      modifies this
      ensures Agrees(MemberExists(left, old(Ahead()), notExists), e)
    {
      e := Some(left);
      var open := Match(LeftParen);
      if open && pos < |tokens| && tokens[pos].Nested? {
        var query := tokens[pos].query;
        Advance();
        e := Close(Exists(query, notExists));
      }
    }

    /** The closing parenthesis behind e, without which the parse fails. */
    method Close(e: Expr) returns (r: Option<Expr>)
      requires Valid()
      modifies this
      ensures Agrees(Closed(e, old(Ahead())), r)
    {
      var taken := Match(RightParen);
      r := if taken then Some(e) else None;
    }

    method ParseAdditive() returns (e: Option<Expr>)
      requires Valid()
      modifies this
      ensures Agrees(Parse(ADD_LEVEL, old(Ahead())), e)
      decreases |tokens| - pos, 5
    {
      ghost var spec := Parse(ADD_LEVEL, Ahead());
      e := ParseMultiplicative();
      if e.None? { return; }
      var left := e.value;
      while CheckJoins(ADD_LEVEL)
        invariant Valid() && pos > old(pos)
        invariant spec == Chain(ADD_LEVEL, left, Ahead())
        decreases |tokens| - pos
      {
        var op := tokens[pos].text;
        Advance();
        e := ParseMultiplicative();
        if e.None? { return; }
        left := Bin(left, op, e.value);
      }
      e := Some(left);
    }

    method ParseMultiplicative() returns (e: Option<Expr>)
      requires Valid()
      modifies this
      ensures Agrees(Parse(MULTIPLY_LEVEL, old(Ahead())), e)
      decreases |tokens| - pos, 4
    {
      ghost var spec := Parse(MULTIPLY_LEVEL, Ahead());
      e := ParseUnary();
      if e.None? { return; }
      var left := e.value;
      while CheckJoins(MULTIPLY_LEVEL)
        invariant Valid() && pos > old(pos)
        invariant spec == Chain(MULTIPLY_LEVEL, left, Ahead())
        decreases |tokens| - pos
      {
        var op := tokens[pos].text;
        Advance();
        e := ParseUnary();
        if e.None? { return; }
        left := Bin(left, op, e.value);
      }
      e := Some(left);
    }

    method ParseUnary() returns (e: Option<Expr>)
      requires Valid()
      modifies this
      ensures Agrees(Parse(SIGN_LEVEL, old(Ahead())), e)
      decreases |tokens| - pos, 3
    {
      if pos < |tokens| && Prefixes(SIGN_LEVEL, tokens[pos]) {
        var op := tokens[pos].text;
        Advance();
        e := ParseUnary();
        if e.Some? {
          e := Some(Un(op, e.value));
        }
      } else {
        e := ParsePrimaryExpression();
      }
    }

    method ParsePrimaryExpression() returns (e: Option<Expr>)
      requires Valid()
      modifies this
      ensures Agrees(ParsePrimary(old(Ahead())), e)
      decreases |tokens| - pos, 2
    {
      e := None;
      if pos == |tokens| { return; }
      match tokens[pos]
      case IntLiteral(n) =>
        if n <= INT_MAX {
          Advance();
          e := Some(Lit(IntValue(n)));
        }
      case FloatLiteral(x) =>
        Advance();
        e := Some(Lit(DoubleValue(x)));
      case StringLiteral(s) =>
        Advance();
        e := Some(Lit(StringValue(s)));
      case Operator(op) =>
        if op == "*" {
          Advance();
          e := Some(Lit(StringValue("*")));
        }
      case Identifier(name) =>
        Advance();
        assert [Identifier(name)] + Ahead() == old(Ahead());
        e := ParseNamed(name);
      case LeftParen =>
        Advance();
        e := ParseExpression();
        if e.Some? {
          e := Close(e.value);
        }
      case _ =>
    }

    /** What starts with the identifier just taken: a call or a column. */
    method ParseNamed(name: string) returns (e: Option<Expr>)
      requires Valid() && pos > 0
      modifies this
      ensures Agrees(ParsePrimary([Identifier(name)] + old(Ahead())), e)
      decreases |tokens| - pos, 20
    {
      ghost var ts := [Identifier(name)] + Ahead();
      assert ts[1..] == Ahead();
      var open := Match(LeftParen);
      if open {
        assert ts[2..] == Ahead();
        var args := ParseCallArguments();
        if args.None? { return None; }
        e := Close(Call(name, args.value));
        return;
      }
      var dot := Match(Dot);
      if dot {
        assert ts[2..] == Ahead();
        if pos == |tokens| || !(tokens[pos].Identifier? || tokens[pos].Keyword?) { return None; }
        e := Some(Col(name, tokens[pos].text));
        Advance();
        return;
      }
      e := Some(Col("", name));
    }

    method ParseCallArguments() returns (args: Option<seq<Expr>>)
      requires Valid()
      modifies this
      ensures Agrees(ParseArguments(old(Ahead())), args)
      decreases |tokens| - pos, 19
    {
      ghost var spec := ParseArguments(Ahead());
      if Check(RightParen) { return Some([]); }
      var e := ParseExpression();
      if e.None? { return None; }
      var done := [e.value];
      while Check(Comma)
        invariant Valid() && pos > old(pos)
        invariant spec == MoreArguments(done, Ahead())
        decreases |tokens| - pos
      {
        Advance();
        e := ParseExpression();
        if e.None? { return None; }
        done := done + [e.value];
      }
      return Some(done);
    }
  }
}
