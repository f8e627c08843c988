/** The parser object of src/frontend/parser/modules/ParserCore.hpp and ParserExpr.hpp: a cursor over the
    tokens that the parsing methods move forward, and back where they backtrack. The methods are proved
    to parse what module Parser says, so the parser terminates and undoes the printer. */
module ParserExprs {
  import P = Parser
  import opened Parser

  /** What a parsing method returns or throws. */
  datatype Outcome = Got(e: Expr) | Threw(why: Why)

  datatype ArgsOutcome = GotArgs(args: seq<Expr>) | ThrewArgs(why: Why)

  class ParserExpr {
    const tokens: seq<Token>
    var pos: nat

    constructor (tokens: seq<Token>)
      ensures this.tokens == tokens && pos == 0
    {
      this.tokens := tokens;
      pos := 0;
    }

    /** The tokens not consumed yet. */
    ghost function Rest(): seq<Token>
      requires pos <= |tokens|
      reads this
    {
      tokens[pos..]
    }

    ghost predicate Follows(s: Parsed, r: Outcome)
      requires pos <= |tokens|
      reads this
    {
      match r
      case Got(e) => s == Parsed(e, Rest())
      case Threw(why) => s == Failed(why)
    }

    ghost predicate FollowsArgs(s: ParsedArgs, r: ArgsOutcome)
      requires pos <= |tokens|
      reads this
    {
      match r
      case GotArgs(args) => s == ParsedArgs(args, Rest())
      case ThrewArgs(why) => s == FailedArgs(why)
    }

    function AtEnd(): bool
      reads this
    {
      pos >= |tokens|
    }

    predicate Check(t: Token)
      reads this
    {
      pos < |tokens| && tokens[pos] == t
    }

    method Advance()
      requires pos < |tokens|
      modifies `pos
      ensures pos == old(pos) + 1 && Rest() == old(Rest())[1..]
    {
      pos := pos + 1;
    }

    method Match(t: Token) returns (matched: bool)
      requires pos <= |tokens|
      modifies `pos
      ensures pos <= |tokens| && matched == old(Check(t))
      ensures matched ==> pos == old(pos) + 1 && Rest() == old(Rest())[1..]
      ensures !matched ==> pos == old(pos)
    {
      matched := Check(t);
      if matched { Advance(); }
    }

    /** Looks ahead without moving the cursor. */
    method IsGenericInvocationLookahead() returns (generic: bool)
      requires pos <= |tokens|
      ensures generic == IsGenericInvocation(Rest())
    {
      if !Check(TOp(Less)) { return false; }
      var forward, depth := pos + 1, 1;
      assert Rest()[1..] == tokens[forward..];
      while forward < |tokens|
        invariant pos < forward <= |tokens| && depth >= 1
        invariant IsGenericInvocation(Rest()) == LooksGeneric(tokens[forward..], depth)
      {
        var t := tokens[forward];
        assert tokens[forward..][1..] == tokens[forward + 1..];
        if t == TOp(Less) {
          depth := depth + 1;
        } else if t == TOp(Greater) {
          depth := depth - 1;
          if depth == 0 { return forward + 1 < |tokens| && tokens[forward + 1] == TLParen; }
        } else if t == TOp(Shr) {
          if depth <= 2 { return forward + 1 < |tokens| && tokens[forward + 1] == TLParen; }
          depth := depth - 2;
        } else if !t.TIdent? && t != TComma && t != TPtr {
          return false;
        }
        forward := forward + 1;
      }
      return false;
    }

    method ParseExpression(minPrec: nat) returns (r: Outcome)
      requires pos <= |tokens|
      modifies `pos
      ensures old(pos) <= pos <= |tokens| && Follows(P.ParseExpression(old(Rest()), minPrec), r)
      ensures r.Got? ==> pos > old(pos)
      decreases |tokens| - pos, 3
    {
      hide P.ParsePrefix, P.ParseInfix;
      ghost var ts := Rest();
      r := ParsePrefix();
      while r.Got? && pos < |tokens| && GetPrec(tokens[pos]) != 0 && GetPrec(tokens[pos]) >= minPrec
        invariant old(pos) <= pos <= |tokens| && (r.Got? ==> pos > old(pos))
        invariant r.Got? ==> P.ParseExpression(ts, minPrec) == P.ParseInfixes(r.e, Rest(), minPrec)
        invariant r.Threw? ==> P.ParseExpression(ts, minPrec) == Failed(r.why)
        decreases r.Got?, |tokens| - pos
      {
        r := ParseInfix(r.e);
      }
    }

    method ParsePrefix() returns (r: Outcome)
      requires pos <= |tokens|
      modifies `pos
      ensures old(pos) <= pos <= |tokens| && Follows(P.ParsePrefix(old(Rest())), r)
      ensures r.Got? ==> pos > old(pos)
      decreases |tokens| - pos, 2
    {
      hide P.ParseExpression, P.ParseGroup;
      if AtEnd() { return Threw(SyntaxError); }
      var tok := tokens[pos];
      if tok.TInt? {
        Advance();
        r := Got(IntLit(tok.value));
      } else if tok.TIdent? {
        if tok.text in BUILTINS { return Threw(NotModelled); }
        Advance();
        r := Got(VarRef(tok.text));
      } else if IsUnary(tok) {
        Advance();
        var operand := ParseExpression(UNARY);
        if operand.Threw? { return operand; }
        r := Got(Unary(UnaryOf(tok), operand.e));
      } else if tok == TLParen {
        Advance();
        r := ParseGroup();
      } else if tok == TLBracket || tok == TPtr || tok == TOther || tok.TLow? {
        r := Threw(NotModelled);
      } else {
        r := Threw(SyntaxError);
      }
    }

    /** Whether a parameter list and `=>` follow; the cursor is put back. */
    method TryLambda() returns (isLambda: bool)
      requires pos <= |tokens|
      modifies `pos
      ensures pos == old(pos) && isLambda == IsLambda(Rest())
    {
      var savePos := pos;
      SkipParams();
      isLambda := false;
      if Check(TRParen) {
        Advance();
        isLambda := Check(TFatArrow);
      }
      pos := savePos;
    }

    method SkipParams()
      requires pos <= |tokens|
      modifies `pos
      ensures old(pos) <= pos <= |tokens| && Rest() == AfterParams(old(Rest()))
    {
      ghost var all := AfterParams(Rest());
      while pos < |tokens| && tokens[pos].TIdent?
        invariant old(pos) <= pos <= |tokens| && AfterParams(Rest()) == all
        decreases |tokens| - pos
      {
        Advance();
        if !Check(TComma) { break; }
        Advance();
      }
    }

    /** Parses what is in the parentheses, looks whether it was a lambda's parameter list, and if not
        goes back and parses it again. */
    method ParseGroup() returns (r: Outcome)
      requires pos <= |tokens|
      modifies `pos
      ensures old(pos) <= pos <= |tokens| && Follows(P.ParseGroup(old(Rest())), r)
      ensures r.Got? ==> pos > old(pos)
      decreases |tokens| - pos, 4
    {
      hide P.ParseExpression, P.ParsePrefix, IsLambda;
      var savePos := pos;
      if !Check(TRParen) {
        var first := ParseExpression(ASSIGN);
        if first.Threw? { return first; }
        if Check(TComma) { return Threw(NotModelled); }
        pos := savePos;
      }
      var isLambda := TryLambda();
      if isLambda { return Threw(NotModelled); }
      pos := savePos;
      if Check(TRParen) {
        r := ParsePrefix();
      } else {
        r := ParseExpression(ASSIGN);
        if r.Threw? { return r; }
        var closed := Match(TRParen);
        if !closed { r := Threw(SyntaxError); }
      }
    }

    method ParseArgs() returns (r: ArgsOutcome)
      requires pos <= |tokens|
      modifies `pos
      ensures old(pos) <= pos <= |tokens| && FollowsArgs(P.ParseArgs(old(Rest())), r)
      ensures r.GotArgs? ==> pos > old(pos)
      decreases |tokens| - pos, 5
    {
      hide P.ParseExpression;
      ghost var ts := Rest();
      var empty := Match(TRParen);
      if empty { return GotArgs([]); }
      var args := [];
      var more := true;
      while more
        invariant old(pos) <= pos <= |tokens| && (args != [] ==> pos > old(pos))
        invariant more ==> P.ParseArgs(ts) == Appended(args, P.ParseMoreArgs(Rest()))
        invariant !more ==> args != [] && P.ParseArgs(ts) == Closed(args, Rest())
        decreases more, |tokens| - pos
      {
        ghost var here := Rest();
        var arg := ParseExpression(ASSIGN);
        if arg.Threw? { return ThrewArgs(arg.why); }
        AppendArg(args, arg.e, here, Rest());
        args := args + [arg.e];
        more := Match(TComma);
      }
      var closed := Match(TRParen);
      r := if closed then GotArgs(args) else ThrewArgs(SyntaxError);
    }

    method ParseInfix(left: Expr) returns (r: Outcome)
      requires pos < |tokens| && GetPrec(tokens[pos]) > 0
      modifies `pos
      ensures old(pos) <= pos <= |tokens| && Follows(P.ParseInfix(left, old(Rest())), r)
      ensures r.Got? ==> pos > old(pos)
      decreases |tokens| - pos, 0
    {
      hide P.ParseExpression, P.ParseArgs, P.ParseMember, IsGenericInvocation;
      var tok := tokens[pos];
      if tok.TLow? || tok == TPostfix { return Threw(NotModelled); }
      var generic := IsGenericInvocationLookahead();
      if generic { return Threw(NotModelled); }
      Advance();
      if tok == TLParen {
        var a := ParseArgs();
        r := if a.ThrewArgs? then Threw(a.why) else Got(FuncCall(left, a.args));
      } else if tok == TLBracket {
        var idx := ParseExpression(ASSIGN);
        if idx.Threw? { return idx; }
        var closed := Match(TRBracket);
        r := if closed then Got(ArrAccess(left, idx.e)) else Threw(SyntaxError);
      } else if tok == TDot {
        r := ParseMember(left);
      } else {
        var right := ParseExpression(GetPrec(tok) + 1);
        r := if right.Threw? then right else Got(Binary(tok.op, left, right.e));
      }
    }

    method ParseMember(left: Expr) returns (r: Outcome)
      requires pos <= |tokens|
      modifies `pos
      ensures old(pos) <= pos <= |tokens| && Follows(P.ParseMember(left, old(Rest())), r)
      ensures r.Got? ==> pos > old(pos)
      decreases |tokens| - pos, 6
    {
      hide P.ParseArgs, IsGenericInvocation;
      if AtEnd() || !tokens[pos].TIdent? { return Threw(SyntaxError); }
      var member := tokens[pos].text;
      Advance();
      var generic := IsGenericInvocationLookahead();
      if generic { return Threw(NotModelled); }
      var call := Match(TLParen);
      if call {
        var a := ParseArgs();
        r := if a.ThrewArgs? then Threw(a.why) else Got(MethodCall(left, member, a.args));
      } else {
        r := Got(MemberAccess(left, member));
      }
    }
  }

  /** More arguments after those already parsed. */
  function Appended(args: seq<Expr>, more: ParsedArgs): ParsedArgs {
    if more.FailedArgs? then more else ParsedArgs(args + more.args, more.rest)
  }

  /** The arguments, if the closing parenthesis is next. */
  function Closed(args: seq<Expr>, rest: seq<Token>): ParsedArgs {
    if rest != [] && rest[0] == TRParen then ParsedArgs(args, rest[1..]) else FailedArgs(SyntaxError)
  }

  lemma AppendArg(args: seq<Expr>, e: Expr, here: seq<Token>, rest: seq<Token>)
    requires P.ParseExpression(here, ASSIGN) == Parsed(e, rest)
    ensures Appended(args, P.ParseMoreArgs(here)) ==
            if rest != [] && rest[0] == TComma then Appended(args + [e], P.ParseMoreArgs(rest[1..]))
            else if rest != [] && rest[0] == TRParen then ParsedArgs(args + [e], rest[1..])
            else FailedArgs(SyntaxError)
  {
    hide P.ParseExpression;
    if rest != [] && rest[0] == TComma {
      var more := P.ParseMoreArgs(rest[1..]);
      if more.ParsedArgs? { assert args + ([e] + more.args) == args + [e] + more.args; }
    }
  }

  /** The parser object gives back any expression that was printed. */
  method ParsePrinted(e: Expr) returns (r: Outcome)
    requires Printable(e)
    ensures r == Got(e)
  {
    var parser := new ParserExpr(Print(e));
    assert parser.Rest() == Print(e) + [];
    RoundTrip(e, []);
    r := parser.ParseExpression(ASSIGN);
  }
}
