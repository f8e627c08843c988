/** How the parser groups operators, against the precedence matrix of Documentation.md, section 11. */
module Precedence {
  import opened Parser

  /** The binary operators, level by level, tightest first. */
  const LEVELS: seq<set<Operator>> :=
    [{Star, Slash, Percent}, {Plus, Minus}, {Shl, Shr}, {Less, LessEq, Greater, GreaterEq}, {EqEq, NotEq}, {Amp},
      {Caret},
     {Pipe}, {AmpAmp}, {PipePipe}]

  predicate AtLevel(op: Operator, i: nat) {
    i < |LEVELS| && op in LEVELS[i]
  }

  predicate BindsTighter(q: Operator, p: Operator) {
    exists i: nat, j: nat :: j < |LEVELS| && i < j && AtLevel(q, i) && AtLevel(p, j)
  }

  function LevelOf(op: Operator): (i: nat)
    ensures i < |LEVELS|
  {
    if op in {Star, Slash, Percent} then 0
    else if op in {Plus, Minus} then 1
    else if op in {Shl, Shr} then 2
    else if op in {Less, LessEq, Greater, GreaterEq} then 3
    else if op in {EqEq, NotEq} then 4
    else if op == Amp then 5
    else if op == Caret then 6
    else if op == Pipe then 7
    else if op == AmpAmp then 8
    else 9
  }

  lemma AtOneLevel(op: Operator, i: nat)
    ensures AtLevel(op, i) <==> i == LevelOf(op)
  {
  }

  lemma LevelIsPrec(op: Operator)
    ensures LevelOf(op) == 14 - OpPrec(op)
  {
  }

  /** The parser's precedences order the operators as the matrix does. */
  lemma TighterIsHigher(q: Operator, p: Operator)
    ensures BindsTighter(q, p) <==> OpPrec(q) > OpPrec(p)
  {
    hide LEVELS, AtLevel, LevelOf, OpPrec;
    LevelIsPrec(p);
    LevelIsPrec(q);
    forall i: nat ensures (AtLevel(q, i) <==> i == LevelOf(q)) && (AtLevel(p, i) <==> i == LevelOf(p)) {
      AtOneLevel(q, i);
      AtOneLevel(p, i);
    }
    if OpPrec(q) > OpPrec(p) { assert AtLevel(q, LevelOf(q)) && AtLevel(p, LevelOf(p)); }
  }

  /** An operand: in parentheses unless it is a unary, postfix or primary expression. */
  function Operand(e: Expr): seq<Token> {
    PrintAt(e, UNARY)
  }

  function Then(op: Operator, e: Expr, rest: seq<Token>): seq<Token> {
    [TOp(op)] + (Operand(e) + rest)
  }

  /** What ends an expression. */
  ghost predicate Ends(rest: seq<Token>) {
    rest == [] || (GetPrec(rest[0]) == 0 && rest[0] != TFatArrow)
  }

  /** An operand before an operator, or at the end. */
  lemma OperandParses(e: Expr, rest: seq<Token>, minPrec: nat)
    requires Printable(e) && 1 <= minPrec <= UNARY
    requires Ends(rest) || (rest[0].TOp? && !IsGenericInvocation(rest))
    ensures ParseExpression(Operand(e) + rest, minPrec) == ParseInfixes(e, rest, minPrec)
  {
    hide ParseInfixes, ParseExpression, Print, Printable, LooksGeneric;
    AtParses(e, UNARY, rest, minPrec);
  }

  /** The last operator, its right operand, and no more. */
  lemma LastOperand(left: Expr, op: Operator, e: Expr, rest: seq<Token>, minPrec: nat)
    requires Printable(e) && Ends(rest) && !IsGenericInvocation(Then(op, e, rest)) && 1 <= minPrec
    ensures
      ParseInfixes(left, Then(op, e, rest), minPrec) ==
      if OpPrec(op) >= minPrec then Parsed(Binary(op, left, e), rest) else Parsed(left, Then(op, e, rest))
  {
    hide ParseExpression, Print, Printable, Operand, OpPrec, IsGenericInvocation;
    var ts := Then(op, e, rest);
    assert ts[0] == TOp(op) && ts[1..] == Operand(e) + rest;
    OperandParses(e, rest, OpPrec(op) + 1);
    assert ParseInfixes(e, rest, OpPrec(op) + 1) == Parsed(e, rest);
    assert OpPrec(op) >= minPrec ==>
      ParseInfixes(Binary(op, left, e), rest, minPrec) == Parsed(Binary(op, left, e), rest);
  }

  /** Grouping: `a p b q c` is `a p (b q c)` if q binds tighter than p, and `(a p b) q c` if not. The one
      exception is a `<` whose right side the parser takes for type arguments. */
  lemma Groups(p: Operator, q: Operator, a: Expr, b: Expr, c: Expr, rest: seq<Token>)
    requires Printable(a) && Printable(b) && Printable(c) && Ends(rest)
    requires !IsGenericInvocation(Then(q, c, rest)) && !IsGenericInvocation(Then(p, b, Then(q, c, rest)))
    ensures
      ParseExpression(Operand(a) + Then(p, b, Then(q, c, rest)), ASSIGN) ==
      Parsed(if BindsTighter(q, p) then Binary(p, a, Binary(q, b, c)) else Binary(q, Binary(p, a, b), c), rest)
  {
    hide ParseExpression, Print, Printable, Operand, OpPrec, BindsTighter, IsGenericInvocation;
    var more := Then(q, c, rest);
    var ts := Then(p, b, more);
    TighterIsHigher(q, p);
    OperandParses(a, ts, ASSIGN);
    assert ts[0] == TOp(p) && ts[1..] == Operand(b) + more;
    OperandParses(b, more, OpPrec(p) + 1);
    LastOperand(b, q, c, rest, OpPrec(p) + 1);
    LastOperand(Binary(p, a, b), q, c, rest, ASSIGN);
  }

  /** Unary operators bind tighter than any binary one. */
  lemma UnaryBindsTighter(u: UnaryOp, q: Operator, b: Expr, c: Expr, rest: seq<Token>)
    requires Printable(b) && Printable(c) && Ends(rest) && !IsGenericInvocation(Then(q, c, rest))
    ensures
      ParseExpression([TokenOf(u)] + (Operand(b) + Then(q, c, rest)), ASSIGN) ==
      Parsed(Binary(q, Unary(u, b), c), rest)
  {
    hide ParseExpression, Print, Printable, Operand, IsGenericInvocation;
    var more := Then(q, c, rest);
    var ts := [TokenOf(u)] + (Operand(b) + more);
    OperandParses(b, more, UNARY);
    assert ParseInfixes(b, more, UNARY) == Parsed(b, more);
    UnaryPrefix(u, ts, b, more);
    LastOperand(Unary(u, b), q, c, rest, ASSIGN);
    Started(ts, Unary(u, b), more, ASSIGN);
  }

  lemma UnaryPrefix(u: UnaryOp, ts: seq<Token>, e: Expr, rest: seq<Token>)
    requires |ts| > 0 && ts[0] == TokenOf(u) && ParseExpression(ts[1..], UNARY) == Parsed(e, rest)
    ensures ParsePrefix(ts) == Parsed(Unary(u, e), rest)
  {
    hide ParseExpression;
  }

  lemma Started(ts: seq<Token>, e: Expr, rest: seq<Token>, minPrec: nat)
    requires ParsePrefix(ts) == Parsed(e, rest)
    ensures ParseExpression(ts, minPrec) == ParseInfixes(e, rest, minPrec)
  {
    hide ParsePrefix, ParseInfixes;
  }

  /** Calls, indexing and member access bind tighter than unary operators. */
  lemma PostfixBindsTighter(u: UnaryOp, e: Expr, rest: seq<Token>)
    requires (e.FuncCall? || e.MethodCall? || e.ArrAccess? || e.MemberAccess?) && Printable(e) && Ends(rest)
    ensures ParseExpression([TokenOf(u)] + (Print(e) + rest), ASSIGN) == Parsed(Unary(u, e), rest)
  {
    hide ParseExpression, Print, Printable, IsGenericInvocation;
    var ts := [TokenOf(u)] + (Print(e) + rest);
    assert Operand(e) == Print(e);
    OperandParses(e, rest, UNARY);
    assert ParseInfixes(e, rest, UNARY) == Parsed(e, rest);
    UnaryPrefix(u, ts, e, rest);
    Started(ts, Unary(u, e), rest, ASSIGN);
  }

  /** For example `1 + 2 * 3` and `1 * 2 + 3`. */
  lemma ProductFirst()
    ensures
      ParseExpression([TInt(1), TOp(Plus), TInt(2), TOp(Star), TInt(3)], ASSIGN) ==
      Parsed(Binary(Plus, IntLit(1), Binary(Star, IntLit(2), IntLit(3))), [])
  {
    var one, two, three := IntLit(1), IntLit(2), IntLit(3);
    assert Operand(one) == [TInt(1)] && Operand(two) == [TInt(2)] && Operand(three) == [TInt(3)];
    assert AtLevel(Star, 0) && AtLevel(Plus, 1);
    hide ParseExpression;
    Groups(Plus, Star, one, two, three, []);
    assert Operand(one) + Then(Plus, two, Then(Star, three, [])) ==
           [TInt(1), TOp(Plus), TInt(2), TOp(Star), TInt(3)];
  }

  // ----- a comparison or type arguments

  predicate InTypeArguments(t: Token) {
    t.TIdent? || t in {TOp(Less), TOp(Greater), TOp(Shr), TComma, TPtr}
  }

  /** How many brackets the tokens open more than they close; `>>` closes two. */
  function Opened(ts: seq<Token>): int {
    if ts == [] then 0 else Opens(ts[0]) + Opened(ts[1..])
  }

  function Opens(t: Token): int {
    if t == TOp(Less) then 1 else if t == TOp(Greater) then -1 else if t == TOp(Shr) then -2 else 0
  }

  /** With `depth` brackets open, the last is closed by the token before n, nothing but type arguments comes
      before, and a call follows. */
  ghost predicate ClosesAt(ts: seq<Token>, depth: nat, n: nat) {
    && 0 < n < |ts| && ts[n] == TLParen && (forall k :: 0 <= k < n ==> InTypeArguments(ts[k]))
    && depth + Opened(ts[..n]) <= 0 && forall k :: 0 <= k < n ==> depth + Opened(ts[..k]) > 0
  }

  lemma OpenedFirst(ts: seq<Token>, k: nat)
    requires 0 < k <= |ts|
    ensures Opened(ts[..k]) == Opened(ts[..1]) + Opened(ts[1..][..k - 1])
  {
    assert ts[..k][1..] == ts[1..][..k - 1] && ts[..1][1..] == [];
  }

  /** Going on after a first token that leaves brackets open. */
  lemma ClosesLater(ts: seq<Token>, depth: nat, depth': nat, n: nat)
    requires ts != [] && InTypeArguments(ts[0]) && depth > 0 && depth' > 0 && depth' == depth + Opened(ts[..1])
    ensures ClosesAt(ts, depth, n + 1) <==> ClosesAt(ts[1..], depth', n)
  {
    hide Opened, InTypeArguments;
    forall k: nat | k < |ts| ensures depth + Opened(ts[..k + 1]) == depth' + Opened(ts[1..][..k]) {
      OpenedFirst(ts, k + 1);
    }
    assert Opened(ts[..0]) == 0 by { Nothing(ts); }
    assert forall k :: 0 <= k < n && n < |ts| - 1 ==> ts[1..][k] == ts[k + 1];
    if ClosesAt(ts, depth, n + 1) {
      assert depth' + Opened(ts[1..][..0]) > 0 by { Nothing(ts[1..]); }
      forall k | 0 <= k < n ensures depth' + Opened(ts[1..][..k]) > 0 { assert depth + Opened(ts[..k + 1]) > 0; }
    }
    if ClosesAt(ts[1..], depth', n) {
      forall k | 0 <= k < n + 1 ensures depth + Opened(ts[..k]) > 0 && InTypeArguments(ts[k]) {
        if k > 0 { assert depth' + Opened(ts[1..][..k - 1]) > 0 && InTypeArguments(ts[1..][k - 1]); }
      }
    }
  }

  lemma Nothing(ts: seq<Token>)
    ensures Opened(ts[..0]) == 0
  {
  }

  lemma OneOpened(ts: seq<Token>)
    requires ts != []
    ensures Opened(ts[..1]) == Opens(ts[0])
  {
    assert ts[..1][1..] == [];
  }

  lemma ClosesNow(ts: seq<Token>, depth: nat, n: nat)
    requires ts != [] && depth > 0 && depth + Opens(ts[0]) <= 0
    ensures ClosesAt(ts, depth, n) <==> n == 1 && |ts| > 1 && ts[1] == TLParen
  {
    hide Opened;
    OneOpened(ts);
    Nothing(ts);
    assert InTypeArguments(ts[0]);
  }

  /** Tokens after a `<` pass for type arguments exactly if they close all brackets and a call follows. */
  lemma {:induction false} GenericExactly(ts: seq<Token>, depth: nat)
    requires depth > 0
    ensures LooksGeneric(ts, depth) <==> exists n: nat :: ClosesAt(ts, depth, n)
    decreases |ts|
  {
    hide ClosesAt, Opened;
    if ts == [] || !InTypeArguments(ts[0]) {
      forall n: nat ensures !ClosesAt(ts, depth, n) { NeverCloses(ts, depth, n); }
    } else if depth + Opens(ts[0]) <= 0 {
      forall n: nat ensures ClosesAt(ts, depth, n) <==> n == 1 && |ts| > 1 && ts[1] == TLParen {
        ClosesNow(ts, depth, n);
      }
      assert |ts| > 1 && ts[1] == TLParen ==> ClosesAt(ts, depth, 1);
    } else {
      var depth' := depth + Opens(ts[0]);
      OneOpened(ts);
      GenericExactly(ts[1..], depth');
      forall n: nat ensures ClosesAt(ts, depth, n + 1) <==> ClosesAt(ts[1..], depth', n) {
        ClosesLater(ts, depth, depth', n);
      }
      if n: nat :| ClosesAt(ts, depth, n) {
        ClosesAfter(ts, depth, n);
        assert ClosesAt(ts, depth, (n - 1) + 1);
        assert ClosesAt(ts[1..], depth', n - 1);
      }
      if n: nat :| ClosesAt(ts[1..], depth', n) { assert ClosesAt(ts, depth, n + 1); }
    }
  }

  lemma NeverCloses(ts: seq<Token>, depth: nat, n: nat)
    requires ts == [] || !InTypeArguments(ts[0])
    ensures !ClosesAt(ts, depth, n)
  {
  }

  lemma ClosesAfter(ts: seq<Token>, depth: nat, n: nat)
    requires ClosesAt(ts, depth, n)
    ensures n > 0
  {
  }
}
