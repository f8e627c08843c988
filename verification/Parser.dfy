/** The expression parser of src/frontend/parser/modules/ParserExpr.hpp by precedence climbing, on token
    sequences, and a printer that puts parentheses only where precedence needs them. Parsing what is
    printed gives the expression back.

    Integer and character data of tokens are already converted. Constructs other than those of `Expr`
    (assignment, ranges, ternaries, channels, lambdas, generic calls, literals of other types) are
    recognised where the parser turns to them, and reported as not modelled. */
module Parser {

  datatype Operator =
    | PipePipe | AmpAmp | Pipe | Caret | Amp | EqEq | NotEq | Less | LessEq | Greater | GreaterEq
    | Shl | Shr | Plus | Minus | Star | Slash | Percent

  datatype Token =
    | TInt(value: int) | TIdent(text: string) | TOp(op: Operator) | TNot | TTilde
    | TLParen | TRParen | TLBracket | TRBracket | TDot | TComma | TFatArrow
    | TLow(level: nat)   // assignment, channel, range and question operators: precedences 1 to 4
    | TPostfix           // `++`, `--` and safe access
    | TPtr | TOther      // tokens without a precedence

  datatype UnaryOp = Negate | LogicalNot | BitwiseNot | AddressOf | Dereference

  datatype Expr =
    | IntLit(value: int)
    | VarRef(name: string)
    | Unary(unop: UnaryOp, operand: Expr)
    | Binary(op: Operator, left: Expr, right: Expr)
    | FuncCall(callee: Expr, args: seq<Expr>)
    | MethodCall(obj: Expr, name: string, args: seq<Expr>)
    | ArrAccess(arr: Expr, index: Expr)
    | MemberAccess(obj: Expr, name: string)

  // ----- precedences, as numbers in their order

  const ASSIGN: nat := 1
  const TERNARY: nat := 4
  const UNARY: nat := 15
  const CALL: nat := 16
  const PRIMARY: nat := 17

  function OpPrec(op: Operator): (p: nat)
    ensures 5 <= p <= 14
  {
    match op
    case PipePipe => 5
    case AmpAmp => 6
    case Pipe => 7
    case Caret => 8
    case Amp => 9
    case EqEq => 10
    case NotEq => 10
    case Less => 11
    case LessEq => 11
    case Greater => 11
    case GreaterEq => 11
    case Shl => 12
    case Shr => 12
    case Plus => 13
    case Minus => 13
    case Star => 14
    case Slash => 14
    case Percent => 14
  }

  function GetPrec(t: Token): (p: nat)
    ensures p != UNARY && p != PRIMARY
  {
    match t
    case TOp(op) => OpPrec(op)
    case TLow(level) => if 1 <= level <= TERNARY then level else 0
    case TLParen => CALL
    case TLBracket => CALL
    case TDot => CALL
    case TPostfix => CALL
    case _ => 0
  }

  /** Names that start a builtin call. */
  const BUILTINS: set<string> :=
    {"inb", "outb", "inw", "outw", "inl", "outl", "mmio_read8", "mmio_read16", "mmio_read32", "mmio_read64",
     "mmio_write8", "mmio_write16", "mmio_write32", "mmio_write64", "atomic_add", "atomic_sub", "atomic_cas",
     "atomic_load", "atomic_store", "disable_interrupts", "enable_interrupts", "halt"}

  /** Whether the tokens after a `<` look like type arguments followed by `(`. */
  function LooksGeneric(ts: seq<Token>, depth: nat): bool {
    if ts == [] then false
    else if ts[0] == TOp(Less) then LooksGeneric(ts[1..], depth + 1)
    else if ts[0] == TOp(Greater) then
      if depth <= 1 then |ts| > 1 && ts[1] == TLParen else LooksGeneric(ts[1..], depth - 1)
    else if ts[0] == TOp(Shr) then
      if depth <= 2 then |ts| > 1 && ts[1] == TLParen else LooksGeneric(ts[1..], depth - 2)
    else if !ts[0].TIdent? && ts[0] != TComma && ts[0] != TPtr then false
    else LooksGeneric(ts[1..], depth)
  }

  predicate IsGenericInvocation(ts: seq<Token>) {
    |ts| > 0 && ts[0] == TOp(Less) && LooksGeneric(ts[1..], 1)
  }

  // ----- parsing

  datatype Why = SyntaxError | NotModelled

  datatype Parsed = Parsed(e: Expr, rest: seq<Token>) | Failed(why: Why)

  datatype ParsedArgs = ParsedArgs(args: seq<Expr>, rest: seq<Token>) | FailedArgs(why: Why)

  function ParseExpression(ts: seq<Token>, minPrec: nat): (r: Parsed)
    ensures r.Parsed? ==> |r.rest| < |ts|
    decreases |ts|, 3
  {
    var left := ParsePrefix(ts);
    if left.Failed? then left else ParseInfixes(left.e, left.rest, minPrec)
  }

  /** The loop: operators that bind at least as tightly as minPrec. */
  function ParseInfixes(left: Expr, ts: seq<Token>, minPrec: nat): (r: Parsed)
    ensures r.Parsed? ==> |r.rest| <= |ts|
    decreases |ts|, 1
  {
    if ts == [] || GetPrec(ts[0]) == 0 || GetPrec(ts[0]) < minPrec then Parsed(left, ts)
    else
      var r := ParseInfix(left, ts);
      if r.Failed? then r else ParseInfixes(r.e, r.rest, minPrec)
  }

  function UnaryOf(t: Token): UnaryOp {
    match t
    case TOp(Minus) => Negate
    case TNot => LogicalNot
    case TTilde => BitwiseNot
    case TOp(Amp) => AddressOf
    case _ => Dereference
  }

  predicate IsUnary(t: Token) {
    t == TOp(Minus) || t == TNot || t == TTilde || t == TOp(Amp) || t == TOp(Star)
  }

  function ParsePrefix(ts: seq<Token>): (r: Parsed)
    ensures r.Parsed? ==> |r.rest| < |ts|
    decreases |ts|, 2
  {
    if ts == [] then Failed(SyntaxError)
    else if ts[0].TInt? then Parsed(IntLit(ts[0].value), ts[1..])
    else if ts[0].TIdent? then
      if ts[0].text in BUILTINS then Failed(NotModelled) else Parsed(VarRef(ts[0].text), ts[1..])
    else if IsUnary(ts[0]) then
      var r := ParseExpression(ts[1..], UNARY);
      if r.Failed? then r else Parsed(Unary(UnaryOf(ts[0]), r.e), r.rest)
    else if ts[0] == TLParen then ParseGroup(ts[1..])
    else if ts[0] == TLBracket || ts[0] == TPtr || ts[0] == TOther || ts[0].TLow? then Failed(NotModelled)
    else Failed(SyntaxError)
  }

  /** The identifiers of a lambda's parameter list, and where it ends. */
  function AfterParams(ts: seq<Token>): seq<Token> {
    if |ts| >= 2 && ts[0].TIdent? && ts[1] == TComma then AfterParams(ts[2..])
    else if |ts| >= 1 && ts[0].TIdent? then ts[1..]
    else ts
  }

  predicate IsLambda(ts: seq<Token>) {
    var r := AfterParams(ts);
    |r| >= 2 && r[0] == TRParen && r[1] == TFatArrow
  }

  /** After an opening parenthesis: several expressions, a lambda, or a grouped expression. */
  function ParseGroup(ts: seq<Token>): (r: Parsed)
    ensures r.Parsed? ==> |r.rest| < |ts|
    decreases |ts|, 4
  {
    if |ts| > 0 && ts[0] == TRParen then
      if IsLambda(ts) then Failed(NotModelled) else ParsePrefix(ts)  // `)` is no expression
    else
      var r := ParseExpression(ts, ASSIGN);
      if r.Failed? then r
      else if |r.rest| > 0 && r.rest[0] == TComma then Failed(NotModelled)
      else if IsLambda(ts) then Failed(NotModelled)
      else if |r.rest| > 0 && r.rest[0] == TRParen then Parsed(r.e, r.rest[1..])
      else Failed(SyntaxError)
  }

  /** Arguments up to the closing parenthesis. */
  function ParseArgs(ts: seq<Token>): (r: ParsedArgs)
    ensures r.ParsedArgs? ==> |r.rest| < |ts|
    decreases |ts|, 5
  {
    if |ts| > 0 && ts[0] == TRParen then ParsedArgs([], ts[1..]) else ParseMoreArgs(ts)
  }

  function ParseMoreArgs(ts: seq<Token>): (r: ParsedArgs)
    ensures r.ParsedArgs? ==> |r.rest| < |ts|
    decreases |ts|, 4
  {
    var first := ParseExpression(ts, ASSIGN);
    if first.Failed? then FailedArgs(first.why)
    else if first.rest == [] then FailedArgs(SyntaxError)
    else if first.rest[0] == TComma then
      var more := ParseMoreArgs(first.rest[1..]);
      if more.FailedArgs? then more else ParsedArgs([first.e] + more.args, more.rest)
    else if first.rest[0] == TRParen then ParsedArgs([first.e], first.rest[1..])
    else FailedArgs(SyntaxError)
  }

  function ParseInfix(left: Expr, ts: seq<Token>): (r: Parsed)
    requires |ts| > 0 && GetPrec(ts[0]) > 0
    ensures r.Parsed? ==> |r.rest| < |ts|
    decreases |ts|, 0
  {
    if ts[0].TLow? || ts[0] == TPostfix then Failed(NotModelled)
    else if IsGenericInvocation(ts) then Failed(NotModelled)
    else if ts[0] == TLParen then
      var a := ParseArgs(ts[1..]);
      if a.FailedArgs? then Failed(a.why) else Parsed(FuncCall(left, a.args), a.rest)
    else if ts[0] == TLBracket then
      var r := ParseExpression(ts[1..], ASSIGN);
      if r.Failed? then r
      else if |r.rest| > 0 && r.rest[0] == TRBracket then Parsed(ArrAccess(left, r.e), r.rest[1..])
      else Failed(SyntaxError)
    else if ts[0] == TDot then ParseMember(left, ts[1..])
    else
      var r := ParseExpression(ts[1..], GetPrec(ts[0]) + 1);
      if r.Failed? then r else Parsed(Binary(ts[0].op, left, r.e), r.rest)
  }

  function ParseMember(left: Expr, ts: seq<Token>): (r: Parsed)
    ensures r.Parsed? ==> |r.rest| < |ts|
    decreases |ts|, 6
  {
    if ts == [] || !ts[0].TIdent? then Failed(SyntaxError)
    else if IsGenericInvocation(ts[1..]) then Failed(NotModelled)
    else if |ts| > 1 && ts[1] == TLParen then
      var a := ParseArgs(ts[2..]);
      if a.FailedArgs? then Failed(a.why) else Parsed(MethodCall(left, ts[0].text, a.args), a.rest)
    else Parsed(MemberAccess(left, ts[0].text), ts[1..])
  }

  // ----- printing

  function PrecOf(e: Expr): nat {
    match e
    case IntLit(_) => PRIMARY
    case VarRef(_) => PRIMARY
    case Unary(_, _) => UNARY
    case Binary(op, _, _) => OpPrec(op)
    case _ => CALL
  }

  function TokenOf(op: UnaryOp): Token {
    match op
    case Negate => TOp(Minus)
    case LogicalNot => TNot
    case BitwiseNot => TTilde
    case AddressOf => TOp(Amp)
    case Dereference => TOp(Star)
  }

  function Parens(ts: seq<Token>): seq<Token> {
    [TLParen] + ts + [TRParen]
  }

  /** With parentheses if it binds less tightly than the place needs. */
  function PrintAt(e: Expr, minPrec: nat): seq<Token>
    decreases e, 1
  {
    if PrecOf(e) < minPrec then Parens(Print(e)) else Print(e)
  }

  function Print(e: Expr): seq<Token>
    decreases e, 0
  {
    match e
    case IntLit(n) => [TInt(n)]
    case VarRef(x) => [TIdent(x)]
    case Unary(op, a) => [TokenOf(op)] + PrintAt(a, UNARY)
    case Binary(op, a, b) => PrintAt(a, OpPrec(op)) + ([TOp(op)] + PrintRight(op, b))
    case FuncCall(f, args) =>
      (if f.MemberAccess? then Parens(Print(f)) else PrintAt(f, CALL)) + ([TLParen] + PrintArgs(args))
    case MethodCall(a, x, args) => PrintAt(a, CALL) + ([TDot, TIdent(x), TLParen] + PrintArgs(args))
    case ArrAccess(a, i) => PrintAt(a, CALL) + ([TLBracket] + PrintAt(i, ASSIGN) + [TRBracket])
    case MemberAccess(a, x) => PrintAt(a, CALL) + [TDot, TIdent(x)]
  }

  /** The right operand binds more tightly; after `<` it is always in parentheses, as an identifier
      there could be taken for a type argument. */
  function PrintRight(op: Operator, e: Expr): seq<Token>
    decreases e, 2
  {
    if op.Less? then Parens(Print(e)) else PrintAt(e, OpPrec(op) + 1)
  }

  /** The arguments and the closing parenthesis. */
  function PrintArgs(args: seq<Expr>): seq<Token>
    decreases args, 0
  {
    if args == [] then [TRParen]
    else if |args| == 1 then PrintAt(args[0], ASSIGN) + [TRParen]
    else PrintAt(args[0], ASSIGN) + ([TComma] + PrintArgs(args[1..]))
  }

  /** No variable is called like a builtin. */
  ghost predicate Printable(e: Expr) {
    match e
    case IntLit(_) => true
    case VarRef(x) => x !in BUILTINS
    case Unary(_, a) => Printable(a)
    case Binary(_, a, b) => Printable(a) && Printable(b)
    case FuncCall(f, args) => Printable(f) && forall a :: a in args ==> Printable(a)
    case MethodCall(o, _, args) => Printable(o) && forall a :: a in args ==> Printable(a)
    case ArrAccess(a, i) => Printable(a) && Printable(i)
    case MemberAccess(o, _) => Printable(o)
  }

  // ----- parsing what was printed

  /** What may follow an expression printed without parentheses. */
  ghost predicate Fits(e: Expr, rest: seq<Token>) {
    rest == []
    || (GetPrec(rest[0]) <= PrecOf(e) && rest[0] != TFatArrow && !IsGenericInvocation(rest)
        && (e.MemberAccess? ==> rest[0] != TLParen))
  }

  ghost predicate NoArrow(rest: seq<Token>) {
    rest == [] || rest[0] != TFatArrow
  }

  /** How printed text begins: not with `)`, and not with an identifier followed by `)` or a comma. */
  lemma {:induction false} Head(e: Expr)
    ensures var p := Print(e);
      |p| > 0 && p[0] != TRParen && (p[0].TIdent? ==> |p| == 1 || (p[1] != TComma && p[1] != TRParen))
    decreases e, 0
  {
    match e
    case Binary(op, a, b) => HeadBefore(a, OpPrec(op), [TOp(op)] + PrintRight(op, b));
    case FuncCall(f, args) => HeadBefore(f, CALL, [TLParen] + PrintArgs(args));
    case MethodCall(a, x, args) => HeadBefore(a, CALL, [TDot, TIdent(x), TLParen] + PrintArgs(args));
    case ArrAccess(a, i) => HeadBefore(a, CALL, [TLBracket] + PrintAt(i, ASSIGN) + [TRBracket]);
    case MemberAccess(a, x) => HeadBefore(a, CALL, [TDot, TIdent(x)]);
    case _ =>
  }

  lemma {:induction false} HeadBefore(a: Expr, m: nat, more: seq<Token>)
    requires |more| > 0 && more[0] != TComma && more[0] != TRParen
    ensures var p := PrintAt(a, m) + more;
      |p| > 1 && p[0] != TRParen && (p[0].TIdent? ==> p[1] != TComma && p[1] != TRParen)
    decreases a, 1
  {
    Head(a);
  }

  lemma NoLambda(e: Expr, rest: seq<Token>)
    requires NoArrow(rest)
    ensures !IsLambda(Print(e) + ([TRParen] + rest))
  {
    Head(e);
    var ts := Print(e) + ([TRParen] + rest);
    if ts[0].TIdent? {
      assert AfterParams(ts) == ts[1..];
      if |Print(e)| == 1 { assert ts[1..] == [TRParen] + rest; }
    }
  }

  lemma Stop(e: Expr, rest: seq<Token>, minPrec: nat)
    requires rest == [] || GetPrec(rest[0]) < minPrec
    ensures ParseInfixes(e, rest, minPrec) == Parsed(e, rest)
  {
  }

  /** An expression in parentheses, wherever it stands. */
  lemma {:induction false} ParensParse(e: Expr, rest: seq<Token>, minPrec: nat)
    requires Printable(e) && NoArrow(rest) && minPrec >= 1
    ensures ParseExpression(Parens(Print(e)) + rest, minPrec) == ParseInfixes(e, rest, minPrec)
    decreases e, 2
  {
    hide ParseInfixes, ParsePrefix, IsLambda, Print, Printable;
    var inner, ts := Print(e) + ([TRParen] + rest), Parens(Print(e)) + rest;
    assert ts == [TLParen] + inner && ts[1..] == inner;
    BareParses(e, [TRParen] + rest, ASSIGN);
    Stop(e, [TRParen] + rest, ASSIGN);
    NoLambda(e, rest);
    Head(e);
    GroupParse(ts, e, rest);
  }

  lemma GroupParse(ts: seq<Token>, e: Expr, rest: seq<Token>)
    requires |ts| > 1 && ts[0] == TLParen && ts[1] != TRParen && !IsLambda(ts[1..])
    requires ParseExpression(ts[1..], ASSIGN) == Parsed(e, [TRParen] + rest)
    ensures ParsePrefix(ts) == Parsed(e, rest)
  {
    hide ParseExpression, IsLambda;
    assert ([TRParen] + rest)[1..] == rest;
  }

  lemma {:induction false} AtParses(e: Expr, m: nat, rest: seq<Token>, minPrec: nat)
    requires Printable(e) && 1 <= minPrec <= m && NoArrow(rest) && (PrecOf(e) >= m ==> Fits(e, rest))
    ensures ParseExpression(PrintAt(e, m) + rest, minPrec) == ParseInfixes(e, rest, minPrec)
    decreases e, 3
  {
    hide ParseInfixes, ParseExpression, Print, Printable, Fits;
    if PrecOf(e) < m { ParensParse(e, rest, minPrec); } else { BareParses(e, rest, minPrec); }
  }

  lemma {:induction false} UnaryParses(e: Expr, rest: seq<Token>, minPrec: nat)
    requires e.Unary? && Printable(e) && 1 <= minPrec <= PrecOf(e) && Fits(e, rest)
    ensures ParseExpression(Print(e) + rest, minPrec) == ParseInfixes(e, rest, minPrec)
    decreases e, 0
  {
    hide ParseInfixes, PrintAt, IsGenericInvocation, ParseGroup;
    var ts := Print(e) + rest;
    assert ts[1..] == PrintAt(e.operand, UNARY) + rest;
    AtParses(e.operand, UNARY, rest, UNARY);
    Stop(e.operand, rest, UNARY);
    assert ts[0] == TokenOf(e.unop) && IsUnary(ts[0]) && UnaryOf(ts[0]) == e.unop;
  }

  lemma {:induction false} BinaryParses(e: Expr, rest: seq<Token>, minPrec: nat)
    requires e.Binary? && Printable(e) && 1 <= minPrec <= PrecOf(e) && Fits(e, rest)
    ensures ParseExpression(Print(e) + rest, minPrec) == ParseInfixes(e, rest, minPrec)
    decreases e, 0
  {
    hide ParseExpression, PrintAt, Print, PrintRight;
    var p := OpPrec(e.op);
    var right := PrintRight(e.op, e.right) + rest;
    var more := [TOp(e.op)] + right;
    BinaryText(e, rest);
    RightHead(e.op, e.right, rest);
    assert Fits(e.left, more) || PrecOf(e.left) < p;
    AtParses(e.left, p, more, minPrec);
    RightParses(e, rest);
    assert more[1..] == right;
    assert !IsGenericInvocation(more);
    assert ParseInfix(e.left, more) == Parsed(e, rest);
    assert ParseInfixes(e.left, more, minPrec) == ParseInfixes(e, rest, minPrec);
  }

  lemma BinaryText(e: Expr, rest: seq<Token>)
    requires e.Binary?
    ensures Print(e) + rest == PrintAt(e.left, OpPrec(e.op)) + ([TOp(e.op)] + (PrintRight(e.op, e.right) + rest))
  {
    hide PrintAt, PrintRight;
    var l, r := PrintAt(e.left, OpPrec(e.op)), PrintRight(e.op, e.right);
    assert Print(e) == l + ([TOp(e.op)] + r);
    assert l + ([TOp(e.op)] + r) + rest == l + ([TOp(e.op)] + (r + rest));
  }

  lemma RightHead(op: Operator, e: Expr, rest: seq<Token>)
    ensures |PrintRight(op, e) + rest| > 0 && (op.Less? ==> (PrintRight(op, e) + rest)[0] == TLParen)
  {
    Head(e);
  }

  lemma {:induction false} RightParses(e: Expr, rest: seq<Token>)
    requires e.Binary? && Printable(e) && Fits(e, rest)
    ensures ParseExpression(PrintRight(e.op, e.right) + rest, OpPrec(e.op) + 1) == Parsed(e.right, rest)
    decreases e.right, 4
  {
    hide ParseExpression, PrintAt, Print, ParseInfixes;
    var q := OpPrec(e.op) + 1;
    if e.op.Less? { ParensParse(e.right, rest, q); } else { AtParses(e.right, q, rest, q); }
    Stop(e.right, rest, q);
  }

  /** A postfix form: the text of the object, then more, which the parser takes as an infix. */
  lemma {:induction false} PostfixParses(e: Expr, obj: Expr, more: seq<Token>, rest: seq<Token>, minPrec: nat)
    requires Printable(obj) && 1 <= minPrec <= CALL && |more| > 0 && GetPrec(more[0]) == CALL && more[0] != TPostfix
    requires Print(e) == PrintAt(obj, CALL) + more && ParseInfix(obj, more + rest) == Parsed(e, rest)
    requires obj.MemberAccess? ==> more[0] != TLParen
    ensures ParseExpression(Print(e) + rest, minPrec) == ParseInfixes(e, rest, minPrec)
    decreases obj, 4
  {
    hide ParseExpression, PrintAt, Print, ParseInfix, Printable;
    assert PrintAt(obj, CALL) + more + rest == PrintAt(obj, CALL) + (more + rest);
    AtParses(obj, CALL, more + rest, minPrec);
  }

  lemma {:induction false} CallParses(e: Expr, rest: seq<Token>, minPrec: nat)
    requires e.FuncCall? && Printable(e) && 1 <= minPrec <= CALL
    ensures ParseExpression(Print(e) + rest, minPrec) == ParseInfixes(e, rest, minPrec)
    decreases e, 0
  {
    hide ParseExpression, PrintAt, PrintArgs, ParseArgs;
    var f, more := e.callee, [TLParen] + PrintArgs(e.args);
    ArgsParse(e.args, rest);
    assert (more + rest)[1..] == PrintArgs(e.args) + rest;
    assert ParseInfix(f, more + rest) == Parsed(e, rest);
    if f.MemberAccess? {
      assert Parens(Print(f)) + more + rest == Parens(Print(f)) + (more + rest);
      ParensParse(f, more + rest, minPrec);
    } else {
      PostfixParses(e, f, more, rest, minPrec);
    }
  }

  lemma {:induction false} MethodCallParses(e: Expr, rest: seq<Token>, minPrec: nat)
    requires e.MethodCall? && Printable(e) && 1 <= minPrec <= CALL
    ensures ParseExpression(Print(e) + rest, minPrec) == ParseInfixes(e, rest, minPrec)
    decreases e, 0
  {
    hide ParseExpression, PrintAt, PrintArgs, ParseArgs, ParseInfixes;
    var more := [TDot, TIdent(e.name), TLParen] + PrintArgs(e.args);
    ArgsParse(e.args, rest);
    var ts := (more + rest)[1..];
    assert ts == [TIdent(e.name), TLParen] + (PrintArgs(e.args) + rest);
    assert ts[2..] == PrintArgs(e.args) + rest;
    assert ParseMember(e.obj, ts) == Parsed(e, rest);
    PostfixParses(e, e.obj, more, rest, minPrec);
  }

  lemma {:induction false} MemberParses(e: Expr, rest: seq<Token>, minPrec: nat)
    requires e.MemberAccess? && Printable(e) && 1 <= minPrec <= CALL && Fits(e, rest)
    ensures ParseExpression(Print(e) + rest, minPrec) == ParseInfixes(e, rest, minPrec)
    decreases e, 0
  {
    hide ParseExpression, PrintAt, ParseInfixes;
    var more := [TDot, TIdent(e.name)];
    var ts := (more + rest)[1..];
    assert ts == [TIdent(e.name)] + rest && ts[1..] == rest;
    assert !IsGenericInvocation(rest);
    assert ParseMember(e.obj, ts) == Parsed(e, rest);
    PostfixParses(e, e.obj, more, rest, minPrec);
  }

  lemma {:induction false} IndexParses(e: Expr, rest: seq<Token>, minPrec: nat)
    requires e.ArrAccess? && Printable(e) && 1 <= minPrec <= CALL
    ensures ParseExpression(Print(e) + rest, minPrec) == ParseInfixes(e, rest, minPrec)
    decreases e, 0
  {
    hide ParseExpression, PrintAt, ParseInfixes;
    var index := PrintAt(e.index, ASSIGN);
    var more := [TLBracket] + index + [TRBracket];
    var after := [TRBracket] + rest;
    AtParses(e.index, ASSIGN, after, ASSIGN);
    Stop(e.index, after, ASSIGN);
    assert (more + rest)[1..] == index + after;
    assert after[1..] == rest;
    assert ParseInfix(e.arr, more + rest) == Parsed(e, rest);
    PostfixParses(e, e.arr, more, rest, minPrec);
  }

  lemma {:induction false} ArgsParse(args: seq<Expr>, rest: seq<Token>)
    requires forall a :: a in args ==> Printable(a)
    ensures ParseArgs(PrintArgs(args) + rest) == ParsedArgs(args, rest)
    decreases args, 5
  {
    hide ParseMoreArgs, PrintAt;
    if args == [] {
      assert (PrintArgs(args) + rest)[1..] == rest;
    } else {
      MoreArgsParse(args, rest);
      ArgsHead(args, rest);
    }
  }

  lemma ArgsHead(args: seq<Expr>, rest: seq<Token>)
    requires args != []
    ensures var p := PrintArgs(args) + rest; |p| > 0 && p[0] != TRParen
  {
    Head(args[0]);
  }

  lemma {:induction false} MoreArgsParse(args: seq<Expr>, rest: seq<Token>)
    requires args != [] && forall a :: a in args ==> Printable(a)
    ensures ParseMoreArgs(PrintArgs(args) + rest) == ParsedArgs(args, rest)
    decreases args, 4
  {
    hide ParseExpression, PrintAt, ParseInfixes, Printable;
    var first := PrintAt(args[0], ASSIGN);
    if |args| == 1 {
      var after := [TRParen] + rest;
      assert PrintArgs(args) + rest == first + after;
      AtParses(args[0], ASSIGN, after, ASSIGN);
      Stop(args[0], after, ASSIGN);
      assert after[1..] == rest && args == [args[0]];
    } else {
      var after := [TComma] + (PrintArgs(args[1..]) + rest);
      assert PrintArgs(args) + rest == first + after;
      AtParses(args[0], ASSIGN, after, ASSIGN);
      Stop(args[0], after, ASSIGN);
      MoreArgsParse(args[1..], rest);
      assert after[1..] == PrintArgs(args[1..]) + rest && args == [args[0]] + args[1..];
    }
  }

  lemma {:induction false} BareParses(e: Expr, rest: seq<Token>, minPrec: nat)
    requires Printable(e) && 1 <= minPrec <= PrecOf(e) && Fits(e, rest)
    ensures ParseExpression(Print(e) + rest, minPrec) == ParseInfixes(e, rest, minPrec)
    decreases e, 1
  {
    hide ParseInfixes, ParseGroup;
    match e
    case IntLit(n) => assert ([TInt(n)] + rest)[1..] == rest;
    case VarRef(x) => assert ([TIdent(x)] + rest)[1..] == rest;
    case Unary(_, _) => UnaryParses(e, rest, minPrec);
    case Binary(_, _, _) => BinaryParses(e, rest, minPrec);
    case FuncCall(_, _) => CallParses(e, rest, minPrec);
    case MethodCall(_, _, _) => MethodCallParses(e, rest, minPrec);
    case ArrAccess(_, _) => IndexParses(e, rest, minPrec);
    case MemberAccess(_, _) => MemberParses(e, rest, minPrec);
  }

  /** Parsing what is printed gives the expression back and stops at what follows it. */
  lemma RoundTrip(e: Expr, rest: seq<Token>)
    requires Printable(e) && (rest == [] || (GetPrec(rest[0]) == 0 && rest[0] != TFatArrow))
    ensures ParseExpression(Print(e) + rest, ASSIGN) == Parsed(e, rest)
  {
    BareParses(e, rest, ASSIGN);
    Stop(e, rest, ASSIGN);
  }

  /** Why the printer parenthesises after `<`: without, a comparison followed by `> (` is taken for a
      call with type arguments. */
  lemma LessTakenForGeneric(a: string, b: string, more: seq<Token>)
    requires a !in BUILTINS
    ensures ParseExpression([TIdent(a), TOp(Less), TIdent(b), TOp(Greater), TLParen] + more, ASSIGN) ==
      Failed(NotModelled)
  {
    var ts := [TIdent(a), TOp(Less), TIdent(b), TOp(Greater), TLParen] + more;
    var t1 := ts[1..];
    var t2, t3 := t1[1..], t1[1..][1..];
    assert t2[0] == TIdent(b) && t3[0] == TOp(Greater) && t3[1] == TLParen;
    assert LooksGeneric(t3, 1);
    assert LooksGeneric(t2, 1);
    assert t1[0] == TOp(Less) && IsGenericInvocation(t1);
    assert ParseInfix(VarRef(a), t1) == Failed(NotModelled);
    assert ParseInfixes(VarRef(a), t1, ASSIGN) == Failed(NotModelled);
    assert ParsePrefix(ts) == Parsed(VarRef(a), t1);
  }
}
