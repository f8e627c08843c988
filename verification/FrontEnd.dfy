/** Lexer and parser together: an expression written out as text is lexed and parsed to itself. */
module FrontEnd {
  import opened Options
  import opened Lexing
  import opened LexingLaws
  import P = Parser

  const INT64_LIMIT: int := 0x8000_0000_0000_0000

  // ----- from lexer tokens to parser tokens

  function DigitValue(c: char): nat
    requires IsHexDigit(c)
  {
    if IsDigit(c) then (c - '0') as int else if 'a' <= c <= 'f' then (c - 'a') as int + 10 else (c - 'A') as int + 10
  }

  /** The value of the digits before any other character. */
  function NumberValue(s: string, hex: bool, value: nat): nat {
    if s == "" || !(IsDigit(s[0]) || (hex && IsHexDigit(s[0]))) then value
    else NumberValue(s[1..], hex, (if hex then 16 * value else 10 * value) + DigitValue(s[0]))
  }

  /** What the parser makes of the text of an integer token; too large values raise an exception. */
  function ReadInt(s: string): P.Token {
    var value :=
      if |s| > 2 && (s[1] == 'x' || s[1] == 'X') then NumberValue(s[2..], true, 0) else NumberValue(s, false, 0);
    if value < INT64_LIMIT then P.TInt(value) else P.TOther
  }

  function ReadOperator(kind: TokenType): Option<P.Operator> {
    if kind == PipePipe then Some(P.PipePipe) else if kind == AmpAmp then Some(P.AmpAmp) else
    if kind == Pipe then Some(P.Pipe) else if kind == Caret then Some(P.Caret) else
    if kind == Amp then Some(P.Amp) else if kind == EqEq then Some(P.EqEq) else
    if kind == NotEq then Some(P.NotEq) else if kind == Less then Some(P.Less) else
    if kind == LessEq then Some(P.LessEq) else if kind == Greater then Some(P.Greater) else
    if kind == GreaterEq then Some(P.GreaterEq) else if kind == Shl then Some(P.Shl) else
    if kind == Shr then Some(P.Shr) else if kind == Plus then Some(P.Plus) else
    if kind == Minus then Some(P.Minus) else if kind == Star then Some(P.Star) else
    if kind == Slash then Some(P.Slash) else if kind == Percent then Some(P.Percent) else None
  }

  /** The parser's view of a token. */
  function Read(kind: TokenType, value: string): P.Token {
    if kind == Int then ReadInt(value)
    else if kind == Ident then P.TIdent(value)
    else if ReadOperator(kind).Some? then P.TOp(ReadOperator(kind).value)
    else ReadOther(kind)
  }

  function ReadOther(kind: TokenType): P.Token {
    if kind == Not then P.TNot else if kind == Tilde then P.TTilde
    else if kind == LParen then P.TLParen else if kind == RParen then P.TRParen
    else if kind == LBracket then P.TLBracket else if kind == RBracket then P.TRBracket
    else if kind == Dot then P.TDot else if kind == Comma then P.TComma
    else if kind == FatArrow then P.TFatArrow else if kind == Word(Ptr) then P.TPtr
    else if kind in {Eq, PlusEq, MinusEq, StarEq, SlashEq} then P.TLow(1)
    else if kind == ChanSendRecv then P.TLow(2)
    else if kind == Range || kind == RangeInclusive then P.TLow(3)
    else if kind == Question then P.TLow(4)
    else if kind in {QuestionSafe, PlusPlus, MinusMinus} then P.TPostfix
    else P.TOther
  }

  function ReadAll(tokens: seq<Token>): (ts: seq<P.Token>)
    ensures |ts| == |tokens|
  {
    seq(|tokens|, i requires 0 <= i < |tokens| => Read(tokens[i].kind, tokens[i].value))
  }

  // ----- writing

  function Decimal(n: nat): (s: string)
    ensures |s| > 0
  {
    (if n < 10 then "" else Decimal(n / 10)) + [('0' as int + n % 10) as char]
  }

  function WriteOperator(op: P.Operator): (TokenType, string) {
    match op
    case PipePipe => (PipePipe, "||")
    case AmpAmp => (AmpAmp, "&&")
    case Pipe => (Pipe, "|")
    case Caret => (Caret, "^")
    case Amp => (Amp, "&")
    case EqEq => (EqEq, "==")
    case NotEq => (NotEq, "!=")
    case Less => (Less, "<")
    case LessEq => (LessEq, "<=")
    case Greater => (Greater, ">")
    case GreaterEq => (GreaterEq, ">=")
    case Shl => (Shl, "<<")
    case Shr => (Shr, ">>")
    case Plus => (Plus, "+")
    case Minus => (Minus, "-")
    case Star => (Star, "*")
    case Slash => (Slash, "/")
    case Percent => (Percent, "%")
  }

  /** The tokens that expressions are printed with. */
  function Write(t: P.Token): (TokenType, string) {
    match t
    case TInt(n) => (Int, if n >= 0 then Decimal(n) else "")
    case TIdent(x) => (Ident, x)
    case TOp(op) => WriteOperator(op)
    case TNot => (Not, "!")
    case TTilde => (Tilde, "~")
    case TLParen => (LParen, "(")
    case TRParen => (RParen, ")")
    case TLBracket => (LBracket, "[")
    case TRBracket => (RBracket, "]")
    case TDot => (Dot, ".")
    case TComma => (Comma, ",")
    case TFatArrow => (FatArrow, "=>")
    case _ => (Eof, "")
  }

  function WriteAll(ts: seq<P.Token>): (tokens: seq<Token>)
    ensures |tokens| == |ts|
  {
    seq(|ts|, i requires 0 <= i < |ts| => Token(Write(ts[i]).0, Write(ts[i]).1, 1, 1, 0))
  }

  /** An identifier of the language. */
  predicate IsIdentifier(x: string) {
    x != "" && (IsAlpha(x[0]) || x[0] == '_') && (forall i :: 0 <= i < |x| ==> IsWordChar(x[i])) && Keyword(x) == Ident
  }

  predicate Writable(t: P.Token) {
    match t
    case TInt(n) => 0 <= n < INT64_LIMIT
    case TIdent(x) => IsIdentifier(x)
    case TLow(_) => false
    case TPostfix => false
    case TPtr => false
    case TOther => false
    case _ => true
  }

  /** Literals fit and names are identifiers. */
  ghost predicate WritableExpr(e: P.Expr) {
    match e
    case IntLit(n) => 0 <= n < INT64_LIMIT
    case VarRef(x) => IsIdentifier(x)
    case Unary(_, a) => WritableExpr(a)
    case Binary(_, a, b) => WritableExpr(a) && WritableExpr(b)
    case FuncCall(f, args) => WritableExpr(f) && forall a :: a in args ==> WritableExpr(a)
    case MethodCall(o, x, args) => WritableExpr(o) && IsIdentifier(x) && forall a :: a in args ==> WritableExpr(a)
    case ArrAccess(a, i) => WritableExpr(a) && WritableExpr(i)
    case MemberAccess(o, x) => WritableExpr(o) && IsIdentifier(x)
  }

  // ----- each token is lexed and read as it was written

  lemma {:induction false} WordsEnd(x: string, p: nat)
    requires p <= |x| && forall i :: p <= i < |x| ==> IsWordChar(x[i])
    ensures WordEnd(x, p) == |x|
    decreases |x| - p
  {
    if p < |x| { WordsEnd(x, p + 1); }
  }

  lemma IdentifierIsLexeme(x: string)
    requires IsIdentifier(x)
    ensures Lexeme(Ident, x)
  {
    hide Keyword;
    WordsEnd(x, 1);
    assert x[0..|x|] == x;
  }

  lemma {:induction false} DigitsEnd(s: string, p: nat)
    requires p <= |s| && forall i :: p <= i < |s| ==> IsDigit(s[i])
    ensures NumberEnd(s, p, false) == Number(|s|, false, true)
    decreases |s| - p
  {
    if p < |s| { DigitsEnd(s, p + 1); }
  }

  lemma {:induction false} DecimalDigits(n: nat)
    ensures forall i :: 0 <= i < |Decimal(n)| ==> IsDigit(Decimal(n)[i])
  {
    if n >= 10 { DecimalDigits(n / 10); }
  }

  lemma DecimalIsLexeme(n: nat)
    ensures Lexeme(Int, Decimal(n))
  {
    hide Decimal, Keyword;
    var s := Decimal(n);
    DecimalDigits(n);
    DigitsEnd(s, 1);
    assert s[0..|s|] == s;
    assert IsDigit(s[0]);
    assert |s| > 1 ==> IsDigit(s[1]);
  }

  /** Digits of the base. */
  predicate Digits(s: string, hex: bool) {
    forall i :: 0 <= i < |s| ==> IsDigit(s[i]) || (hex && IsHexDigit(s[i]))
  }

  lemma {:induction false} ValueAppend(s: string, c: char, hex: bool, value: nat)
    requires Digits(s + [c], hex)
    ensures NumberValue(s + [c], hex, value) ==
      NumberValue(s, hex, value) * (if hex then 16 else 10) + DigitValue((s + [c])[|s|])
  {
    var t := s + [c];
    assert IsDigit(t[0]) || (hex && IsHexDigit(t[0]));
    if s == "" {
      assert t == [c] && [c][1..] == "";
    } else {
      assert t[1..] == s[1..] + [c];
      ValueAppend(s[1..], c, hex, (if hex then 16 * value else 10 * value) + DigitValue(s[0]));
    }
  }

  lemma {:induction false} DecimalValue(n: nat)
    ensures NumberValue(Decimal(n), false, 0) == n
  {
    var c := ('0' as int + n % 10) as char;
    if n < 10 {
      ValueAppend("", c, false, 0);
    } else {
      DecimalDigits(n / 10);
      DecimalValue(n / 10);
      ValueAppend(Decimal(n / 10), c, false, 0);
    }
  }

  /** A decimal literal is read as its value, unless it is too large. */
  lemma DecimalIsRead(n: nat)
    ensures ReadInt(Decimal(n)) == if n < INT64_LIMIT then P.TInt(n) else P.TOther
  {
    hide Decimal, NumberValue;
    DecimalValue(n);
    DecimalDigits(n);
    assert |Decimal(n)| > 2 ==> IsDigit(Decimal(n)[1]);
  }

  function HexDigit(d: nat, upper: bool): char
    requires d < 16
  {
    (if upper then "0123456789ABCDEF" else "0123456789abcdef")[d]
  }

  function Hexadecimal(n: nat, upper: bool): (s: string)
    ensures |s| > 0
  {
    (if n < 16 then "" else Hexadecimal(n / 16, upper)) + [HexDigit(n % 16, upper)]
  }

  lemma HexDigitValue(d: nat, upper: bool)
    requires d < 16
    ensures IsHexDigit(HexDigit(d, upper)) && DigitValue(HexDigit(d, upper)) == d
  {
  }

  lemma {:induction false} HexValue(n: nat, upper: bool)
    ensures Digits(Hexadecimal(n, upper), true) && NumberValue(Hexadecimal(n, upper), true, 0) == n
  {
    hide HexDigit, DigitValue, NumberValue;
    HexDigitValue(n % 16, upper);
    var c := HexDigit(n % 16, upper);
    if n < 16 {
      assert "" + [c] == [c];
      NoDigits();
      ValueAppend("", c, true, 0);
    } else {
      HexValue(n / 16, upper);
      ValueAppend(Hexadecimal(n / 16, upper), c, true, 0);
    }
  }

  lemma NoDigits()
    ensures NumberValue("", true, 0) == 0
  {
  }

  /** A hexadecimal literal is one token and is read as its value, unless it is too large. */
  lemma HexIsRead(n: nat, upper: bool, mark: char)
    requires mark == 'x' || mark == 'X'
    ensures
      var s := ['0', mark] + Hexadecimal(n, upper);
      Lexeme(Int, s) && Read(Int, s) == if n < INT64_LIMIT then P.TInt(n) else P.TOther
  {
    hide Hexadecimal, NumberValue, Keyword, HexEnd;
    HexValue(n, upper);
    var s := ['0', mark] + Hexadecimal(n, upper);
    assert s[2..] == Hexadecimal(n, upper);
    assert Digits(s[2..], true);
    forall i | 2 <= i < |s| ensures IsHexDigit(s[i]) { assert s[i] == s[2..][i - 2]; }
    HexesEnd(s, 2);
    assert s[0..|s|] == s;
  }

  lemma {:induction false} HexesEnd(s: string, p: nat)
    requires p <= |s| && forall i :: p <= i < |s| ==> IsHexDigit(s[i])
    ensures HexEnd(s, p) == |s|
    decreases |s| - p
  {
    if p < |s| { HexesEnd(s, p + 1); }
  }

  lemma TokenRoundTrip(t: P.Token)
    requires Writable(t)
    ensures Lexeme(Write(t).0, Write(t).1) && Read(Write(t).0, Write(t).1) == t
  {
    hide Lexeme, ReadInt, Decimal, IsIdentifier, ReadOperator, WriteOperator;
    if t.TInt? {
      DecimalIsLexeme(t.value);
      DecimalIsRead(t.value);
    } else if t.TIdent? {
      IdentifierIsLexeme(t.text);
    } else if t.TOp? {
      OperatorIsRead(t.op);
      OperatorSpelled(t.op);
      SpelledIsLexeme(Write(t).0, Write(t).1);
    } else {
      PunctuationIsRead(t);
      PunctuationSpelled(t);
      SpelledIsLexeme(Write(t).0, Write(t).1);
    }
  }

  lemma OperatorIsRead(op: P.Operator)
    ensures Read(WriteOperator(op).0, WriteOperator(op).1) == P.TOp(op)
  {
    hide ReadInt, ReadOther, OperatorType, WriteOperator, ReadOperator;
    OperatorKind(op);
  }

  lemma OperatorKind(op: P.Operator)
    ensures ReadOperator(WriteOperator(op).0) == Some(op) && WriteOperator(op).0 != Int && WriteOperator(op).0 != Ident
  {
  }

  lemma OperatorSpelled(op: P.Operator)
    ensures
      var (kind, s) := WriteOperator(op);
      OperatorType(s) == Some(kind) && s != "//" && s != "/*"
  {
    assert |WriteOperator(op).1| == 1 ==> OperatorType(WriteOperator(op).1) == OneCharacter(WriteOperator(op).1[0]);
  }

  lemma PunctuationIsRead(t: P.Token)
    requires Writable(t) && !t.TInt? && !t.TIdent? && !t.TOp?
    ensures Read(Write(t).0, Write(t).1) == t
  {
    hide ReadInt, OperatorType;
    NoOperator(t);
  }

  lemma NoOperator(t: P.Token)
    requires Writable(t) && !t.TInt? && !t.TIdent? && !t.TOp?
    ensures ReadOperator(Write(t).0) == None
  {
    hide ReadInt, OperatorType, ReadOther, Read;
  }

  lemma PunctuationSpelled(t: P.Token)
    requires Writable(t) && !t.TInt? && !t.TIdent? && !t.TOp?
    ensures OperatorType(Write(t).1) == Some(Write(t).0)
  {
    hide ReadOperator, ReadOther, Read;
  }

  /** Operators begin with none of the characters that other tokens or blanks begin with. */
  lemma SpelledFirst(s: string)
    requires OperatorType(s).Some?
    ensures 1 <= |s| <= 3 && !IsAlpha(s[0]) && s[0] != '_' && !IsDigit(s[0]) && s[0] != '"' && !IsSpace(s[0])
    ensures s[0] == '.' && |s| > 1 ==> s[1] == '.'
    ensures s[0] == '/' && |s| > 1 ==> s[1] == '='
    ensures OperatorType(s) != Some(String)
  {
  }

  lemma SpelledIsLexeme(kind: TokenType, s: string)
    requires OperatorType(s) == Some(kind)
    ensures Lexeme(kind, s)
  {
    hide Keyword, WordEnd, HexEnd, NumberEnd, StringEnd, OperatorType, OperatorAt;
    SpelledFirst(s);
    assert s[0..|s|] == s;
    assert SpelledAt(s, 0, |s|);
    LongestOperator(s, 0);
  }

  // ----- the tokens of an expression

  ghost predicate AllWritable(ts: seq<P.Token>) {
    forall i :: 0 <= i < |ts| ==> Writable(ts[i])
  }

  lemma Join(ts: seq<P.Token>, us: seq<P.Token>)
    requires AllWritable(ts) && AllWritable(us)
    ensures AllWritable(ts + us)
  {
  }

  lemma InPlaceWritable(e: P.Expr, minPrec: nat)
    requires AllWritable(P.Print(e))
    ensures AllWritable(P.PrintAt(e, minPrec)) && AllWritable(P.Parens(P.Print(e)))
  {
    hide P.Print;
  }

  lemma {:induction false} PrintWritable(e: P.Expr)
    requires WritableExpr(e)
    ensures AllWritable(P.Print(e))
    decreases e, 0
  {
    hide IsIdentifier, AllWritable, P.PrintAt, P.Parens, P.PrintArgs;
    match e
    case IntLit(n) => Single(P.TInt(n));
    case VarRef(x) => Single(P.TIdent(x));
    case Unary(op, a) =>
      PrintWritable(a);
      InPlaceWritable(a, P.UNARY);
      Single(P.TokenOf(op));
      Join([P.TokenOf(op)], P.PrintAt(a, P.UNARY));
    case Binary(op, a, b) =>
      PrintWritable(a);
      PrintWritable(b);
      InPlaceWritable(a, P.OpPrec(op));
      InPlaceWritable(b, P.OpPrec(op) + 1);
      Single(P.TOp(op));
      Join([P.TOp(op)], P.PrintRight(op, b));
      Join(P.PrintAt(a, P.OpPrec(op)), [P.TOp(op)] + P.PrintRight(op, b));
    case FuncCall(f, args) =>
      PrintWritable(f);
      InPlaceWritable(f, P.CALL);
      ArgsWritable(args);
      Single(P.TLParen);
      Join([P.TLParen], P.PrintArgs(args));
      Join(if f.MemberAccess? then P.Parens(P.Print(f)) else P.PrintAt(f, P.CALL), [P.TLParen] + P.PrintArgs(args));
    case MethodCall(o, x, args) =>
      PrintWritable(o);
      InPlaceWritable(o, P.CALL);
      ArgsWritable(args);
      Three(P.TDot, P.TIdent(x), P.TLParen);
      Join([P.TDot, P.TIdent(x), P.TLParen], P.PrintArgs(args));
      Join(P.PrintAt(o, P.CALL), [P.TDot, P.TIdent(x), P.TLParen] + P.PrintArgs(args));
    case ArrAccess(a, i) =>
      PrintWritable(a);
      PrintWritable(i);
      InPlaceWritable(a, P.CALL);
      InPlaceWritable(i, P.ASSIGN);
      Single(P.TLBracket);
      Single(P.TRBracket);
      Join([P.TLBracket], P.PrintAt(i, P.ASSIGN));
      Join([P.TLBracket] + P.PrintAt(i, P.ASSIGN), [P.TRBracket]);
      Join(P.PrintAt(a, P.CALL), [P.TLBracket] + P.PrintAt(i, P.ASSIGN) + [P.TRBracket]);
    case MemberAccess(o, x) =>
      PrintWritable(o);
      InPlaceWritable(o, P.CALL);
      Three(P.TDot, P.TIdent(x), P.TDot);
      Join(P.PrintAt(o, P.CALL), [P.TDot, P.TIdent(x)]);
  }

  lemma Single(t: P.Token)
    requires Writable(t)
    ensures AllWritable([t])
  {
  }

  lemma Three(t: P.Token, u: P.Token, v: P.Token)
    requires Writable(t) && Writable(u) && Writable(v)
    ensures AllWritable([t, u]) && AllWritable([t, u, v])
  {
  }

  lemma {:induction false} ArgsWritable(args: seq<P.Expr>)
    requires forall a :: a in args ==> WritableExpr(a)
    ensures AllWritable(P.PrintArgs(args))
    decreases args, 0
  {
    if args != [] {
      assert args[0] in args;
      PrintWritable(args[0]);
      InPlaceWritable(args[0], P.ASSIGN);
      if |args| > 1 { ArgsWritable(args[1..]); }
    }
  }

  /** Written with a space between tokens, lexed, and parsed. */
  function Text(e: P.Expr): string {
    Printed(WriteAll(P.Print(e)))
  }

  /** An expression, printed as text with only the parentheses it needs, is read back as itself. */
  lemma TextRoundTrip(e: P.Expr)
    requires P.Printable(e) && WritableExpr(e)
    ensures
      var (tokens, ok) := Lex(Text(e), 0);
      ok && P.ParseExpression(ReadAll(tokens), P.ASSIGN) == P.Parsed(e, [])
  {
    hide Lex, Lexeme, Read, Write, Writable, Printed;
    var ts := P.Print(e);
    var written := WriteAll(ts);
    PrintWritable(e);
    forall i | 0 <= i < |ts|
      ensures Lexeme(written[i].kind, written[i].value) && Read(written[i].kind, written[i].value) == ts[i] {
      TokenRoundTrip(ts[i]);
    }
    assert Text(e)[0..] == Text(e);
    LexPrinted(Text(e), 0, written);
    var tokens := Lex(Text(e), 0).0;
    assert ReadAll(tokens) == ts;
    P.RoundTrip(e, []);
    assert ts + [] == ts;
  }

  // ----- names the parser looks for in vain

  predicate IsPortBuiltin(x: string) {
    x == "inb" || x == "outb" || x == "inw" || x == "outw" || x == "inl" || x == "outl"
  }

  predicate IsAtomicBuiltin(x: string) {
    x == "atomic_add" || x == "atomic_sub" || x == "atomic_cas" || x == "atomic_load" || x == "atomic_store"
      || x == "halt"
  }

  /** Names of builtins that the lexer makes keywords. */
  predicate IsKeywordBuiltin(x: string) {
    IsPortBuiltin(x) || IsAtomicBuiltin(x)
  }

  lemma PortsAreNoIdentifiers(x: string)
    requires Keyword(x) == Ident
    ensures !IsPortBuiltin(x)
  {
  }

  lemma AtomicsAreNoIdentifiers(x: string)
    requires Keyword(x) == Ident
    ensures !IsAtomicBuiltin(x)
  {
  }

  lemma IdentifierKind(src: string, p: nat)
    requires p < |src|
    ensures forall t :: t in TokensOf(src, p) && t.kind == Ident ==> Keyword(t.value) == Ident
  {
    hide Keyword, WordEnd, HexEnd, NumberEnd, StringEnd, OperatorAt, Line, Col;
    if OperatorAt(src, p).Some? { OperatorIsNoIdentifier(src, p); }
  }

  lemma OperatorIsNoIdentifier(src: string, p: nat)
    requires OperatorAt(src, p).Some?
    ensures OperatorAt(src, p).value.0 != Ident
  {
  }

  /** The parser compares identifiers with the names of builtins, but for these no identifier token ever
      arises: the branch cannot be taken. */
  lemma {:induction false} KeywordBuiltinsNeverArise(src: string, p: nat, i: nat)
    requires p <= |src| && i < |Lex(src, p).0| && Lex(src, p).0[i].kind == Ident
    ensures !IsKeywordBuiltin(Lex(src, p).0[i].value)
    decreases |src| - p
  {
    hide Scan, SkipEnd, TokensOf, IsPortBuiltin, IsAtomicBuiltin, Keyword;
    if p < |src| {
      var q := SkipEnd(src, p).0;
      if q < |src| {
        var here := TokensOf(src, q);
        if i < |here| {
          IdentifierKind(src, q);
          assert here[i] in here && Lex(src, p).0[i] == here[i];
          PortsAreNoIdentifiers(here[i].value);
          AtomicsAreNoIdentifiers(here[i].value);
        } else {
          KeywordBuiltinsNeverArise(src, Scan(src, q).next, i - |here|);
        }
      }
    }
  }

  lemma AndOrAreWords()
    ensures Keyword("and") == Word(And) && Keyword("or") == Word(Or)
  {
  }

  /** `and` and `or` are words of the lexer but no operators of the parser: an expression ends before them. */
  lemma WordOperatorsEnd(e: P.Expr, text: string, rest: seq<P.Token>)
    requires P.Printable(e) && (text == "and" || text == "or")
    ensures
      var ts := [Read(Keyword(text), text)] + rest;
      P.ParseExpression(P.Print(e) + ts, P.ASSIGN) == P.Parsed(e, ts)
  {
    hide Keyword, P.ParseExpression, P.Print, P.Printable;
    AndOrAreWords();
    P.RoundTrip(e, [Read(Keyword(text), text)] + rest);
  }

  // ----- the precedence matrix, by spellings

  /** The rows of Documentation.md, section 11, tightest first; the unary row, and the words `and` and `or`,
      are none of this table. */
  const MATRIX: seq<set<string>> :=
    [{"(", "[", ".", "?.", "++", "--"}, {}, {"*", "/", "%"}, {"+", "-"}, {"<<", ">>"}, {"<", "<=", ">", ">="},
     {"==", "!="}, {"&"}, {"^"}, {"|"}, {"&&"}, {"||"}, {"?"}, {"..", "..="}, {"<-"}, {"=", "+=", "-=", "*=", "/="}]

  /** How tightly the parser takes a text to bind what stands before it, 0 if not at all. */
  function BindingOf(s: string): nat {
    if OperatorType(s).None? then 0 else P.GetPrec(Read(OperatorType(s).value, s))
  }

  lemma PostfixSpelled()
    ensures
      OperatorType("(") == Some(LParen) && OperatorType("[") == Some(LBracket) && OperatorType(".") == Some(Dot) &&
      OperatorType("?.") == Some(QuestionSafe) && OperatorType("++") == Some(PlusPlus) &&
      OperatorType("--") == Some(MinusMinus)
  {
  }

  lemma ArithmeticSpelled()
    ensures
      OperatorType("*") == Some(Star) && OperatorType("/") == Some(Slash) && OperatorType("%") == Some(Percent) &&
      OperatorType("+") == Some(Plus) && OperatorType("-") == Some(Minus) && OperatorType("<<") == Some(Shl) &&
      OperatorType(">>") == Some(Shr)
  {
  }

  lemma ComparisonSpelled()
    ensures
      OperatorType("<") == Some(Less) && OperatorType("<=") == Some(LessEq) && OperatorType(">") == Some(Greater) &&
      OperatorType(">=") == Some(GreaterEq) && OperatorType("==") == Some(EqEq) && OperatorType("!=") == Some(NotEq)
  {
  }

  lemma BitSpelled()
    ensures
      OperatorType("&") == Some(Amp) && OperatorType("^") == Some(Caret) && OperatorType("|") == Some(Pipe) &&
      OperatorType("&&") == Some(AmpAmp) && OperatorType("||") == Some(PipePipe)
  {
  }

  lemma LooseSpelled()
    ensures
      OperatorType("?") == Some(Question) && OperatorType("..") == Some(Range) &&
      OperatorType("..=") == Some(RangeInclusive) && OperatorType("<-") == Some(ChanSendRecv)
  {
  }

  lemma AssignSpelled()
    ensures
      OperatorType("=") == Some(Eq) && OperatorType("+=") == Some(PlusEq) && OperatorType("-=") == Some(MinusEq) &&
      OperatorType("*=") == Some(StarEq) && OperatorType("/=") == Some(SlashEq)
  {
  }

  lemma PostfixNoOperator()
    ensures
      ReadOperator(LParen) == None && ReadOperator(LBracket) == None && ReadOperator(Dot) == None &&
      ReadOperator(QuestionSafe) == None && ReadOperator(PlusPlus) == None && ReadOperator(MinusMinus) == None
  {
  }

  lemma LooseNoOperator()
    ensures
      ReadOperator(Question) == None && ReadOperator(Range) == None && ReadOperator(RangeInclusive) == None &&
      ReadOperator(ChanSendRecv) == None
  {
  }

  lemma AssignNoOperator()
    ensures
      ReadOperator(Eq) == None && ReadOperator(PlusEq) == None && ReadOperator(MinusEq) == None &&
      ReadOperator(StarEq) == None && ReadOperator(SlashEq) == None
  {
  }

  lemma PostfixRead(s: string)
    ensures
      P.GetPrec(Read(LParen, s)) == 16 && P.GetPrec(Read(LBracket, s)) == 16 && P.GetPrec(Read(Dot, s)) == 16 &&
      P.GetPrec(Read(QuestionSafe, s)) == 16 && P.GetPrec(Read(PlusPlus, s)) == 16 &&
      P.GetPrec(Read(MinusMinus, s)) == 16
  {
    hide ReadInt, ReadOperator;
    PostfixNoOperator();
  }

  lemma ArithmeticRead(s: string)
    ensures
      P.GetPrec(Read(Star, s)) == 14 && P.GetPrec(Read(Slash, s)) == 14 && P.GetPrec(Read(Percent, s)) == 14 &&
      P.GetPrec(Read(Plus, s)) == 13 && P.GetPrec(Read(Minus, s)) == 13 && P.GetPrec(Read(Shl, s)) == 12 &&
      P.GetPrec(Read(Shr, s)) == 12
  {
    hide ReadInt, ReadOther, ReadOperator;
    OperatorKind(P.Star);
    OperatorKind(P.Slash);
    OperatorKind(P.Percent);
    OperatorKind(P.Plus);
    OperatorKind(P.Minus);
    OperatorKind(P.Shl);
    OperatorKind(P.Shr);
  }

  lemma ComparisonRead(s: string)
    ensures
      P.GetPrec(Read(Less, s)) == 11 && P.GetPrec(Read(LessEq, s)) == 11 && P.GetPrec(Read(Greater, s)) == 11 &&
      P.GetPrec(Read(GreaterEq, s)) == 11 && P.GetPrec(Read(EqEq, s)) == 10 && P.GetPrec(Read(NotEq, s)) == 10
  {
    hide ReadInt, ReadOther, ReadOperator;
    OperatorKind(P.Less);
    OperatorKind(P.LessEq);
    OperatorKind(P.Greater);
    OperatorKind(P.GreaterEq);
    OperatorKind(P.EqEq);
    OperatorKind(P.NotEq);
  }

  lemma BitRead(s: string)
    ensures
      P.GetPrec(Read(Amp, s)) == 9 && P.GetPrec(Read(Caret, s)) == 8 && P.GetPrec(Read(Pipe, s)) == 7 &&
      P.GetPrec(Read(AmpAmp, s)) == 6 && P.GetPrec(Read(PipePipe, s)) == 5
  {
    hide ReadInt, ReadOther, ReadOperator;
    OperatorKind(P.Amp);
    OperatorKind(P.Caret);
    OperatorKind(P.Pipe);
    OperatorKind(P.AmpAmp);
    OperatorKind(P.PipePipe);
  }

  lemma LooseRead(s: string)
    ensures
      P.GetPrec(Read(Question, s)) == 4 && P.GetPrec(Read(Range, s)) == 3 &&
      P.GetPrec(Read(RangeInclusive, s)) == 3 && P.GetPrec(Read(ChanSendRecv, s)) == 2
  {
    hide ReadInt, ReadOperator;
    LooseNoOperator();
  }

  lemma AssignRead(s: string)
    ensures
      P.GetPrec(Read(Eq, s)) == 1 && P.GetPrec(Read(PlusEq, s)) == 1 && P.GetPrec(Read(MinusEq, s)) == 1 &&
      P.GetPrec(Read(StarEq, s)) == 1 && P.GetPrec(Read(SlashEq, s)) == 1
  {
    hide ReadInt, ReadOperator;
    AssignNoOperator();
  }

  lemma PostfixBinding()
    ensures
      BindingOf("(") == 16 && BindingOf("[") == 16 && BindingOf(".") == 16 && BindingOf("?.") == 16 &&
      BindingOf("++") == 16 && BindingOf("--") == 16
  {
    hide OperatorType, Read;
    PostfixSpelled();
    PostfixRead("(");
    PostfixRead("[");
    PostfixRead(".");
    PostfixRead("?.");
    PostfixRead("++");
    PostfixRead("--");
  }

  lemma ArithmeticBinding()
    ensures
      BindingOf("*") == 14 && BindingOf("/") == 14 && BindingOf("%") == 14 && BindingOf("+") == 13 &&
      BindingOf("-") == 13 && BindingOf("<<") == 12 && BindingOf(">>") == 12
  {
    hide OperatorType, Read;
    ArithmeticSpelled();
    ArithmeticRead("*");
    ArithmeticRead("/");
    ArithmeticRead("%");
    ArithmeticRead("+");
    ArithmeticRead("-");
    ArithmeticRead("<<");
    ArithmeticRead(">>");
  }

  lemma ComparisonBinding()
    ensures
      BindingOf("<") == 11 && BindingOf("<=") == 11 && BindingOf(">") == 11 && BindingOf(">=") == 11 &&
      BindingOf("==") == 10 && BindingOf("!=") == 10
  {
    hide OperatorType, Read;
    ComparisonSpelled();
    ComparisonRead("<");
    ComparisonRead("<=");
    ComparisonRead(">");
    ComparisonRead(">=");
    ComparisonRead("==");
    ComparisonRead("!=");
  }

  lemma BitBinding()
    ensures
      BindingOf("&") == 9 && BindingOf("^") == 8 && BindingOf("|") == 7 && BindingOf("&&") == 6 &&
      BindingOf("||") == 5
  {
    hide OperatorType, Read;
    BitSpelled();
    BitRead("&");
    BitRead("^");
    BitRead("|");
    BitRead("&&");
    BitRead("||");
  }

  lemma LooseBinding()
    ensures
      BindingOf("?") == 4 && BindingOf("..") == 3 && BindingOf("..=") == 3 && BindingOf("<-") == 2
  {
    hide OperatorType, Read;
    LooseSpelled();
    LooseRead("?");
    LooseRead("..");
    LooseRead("..=");
    LooseRead("<-");
  }

  lemma AssignBinding()
    ensures
      BindingOf("=") == 1 && BindingOf("+=") == 1 && BindingOf("-=") == 1 && BindingOf("*=") == 1 &&
      BindingOf("/=") == 1
  {
    hide OperatorType, Read;
    AssignSpelled();
    AssignRead("=");
    AssignRead("+=");
    AssignRead("-=");
    AssignRead("*=");
    AssignRead("/=");
  }

  lemma RowBinding(s: string, i: nat)
    requires i < |MATRIX| && s in MATRIX[i]
    ensures BindingOf(s) == 16 - i
  {
    hide BindingOf;
    PostfixBinding();
    ArithmeticBinding();
    ComparisonBinding();
    BitBinding();
    LooseBinding();
    AssignBinding();
  }

  /** The parser orders the spellings of operators as the documented matrix does. */
  lemma MatrixIsFollowed(s: string, i: nat, t: string, j: nat)
    requires i < |MATRIX| && s in MATRIX[i] && j < |MATRIX| && t in MATRIX[j]
    ensures BindingOf(s) > BindingOf(t) > 0 <==> i < j
    ensures BindingOf(s) == BindingOf(t) <==> i == j
  {
    hide BindingOf;
    RowBinding(s, i);
    RowBinding(t, j);
  }
}
