/** The lexer, src/frontend/lexer/Lexer.cpp: tokens and positions as functions of the source text.
    Characters are classified as in the C locale. */
module Lexing {
  import opened Options

  datatype TokenType =
    | Ident | Int | Float | String | Eof | Word(word: Reserved) | Semicolon | QuestionSafe | Question | Colon
    | FatArrow | EqEq | Eq | ThinArrow | MinusEq | MinusMinus | Minus | ChanSendRecv | LessEq | Shl | Less
    | GreaterEq | Shr | Greater | AmpAmp | Amp | PipePipe | Pipe | Not | NotEq | PlusEq | PlusPlus | Plus | StarEq
    | Star | SlashEq | Slash | Percent | Caret | Tilde | LParen | RParen | LBrace | RBrace | LBracket | RBracket
    | Comma | RangeInclusive | Range | Dot | Hash | At

  /** Words that are no identifiers. */
  datatype Reserved =
    | FullDev | Unsafe | Asm | Volatile | Ptr | SetReg | GetReg | CpuHalt | CpuCli | CpuSti | PortIn | PortOut
    | MmioRead | MmioWrite | RegRax | RegRbx | RegRcx | RegRdx | RegRsi | RegRdi | RegRbp | RegRsp | RegR8
    | RegR9 | RegR10 | RegR11 | RegR12 | RegR13 | RegR14 | RegR15 | Inb | Outb | Inw | Outw | Inl | Outl
    | AtomicAdd | AtomicSub | AtomicCas | AtomicLoad | AtomicStore | True | False | Print | Input | Fct | Proc
    | Rec | Array | Return | If | Else | While | For | In | To | Break | Continue | Switch | Case | Default
    | Class | Extends | This | New | Import | Extern | Go | Chan | Defer | Interface | Enum | Type | And | Or
    | Try | Catch | Throw | Let | Nil | Slice | Match | Ok | Err | SomeWord | NoneWord

  datatype Token = Token(kind: TokenType, value: string, line: nat, col: nat, start: nat)

  // ----- characters

  function Peek(src: string, p: nat): char {
    if p < |src| then src[p] else '\0'
  }

  predicate IsSpace(c: char) {
    c == ' ' || c == '\t' || c == '\n' || c == '\r' || c == '\U{0B}' || c == '\U{0C}'
  }

  predicate IsDigit(c: char) { '0' <= c <= '9' }

  predicate IsHexDigit(c: char) { IsDigit(c) || 'a' <= c <= 'f' || 'A' <= c <= 'F' }

  predicate IsAlpha(c: char) { 'a' <= c <= 'z' || 'A' <= c <= 'Z' }

  predicate IsWordChar(c: char) { IsAlpha(c) || IsDigit(c) || c == '_' }

  // ----- lines and columns, counted in the source before p

  function Line(src: string, p: nat): nat
    requires p <= |src|
  {
    if p == 0 then 1 else Line(src, p - 1) + if src[p - 1] == '\n' then 1 else 0
  }

  function Col(src: string, p: nat): nat
    requires p <= |src|
  {
    if p == 0 || src[p - 1] == '\n' then 1 else Col(src, p - 1) + 1
  }

  // ----- between tokens

  function LineCommentEnd(src: string, p: nat): (q: nat)
    requires p <= |src|
    ensures p <= q <= |src|
    decreases |src| - p
  {
    if Peek(src, p) == '\n' || Peek(src, p) == '\0' then p else LineCommentEnd(src, p + 1)
  }

  /** The end of a comment whose first two characters are before p, and whether it is closed. */
  function BlockCommentEnd(src: string, p: nat): (r: (nat, bool))
    requires p <= |src|
    ensures p <= r.0 <= |src|
    decreases |src| - p
  {
    if Peek(src, p) == '\0' then (p, false)
    else if Peek(src, p) == '*' && Peek(src, p + 1) == '/' then (p + 2, true)
    else BlockCommentEnd(src, p + 1)
  }

  function SkipEnd(src: string, p: nat): (r: (nat, bool))
    requires p <= |src|
    ensures p <= r.0 <= |src|
    decreases |src| - p
  {
    var c := Peek(src, p);
    if IsSpace(c) then SkipEnd(src, p + 1)
    else if c == '/' && Peek(src, p + 1) == '/' then SkipEnd(src, LineCommentEnd(src, p + 2))
    else if c == '/' && Peek(src, p + 1) == '*' then
      var (q, closed) := BlockCommentEnd(src, p + 2);
      var (r, ok) := SkipEnd(src, q);
      (r, closed && ok)
    else (p, true)
  }

  // ----- tokens

  function WordEnd(src: string, p: nat): (q: nat)
    requires p <= |src|
    ensures p <= q <= |src|
    decreases |src| - p
  {
    if p < |src| && IsWordChar(src[p]) then WordEnd(src, p + 1) else p
  }

  function HexEnd(src: string, p: nat): (q: nat)
    requires p <= |src|
    ensures p <= q <= |src|
    decreases |src| - p
  {
    if p < |src| && IsHexDigit(src[p]) then HexEnd(src, p + 1) else p
  }

  datatype Number = Number(end: nat, hasDot: bool, ok: bool)

  function NumberEnd(src: string, p: nat, hasDot: bool): (n: Number)
    requires p <= |src|
    ensures p <= n.end <= |src|
    decreases |src| - p
  {
    var c := Peek(src, p);
    if IsDigit(c) then NumberEnd(src, p + 1, hasDot)
    else if c != '.' || Peek(src, p + 1) == '.' then Number(p, hasDot, true)
    else if hasDot then Number(p, hasDot, false)
    else NumberEnd(src, p + 1, true)
  }

  /** Where the text of a string ends, and whether a quote follows. A backslash takes the next character. */
  function StringEnd(src: string, p: nat): (r: (nat, bool))
    requires p <= |src|
    ensures p <= r.0 <= |src| && (r.1 ==> r.0 < |src| && src[r.0] == '"')
    decreases |src| - p
  {
    var c := Peek(src, p);
    if c == '\0' || c == '\n' then (p, false)
    else if c == '\\' then StringEnd(src, if Peek(src, p + 1) != '\0' then p + 2 else p + 1)
    else if c == '"' then (p, true)
    else StringEnd(src, p + 1)
  }

  /** The type of a word. The scanner compares it with one spelling after the other; sorted here by first
      letters, which comes to the same (Keywords.KeywordExactly). */
  function Keyword(id: string): TokenType {
    if id == "" then Ident
    else if id[0] == 'E' then (
      if id == "Err" then Word(Err) else Ident)
    else if id[0] == 'N' then (
      if id == "None" then Word(NoneWord) else Ident)
    else if id[0] == 'O' then (
      if id == "Ok" then Word(Ok) else Ident)
    else if id[0] == 'S' then (
      if id == "Some" then Word(SomeWord) else Ident)
    else if id[0] == 'a' then KeywordInA(id)
    else if id[0] == 'b' then (
      if id == "break" then Word(Break) else Ident)
    else if id[0] == 'c' then KeywordInC(id)
    else if id[0] == 'd' then (
      if id == "default" then Word(Default) else if id == "defer" then Word(Defer) else Ident)
    else if id[0] == 'e' then (
      if id == "else" then Word(Else) else if id == "extends" then Word(Extends) else
      if id == "extern" then Word(Extern) else if id == "enum" then Word(Enum) else Ident)
    else if id[0] == 'f' then (
      if id == "fulldev" then Word(FullDev) else if id == "false" then Word(False) else
      if id == "fct" then Word(Fct) else if id == "for" then Word(For) else Ident)
    else if id[0] == 'g' then (
      if id == "getreg" then Word(GetReg) else if id == "go" then Word(Go) else Ident)
    else if id[0] == 'h' then (
      if id == "halt" then Word(CpuHalt) else Ident)
    else if id[0] == 'i' then KeywordInI(id)
    else if id[0] == 'l' then (
      if id == "let" then Word(Let) else Ident)
    else if id[0] == 'm' then (
      if id == "mmio_read" then Word(MmioRead) else if id == "mmio_write" then Word(MmioWrite) else
      if id == "match" then Word(Match) else Ident)
    else if id[0] == 'n' then (
      if id == "new" then Word(New) else if id == "nil" then Word(Nil) else if id == "not" then Not else Ident)
    else if id[0] == 'o' then (
      if id == "outb" then Word(Outb) else if id == "outw" then Word(Outw) else if id == "outl" then Word(Outl) else
      if id == "or" then Word(Or) else Ident)
    else if id[0] == 'p' then (
      if id == "ptr" then Word(Ptr) else if id == "port_in" then Word(PortIn) else
      if id == "port_out" then Word(PortOut) else if id == "print" then Word(Print) else
      if id == "proc" then Word(Proc) else Ident)
    else if id[0] == 'r' then KeywordInR(id)
    else if id[0] == 's' then (
      if id == "setreg" then Word(SetReg) else if id == "sti" then Word(CpuSti) else
      if id == "switch" then Word(Switch) else if id == "slice" then Word(Slice) else Ident)
    else if id[0] == 't' then KeywordInT(id)
    else if id[0] == 'u' then (
      if id == "unsafe" then Word(Unsafe) else Ident)
    else if id[0] == 'v' then (
      if id == "volatile" then Word(Volatile) else Ident)
    else if id[0] == 'w' then (
      if id == "while" then Word(While) else Ident)
    else Ident
  }

  function KeywordInA(id: string): TokenType {
    if id == "asm" then Word(Asm) else if id == "atomic_add" then Word(AtomicAdd) else
    if id == "atomic_sub" then Word(AtomicSub) else if id == "atomic_cas" then Word(AtomicCas) else
    if id == "atomic_load" then Word(AtomicLoad) else if id == "atomic_store" then Word(AtomicStore) else
    if id == "array" then Word(Array) else if id == "and" then Word(And) else Ident
  }

  function KeywordInC(id: string): TokenType {
    if id == "cpu_halt" then Word(CpuHalt) else if id == "cpu_cli" then Word(CpuCli) else
    if id == "cli" then Word(CpuCli) else if id == "cpu_sti" then Word(CpuSti) else
    if id == "continue" then Word(Continue) else if id == "case" then Word(Case) else
    if id == "class" then Word(Class) else if id == "chan" then Word(Chan) else
    if id == "catch" then Word(Catch) else Ident
  }

  function KeywordInI(id: string): TokenType {
    if id == "inb" then Word(Inb) else if id == "inw" then Word(Inw) else if id == "inl" then Word(Inl) else
    if id == "input" then Word(Input) else if id == "if" then Word(If) else if id == "in" then Word(In) else
    if id == "import" then Word(Import) else if id == "interface" then Word(Interface) else Ident
  }

  function KeywordInR(id: string): TokenType {
    if id == "rec" then Word(Rec) else if id == "return" then Word(Return) else
    if |id| > 1 && IsDigit(id[1]) then NumberedRegister(id) else NamedRegister(id)
  }

  function NamedRegister(id: string): TokenType {
    if id == "rax" then Word(RegRax) else if id == "rbx" then Word(RegRbx) else if id == "rcx" then Word(RegRcx) else
    if id == "rdx" then Word(RegRdx) else if id == "rsi" then Word(RegRsi) else if id == "rdi" then Word(RegRdi) else
    if id == "rbp" then Word(RegRbp) else if id == "rsp" then Word(RegRsp) else Ident
  }

  function NumberedRegister(id: string): TokenType {
    if id == "r8" then Word(RegR8) else if id == "r9" then Word(RegR9) else if id == "r10" then Word(RegR10) else
    if id == "r11" then Word(RegR11) else if id == "r12" then Word(RegR12) else if id == "r13" then Word(RegR13) else
    if id == "r14" then Word(RegR14) else if id == "r15" then Word(RegR15) else Ident
  }

  function KeywordInT(id: string): TokenType {
    if id == "true" then Word(True) else if id == "to" then Word(To) else if id == "this" then Word(This) else
    if id == "type" then Word(Type) else if id == "try" then Word(Try) else if id == "throw" then Word(Throw) else
    Ident
  }

  /** The operators, by their first characters. */
  function OperatorAt(src: string, p: nat): (o: Option<(TokenType, nat)>)
    ensures o.Some? && p < |src| ==> o.value.1 > 0 && p + o.value.1 <= |src|
  {
    var c, d := Peek(src, p), Peek(src, p + 1);
    if c == ';' then Some((Semicolon, 1))
    else if c == '?' then (if d == '.' then Some((QuestionSafe, 2)) else Some((Question, 1)))
    else if c == ':' then Some((Colon, 1))
    else if c ==
         '=' then (if d == '>' then Some((FatArrow, 2)) else if d == '=' then Some((EqEq, 2)) else Some((Eq, 1)))
    else if c ==
         '-' then (if d == '>' then Some((ThinArrow, 2)) else if d == '=' then Some((MinusEq, 2))
         else if d == '-' then Some((MinusMinus, 2)) else Some((Minus, 1)))
    else if c ==
         '<' then (if d == '-' then Some((ChanSendRecv, 2)) else if d == '=' then Some((LessEq, 2))
         else if d == '<' then Some((Shl, 2)) else Some((Less, 1)))
    else if c ==
         '>' then (if d == '=' then Some((GreaterEq, 2)) else if d == '>' then Some((Shr, 2)) else Some((Greater, 1)))
    else if c == '&' then (if d == '&' then Some((AmpAmp, 2)) else Some((Amp, 1)))
    else if c == '|' then (if d == '|' then Some((PipePipe, 2)) else Some((Pipe, 1)))
    else if c == '!' then (if d == '=' then Some((NotEq, 2)) else Some((Not, 1)))
    else if c ==
         '+' then (if d == '=' then Some((PlusEq, 2)) else if d == '+' then Some((PlusPlus, 2)) else Some((Plus, 1)))
    else if c == '*' then (if d == '=' then Some((StarEq, 2)) else Some((Star, 1)))
    else if c == '/' then (if d == '=' then Some((SlashEq, 2)) else Some((Slash, 1)))
    else if c == '%' then Some((Percent, 1))
    else if c == '^' then Some((Caret, 1))
    else if c == '~' then Some((Tilde, 1))
    else if c == '(' then Some((LParen, 1))
    else if c == ')' then Some((RParen, 1))
    else if c == '{' then Some((LBrace, 1))
    else if c == '}' then Some((RBrace, 1))
    else if c == '[' then Some((LBracket, 1))
    else if c == ']' then Some((RBracket, 1))
    else if c == ',' then Some((Comma, 1))
    else if c ==
         '.' then (if d != '.' then Some((Dot, 1)) else if Peek(src, p + 2) == '=' then Some((RangeInclusive, 3))
         else Some((Range, 2)))
    else if c == '#' then Some((Hash, 1))
    else if c == '@' then Some((At, 1))
    else None
  }

  /** One token: its type and text, where the scanner goes on, and whether there was no error. */
  datatype Scanned = Scanned(token: Option<(TokenType, string)>, next: nat, ok: bool)

  function Scan(src: string, p: nat): (s: Scanned)
    requires p < |src|
    ensures p < s.next <= |src| && (s.ok ==> s.token.Some?)
  {
    var c := src[p];
    if IsAlpha(c) || c == '_' then
      var q := WordEnd(src, p + 1);
      Scanned(Some((Keyword(src[p..q]), src[p..q])), q, true)
    else if IsDigit(c) || (c == '.' && IsDigit(Peek(src, p + 1))) then
      if c == '0' && (Peek(src, p + 1) == 'x' || Peek(src, p + 1) == 'X') then
        var q := HexEnd(src, p + 2);
        Scanned(Some((Int, src[p..q])), q, true)
      else
        var n := NumberEnd(src, p + 1, c == '.');
        Scanned(Some((if n.hasDot then Float else Int, src[p..n.end])), n.end, n.ok)
    else if c == '"' then
      var (q, closed) := StringEnd(src, p + 1);
      Scanned(Some((String, src[p + 1..q])), if closed then q + 1 else q, closed)
    else
      match OperatorAt(src, p)
      case None => Scanned(None, p + 1, false)
      case Some((t, n)) => Scanned(Some((t, src[p..p + n])), p + n, true)
  }

  /** The token that starts at p, none after an unexpected character. */
  function TokensOf(src: string, p: nat): seq<Token>
    requires p < |src|
  {
    match Scan(src, p).token
    case None => []
    case Some((kind, value)) => [Token(kind, value, Line(src, p), Col(src, p), p)]
  }

  /** The tokens from p on, without the final Eof, and whether there was no error. */
  function Lex(src: string, p: nat): (seq<Token>, bool)
    requires p <= |src|
    decreases |src| - p
  {
    if p == |src| then ([], true)
    else
      var (q, skipped) := SkipEnd(src, p);
      if q == |src| then ([], skipped)
      else
        var s := Scan(src, q);
        var (rest, ok) := Lex(src, s.next);
        (TokensOf(src, q) + rest, skipped && s.ok && ok)
  }

  function EofToken(src: string): Token {
    Token(Eof, "", Line(src, |src|), Col(src, |src|), |src|)
  }

  // ----- operators

  function OneCharacter(c: char): Option<TokenType> {
    if c == ';' then Some(Semicolon) else if c == '?' then Some(Question) else
    if c == ':' then Some(Colon) else if c == '=' then Some(Eq) else if c == '-' then Some(Minus) else
    if c == '<' then Some(Less) else if c == '>' then Some(Greater) else if c == '&' then Some(Amp) else
    if c == '|' then Some(Pipe) else if c == '!' then Some(Not) else if c == '+' then Some(Plus) else
    if c == '*' then Some(Star) else if c == '/' then Some(Slash) else if c == '%' then Some(Percent) else
    if c == '^' then Some(Caret) else if c == '~' then Some(Tilde) else if c == '(' then Some(LParen) else
    if c == ')' then Some(RParen) else if c == '{' then Some(LBrace) else if c == '}' then Some(RBrace) else
    if c == '[' then Some(LBracket) else if c == ']' then Some(RBracket) else if c == ',' then Some(Comma) else
    if c == '.' then Some(Dot) else if c == '#' then Some(Hash) else if c == '@' then Some(At) else None
  }

  function TwoCharacters(c: char, d: char): Option<TokenType> {
    if c == '?' && d == '.' then Some(QuestionSafe) else if c == '=' && d == '>' then Some(FatArrow) else
    if c == '=' && d == '=' then Some(EqEq) else if c == '-' && d == '>' then Some(ThinArrow) else
    if c == '-' && d == '=' then Some(MinusEq) else if c == '-' && d == '-' then Some(MinusMinus) else
    if c == '<' && d == '-' then Some(ChanSendRecv) else if c == '<' && d == '=' then Some(LessEq) else
    if c == '<' && d == '<' then Some(Shl) else if c == '>' && d == '=' then Some(GreaterEq) else
    if c == '>' && d == '>' then Some(Shr) else if c == '&' && d == '&' then Some(AmpAmp) else
    if c == '|' && d == '|' then Some(PipePipe) else if c == '!' && d == '=' then Some(NotEq) else
    if c == '+' && d == '=' then Some(PlusEq) else if c == '+' && d == '+' then Some(PlusPlus) else
    if c == '*' && d == '=' then Some(StarEq) else if c == '/' && d == '=' then Some(SlashEq) else
    if c == '.' && d == '.' then Some(Range) else None
  }

  /** The operators, by their spelling. */
  function OperatorType(s: string): Option<TokenType> {
    if |s| == 1 then OneCharacter(s[0]) else if |s| == 2 then TwoCharacters(s[0], s[1])
    else if s == "..=" then Some(RangeInclusive) else None
  }
}
