/** The reserved words of the language by their spellings. */
module Keywords {
  import opened Lexing

  /** How a reserved word is written. */
  function WordSpelling(w: Reserved): string {
    match w
    case FullDev => "fulldev"
    case Unsafe => "unsafe"
    case Asm => "asm"
    case Volatile => "volatile"
    case Ptr => "ptr"
    case SetReg => "setreg"
    case GetReg => "getreg"
    case CpuHalt => "cpu_halt"
    case CpuCli => "cpu_cli"
    case CpuSti => "cpu_sti"
    case PortIn => "port_in"
    case PortOut => "port_out"
    case MmioRead => "mmio_read"
    case MmioWrite => "mmio_write"
    case RegRax => "rax"
    case RegRbx => "rbx"
    case RegRcx => "rcx"
    case RegRdx => "rdx"
    case RegRsi => "rsi"
    case RegRdi => "rdi"
    case RegRbp => "rbp"
    case RegRsp => "rsp"
    case RegR8 => "r8"
    case RegR9 => "r9"
    case RegR10 => "r10"
    case RegR11 => "r11"
    case RegR12 => "r12"
    case RegR13 => "r13"
    case RegR14 => "r14"
    case RegR15 => "r15"
    case Inb => "inb"
    case Outb => "outb"
    case Inw => "inw"
    case Outw => "outw"
    case Inl => "inl"
    case Outl => "outl"
    case AtomicAdd => "atomic_add"
    case AtomicSub => "atomic_sub"
    case AtomicCas => "atomic_cas"
    case AtomicLoad => "atomic_load"
    case AtomicStore => "atomic_store"
    case True => "true"
    case False => "false"
    case Print => "print"
    case Input => "input"
    case Fct => "fct"
    case Proc => "proc"
    case Rec => "rec"
    case Array => "array"
    case Return => "return"
    case If => "if"
    case Else => "else"
    case While => "while"
    case For => "for"
    case In => "in"
    case To => "to"
    case Break => "break"
    case Continue => "continue"
    case Switch => "switch"
    case Case => "case"
    case Default => "default"
    case Class => "class"
    case Extends => "extends"
    case This => "this"
    case New => "new"
    case Import => "import"
    case Extern => "extern"
    case Go => "go"
    case Chan => "chan"
    case Defer => "defer"
    case Interface => "interface"
    case Enum => "enum"
    case Type => "type"
    case And => "and"
    case Or => "or"
    case Try => "try"
    case Catch => "catch"
    case Throw => "throw"
    case Let => "let"
    case Nil => "nil"
    case Slice => "slice"
    case Match => "match"
    case Ok => "Ok"
    case Err => "Err"
    case SomeWord => "Some"
    case NoneWord => "None"
  }

  /** Three words of the processor may be written without their prefix. */
  function Spellings(w: Reserved): set<string> {
    {WordSpelling(w)} + match w case CpuHalt => {"halt"} case CpuCli => {"cli"} case CpuSti => {"sti"} case _ => {}
  }

  // ----- the spellings one by one

  lemma SpelledA(w: Reserved)
    ensures
      (w == Asm ==> WordSpelling(w) == "asm") && (w == AtomicAdd ==> WordSpelling(w) == "atomic_add") &&
      (w == AtomicSub ==> WordSpelling(w) == "atomic_sub") && (w == AtomicCas ==> WordSpelling(w) == "atomic_cas") &&
      (w == AtomicLoad ==> WordSpelling(w) == "atomic_load")
        && (w == AtomicStore ==> WordSpelling(w) == "atomic_store") &&
      (w == Array ==> WordSpelling(w) == "array") && (w == And ==> WordSpelling(w) == "and")
  {
    match w
    case Asm => case AtomicAdd => case AtomicSub => case AtomicCas => case AtomicLoad => case AtomicStore =>
    case Array => case And => case _ =>
  }

  lemma SpelledC(w: Reserved)
    ensures
      (w == CpuHalt ==> WordSpelling(w) == "cpu_halt") && (w == CpuCli ==> WordSpelling(w) == "cpu_cli") &&
      (w == CpuSti ==> WordSpelling(w) == "cpu_sti") && (w == Continue ==> WordSpelling(w) == "continue") &&
      (w == Case ==> WordSpelling(w) == "case") && (w == Class ==> WordSpelling(w) == "class") &&
      (w == Chan ==> WordSpelling(w) == "chan") && (w == Catch ==> WordSpelling(w) == "catch")
  {
    match w
    case CpuHalt => case CpuCli => case CpuSti => case Continue => case Case => case Class => case Chan =>
    case Catch => case _ =>
  }

  lemma SpelledI(w: Reserved)
    ensures
      (w == Inb ==> WordSpelling(w) == "inb") && (w == Inw ==> WordSpelling(w) == "inw") &&
      (w == Inl ==> WordSpelling(w) == "inl") && (w == Input ==> WordSpelling(w) == "input") &&
      (w == If ==> WordSpelling(w) == "if") && (w == In ==> WordSpelling(w) == "in") &&
      (w == Import ==> WordSpelling(w) == "import") && (w == Interface ==> WordSpelling(w) == "interface")
  {
    match w
    case Inb => case Inw => case Inl => case Input => case If => case In => case Import => case Interface =>
    case _ =>
  }

  lemma SpelledT(w: Reserved)
    ensures
      (w == True ==> WordSpelling(w) == "true") && (w == To ==> WordSpelling(w) == "to") &&
      (w == This ==> WordSpelling(w) == "this") && (w == Type ==> WordSpelling(w) == "type") &&
      (w == Try ==> WordSpelling(w) == "try") && (w == Throw ==> WordSpelling(w) == "throw")
  {
    match w
    case True => case To => case This => case Type => case Try => case Throw => case _ =>
  }

  lemma SpelledBOrD(w: Reserved)
    ensures
      (w == Break ==> WordSpelling(w) == "break") && (w == Default ==> WordSpelling(w) == "default") &&
      (w == Defer ==> WordSpelling(w) == "defer") && (w == Ok ==> WordSpelling(w) == "Ok") &&
      (w == Err ==> WordSpelling(w) == "Err") && (w == SomeWord ==> WordSpelling(w) == "Some") &&
      (w == NoneWord ==> WordSpelling(w) == "None")
  {
    match w
    case Break => case Default => case Defer => case Ok => case Err => case SomeWord => case NoneWord => case _ =>
  }

  lemma SpelledEToG(w: Reserved)
    ensures
      (w == FullDev ==> WordSpelling(w) == "fulldev") && (w == GetReg ==> WordSpelling(w) == "getreg") &&
      (w == False ==> WordSpelling(w) == "false") && (w == Fct ==> WordSpelling(w) == "fct") &&
      (w == Else ==> WordSpelling(w) == "else") && (w == For ==> WordSpelling(w) == "for") &&
      (w == Extends ==> WordSpelling(w) == "extends") && (w == Extern ==> WordSpelling(w) == "extern") &&
      (w == Go ==> WordSpelling(w) == "go") && (w == Enum ==> WordSpelling(w) == "enum")
  {
    match w
    case FullDev => case GetReg => case False => case Fct => case Else => case For => case Extends => case Extern =>
    case Go => case Enum => case _ =>
  }

  lemma SpelledHToM(w: Reserved)
    ensures
      (w == MmioRead ==> WordSpelling(w) == "mmio_read") && (w == MmioWrite ==> WordSpelling(w) == "mmio_write") &&
      (w == Let ==> WordSpelling(w) == "let") && (w == Match ==> WordSpelling(w) == "match")
  {
    match w
    case MmioRead => case MmioWrite => case Let => case Match => case _ =>
  }

  lemma SpelledNOrO(w: Reserved)
    ensures
      (w == Outb ==> WordSpelling(w) == "outb") && (w == Outw ==> WordSpelling(w) == "outw") &&
      (w == Outl ==> WordSpelling(w) == "outl") && (w == New ==> WordSpelling(w) == "new") &&
      (w == Or ==> WordSpelling(w) == "or") && (w == Nil ==> WordSpelling(w) == "nil")
  {
    match w
    case Outb => case Outw => case Outl => case New => case Or => case Nil => case _ =>
  }

  lemma SpelledP(w: Reserved)
    ensures
      (w == Ptr ==> WordSpelling(w) == "ptr") && (w == PortIn ==> WordSpelling(w) == "port_in") &&
      (w == PortOut ==> WordSpelling(w) == "port_out") && (w == Print ==> WordSpelling(w) == "print") &&
      (w == Proc ==> WordSpelling(w) == "proc")
  {
    match w
    case Ptr => case PortIn => case PortOut => case Print => case Proc => case _ =>
  }

  lemma SpelledS(w: Reserved)
    ensures
      (w == Unsafe ==> WordSpelling(w) == "unsafe") && (w == Volatile ==> WordSpelling(w) == "volatile") &&
      (w == SetReg ==> WordSpelling(w) == "setreg") && (w == While ==> WordSpelling(w) == "while") &&
      (w == Switch ==> WordSpelling(w) == "switch") && (w == Slice ==> WordSpelling(w) == "slice")
  {
    match w
    case Unsafe => case Volatile => case SetReg => case While => case Switch => case Slice => case _ =>
  }

  lemma SpelledNamedRegisters(w: Reserved)
    ensures
      (w == RegRax ==> WordSpelling(w) == "rax") && (w == RegRbx ==> WordSpelling(w) == "rbx") &&
      (w == RegRcx ==> WordSpelling(w) == "rcx") && (w == RegRdx ==> WordSpelling(w) == "rdx") &&
      (w == RegRsi ==> WordSpelling(w) == "rsi") && (w == RegRdi ==> WordSpelling(w) == "rdi") &&
      (w == RegRbp ==> WordSpelling(w) == "rbp") && (w == RegRsp ==> WordSpelling(w) == "rsp")
  {
    match w
    case RegRax => case RegRbx => case RegRcx => case RegRdx => case RegRsi => case RegRdi => case RegRbp =>
    case RegRsp => case _ =>
  }

  lemma SpelledNumberedRegisters(w: Reserved)
    ensures
      (w == RegR8 ==> WordSpelling(w) == "r8") && (w == RegR9 ==> WordSpelling(w) == "r9") &&
      (w == RegR10 ==> WordSpelling(w) == "r10") && (w == RegR11 ==> WordSpelling(w) == "r11") &&
      (w == RegR12 ==> WordSpelling(w) == "r12") && (w == RegR13 ==> WordSpelling(w) == "r13") &&
      (w == RegR14 ==> WordSpelling(w) == "r14") && (w == RegR15 ==> WordSpelling(w) == "r15")
  {
    match w
    case RegR8 => case RegR9 => case RegR10 => case RegR11 => case RegR12 => case RegR13 => case RegR14 =>
    case RegR15 => case _ =>
  }

  lemma SpelledR(w: Reserved)
    ensures
      (w == Rec ==> WordSpelling(w) == "rec") && (w == Return ==> WordSpelling(w) == "return")
  {
    match w
    case Rec => case Return => case _ =>
  }

  lemma FoundA()
    ensures
      Keyword("asm") == Word(Asm) && Keyword("atomic_add") == Word(AtomicAdd) &&
      Keyword("atomic_sub") == Word(AtomicSub) && Keyword("atomic_cas") == Word(AtomicCas) &&
      Keyword("atomic_load") == Word(AtomicLoad) && Keyword("atomic_store") == Word(AtomicStore) &&
      Keyword("array") == Word(Array) && Keyword("and") == Word(And)
  {
  }

  lemma FoundC()
    ensures
      Keyword("cpu_halt") == Word(CpuHalt) && Keyword("cpu_cli") == Word(CpuCli) &&
      Keyword("cpu_sti") == Word(CpuSti) && Keyword("continue") == Word(Continue) && Keyword("case") == Word(Case) &&
      Keyword("class") == Word(Class) && Keyword("chan") == Word(Chan) && Keyword("catch") == Word(Catch)
  {
  }

  lemma FoundI()
    ensures
      Keyword("inb") == Word(Inb) && Keyword("inw") == Word(Inw) && Keyword("inl") == Word(Inl) &&
      Keyword("input") == Word(Input) && Keyword("if") == Word(If) && Keyword("in") == Word(In) &&
      Keyword("import") == Word(Import) && Keyword("interface") == Word(Interface)
  {
  }

  lemma FoundT()
    ensures
      Keyword("true") == Word(True) && Keyword("to") == Word(To) && Keyword("this") == Word(This) &&
      Keyword("type") == Word(Type) && Keyword("try") == Word(Try) && Keyword("throw") == Word(Throw)
  {
  }

  lemma FoundBOrD()
    ensures
      Keyword("break") == Word(Break) && Keyword("default") == Word(Default) && Keyword("defer") == Word(Defer) &&
      Keyword("Ok") == Word(Ok) && Keyword("Err") == Word(Err) && Keyword("Some") == Word(SomeWord) &&
      Keyword("None") == Word(NoneWord)
  {
  }

  lemma FoundEToG()
    ensures
      Keyword("fulldev") == Word(FullDev) && Keyword("getreg") == Word(GetReg) && Keyword("false") == Word(False) &&
      Keyword("fct") == Word(Fct) && Keyword("else") == Word(Else) && Keyword("for") == Word(For) &&
      Keyword("extends") == Word(Extends) && Keyword("extern") == Word(Extern) && Keyword("go") == Word(Go) &&
      Keyword("enum") == Word(Enum)
  {
  }

  lemma FoundHToM()
    ensures
      Keyword("mmio_read") == Word(MmioRead) && Keyword("mmio_write") == Word(MmioWrite) &&
      Keyword("let") == Word(Let) && Keyword("match") == Word(Match)
  {
  }

  lemma FoundNOrO()
    ensures
      Keyword("outb") == Word(Outb) && Keyword("outw") == Word(Outw) && Keyword("outl") == Word(Outl) &&
      Keyword("new") == Word(New) && Keyword("or") == Word(Or) && Keyword("nil") == Word(Nil)
  {
  }

  lemma FoundP()
    ensures
      Keyword("ptr") == Word(Ptr) && Keyword("port_in") == Word(PortIn) && Keyword("port_out") == Word(PortOut) &&
      Keyword("print") == Word(Print) && Keyword("proc") == Word(Proc)
  {
  }

  lemma FoundS()
    ensures
      Keyword("unsafe") == Word(Unsafe) && Keyword("volatile") == Word(Volatile) &&
      Keyword("setreg") == Word(SetReg) && Keyword("while") == Word(While) && Keyword("switch") == Word(Switch) &&
      Keyword("slice") == Word(Slice)
  {
  }

  lemma FoundNamedRegisters()
    ensures
      Keyword("rax") == Word(RegRax) && Keyword("rbx") == Word(RegRbx) && Keyword("rcx") == Word(RegRcx) &&
      Keyword("rdx") == Word(RegRdx) && Keyword("rsi") == Word(RegRsi) && Keyword("rdi") == Word(RegRdi) &&
      Keyword("rbp") == Word(RegRbp) && Keyword("rsp") == Word(RegRsp)
  {
  }

  lemma FoundNumberedRegisters()
    ensures
      Keyword("r8") == Word(RegR8) && Keyword("r9") == Word(RegR9) && Keyword("r10") == Word(RegR10) &&
      Keyword("r11") == Word(RegR11) && Keyword("r12") == Word(RegR12) && Keyword("r13") == Word(RegR13) &&
      Keyword("r14") == Word(RegR14) && Keyword("r15") == Word(RegR15)
  {
  }

  lemma FoundR()
    ensures Keyword("rec") == Word(Rec) && Keyword("return") == Word(Return)
  {
    hide NamedRegister, NumberedRegister;
  }

  lemma FoundOthers()
    ensures Keyword("halt") == Word(CpuHalt) && Keyword("cli") == Word(CpuCli) && Keyword("sti") == Word(CpuSti)
    ensures Keyword("not") == Not
  {
  }

  predicate IsRegister(w: Reserved) {
    match w
    case RegRax | RegRbx | RegRcx | RegRdx | RegRsi | RegRdi | RegRbp | RegRsp => true
    case RegR8 | RegR9 | RegR10 | RegR11 | RegR12 | RegR13 | RegR14 | RegR15 => true
    case _ => false
  }

  lemma RegisterFound(w: Reserved)
    requires IsRegister(w)
    ensures Keyword(WordSpelling(w)) == Word(w)
  {
    hide Keyword, WordSpelling;
    FoundNamedRegisters();
    FoundNumberedRegisters();
    SpelledNamedRegisters(w);
    SpelledNumberedRegisters(w);
  }

  lemma SpellingFound(w: Reserved)
    ensures Keyword(WordSpelling(w)) == Word(w)
  {
    hide Keyword, WordSpelling;
    match w
    case Asm | AtomicAdd | AtomicSub | AtomicCas | AtomicLoad | AtomicStore | Array | And =>
      SpelledA(w);
      FoundA();
    case CpuHalt | CpuCli | CpuSti | Continue | Case | Class | Chan | Catch =>
      SpelledC(w);
      FoundC();
    case Inb | Inw | Inl | Input | If | In | Import | Interface =>
      SpelledI(w);
      FoundI();
    case True | To | This | Type | Try | Throw =>
      SpelledT(w);
      FoundT();
    case Break | Default | Defer | Ok | Err | SomeWord | NoneWord =>
      SpelledBOrD(w);
      FoundBOrD();
    case FullDev | GetReg | False | Fct | Else | For | Extends | Extern | Go | Enum =>
      SpelledEToG(w);
      FoundEToG();
    case MmioRead | MmioWrite | Let | Match =>
      SpelledHToM(w);
      FoundHToM();
    case Outb | Outw | Outl | New | Or | Nil =>
      SpelledNOrO(w);
      FoundNOrO();
    case Ptr | PortIn | PortOut | Print | Proc =>
      SpelledP(w);
      FoundP();
    case Unsafe | Volatile | SetReg | While | Switch | Slice =>
      SpelledS(w);
      FoundS();
    case Rec | Return =>
      SpelledR(w);
      FoundR();
    case _ =>
      RegisterFound(w);
  }

  // ----- nothing else is found

  /** The type is right for the text. */
  predicate Fits(kind: TokenType, s: string) {
    kind == Ident || (kind == Not && s == "not") || (kind.Word? && s in Spellings(kind.word))
  }

  lemma InAFits(s: string)
    ensures Fits(KeywordInA(s), s)
  {
    hide WordSpelling;
    if KeywordInA(s).Word? { SpelledA(KeywordInA(s).word); }
  }

  lemma InCFits(s: string)
    ensures Fits(KeywordInC(s), s)
  {
    hide WordSpelling;
    if KeywordInC(s).Word? { SpelledC(KeywordInC(s).word); }
  }

  lemma InIFits(s: string)
    ensures Fits(KeywordInI(s), s)
  {
    hide WordSpelling;
    if KeywordInI(s).Word? { SpelledI(KeywordInI(s).word); }
  }

  lemma InTFits(s: string)
    ensures Fits(KeywordInT(s), s)
  {
    hide WordSpelling;
    if KeywordInT(s).Word? { SpelledT(KeywordInT(s).word); }
  }

  lemma NamedRegisterFits(s: string)
    ensures Fits(NamedRegister(s), s)
  {
    hide WordSpelling;
    if NamedRegister(s).Word? { SpelledNamedRegisters(NamedRegister(s).word); }
  }

  lemma NumberedRegisterFits(s: string)
    ensures Fits(NumberedRegister(s), s)
  {
    hide WordSpelling;
    if NumberedRegister(s).Word? { SpelledNumberedRegisters(NumberedRegister(s).word); }
  }

  lemma UpToDFits(s: string)
    requires s != "" && s[0] <= 'd'
    ensures Fits(Keyword(s), s)
  {
    hide WordSpelling, KeywordInA, KeywordInC;
    InAFits(s);
    InCFits(s);
    if Keyword(s).Word? {
      SpelledBOrD(Keyword(s).word);
    }
  }

  lemma EToHFits(s: string)
    requires s != "" && 'd' < s[0] <= 'h'
    ensures Fits(Keyword(s), s)
  {
    hide WordSpelling;
    if Keyword(s).Word? {
      SpelledEToG(Keyword(s).word);
    }
  }

  lemma IToOFits(s: string)
    requires s != "" && 'h' < s[0] <= 'o'
    ensures Fits(Keyword(s), s)
  {
    hide WordSpelling, KeywordInI;
    InIFits(s);
    if Keyword(s).Word? {
      SpelledHToM(Keyword(s).word);
      SpelledNOrO(Keyword(s).word);
    }
  }

  lemma FromPFits(s: string)
    requires s != "" && 'o' < s[0]
    ensures Fits(Keyword(s), s)
  {
    hide WordSpelling, KeywordInT, NamedRegister, NumberedRegister;
    InTFits(s);
    NamedRegisterFits(s);
    NumberedRegisterFits(s);
    if Keyword(s).Word? {
      SpelledP(Keyword(s).word);
      SpelledR(Keyword(s).word);
      SpelledS(Keyword(s).word);
    }
  }

  lemma TypeFits(s: string)
    ensures Fits(Keyword(s), s)
  {
    hide Fits, KeywordInA, KeywordInC, KeywordInI, KeywordInR, KeywordInT;
    if s == "" {
      EmptyFits();
    } else if s[0] <= 'd' {
      UpToDFits(s);
    } else if s[0] <= 'h' {
      EToHFits(s);
    } else if s[0] <= 'o' {
      IToOFits(s);
    } else {
      FromPFits(s);
    }
  }

  lemma EmptyFits()
    ensures Fits(Keyword(""), "")
  {
  }

  /** The type of a word: a reserved word by one of its spellings, else `not` or an identifier. */
  ghost predicate WordKind(kind: TokenType, s: string) {
    match kind
    case Word(w) => s in Spellings(w)
    case Not => s == "not"
    case Ident => s != "not" && forall w :: s !in Spellings(w)
    case _ => false
  }

  /** The lexer finds exactly the spellings of each reserved word; all else is an identifier. */
  lemma KeywordExactly(s: string, kind: TokenType)
    ensures Keyword(s) == kind <==> WordKind(kind, s)
  {
    hide Keyword, WordSpelling;
    TypeFits(s);
    FoundOthers();
    forall w ensures Keyword(WordSpelling(w)) == Word(w) { SpellingFound(w); }
  }
}
