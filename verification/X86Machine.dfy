/** A machine for the instructions of module X86: it decodes the bytes at its program counter and
    executes them on registers, comparison flags and memory in eight-byte words.

    It is stricter than the processor, so that every run of it is a run of the processor: a data
    access that is not eight-byte aligned or lies below the stack pointer stops it, so does reading
    flags that no comparison has just set. A call to a native function has to be made with the stack
    pointer at a multiple of 16 (System V AMD64 ABI, section 3.2.2); the callee leaves arbitrary
    values in the caller-saved registers and whatever it likes below the stack pointer. */
module X86Machine {
  import opened Options
  import opened Ssa
  import opened X86

  type Word = x: int | InRange(x)

  const RAX: nat := 0
  const RCX: nat := 1
  const RDX: nat := 2
  const RSP: nat := 4
  const RBP: nat := 5
  const RSI: nat := 6
  const RDI: nat := 7
  const R8: nat := 8
  const R9: nat := 9

  /** The integer argument registers in order (System V AMD64 ABI, section 3.2.3). */
  const ARGUMENTS: seq<nat> := [RDI, RSI, RDX, RCX, R8, R9]

  datatype Flags = Flags(equal: bool, less: bool)

  datatype Core = Core(regs: map<nat, Word>, flags: Option<Flags>, mem: map<int, Word>, trace: seq<Event>)

  datatype Machine = Machine(core: Core, pc: int)

  /** A native function: calls to it are observable with its first `arity` arguments. */
  datatype Native = Native(name: string, arity: nat)

  datatype Host = Host(natives: map<int, Native>, world: World, clobber: seq<Event> -> map<nat, Word>)

  datatype State = Continues(m: Machine) | Returned(to: Word, core: Core) | Crashed

  function Reg(c: Core, r: nat): Word {
    if r in c.regs then c.regs[r] else 0
  }

  function SetReg(c: Core, r: nat, v: Word): Core {
    c.(regs := c.regs[r := v])
  }

  function Mem(mem: map<int, Word>, a: int): Word {
    if a in mem then mem[a] else 0
  }

  predicate Accessible(c: Core, a: int) {
    a % 8 == 0 && a >= Reg(c, RSP) && InRange(a)
  }

  function LoadFrom(c: Core, r: nat, a: int): Option<Core> {
    if Accessible(c, a) then Some(SetReg(c, r, Mem(c.mem, a))) else None
  }

  function StoreTo(c: Core, r: nat, a: int): Option<Core> {
    if Accessible(c, a) then Some(c.(mem := c.mem[a := Reg(c, r)])) else None
  }

  function Compute(c: Core, r: nat, v: int): Core {
    SetReg(c, r, Wrap(v)).(flags := None)
  }

  /** The dividend is the 128-bit number rdx:rax. */
  function Divide(c: Core): Option<Core> {
    var n, d := Reg(c, RDX) * TWO64 + Reg(c, RAX) % TWO64, Reg(c, RCX);
    if d == 0 || !InRange(TruncDiv(n, d)) then None
    else Some(Compute(Compute(c, RAX, TruncDiv(n, d)), RDX, TruncMod(n, d)))
  }

  predicate Holds(cond: Cond, f: Flags) {
    match cond
    case CondE => f.equal
    case CondNE => !f.equal
    case CondL => f.less
    case CondLE => f.less || f.equal
    case CondG => !f.less && !f.equal
    case CondGE => !f.less
  }

  function SetLowByte(v: int, b: bool): int {
    v - v % 256 + Bool(b)
  }

  function Arguments(c: Core, n: nat): seq<int>
    requires n <= 6
  {
    seq(n, i requires 0 <= i < n => Reg(c, ARGUMENTS[i]) as int)
  }

  function CallNative(host: Host, c: Core): Option<Core> {
    var target, sp := Reg(c, RAX), Reg(c, RSP);
    if sp % 16 != 0 || target !in host.natives || host.natives[target].arity > 6 then None
    else
      var trace := c.trace + [Event(host.natives[target].name, Arguments(c, host.natives[target].arity))];
      var regs := host.clobber(trace)[RAX := Wrap(host.world(trace))][RSP := sp][RBP := Reg(c, RBP)];
      Some(Core(regs, None, map a | a in c.mem && a >= sp :: c.mem[a], trace))
  }

  /** Instructions after which control goes on with the next one. */
  predicate IsPlain(a: Asm) {
    !a.Jz? && !a.Jmp? && !a.CallRel? && !a.Ret?
  }

  /** None: the machine crashes. */
  function ExecAsm(host: Host, a: Asm, c: Core): Option<Core>
    requires IsPlain(a)
  {
    match a
    case MovImm(r, n) => Some(SetReg(c, r, Wrap(n)))
    case LoadStack(r, off) => LoadFrom(c, r, Reg(c, RBP) + off)
    case StoreStack(r, off) => StoreTo(c, r, Reg(c, RBP) + off)
    case AddRaxRcx => Some(Compute(c, RAX, Reg(c, RAX) + Reg(c, RCX)))
    case SubRaxRcx => Some(Compute(c, RAX, Reg(c, RAX) - Reg(c, RCX)))
    case ImulRaxRcx => Some(Compute(c, RAX, Reg(c, RAX) * Reg(c, RCX)))
    case Cqo => Some(SetReg(c, RDX, if Reg(c, RAX) < 0 then -1 else 0))
    case IdivRcx => Divide(c)
    case CmpRaxRcx => Some(c.(flags := Some(Flags(Reg(c, RAX) == Reg(c, RCX), Reg(c, RAX) < Reg(c, RCX)))))
    case TestRax => Some(c.(flags := Some(Flags(Reg(c, RAX) == 0, Reg(c, RAX) < 0))))
    case SetAl(cond) =>
      if c.flags == None then None else Some(SetReg(c, RAX, Wrap(SetLowByte(Reg(c, RAX), Holds(cond, c.flags.value)))))
    case MovzxRaxAl => Some(SetReg(c, RAX, Reg(c, RAX) % 256))
    case ShlRcx3 => Some(Compute(c, RCX, Reg(c, RCX) * 8))
    case LeaRax(off) => Some(SetReg(c, RAX, Wrap(Reg(c, RBP) + off)))
    case LoadRax => LoadFrom(c, RAX, Reg(c, RAX))
    case StoreRdx => StoreTo(c, RDX, Reg(c, RAX))
    case PushRbp =>
      var c1 := SetReg(c, RSP, Wrap(Reg(c, RSP) - 8));
      StoreTo(c1, RBP, Reg(c1, RSP))
    case PopRbp =>
      var c1 := LoadFrom(c, RBP, Reg(c, RSP));
      if c1 == None then None else Some(SetReg(c1.value, RSP, Wrap(Reg(c, RSP) + 8)))
    case MovRbpRsp => Some(SetReg(c, RBP, Reg(c, RSP)))
    case MovRspRbp => Some(SetReg(c, RSP, Reg(c, RBP)))
    case SubRsp(n) => Some(Compute(c, RSP, Reg(c, RSP) - n))
    case SubRsp8(n) => Some(Compute(c, RSP, Reg(c, RSP) - n))
    case AddRsp(n) => Some(Compute(c, RSP, Reg(c, RSP) + n))
    case MovRaxR8 => Some(SetReg(c, RAX, Reg(c, R8)))
    case MovRaxR9 => Some(SetReg(c, RAX, Reg(c, R9)))
    case MovR8Rax => Some(SetReg(c, R8, Reg(c, RAX)))
    case MovR9Rax => Some(SetReg(c, R9, Reg(c, RAX)))
    case CallRax => CallNative(host, c)
  }

  /** Executes a decoded instruction; pc is the address of the next one. */
  function Perform(host: Host, a: Asm, c: Core, pc: int): State {
    match a
    case Jz(rel) =>
      if c.flags == None then Crashed else Continues(Machine(c, if c.flags.value.equal then pc + rel else pc))
    case Jmp(rel) => Continues(Machine(c, pc + rel))
    case CallRel(rel) =>
      var c1 := SetReg(c, RSP, Wrap(Reg(c, RSP) - 8));
      if !Accessible(c1, Reg(c1, RSP)) then Crashed
      else Continues(Machine(c1.(mem := c1.mem[Reg(c1, RSP) := Wrap(pc)]), pc + rel))
    case Ret =>
      if Accessible(c, Reg(c, RSP)) then Returned(Mem(c.mem, Reg(c, RSP)), SetReg(c, RSP, Wrap(Reg(c, RSP) + 8)))
      else Crashed
    case _ =>
      var c1 := ExecAsm(host, a, c);
      if c1 == None then Crashed else Continues(Machine(c1.value, pc))
  }

  function Step(host: Host, code: seq<int>, m: Machine): State {
    if !(0 <= m.pc < |code|) || DecodeAt(code[m.pc..]) == None then Crashed
    else
      var d := DecodeAt(code[m.pc..]).value;
      Perform(host, d.asm, m.core, m.pc + d.len)
  }

  function Run(host: Host, code: seq<int>, m: Machine, n: nat): State
    decreases n
  {
    if n == 0 then Continues(m)
    else
      var s := Step(host, code, m);
      if s.Continues? then Run(host, code, s.m, n - 1) else s
  }

  lemma {:induction false} RunCompose(host: Host, code: seq<int>, m: Machine, j: nat, k: nat)
    requires Run(host, code, m, j).Continues?
    ensures Run(host, code, m, j + k) == Run(host, code, Run(host, code, m, j).m, k)
    decreases j
  {
    hide Step;
    if j > 0 { RunCompose(host, code, Step(host, code, m).m, j - 1, k); }
  }

  lemma {:induction false} RunEnds(host: Host, code: seq<int>, m: Machine, j: nat, k: nat)
    requires j <= k && !Run(host, code, m, j).Continues?
    ensures Run(host, code, m, k) == Run(host, code, m, j)
    decreases j
  {
    hide Step;
    if Step(host, code, m).Continues? { RunEnds(host, code, Step(host, code, m).m, j - 1, k - 1); }
  }

  // ----- straight-line code

  predicate Plain(asms: seq<Asm>) {
    forall i :: 0 <= i < |asms| ==> IsPlain(asms[i]) && Encodable(asms[i])
  }

  function EncodeAll(asms: seq<Asm>): seq<int> {
    if asms == [] then [] else EncodeAll(asms[..|asms| - 1]) + Encode(asms[|asms| - 1])
  }

  function ExecAsms(host: Host, asms: seq<Asm>, c: Core): Option<Core>
    requires Plain(asms)
    decreases |asms|
  {
    if asms == [] then Some(c)
    else
      var c1 := ExecAsms(host, asms[..|asms| - 1], c);
      if c1 == None then None else ExecAsm(host, asms[|asms| - 1], c1.value)
  }

  /** The bytes at an address. */
  ghost predicate Has(code: seq<int>, at: int, bytes: seq<int>) {
    0 <= at && at + |bytes| <= |code| && code[at..at + |bytes|] == bytes
  }

  lemma HasParts(code: seq<int>, at: int, a: seq<int>, b: seq<int>)
    requires Has(code, at, a + b)
    ensures Has(code, at, a) && Has(code, at + |a|, b)
  {
    assert code[at..at + |a|] == (a + b)[..|a|] == a;
    assert code[at + |a|..at + |a| + |b|] == (a + b)[|a|..] == b;
  }

  lemma StepAt(host: Host, code: seq<int>, a: Asm, m: Machine)
    requires Encodable(a) && Has(code, m.pc, Encode(a))
    ensures Step(host, code, m) == Perform(host, a, m.core, m.pc + |Encode(a)|)
  {
    hide Encodable, DecodeAt, Perform;
    var rest := code[m.pc + |Encode(a)|..];
    assert code[m.pc..] == Encode(a) + rest;
    RoundTrip(a, rest);
    NotEmpty(a);
  }

  lemma NotEmpty(a: Asm)
    ensures |Encode(a)| > 0
  {
  }

  /** Where code holds the encoding of plain instructions, the machine executes them in order. */
  lemma {:induction false} RunPlain(host: Host, code: seq<int>, asms: seq<Asm>, m: Machine)
    requires Plain(asms) && Has(code, m.pc, EncodeAll(asms)) && ExecAsms(host, asms, m.core).Some?
    ensures Run(host, code, m, |asms|) ==
            Continues(Machine(ExecAsms(host, asms, m.core).value, m.pc + |EncodeAll(asms)|))
    decreases |asms|
  {
    hide Encode, Encodable, ExecAsm, Step, Has;
    if asms != [] {
      var n := |asms| - 1;
      var init, a := asms[..n], asms[n];
      HasParts(code, m.pc, EncodeAll(init), Encode(a));
      RunPlain(host, code, init, m);
      var m1 := Machine(ExecAsms(host, init, m.core).value, m.pc + |EncodeAll(init)|);
      StepAt(host, code, a, m1);
      RunCompose(host, code, m, n, 1);
      RunOne(host, code, m1);
    }
  }

  lemma RunOne(host: Host, code: seq<int>, m: Machine)
    ensures Run(host, code, m, 1) == Step(host, code, m)
  {
    hide Step;
    var s := Step(host, code, m);
    if s.Continues? { assert Run(host, code, s.m, 0) == s; }
  }

  /** Executing one instruction more. */
  lemma Then(host: Host, asms: seq<Asm>, a: Asm, c: Core)
    requires Plain(asms) && IsPlain(a) && Encodable(a) && ExecAsms(host, asms, c).Some?
    ensures Plain(asms + [a]) && ExecAsms(host, asms + [a], c) == ExecAsm(host, a, ExecAsms(host, asms, c).value)
  {
    hide ExecAsm, Encodable;
    assert (asms + [a])[..|asms|] == asms;
  }
}
