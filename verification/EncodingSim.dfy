/** The emitted code does what the instructions say. While a function runs, every name's value is in
    its stack slot and every array element in its area (`Rel`); each instruction's code keeps that. */
module EncodingSim {
  import opened Options
  import opened Ssa
  import opened X86
  import opened X86Machine
  import opened Encoding
  import opened EncodingLayout

  /** A running call: its frame pointer, the caller's rbp, the return address, and the memory as it was
      when the call was made. */
  datatype Activation = Activation(fp: int, rbp: Word, ret: Word, before: map<int, Word>)

  /** Above the return address, where the callers' frames are, memory is as it was. */
  ghost predicate AboveKept(act: Activation, mem: map<int, Word>) {
    forall a :: a >= act.fp + 16 ==> Mem(mem, a) == Mem(act.before, a)
  }

  ghost predicate FpOk(fp: int) {
    fp % 16 == 0 && MIN64 + 16384 <= fp <= MAX64 - 64
  }

  ghost predicate Fits(F: Frame) {
    FrameInv(F) && F.top >= -FRAME_SIZE
  }

  ghost predicate Here(F: Frame, act: Activation) {
    Fits(F) && FpOk(act.fp)
  }

  ghost predicate SlotsHold(F: Frame, fp: int, env: Env, mem: map<int, Word>) {
    forall x :: x in F.slots ==> Mem(mem, fp + F.slots[x]) == Read(env, x)
  }

  function CellAddress(F: Frame, fp: int, a: string, i: int): int {
    fp + Offset(F, a) + 8 * i
  }

  ghost predicate CellsHold(F: Frame, fp: int, cells: Cells, mem: map<int, Word>) {
    forall a, i :: a in F.sizes && 0 <= i < F.sizes[a] ==> Mem(mem, CellAddress(F, fp, a, i)) == Load(cells, a, i)
  }

  ghost predicate RelMem(F: Frame, act: Activation, s: Store, mem: map<int, Word>) {
    && SlotsHold(F, act.fp, s.env, mem) && CellsHold(F, act.fp, s.cells, mem)
    && Mem(mem, act.fp) == act.rbp && Mem(mem, act.fp + 8) == act.ret && AboveKept(act, mem)
  }

  ghost predicate Rel(F: Frame, act: Activation, s: Store, c: Core) {
    && Reg(c, RBP) == act.fp && Reg(c, RSP) == act.fp - FRAME_SIZE && c.trace == s.trace
    && RelMem(F, act, s, c.mem)
  }

  /** Nothing but scratch registers and flags differs. */
  ghost predicate SameFrame(c: Core, d: Core) {
    Reg(c, RBP) == Reg(d, RBP) && Reg(c, RSP) == Reg(d, RSP) && c.trace == d.trace && c.mem == d.mem
  }

  lemma RelSame(F: Frame, act: Activation, s: Store, c: Core, d: Core)
    requires Rel(F, act, s, c) && SameFrame(c, d)
    ensures Rel(F, act, s, d)
  {
    hide RelMem;
  }

  // ----- memory

  lemma StoreSlot(F: Frame, act: Activation, s: Store, mem: map<int, Word>, x: string, v: Word)
    requires FrameInv(F) && RelMem(F, act, s, mem) && x in F.slots && x != ""
    ensures RelMem(F, act, s.(env := Write(s.env, x, v)), mem[act.fp + F.slots[x] := v])
  {
    var mem' := mem[act.fp + F.slots[x] := v];
    forall a, i | a in F.sizes && 0 <= i < F.sizes[a]
      ensures Mem(mem', CellAddress(F, act.fp, a, i)) == Load(s.cells, a, i)
    {
      assert SlotOutside(F, x, a);
      assert Mem(mem, CellAddress(F, act.fp, a, i)) == Load(s.cells, a, i);
    }
  }

  lemma StoreCell(F: Frame, act: Activation, s: Store, mem: map<int, Word>, a: string, i: int, v: Word)
    requires FrameInv(F) && RelMem(F, act, s, mem) && a in F.sizes && 0 <= i < F.sizes[a]
    ensures RelMem(F, act, s.(cells := s.cells[(a, i) := v]), mem[CellAddress(F, act.fp, a, i) := v])
  {
    var mem' := mem[CellAddress(F, act.fp, a, i) := v];
    var cells' := s.cells[(a, i) := v];
    forall x | x in F.slots ensures Mem(mem', act.fp + F.slots[x]) == Read(s.env, x) {
      assert SlotOutside(F, x, a);
    }
    forall b, j | b in F.sizes && 0 <= j < F.sizes[b]
      ensures Mem(mem', CellAddress(F, act.fp, b, j)) == Load(cells', b, j)
    {
      assert Mem(mem, CellAddress(F, act.fp, b, j)) == Load(s.cells, b, j);
      if a != b { assert ArrayApart(F, a, b); }
    }
  }

  /** Only addresses in the frame and the two saved words matter. */
  lemma RelMemAgrees(F: Frame, act: Activation, s: Store, mem: map<int, Word>, mem': map<int, Word>)
    requires Fits(F) && RelMem(F, act, s, mem)
    requires forall a :: a >= act.fp - FRAME_SIZE ==> Mem(mem', a) == Mem(mem, a)
    ensures RelMem(F, act, s, mem')
  {
    forall a, i | a in F.sizes && 0 <= i < F.sizes[a]
      ensures Mem(mem', CellAddress(F, act.fp, a, i)) == Load(s.cells, a, i)
    {
      assert Mem(mem, CellAddress(F, act.fp, a, i)) == Load(s.cells, a, i);
    }
  }

  // ----- sequences of instructions

  lemma ExecOne(host: Host, a: Asm, c: Core)
    requires IsPlain(a) && Encodable(a)
    ensures Plain([a]) && ExecAsms(host, [a], c) == ExecAsm(host, a, c)
  {
    hide ExecAsm, Encodable;
    assert [a][..0] == [];
    assert ExecAsms(host, [a][..0], c) == Some(c);
  }

  lemma {:induction false} ExecAppend(host: Host, a: seq<Asm>, b: seq<Asm>, c: Core)
    requires Plain(a) && Plain(b) && ExecAsms(host, a, c).Some?
    ensures Plain(a + b) && ExecAsms(host, a + b, c) == ExecAsms(host, b, ExecAsms(host, a, c).value)
    decreases |b|
  {
    hide ExecAsm, Encodable, IsPlain;
    if b == [] {
      assert a + b == a;
    } else {
      var init := b[..|b| - 1];
      assert (a + b)[..|a + b| - 1] == a + init;
      ExecAppend(host, a, init, c);
    }
  }

  /** One more instruction after code that runs from c to d. */
  lemma Next(host: Host, asms: seq<Asm>, a: Asm, c: Core, d: Core)
    requires Plain(asms) && IsPlain(a) && Encodable(a) && ExecAsms(host, asms, c) == Some(d)
    ensures Plain(asms + [a]) && ExecAsms(host, asms + [a], c) == ExecAsm(host, a, d)
  {
    hide ExecAsm, Encodable, IsPlain;
    Then(host, asms, a, c);
  }

  // ----- operands and results

  predicate IsInt(v: SSAValue) {
    v.Var? || (v.Num? && InRange(v.n))
  }

  ghost predicate OperandOk(F: Frame, v: SSAValue) {
    IsInt(v) && (v.Var? ==> v.name in F.slots)
  }

  lemma LoadOperand(host: Host, F: Frame, sym: Symbols, act: Activation, s: Store, c: Core, r: nat, v: SSAValue)
    requires Here(F, act) && Rel(F, act, s, c) && OperandOk(F, v) && r < 8
    ensures InRange(Value(v, s.env)) && IsPlain(LoadCode(F, sym, r, v)) && Encodable(LoadCode(F, sym, r, v))
    ensures ExecAsm(host, LoadCode(F, sym, r, v), c) == Some(SetReg(c, r, Value(v, s.env)))
  {
    hide Fits, FpOk, CellsHold;
    if v.Var? {
      SlotAddress(F, act, v.name);
      assert Mem(c.mem, act.fp + F.slots[v.name]) == Read(s.env, v.name);
    }
  }

  /** Code that ends by storing a register as the instruction's result. */
  lemma StoreResult(host: Host, F: Frame, act: Activation, s: Store, asms: seq<Asm>, c: Core, d: Core, r: nat,
      x: string)
    requires Here(F, act) && Rel(F, act, s, d) && r < 8 && (x != "" ==> x in F.slots)
    requires Plain(asms) && ExecAsms(host, asms, c) == Some(d)
    ensures Plain(asms + StoreCode(F, r, x)) && ExecAsms(host, asms + StoreCode(F, r, x), c).Some?
    ensures Rel(F, act, s.(env := Write(s.env, x, Reg(d, r))), ExecAsms(host, asms + StoreCode(F, r, x), c).value)
  {
    hide Plain, ExecAsms, Rel, ExecAsm, Fits, FpOk, Encodable;
    if x == "" {
      assert asms + StoreCode(F, r, x) == asms;
    } else {
      StoreStep(host, F, act, s, d, r, x);
      Next(host, asms, StoreStack(r, Slot(F, x)), c, d);
    }
  }

  lemma StoreStep(host: Host, F: Frame, act: Activation, s: Store, d: Core, r: nat, x: string)
    requires Here(F, act) && Rel(F, act, s, d) && r < 8 && x != "" && x in F.slots
    ensures Encodable(StoreStack(r, Slot(F, x))) && ExecAsm(host, StoreStack(r, Slot(F, x)), d).Some?
    ensures Rel(F, act, s.(env := Write(s.env, x, Reg(d, r))), ExecAsm(host, StoreStack(r, Slot(F, x)), d).value)
  {
    hide RelMem, Fits, FpOk;
    SlotAddress(F, act, x);
    StoreSlot(F, act, s, d.mem, x, Reg(d, r));
  }

  lemma Aligned(fp: int, offset: int)
    requires fp % 16 == 0 && offset % 8 == 0
    ensures (fp + offset) % 8 == 0
  {
  }

  lemma FpRange(fp: int)
    requires FpOk(fp)
    ensures fp % 8 == 0 && (fp + 8) % 8 == 0 && MIN64 <= fp - FRAME_SIZE && fp + 16 <= MAX64
  {
    Aligned(fp, 8);
    Aligned(fp, 0);
  }

  lemma SlotAddress(F: Frame, act: Activation, x: string)
    requires Here(F, act) && x in F.slots
    ensures FrameInv(F) && F.slots[x] <= -8 && InRange32(F.slots[x])
    ensures var a := act.fp + F.slots[x]; a % 8 == 0 && InRange(a) && a >= act.fp - FRAME_SIZE
  {
    hide SlotsApart, SlotsOutsideArrays, ArraysApart, ArraysInside;
    Aligned(act.fp, F.slots[x]);
  }

  // ----- arithmetic

  lemma QuotientRange(l: int, r: int)
    requires InRange(l) && InRange(r) && r != 0 && !(l == MIN64 && r == -1)
    ensures InRange(TruncDiv(l, r))
  {
    if Abs(r) == 1 {
      assert Abs(l) / 1 == Abs(l);
    } else {
      assert Abs(l) / Abs(r) <= Abs(l) / 2 by { DivBigger(Abs(l), Abs(r)); }
    }
  }

  lemma DivBigger(a: nat, b: nat)
    requires b >= 2
    ensures a / b <= a / 2
  {
    var q := a / b;
    assert a == b * q + a % b;
    assert 2 * q <= b * q;
  }

  lemma DivideExec(host: Host, c: Core, l: Word, r: Word)
    requires Reg(c, RAX) == l && Reg(c, RCX) == r && r != 0 && !(l == MIN64 && r == -1)
    ensures Plain([Cqo] + [IdivRcx]) && ExecAsms(host, [Cqo] + [IdivRcx], c).Some?
    ensures var d := ExecAsms(host, [Cqo] + [IdivRcx], c).value;
      SameFrame(c, d) && Reg(d, RAX) == Wrap(TruncDiv(l, r)) && Reg(d, RDX) == Wrap(TruncMod(l, r))
  {
    hide ExecAsms, Plain, TruncDiv, TruncMod;
    var c1 := SetReg(c, RDX, if l < 0 then -1 else 0);
    assert Reg(c1, RDX) * TWO64 + Reg(c1, RAX) % TWO64 == l;
    QuotientRange(l, r);
    ExecOne(host, Cqo, c);
    Next(host, [Cqo], IdivRcx, c, c1);
  }

  lemma LowByte(v: int, bit: bool)
    requires InRange(v)
    ensures InRange(SetLowByte(v, bit)) && SetLowByte(v, bit) % 256 == Bool(bit)
  {
    var q := v / 256;
    assert v - v % 256 == q * 256;
  }

  lemma Comparison(op: SSAOp, l: int, r: int)
    requires IsComparison(op)
    ensures Arith(op, l, r) == Some(Bool(Holds(CondOf(op), Flags(l == r, l < r))))
  {
  }

  lemma CompareExec(host: Host, op: SSAOp, c: Core, l: Word, r: Word)
    requires Reg(c, RAX) == l && Reg(c, RCX) == r && IsComparison(op)
    ensures Plain(BinaryAsm(op)) && ExecAsms(host, BinaryAsm(op), c).Some?
    ensures var d := ExecAsms(host, BinaryAsm(op), c).value;
      SameFrame(c, d) && Arith(op, l, r) == Some(Reg(d, RAX) as int)
  {
    hide ExecAsms, Plain, SetLowByte, Wrap, Arith;
    var c1 := c.(flags := Some(Flags(l == r, l < r)));
    var bit := Holds(CondOf(op), Flags(l == r, l < r));
    LowByte(l, bit);
    Comparison(op, l, r);
    var c2 := SetReg(c1, RAX, SetLowByte(l, bit));
    ExecOne(host, CmpRaxRcx, c);
    Next(host, [CmpRaxRcx], SetAl(CondOf(op)), c, c1);
    Next(host, [CmpRaxRcx] + [SetAl(CondOf(op))], MovzxRaxAl, c, c2);
  }

  lemma BinaryExec(host: Host, op: SSAOp, c: Core, l: Word, r: Word)
    requires Reg(c, RAX) == l && Reg(c, RCX) == r && IsBinary(op) && Arith(op, l, r).Some?
    ensures Plain(BinaryAsm(op)) && ExecAsms(host, BinaryAsm(op), c).Some?
    ensures var d := ExecAsms(host, BinaryAsm(op), c).value;
      SameFrame(c, d) && Arith(op, l, r) == Some(Reg(d, if op.Mod? then RDX else RAX) as int)
  {
    hide ExecAsms, Plain, TruncDiv, TruncMod;
    match op
    case Add => ExecOne(host, AddRaxRcx, c);
    case Sub => ExecOne(host, SubRaxRcx, c);
    case Mul => ExecOne(host, ImulRaxRcx, c);
    case Div => DivideExec(host, c, l, r);
    case Mod => DivideExec(host, c, l, r);
    case _ => CompareExec(host, op, c, l, r);
  }

  // ----- one instruction's code

  /** Running the code from c leads to a state that represents s1. */
  ghost predicate Does(host: Host, asms: seq<Asm>, F: Frame, act: Activation, c: Core, s1: Store) {
    Plain(asms) && ExecAsms(host, asms, c).Some? && Rel(F, act, s1, ExecAsms(host, asms, c).value)
  }

  ghost predicate ResultOk(F: Frame, inst: SSAInstruction) {
    inst.result != "" ==> inst.result in F.slots
  }

  /** Loading one operand, after code that leads from c to d. */
  lemma LoadNext(host: Host, F: Frame, sym: Symbols, act: Activation, s: Store, asms: seq<Asm>, c: Core, d: Core,
      r: nat, v: SSAValue)
    requires Here(F, act) && Rel(F, act, s, d) && OperandOk(F, v) && r < 8 && r != RBP && r != RSP
    requires Plain(asms) && ExecAsms(host, asms, c) == Some(d)
    ensures InRange(Value(v, s.env)) && Plain(asms + [LoadCode(F, sym, r, v)])
    ensures var e := SetReg(d, r, Value(v, s.env));
      ExecAsms(host, asms + [LoadCode(F, sym, r, v)], c) == Some(e) && Rel(F, act, s, e)
  {
    hide Plain, ExecAsms, ExecAsm, Rel, LoadCode, Fits, FpOk, Encodable, IsPlain, OperandOk, Value;
    LoadOperand(host, F, sym, act, s, d, r, v);
    Next(host, asms, LoadCode(F, sym, r, v), c, d);
    RelSame(F, act, s, d, SetReg(d, r, Value(v, s.env)));
  }

  /** Loading the first operand. */
  lemma LoadFirst(host: Host, F: Frame, sym: Symbols, act: Activation, s: Store, c: Core, r: nat, v: SSAValue)
    requires Here(F, act) && Rel(F, act, s, c) && OperandOk(F, v) && r < 8 && r != RBP && r != RSP
    ensures InRange(Value(v, s.env)) && Plain([LoadCode(F, sym, r, v)])
    ensures var e := SetReg(c, r, Value(v, s.env));
      ExecAsms(host, [LoadCode(F, sym, r, v)], c) == Some(e) && Rel(F, act, s, e)
  {
    hide ExecAsm, Rel, Fits, FpOk, Encodable, IsPlain, OperandOk, Value, LoadCode;
    LoadNext(host, F, sym, act, s, [], c, c, r, v);
    assert [] + [LoadCode(F, sym, r, v)] == [LoadCode(F, sym, r, v)];
  }

  lemma CopySim(host: Host, F: Frame, sym: Symbols, act: Activation, s: Store, c: Core, inst: SSAInstruction)
    requires Here(F, act) && Rel(F, act, s, c) && ResultOk(F, inst)
    requires inst.op.Copy? && |inst.operands| >= 1 && OperandOk(F, inst.operands[0])
    ensures Does(host, StraightCode(F, sym, inst), F, act, c, Exec(host.world, inst, s).value)
  {
    hide Plain, ExecAsms, Rel, LoadCode, StoreCode, Fits, FpOk, OperandOk, Value, SlotsHold;
    var v := inst.operands[0];
    LoadFirst(host, F, sym, act, s, c, RAX, v);
    StoreResult(host, F, act, s, [LoadCode(F, sym, 0, v)], c, SetReg(c, RAX, Value(v, s.env)), RAX, inst.result);
  }

  lemma BinarySim(host: Host, F: Frame, sym: Symbols, act: Activation, s: Store, c: Core, inst: SSAInstruction)
    requires Here(F, act) && Rel(F, act, s, c) && ResultOk(F, inst)
    requires IsBinary(inst.op) && |inst.operands| >= 2 && OperandOk(F, inst.operands[0])
      && OperandOk(F, inst.operands[1])
    requires Exec(host.world, inst, s).Some?
    ensures Does(host, StraightCode(F, sym, inst), F, act, c, Exec(host.world, inst, s).value)
  {
    hide Plain, ExecAsms, Rel, LoadCode, StoreCode, Fits, FpOk, OperandOk, Value, BinaryAsm, Arith;
    var x, y := inst.operands[0], inst.operands[1];
    var l, r := Value(x, s.env), Value(y, s.env);
    LoadFirst(host, F, sym, act, s, c, RAX, x);
    var c1 := SetReg(c, RAX, l);
    LoadNext(host, F, sym, act, s, [LoadCode(F, sym, 0, x)], c, c1, RCX, y);
    var c2 := SetReg(c1, RCX, r);
    var loads := [LoadCode(F, sym, 0, x)] + [LoadCode(F, sym, 1, y)];
    BinaryExec(host, inst.op, c2, l, r);
    ExecAppend(host, loads, BinaryAsm(inst.op), c);
    var d := ExecAsms(host, BinaryAsm(inst.op), c2).value;
    RelSame(F, act, s, c2, d);
    StoreResult(host, F, act, s, loads + BinaryAsm(inst.op), c, d, if inst.op.Mod? then RDX else RAX, inst.result);
  }

  // ----- arrays

  ghost predicate IndexOk(F: Frame, a: string, i: int) {
    a in F.sizes && 0 <= i < F.sizes[a]
  }

  lemma CellPlace(F: Frame, act: Activation, a: string, i: int)
    requires Here(F, act) && IndexOk(F, a, i)
    ensures var p := CellAddress(F, act.fp, a, i);
      p % 8 == 0 && act.fp - FRAME_SIZE <= p && InRange(p) && InRange(act.fp + Offset(F, a)) && InRange(8 * i)
      && InRange32(Offset(F, a)) && Offset(F, a) == Base(F, Var(a))
  {
    hide SlotsApart, SlotsOutsideArrays, ArraysApart, SlotsInside;
    Aligned(act.fp, Offset(F, a) + 8 * i);
  }

  function AddressCode(F: Frame, a: string): seq<Asm> {
    [ShlRcx3] + [LeaRax(Base(F, Var(a)))] + [AddRaxRcx]
  }

  /** From an index in rcx, the element's address in rax. */
  lemma AddressExec(host: Host, F: Frame, act: Activation, s: Store, c: Core, a: string, i: int)
    requires Here(F, act) && Rel(F, act, s, c) && IndexOk(F, a, i) && Reg(c, RCX) == i
    ensures Plain(AddressCode(F, a)) && ExecAsms(host, AddressCode(F, a), c).Some?
    ensures var d := ExecAsms(host, AddressCode(F, a), c).value;
      SameFrame(c, d) && Reg(d, RAX) == CellAddress(F, act.fp, a, i) && Reg(d, RDX) == Reg(c, RDX)
  {
    hide Plain, ExecAsms, RelMem, Fits, FpOk, IndexOk, Offset, Wrap, Base;
    CellPlace(F, act, a, i);
    var c1 := Compute(c, RCX, i * 8);
    ExecOne(host, ShlRcx3, c);
    var c2 := SetReg(c1, RAX, act.fp + Offset(F, a));
    Next(host, [ShlRcx3], LeaRax(Base(F, Var(a))), c, c1);
    Next(host, [ShlRcx3] + [LeaRax(Base(F, Var(a)))], AddRaxRcx, c, c2);
  }

  lemma ArrayLoadSim(host: Host, F: Frame, sym: Symbols, act: Activation, s: Store, c: Core, inst: SSAInstruction)
    requires Here(F, act) && Rel(F, act, s, c) && ResultOk(F, inst)
    requires inst.op.ArrayLoad? && |inst.operands| >= 2 && inst.operands[0].Var? && OperandOk(F, inst.operands[1])
    requires IndexOk(F, inst.operands[0].name, Value(inst.operands[1], s.env))
    ensures Does(host, StraightCode(F, sym, inst), F, act, c, Exec(host.world, inst, s).value)
  {
    hide Plain, ExecAsms, LoadCode, StoreCode, Fits, FpOk, OperandOk, Value, SameFrame, Rel, CellAddress, IndexOk;
    var a, v := inst.operands[0].name, inst.operands[1];
    var i := Value(v, s.env);
    LoadFirst(host, F, sym, act, s, c, RCX, v);
    var c1, l := SetReg(c, RCX, i), [LoadCode(F, sym, 1, v)];
    AddressExec(host, F, act, s, c1, a, i);
    ExecAppend(host, l, AddressCode(F, a), c);
    var c2 := ExecAsms(host, AddressCode(F, a), c1).value;
    RelSame(F, act, s, c1, c2);
    LoadCell(host, F, act, s, c2, a, i);
    Next(host, l + AddressCode(F, a), LoadRax, c, c2);
    var c3 := SetReg(c2, RAX, Mem(c2.mem, CellAddress(F, act.fp, a, i)));
    StoreResult(host, F, act, s, l + AddressCode(F, a) + [LoadRax], c, c3, RAX, inst.result);
    assert inst.operands[0] == Var(a);
    assert l + [ShlRcx3] + [LeaRax(Base(F, Var(a)))] + [AddRaxRcx] == l + AddressCode(F, a);
  }

  lemma LoadCell(host: Host, F: Frame, act: Activation, s: Store, c: Core, a: string, i: int)
    requires Here(F, act) && Rel(F, act, s, c) && IndexOk(F, a, i) && Reg(c, RAX) == CellAddress(F, act.fp, a, i)
    ensures var d := SetReg(c, RAX, Mem(c.mem, CellAddress(F, act.fp, a, i)));
      ExecAsm(host, LoadRax, c) == Some(d) && Rel(F, act, s, d) && Reg(d, RAX) == Load(s.cells, a, i)
  {
    hide Fits, FpOk, Offset;
    CellPlace(F, act, a, i);
  }

  lemma ArrayStoreSim(host: Host, F: Frame, sym: Symbols, act: Activation, s: Store, c: Core, inst: SSAInstruction)
    requires Here(F, act) && Rel(F, act, s, c)
    requires inst.op.ArrayStore? && |inst.operands| >= 3 && inst.operands[0].Var?
    requires OperandOk(F, inst.operands[1]) && OperandOk(F, inst.operands[2])
    requires IndexOk(F, inst.operands[0].name, Value(inst.operands[1], s.env))
    ensures Does(host, StraightCode(F, sym, inst), F, act, c, Exec(host.world, inst, s).value)
  {
    hide Plain, ExecAsms, LoadCode, Fits, FpOk, OperandOk, Value, Rel, CellAddress, IndexOk;
    var a, v, w := inst.operands[0].name, inst.operands[1], inst.operands[2];
    var i := Value(v, s.env);
    LoadFirst(host, F, sym, act, s, c, RCX, v);
    var c1 := SetReg(c, RCX, i);
    LoadNext(host, F, sym, act, s, [LoadCode(F, sym, 1, v)], c, c1, RDX, w);
    var c2, l := SetReg(c1, RDX, Value(w, s.env)), [LoadCode(F, sym, 1, v)] + [LoadCode(F, sym, 2, w)];
    AddressExec(host, F, act, s, c2, a, i);
    ExecAppend(host, l, AddressCode(F, a), c);
    var c3 := ExecAsms(host, AddressCode(F, a), c2).value;
    RelSame(F, act, s, c2, c3);
    WriteCell(host, F, act, s, c3, a, i);
    Next(host, l + AddressCode(F, a), StoreRdx, c, c3);
    assert inst.operands[0] == Var(a);
    assert l + [ShlRcx3] + [LeaRax(Base(F, Var(a)))] + [AddRaxRcx] == l + AddressCode(F, a);
  }

  lemma WriteCell(host: Host, F: Frame, act: Activation, s: Store, c: Core, a: string, i: int)
    requires Here(F, act) && Rel(F, act, s, c) && IndexOk(F, a, i) && Reg(c, RAX) == CellAddress(F, act.fp, a, i)
    ensures ExecAsm(host, StoreRdx, c).Some?
    ensures Rel(F, act, s.(cells := s.cells[(a, i) := Reg(c, RDX)]), ExecAsm(host, StoreRdx, c).value)
  {
    hide RelMem, FpOk, Offset;
    CellPlace(F, act, a, i);
    StoreCell(F, act, s, c.mem, a, i, Reg(c, RDX));
  }

  // ----- calls of native functions

  ghost predicate OperandsOk(F: Frame, vs: seq<SSAValue>) {
    forall i :: 0 <= i < |vs| ==> OperandOk(F, vs[i])
  }

  /** The first registers hold the values passed. */
  ghost predicate PassedIn(c: Core, args: seq<SSAValue>, env: Env) {
    |args| <= 6 && forall i :: 0 <= i < |args| ==> Reg(c, ARGUMENTS[i]) == Value(args[i], env)
  }

  lemma PassOne(host: Host, F: Frame, sym: Symbols, act: Activation, s: Store, init: seq<SSAValue>, v: SSAValue,
      asms: seq<Asm>,
                c: Core, d: Core) returns (e: Core)
    requires Here(F, act) && Rel(F, act, s, d) && OperandOk(F, v) && |init| < 6 && PassedIn(d, init, s.env)
    requires Plain(asms) && ExecAsms(host, asms, c) == Some(d)
    ensures Plain(asms + PassCode(F, sym, |init|, v))
      && ExecAsms(host, asms + PassCode(F, sym, |init|, v), c) == Some(e)
    ensures Rel(F, act, s, e) && PassedIn(e, init + [v], s.env)
  {
    hide Plain, ExecAsms, Rel, LoadCode, Fits, FpOk, OperandOk, Value;
    var n := |init|;
    if n < 4 {
      LoadNext(host, F, sym, act, s, asms, c, d, ARGUMENT_LOADS[n], v);
      e := SetReg(d, ARGUMENT_LOADS[n], Value(v, s.env));
    } else {
      LoadNext(host, F, sym, act, s, asms, c, d, RAX, v);
      var d1 := SetReg(d, RAX, Value(v, s.env));
      var r, move := if n == 4 then R8 else R9, if n == 4 then MovR8Rax else MovR9Rax;
      var load := LoadCode(F, sym, 0, v);
      Next(host, asms + [load], move, c, d1);
      e := SetReg(d1, r, Value(v, s.env));
      RelSame(F, act, s, d1, e);
      assert asms + [load] + [move] == asms + ([load] + [move]);
    }
  }

  lemma {:induction false} PassSim(host: Host, F: Frame, sym: Symbols, act: Activation, s: Store, c: Core,
      args: seq<SSAValue>)
    returns (d: Core)
    requires Here(F, act) && Rel(F, act, s, c) && OperandsOk(F, args) && |args| <= 6
    ensures Plain(PassAll(F, sym, args)) && ExecAsms(host, PassAll(F, sym, args), c) == Some(d)
    ensures Rel(F, act, s, d) && PassedIn(d, args, s.env)
    decreases |args|
  {
    hide ExecAsm, Rel, LoadCode, Fits, FpOk, OperandOk, Value, PassCode, IsPlain, Encodable;
    if args == [] {
      d := c;
    } else {
      var init, v := args[..|args| - 1], args[|args| - 1];
      assert args == init + [v];
      var d1 := PassSim(host, F, sym, act, s, c, init);
      d := PassOne(host, F, sym, act, s, init, v, PassAll(F, sym, init), c, d1);
    }
  }

  /** The callee is at the address the encoder was given, with as many parameters as are passed. */
  ghost predicate NativeOk(host: Host, sym: Symbols, inst: SSAInstruction) {
    && 1 <= |inst.operands| <= 7 && inst.operands[0].Str? && inst.operands[0].s in sym.functions
    && var a := sym.functions[inst.operands[0].s];
    InRange(a) && a in host.natives && host.natives[a] == Native(inst.operands[0].s, |inst.operands| - 1)
  }

  lemma CallSetup(host: Host, F: Frame, act: Activation, s: Store, c: Core, address: int) returns (d: Core)
    requires Here(F, act) && Rel(F, act, s, c) && InRange(address)
    ensures d == SetReg(Compute(c, RSP, act.fp - FRAME_SIZE - 32), RAX, address)
    ensures var code := [SubRsp8(32)] + [MovImm(0, address)]; Plain(code) && ExecAsms(host, code, c) == Some(d)
  {
    hide Plain, ExecAsms, RelMem, Fits, Wrap;
    var c1 := Compute(c, RSP, act.fp - FRAME_SIZE - 32);
    ExecOne(host, SubRsp8(32), c);
    Next(host, [SubRsp8(32)], MovImm(0, address), c, c1);
    d := SetReg(c1, RAX, address);
  }

  lemma CallExec(host: Host, F: Frame, act: Activation, s: Store, c: Core, name: string, address: int,
      args: seq<SSAValue>)
    returns (d: Core)
    requires Here(F, act) && Rel(F, act, s, c) && PassedIn(c, args, s.env)
    requires InRange(address) && address in host.natives && host.natives[address] == Native(name, |args|)
    ensures var code := [SubRsp8(32)] + [MovImm(0, address)] + [CallRax] + [AddRsp(32)];
      Plain(code) && ExecAsms(host, code, c) == Some(d)
    ensures var trace := s.trace + [Event(name, Values(args, s.env))];
      Reg(d, RAX) == Wrap(host.world(trace)) && Rel(F, act, s.(trace := trace), d)
  {
    hide Plain, ExecAsms, RelMem, Fits, Wrap, PassedIn, CallNative, Values;
    var c2 := CallSetup(host, F, act, s, c, address);
    Next(host, [SubRsp8(32)] + [MovImm(0, address)], CallRax, c, c2);
    NativeReturns(host, F, act, s, c, c2, name, address, args);
    var c3 := CallNative(host, c2).value;
    Next(host, [SubRsp8(32)] + [MovImm(0, address)] + [CallRax], AddRsp(32), c, c3);
    d := Compute(c3, RSP, act.fp - FRAME_SIZE);
  }

  lemma NativeReturns(host: Host, F: Frame, act: Activation, s: Store, c: Core, c2: Core, name: string, address: int,
                      args: seq<SSAValue>)
    requires Here(F, act) && Rel(F, act, s, c) && PassedIn(c, args, s.env)
    requires InRange(address) && address in host.natives && host.natives[address] == Native(name, |args|)
    requires c2 == SetReg(Compute(c, RSP, act.fp - FRAME_SIZE - 32), RAX, address)
    ensures CallNative(host, c2).Some?
    ensures var d, trace := CallNative(host, c2).value, s.trace + [Event(name, Values(args, s.env))];
      Reg(d, RAX) == Wrap(host.world(trace)) && Reg(d, RBP) == act.fp && Reg(d, RSP) == act.fp - FRAME_SIZE - 32
      && d.trace == trace && RelMem(F, act, s.(trace := trace), d.mem)
  {
    hide RelMem, Fits, Value, Wrap;
    assert Reg(c2, RSP) == act.fp - FRAME_SIZE - 32 && Reg(c2, RBP) == act.fp;
    forall i | 0 <= i < |args| ensures Reg(c2, ARGUMENTS[i]) == Value(args[i], s.env) {
      assert ARGUMENTS[i] != RSP && ARGUMENTS[i] != RAX;
      assert Reg(c, ARGUMENTS[i]) == Value(args[i], s.env);
    }
    assert Arguments(c2, |args|) == Values(args, s.env);
    var d, trace := CallNative(host, c2).value, s.trace + [Event(name, Values(args, s.env))];
    RelMemTrace(F, act, s, trace, c.mem);
    RelMemAgrees(F, act, s.(trace := trace), c.mem, d.mem);
  }

  lemma RelMemTrace(F: Frame, act: Activation, s: Store, trace: seq<Event>, mem: map<int, Word>)
    requires RelMem(F, act, s, mem)
    ensures RelMem(F, act, s.(trace := trace), mem)
  {
  }

  lemma CallSim(host: Host, F: Frame, sym: Symbols, act: Activation, s: Store, c: Core, inst: SSAInstruction)
    requires Here(F, act) && Rel(F, act, s, c) && ResultOk(F, inst)
    requires inst.op.Call? && NativeOk(host, sym, inst) && OperandsOk(F, inst.operands[1..])
    ensures Does(host, StraightCode(F, sym, inst), F, act, c, Exec(host.world, inst, s).value)
  {
    hide Plain, ExecAsms, StoreCode, Fits, FpOk, OperandOk, Value, PassAll, Rel, SlotsHold, PassedIn;
    var name, args := inst.operands[0].s, inst.operands[1..];
    var address := sym.functions[name];
    assert Passed(inst.operands) == args;
    var c1 := PassSim(host, F, sym, act, s, c, args);
    PassedFew(c1, args, s.env);
    var d := CallExec(host, F, act, s, c1, name, address, args);
    var call := [SubRsp8(32)] + [MovImm(0, address)] + [CallRax] + [AddRsp(32)];
    var pass := PassAll(F, sym, args);
    ExecAppend(host, pass, call, c);
    var s1 := s.(trace := s.trace + [Event(name, Values(args, s.env))]);
    StoreResult(host, F, act, s1, pass + call, c, d, RAX, inst.result);
    assert pass + [SubRsp8(32)] + [MovImm(0, address)] + [CallRax] + [AddRsp(32)] == pass + call;
  }

  lemma PassedFew(c: Core, args: seq<SSAValue>, env: Env)
    requires PassedIn(c, args, env)
    ensures |args| <= 6
  {
  }

  // ----- any straight instruction

  /** What the encoder handles correctly. A return without a value leaves rax as it was, strings are
      addresses, and calls of generated functions are not part of this model. */
  ghost predicate Supported(host: Host, sym: Symbols, inst: SSAInstruction) {
    var ops := inst.operands;
    if IsBinary(inst.op) then |ops| >= 2 && IsInt(ops[0]) && IsInt(ops[1])
    else
      match inst.op
      case Copy => |ops| >= 1 && IsInt(ops[0])
      case Call => NativeOk(host, sym, inst) && forall i :: 1 <= i < |ops| ==> IsInt(ops[i])
      case ArrayLoad => |ops| >= 2 && IsInt(ops[1])
      case ArrayStore => |ops| >= 3 && IsInt(ops[1]) && IsInt(ops[2])
      case Branch => |ops| >= 1 && ops[0].Str?
      case CondBranch => |ops| >= 3 && IsInt(ops[0]) && ops[1].Str? && ops[2].Str?
      case Return => |ops| >= 1 && IsInt(ops[0])
      case _ => true
  }

  ghost predicate IndicesOk(F: Frame, inst: SSAInstruction, env: Env) {
    inst.op.ArrayLoad? || inst.op.ArrayStore? ==>
      |inst.operands| >= 2 && inst.operands[0].Var? && IndexOk(F, inst.operands[0].name, Value(inst.operands[1], env))
  }

  lemma SourceOk(F: Frame, inst: SSAInstruction, v: SSAValue)
    requires Placed(F, Sources(inst)) && v in Sources(inst) && IsInt(v)
    ensures OperandOk(F, v)
  {
  }

  lemma StraightSim(host: Host, F: Frame, sym: Symbols, act: Activation, s: Store, c: Core, inst: SSAInstruction)
    requires Here(F, act) && Rel(F, act, s, c) && Supported(host, sym, inst) && Placed(F, Sources(inst))
    requires HasResult(inst.op) ==> ResultOk(F, inst)
    requires IsStraight(inst.op) && Exec(host.world, inst, s).Some? && IndicesOk(F, inst, s.env)
    ensures Does(host, StraightCode(F, sym, inst), F, act, c, Exec(host.world, inst, s).value)
  {
    hide Here, Rel, OperandOk, IndexOk, IsInt, Placed, Does, ResultOk, Value, Arith, StoreCode, LoadCode;
    var ops := inst.operands;
    if IsBinary(inst.op) {
      assert ops[0] == ops[..2][0] && ops[1] == ops[..2][1];
      SourceOk(F, inst, ops[0]);
      SourceOk(F, inst, ops[1]);
      BinarySim(host, F, sym, act, s, c, inst);
    } else if inst.op.Copy? {
      assert ops[0] == ops[..1][0];
      SourceOk(F, inst, ops[0]);
      CopySim(host, F, sym, act, s, c, inst);
    } else if inst.op.Call? {
      var args := ops[1..];
      assert Passed(ops) == args;
      forall i | 0 <= i < |args| ensures OperandOk(F, args[i]) {
        assert args[i] == ops[i + 1];
        SourceOk(F, inst, args[i]);
      }
      CallSim(host, F, sym, act, s, c, inst);
    } else if inst.op.ArrayLoad? {
      assert ops[1] == ops[1..2][0];
      SourceOk(F, inst, ops[1]);
      ArrayLoadSim(host, F, sym, act, s, c, inst);
    } else if inst.op.ArrayStore? {
      assert ops[1] == ops[1..3][0] && ops[2] == ops[1..3][1];
      SourceOk(F, inst, ops[1]);
      SourceOk(F, inst, ops[2]);
      ArrayStoreSim(host, F, sym, act, s, c, inst);
    } else {
      Nothing(host, F, sym, act, s, c, inst);
    }
  }

  lemma Nothing(host: Host, F: Frame, sym: Symbols, act: Activation, s: Store, c: Core, inst: SSAInstruction)
    requires Rel(F, act, s, c) && (inst.op.RegionEnter? || inst.op.RegionExit? || inst.op.Phi? || inst.op.ArrayAlloc?)
    ensures Does(host, StraightCode(F, sym, inst), F, act, c, s)
  {
    hide Rel;
  }
}
