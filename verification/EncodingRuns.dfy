/** Whole runs: the machine executing a function's bytes follows the run of its instructions, step by
    step, and returns to its caller with the same value and the same calls made. */
module EncodingRuns {
  import opened Options
  import opened Ssa
  import opened X86
  import opened X86Machine
  import opened Encoding
  import opened EncodingLayout
  import opened EncodingSim

  /** A function in place: its blocks' code is at `at`, entered with frame f. */
  datatype Setting = Setting(host: Host, sym: Symbols, code: seq<int>, offsets: map<string, int>, f: Frame,
                             blocks: seq<SSABasicBlock>, at: int, act: Activation)

  function Final(x: Setting): Frame { AllocBlocks(x.f, x.blocks) }

  function BlockPc(x: Setting, b: nat): int
    requires b < |x.blocks|
  {
    PcOf(x.f, x.sym, x.blocks, x.at, b, 0)
  }

  ghost predicate LabelsAt(x: Setting) {
    forall b: nat :: b < |x.blocks| ==> x.blocks[b].name in x.offsets && x.offsets[x.blocks[b].name] == BlockPc(x, b)
  }

  ghost predicate OffsetsInside(offsets: map<string, int>, n: int) {
    forall l :: l in offsets ==> 0 <= offsets[l] <= n
  }

  ghost predicate AllSupported(x: Setting) {
    forall b: nat, j: nat :: b < |x.blocks| && j < |x.blocks[b].instructions| ==>
      Supported(x.host, x.sym, x.blocks[b].instructions[j])
  }

  /** Jumps fit in 32 bits. */
  ghost predicate CodeInPlace(x: Setting) {
    && HasItems(x.code, x.at, EncBlocks(x.f, x.sym, x.blocks), x.offsets)
    && LabelsAt(x) && OffsetsInside(x.offsets, |x.code|) && |x.code| < 0x8000_0000
  }

  ghost predicate Ready(x: Setting) {
    FrameInv(x.f) && BlocksOk(x.f, x.blocks) && Here(Final(x), x.act) && CodeInPlace(x) && AllSupported(x)
  }

  ghost predicate Inside(x: Setting, c: Config) {
    c.block < |x.blocks| && c.pos <= |x.blocks[c.block].instructions|
  }

  ghost predicate Matches(x: Setting, c: Config, m: Machine) {
    Inside(x, c) && m.pc == PcOf(x.f, x.sym, x.blocks, x.at, c.block, c.pos) && Rel(Final(x), x.act, c.store, m.core)
  }

  ghost predicate AtInstruction(x: Setting, c: Config) {
    c.block < |x.blocks| && c.pos < |x.blocks[c.block].instructions|
  }

  function Instruction(x: Setting, c: Config): SSAInstruction
    requires AtInstruction(x, c)
  {
    x.blocks[c.block].instructions[c.pos]
  }

  /** What is known about the instruction about to run and its bytes. */
  lemma Fetch(x: Setting, c: Config, m: Machine)
    requires Ready(x) && Matches(x, c, m) && AtInstruction(x, c)
    ensures var inst, F := Instruction(x, c), Final(x);
      && HasItems(x.code, m.pc, Code(F, x.sym, inst), x.offsets)
      && PcOf(x.f, x.sym, x.blocks, x.at, c.block, c.pos + 1) == m.pc + Len(Code(F, x.sym, inst))
      && Supported(x.host, x.sym, inst)
    ensures var inst, F := Instruction(x, c), Final(x);
      !inst.op.ArrayAlloc? ==> Placed(F, Sources(inst)) && (HasResult(inst.op) ==> ResultOk(F, inst))
  {
    hide Code, FrameInv, BlocksOk, HasItems, Rel, Here, PcOf, Placed, Sources, LabelsAt, Supported, OffsetsInside,
      FrameBefore, Ext, ArrayOk;
    InstructionAt(x.code, x.offsets, x.f, x.sym, x.blocks, x.at, c.block, c.pos);
    CodeAtFinal(x.f, x.sym, x.blocks, c.block, c.pos);
  }

  // ----- straight code

  lemma StraightItems(F: Frame, host: Host, sym: Symbols, inst: SSAInstruction)
    requires IsStraight(inst.op) && Supported(host, sym, inst)
    ensures Code(F, sym, inst) == Ops(StraightCode(F, sym, inst))
  {
    hide StraightCode, Ops;
  }

  lemma OpsAt(code: seq<int>, at: int, asms: seq<Asm>, offsets: map<string, int>)
    requires HasItems(code, at, Ops(asms), offsets)
    ensures Has(code, at, EncodeAll(asms)) && Len(Ops(asms)) == |EncodeAll(asms)|
  {
    hide Resolved, Has, Len, EncodeAll;
    ResolvedOps(asms, at, offsets);
  }

  lemma StraightStep(x: Setting, c: Config, m: Machine) returns (k: nat, m1: Machine)
    requires Ready(x) && Matches(x, c, m) && AtInstruction(x, c)
    requires var inst := Instruction(x, c);
      IsStraight(inst.op) && Exec(x.host.world, inst, c.store).Some? && IndicesOk(Final(x), inst, c.store.env)
    ensures X86Machine.Run(x.host, x.code, m, k) == Continues(m1)
    ensures Matches(x, Config(c.block, c.pos + 1, Exec(x.host.world, Instruction(x, c), c.store).value), m1)
  {
    hide Code, HasItems, Rel, PcOf, Sources, Supported, StraightCode, Exec, IndicesOk, Len, X86Machine.Run, EncodeAll,
      ResultOk;
    var inst, F := Instruction(x, c), Final(x);
    Fetch(x, c, m);
    StraightItems(F, x.host, x.sym, inst);
    var asms := StraightCode(F, x.sym, inst);
    OpsAt(x.code, m.pc, asms, x.offsets);
    if inst.op.ArrayAlloc? {
      ArrayAllocIsNothing(x.host, F, x.sym, x.act, c.store, m.core, inst);
    } else {
      StraightSim(x.host, F, x.sym, x.act, c.store, m.core, inst);
    }
    RunPlain(x.host, x.code, asms, m);
    k := |asms|;
    m1 := Machine(ExecAsms(x.host, asms, m.core).value, m.pc + |EncodeAll(asms)|);
  }

  lemma ArrayAllocIsNothing(host: Host, F: Frame, sym: Symbols, act: Activation, s: Store, c: Core,
      inst: SSAInstruction)
    requires Rel(F, act, s, c) && inst.op.ArrayAlloc?
    ensures Exec(host.world, inst, s) == Some(s) && Does(host, StraightCode(F, sym, inst), F, act, c, s)
  {
    hide Rel, StraightCode, Does;
    Nothing(host, F, sym, act, s, c, inst);
  }

  // ----- jumps

  /** A jump instruction goes to the block with its label. */
  lemma JumpStep(x: Setting, m: Machine, kind: JumpKind, target: string)
    requires CodeInPlace(x) && HasItems(x.code, m.pc, [JumpTo(kind, target)], x.offsets)
    requires kind == Always || (kind == IfZero && m.core.flags.Some?)
    ensures var next := m.pc + Size(JumpTo(kind, target));
      var taken := kind == Always || m.core.flags.value.equal;
      (taken && Find(x.blocks, target) < |x.blocks| ==>
         X86Machine.Step(x.host, x.code, m) == Continues(Machine(m.core, BlockPc(x, Find(x.blocks, target)))))
      && (!taken ==> X86Machine.Step(x.host, x.code, m) == Continues(Machine(m.core, next)))
  {
    hide X86Machine.Step, BlockPc, PcOf, Has, Encode;
    var item := JumpTo(kind, target);
    var rel := Distance(target, m.pc + Size(item), x.offsets);
    var a := JumpAsm(kind, rel);
    JumpBytes(item, m.pc, x.offsets);
    HasInside(x.code, m.pc, Encode(a));
    JumpFits(kind, rel);
    StepAt(x.host, x.code, a, m);
    if Find(x.blocks, target) < |x.blocks| { assert x.blocks[Find(x.blocks, target)].name in x.offsets; }
  }

  lemma JumpBytes(item: Item, at: int, offsets: map<string, int>)
    requires item.JumpTo?
    ensures Resolved([item], at, offsets) == Encode(JumpAsm(item.kind, Distance(item.target, at + Size(item), offsets)))
  {
    hide Encode;
    assert [item][..0] == [];
    assert Resolved([], at, offsets) == [];
    assert Len([item][..0]) == 0;
  }

  lemma HasInside(code: seq<int>, at: int, bytes: seq<int>)
    requires Has(code, at, bytes)
    ensures 0 <= at <= at + |bytes| <= |code|
  {
  }

  lemma JumpFits(kind: JumpKind, rel: int)
    requires InRange32(rel)
    ensures Encodable(JumpAsm(kind, rel)) && |Encode(JumpAsm(kind, rel))| == Size(JumpTo(kind, ""))
  {
  }

  /** Jumping to a block in the machine and in the function. */
  lemma Arrives(x: Setting, c: Config, m: Machine, target: string, core: Core)
    requires Matches(x, c, m) && Rel(Final(x), x.act, c.store, core) && Find(x.blocks, target) < |x.blocks|
    ensures Matches(x, Config(Find(x.blocks, target), 0, c.store), Machine(core, BlockPc(x, Find(x.blocks, target))))
  {
    hide Rel, PcOf;
  }

  lemma BranchStep(x: Setting, c: Config, m: Machine) returns (m1: Machine)
    requires Ready(x) && Matches(x, c, m) && AtInstruction(x, c) && Instruction(x, c).op.Branch?
    requires Ssa.Step(x.blocks, x.host.world, c).Running?
    ensures X86Machine.Run(x.host, x.code, m, 1) == Continues(m1)
    ensures Matches(x, Ssa.Step(x.blocks, x.host.world, c).c, m1)
  {
    hide HasItems, Rel, PcOf, Sources, X86Machine.Run, X86Machine.Step, FrameInv, BlocksOk, Here, AllSupported,
      LabelsAt, OffsetsInside, BlockPc, Len, Matches;
    Unpacked(x, c, m);
    Fetch(x, c, m);
    var target := TargetOf(Instruction(x, c).operands[0]);
    assert Code(Final(x), x.sym, Instruction(x, c)) == [JumpTo(Always, target)];
    JumpStep(x, m, Always, target);
    RunOne(x.host, x.code, m);
    m1 := Machine(m.core, BlockPc(x, Find(x.blocks, target)));
    Arrives(x, c, m, target, m.core);
  }

  lemma Unpacked(x: Setting, c: Config, m: Machine)
    requires Matches(x, c, m)
    ensures Inside(x, c) && Rel(Final(x), x.act, c.store, m.core)
  {
  }

  /** Loading a jump's condition and testing it. */
  lemma TestExec(host: Host, F: Frame, sym: Symbols, act: Activation, s: Store, c: Core, v: SSAValue)
    requires Here(F, act) && Rel(F, act, s, c) && OperandOk(F, v)
    ensures var asms := [LoadCode(F, sym, RAX, v)] + [TestRax];
      Plain(asms) && ExecAsms(host, asms, c).Some?
      && var d := ExecAsms(host, asms, c).value;
      Rel(F, act, s, d) && d.flags.Some? && (d.flags.value.equal <==> Value(v, s.env) == 0)
  {
    hide Plain, ExecAsms, Rel, LoadCode, Fits, FpOk, OperandOk, Value;
    LoadFirst(host, F, sym, act, s, c, RAX, v);
    var c1 := SetReg(c, RAX, Value(v, s.env));
    Next(host, [LoadCode(F, sym, RAX, v)], TestRax, c, c1);
    var d := ExecAsm(host, TestRax, c1).value;
    RelSame(F, act, s, c1, d);
  }

  lemma ForkStep(x: Setting, c: Config, m: Machine) returns (k: nat, m1: Machine)
    requires Ready(x) && Matches(x, c, m) && AtInstruction(x, c) && Instruction(x, c).op.CondBranch?
    requires Ssa.Step(x.blocks, x.host.world, c).Running?
    ensures k > 0 && X86Machine.Run(x.host, x.code, m, k) == Continues(m1)
    ensures Matches(x, Ssa.Step(x.blocks, x.host.world, c).c, m1)
  {
    hide HasItems, Rel, PcOf, X86Machine.Run, X86Machine.Step, FrameInv, BlocksOk, AllSupported, LabelsAt,
    OffsetsInside, BlockPc, Len,
      Matches, Ops, OperandOk, LoadCode, Value, Here, Plain, ExecAsms, EncodeAll;
    Unpacked(x, c, m);
    Fetch(x, c, m);
    var inst, F := Instruction(x, c), Final(x);
    var v, yes, no := inst.operands[0], TargetOf(inst.operands[1]), TargetOf(inst.operands[2]);
    assert v == inst.operands[..1][0];
    SourceOk(F, inst, v);
    var asms := [LoadCode(F, x.sym, RAX, v)] + [TestRax];
    HasItemsParts(x.code, m.pc, Ops(asms) + [JumpTo(IfZero, no)], [JumpTo(Always, yes)], x.offsets);
    HasItemsParts(x.code, m.pc, Ops(asms), [JumpTo(IfZero, no)], x.offsets);
    OpsAt(x.code, m.pc, asms, x.offsets);
    TestExec(x.host, F, x.sym, x.act, c.store, m.core, v);
    RunPlain(x.host, x.code, asms, m);
    var d := ExecAsms(x.host, asms, m.core).value;
    var m2 := Machine(d, m.pc + Len(Ops(asms)));
    JumpStep(x, m2, IfZero, no);
    RunOne(x.host, x.code, m2);
    X86Machine.RunCompose(x.host, x.code, m, |asms|, 1);
    k := |asms| + 1;
    if Value(v, c.store.env) == 0 {
      m1 := Machine(d, BlockPc(x, Find(x.blocks, no)));
      Arrives(x, c, m, no, d);
    } else {
      var m3 := Machine(d, m2.pc + 6);
      LenAfter(Ops(asms), no);
      JumpStep(x, m3, Always, yes);
      RunOne(x.host, x.code, m3);
      X86Machine.RunCompose(x.host, x.code, m, k, 1);
      k := k + 1;
      m1 := Machine(d, BlockPc(x, Find(x.blocks, yes)));
      Arrives(x, c, m, yes, d);
    }
  }

  lemma LenAfter(items: seq<Item>, target: string)
    ensures Len(items + [JumpTo(IfZero, target)]) == Len(items) + 6
  {
    assert (items + [JumpTo(IfZero, target)])[..|items|] == items;
  }

  // ----- returning

  /** The caller's frame is back, no word above the return address has changed, and rax has the value. */
  ghost predicate Finished(x: Setting, core: Core, trace: seq<Event>, value: int) {
    Reg(core, RAX) == value && Reg(core, RBP) == x.act.rbp && Reg(core, RSP) == x.act.fp + 16 && core.trace == trace
    && AboveKept(x.act, core.mem)
  }

  lemma LeaveExec(host: Host, F: Frame, sym: Symbols, act: Activation, s: Store, c: Core, v: SSAValue) returns (d: Core)
    requires Here(F, act) && Rel(F, act, s, c) && OperandOk(F, v)
    ensures var asms := [LoadCode(F, sym, RAX, v)] + [MovRspRbp] + [PopRbp];
      Plain(asms) && ExecAsms(host, asms, c) == Some(d)
    ensures Reg(d, RAX) == Value(v, s.env) && Reg(d, RBP) == act.rbp && Reg(d, RSP) == act.fp + 8 && d.trace == s.trace
    ensures Mem(d.mem, act.fp + 8) == act.ret && Accessible(d, act.fp + 8) && AboveKept(act, d.mem)
  {
    hide Plain, ExecAsms, LoadCode, OperandOk, Value, Rel, Here, ExecAsm;
    LoadFirst(host, F, sym, act, s, c, RAX, v);
    var c1 := SetReg(c, RAX, Value(v, s.env));
    var c2, d1 := LeaveFrame(host, F, act, s, c1);
    Next(host, [LoadCode(F, sym, RAX, v)], MovRspRbp, c, c1);
    Next(host, [LoadCode(F, sym, RAX, v)] + [MovRspRbp], PopRbp, c, c2);
    d := d1;
  }

  lemma LeaveFrame(host: Host, F: Frame, act: Activation, s: Store, c: Core) returns (c1: Core, d: Core)
    requires Here(F, act) && Rel(F, act, s, c)
    ensures ExecAsm(host, MovRspRbp, c) == Some(c1) && ExecAsm(host, PopRbp, c1) == Some(d)
    ensures Reg(d, RAX) == Reg(c, RAX) && Reg(d, RBP) == act.rbp && Reg(d, RSP) == act.fp + 8 && d.trace == s.trace
    ensures Mem(d.mem, act.fp + 8) == act.ret && Accessible(d, act.fp + 8) && AboveKept(act, d.mem)
  {
    hide Fits, FpOk, SlotsHold, CellsHold, Wrap;
    HereRange(F, act);
    c1 := SetReg(c, RSP, act.fp);
    d := SetReg(SetReg(c1, RBP, act.rbp), RSP, act.fp + 8);
  }

  lemma ReturnStep(x: Setting, c: Config, m: Machine) returns (k: nat, core: Core)
    requires Ready(x) && Matches(x, c, m) && AtInstruction(x, c) && Instruction(x, c).op.Return?
    ensures X86Machine.Run(x.host, x.code, m, k) == Returned(x.act.ret, core)
    ensures Ssa.Step(x.blocks, x.host.world, c).Halted?
    ensures Finished(x, core, c.store.trace, Ssa.Step(x.blocks, x.host.world, c).value)
  {
    hide HasItems, Rel, PcOf, X86Machine.Run, X86Machine.Step, FrameInv, BlocksOk, AllSupported, LabelsAt,
    OffsetsInside, BlockPc, Len,
      Matches, Ops, OperandOk, LoadCode, Value, Here, Plain, ExecAsms, EncodeAll;
    Unpacked(x, c, m);
    Fetch(x, c, m);
    var inst, F := Instruction(x, c), Final(x);
    var v := inst.operands[0];
    assert v == inst.operands[..1][0];
    SourceOk(F, inst, v);
    var asms := [LoadCode(F, x.sym, RAX, v)] + [MovRspRbp] + [PopRbp];
    HasItemsParts(x.code, m.pc, Ops(asms), [Op(Ret)], x.offsets);
    OpsAt(x.code, m.pc, asms, x.offsets);
    var d := LeaveExec(x.host, F, x.sym, x.act, c.store, m.core, v);
    RunPlain(x.host, x.code, asms, m);
    var m2 := Machine(d, m.pc + Len(Ops(asms)));
    RetAt(x, m2);
    core := SetReg(d, RSP, Wrap(Reg(d, RSP) + 8));
    HereRange(F, x.act);
    RunOne(x.host, x.code, m2);
    X86Machine.RunCompose(x.host, x.code, m, |asms|, 1);
    k := |asms| + 1;
  }

  lemma HereRange(F: Frame, act: Activation)
    requires Here(F, act)
    ensures InRange(act.fp + 16) && InRange(act.fp) && act.fp % 8 == 0 && (act.fp + 8) % 8 == 0
  {
    FpRange(act.fp);
  }

  lemma RetAt(x: Setting, m: Machine)
    requires HasItems(x.code, m.pc, [Op(Ret)], x.offsets)
    ensures X86Machine.Step(x.host, x.code, m) == Perform(x.host, Ret, m.core, m.pc + 1)
  {
    hide Perform, X86Machine.Step, Has;
    assert [Op(Ret)][..0] == [];
    assert Resolved([], m.pc, x.offsets) == [];
    assert Resolved([Op(Ret)], m.pc, x.offsets) == Encode(Ret);
    StepAt(x.host, x.code, Ret, m);
  }

  // ----- any step

  function RankAt(x: Setting, c: Config): nat
    requires Inside(x, c)
  {
    Rank(x.blocks, c.block) - c.pos
  }

  ghost predicate StepSafe(x: Setting, c: Config) {
    AtInstruction(x, c) ==> IndicesOk(Final(x), Instruction(x, c), c.store.env)
  }

  /** A step of the function is some steps of the machine; it is none only when the position moves on. */
  lemma StepSim(x: Setting, c: Config, m: Machine) returns (k: nat, m1: Machine)
    requires Ready(x) && Matches(x, c, m) && StepSafe(x, c)
    requires var o := Ssa.Step(x.blocks, x.host.world, c); o.Running? && o.c.block < |x.blocks|
    ensures X86Machine.Run(x.host, x.code, m, k) == Continues(m1)
    ensures var c1 := Ssa.Step(x.blocks, x.host.world, c).c;
      Matches(x, c1, m1) && (k == 0 ==> RankAt(x, c1) < RankAt(x, c))
  {
    hide Rel, PcOf, Ready, X86Machine.Run, Exec, IndicesOk;
    if !AtInstruction(x, c) {
      k, m1 := 0, m;
      RunNone(x.host, x.code, m);
      NextBlock(x.f, x.sym, x.blocks, x.at, c.block);
    } else {
      var op := Instruction(x, c).op;
      if op.Branch? {
        m1 := BranchStep(x, c, m);
        k := 1;
      } else if op.CondBranch? {
        k, m1 := ForkStep(x, c, m);
      } else {
        k, m1 := StraightStep(x, c, m);
      }
    }
  }

  lemma RunNone(host: Host, code: seq<int>, m: Machine)
    ensures X86Machine.Run(host, code, m, 0) == Continues(m)
  {
  }

  // ----- whole runs

  ghost predicate SafeOutcome(x: Setting, o: Outcome) {
    !o.Faulted? && (o.Running? ==> StepSafe(x, o.c))
  }

  /** The function never divides by zero, leaves its blocks or indexes outside an array. */
  ghost predicate Safe(x: Setting, c: Config) {
    forall n: nat :: SafeOutcome(x, Ssa.Run(x.blocks, x.host.world, c, n))
  }

  lemma SafeStep(x: Setting, c: Config)
    requires Safe(x, c)
    ensures StepSafe(x, c) && !Ssa.Step(x.blocks, x.host.world, c).Faulted?
    ensures var o := Ssa.Step(x.blocks, x.host.world, c); o.Running? ==> Safe(x, o.c) && o.c.block < |x.blocks|
  {
    hide StepSafe, Ssa.Step;
    assert SafeOutcome(x, Ssa.Run(x.blocks, x.host.world, c, 0));
    assert SafeOutcome(x, Ssa.Run(x.blocks, x.host.world, c, 1));
    var o := Ssa.Step(x.blocks, x.host.world, c);
    if o.Running? {
      forall n: nat ensures SafeOutcome(x, Ssa.Run(x.blocks, x.host.world, o.c, n)) {
        assert SafeOutcome(x, Ssa.Run(x.blocks, x.host.world, c, n + 1));
      }
      assert SafeOutcome(x, Ssa.Run(x.blocks, x.host.world, c, 2));
      OffTheEnd(x, o.c);
    } else {
      assert Ssa.Run(x.blocks, x.host.world, c, 1) == o;
    }
  }

  lemma OffTheEnd(x: Setting, c: Config)
    requires Safe(x, c)
    ensures c.block < |x.blocks|
  {
    hide Exec, StepSafe;
    assert SafeOutcome(x, Ssa.Run(x.blocks, x.host.world, c, 1));
  }

  lemma HaltsAtReturn(x: Setting, c: Config)
    requires Ssa.Step(x.blocks, x.host.world, c).Halted?
    ensures AtInstruction(x, c) && Instruction(x, c).op.Return?
    ensures Ssa.Step(x.blocks, x.host.world, c).trace == c.store.trace
  {
    hide Exec;
  }

  /** If the function returns, so does the machine. */
  lemma {:induction false} Forward(x: Setting, c: Config, m: Machine, n: nat) returns (k: nat, core: Core)
    requires Ready(x) && Matches(x, c, m) && Safe(x, c) && Ssa.Run(x.blocks, x.host.world, c, n).Halted?
    ensures X86Machine.Run(x.host, x.code, m, k) == Returned(x.act.ret, core)
    ensures var o := Ssa.Run(x.blocks, x.host.world, c, n); Finished(x, core, o.trace, o.value)
    decreases n
  {
    hide Ready, Matches, Safe, X86Machine.Run, Ssa.Step, Finished, StepSafe, AtInstruction, Instruction, RankAt;
    var o := Ssa.Step(x.blocks, x.host.world, c);
    SafeStep(x, c);
    if o.Running? {
      var k1, m1 := StepSim(x, c, m);
      var k2;
      k2, core := Forward(x, o.c, m1, n - 1);
      X86Machine.RunCompose(x.host, x.code, m, k1, k2);
      k := k1 + k2;
    } else {
      HaltsAtReturn(x, c);
      k, core := ReturnStep(x, c, m);
    }
  }

  /** If the machine stops, the function has returned. */
  lemma {:induction false} Backward(x: Setting, c: Config, m: Machine, k: nat) returns (n: nat)
    requires Ready(x) && Matches(x, c, m) && Safe(x, c) && !X86Machine.Run(x.host, x.code, m, k).Continues?
    ensures Ssa.Run(x.blocks, x.host.world, c, n).Halted?
    decreases k, RankOf(x, c)
  {
    hide Ready, Matches, Safe, X86Machine.Run, Ssa.Step, StepSafe, RankAt;
    var o := Ssa.Step(x.blocks, x.host.world, c);
    SafeStep(x, c);
    if o.Running? {
      var k1, m1 := StepSim(x, c, m);
      MatchesInside(x, c, m);
      MatchesInside(x, o.c, m1);
      StillGoing(x, m, k1, k);
      X86Machine.RunCompose(x.host, x.code, m, k1, k - k1);
      var n1 := Backward(x, o.c, m1, k - k1);
      n := n1 + 1;
    } else {
      n := 1;
    }
  }

  function RankOf(x: Setting, c: Config): nat {
    if c.block < |x.blocks| && c.pos <= |x.blocks[c.block].instructions| then RankAt(x, c) else 0
  }

  lemma MatchesInside(x: Setting, c: Config, m: Machine)
    requires Matches(x, c, m)
    ensures Inside(x, c)
  {
  }

  lemma StillGoing(x: Setting, m: Machine, j: nat, k: nat)
    requires X86Machine.Run(x.host, x.code, m, j).Continues? && !X86Machine.Run(x.host, x.code, m, k).Continues?
    ensures j < k
  {
    if k <= j { X86Machine.RunEnds(x.host, x.code, m, k, j); }
  }

  ghost predicate MachineReturns(x: Setting, m: Machine, trace: seq<Event>, value: int) {
    exists k: nat, core: Core ::
      X86Machine.Run(x.host, x.code, m, k) == Returned(x.act.ret, core) && Finished(x, core, trace, value)
  }

  /** The machine returns a value after some calls, with the stack and the caller's frame pointer
      restored, if and only if the function does. */
  lemma ReturnsAlike(x: Setting, s: Store, m: Machine, trace: seq<Event>, value: int)
    requires Ready(x) && Matches(x, Config(0, 0, s), m) && Safe(x, Config(0, 0, s))
    ensures MachineReturns(x, m, trace, value) <==> HaltsWith(x.blocks, x.host.world, s, trace, value)
  {
    hide Ready, Matches, Safe, X86Machine.Run, Ssa.Run;
    var c := Config(0, 0, s);
    if n: nat :| Ssa.Run(x.blocks, x.host.world, c, n) == Halted(trace, value) {
      var k, core := Forward(x, c, m, n);
    }
    if MachineReturns(x, m, trace, value) {
      var k: nat, core: Core :| X86Machine.Run(x.host, x.code, m, k) == Returned(x.act.ret, core)
        && Finished(x, core, trace, value);
      var n := Backward(x, c, m, k);
      var k', core' := Forward(x, c, m, n);
      X86Machine.RunEnds(x.host, x.code, m, k, if k <= k' then k' else k);
      X86Machine.RunEnds(x.host, x.code, m, k', if k <= k' then k' else k);
      assert Ssa.Run(x.blocks, x.host.world, c, n) == Halted(trace, value);
    }
  }
}
