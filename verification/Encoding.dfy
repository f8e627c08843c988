/** What src/backend/x86_64/X86_64Encoder.cpp emits for integer functions (System V branch): stack
    slots handed out as names are first used, array areas below them, instruction selection, and
    jumps whose 32-bit offsets are patched in once every label's address is known. */
module Encoding {
  import opened Ssa
  import opened X86

  datatype SSAFunction = SSAFunction(name: string, params: seq<string>, isNaked: bool, blocks: seq<SSABasicBlock>)

  /** Addresses outside the generated code: native functions, and pooled string constants. */
  datatype Symbols = Symbols(functions: map<string, int>, strings: string -> int)

  // ----- the stack frame

  /** Offsets from rbp. `arrays` is kept from one function to the next, as the encoder's
      arrayBaseOffsets is; `sizes` has the arrays of the current function, in words. */
  datatype Frame = Frame(slots: map<string, int>, arrays: map<string, int>, sizes: map<string, nat>, top: int)

  const FRAME_SIZE: int := 8192

  function Wrap32(x: int): int {
    (x + 0x8000_0000) % 0x1_0000_0000 - 0x8000_0000
  }

  function Touch(f: Frame, x: string): Frame {
    if x in f.slots then f else f.(slots := f.slots[x := f.top - 8], top := f.top - 8)
  }

  function TouchAll(f: Frame, names: seq<string>): Frame {
    if names == [] then f else Touch(TouchAll(f, names[..|names| - 1]), names[|names| - 1])
  }

  function Slot(f: Frame, x: string): int {
    if x in f.slots then f.slots[x] else 0
  }

  function Base(f: Frame, v: SSAValue): int {
    if v.Var? && v.name in f.arrays then f.arrays[v.name] else 0
  }

  function LoadNames(v: SSAValue): seq<string> {
    if v.Var? then [v.name] else []
  }

  function AllLoadNames(vs: seq<SSAValue>): seq<string> {
    if vs == [] then [] else AllLoadNames(vs[..|vs| - 1]) + LoadNames(vs[|vs| - 1])
  }

  function ResultNames(x: string): seq<string> {
    if x == "" then [] else [x]
  }

  /** The arguments a call passes: at most six, the rest are dropped. */
  function Passed(ops: seq<SSAValue>): (r: seq<SSAValue>)
    ensures |r| <= 6
  {
    if |ops| == 0 then [] else if |ops| > 7 then ops[1..7] else ops[1..]
  }

  /** The operands an instruction reads from their slots, in order. */
  function Sources(inst: SSAInstruction): seq<SSAValue> {
    var ops := inst.operands;
    if IsBinary(inst.op) then (if |ops| < 2 then [] else ops[..2])
    else
      match inst.op
      case Copy => if |ops| < 1 then [] else ops[..1]
      case CondBranch => if |ops| < 1 then [] else ops[..1]
      case Return => if |ops| < 1 then [] else ops[..1]
      case Call => Passed(ops)
      case ArrayLoad => if |ops| < 2 then [] else ops[1..2]
      case ArrayStore => if |ops| < 3 then [] else ops[1..3]
      case _ => []
  }

  predicate HasResult(op: SSAOp) {
    IsBinary(op) || op.Copy? || op.Call? || op.ArrayLoad?
  }

  /** The names an instruction's code looks up, in order. */
  function Names(inst: SSAInstruction): seq<string> {
    AllLoadNames(Sources(inst)) + if HasResult(inst.op) then ResultNames(inst.result) else []
  }

  function Count(inst: SSAInstruction): int {
    if |inst.operands| > 0 && inst.operands[0].Num? then inst.operands[0].n else 0
  }

  function Alloc(f: Frame, inst: SSAInstruction): Frame {
    if inst.op.ArrayAlloc? then
      var base := f.top - Wrap32(Count(inst) * 8);
      Frame(f.slots, f.arrays[inst.result := base],
            f.sizes[inst.result := if Count(inst) < 0 then 0 else Count(inst)], base)
    else TouchAll(f, Names(inst))
  }

  function AllocInsts(f: Frame, insts: seq<SSAInstruction>): Frame {
    if insts == [] then f else Alloc(AllocInsts(f, insts[..|insts| - 1]), insts[|insts| - 1])
  }

  function AllocBlocks(f: Frame, blocks: seq<SSABasicBlock>): Frame {
    if blocks == [] then f
    else AllocInsts(AllocBlocks(f, blocks[..|blocks| - 1]), blocks[|blocks| - 1].instructions)
  }

  // ----- instruction selection

  function LoadCode(f: Frame, sym: Symbols, reg: nat, v: SSAValue): Asm {
    match v
    case Num(n) => MovImm(reg, n)
    case Str(s) => MovImm(reg, sym.strings(s))
    case Var(x) => LoadStack(reg, Slot(f, x))
  }

  function StoreCode(f: Frame, reg: nat, x: string): seq<Asm> {
    if x == "" then [] else [StoreStack(reg, Slot(f, x))]
  }

  function CondOf(op: SSAOp): Cond {
    match op
    case Equal => CondE
    case NotEqual => CondNE
    case LessThan => CondL
    case LessEqual => CondLE
    case GreaterThan => CondG
    case _ => CondGE
  }

  function BinaryAsm(op: SSAOp): seq<Asm> {
    match op
    case Add => [AddRaxRcx]
    case Sub => [SubRaxRcx]
    case Mul => [ImulRaxRcx]
    case Div => [Cqo] + [IdivRcx]
    case Mod => [Cqo] + [IdivRcx]
    case _ => [CmpRaxRcx] + [SetAl(CondOf(op))] + [MovzxRaxAl]
  }

  const ARGUMENT_LOADS: seq<nat> := [7, 6, 2, 1]

  function PassCode(f: Frame, sym: Symbols, i: nat, v: SSAValue): seq<Asm> {
    if i < 4 then [LoadCode(f, sym, ARGUMENT_LOADS[i], v)]
    else if i == 4 then [LoadCode(f, sym, 0, v)] + [MovR8Rax]
    else [LoadCode(f, sym, 0, v)] + [MovR9Rax]
  }

  function PassAll(f: Frame, sym: Symbols, args: seq<SSAValue>): seq<Asm> {
    if args == [] then []
    else PassAll(f, sym, args[..|args| - 1]) + PassCode(f, sym, |args| - 1, args[|args| - 1])
  }

  predicate IsNativeCall(sym: Symbols, inst: SSAInstruction) {
    inst.op.Call? && |inst.operands| > 0 && TargetOf(inst.operands[0]) in sym.functions
  }

  /** The code of an instruction that neither jumps, nor returns, nor calls generated code. */
  function StraightCode(f: Frame, sym: Symbols, inst: SSAInstruction): seq<Asm> {
    var ops := inst.operands;
    if IsBinary(inst.op) then
      if |ops| < 2 then []
      else
        [LoadCode(f, sym, 0, ops[0])] + [LoadCode(f, sym, 1, ops[1])] + BinaryAsm(inst.op)
        + StoreCode(f, if inst.op.Mod? then 2 else 0, inst.result)
    else
      match inst.op
      case Copy => if |ops| < 1 then [] else [LoadCode(f, sym, 0, ops[0])] + StoreCode(f, 0, inst.result)
      case ArrayLoad =>
        if |ops| < 2 then []
        else [LoadCode(f, sym, 1, ops[1])] + [ShlRcx3] + [LeaRax(Base(f, ops[0]))] + [AddRaxRcx] + [LoadRax]
             + StoreCode(f, 0, inst.result)
      case ArrayStore =>
        if |ops| < 3 then []
        else [LoadCode(f, sym, 1, ops[1])] + [LoadCode(f, sym, 2, ops[2])] + [ShlRcx3] + [LeaRax(Base(f, ops[0]))]
             + [AddRaxRcx] + [StoreRdx]
      case Call =>
        if !IsNativeCall(sym, inst) then []
        else PassAll(f, sym, Passed(ops)) + [SubRsp8(32)] + [MovImm(0, sym.functions[TargetOf(ops[0])])] + [CallRax]
             + [AddRsp(32)] + StoreCode(f, 0, inst.result)
      case _ => []
  }

  // ----- code with labels and unresolved jumps

  datatype JumpKind = Always | IfZero | Calling

  datatype Item = Label(name: string) | Op(asm: Asm) | JumpTo(kind: JumpKind, target: string)

  function Ops(asms: seq<Asm>): seq<Item> {
    if asms == [] then [] else Ops(asms[..|asms| - 1]) + [Op(asms[|asms| - 1])]
  }

  function TargetOf(v: SSAValue): string {
    if v.Str? then v.s else ""
  }

  function Code(f: Frame, sym: Symbols, inst: SSAInstruction): seq<Item> {
    var ops := inst.operands;
    match inst.op
    case Branch => if |ops| < 1 then [] else [JumpTo(Always, TargetOf(ops[0]))]
    case CondBranch =>
      if |ops| < 3 then []
      else Ops([LoadCode(f, sym, 0, ops[0])] + [TestRax]) + [JumpTo(IfZero, TargetOf(ops[2]))]
           + [JumpTo(Always, TargetOf(ops[1]))]
    case Return =>
      Ops((if |ops| < 1 then [] else [LoadCode(f, sym, 0, ops[0])]) + [MovRspRbp] + [PopRbp]) + [Op(Ret)]
    case Call =>
      if IsNativeCall(sym, inst) || |ops| < 1 then Ops(StraightCode(f, sym, inst))
      else Ops(PassAll(f, sym, Passed(ops)) + [SubRsp8(32)]) + [JumpTo(Calling, TargetOf(ops[0]))]
           + Ops([AddRsp(32)] + StoreCode(f, 0, inst.result))
    case _ => Ops(StraightCode(f, sym, inst))
  }

  function EncInsts(f: Frame, sym: Symbols, insts: seq<SSAInstruction>): seq<Item> {
    if insts == [] then []
    else EncInsts(f, sym, insts[..|insts| - 1]) + Code(AllocInsts(f, insts), sym, insts[|insts| - 1])
  }

  function EncBlocks(f: Frame, sym: Symbols, blocks: seq<SSABasicBlock>): seq<Item> {
    if blocks == [] then []
    else
      var init, last := blocks[..|blocks| - 1], blocks[|blocks| - 1];
      EncBlocks(f, sym, init) + [Label(last.name)] + EncInsts(AllocBlocks(f, init), sym, last.instructions)
  }

  function ParamCode(f: Frame, i: nat, x: string): seq<Asm> {
    if i < 4 then [StoreStack(ARGUMENT_LOADS[i], Slot(f, x))]
    else if i == 4 then [MovRaxR8] + [StoreStack(0, Slot(f, x))]
    else [MovRaxR9] + [StoreStack(0, Slot(f, x))]
  }

  /** Parameters beyond the sixth are not read. */
  function InRegisters(params: seq<string>): (r: seq<string>)
    ensures |r| <= 6 && |r| <= |params|
  {
    if |params| > 6 then params[..6] else params
  }

  function ParamsCode(f: Frame, params: seq<string>): seq<Asm> {
    if params == [] then []
    else ParamsCode(f, params[..|params| - 1]) + ParamCode(TouchAll(f, params), |params| - 1, params[|params| - 1])
  }

  function Enter(arrays: map<string, int>): Frame {
    Frame(map[], arrays, map[], 0)
  }

  function Prologue(arrays: map<string, int>, fn: SSAFunction): seq<Asm> {
    if fn.isNaked then []
    else [PushRbp] + [MovRbpRsp] + [SubRsp(FRAME_SIZE)] + ParamsCode(Enter(arrays), InRegisters(fn.params))
  }

  /** The frame when the first block begins. */
  function Entered(arrays: map<string, int>, fn: SSAFunction): Frame {
    if fn.isNaked then Enter(arrays) else TouchAll(Enter(arrays), InRegisters(fn.params))
  }

  function EncFunction(arrays: map<string, int>, sym: Symbols, fn: SSAFunction): seq<Item> {
    [Label(fn.name)] + Ops(Prologue(arrays, fn)) + EncBlocks(Entered(arrays, fn), sym, fn.blocks)
  }

  function FinalFrame(arrays: map<string, int>, fn: SSAFunction): Frame {
    AllocBlocks(Entered(arrays, fn), fn.blocks)
  }

  /** The encoder's array table after some functions. */
  function ArraysAfter(arrays: map<string, int>, fns: seq<SSAFunction>): map<string, int> {
    if fns == [] then arrays else FinalFrame(ArraysAfter(arrays, fns[..|fns| - 1]), fns[|fns| - 1]).arrays
  }

  function EncFunctions(arrays: map<string, int>, sym: Symbols, fns: seq<SSAFunction>): seq<Item> {
    if fns == [] then []
    else
      EncFunctions(arrays, sym, fns[..|fns| - 1])
      + EncFunction(ArraysAfter(arrays, fns[..|fns| - 1]), sym, fns[|fns| - 1])
  }

  // ----- from items to bytes

  function Size(i: Item): (n: nat)
    ensures i.JumpTo? ==> n >= 5
  {
    match i
    case Label(_) => 0
    case Op(a) => |Encode(a)|
    case JumpTo(kind, _) => if kind == IfZero then 6 else 5
  }

  function Len(items: seq<Item>): nat {
    if items == [] then 0 else Len(items[..|items| - 1]) + Size(items[|items| - 1])
  }

  /** The offset from the end of a jump to its target; 0 while the target is unknown. */
  function Distance(target: string, next: int, offsets: map<string, int>): int {
    if target in offsets then offsets[target] - next else 0
  }

  function JumpAsm(kind: JumpKind, rel: int): Asm {
    match kind
    case Always => Jmp(rel)
    case IfZero => Jz(rel)
    case Calling => CallRel(rel)
  }

  function ItemBytes(i: Item, at: int, offsets: map<string, int>): (r: seq<int>)
    ensures |r| == Size(i)
  {
    match i
    case Label(_) => []
    case Op(a) => Encode(a)
    case JumpTo(kind, target) => Encode(JumpAsm(kind, Distance(target, at + Size(i), offsets)))
  }

  /** The bytes of items placed at an address, with the labels at the given addresses. */
  function Resolved(items: seq<Item>, at: int, offsets: map<string, int>): (r: seq<int>)
    ensures |r| == Len(items)
  {
    if items == [] then []
    else
      var init := items[..|items| - 1];
      Resolved(init, at, offsets) + ItemBytes(items[|items| - 1], at + Len(init), offsets)
  }

  /** The address of every label; of two labels with the same name the later one. */
  function Offsets(items: seq<Item>, at: int): map<string, int> {
    if items == [] then map[]
    else
      var init, last := items[..|items| - 1], items[|items| - 1];
      if last.Label? then Offsets(init, at)[last.name := at + Len(init)] else Offsets(init, at)
  }

  datatype Patch = Patch(location: nat, target: string)

  /** Where the offsets of jumps have to be filled in. */
  function Patches(items: seq<Item>, at: nat): seq<Patch> {
    if items == [] then []
    else
      var init, last := items[..|items| - 1], items[|items| - 1];
      if last.JumpTo? then Patches(init, at) + [Patch(at + Len(init) + Size(last) - 4, last.target)]
      else Patches(init, at)
  }

  function ApplyPatch(code: seq<int>, p: Patch, offsets: map<string, int>): (r: seq<int>)
    ensures |r| == |code|
  {
    if p.target in offsets && p.location + 4 <= |code| then
      code[..p.location] + Bytes(4, offsets[p.target] - (p.location + 4)) + code[p.location + 4..]
    else code
  }

  function ApplyPatches(code: seq<int>, patches: seq<Patch>, offsets: map<string, int>): (r: seq<int>)
    ensures |r| == |code|
  {
    if patches == [] then code
    else ApplyPatch(ApplyPatches(code, patches[..|patches| - 1], offsets), patches[|patches| - 1], offsets)
  }

  /** The whole program: code with empty jump offsets, then the patches. */
  function EncProgram(arrays: map<string, int>, sym: Symbols, program: seq<SSAFunction>): seq<int> {
    var items := EncFunctions(arrays, sym, Ordered(program));
    ApplyPatches(Resolved(items, 0, map[]), Patches(items, 0), Offsets(items, 0))
  }

  /** `_start` and `main` go first; of several of the same name the last one is taken. */
  function Ordered(program: seq<SSAFunction>): seq<SSAFunction> {
    LastNamed(program, "_start") + LastNamed(program, "main") + Others(program)
  }

  function LastNamed(program: seq<SSAFunction>, name: string): seq<SSAFunction> {
    if program == [] then []
    else if program[|program| - 1].name == name then [program[|program| - 1]]
    else LastNamed(program[..|program| - 1], name)
  }

  function Others(program: seq<SSAFunction>): seq<SSAFunction> {
    if program == [] then []
    else
      var last := program[|program| - 1];
      Others(program[..|program| - 1]) + if last.name == "_start" || last.name == "main" then [] else [last]
  }

  // ----- patching

  lemma {:induction false} PatchesInside(items: seq<Item>, at: nat, k: nat)
    requires k < |Patches(items, at)|
    ensures Patches(items, at)[k].location + 4 <= at + Len(items)
    decreases |items|
  {
    var init := items[..|items| - 1];
    if k < |Patches(init, at)| { PatchesInside(init, at, k); }
  }

  lemma {:induction false} PatchPrefix(x: seq<int>, y: seq<int>, ps: seq<Patch>, offsets: map<string, int>)
    requires forall k :: 0 <= k < |ps| ==> ps[k].location + 4 <= |x|
    ensures ApplyPatches(x + y, ps, offsets) == ApplyPatches(x, ps, offsets) + y
    decreases |ps|
  {
    hide Bytes;
    if ps != [] {
      var init, p := ps[..|ps| - 1], ps[|ps| - 1];
      PatchPrefix(x, y, init, offsets);
      var x1 := ApplyPatches(x, init, offsets);
      assert (x1 + y)[..p.location] == x1[..p.location];
      assert (x1 + y)[p.location + 4..] == x1[p.location + 4..] + y;
      if p.target in offsets {
        var b := Bytes(4, offsets[p.target] - (p.location + 4));
        assert x1[..p.location] + b + (x1[p.location + 4..] + y) == x1[..p.location] + b + x1[p.location + 4..] + y;
      }
    }
  }

  /** Patching one jump at the end of the code. */
  lemma PatchLast(x: seq<int>, i: Item, offsets: map<string, int>)
    requires i.JumpTo?
    ensures ApplyPatch(x + ItemBytes(i, |x|, map[]), Patch(|x| + Size(i) - 4, i.target), offsets) ==
            x + ItemBytes(i, |x|, offsets)
  {
    hide Bytes;
    var n := |x| + Size(i) - 4;
    var old_ := x + ItemBytes(i, |x|, map[]);
    if i.target in offsets {
      assert old_[n + 4..] == [];
      var op := if i.kind == IfZero then [0x0F, 0x84] else if i.kind == Always then [0xE9] else [0xE8];
      assert ItemBytes(i, |x|, map[]) == op + Bytes(4, 0);
      assert old_[..n] == x + op;
      var rel := offsets[i.target] - (n + 4);
      assert x + op + Bytes(4, rel) + [] == x + (op + Bytes(4, rel));
    }
  }

  /** Back-patching gives exactly the code that would have been emitted had every label been known
      from the start: each jump holds the distance to its label, no other byte changes. */
  lemma {:induction false} PatchCorrect(items: seq<Item>, offsets: map<string, int>)
    ensures ApplyPatches(Resolved(items, 0, map[]), Patches(items, 0), offsets) == Resolved(items, 0, offsets)
    decreases |items|
  {
    hide ItemBytes, ApplyPatch, Size;
    if items != [] {
      var init, last := items[..|items| - 1], items[|items| - 1];
      var x, ps := Resolved(init, 0, map[]), Patches(init, 0);
      PatchCorrect(init, offsets);
      forall k | 0 <= k < |ps| ensures ps[k].location + 4 <= |x| { PatchesInside(init, 0, k); }
      PatchPrefix(x, ItemBytes(last, Len(init), map[]), ps, offsets);
      if last.JumpTo? {
        var y := Resolved(init, 0, offsets);
        PatchLast(y, last, offsets);
        var p := Patch(Len(init) + Size(last) - 4, last.target);
        assert (ps + [p])[..|ps|] == ps;
      } else {
        NoPatch(last, Len(init), offsets);
      }
    }
  }

  lemma NoPatch(i: Item, at: int, offsets: map<string, int>)
    requires !i.JumpTo?
    ensures ItemBytes(i, at, map[]) == ItemBytes(i, at, offsets)
  {
  }

  lemma ProgramIsResolved(arrays: map<string, int>, sym: Symbols, program: seq<SSAFunction>)
    ensures var items := EncFunctions(arrays, sym, Ordered(program));
      EncProgram(arrays, sym, program) == Resolved(items, 0, Offsets(items, 0))
  {
    var items := EncFunctions(arrays, sym, Ordered(program));
    PatchCorrect(items, Offsets(items, 0));
  }
}
