/** Where things are in the frame and in the code that module Encoding lays out: slots and array
    areas never overlap, offsets handed out stay valid, every instruction's bytes are at its address,
    and every label's recorded address is where its block begins. */
module EncodingLayout {
  import opened Ssa
  import opened X86
  import opened X86Machine
  import opened Encoding

  // ----- the frame

  ghost predicate SlotsApart(f: Frame) {
    forall x, y :: x in f.slots && y in f.slots && x != y ==> f.slots[x] != f.slots[y]
  }

  ghost predicate SlotOutside(f: Frame, x: string, a: string)
    requires x in f.slots && a in f.sizes && a in f.arrays
  {
    f.slots[x] < f.arrays[a] || f.slots[x] >= f.arrays[a] + 8 * f.sizes[a]
  }

  ghost predicate SlotsOutsideArrays(f: Frame)
    requires f.sizes.Keys <= f.arrays.Keys
  {
    forall x, a :: x in f.slots && a in f.sizes ==> SlotOutside(f, x, a)
  }

  ghost predicate ArrayApart(f: Frame, a: string, b: string)
    requires a in f.sizes && a in f.arrays && b in f.sizes && b in f.arrays
  {
    f.arrays[a] + 8 * f.sizes[a] <= f.arrays[b] || f.arrays[b] + 8 * f.sizes[b] <= f.arrays[a]
  }

  ghost predicate ArraysApart(f: Frame)
    requires f.sizes.Keys <= f.arrays.Keys
  {
    forall a, b :: a in f.sizes && b in f.sizes && a != b ==> ArrayApart(f, a, b)
  }

  ghost predicate SlotsInside(f: Frame) {
    forall x :: x in f.slots ==> f.top <= f.slots[x] <= -8 && f.slots[x] % 8 == 0
  }

  ghost predicate ArraysInside(f: Frame)
    requires f.sizes.Keys <= f.arrays.Keys
  {
    forall a :: a in f.sizes ==> f.top <= f.arrays[a] && f.arrays[a] + 8 * f.sizes[a] <= 0 && f.arrays[a] % 8 == 0
  }

  /** Every slot and every array area lies between `top` and rbp, and no two of them overlap. */
  ghost predicate FrameInv(f: Frame) {
    && f.top <= 0 && f.top % 8 == 0 && f.sizes.Keys <= f.arrays.Keys
    && SlotsInside(f) && SlotsApart(f) && ArraysInside(f) && SlotsOutsideArrays(f) && ArraysApart(f)
  }

  /** F still has everything that f has, at the same offsets. */
  ghost predicate Ext(f: Frame, F: Frame) {
    && F.top <= f.top
    && (forall x :: x in f.slots ==> x in F.slots && F.slots[x] == f.slots[x])
    && (forall a :: a in f.sizes ==> a in F.sizes && F.sizes[a] == f.sizes[a] && Offset(F, a) == Offset(f, a))
  }

  function Offset(f: Frame, a: string): int {
    if a in f.arrays then f.arrays[a] else 0
  }

  /** Arrays are allocated once, with a constant size, before they are used. */
  predicate ArrayOk(f: Frame, inst: SSAInstruction) {
    match inst.op
    case ArrayAlloc => |inst.operands| > 0 && inst.operands[0].Num? && 0 <= inst.operands[0].n <= 1024
      && inst.result !in f.sizes
    case ArrayLoad => |inst.operands| >= 2 && inst.operands[0].Var? && inst.operands[0].name in f.sizes
    case ArrayStore => |inst.operands| >= 3 && inst.operands[0].Var? && inst.operands[0].name in f.sizes
    case _ => true
  }

  predicate InstsOk(f: Frame, insts: seq<SSAInstruction>) {
    insts == []
    || (InstsOk(f, insts[..|insts| - 1]) && ArrayOk(AllocInsts(f, insts[..|insts| - 1]), insts[|insts| - 1]))
  }

  predicate BlocksOk(f: Frame, blocks: seq<SSABasicBlock>) {
    blocks == []
    || (BlocksOk(f, blocks[..|blocks| - 1])
        && InstsOk(AllocBlocks(f, blocks[..|blocks| - 1]), blocks[|blocks| - 1].instructions))
  }

  lemma TouchKeeps(f: Frame, x: string)
    requires FrameInv(f)
    ensures FrameInv(Touch(f, x)) && Ext(f, Touch(f, x)) && x in Touch(f, x).slots
  {
    var g := Touch(f, x);
    if x !in f.slots {
      forall y, a | y in g.slots && a in g.sizes ensures SlotOutside(g, y, a) {
        if y != x { assert SlotOutside(f, y, a); }
      }
      forall a, b | a in g.sizes && b in g.sizes && a != b ensures ArrayApart(g, a, b) { assert ArrayApart(f, a, b); }
    }
  }

  lemma {:induction false} TouchAllKeeps(f: Frame, names: seq<string>)
    requires FrameInv(f)
    ensures FrameInv(TouchAll(f, names)) && Ext(f, TouchAll(f, names))
    ensures forall x :: x in names ==> x in TouchAll(f, names).slots
    decreases |names|
  {
    hide FrameInv, Ext;
    if names != [] {
      var init := names[..|names| - 1];
      TouchAllKeeps(f, init);
      TouchKeeps(TouchAll(f, init), names[|names| - 1]);
      ExtTrans(f, TouchAll(f, init), TouchAll(f, names));
      forall x | x in names ensures x in TouchAll(f, names).slots {
        if x in init { ExtSlot(TouchAll(f, init), TouchAll(f, names), x); }
      }
    } else {
      ExtSelf(f);
    }
  }

  lemma ExtSelf(f: Frame)
    ensures Ext(f, f)
  {
  }

  lemma ExtTrans(f: Frame, g: Frame, h: Frame)
    requires Ext(f, g) && Ext(g, h)
    ensures Ext(f, h)
  {
  }

  lemma ExtSlot(f: Frame, F: Frame, x: string)
    requires Ext(f, F) && x in f.slots
    ensures x in F.slots && Slot(f, x) == Slot(F, x)
  {
  }

  lemma ArrayAllocKeeps(f: Frame, inst: SSAInstruction)
    requires FrameInv(f) && inst.op.ArrayAlloc? && ArrayOk(f, inst)
    ensures FrameInv(Alloc(f, inst)) && Ext(f, Alloc(f, inst))
  {
    var g, n, r := Alloc(f, inst), inst.operands[0].n, inst.result;
    assert Wrap32(n * 8) == n * 8;
    forall y, a | y in g.slots && a in g.sizes ensures SlotOutside(g, y, a) {
      if a != r { assert SlotOutside(f, y, a); }
    }
    forall a, b | a in g.sizes && b in g.sizes && a != b ensures ArrayApart(g, a, b) {
      if a != r && b != r { assert ArrayApart(f, a, b); }
    }
  }

  lemma AllocKeeps(f: Frame, inst: SSAInstruction)
    requires FrameInv(f) && ArrayOk(f, inst)
    ensures FrameInv(Alloc(f, inst)) && Ext(f, Alloc(f, inst))
    ensures !inst.op.ArrayAlloc? ==> forall x :: x in Names(inst) ==> x in Alloc(f, inst).slots
  {
    hide FrameInv, Ext, ArrayOk;
    if inst.op.ArrayAlloc? { ArrayAllocKeeps(f, inst); } else { TouchAllKeeps(f, Names(inst)); }
  }

  lemma {:induction false} AllocInstsKeeps(f: Frame, insts: seq<SSAInstruction>)
    requires FrameInv(f) && InstsOk(f, insts)
    ensures FrameInv(AllocInsts(f, insts)) && Ext(f, AllocInsts(f, insts))
    decreases |insts|
  {
    hide FrameInv, Ext, ArrayOk, Alloc;
    if insts == [] {
      ExtSelf(f);
    } else {
      var init := insts[..|insts| - 1];
      AllocInstsKeeps(f, init);
      AllocKeeps(AllocInsts(f, init), insts[|insts| - 1]);
      ExtTrans(f, AllocInsts(f, init), AllocInsts(f, insts));
    }
  }

  lemma {:induction false} AllocBlocksKeeps(f: Frame, blocks: seq<SSABasicBlock>)
    requires FrameInv(f) && BlocksOk(f, blocks)
    ensures FrameInv(AllocBlocks(f, blocks)) && Ext(f, AllocBlocks(f, blocks))
    decreases |blocks|
  {
    hide FrameInv, Ext, AllocInsts, InstsOk;
    if blocks == [] {
      ExtSelf(f);
    } else {
      var init := blocks[..|blocks| - 1];
      AllocBlocksKeeps(f, init);
      AllocInstsKeeps(AllocBlocks(f, init), blocks[|blocks| - 1].instructions);
      ExtTrans(f, AllocBlocks(f, init), AllocBlocks(f, blocks));
    }
  }

  lemma EnteredInv(arrays: map<string, int>, fn: SSAFunction)
    ensures FrameInv(Entered(arrays, fn))
  {
    hide FrameInv, TouchAll;
    EnterInv(arrays);
    if !fn.isNaked { TouchAllKeeps(Enter(arrays), InRegisters(fn.params)); }
  }

  lemma EnterInv(arrays: map<string, int>)
    ensures FrameInv(Enter(arrays))
  {
  }

  // ----- the frame at a position, and the whole function's

  function FrameBefore(f: Frame, blocks: seq<SSABasicBlock>, b: nat, j: nat): Frame
    requires b < |blocks| && j <= |blocks[b].instructions|
  {
    AllocInsts(AllocBlocks(f, blocks[..b]), blocks[b].instructions[..j])
  }

  lemma {:induction false} InstsPrefix(f: Frame, insts: seq<SSAInstruction>, j: nat)
    requires FrameInv(f) && InstsOk(f, insts) && j <= |insts|
    ensures InstsOk(f, insts[..j]) && Ext(AllocInsts(f, insts[..j]), AllocInsts(f, insts))
    decreases |insts|
  {
    hide FrameInv, Ext, ArrayOk, Alloc;
    if j == |insts| {
      assert insts[..j] == insts;
      ExtSelf(AllocInsts(f, insts));
    } else {
      var init := insts[..|insts| - 1];
      assert init[..j] == insts[..j];
      InstsPrefix(f, init, j);
      AllocInstsKeeps(f, init);
      AllocKeeps(AllocInsts(f, init), insts[|insts| - 1]);
      ExtTrans(AllocInsts(f, insts[..j]), AllocInsts(f, init), AllocInsts(f, insts));
    }
  }

  lemma {:induction false} BlocksPrefix(f: Frame, blocks: seq<SSABasicBlock>, b: nat)
    requires FrameInv(f) && BlocksOk(f, blocks) && b <= |blocks|
    ensures BlocksOk(f, blocks[..b]) && Ext(AllocBlocks(f, blocks[..b]), AllocBlocks(f, blocks))
    decreases |blocks|
  {
    hide FrameInv, Ext, AllocInsts, InstsOk;
    if b == |blocks| {
      assert blocks[..b] == blocks;
      ExtSelf(AllocBlocks(f, blocks));
    } else {
      var init := blocks[..|blocks| - 1];
      assert init[..b] == blocks[..b];
      BlocksPrefix(f, init, b);
      AllocBlocksKeeps(f, init);
      AllocInstsKeeps(AllocBlocks(f, init), blocks[|blocks| - 1].instructions);
      ExtTrans(AllocBlocks(f, blocks[..b]), AllocBlocks(f, init), AllocBlocks(f, blocks));
    }
  }

  /** Right after an instruction's names are looked up, they are where they are in the final frame. */
  lemma InstFrame(f: Frame, blocks: seq<SSABasicBlock>, b: nat, j: nat)
    requires FrameInv(f) && BlocksOk(f, blocks) && b < |blocks| && j < |blocks[b].instructions|
    ensures var inst, g, h := blocks[b].instructions[j], FrameBefore(f, blocks, b, j), FrameBefore(f, blocks, b, j + 1);
      && h == Alloc(g, inst) && ArrayOk(g, inst) && Ext(g, h) && Ext(h, AllocBlocks(f, blocks))
      && (!inst.op.ArrayAlloc? ==> forall x :: x in Names(inst) ==> x in h.slots)
  {
    hide FrameInv, Ext, ArrayOk, Alloc, Names;
    var insts := blocks[b].instructions;
    var upto := blocks[..b + 1];
    var fb := AllocBlocks(f, blocks[..b]);
    assert upto[..b] == blocks[..b];
    BlocksPrefix(f, blocks, b);
    AllocBlocksKeeps(f, blocks[..b]);
    BlocksPrefix(f, blocks, b + 1);
    InstsPrefix(fb, insts, j);
    InstsPrefix(fb, insts, j + 1);
    assert insts[..j + 1][..j] == insts[..j];
    AllocInstsKeeps(fb, insts[..j]);
    AllocKeeps(FrameBefore(f, blocks, b, j), insts[j]);
    ExtTrans(FrameBefore(f, blocks, b, j + 1), AllocBlocks(f, upto), AllocBlocks(f, blocks));
  }

  // ----- code selected under the running frame and under the final one

  lemma {:induction false} LoadNamesIn(vs: seq<SSAValue>, v: SSAValue)
    requires v in vs && v.Var?
    ensures v.name in AllLoadNames(vs)
    decreases |vs|
  {
    var init := vs[..|vs| - 1];
    if v != vs[|vs| - 1] {
      assert v in init;
      LoadNamesIn(init, v);
    }
  }

  ghost predicate Placed(f: Frame, vs: seq<SSAValue>) {
    forall v :: v in vs && v.Var? ==> v.name in f.slots
  }

  lemma SourcesPlaced(f: Frame, inst: SSAInstruction)
    requires forall x :: x in Names(inst) ==> x in f.slots
    ensures Placed(f, Sources(inst))
    ensures HasResult(inst.op) && inst.result != "" ==> inst.result in f.slots
  {
    hide AllLoadNames, Sources;
    forall v | v in Sources(inst) && v.Var? ensures v.name in f.slots { LoadNamesIn(Sources(inst), v); }
    if HasResult(inst.op) && inst.result != "" { assert inst.result in ResultNames(inst.result); }
  }

  lemma LoadAgrees(f: Frame, F: Frame, sym: Symbols, reg: nat, v: SSAValue)
    requires Ext(f, F) && (v.Var? ==> v.name in f.slots)
    ensures LoadCode(f, sym, reg, v) == LoadCode(F, sym, reg, v)
  {
  }

  lemma StoreAgrees(f: Frame, F: Frame, reg: nat, x: string)
    requires Ext(f, F) && (x != "" ==> x in f.slots)
    ensures StoreCode(f, reg, x) == StoreCode(F, reg, x)
  {
  }

  lemma {:induction false} PassAgrees(f: Frame, F: Frame, sym: Symbols, args: seq<SSAValue>)
    requires Ext(f, F) && Placed(f, args)
    ensures PassAll(f, sym, args) == PassAll(F, sym, args)
    decreases |args|
  {
    hide Ext;
    if args != [] {
      var init, v := args[..|args| - 1], args[|args| - 1];
      PassAgrees(f, F, sym, init);
      LoadAgrees(f, F, sym, 0, v);
      if |init| < 4 { LoadAgrees(f, F, sym, ARGUMENT_LOADS[|init|], v); }
    }
  }

  lemma BaseAgrees(f: Frame, F: Frame, v: SSAValue)
    requires Ext(f, F) && v.Var? && v.name in f.sizes
    ensures Base(f, v) == Base(F, v)
  {
    assert Offset(F, v.name) == Offset(f, v.name);
  }

  lemma StraightAgrees(f: Frame, F: Frame, sym: Symbols, inst: SSAInstruction)
    requires Ext(f, F) && ArrayOk(f, inst) && Placed(f, Sources(inst))
    requires HasResult(inst.op) && inst.result != "" ==> inst.result in f.slots
    ensures StraightCode(f, sym, inst) == StraightCode(F, sym, inst)
  {
    hide Ext, LoadCode, StoreCode, Base;
    var ops := inst.operands;
    assert forall v :: v in Sources(inst) && v.Var? ==> v.name in f.slots;
    if HasResult(inst.op) {
      StoreAgrees(f, F, 0, inst.result);
      StoreAgrees(f, F, 2, inst.result);
    }
    if IsBinary(inst.op) && |ops| >= 2 {
      assert ops[0] == ops[..2][0] && ops[1] == ops[..2][1];
      LoadAgrees(f, F, sym, 0, ops[0]);
      LoadAgrees(f, F, sym, 1, ops[1]);
    } else if inst.op.Copy? && |ops| >= 1 {
      assert ops[0] == ops[..1][0];
      LoadAgrees(f, F, sym, 0, ops[0]);
    } else if inst.op.Call? {
      PassAgrees(f, F, sym, Passed(ops));
    } else if inst.op.ArrayLoad? {
      assert ops[1] == ops[1..2][0];
      BaseAgrees(f, F, ops[0]);
      LoadAgrees(f, F, sym, 1, ops[1]);
    } else if inst.op.ArrayStore? {
      assert ops[1] == ops[1..3][0] && ops[2] == ops[1..3][1];
      BaseAgrees(f, F, ops[0]);
      LoadAgrees(f, F, sym, 1, ops[1]);
      LoadAgrees(f, F, sym, 2, ops[2]);
    }
  }

  lemma CodeAgrees(f: Frame, F: Frame, sym: Symbols, inst: SSAInstruction)
    requires Ext(f, F) && ArrayOk(f, inst) && Placed(f, Sources(inst))
    requires HasResult(inst.op) && inst.result != "" ==> inst.result in f.slots
    ensures Code(f, sym, inst) == Code(F, sym, inst)
  {
    hide Ext, LoadCode, StoreCode, StraightCode, Ops, PassAll, ArrayOk;
    var ops := inst.operands;
    StraightAgrees(f, F, sym, inst);
    if (inst.op.CondBranch? || inst.op.Return?) && |ops| >= 1 {
      assert ops[0] == ops[..1][0];
      assert ops[0] in Sources(inst);
      LoadAgrees(f, F, sym, 0, ops[0]);
    } else if inst.op.Call? {
      StoreAgrees(f, F, 0, inst.result);
      PassAgrees(f, F, sym, Passed(ops));
    }
  }

  /** The code of the instruction at a position, in terms of the final frame. */
  lemma CodeAtFinal(f: Frame, sym: Symbols, blocks: seq<SSABasicBlock>, b: nat, j: nat)
    requires FrameInv(f) && BlocksOk(f, blocks) && b < |blocks| && j < |blocks[b].instructions|
    ensures var inst, h, F := blocks[b].instructions[j], FrameBefore(f, blocks, b, j + 1), AllocBlocks(f, blocks);
      && Code(h, sym, inst) == Code(F, sym, inst) && Ext(h, F)
      && (!inst.op.ArrayAlloc? ==>
         Placed(F, Sources(inst)) && (HasResult(inst.op) && inst.result != "" ==> inst.result in F.slots))
      && (inst.op.ArrayLoad? || inst.op.ArrayStore? ==> ArrayOk(F, inst))
  {
    hide Ext, Code, AllocBlocks, AllocInsts, BlocksOk, FrameInv, Names, Sources, FrameBefore, Alloc;
    var inst, g, h, F :=
      blocks[b].instructions[j], FrameBefore(f, blocks, b, j), FrameBefore(f, blocks, b, j + 1), AllocBlocks(f, blocks);
    InstFrame(f, blocks, b, j);
    if inst.op.ArrayAlloc? {
      NoCode(h, F, sym, inst);
    } else {
      SourcesPlaced(h, inst);
      StillOk(g, h, inst);
      CodeAgrees(h, F, sym, inst);
      StillOk(h, F, inst);
      StillPlaced(h, F, Sources(inst));
      if HasResult(inst.op) && inst.result != "" { ExtSlot(h, F, inst.result); }
    }
  }

  lemma NoCode(f: Frame, F: Frame, sym: Symbols, inst: SSAInstruction)
    requires inst.op.ArrayAlloc?
    ensures Code(f, sym, inst) == [] == Code(F, sym, inst)
  {
  }

  lemma StillOk(f: Frame, F: Frame, inst: SSAInstruction)
    requires Ext(f, F) && ArrayOk(f, inst) && !inst.op.ArrayAlloc?
    ensures ArrayOk(F, inst)
  {
  }

  lemma StillPlaced(f: Frame, F: Frame, vs: seq<SSAValue>)
    requires Ext(f, F) && Placed(f, vs)
    ensures Placed(F, vs)
  {
  }

  // ----- the code

  ghost predicate HasItems(code: seq<int>, at: int, items: seq<Item>, offsets: map<string, int>) {
    Has(code, at, Resolved(items, at, offsets))
  }

  lemma {:induction false} LenAppend(a: seq<Item>, b: seq<Item>)
    ensures Len(a + b) == Len(a) + Len(b)
    decreases |b|
  {
    if b == [] {
      assert a + b == a;
    } else {
      assert (a + b)[..|a + b| - 1] == a + b[..|b| - 1];
      LenAppend(a, b[..|b| - 1]);
    }
  }

  lemma {:induction false} ResolvedAppend(a: seq<Item>, b: seq<Item>, at: int, offsets: map<string, int>)
    ensures Resolved(a + b, at, offsets) == Resolved(a, at, offsets) + Resolved(b, at + Len(a), offsets)
    decreases |b|
  {
    hide ItemBytes, Size, Resolved, Len;
    if b == [] {
      ResolvedNone(at + Len(a), offsets);
      assert a + b == a;
    } else {
      var init, last := b[..|b| - 1], b[|b| - 1];
      assert (a + b)[..|a + b| - 1] == a + init;
      ResolvedAppend(a, init, at, offsets);
      LenAppend(a, init);
      ResolvedSnoc(a + b, at, offsets);
      ResolvedSnoc(b, at + Len(a), offsets);
      var x, y, z :=
        Resolved(a, at, offsets), Resolved(init, at + Len(a), offsets),
          ItemBytes(last, at + Len(a) + Len(init), offsets);
      assert x + y + z == x + (y + z);
    }
  }

  lemma ResolvedNone(at: int, offsets: map<string, int>)
    ensures Resolved([], at, offsets) == []
  {
  }

  lemma ResolvedSnoc(items: seq<Item>, at: int, offsets: map<string, int>)
    requires items != []
    ensures var init := items[..|items| - 1];
      Resolved(items, at, offsets) ==
        Resolved(init, at, offsets) + ItemBytes(items[|items| - 1], at + Len(init), offsets)
  {
  }

  lemma HasItemsParts(code: seq<int>, at: int, a: seq<Item>, b: seq<Item>, offsets: map<string, int>)
    requires HasItems(code, at, a + b, offsets)
    ensures HasItems(code, at, a, offsets) && HasItems(code, at + Len(a), b, offsets)
  {
    hide Resolved, Has, Len;
    ResolvedAppend(a, b, at, offsets);
    HasParts(code, at, Resolved(a, at, offsets), Resolved(b, at + Len(a), offsets));
  }

  lemma {:induction false} ResolvedOps(asms: seq<Asm>, at: int, offsets: map<string, int>)
    ensures Resolved(Ops(asms), at, offsets) == EncodeAll(asms)
    decreases |asms|
  {
    hide Encode;
    if asms != [] {
      var items := Ops(asms);
      assert items[..|items| - 1] == Ops(asms[..|asms| - 1]);
      ResolvedOps(asms[..|asms| - 1], at, offsets);
    }
  }

  /** The address of a position in a function whose blocks begin at `at`. */
  function PcOf(f: Frame, sym: Symbols, blocks: seq<SSABasicBlock>, at: int, b: nat, j: nat): int
    requires b < |blocks| && j <= |blocks[b].instructions|
  {
    at + Len(EncBlocks(f, sym, blocks[..b]))
    + Len(EncInsts(AllocBlocks(f, blocks[..b]), sym, blocks[b].instructions[..j]))
  }

  lemma {:induction false} BlocksAt(code: seq<int>, offsets: map<string, int>, f: Frame, sym: Symbols,
      blocks: seq<SSABasicBlock>,
                                    at: int, b: nat)
    requires HasItems(code, at, EncBlocks(f, sym, blocks), offsets) && b <= |blocks|
    ensures HasItems(code, at, EncBlocks(f, sym, blocks[..b]), offsets)
    decreases |blocks|
  {
    hide HasItems, EncInsts, AllocBlocks;
    if b == |blocks| {
      assert blocks[..b] == blocks;
    } else {
      var init, last := blocks[..|blocks| - 1], blocks[|blocks| - 1];
      var tail := EncInsts(AllocBlocks(f, init), sym, last.instructions);
      HasItemsParts(code, at, EncBlocks(f, sym, init) + [Label(last.name)], tail, offsets);
      HasItemsParts(code, at, EncBlocks(f, sym, init), [Label(last.name)], offsets);
      assert init[..b] == blocks[..b];
      BlocksAt(code, offsets, f, sym, init, at, b);
    }
  }

  lemma {:induction false} InstsAt(code: seq<int>, offsets: map<string, int>, f: Frame, sym: Symbols,
      insts: seq<SSAInstruction>,
                                   at: int, j: nat)
    requires HasItems(code, at, EncInsts(f, sym, insts), offsets) && j < |insts|
    ensures var pc, c := at + Len(EncInsts(f, sym, insts[..j])), Code(AllocInsts(f, insts[..j + 1]), sym, insts[j]);
      HasItems(code, pc, c, offsets) && at + Len(EncInsts(f, sym, insts[..j + 1])) == pc + Len(c)
    decreases |insts|
  {
    hide HasItems, Code, AllocInsts;
    var init, last := insts[..|insts| - 1], insts[|insts| - 1];
    var c := Code(AllocInsts(f, insts), sym, last);
    HasItemsParts(code, at, EncInsts(f, sym, init), c, offsets);
    if j == |init| {
      assert insts[..j + 1] == insts;
      LenAppend(EncInsts(f, sym, init), c);
    } else {
      assert init[..j] == insts[..j] && init[..j + 1] == insts[..j + 1];
      InstsAt(code, offsets, f, sym, init, at, j);
    }
  }

  /** The bytes of the instruction at a position are at its address, the next position follows them. */
  lemma InstructionAt(code: seq<int>, offsets: map<string, int>, f: Frame, sym: Symbols, blocks: seq<SSABasicBlock>,
      at: int,
                      b: nat, j: nat)
    requires HasItems(code, at, EncBlocks(f, sym, blocks), offsets) && b < |blocks| && j < |blocks[b].instructions|
    ensures var pc, c :=
      PcOf(f, sym, blocks, at, b, j), Code(FrameBefore(f, blocks, b, j + 1), sym, blocks[b].instructions[j]);
      HasItems(code, pc, c, offsets) && PcOf(f, sym, blocks, at, b, j + 1) == pc + Len(c)
  {
    hide HasItems, Code, AllocInsts, EncInsts, Len, AllocBlocks;
    BlocksAt(code, offsets, f, sym, blocks, at, b + 1);
    var upto, last := blocks[..b + 1], blocks[b];
    assert upto[..b] == blocks[..b];
    var head := EncBlocks(f, sym, blocks[..b]);
    var fb := AllocBlocks(f, blocks[..b]);
    HasItemsParts(code, at, head + [Label(last.name)], EncInsts(fb, sym, last.instructions), offsets);
    LenLabel(head, last.name);
    InstsAt(code, offsets, fb, sym, last.instructions, at + Len(head), j);
  }

  lemma LenLabel(items: seq<Item>, name: string)
    ensures Len(items + [Label(name)]) == Len(items)
  {
    assert (items + [Label(name)])[..|items|] == items;
  }

  /** Where one block's code ends the next one's begins. */
  lemma NextBlock(f: Frame, sym: Symbols, blocks: seq<SSABasicBlock>, at: int, b: nat)
    requires b + 1 < |blocks|
    ensures PcOf(f, sym, blocks, at, b + 1, 0) == PcOf(f, sym, blocks, at, b, |blocks[b].instructions|)
  {
    hide AllocBlocks, AllocInsts;
    var last := blocks[b];
    assert blocks[..b + 1][..b] == blocks[..b];
    assert last.instructions[..|last.instructions|] == last.instructions;
    var head, tail := EncBlocks(f, sym, blocks[..b]), EncInsts(AllocBlocks(f, blocks[..b]), sym, last.instructions);
    LenLabel(head, last.name);
    LenAppend(head + [Label(last.name)], tail);
    assert Len(EncInsts(AllocBlocks(f, blocks[..b + 1]), sym, [])) == 0;
  }

  // ----- labels

  ghost predicate DistinctLabels(items: seq<Item>) {
    forall i, j :: 0 <= i < j < |items| && items[i].Label? && items[j].Label? ==> items[i].name != items[j].name
  }

  /** A label's recorded address is the length of what precedes it. */
  lemma {:induction false} LabelAddress(items: seq<Item>, at: int, k: nat)
    requires DistinctLabels(items) && k < |items| && items[k].Label?
    ensures items[k].name in Offsets(items, at) && Offsets(items, at)[items[k].name] == at + Len(items[..k])
    decreases |items|
  {
    var init := items[..|items| - 1];
    if k == |init| {
      assert items[..k] == init;
    } else {
      assert init[..k] == items[..k] && init[k] == items[k];
      LabelAddress(init, at, k);
    }
  }

  lemma {:induction false} BlockLabel(f: Frame, sym: Symbols, blocks: seq<SSABasicBlock>, b: nat)
    requires b < |blocks|
    ensures var k, items := |EncBlocks(f, sym, blocks[..b])|, EncBlocks(f, sym, blocks);
      k < |items| && items[k] == Label(blocks[b].name) && items[..k] == EncBlocks(f, sym, blocks[..b])
    decreases |blocks|
  {
    hide AllocBlocks, EncInsts;
    var init := blocks[..|blocks| - 1];
    if b == |init| {
      assert blocks[..b] == init;
    } else {
      assert init[..b] == blocks[..b] && init[b] == blocks[b];
      BlockLabel(f, sym, init, b);
    }
  }

  /** In a program without duplicate labels, a block's label is recorded at the block's address. */
  lemma BlockAddress(pre: seq<Item>, f: Frame, sym: Symbols, blocks: seq<SSABasicBlock>, post: seq<Item>, b: nat)
    requires b < |blocks|
    requires DistinctLabels(pre + EncBlocks(f, sym, blocks) + post)
    ensures var offsets, name := Offsets(pre + EncBlocks(f, sym, blocks) + post, 0), blocks[b].name;
      name in offsets && offsets[name] == PcOf(f, sym, blocks, Len(pre), b, 0)
  {
    hide DistinctLabels, AllocBlocks;
    BlockLabel(f, sym, blocks, b);
    var body, head := EncBlocks(f, sym, blocks), EncBlocks(f, sym, blocks[..b]);
    var items, k := pre + body + post, |pre| + |head|;
    assert items[k] == Label(blocks[b].name);
    assert items[..k] == pre + head;
    LabelAddress(items, 0, k);
    LenAppend(pre, head);
    assert blocks[b].instructions[..0] == [];
  }
}
