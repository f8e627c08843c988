/** The encoder object of src/backend/x86_64/X86_64Encoder.cpp with its fields, appending bytes to its
    code buffer and overwriting jump offsets at the end. Its methods are proved to produce the code of
    module Encoding, so the bytes it returns do what modules EncodingPrograms and EndToEnd say. */
module X86_64Encoders {
  import opened Options
  import opened Ssa
  import opened X86
  import opened X86Machine
  import opened Encoding
  import opened EncodingLayout

  // ----- code of several instructions

  lemma {:induction false} EncodeAllAppend(a: seq<Asm>, b: seq<Asm>)
    ensures EncodeAll(a + b) == EncodeAll(a) + EncodeAll(b)
    decreases |b|
  {
    hide Encode;
    if b == [] {
      assert a + b == a;
    } else {
      assert (a + b)[..|a + b| - 1] == a + b[..|b| - 1];
      EncodeAllAppend(a, b[..|b| - 1]);
    }
  }

  lemma EncodeAllOne(a: Asm)
    ensures EncodeAll([a]) == Encode(a)
  {
    hide Encode;
    assert [a][..0] == [];
    assert EncodeAll([a][..0]) == [];
  }

  lemma EncodeAllSnoc(a: seq<Asm>, last: Asm)
    ensures EncodeAll(a + [last]) == EncodeAll(a) + Encode(last)
  {
    hide Encode;
    EncodeAllAppend(a, [last]);
    EncodeAllOne(last);
  }

  // ----- looking names up one after another

  /** Slots handed out stay; array areas are the same. */
  ghost predicate Grows(f: Frame, g: Frame) {
    g.arrays == f.arrays && g.sizes == f.sizes && forall x :: x in f.slots ==> x in g.slots && g.slots[x] == f.slots[x]
  }

  lemma {:induction false} TouchAllGrows(f: Frame, names: seq<string>)
    ensures Grows(f, TouchAll(f, names)) && forall x :: x in names ==> x in TouchAll(f, names).slots
    decreases |names|
  {
    if names != [] { TouchAllGrows(f, names[..|names| - 1]); }
  }

  lemma {:induction false} TouchAllAppend(f: Frame, a: seq<string>, b: seq<string>)
    ensures TouchAll(f, a + b) == TouchAll(TouchAll(f, a), b)
    decreases |b|
  {
    hide Touch;
    if b == [] {
      assert a + b == a;
    } else {
      assert (a + b)[..|a + b| - 1] == a + b[..|b| - 1];
      TouchAllAppend(f, a, b[..|b| - 1]);
    }
  }

  lemma TouchOne(f: Frame, x: string)
    ensures TouchAll(f, [x]) == Touch(f, x)
  {
    hide Touch;
    assert [x][..0] == [];
    assert TouchAll(f, [x][..0]) == f;
  }

  lemma LoadStays(f: Frame, names: seq<string>, sym: Symbols, reg: nat, v: SSAValue)
    requires v.Var? ==> v.name in f.slots
    ensures LoadCode(TouchAll(f, names), sym, reg, v) == LoadCode(f, sym, reg, v)
  {
    TouchAllGrows(f, names);
  }

  lemma {:induction false} PassStays(f: Frame, names: seq<string>, sym: Symbols, args: seq<SSAValue>)
    requires Placed(f, args)
    ensures PassAll(TouchAll(f, names), sym, args) == PassAll(f, sym, args)
    decreases |args|
  {
    hide TouchAll, LoadCode;
    if args != [] {
      var init, v := args[..|args| - 1], args[|args| - 1];
      PassStays(f, names, sym, init);
      LoadStays(f, names, sym, 0, v);
      if |init| < 4 { LoadStays(f, names, sym, ARGUMENT_LOADS[|init|], v); }
    }
  }

  /** What the encoder takes for granted of its input: operands that it accesses exist. */
  predicate WellFormed(inst: SSAInstruction) {
    var n := |inst.operands|;
    if IsBinary(inst.op) then n >= 2
    else
      match inst.op
      case Copy => n >= 1
      case Branch => n >= 1
      case CondBranch => n >= 3
      case Call => n >= 1
      case ArrayAlloc => n >= 1
      case ArrayLoad => n >= 2
      case ArrayStore => n >= 3
      case _ => true
  }

  predicate AllWellFormed(blocks: seq<SSABasicBlock>) {
    forall b :: 0 <= b < |blocks| ==>
      forall j :: 0 <= j < |blocks[b].instructions| ==> WellFormed(blocks[b].instructions[j])
  }

  function JumpOpcode(kind: JumpKind): seq<int> {
    match kind
    case Always => [0xE9]
    case IfZero => [0x0F, 0x84]
    case Calling => [0xE8]
  }

  lemma JumpShape(kind: JumpKind, target: string, at: int)
    ensures ItemBytes(JumpTo(kind, target), at, map[]) == JumpOpcode(kind) + Bytes(4, 0)
    ensures Size(JumpTo(kind, target)) == |JumpOpcode(kind)| + 4
  {
    hide Bytes;
  }

  class X86_64Encoder {
    const symbols: Symbols
    var code: seq<int>
    var stackOffsets: map<string, int>
    var arrayBaseOffsets: map<string, int>
    var currentStackOffset: int
    var blockOffsets: map<string, int>
    var jumpPatches: seq<Patch>
    ghost var arraySizes: map<string, nat>
    ghost var items: seq<Item>

    constructor (symbols: Symbols)
      ensures Valid() && items == [] && arrayBaseOffsets == map[] && this.symbols == symbols
    {
      this.symbols := symbols;
      code, stackOffsets, arrayBaseOffsets, currentStackOffset, blockOffsets, jumpPatches :=
        [], map[], map[], 0, map[], [];
      arraySizes, items := map[], [];
    }

    ghost function FrameNow(): Frame
      reads this
    {
      Frame(stackOffsets, arrayBaseOffsets, arraySizes, currentStackOffset)
    }

    /** The buffer, the labels and the patches are those of the items emitted so far. */
    ghost predicate Valid()
      reads this
    {
      code == Resolved(items, 0, map[]) && blockOffsets == Offsets(items, 0) && jumpPatches == Patches(items, 0)
    }

    /** Plain code has been appended to valid code. */
    ghost predicate After(asms: seq<Asm>)
      reads this
    {
      code == Resolved(items, 0, map[]) + EncodeAll(asms) && blockOffsets == Offsets(items, 0)
        && jumpPatches == Patches(items, 0)
    }

    /** Valid code with nothing appended, and back. */
    lemma Start()
      requires Valid()
      ensures After([])
    {
      hide Resolved, Offsets, Patches;
    }

    // ----- bytes

    method EmitByte(b: int)
      modifies `code
      ensures code == old(code) + [b]
    {
      code := code + [b];
    }

    method EmitInt32(val: int)
      modifies `code
      ensures code == old(code) + Bytes(4, val)
    {
      EmitInt(4, val);
    }

    method EmitInt64(val: int)
      modifies `code
      ensures code == old(code) + Bytes(8, val)
    {
      EmitInt(8, val);
    }

    /** The n low bytes of a number in memory order. */
    method EmitInt(n: nat, val: int)
      modifies `code
      ensures code == old(code) + Bytes(n, val)
    {
      var i, v := 0, val;
      while i < n
        invariant 0 <= i <= n
        invariant code + Bytes(n - i, v) == old(code) + Bytes(n, val)
      {
        assert code + Bytes(n - i, v) == code + [v % 256] + Bytes(n - (i + 1), v / 256);
        EmitByte(v % 256);
        i, v := i + 1, v / 256;
      }
      assert code + [] == code;
    }

    method EmitREX(w: bool, r: bool, x: bool, b: bool)
      modifies `code
      ensures code == old(code) + [0x40 + Bool(w) * 8 + Bool(r) * 4 + Bool(x) * 2 + Bool(b)]
    {
      var rex := 0x40;
      if w { rex := rex + 8; }
      if r { rex := rex + 4; }
      if x { rex := rex + 2; }
      if b { rex := rex + 1; }
      EmitByte(rex);
    }

    method EmitREXW()
      modifies `code
      ensures code == old(code) + [0x48]
    {
      EmitREX(true, false, false, false);
    }

    // ----- operands

    /** Bytes that encode one instruction have been appended. */
    lemma Emitted(before: seq<int>, asms: seq<Asm>, a: Asm)
      requires before == Resolved(items, 0, map[]) + EncodeAll(asms)
      requires code == before + Encode(a) && blockOffsets == Offsets(items, 0) && jumpPatches == Patches(items, 0)
      ensures After(asms + [a])
    {
      hide Resolved, Offsets, Patches, EncodeAll, Encode;
      EncodeAllSnoc(asms, a);
      assert Resolved(items, 0, map[]) + EncodeAll(asms) + Encode(a) ==
        Resolved(items, 0, map[]) + (EncodeAll(asms) + Encode(a));
    }

    method GetStackOffset(x: string) returns (offset: int)
      modifies `stackOffsets, `currentStackOffset
      ensures FrameNow() == Touch(old(FrameNow()), x) && x in stackOffsets && offset == Slot(FrameNow(), x)
    {
      if x !in stackOffsets {
        currentStackOffset := currentStackOffset - 8;
        stackOffsets := stackOffsets[x := currentStackOffset];
      }
      offset := stackOffsets[x];
    }

    method EmitStackLoad(reg: nat, offset: int)
      requires reg < 16
      modifies `code
      ensures reg < 8 ==> code == old(code) + Encode(LoadStack(reg, offset))
    {
      EmitREX(true, reg >= 8, false, false);
      EmitByte(0x8B);
      EmitStackOperand(reg % 8, offset);
    }

    method EmitStackStore(reg: nat, offset: int)
      requires reg < 16
      modifies `code
      ensures reg < 8 ==> code == old(code) + Encode(StoreStack(reg, offset))
    {
      EmitREX(true, reg >= 8, false, false);
      EmitByte(0x89);
      EmitStackOperand(reg % 8, offset);
    }

    method EmitStackOperand(r: nat, offset: int)
      requires r < 8
      modifies `code
      ensures code == old(code) + StackOperand(r, offset)
    {
      if -128 <= offset <= 127 {
        EmitByte(0x45 + 8 * r);
        EmitByte(offset % 256);
      } else {
        EmitByte(0x85 + 8 * r);
        EmitInt32(offset);
      }
    }

    /** Appends the load of an operand; its name gets a slot if it has none. */
    method EmitValueLoad(reg: nat, v: SSAValue, ghost asms: seq<Asm>)
      requires reg < 8 && After(asms)
      modifies `code, `stackOffsets, `currentStackOffset
      ensures FrameNow() == TouchAll(old(FrameNow()), LoadNames(v)) && (v.Var? ==> v.name in stackOffsets)
      ensures After(asms + [LoadCode(FrameNow(), symbols, reg, v)])
    {
      hide Resolved, Offsets, Patches, EncodeAll, Bytes, StackOperand, Touch, After;
      ghost var a;
      OpenAfter(asms);
      if v.Var? {
        TouchOne(FrameNow(), v.name);
        var offset := GetStackOffset(v.name);
        assert LoadNames(v) == [v.name];
        a := LoadStack(reg, offset);
        EmitStackLoad(reg, offset);
      } else {
        a := MovImm(reg, if v.Num? then v.n else symbols.strings(v.s));
        EmitREX(true, false, false, reg >= 8);
        EmitByte(0xB8 + reg);
        EmitInt64(if v.Num? then v.n else symbols.strings(v.s));
        assert code == old(code) + Encode(a);
      }
      Emitted(old(code), asms, a);
      assert a == LoadCode(FrameNow(), symbols, reg, v);
    }

    lemma OpenAfter(asms: seq<Asm>)
      requires After(asms)
      ensures code == Resolved(items, 0, map[]) + EncodeAll(asms) && blockOffsets == Offsets(items, 0)
        && jumpPatches == Patches(items, 0)
    {
      hide Resolved, Offsets, Patches, EncodeAll;
    }

    method EmitValueStore(reg: nat, x: string, ghost asms: seq<Asm>)
      requires reg < 8 && After(asms)
      modifies `code, `stackOffsets, `currentStackOffset
      ensures FrameNow() == Touch(old(FrameNow()), x)
      ensures After(asms + [StoreStack(reg, Slot(FrameNow(), x))])
    {
      hide Resolved, Offsets, Patches, EncodeAll, Bytes, StackOperand, Touch, Encode;
      var offset := GetStackOffset(x);
      EmitStackStore(reg, offset);
      Emitted(old(code), asms, StoreStack(reg, offset));
    }

    /** An instruction's result is stored only if it has one. */
    method EmitResult(reg: nat, x: string, ghost asms: seq<Asm>)
      requires reg < 8 && After(asms)
      modifies `code, `stackOffsets, `currentStackOffset
      ensures FrameNow() == TouchAll(old(FrameNow()), ResultNames(x))
      ensures After(asms + StoreCode(FrameNow(), reg, x))
    {
      hide After, Touch;
      if x != "" {
        EmitValueStore(reg, x, asms);
        TouchOne(old(FrameNow()), x);
      } else {
        assert asms + StoreCode(FrameNow(), reg, x) == asms;
      }
    }

    // ----- instructions without operands in their encoding

    /** The bytes after the REX.W prefix of instructions that have no immediate. */
    method EmitWide(a: Asm, ghost asms: seq<Asm>)
      requires After(asms) && IsWide(a)
      modifies `code
      ensures After(asms + [a])
    {
      hide Resolved, Offsets, Patches, EncodeAll, After;
      OpenAfter(asms);
      EmitREXW();
      if a.AddRaxRcx? {
        EmitByte(0x01); EmitByte(0xC8);
      } else if a.SubRaxRcx? {
        EmitByte(0x29); EmitByte(0xC8);
      } else if a.ImulRaxRcx? {
        EmitByte(0x0F); EmitByte(0xAF); EmitByte(0xC1);
      } else if a.Cqo? {
        EmitByte(0x99);
      } else if a.IdivRcx? {
        EmitByte(0xF7); EmitByte(0xF9);
      } else if a.CmpRaxRcx? {
        EmitByte(0x3B); EmitByte(0xC1);
      } else if a.MovzxRaxAl? {
        EmitByte(0x0F); EmitByte(0xB6); EmitByte(0xC0);
      } else if a.ShlRcx3? {
        EmitByte(0xC1); EmitByte(0xE1); EmitByte(0x03);
      } else if a.LoadRax? {
        EmitByte(0x8B); EmitByte(0x00);
      } else if a.StoreRdx? {
        EmitByte(0x89); EmitByte(0x10);
      } else if a.TestRax? {
        EmitByte(0x85); EmitByte(0xC0);
      } else if a.MovRbpRsp? {
        EmitByte(0x89); EmitByte(0xE5);
      } else {
        EmitByte(0x89); EmitByte(0xEC);
      }
      assert code == old(code) + Encode(a);
      Emitted(old(code), asms, a);
    }

    predicate IsWide(a: Asm) {
      a.AddRaxRcx? || a.SubRaxRcx? || a.ImulRaxRcx? || a.Cqo? || a.IdivRcx? || a.CmpRaxRcx? || a.MovzxRaxAl? ||
      a.ShlRcx3?
      || a.LoadRax? || a.StoreRdx? || a.TestRax? || a.MovRbpRsp? || a.MovRspRbp?
    }

    method EmitSetcc(op: SSAOp, ghost asms: seq<Asm>)
      requires After(asms) && IsComparison(op)
      modifies `code
      ensures After(asms + [SetAl(CondOf(op))])
    {
      hide Resolved, Offsets, Patches, EncodeAll, After;
      OpenAfter(asms);
      EmitByte(0x0F);
      if op.Equal? {
        EmitByte(0x94);
      } else if op.NotEqual? {
        EmitByte(0x95);
      } else if op.LessThan? {
        EmitByte(0x9C);
      } else if op.LessEqual? {
        EmitByte(0x9E);
      } else if op.GreaterThan? {
        EmitByte(0x9F);
      } else {
        EmitByte(0x9D);
      }
      EmitByte(0xC0);
      assert code == old(code) + Encode(SetAl(CondOf(op)));
      Emitted(old(code), asms, SetAl(CondOf(op)));
    }

    /** Instructions of one or two bytes. */
    method EmitShort(a: Asm, ghost asms: seq<Asm>)
      requires After(asms) && IsShort(a)
      modifies `code
      ensures After(asms + [a])
    {
      hide Resolved, Offsets, Patches, EncodeAll, After;
      OpenAfter(asms);
      if a.PushRbp? {
        EmitByte(0x55);
      } else if a.PopRbp? {
        EmitByte(0x5D);
      } else {
        EmitByte(0xFF); EmitByte(0xD0);
      }
      assert code == old(code) + Encode(a);
      Emitted(old(code), asms, a);
    }

    /** Moves between rax and the last two argument registers. */
    method EmitMove(a: Asm, ghost asms: seq<Asm>)
      requires After(asms) && (a.MovR8Rax? || a.MovR9Rax? || a.MovRaxR8? || a.MovRaxR9?)
      modifies `code
      ensures After(asms + [a])
    {
      hide Resolved, Offsets, Patches, EncodeAll, After;
      OpenAfter(asms);
      EmitREX(true, a.MovRaxR8? || a.MovRaxR9?, false, a.MovR8Rax? || a.MovR9Rax?);
      EmitByte(0x89);
      EmitByte(if a.MovR8Rax? || a.MovRaxR8? then 0xC0 else if a.MovR9Rax? then 0xC1 else 0xC8);
      assert code == old(code) + Encode(a);
      Emitted(old(code), asms, a);
    }

    predicate IsShort(a: Asm) {
      a.PushRbp? || a.PopRbp? || a.CallRax?
    }

    /** Stack pointer adjustments and addresses in the frame. */
    method EmitImmediate(a: Asm, ghost asms: seq<Asm>)
      requires After(asms) && (a.SubRsp? || a.AddRsp? || a.SubRsp8? || a.LeaRax?)
      modifies `code
      ensures After(asms + [a])
    {
      hide Resolved, Offsets, Patches, EncodeAll, After, Bytes;
      OpenAfter(asms);
      EmitREXW();
      if a.SubRsp? {
        EmitByte(0x81); EmitByte(0xEC); EmitInt32(a.imm);
      } else if a.AddRsp? {
        EmitByte(0x81); EmitByte(0xC4); EmitInt32(a.imm);
      } else if a.SubRsp8? {
        EmitByte(0x83); EmitByte(0xEC); EmitByte(a.imm);
      } else {
        EmitByte(0x8D); EmitByte(0x85); EmitInt32(a.offset);
      }
      assert code == old(code) + Encode(a);
      Emitted(old(code), asms, a);
    }

    method EmitMovRaxImm64(n: int, ghost asms: seq<Asm>)
      requires After(asms)
      modifies `code
      ensures After(asms + [MovImm(0, n)])
    {
      hide Resolved, Offsets, Patches, EncodeAll, After, Bytes;
      OpenAfter(asms);
      EmitREXW();
      EmitByte(0xB8);
      EmitInt64(n);
      assert code == old(code) + Encode(MovImm(0, n));
      Emitted(old(code), asms, MovImm(0, n));
    }

    // ----- one instruction

    method EmitBinaryOp(op: SSAOp, ghost asms: seq<Asm>)
      requires After(asms) && IsBinary(op)
      modifies `code
      ensures After(asms + BinaryAsm(op))
    {
      hide After;
      if op.Add? {
        EmitWide(AddRaxRcx, asms);
      } else if op.Sub? {
        EmitWide(SubRaxRcx, asms);
      } else if op.Mul? {
        EmitWide(ImulRaxRcx, asms);
      } else if op.Div? {
        EmitWide(Cqo, asms);
        EmitWide(IdivRcx, asms + [Cqo]);
        assert asms + [Cqo] + [IdivRcx] == asms + BinaryAsm(op);
      } else if op.Mod? {
        EmitWide(Cqo, asms);
        EmitWide(IdivRcx, asms + [Cqo]);
        assert asms + [Cqo] + [IdivRcx] == asms + BinaryAsm(op);
      } else {
        EmitWide(CmpRaxRcx, asms);
        EmitSetcc(op, asms + [CmpRaxRcx]);
        EmitWide(MovzxRaxAl, asms + [CmpRaxRcx] + [SetAl(CondOf(op))]);
        assert asms + [CmpRaxRcx] + [SetAl(CondOf(op))] + [MovzxRaxAl] == asms + BinaryAsm(op);
      }
    }

    /** The frame after looking up an operand's name, some more names, and the result's. */
    lemma TouchedTwo(f: Frame, v: SSAValue, w: SSAValue, names: seq<string>)
      ensures TouchAll(TouchAll(TouchAll(f, LoadNames(v)), LoadNames(w)), names) ==
        TouchAll(f, AllLoadNames([v, w]) + names)
    {
      hide LoadNames, TouchAll;
      assert [v, w][..1] == [v] && [v][..0] == [];
      assert AllLoadNames([v]) == LoadNames(v);
      TouchAllAppend(f, LoadNames(v), LoadNames(w));
      TouchAllAppend(f, AllLoadNames([v, w]), names);
    }

    lemma TouchedOne(f: Frame, v: SSAValue, names: seq<string>)
      ensures TouchAll(TouchAll(f, LoadNames(v)), names) == TouchAll(f, AllLoadNames([v]) + names)
    {
      hide LoadNames, TouchAll;
      assert [v][..0] == [];
      assert AllLoadNames([v]) == LoadNames(v);
      TouchAllAppend(f, LoadNames(v), names);
    }

    method EncodeBinary(inst: SSAInstruction)
      requires Valid() && IsBinary(inst.op) && |inst.operands| >= 2
      modifies `code, `stackOffsets, `currentStackOffset
      ensures FrameNow() == Alloc(old(FrameNow()), inst) && After(StraightCode(FrameNow(), symbols, inst))
    {
      hide After, BinaryAsm, LoadCode, StoreCode, TouchAll, AllLoadNames, Valid, LoadNames, ResultNames;
      var v, w := inst.operands[0], inst.operands[1];
      assert inst.operands[..2] == [v, w];
      Start();
      EmitValueLoad(0, v, []);
      ghost var f1 := FrameNow();
      EmitValueLoad(1, w, [] + [LoadCode(f1, symbols, 0, v)]);
      ghost var f2 := FrameNow();
      ghost var loads := [] + [LoadCode(f1, symbols, 0, v)] + [LoadCode(f2, symbols, 1, w)];
      EmitBinaryOp(inst.op, loads);
      EmitResult(if inst.op.Mod? then 2 else 0, inst.result, loads + BinaryAsm(inst.op));
      LoadStays(f1, LoadNames(w), symbols, 0, v);
      TouchAllGrows(f1, LoadNames(w));
      LoadStays(f2, ResultNames(inst.result), symbols, 0, v);
      LoadStays(f2, ResultNames(inst.result), symbols, 1, w);
      TouchedTwo(old(FrameNow()), v, w, ResultNames(inst.result));
      assert loads == [LoadCode(FrameNow(), symbols, 0, v)] + [LoadCode(FrameNow(), symbols, 1, w)];
    }

    method EncodeCopy(inst: SSAInstruction)
      requires Valid() && inst.op.Copy? && |inst.operands| >= 1
      modifies `code, `stackOffsets, `currentStackOffset
      ensures FrameNow() == Alloc(old(FrameNow()), inst) && After(StraightCode(FrameNow(), symbols, inst))
    {
      hide After, LoadCode, StoreCode, TouchAll, AllLoadNames, Valid, LoadNames, ResultNames;
      var v := inst.operands[0];
      assert inst.operands[..1] == [v];
      Start();
      EmitValueLoad(0, v, []);
      ghost var f1 := FrameNow();
      EmitResult(0, inst.result, [] + [LoadCode(f1, symbols, 0, v)]);
      LoadStays(f1, ResultNames(inst.result), symbols, 0, v);
      TouchedOne(old(FrameNow()), v, ResultNames(inst.result));
      assert [] + [LoadCode(f1, symbols, 0, v)] == [LoadCode(FrameNow(), symbols, 0, v)];
    }

    /** The offset recorded for an array; 0 for an unknown one. */
    function ArrayBase(v: SSAValue): (r: int)
      reads this
      ensures r == Base(FrameNow(), v)
    {
      if v.Var? && v.name in arrayBaseOffsets then arrayBaseOffsets[v.name] else 0
    }

    method EncodeArrayLoad(inst: SSAInstruction)
      requires Valid() && inst.op.ArrayLoad? && |inst.operands| >= 2
      modifies `code, `stackOffsets, `currentStackOffset
      ensures FrameNow() == Alloc(old(FrameNow()), inst) && After(StraightCode(FrameNow(), symbols, inst))
    {
      hide After, LoadCode, StoreCode, TouchAll, AllLoadNames, Valid, LoadNames, ResultNames;
      var v := inst.operands[1];
      var base := ArrayBase(inst.operands[0]);
      assert inst.operands[1..2] == [v];
      Start();
      EmitValueLoad(1, v, []);
      ghost var f1 := FrameNow();
      ghost var l := [LoadCode(f1, symbols, 1, v)];
      assert [] + l == l;
      EmitWide(ShlRcx3, l);
      EmitImmediate(LeaRax(base), l + [ShlRcx3]);
      EmitWide(AddRaxRcx, l + [ShlRcx3] + [LeaRax(base)]);
      EmitWide(LoadRax, l + [ShlRcx3] + [LeaRax(base)] + [AddRaxRcx]);
      EmitResult(0, inst.result, l + [ShlRcx3] + [LeaRax(base)] + [AddRaxRcx] + [LoadRax]);
      LoadStays(f1, ResultNames(inst.result), symbols, 1, v);
      TouchedOne(old(FrameNow()), v, ResultNames(inst.result));
      BaseStays(old(FrameNow()), FrameNow(), inst);
    }

    lemma BaseStays(f: Frame, g: Frame, inst: SSAInstruction)
      requires g == TouchAll(f, Names(inst)) && |inst.operands| > 0
      ensures Base(g, inst.operands[0]) == Base(f, inst.operands[0])
    {
      TouchAllGrows(f, Names(inst));
    }

    method EncodeArrayStore(inst: SSAInstruction)
      requires Valid() && inst.op.ArrayStore? && |inst.operands| >= 3
      modifies `code, `stackOffsets, `currentStackOffset
      ensures FrameNow() == Alloc(old(FrameNow()), inst) && After(StraightCode(FrameNow(), symbols, inst))
    {
      hide After, LoadCode, TouchAll, AllLoadNames, Valid, LoadNames;
      var v, w := inst.operands[1], inst.operands[2];
      var base := ArrayBase(inst.operands[0]);
      assert inst.operands[1..3] == [v, w];
      Start();
      EmitValueLoad(1, v, []);
      ghost var f1 := FrameNow();
      EmitValueLoad(2, w, [] + [LoadCode(f1, symbols, 1, v)]);
      ghost var f2 := FrameNow();
      ghost var l := [LoadCode(f1, symbols, 1, v)] + [LoadCode(f2, symbols, 2, w)];
      assert [] + [LoadCode(f1, symbols, 1, v)] + [LoadCode(f2, symbols, 2, w)] == l;
      EmitWide(ShlRcx3, l);
      EmitImmediate(LeaRax(base), l + [ShlRcx3]);
      EmitWide(AddRaxRcx, l + [ShlRcx3] + [LeaRax(base)]);
      EmitWide(StoreRdx, l + [ShlRcx3] + [LeaRax(base)] + [AddRaxRcx]);
      LoadStays(f1, LoadNames(w), symbols, 1, v);
      TouchedTwo(old(FrameNow()), v, w, []);
      TouchNothing(f2);
      assert Names(inst) == AllLoadNames([v, w]) + [];
      BaseStays(old(FrameNow()), FrameNow(), inst);
    }

    lemma TouchNothing(f: Frame)
      ensures TouchAll(f, []) == f
    {
    }

    // ----- calls, jumps and returns

    method EmitArguments(args: seq<SSAValue>)
      requires Valid() && |args| <= 6
      modifies `code, `stackOffsets, `currentStackOffset
      ensures FrameNow() == TouchAll(old(FrameNow()), AllLoadNames(args)) && Placed(FrameNow(), args)
      ensures After(PassAll(FrameNow(), symbols, args))
    {
      hide After, LoadCode, TouchAll, LoadNames, Valid;
      ghost var f0 := FrameNow();
      Start();
      TouchNothing(f0);
      var i := 0;
      while i < |args|
        invariant 0 <= i <= |args|
        invariant FrameNow() == TouchAll(f0, AllLoadNames(args[..i])) && Placed(FrameNow(), args[..i])
        invariant After(PassAll(FrameNow(), symbols, args[..i]))
      {
        ghost var f, init, v := FrameNow(), args[..i], args[i];
        ghost var pass := PassAll(f, symbols, init);
        assert args[..i + 1][..i] == init;
        assert args[..i + 1] == init + [v];
        PassStays(f, LoadNames(v), symbols, init);
        PlacedStays(f, init, v);
        TouchAllAppend(f0, AllLoadNames(init), LoadNames(v));
        if i < 4 {
          EmitValueLoad(ARGUMENT_LOADS[i], args[i], pass);
        } else {
          EmitValueLoad(0, args[i], pass);
          ghost var load := LoadCode(FrameNow(), symbols, 0, v);
          var move := if i == 4 then MovR8Rax else MovR9Rax;
          EmitMove(move, pass + [load]);
          assert pass + [load] + [move] == pass + ([load] + [move]);
        }
        i := i + 1;
      }
      assert args[..i] == args;
    }

    lemma PlacedStays(f: Frame, init: seq<SSAValue>, v: SSAValue)
      requires Placed(f, init)
      ensures Placed(TouchAll(f, LoadNames(v)), init + [v])
    {
      TouchAllGrows(f, LoadNames(v));
      if v.Var? { assert v.name in LoadNames(v); }
    }

    lemma {:induction false} OpsNoLabels(asms: seq<Asm>)
      ensures Offsets(items + Ops(asms), 0) == Offsets(items, 0) && Patches(items + Ops(asms), 0) == Patches(items, 0)
      decreases |asms|
    {
      hide Size, Len;
      if asms == [] {
        assert items + Ops(asms) == items;
      } else {
        var init := asms[..|asms| - 1];
        var all := items + Ops(asms);
        assert all[..|all| - 1] == items + Ops(init);
        OpsNoLabels(init);
      }
    }

    /** Appended plain code becomes part of the items. */
    ghost method Close(asms: seq<Asm>)
      requires After(asms)
      modifies `items
      ensures Valid() && items == old(items) + Ops(asms)
    {
      hide Resolved, Offsets, Patches, EncodeAll, Ops, Len;
      OpsNoLabels(asms);
      ResolvedAppend(items, Ops(asms), 0, map[]);
      ResolvedOps(asms, 0 + Len(items), map[]);
      items := items + Ops(asms);
    }

    lemma AppendOne(item: Item)
      requires Valid()
      ensures Resolved(items + [item], 0, map[]) == code + ItemBytes(item, |code|, map[])
      ensures Offsets(items + [item], 0) == if item.Label? then blockOffsets[item.name := |code|] else blockOffsets
      ensures Patches(items + [item], 0) ==
              if item.JumpTo? then jumpPatches + [Patch(|code| + Size(item) - 4, item.target)] else jumpPatches
    {
      hide ItemBytes, Size;
      assert (items + [item])[..|items|] == items;
    }

    method EmitJumpOpcode(kind: JumpKind)
      modifies `code
      ensures code == old(code) + JumpOpcode(kind)
    {
      if kind == IfZero {
        EmitByte(0x0F);
        EmitByte(0x84);
      } else if kind == Always {
        EmitByte(0xE9);
      } else {
        EmitByte(0xE8);
      }
    }

    /** A jump whose offset is filled in at the end. */
    method EmitJump(kind: JumpKind, target: string)
      requires Valid()
      modifies `code, `jumpPatches, `items
      ensures Valid() && items == old(items) + [JumpTo(kind, target)]
    {
      hide Resolved, Offsets, Patches, Bytes, JumpOpcode, ItemBytes, Size;
      AppendOne(JumpTo(kind, target));
      JumpShape(kind, target, |code|);
      EmitJumpOpcode(kind);
      jumpPatches := jumpPatches + [Patch(|code|, target)];
      EmitInt32(0);
      assert code == old(code) + (JumpOpcode(kind) + Bytes(4, 0));
      items := items + [JumpTo(kind, target)];
    }

    method EncodeCondBranch(inst: SSAInstruction)
      requires Valid() && inst.op.CondBranch? && |inst.operands| >= 3
      modifies this
      ensures FrameNow() == Alloc(old(FrameNow()), inst)
      ensures Valid() && items == old(items) + Code(FrameNow(), symbols, inst)
    {
      hide After, LoadCode, TouchAll, AllLoadNames, Valid, LoadNames, Ops;
      var v := inst.operands[0];
      assert inst.operands[..1] == [v];
      Start();
      EmitValueLoad(0, v, []);
      assert [] + [LoadCode(FrameNow(), symbols, 0, v)] == [LoadCode(FrameNow(), symbols, 0, v)];
      EmitWide(TestRax, [LoadCode(FrameNow(), symbols, 0, v)]);
      Close([LoadCode(FrameNow(), symbols, 0, v)] + [TestRax]);
      EmitJump(IfZero, TargetOf(inst.operands[2]));
      EmitJump(Always, TargetOf(inst.operands[1]));
      TouchedOne(old(FrameNow()), v, []);
      TouchNothing(TouchAll(old(FrameNow()), LoadNames(v)));
      assert Names(inst) == AllLoadNames([v]) + [];
    }

    method EncodeReturn(inst: SSAInstruction)
      requires Valid() && inst.op.Return?
      modifies this
      ensures FrameNow() == Alloc(old(FrameNow()), inst)
      ensures Valid() && items == old(items) + Code(FrameNow(), symbols, inst)
    {
      hide After, LoadCode, TouchAll, AllLoadNames, Valid, LoadNames;
      Start();
      ghost var load := [];
      if |inst.operands| > 0 {
        var v := inst.operands[0];
        assert inst.operands[..1] == [v];
        EmitValueLoad(0, v, []);
        load := [LoadCode(FrameNow(), symbols, 0, v)];
        assert [] + load == load;
        TouchedOne(old(FrameNow()), v, []);
        TouchNothing(TouchAll(old(FrameNow()), LoadNames(v)));
        assert Names(inst) == AllLoadNames([v]) + [];
      } else {
        NoNames(old(FrameNow()), inst);
      }
      EmitWide(MovRspRbp, load);
      EmitShort(PopRbp, load + [MovRspRbp]);
      ghost var asms := load + [MovRspRbp] + [PopRbp];
      EmitRet(asms);
      Close(asms + [Ret]);
      assert (asms + [Ret])[..|asms|] == asms;
      assert Ops(asms + [Ret]) == Ops(asms) + [Op(Ret)];
    }

    method EmitRet(ghost asms: seq<Asm>)
      requires After(asms)
      modifies `code
      ensures After(asms + [Ret])
    {
      hide Resolved, Offsets, Patches, EncodeAll, After;
      OpenAfter(asms);
      EmitByte(0xC3);
      Emitted(old(code), asms, Ret);
    }

    lemma NoNames(f: Frame, inst: SSAInstruction)
      requires Sources(inst) == [] && !HasResult(inst.op)
      ensures TouchAll(f, Names(inst)) == f
    {
    }

    /** Loads the arguments, makes room for 32 bytes, calls, gives the room back, stores the result. */
    method EncodeCall(inst: SSAInstruction)
      requires Valid() && inst.op.Call? && |inst.operands| >= 1
      modifies this
      ensures FrameNow() == Alloc(old(FrameNow()), inst)
      ensures Valid() && items == old(items) + Code(FrameNow(), symbols, inst)
    {
      hide After, TouchAll, AllLoadNames, Valid, Ops, PassAll, StoreCode, ResultNames, Passed, Placed;
      var target := TargetOf(inst.operands[0]);
      var args := Passed(inst.operands);
      EmitArguments(args);
      ghost var f, pass := FrameNow(), PassAll(FrameNow(), symbols, args);
      EmitImmediate(SubRsp8(32), pass);
      PassStays(f, ResultNames(inst.result), symbols, args);
      TouchAllAppend(old(FrameNow()), AllLoadNames(args), ResultNames(inst.result));
      if target in symbols.functions {
        var address := symbols.functions[target];
        EmitMovRaxImm64(address, pass + [SubRsp8(32)]);
        EmitShort(CallRax, pass + [SubRsp8(32)] + [MovImm(0, address)]);
        ghost var call := pass + [SubRsp8(32)] + [MovImm(0, address)] + [CallRax];
        EmitImmediate(AddRsp(32), call);
        EmitResult(0, inst.result, call + [AddRsp(32)]);
        Close(call + [AddRsp(32)] + StoreCode(FrameNow(), 0, inst.result));
      } else {
        Close(pass + [SubRsp8(32)]);
        EmitJump(Calling, target);
        Start();
        EmitImmediate(AddRsp(32), []);
        assert [] + [AddRsp(32)] == [AddRsp(32)];
        EmitResult(0, inst.result, [AddRsp(32)]);
        Close([AddRsp(32)] + StoreCode(FrameNow(), 0, inst.result));
      }
    }

    method EncodeArrayAlloc(inst: SSAInstruction)
      requires inst.op.ArrayAlloc? && |inst.operands| >= 1
      modifies `currentStackOffset, `arrayBaseOffsets, `arraySizes
      ensures FrameNow() == Alloc(old(FrameNow()), inst)
    {
      var count := if inst.operands[0].Num? then inst.operands[0].n else 0;
      currentStackOffset := currentStackOffset - Wrap32(count * 8);
      arrayBaseOffsets := arrayBaseOffsets[inst.result := currentStackOffset];
      arraySizes := arraySizes[inst.result := if count < 0 then 0 else count];
    }

    /** Appends an instruction's code, and gives the names it mentions first their slots. */
    method EncodeInstruction(inst: SSAInstruction)
      requires Valid() && WellFormed(inst)
      modifies this
      ensures FrameNow() == Alloc(old(FrameNow()), inst)
      ensures Valid() && items == old(items) + Code(FrameNow(), symbols, inst)
    {
      hide After, Valid, Alloc, StraightCode;
      ghost var straight := true;
      if IsBinary(inst.op) {
        EncodeBinary(inst);
      } else if inst.op.Copy? {
        EncodeCopy(inst);
      } else if inst.op.ArrayLoad? {
        EncodeArrayLoad(inst);
      } else if inst.op.ArrayStore? {
        EncodeArrayStore(inst);
      } else {
        straight := false;
        EncodeOther(inst);
      }
      if straight { Close(StraightCode(FrameNow(), symbols, inst)); }
    }

    method EncodeOther(inst: SSAInstruction)
      requires Valid() && WellFormed(inst)
      requires !IsBinary(inst.op) && !inst.op.Copy? && !inst.op.ArrayLoad? && !inst.op.ArrayStore?
      modifies this
      ensures FrameNow() == Alloc(old(FrameNow()), inst)
      ensures Valid() && items == old(items) + Code(FrameNow(), symbols, inst)
    {
      hide Resolved, Offsets, Patches;
      if inst.op.Call? {
        EncodeCall(inst);
      } else if inst.op.Return? {
        EncodeReturn(inst);
      } else if inst.op.CondBranch? {
        EncodeCondBranch(inst);
      } else if inst.op.Branch? {
        EmitJump(Always, TargetOf(inst.operands[0]));
        NoNames(old(FrameNow()), inst);
      } else if inst.op.ArrayAlloc? {
        EncodeArrayAlloc(inst);
      } else {
        NoNames(old(FrameNow()), inst);
      }
    }

    // ----- functions

    method PlaceLabel(name: string)
      requires Valid()
      modifies `blockOffsets, `items
      ensures Valid() && items == old(items) + [Label(name)]
    {
      hide Resolved, Offsets, Patches;
      AppendOne(Label(name));
      blockOffsets := blockOffsets[name := |code|];
      assert code + [] == code;
      items := items + [Label(name)];
    }

    method StoreParam(i: nat, x: string, ghost asms: seq<Asm>)
      requires i < 6 && After(asms)
      modifies `code, `stackOffsets, `currentStackOffset
      ensures FrameNow() == Touch(old(FrameNow()), x) && After(asms + ParamCode(FrameNow(), i, x))
    {
      hide After, Touch;
      if i < 4 {
        EmitValueStore(ARGUMENT_LOADS[i], x, asms);
      } else {
        var move := if i == 4 then MovRaxR8 else MovRaxR9;
        EmitMove(move, asms);
        EmitValueStore(0, x, asms + [move]);
        assert asms + [move] + [StoreStack(0, Slot(FrameNow(), x))] == asms + ParamCode(FrameNow(), i, x);
      }
    }

    method EmitPrologue(params: seq<string>)
      requires Valid() && FrameNow() == Enter(arrayBaseOffsets)
      modifies this
      ensures FrameNow() == TouchAll(old(FrameNow()), InRegisters(params))
      ensures Valid()
      ensures items ==
        old(items) + Ops([PushRbp] + [MovRbpRsp] + [SubRsp(FRAME_SIZE)] + ParamsCode(old(FrameNow()),
          InRegisters(params)))
    {
      hide After, Valid, Touch, Ops, ParamCode, Enter;
      ghost var f, enter, regs := FrameNow(), [PushRbp] + [MovRbpRsp] + [SubRsp(FRAME_SIZE)], InRegisters(params);
      Start();
      assert [] + [PushRbp] == [PushRbp];
      EmitShort(PushRbp, []);
      EmitWide(MovRbpRsp, [PushRbp]);
      EmitImmediate(SubRsp(FRAME_SIZE), [PushRbp] + [MovRbpRsp]);
      assert enter + [] == enter;
      var i := 0;
      while i < |params| && i < 6
        invariant 0 <= i <= |regs| && regs == InRegisters(params)
        invariant FrameNow() == TouchAll(f, regs[..i]) && After(enter + ParamsCode(f, regs[..i]))
        invariant items == old(items) && arrayBaseOffsets == old(arrayBaseOffsets)
      {
        assert regs[i] == params[i];
        assert regs[..i + 1][..i] == regs[..i];
        ghost var asms := ParamsCode(f, regs[..i]);
        StoreParam(i, params[i], enter + asms);
        assert enter + asms + ParamCode(FrameNow(), i, params[i]) ==
          enter + (asms + ParamCode(FrameNow(), i, params[i]));
        i := i + 1;
      }
      assert regs[..i] == regs;
      Close(enter + ParamsCode(f, regs));
    }

    method EncodeBlock(block: SSABasicBlock)
      requires Valid() && forall j :: 0 <= j < |block.instructions| ==> WellFormed(block.instructions[j])
      modifies this
      ensures FrameNow() == AllocInsts(old(FrameNow()), block.instructions)
      ensures Valid()
        && items == old(items) + [Label(block.name)] + EncInsts(old(FrameNow()), symbols, block.instructions)
    {
      hide Valid, WellFormed, Code, Alloc;
      PlaceLabel(block.name);
      ghost var f, placed, insts := FrameNow(), items, block.instructions;
      var j := 0;
      while j < |block.instructions|
        invariant 0 <= j <= |insts| && Valid() && FrameNow() == AllocInsts(f, insts[..j])
        invariant items == placed + EncInsts(f, symbols, insts[..j])
      {
        assert insts[..j + 1][..j] == insts[..j];
        EncodeInstruction(block.instructions[j]);
        assert placed + EncInsts(f, symbols, insts[..j]) + Code(FrameNow(), symbols, insts[j]) ==
          placed + EncInsts(f, symbols, insts[..j + 1]);
        j := j + 1;
      }
      assert insts[..j] == insts;
    }

    method EncodeBlocks(blocks: seq<SSABasicBlock>)
      requires Valid() && AllWellFormed(blocks)
      modifies this
      ensures FrameNow() == AllocBlocks(old(FrameNow()), blocks)
      ensures Valid() && items == old(items) + EncBlocks(old(FrameNow()), symbols, blocks)
    {
      hide Valid, WellFormed, EncInsts, AllocInsts;
      ghost var f := FrameNow();
      var b := 0;
      while b < |blocks|
        invariant 0 <= b <= |blocks| && Valid() && FrameNow() == AllocBlocks(f, blocks[..b])
        invariant items == old(items) + EncBlocks(f, symbols, blocks[..b])
      {
        assert blocks[..b + 1][..b] == blocks[..b];
        ghost var g := FrameNow();
        EncodeBlock(blocks[b]);
        assert old(items) + EncBlocks(f, symbols, blocks[..b]) + [Label(blocks[b].name)] + EncInsts(g, symbols,
          blocks[b].instructions)
               == old(items) + EncBlocks(f, symbols, blocks[..b + 1]);
        b := b + 1;
      }
      assert blocks[..b] == blocks;
    }

    method EncodeFunctionInternal(func: SSAFunction)
      requires Valid() && AllWellFormed(func.blocks)
      modifies this
      ensures arrayBaseOffsets == FinalFrame(old(arrayBaseOffsets), func).arrays
      ensures Valid() && items == old(items) + EncFunction(old(arrayBaseOffsets), symbols, func)
    {
      hide Valid, AllWellFormed, Ops, ParamsCode, AllocBlocks, EncBlocks, TouchAll, InRegisters;
      ClearFrame();
      PlaceLabel(func.name);
      if !func.isNaked {
        EmitPrologue(func.params);
      } else {
        assert items + Ops([]) == items by { NoOps(); }
      }
      EncodeBlocks(func.blocks);
    }

    lemma NoOps()
      ensures Ops([]) == []
    {
    }

    method ClearFrame()
      requires Valid()
      modifies `stackOffsets, `currentStackOffset, `arraySizes
      ensures Valid() && FrameNow() == Enter(arrayBaseOffsets)
    {
      hide Resolved, Offsets, Patches;
      stackOffsets := map[];
      currentStackOffset := 0;
      arraySizes := map[];
    }

    // ----- the program

    /** One more function of the list being encoded. */
    method EncodeNext(func: SSAFunction, ghost arrays: map<string, int>, ghost before: seq<SSAFunction>)
      requires Valid() && AllWellFormed(func.blocks)
      requires items == EncFunctions(arrays, symbols, before) && arrayBaseOffsets == ArraysAfter(arrays, before)
      modifies this
      ensures Valid() && items == EncFunctions(arrays, symbols, before + [func])
      ensures arrayBaseOffsets == ArraysAfter(arrays, before + [func])
    {
      hide Valid, AllWellFormed, EncFunction, FinalFrame;
      EncodeFunctionInternal(func);
      assert (before + [func])[..|before|] == before;
    }

    /** Overwrites the four bytes of a jump's offset. */
    method PatchJump(patch: Patch, target: int)
      requires patch.location + 4 <= |code|
      modifies `code
      ensures code == ApplyPatch(old(code), patch, map[patch.target := target])
    {
      hide Bytes;
      var loc := patch.location;
      var p := Bytes(4, target - (loc + 4));
      var i := 0;
      while i < 4
        invariant 0 <= i <= 4 && |code| == |old(code)|
        invariant code == old(code)[..loc] + p[..i] + old(code)[loc + i..]
      {
        code := code[loc + i := p[i]];
        i := i + 1;
      }
      assert p[..4] == p;
    }

    method PatchJumps()
      requires Valid()
      modifies `code
      ensures code == ApplyPatches(old(code), jumpPatches, blockOffsets)
    {
      hide Resolved, Offsets, ApplyPatch, Size;
      var i := 0;
      while i < |jumpPatches|
        invariant 0 <= i <= |jumpPatches| && code == ApplyPatches(old(code), jumpPatches[..i], blockOffsets)
      {
        var patch := jumpPatches[i];
        assert jumpPatches[..i + 1][..i] == jumpPatches[..i];
        PatchesInside(items, 0, i);
        if patch.target in blockOffsets {
          SamePatch(code, patch, blockOffsets);
          PatchJump(patch, blockOffsets[patch.target]);
        } else {
          UnknownTarget(code, patch, blockOffsets);
        }
        i := i + 1;
      }
      assert jumpPatches[..i] == jumpPatches;
    }

    lemma SamePatch(c: seq<int>, p: Patch, offsets: map<string, int>)
      requires p.target in offsets
      ensures ApplyPatch(c, p, map[p.target := offsets[p.target]]) == ApplyPatch(c, p, offsets)
    {
    }

    lemma UnknownTarget(c: seq<int>, p: Patch, offsets: map<string, int>)
      requires p.target !in offsets
      ensures ApplyPatch(c, p, offsets) == c
    {
    }

    /** The encoder's output: the code of every function with every jump patched. */
    method EncodeProgram(program: seq<SSAFunction>) returns (bytes: seq<int>)
      requires forall k :: 0 <= k < |program| ==> AllWellFormed(program[k].blocks)
      modifies this
      ensures bytes == code == EncProgram(old(arrayBaseOffsets), symbols, program)
    {
      hide Valid, AllWellFormed, EncFunctions, ArraysAfter;
      ghost var arrays := arrayBaseOffsets;
      ClearCode();
      var startFunc, mainFunc, others := Sort(program);
      NothingYet(arrays);
      if startFunc.Some? { EncodeNext(startFunc.value, arrays, []); }
      ghost var done := Listed(startFunc);
      assert [] + done == done;
      if mainFunc.Some? { EncodeNext(mainFunc.value, arrays, done); }
      assert done + Listed(mainFunc) == if mainFunc.Some? then done + [mainFunc.value] else done;
      done := done + Listed(mainFunc);
      assert done + others[..0] == done;
      var k := 0;
      while k < |others|
        invariant 0 <= k <= |others| && Valid()
        invariant items == EncFunctions(arrays, symbols, done + others[..k])
        invariant arrayBaseOffsets == ArraysAfter(arrays, done + others[..k])
      {
        EncodeNext(others[k], arrays, done + others[..k]);
        assert done + others[..k] + [others[k]] == done + others[..k + 1];
        k := k + 1;
      }
      assert done + others[..k] == Ordered(program);
      FinishPatches(arrays, program);
      PatchJumps();
      bytes := code;
    }

    lemma NothingYet(arrays: map<string, int>)
      ensures EncFunctions(arrays, symbols, []) == [] && ArraysAfter(arrays, []) == arrays
    {
    }

    lemma FinishPatches(arrays: map<string, int>, program: seq<SSAFunction>)
      requires Valid() && items == EncFunctions(arrays, symbols, Ordered(program))
      ensures ApplyPatches(code, jumpPatches, blockOffsets) == EncProgram(arrays, symbols, program)
    {
      hide Resolved, Offsets, Patches, ApplyPatches, EncFunctions, Ordered;
    }

    method ClearCode()
      modifies `code, `blockOffsets, `jumpPatches, `items
      ensures Valid() && items == []
    {
      code, blockOffsets, jumpPatches, items := [], map[], [], [];
    }

    /** `_start` and `main` apart from the rest. */
    method Sort(program: seq<SSAFunction>)
      returns (startFunc: Option<SSAFunction>, mainFunc: Option<SSAFunction>, others: seq<SSAFunction>)
      requires forall k :: 0 <= k < |program| ==> AllWellFormed(program[k].blocks)
      ensures Listed(startFunc) == LastNamed(program, "_start") && Listed(mainFunc) == LastNamed(program, "main")
      ensures others == Others(program)
      ensures forall f :: f in Listed(startFunc) + Listed(mainFunc) + others ==> AllWellFormed(f.blocks)
    {
      hide AllWellFormed;
      startFunc, mainFunc, others := None, None, [];
      var k := 0;
      while k < |program|
        invariant 0 <= k <= |program|
        invariant Listed(startFunc) == LastNamed(program[..k], "_start")
          && Listed(mainFunc) == LastNamed(program[..k], "main")
        invariant others == Others(program[..k])
        invariant forall f :: f in Listed(startFunc) + Listed(mainFunc) + others ==> AllWellFormed(f.blocks)
      {
        var f := program[k];
        assert program[..k + 1][..k] == program[..k];
        if f.name == "_start" {
          startFunc := Some(f);
        } else if f.name == "main" {
          mainFunc := Some(f);
        } else {
          others := others + [f];
        }
        k := k + 1;
      }
      assert program[..k] == program;
    }
  }

  function Listed(f: Option<SSAFunction>): seq<SSAFunction> {
    if f.Some? then [f.value] else []
  }
}
