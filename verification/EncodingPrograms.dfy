/** Functions in a program: the prologue sets up what module EncodingRuns needs, the patched bytes of
    the whole program contain every function's code, and so each function does what its instructions
    say. */
module EncodingPrograms {
  import opened Options
  import opened Ssa
  import opened X86
  import opened X86Machine
  import opened Encoding
  import opened EncodingLayout
  import opened EncodingOrder
  import opened EncodingSim
  import opened EncodingRuns

  // ----- the prologue

  /** What the slots and areas hold is what the names and elements are worth. */
  function EntryStore(F: Frame, fp: int, c: Core): Store {
    Store(map x | x in F.slots :: Mem(c.mem, fp + F.slots[x]),
          map a: string, i: int | a in F.sizes && 0 <= i < F.sizes[a] :: (a, i) := Mem(c.mem, CellAddress(F, fp, a, i)),
          c.trace)
  }

  ghost predicate Distinct(names: seq<string>) {
    forall i, j :: 0 <= i < j < |names| ==> names[i] != names[j]
  }

  /** The parameters' slots hold the argument registers of c, and nothing above the frame changed. */
  ghost predicate ParamsStored(F: Frame, act: Activation, params: seq<string>, c: Core, d: Core) {
    && |params| <= 6
       && (forall i :: 0 <= i < |params| ==> Mem(d.mem, act.fp + Slot(F, params[i])) == Reg(c, ARGUMENTS[i]))
    && (forall a :: a >= act.fp ==> Mem(d.mem, a) == Mem(c.mem, a))
    && (forall r :: r != RAX ==> Reg(d, r) == Reg(c, r)) && d.trace == c.trace
  }

  lemma ParamStep(host: Host, F: Frame, act: Activation, init: seq<string>, x: string, asms: seq<Asm>, c: Core, d: Core)
    returns (e: Core)
    requires Here(F, act) && |init| < 6 && ParamsStored(F, act, init, c, d)
    requires x in F.slots && (forall y :: y in init ==> y in F.slots && y != x)
    requires Reg(c, RBP) == act.fp && Reg(c, RSP) == act.fp - FRAME_SIZE
    requires Plain(asms) && ExecAsms(host, asms, c) == Some(d)
    ensures Plain(asms + ParamCode(F, |init|, x)) && ExecAsms(host, asms + ParamCode(F, |init|, x), c) == Some(e)
    ensures ParamsStored(F, act, init + [x], c, e)
  {
    hide Plain, ExecAsms, Fits, FpOk, ParamsStored;
    SlotAddress(F, act, x);
    StoredRegs(F, act, init, c, d);
    var n := |init|;
    var v := Reg(c, ARGUMENTS[n]);
    e := d.(mem := d.mem[act.fp + F.slots[x] := v]);
    if n < 4 {
      Next(host, asms, StoreStack(ARGUMENT_LOADS[n], Slot(F, x)), c, d);
    } else {
      var move := if n == 4 then MovRaxR8 else MovRaxR9;
      var d1 := SetReg(d, RAX, v);
      Next(host, asms, move, c, d);
      Next(host, asms + [move], StoreStack(RAX, Slot(F, x)), c, d1);
      e := d1.(mem := e.mem);
      assert asms + [move] + [StoreStack(0, Slot(F, x))] == asms + ([move] + [StoreStack(0, Slot(F, x))]);
    }
    StoredOne(F, act, init, x, c, d, e);
  }

  lemma StoredRegs(F: Frame, act: Activation, params: seq<string>, c: Core, d: Core)
    requires ParamsStored(F, act, params, c, d)
    ensures forall r :: r != RAX ==> Reg(d, r) == Reg(c, r)
  {
  }

  lemma StoredOne(F: Frame, act: Activation, init: seq<string>, x: string, c: Core, d: Core, e: Core)
    requires Here(F, act) && |init| < 6 && ParamsStored(F, act, init, c, d)
    requires x in F.slots && (forall y :: y in init ==> y in F.slots && y != x)
    requires e.mem == d.mem[act.fp + F.slots[x] := Reg(c, ARGUMENTS[|init|])] && e.trace == d.trace
    requires forall r :: r != RAX ==> Reg(e, r) == Reg(d, r)
    ensures ParamsStored(F, act, init + [x], c, e)
  {
    hide Fits, FpOk;
    SlotAddress(F, act, x);
    var ps := init + [x];
    forall i | 0 <= i < |ps| ensures Mem(e.mem, act.fp + Slot(F, ps[i])) == Reg(c, ARGUMENTS[i]) {
      if i < |init| {
        assert ps[i] == init[i];
        assert init[i] in init;
        SlotsDiffer(F, act, init[i], x);
        assert Mem(d.mem, act.fp + Slot(F, init[i])) == Reg(c, ARGUMENTS[i]);
      }
    }
  }

  lemma SlotsDiffer(F: Frame, act: Activation, x: string, y: string)
    requires Here(F, act) && x in F.slots && y in F.slots && x != y
    ensures F.slots[x] != F.slots[y]
  {
  }

  lemma ParamCodeAgrees(f: Frame, F: Frame, i: nat, x: string)
    requires Ext(f, F) && x in f.slots
    ensures ParamCode(f, i, x) == ParamCode(F, i, x)
  {
  }

  lemma {:induction false} ParamsSim(host: Host, f: Frame, F: Frame, act: Activation, params: seq<string>, c: Core)
      returns (d: Core)
    requires Here(F, act) && FrameInv(f) && |params| <= 6 && Distinct(params) && Ext(TouchAll(f, params), F)
    requires Reg(c, RBP) == act.fp && Reg(c, RSP) == act.fp - FRAME_SIZE
    ensures Plain(ParamsCode(f, params)) && ExecAsms(host, ParamsCode(f, params), c) == Some(d)
    ensures ParamsStored(F, act, params, c, d)
    decreases |params|
  {
    hide ExecAsm, Encodable, IsPlain, ParamCode, Here, FrameInv, Ext, Touch;
    if params == [] {
      d := c;
    } else {
      var init, x := params[..|params| - 1], params[|params| - 1];
      TouchAllKeeps(f, init);
      TouchKeeps(TouchAll(f, init), x);
      ExtTrans(TouchAll(f, init), TouchAll(f, params), F);
      var d1 := ParamsSim(host, f, F, act, init, c);
      ExtSlot(TouchAll(f, params), F, x);
      forall y | y in init ensures y in F.slots && y != x { ExtSlot(TouchAll(f, init), F, y); }
      ParamCodeAgrees(TouchAll(f, params), F, |init|, x);
      assert params == init + [x];
      d := ParamStep(host, F, act, init, x, ParamsCode(f, init), c, d1);
    }
  }

  /** How a function is called: the return address on top of an aligned stack. */
  ghost predicate CalledOk(c: Core, act: Activation) {
    && FpOk(act.fp) && Reg(c, RSP) == act.fp + 8 && Reg(c, RBP) == act.rbp && Mem(c.mem, act.fp + 8) == act.ret
    && act.before == c.mem
  }

  /** The registers in which the first six parameters arrive. */
  ghost predicate Bound(params: seq<string>, c: Core, env: Env) {
    forall i :: 0 <= i < |params| && i < 6 ==> Read(env, params[i]) == Reg(c, ARGUMENTS[i])
  }

  lemma CalledFp(c: Core, act: Activation)
    requires CalledOk(c, act)
    ensures FpOk(act.fp) && act.fp % 8 == 0 && MIN64 <= act.fp - FRAME_SIZE && act.fp + 16 <= MAX64
  {
    FpRange(act.fp);
  }

  lemma EnterExec(host: Host, act: Activation, c: Core) returns (d: Core)
    requires CalledOk(c, act)
    ensures var asms := [PushRbp] + [MovRbpRsp] + [SubRsp(FRAME_SIZE)];
      Plain(asms) && ExecAsms(host, asms, c) == Some(d)
    ensures Reg(d, RBP) == act.fp && Reg(d, RSP) == act.fp - FRAME_SIZE && d.trace == c.trace
    ensures Mem(d.mem, act.fp) == act.rbp && Mem(d.mem, act.fp + 8) == act.ret && AboveKept(act, d.mem)
    ensures forall i :: 0 <= i < 6 ==> Reg(d, ARGUMENTS[i]) == Reg(c, ARGUMENTS[i])
  {
    hide Plain, ExecAsms, Wrap, FpOk;
    CalledFp(c, act);
    var c0 := SetReg(c, RSP, act.fp);
    var c1 := c0.(mem := c.mem[act.fp := act.rbp]);
    ExecOne(host, PushRbp, c);
    var c2 := SetReg(c1, RBP, act.fp);
    Next(host, [PushRbp], MovRbpRsp, c, c1);
    Next(host, [PushRbp] + [MovRbpRsp], SubRsp(FRAME_SIZE), c, c2);
    d := Compute(c2, RSP, act.fp - FRAME_SIZE);
  }

  lemma EntryStoreHolds(F: Frame, fp: int, d: Core)
    ensures var s := EntryStore(F, fp, d); SlotsHold(F, fp, s.env, d.mem) && CellsHold(F, fp, s.cells, d.mem)
  {
    var s := EntryStore(F, fp, d);
    forall a, i | a in F.sizes && 0 <= i < F.sizes[a]
      ensures Mem(d.mem, CellAddress(F, fp, a, i)) == Load(s.cells, a, i) {
      assert (a, i) in s.cells;
    }
  }

  lemma EntryStoreRel(F: Frame, act: Activation, params: seq<string>, c: Core, d: Core)
    requires ParamsStored(F, act, params, c, d) && forall x :: x in params ==> x in F.slots
    requires Reg(c, RBP) == act.fp && Reg(c, RSP) == act.fp - FRAME_SIZE
    requires Mem(c.mem, act.fp) == act.rbp && Mem(c.mem, act.fp + 8) == act.ret && AboveKept(act, c.mem)
    ensures Rel(F, act, EntryStore(F, act.fp, d), d) && Bound(params, c, EntryStore(F, act.fp, d).env)
  {
    hide CellsHold, EntryStore;
    var s := EntryStore(F, act.fp, d);
    EntryStoreHolds(F, act.fp, d);
    EntryTrace(F, act.fp, d);
    forall i | 0 <= i < |params| && i < 6 ensures Read(s.env, params[i]) == Reg(c, ARGUMENTS[i]) {
      assert params[i] in F.slots;
    }
  }

  lemma EntryTrace(F: Frame, fp: int, d: Core)
    ensures EntryStore(F, fp, d).trace == d.trace
  {
  }

  /** After the prologue every name has the value its slot happens to hold, the parameters their arguments. */
  lemma EntrySim(host: Host, arrays: map<string, int>, fn: SSAFunction, act: Activation, c: Core)
      returns (d: Core, s: Store)
    requires !fn.isNaked && Distinct(InRegisters(fn.params)) && BlocksOk(Entered(arrays, fn), fn.blocks)
    requires Here(FinalFrame(arrays, fn), act) && CalledOk(c, act)
    ensures Plain(Prologue(arrays, fn)) && ExecAsms(host, Prologue(arrays, fn), c) == Some(d)
    ensures Rel(FinalFrame(arrays, fn), act, s, d) && s.trace == c.trace && Bound(fn.params, c, s.env)
  {
    hide ExecAsms, Plain, Here, FrameInv, Ext, TouchAll, BlocksOk, AllocBlocks, CalledOk, Rel, Bound, InRegisters;
    var F, f, params := FinalFrame(arrays, fn), Enter(arrays), InRegisters(fn.params);
    EnterInv(arrays);
    TouchAllKeeps(f, params);
    AllocBlocksKeeps(Entered(arrays, fn), fn.blocks);
    forall x | x in params ensures x in F.slots { ExtSlot(TouchAll(f, params), F, x); }
    var c1 := EnterExec(host, act, c);
    d := ParamsSim(host, f, F, act, params, c1);
    ExecAppend(host, [PushRbp] + [MovRbpRsp] + [SubRsp(FRAME_SIZE)], ParamsCode(f, params), c);
    s := EntryStore(F, act.fp, d);
    EntryStoreRel(F, act, params, c1, d);
    BoundSame(params, c, c1, s.env);
    BoundAll(fn.params, c, s.env);
  }

  lemma BoundSame(params: seq<string>, c: Core, d: Core, env: Env)
    requires Bound(params, d, env) && forall i :: 0 <= i < 6 ==> Reg(d, ARGUMENTS[i]) == Reg(c, ARGUMENTS[i])
    ensures Bound(params, c, env)
  {
  }

  lemma BoundAll(params: seq<string>, c: Core, env: Env)
    requires Bound(InRegisters(params), c, env)
    ensures Bound(params, c, env)
  {
    var r := InRegisters(params);
    assert r == if |params| > 6 then params[..6] else params;
    forall i | 0 <= i < |params| && i < 6 ensures Read(env, params[i]) == Reg(c, ARGUMENTS[i]) {
      assert r[i] == params[i];
    }
  }

  // ----- a function within a program

  ghost predicate Runnable(host: Host, sym: Symbols, arrays: map<string, int>, fn: SSAFunction) {
    && !fn.isNaked && Distinct(InRegisters(fn.params)) && |fn.blocks| > 0 && BlocksOk(Entered(arrays, fn), fn.blocks)
    && FinalFrame(arrays, fn).top >= -FRAME_SIZE
    && forall b: nat, j: nat :: b < |fn.blocks| && j < |fn.blocks[b].instructions| ==>
         Supported(host, sym, fn.blocks[b].instructions[j])
  }

  function BlocksStart(pre: seq<Item>, arrays: map<string, int>, fn: SSAFunction): seq<Item> {
    pre + [Label(fn.name)] + Ops(Prologue(arrays, fn))
  }

  function InPlace(host: Host, sym: Symbols, arrays: map<string, int>, pre: seq<Item>, fn: SSAFunction, post: seq<Item>,
                   act: Activation): Setting
  {
    var items := pre + EncFunction(arrays, sym, fn) + post;
    Setting(host, sym, Resolved(items, 0, Offsets(items, 0)), Offsets(items, 0), Entered(arrays, fn), fn.blocks,
            Len(BlocksStart(pre, arrays, fn)), act)
  }

  lemma {:induction false} OffsetsAreInside(items: seq<Item>)
    ensures OffsetsInside(Offsets(items, 0), Len(items))
    decreases |items|
  {
    if items != [] { OffsetsAreInside(items[..|items| - 1]); }
  }

  lemma Regroup(arrays: map<string, int>, sym: Symbols, pre: seq<Item>, fn: SSAFunction, post: seq<Item>)
    ensures pre + EncFunction(arrays, sym, fn) + post ==
            BlocksStart(pre, arrays, fn) + EncBlocks(Entered(arrays, fn), sym, fn.blocks) + post
  {
    hide Prologue, EncBlocks, Entered, Ops;
  }

  lemma LabelsInPlace(x: Setting, pre: seq<Item>, post: seq<Item>)
    requires var items := pre + EncBlocks(x.f, x.sym, x.blocks) + post;
      DistinctLabels(items) && x.offsets == Offsets(items, 0)
    requires x.at == Len(pre)
    ensures LabelsAt(x)
  {
    hide DistinctLabels, EncBlocks, PcOf, Offsets, Len;
    forall b: nat | b < |x.blocks|
      ensures x.blocks[b].name in x.offsets && x.offsets[x.blocks[b].name] == BlockPc(x, b)
    {
      BlockAddress(pre, x.f, x.sym, x.blocks, post, b);
    }
  }

  lemma CodeIsInPlace(host: Host, sym: Symbols, arrays: map<string, int>, pre: seq<Item>, fn: SSAFunction,
      post: seq<Item>,
                      act: Activation)
    requires var items := pre + EncFunction(arrays, sym, fn) + post; DistinctLabels(items) && Len(items) < 0x8000_0000
    ensures CodeInPlace(InPlace(host, sym, arrays, pre, fn, post, act))
  {
    hide DistinctLabels, EncBlocks, PcOf, Offsets, Len, Has, Resolved, LabelsAt, Entered, OffsetsInside, BlocksStart;
    var x := InPlace(host, sym, arrays, pre, fn, post, act);
    var items, start, body :=
      pre + EncFunction(arrays, sym, fn) + post, BlocksStart(pre, arrays, fn), EncBlocks(x.f, sym, fn.blocks);
    Regroup(arrays, sym, pre, fn, post);
    LabelsInPlace(x, start, post);
    OffsetsAreInside(items);
    HasAll(x.code);
    HasItemsParts(x.code, 0, start + body, post, x.offsets);
    HasItemsParts(x.code, 0, start, body, x.offsets);
  }

  lemma HasAll(code: seq<int>)
    ensures Has(code, 0, code)
  {
  }

  /** The bytes of the function's prologue, at its label. */
  lemma PrologueInPlace(host: Host, sym: Symbols, arrays: map<string, int>, pre: seq<Item>, fn: SSAFunction,
      post: seq<Item>,
                        act: Activation)
    requires var items := pre + EncFunction(arrays, sym, fn) + post; DistinctLabels(items)
    ensures var x := InPlace(host, sym, arrays, pre, fn, post, act);
      && fn.name in x.offsets && x.offsets[fn.name] == Len(pre)
      && Has(x.code, Len(pre), EncodeAll(Prologue(arrays, fn))) && x.at == Len(pre) + |EncodeAll(Prologue(arrays, fn))|
  {
    hide DistinctLabels, EncBlocks, PcOf, Offsets, Len, Has, Resolved, Entered, Prologue, Ops, EncodeAll;
    var x, code := InPlace(host, sym, arrays, pre, fn, post, act), Ops(Prologue(arrays, fn));
    var items, body := pre + EncFunction(arrays, sym, fn) + post, EncBlocks(x.f, sym, fn.blocks);
    var front := pre + [Label(fn.name)];
    Regroup(arrays, sym, pre, fn, post);
    assert items[|pre|] == Label(fn.name) && items[..|pre|] == pre;
    LabelAddress(items, 0, |pre|);
    HasAll(x.code);
    HasItemsParts(x.code, 0, front + code + body, post, x.offsets);
    HasItemsParts(x.code, 0, front + code, body, x.offsets);
    HasItemsParts(x.code, 0, front, code, x.offsets);
    LenLabel(pre, fn.name);
    LenAppend(front, code);
    OpsAt(x.code, Len(pre), Prologue(arrays, fn), x.offsets);
  }

  /** Calling a function: from any registers and memory there are values for its names, its parameters
      having those of the argument registers, such that, unless running it on them divides by zero or
      leaves an array, the machine returns what the function returns, after the same calls. */
  lemma FunctionCorrect(host: Host, sym: Symbols, arrays: map<string, int>, pre: seq<Item>, fn: SSAFunction,
      post: seq<Item>,
                        act: Activation, c: Core) returns (s: Store)
    requires Runnable(host, sym, arrays, fn) && CalledOk(c, act)
    requires var items := pre + EncFunction(arrays, sym, fn) + post; DistinctLabels(items) && Len(items) < 0x8000_0000
    ensures s.trace == c.trace && Bound(fn.params, c, s.env)
    ensures var x := InPlace(host, sym, arrays, pre, fn, post, act);
      Safe(x, Config(0, 0, s)) ==>
        forall trace, value :: MachineReturns(x, Machine(c, Len(pre)), trace, value)
                          <==> HaltsWith(fn.blocks, host.world, s, trace, value)
  {
    hide DistinctLabels, EncBlocks, PcOf, Offsets, Len, Has, Resolved, BlocksOk, FrameInv, Ready, Rel, Prologue,
    ExecAsms,
      X86Machine.Run, Safe, Matches, CalledOk, Bound, Supported, CodeInPlace, InPlace, MachineReturns, HaltsWith,
        AllocBlocks, Entered, EncodeAll;
    var x := InPlace(host, sym, arrays, pre, fn, post, act);
    CodeIsInPlace(host, sym, arrays, pre, fn, post, act);
    PrologueInPlace(host, sym, arrays, pre, fn, post, act);
    EnteredInv(arrays, fn);
    AllocBlocksKeeps(Entered(arrays, fn), fn.blocks);
    CalledFp(c, act);
    assert Here(FinalFrame(arrays, fn), act);
    var d;
    d, s := EntrySim(host, arrays, fn, act, c);
    var asms := Prologue(arrays, fn);
    var m := Machine(c, Len(pre));
    RunPlain(host, x.code, asms, m);
    InPlaceReady(host, sym, arrays, pre, fn, post, act);
    var m1 := Machine(d, x.at);
    StartMatches(x, s, m1, d);
    if Safe(x, Config(0, 0, s)) {
      forall trace, value
        ensures MachineReturns(x, m, trace, value) <==> HaltsWith(fn.blocks, host.world, s, trace, value)
      {
        ReturnsAlike(x, s, m1, trace, value);
        ReturnsLater(x, m, |asms|, m1, trace, value);
      }
    }
  }

  lemma InPlaceReady(host: Host, sym: Symbols, arrays: map<string, int>, pre: seq<Item>, fn: SSAFunction,
      post: seq<Item>,
                     act: Activation)
    requires Runnable(host, sym, arrays, fn) && Here(FinalFrame(arrays, fn), act) && FrameInv(Entered(arrays, fn))
    requires CodeInPlace(InPlace(host, sym, arrays, pre, fn, post, act))
    ensures var x := InPlace(host, sym, arrays, pre, fn, post, act);
      Ready(x) && x.blocks == fn.blocks && x.host == host && Final(x) == FinalFrame(arrays, fn) && x.act == act
  {
    hide CodeInPlace, FrameInv, Here, BlocksOk, Supported, AllocBlocks, Entered, Resolved, Offsets, Len, EncFunction;
  }

  lemma StartMatches(x: Setting, s: Store, m: Machine, d: Core)
    requires |x.blocks| > 0 && Rel(Final(x), x.act, s, d) && m == Machine(d, x.at)
    ensures Matches(x, Config(0, 0, s), m)
  {
    hide Rel, AllocBlocks;
    assert x.blocks[..0] == [] && x.blocks[0].instructions[..0] == [];
  }

  lemma ReturnsLater(x: Setting, m: Machine, j: nat, m1: Machine, trace: seq<Event>, value: int)
    requires X86Machine.Run(x.host, x.code, m, j) == Continues(m1)
    ensures MachineReturns(x, m, trace, value) <==> MachineReturns(x, m1, trace, value)
  {
    hide X86Machine.Run, Finished;
    if MachineReturns(x, m1, trace, value) {
      var k: nat, core: Core :|
        X86Machine.Run(x.host, x.code, m1, k) == Returned(x.act.ret, core) && Finished(x, core, trace, value);
      X86Machine.RunCompose(x.host, x.code, m, j, k);
      assert X86Machine.Run(x.host, x.code, m, j + k) == Returned(x.act.ret, core);
    }
    if MachineReturns(x, m, trace, value) {
      var k: nat, core: Core :|
        X86Machine.Run(x.host, x.code, m, k) == Returned(x.act.ret, core) && Finished(x, core, trace, value);
      StillGoing(x, m, j, k);
      X86Machine.RunCompose(x.host, x.code, m, j, k - j);
      assert X86Machine.Run(x.host, x.code, m1, k - j) == Returned(x.act.ret, core);
    }
  }

  // ----- the encoder's whole output

  lemma {:induction false} FunctionsSplit(arrays: map<string, int>, sym: Symbols, fns: seq<SSAFunction>, k: nat)
    returns (post: seq<Item>)
    requires k < |fns|
    ensures EncFunctions(arrays, sym, fns) ==
            EncFunctions(arrays, sym, fns[..k]) + EncFunction(ArraysAfter(arrays, fns[..k]), sym, fns[k]) + post
    decreases |fns|
  {
    hide EncFunction, ArraysAfter;
    var init := fns[..|fns| - 1];
    if k == |init| {
      post := [];
    } else {
      assert init[..k] == fns[..k] && init[k] == fns[k];
      var post1 := FunctionsSplit(arrays, sym, init, k);
      post := post1 + EncFunction(ArraysAfter(arrays, init), sym, fns[|init|]);
    }
  }

  /** What is asked of a function holds whatever arrays the functions before it have recorded. */
  ghost predicate RunnableIn(host: Host, sym: Symbols, arrays: map<string, int>, program: seq<SSAFunction>,
                             fn: SSAFunction)
  {
    forall before :: EncodedBefore(program, fn, before) ==> Runnable(host, sym, ArraysAfter(arrays, before), fn)
  }

  /** Every function of an encoded program, called at its label's address, does what its instructions say;
      the address of `_start`, or else of `main`, or else of the first function is that of the first byte. */
  lemma ProgramCorrect(host: Host, sym: Symbols, arrays: map<string, int>, program: seq<SSAFunction>, fn: SSAFunction,
      act: Activation, c: Core)
    returns (x: Setting, start: nat, s: Store)
    requires DistinctNames(program) && fn in program && RunnableIn(host, sym, arrays, program, fn)
    requires |EncProgram(arrays, sym, program)| < 0x8000_0000 && CalledOk(c, act)
    ensures x.code == EncProgram(arrays, sym, program) && x.host == host && x.sym == sym && x.act == act
      && x.blocks == fn.blocks
    ensures fn.name in x.offsets && x.offsets[fn.name] == start && s.trace == c.trace && Bound(fn.params, c, s.env)
    ensures IsEntry(program, fn) ==> start == 0
    ensures Safe(x, Config(0, 0, s)) ==>
      forall trace, value :: MachineReturns(x, Machine(c, start), trace, value)
                        <==> HaltsWith(fn.blocks, host.world, s, trace, value)
  {
    hide DistinctNames, DistinctLabels, EncFunction, Offsets, Len, Resolved, Runnable, Safe, CalledOk, Bound,
    MachineReturns, HaltsWith, ArraysAfter, EncFunctions, Has, EncodeAll, EncProgram, EncodedBefore, IsEntry, Ordered;
    var k := OrderExactly(program, fn);
    NamesAreDistinct(arrays, sym, program);
    var fns := Ordered(program);
    var pre, arr := EncFunctions(arrays, sym, fns[..k]), ArraysAfter(arrays, fns[..k]);
    var post := FunctionsSplit(arrays, sym, fns, k);
    x := InPlace(host, sym, arr, pre, fn, post, act);
    start := Len(pre);
    ProgramIsResolved(arrays, sym, program);
    PrologueInPlace(host, sym, arr, pre, fn, post, act);
    s := FunctionCorrect(host, sym, arr, pre, fn, post, act, c);
    if IsEntry(program, fn) { NothingBefore(arrays, sym, fns[..k]); }
  }

  lemma NothingBefore(arrays: map<string, int>, sym: Symbols, fns: seq<SSAFunction>)
    requires |fns| == 0
    ensures Len(EncFunctions(arrays, sym, fns)) == 0
  {
  }
}
