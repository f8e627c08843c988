/** From source to bytes: lowering with phi insertion (src/middleend/ssa/SSABuilder.cpp), dead code
    elimination or not, and code generation (src/backend/x86_64/X86_64Encoder.cpp). The machine running
    the encoder's output makes the same calls and returns the same value as the source function is
    meant to. */
module EndToEnd {
  import opened Names
  import opened Ssa
  import opened Ast
  import opened Lowering
  import opened LoweringFunc
  import opened X86Machine
  import opened Encoding
  import Layout = EncodingLayout
  import Sim = EncodingSim
  import Runs = EncodingRuns
  import Order = EncodingOrder
  import Programs = EncodingPrograms
  import Erasure
  import PhiPlacement
  import DeadCodeElim

  /** The function is native, at a known address, and takes n arguments in registers. */
  ghost predicate IsNative(host: Host, sym: Symbols, f: string, n: nat) {
    && n <= 6 && f in sym.functions
    && var a := sym.functions[f]; InRange(a) && a in host.natives && host.natives[a] == Native(f, n)
  }

  ghost predicate CallsNative(host: Host, sym: Symbols, e: Expr) {
    match e
    case Binary(_, a, b) => CallsNative(host, sym, a) && CallsNative(host, sym, b)
    case FuncCall(f, args) => IsNative(host, sym, f, |args|) && forall a :: a in args ==> CallsNative(host, sym, a)
    case _ => true
  }

  ghost predicate StmtCallsNative(host: Host, sym: Symbols, s: Stmt) {
    match s
    case Block(ss) => forall t :: t in ss ==> StmtCallsNative(host, sym, t)
    case ExprStmt(e) => CallsNative(host, sym, e)
    case VarAssign(_, _, e) => CallsNative(host, sym, e)
    case If(c, a, b) => CallsNative(host, sym, c) && StmtCallsNative(host, sym, a) && StmtCallsNative(host, sym, b)
    case While(c, body) => CallsNative(host, sym, c) && StmtCallsNative(host, sym, body)
    case For(_, lo, hi, _, body) => CallsNative(host, sym, lo) && CallsNative(host, sym, hi)
      && StmtCallsNative(host, sym, body)
    case Return(e) => e.Some? ==> CallsNative(host, sym, e.value)
    case Print(e) => IsNative(host, sym, PRINT_NUM, 1) && CallsNative(host, sym, e)
  }

  // ----- every instruction built is one that code generation handles

  ghost predicate TableInts(table: Table) {
    forall x :: x in table ==> Sim.IsInt(table[x])
  }

  ghost predicate Good(host: Host, sym: Symbols, inst: SSAInstruction) {
    Sim.Supported(host, sym, inst) && !inst.op.ArrayAlloc? && !inst.op.ArrayLoad? && !inst.op.ArrayStore?
  }

  ghost predicate AllGood(host: Host, sym: Symbols, insts: seq<SSAInstruction>) {
    forall i :: 0 <= i < |insts| ==> Good(host, sym, insts[i])
  }

  ghost predicate BlocksGood(host: Host, sym: Symbols, blocks: seq<SSABasicBlock>) {
    forall b :: 0 <= b < |blocks| ==> AllGood(host, sym, blocks[b].instructions)
  }

  lemma GoodConcat(host: Host, sym: Symbols, x: seq<SSAInstruction>, y: seq<SSAInstruction>)
    requires AllGood(host, sym, x) && AllGood(host, sym, y)
    ensures AllGood(host, sym, x + y)
  {
    hide Good;
  }

  lemma GoodEmit(host: Host, sym: Symbols, b: Builder, insts: seq<SSAInstruction>)
    requires |b.blocks| > 0 && BlocksGood(host, sym, b.blocks) && AllGood(host, sym, insts)
    ensures BlocksGood(host, sym, Emit(b, insts).blocks)
  {
    hide AllGood;
    GoodConcat(host, sym, b.blocks[|b.blocks| - 1].instructions, insts);
  }

  lemma GoodOpen(host: Host, sym: Symbols, b: Builder, name: string)
    requires BlocksGood(host, sym, b.blocks)
    ensures BlocksGood(host, sym, OpenBlock(b, name).blocks)
  {
  }

  lemma FoldInRange(op: SSAOp, l: SSAValue, r: SSAValue)
    requires IsBinary(op) && TryFold(op, l, r).Some?
    ensures InRange(TryFold(op, l, r).value)
  {
    hide TruncDiv, TruncMod;
  }

  lemma GoodArith(host: Host, sym: Symbols, op: SSAOp, x: string, l: SSAValue, r: SSAValue)
    requires IsBinary(op) && Sim.IsInt(l) && Sim.IsInt(r)
    ensures Good(host, sym, SSAInstruction(op, x, [l, r]))
  {
  }

  lemma GoodCall(host: Host, sym: Symbols, x: string, f: string, args: seq<SSAValue>)
    requires IsNative(host, sym, f, |args|) && forall i :: 0 <= i < |args| ==> Sim.IsInt(args[i])
    ensures Good(host, sym, SSAInstruction(SSAOp.Call, x, [Str(f)] + args))
  {
  }

  lemma {:induction false} ExprGood(host: Host, sym: Symbols, table: Table, e: Expr, temps: nat)
    requires TableInts(table) && (IsValueExpr(e) || IsTruthExpr(e)) && CallsNative(host, sym, e)
    ensures AllGood(host, sym, BuildExpr(table, e, temps).insts) && Sim.IsInt(BuildExpr(table, e, temps).value)
    decreases e
  {
    hide Good, TryFold;
    match e
    case Binary(op, a, b) =>
      var l := BuildExpr(table, a, temps);
      var r := BuildExpr(table, b, l.temps);
      ExprGood(host, sym, table, a, temps);
      ExprGood(host, sym, table, b, l.temps);
      GoodConcat(host, sym, l.insts, r.insts);
      if TryFold(OpOf(op), l.value, r.value).Some? {
        FoldInRange(OpOf(op), l.value, r.value);
      } else {
        var inst := SSAInstruction(OpOf(op), Temp(r.temps), [l.value, r.value]);
        GoodArith(host, sym, OpOf(op), Temp(r.temps), l.value, r.value);
        GoodConcat(host, sym, l.insts + r.insts, [inst]);
      }
    case FuncCall(f, args) =>
      var c := BuildArgs(table, args, temps + 1);
      ArgsGood(host, sym, table, args, temps + 1);
      GoodCall(host, sym, Temp(temps), f, c.values);
      GoodConcat(host, sym, c.insts, [SSAInstruction(SSAOp.Call, Temp(temps), [Str(f)] + c.values)]);
    case _ =>
  }

  lemma {:induction false} ArgsGood(host: Host, sym: Symbols, table: Table, args: seq<Expr>, temps: nat)
    requires TableInts(table) && forall a :: a in args ==> IsValueExpr(a) && CallsNative(host, sym, a)
    ensures AllGood(host, sym, BuildArgs(table, args, temps).insts)
    ensures forall i :: 0 <= i < |args| ==> Sim.IsInt(BuildArgs(table, args, temps).values[i])
    decreases args
  {
    hide Good, BuildExpr, IsValueExpr, CallsNative;
    if args != [] {
      var first := BuildExpr(table, args[0], temps);
      ExprGood(host, sym, table, args[0], temps);
      ArgsGood(host, sym, table, args[1..], first.temps);
      GoodConcat(host, sym, first.insts, BuildArgs(table, args[1..], first.temps).insts);
    }
  }

  /** An expression's code followed by one instruction, emitted. */
  lemma GoodStraight(host: Host, sym: Symbols, b: Builder, b1: Builder, table: Table, e: Expr,
      last: seq<SSAInstruction>)
    requires |b.blocks| > 0 && BlocksGood(host, sym, b.blocks) && TableInts(table)
    requires (IsValueExpr(e) || IsTruthExpr(e)) && CallsNative(host, sym, e) && b1.blocks == b.blocks
    requires AllGood(host, sym, last)
    ensures BlocksGood(host, sym, Emit(b1, BuildExpr(table, e, b.temps).insts + last).blocks)
  {
    hide AllGood, Emit, BlocksGood, BuildExpr, IsValueExpr, IsTruthExpr, CallsNative;
    ExprGood(host, sym, table, e, b.temps);
    GoodConcat(host, sym, BuildExpr(table, e, b.temps).insts, last);
    GoodEmit(host, sym, b1, BuildExpr(table, e, b.temps).insts + last);
  }

  lemma GoodJumps(host: Host, sym: Symbols, v: SSAValue, yes: string, no: string)
    requires Sim.IsInt(v)
    ensures AllGood(host, sym, [Fork(v, yes, no)]) && AllGood(host, sym, [Goto(yes)])
  {
  }

  lemma GoodAssign(host: Host, sym: Symbols, x: string, op: AssignOperator, v: SSAValue)
    requires Sim.IsInt(v)
    ensures AllGood(host, sym, [AssignInst(x, op, v)])
  {
  }

  lemma GoodReturn(host: Host, sym: Symbols, isNaked: bool, v: SSAValue)
    requires Sim.IsInt(v)
    ensures AllGood(host, sym, RegionExits(isNaked) + [SSAInstruction(SSAOp.Return, "", [v])])
  {
  }

  lemma GoodPrint(host: Host, sym: Symbols, v: SSAValue)
    requires IsNative(host, sym, PRINT_NUM, 1) && Sim.IsInt(v)
    ensures AllGood(host, sym, [SSAInstruction(SSAOp.Call, "", [Str(PRINT_NUM), v])])
  {
    GoodCall(host, sym, "", PRINT_NUM, [v]);
    assert [Str(PRINT_NUM)] + [v] == [Str(PRINT_NUM), v];
  }

  lemma {:induction false} StmtGood(host: Host, sym: Symbols, b: Builder, s: Stmt)
    requires |b.blocks| > 0 && BlocksGood(host, sym, b.blocks) && TableInts(b.table)
    requires Ast.Supported(s) && StmtCallsNative(host, sym, s)
    ensures BlocksGood(host, sym, BuildStmt(b, s).blocks) && TableInts(BuildStmt(b, s).table)
    decreases s, 1
  {
    hide BlocksGood, AllGood, Emit, BuildExpr, IsValueExpr, CallsNative, RegionExits, IsTruthExpr, TruthBound,
      LabelName, OpenBlock, AssignInst;
    match s
    case Block(ss) => StmtsGood(host, sym, b, ss);
    case ExprStmt(e) =>
      var c := BuildExpr(b.table, e, b.temps);
      ExprGood(host, sym, b.table, e, b.temps);
      GoodEmit(host, sym, b.(temps := c.temps), c.insts);
      EmitTable(b.(temps := c.temps), c.insts);
    case VarAssign(x, op, e) =>
      var c := BuildExpr(b.table, e, b.temps);
      var b1 := b.(temps := c.temps, table := b.table[x := Var(x)]);
      ExprGood(host, sym, b.table, e, b.temps);
      GoodAssign(host, sym, x, op, c.value);
      GoodStraight(host, sym, b, b1, b.table, e, [AssignInst(x, op, c.value)]);
      EmitTable(b1, c.insts + [AssignInst(x, op, c.value)]);
    case Return(e) =>
      var c := if e.Some? then BuildExpr(b.table, e.value, b.temps) else Code([], Num(0), b.temps);
      var last := RegionExits(b.isNaked) + [SSAInstruction(SSAOp.Return, "", [c.value])];
      if e.Some? { ExprGood(host, sym, b.table, e.value, b.temps); }
      GoodReturn(host, sym, b.isNaked, c.value);
      NoneGood(host, sym);
      GoodConcat(host, sym, c.insts, last);
      GoodEmit(host, sym, b.(temps := c.temps), c.insts + last);
      EmitTable(b.(temps := c.temps), c.insts + last);
      assert c.insts + last == c.insts + RegionExits(b.isNaked) + [SSAInstruction(SSAOp.Return, "", [c.value])];
    case Print(e) =>
      var c := BuildExpr(b.table, e, b.temps);
      var last := [SSAInstruction(SSAOp.Call, "", [Str(PRINT_NUM), c.value])];
      ExprGood(host, sym, b.table, e, b.temps);
      GoodPrint(host, sym, c.value);
      GoodStraight(host, sym, b, b.(temps := c.temps), b.table, e, last);
      EmitTable(b.(temps := c.temps), c.insts + last);
    case If(_, _, _) => IfGood(host, sym, b, s);
    case While(_, _) => WhileGood(host, sym, b, s);
    case For(_, _, _, _, _) => ForGood(host, sym, b, s);
  }

  lemma NoneGood(host: Host, sym: Symbols)
    ensures AllGood(host, sym, [])
  {
  }

  lemma EmitTable(b: Builder, insts: seq<SSAInstruction>)
    requires |b.blocks| > 0
    ensures Emit(b, insts).table == b.table
  {
  }

  lemma OpenTable(b: Builder, name: string)
    ensures OpenBlock(b, name).table == b.table
  {
  }

  lemma {:induction false} StmtsGood(host: Host, sym: Symbols, b: Builder, ss: seq<Stmt>)
    requires |b.blocks| > 0 && BlocksGood(host, sym, b.blocks) && TableInts(b.table)
    requires forall t :: t in ss ==> Ast.Supported(t) && StmtCallsNative(host, sym, t)
    ensures BlocksGood(host, sym, BuildStmts(b, ss).blocks) && TableInts(BuildStmts(b, ss).table)
    decreases ss, 0
  {
    hide BlocksGood, BuildStmt, Ast.Supported, StmtCallsNative, TableInts;
    if ss != [] {
      StmtGood(host, sym, b, ss[0]);
      StmtsGood(host, sym, BuildStmt(b, ss[0]), ss[1..]);
    }
  }

  /** Building a statement in a new block, then jumping on. */
  lemma {:induction false} BranchGood(host: Host, sym: Symbols, b: Builder, name: string, s: Stmt,
      last: seq<SSAInstruction>)
    requires |b.blocks| > 0 && BlocksGood(host, sym, b.blocks) && TableInts(b.table) && AllGood(host, sym, last)
    requires Ast.Supported(s) && StmtCallsNative(host, sym, s)
    ensures var r := Emit(BuildStmt(OpenBlock(b, name), s), last); BlocksGood(host, sym, r.blocks) && TableInts(r.table)
    decreases s, 2
  {
    hide BlocksGood, BuildStmt, Ast.Supported, StmtCallsNative, TableInts, AllGood, Emit, OpenBlock;
    GoodOpen(host, sym, b, name);
    OpenTable(b, name);
    StmtGood(host, sym, OpenBlock(b, name), s);
    GoodEmit(host, sym, BuildStmt(OpenBlock(b, name), s), last);
    EmitTable(BuildStmt(OpenBlock(b, name), s), last);
  }

  lemma {:induction false} IfGood(host: Host, sym: Symbols, b: Builder, s: Stmt)
    requires |b.blocks| > 0 && BlocksGood(host, sym, b.blocks) && TableInts(b.table)
    requires s.If? && Ast.Supported(s) && StmtCallsNative(host, sym, s)
    ensures BlocksGood(host, sym, BuildStmt(b, s).blocks) && TableInts(BuildStmt(b, s).table)
    decreases s, 0
  {
    hide BlocksGood, AllGood, Emit, BuildExpr, IsValueExpr, IsTruthExpr, TruthBound, LabelName, OpenBlock, TableInts,
      Fork, Goto;
    var c := BuildExpr(b.table, s.cond, b.temps);
    ExprGood(host, sym, b.table, s.cond, b.temps);
    GoodJumps(host, sym, c.value, ThenName(b), ElseName(b));
    var b1 := b.(temps := c.temps, labels := b.labels + 3);
    GoodStraight(host, sym, b, b1, b.table, s.cond, [Fork(c.value, ThenName(b), ElseName(b))]);
    EmitTable(b1, c.insts + [Fork(c.value, ThenName(b), ElseName(b))]);
    GoodJumps(host, sym, c.value, MergeName(b), MergeName(b));
    BranchGood(host, sym, IfTested(b, s.cond), ThenName(b), s.thenBranch, [Goto(MergeName(b))]);
    BranchGood(host, sym, IfThen(b, s), ElseName(b), s.elseBranch, [Goto(MergeName(b))]);
    GoodOpen(host, sym, IfElse(b, s), MergeName(b));
    OpenTable(IfElse(b, s), MergeName(b));
  }

  lemma {:induction false} WhileGood(host: Host, sym: Symbols, b: Builder, s: Stmt)
    requires |b.blocks| > 0 && BlocksGood(host, sym, b.blocks) && TableInts(b.table)
    requires s.While? && Ast.Supported(s) && StmtCallsNative(host, sym, s)
    ensures BlocksGood(host, sym, BuildStmt(b, s).blocks) && TableInts(BuildStmt(b, s).table)
    decreases s, 0
  {
    hide BlocksGood, AllGood, Emit, BuildExpr, IsValueExpr, IsTruthExpr, TruthBound, LabelName, OpenBlock, TableInts,
      Fork, Goto;
    var c := BuildExpr(b.table, s.cond, b.temps);
    var fork := [Fork(c.value, WhileInner(b), WhileExit(b))];
    ExprGood(host, sym, b.table, s.cond, b.temps);
    GoodJumps(host, sym, c.value, WhileInner(b), WhileExit(b));
    GoodJumps(host, sym, c.value, WhileHead(b), WhileHead(b));
    var b1 := b.(labels := b.labels + 3);
    GoodEmit(host, sym, b1, [Goto(WhileHead(b))]);
    EmitTable(b1, [Goto(WhileHead(b))]);
    GoodOpen(host, sym, Emit(b1, [Goto(WhileHead(b))]), WhileHead(b));
    OpenTable(Emit(b1, [Goto(WhileHead(b))]), WhileHead(b));
    var e1 := WhileEntered(b);
    GoodConcat(host, sym, c.insts, fork);
    GoodEmit(host, sym, e1.(temps := c.temps), c.insts + fork);
    EmitTable(e1.(temps := c.temps), c.insts + fork);
    BranchGood(host, sym, WhileTested(b, s.cond), WhileInner(b), s.body, [Goto(WhileHead(b))]);
    GoodOpen(host, sym, WhileLooped(b, s), WhileExit(b));
    OpenTable(WhileLooped(b, s), WhileExit(b));
  }

  lemma GoodForTest(host: Host, sym: Symbols, s: Stmt, temp: string, z: SSAValue, yes: string, no: string)
    requires s.For? && Sim.IsInt(z)
    ensures AllGood(host, sym, [SSAInstruction(if s.inclusive then LessEqual else LessThan, temp, [Var(s.v), z])]
                               + [Fork(Var(temp), yes, no)])
  {
  }

  lemma GoodForStep(host: Host, sym: Symbols, x: string, head: string)
    ensures AllGood(host, sym, [SSAInstruction(Add, x, [Var(x), Num(1)])] + [Goto(head)])
  {
  }

  lemma ForEnterGood(host: Host, sym: Symbols, b: Builder, s: Stmt)
    requires |b.blocks| > 0 && BlocksGood(host, sym, b.blocks) && TableInts(b.table)
    requires s.For? && Ast.Supported(s) && StmtCallsNative(host, sym, s)
    ensures BlocksGood(host, sym, ForTested(b, s).blocks) && TableInts(ForTested(b, s).table)
  {
    hide BlocksGood, AllGood, Emit, BuildExpr, IsValueExpr, LabelName, OpenBlock, Fork, Goto;
    var table := ForTable(b, s);
    assert TableInts(table);
    var a, z := ForStart(b, s), ForEnd(b, s);
    ExprGood(host, sym, table, s.start, b.temps);
    ExprGood(host, sym, table, s.end, a.temps);
    var enter := [SSAInstruction(Copy, s.v, [a.value])];
    GoodAssign(host, sym, s.v, AssignOperator.Set, a.value);
    GoodJumps(host, sym, a.value, ForHead(b), ForHead(b));
    GoodConcat(host, sym, a.insts, z.insts);
    GoodConcat(host, sym, a.insts + z.insts, enter);
    GoodConcat(host, sym, a.insts + z.insts + enter, [Goto(ForHead(b))]);
    var b1 := b.(temps := z.temps + 1, labels := b.labels + 3, table := table);
    var code := a.insts + z.insts + enter + [Goto(ForHead(b))];
    GoodEmit(host, sym, b1, code);
    EmitTable(b1, code);
    GoodOpen(host, sym, Emit(b1, code), ForHead(b));
    OpenTable(Emit(b1, code), ForHead(b));
    var e1 := ForEntered(b, s);
    var test := [SSAInstruction(if s.inclusive then LessEqual else LessThan, Temp(z.temps), [Var(s.v), z.value])]
                + [Fork(Var(Temp(z.temps)), ForInner(b), ForExit(b))];
    GoodForTest(host, sym, s, Temp(z.temps), z.value, ForInner(b), ForExit(b));
    GoodEmit(host, sym, e1, test);
    EmitTable(e1, test);
  }

  lemma {:induction false} ForGood(host: Host, sym: Symbols, b: Builder, s: Stmt)
    requires |b.blocks| > 0 && BlocksGood(host, sym, b.blocks) && TableInts(b.table)
    requires s.For? && Ast.Supported(s) && StmtCallsNative(host, sym, s)
    ensures BlocksGood(host, sym, BuildStmt(b, s).blocks) && TableInts(BuildStmt(b, s).table)
    decreases s, 0
  {
    hide BlocksGood, AllGood, Emit, IsValueExpr, LabelName, OpenBlock, Goto, TableInts, ForTested;
    ForEnterGood(host, sym, b, s);
    GoodForStep(host, sym, s.v, ForHead(b));
    BranchGood(host, sym, ForTested(b, s), ForInner(b), s.body,
      [SSAInstruction(Add, s.v, [Var(s.v), Num(1)])] + [Goto(ForHead(b))]);
    GoodOpen(host, sym, ForLooped(b, s), ForExit(b));
    OpenTable(ForLooped(b, s), ForExit(b));
  }

  // ----- functions

  lemma {:induction false} ParamsInts(table: Table, params: seq<string>)
    requires TableInts(table)
    ensures TableInts(WithParams(table, params))
    decreases |params|
  {
    if params != [] { ParamsInts(table[params[0] := Var(params[0])], params[1..]); }
  }

  lemma EntryGood(host: Host, sym: Symbols, table: Table, f: FuncDecl)
    requires TableInts(table)
    ensures BlocksGood(host, sym, Entry(table, f).blocks) && TableInts(Entry(table, f).table)
  {
    ParamsInts(table, f.params);
  }

  lemma FuncGood(host: Host, sym: Symbols, table: Table, f: FuncDecl)
    requires TableInts(table) && Ast.Supported(f.body) && StmtCallsNative(host, sym, f.body)
    ensures BlocksGood(host, sym, BuildFunc(table, f))
  {
    hide BlocksGood, TableInts, Ast.Supported, StmtCallsNative, BuildStmt, Entry, Emit, EndsInReturn, RegionExits,
      AllGood;
    EntryGood(host, sym, table, f);
    StmtGood(host, sym, Entry(table, f), f.body);
    var b := Built(table, f);
    GoodReturn(host, sym, b.isNaked, Num(0));
    GoodEmit(host, sym, b, RegionExits(b.isNaked) + [SSAInstruction(SSAOp.Return, "", [Num(0)])]);
  }

  // ----- no arrays: nothing to allocate, no index to go wrong

  lemma {:induction false} NoArraysInsts(host: Host, sym: Symbols, f: Frame, insts: seq<SSAInstruction>)
    requires AllGood(host, sym, insts)
    ensures Layout.InstsOk(f, insts)
    decreases |insts|
  {
    hide AllocInsts;
    if insts != [] {
      var init := insts[..|insts| - 1];
      NoArraysInsts(host, sym, f, init);
      assert Good(host, sym, insts[|insts| - 1]);
    }
  }

  lemma {:induction false} NoArrays(host: Host, sym: Symbols, f: Frame, blocks: seq<SSABasicBlock>)
    requires BlocksGood(host, sym, blocks)
    ensures Layout.BlocksOk(f, blocks)
    decreases |blocks|
  {
    hide AllGood, Layout.InstsOk, AllocBlocks;
    if blocks != [] {
      var init := blocks[..|blocks| - 1];
      NoArrays(host, sym, f, init);
      NoArraysInsts(host, sym, AllocBlocks(f, init), blocks[|blocks| - 1].instructions);
    }
  }

  lemma NoIndexes(x: Runs.Setting, c: Config)
    requires BlocksGood(x.host, x.sym, x.blocks)
    ensures Runs.StepSafe(x, c)
  {
    if Runs.AtInstruction(x, c) {
      assert AllGood(x.host, x.sym, x.blocks[c.block].instructions);
      assert Good(x.host, x.sym, Runs.Instruction(x, c));
    }
  }

  // ----- a lowered function never faults unless its source does

  lemma NeverFaultsRun(world: World, table: Table, f: FuncDecl, m: Store, n: nat)
    requires LowerableFunc(table, f) && m.trace == [] && NeverFaults(world, f, SourceEnv(table, m.env))
    ensures !Ssa.Run(BuildFunc(table, f), world, Config(0, 0, m), n).Faulted?
  {
    hide Ssa.Run, ExecStmt, LowerableFunc, BuildFunc, SourceEnv;
    var program, env, c, fuel := BuildFunc(table, f), SourceEnv(table, m.env), Config(0, 0, m), n + 1;
    var k := FuncCorrect(world, table, f, m, fuel);
    var r := ExecFunc(world, f, env, fuel);
    assert !r.StmtFault?;
    assert r.Returned? || r.OutOfFuel?;
    if r.OutOfFuel? {
      RunStillRunning(program, world, c, n, k);
    } else if n <= k {
      if !Ssa.Run(program, world, c, n).Running? { Ssa.RunEnds(program, world, c, n, k); }
    } else {
      Ssa.RunEnds(program, world, c, k, n);
    }
  }

  // ----- what happens between lowering and code generation

  /** Started alike and without a fault, the blocks stop as the lowered function does. */
  ghost predicate Carries(world: World, table: Table, f: FuncDecl, blocks: seq<SSABasicBlock>) {
    forall s: Store :: FaultFree(BuildFunc(table, f), world, Config(0, 0, s)) ==>
      StopsAlike(BuildFunc(table, f), blocks, world, Config(0, 0, s), Config(0, 0, s))
  }

  /** The lowered function but for phis. */
  ghost predicate IsLowered(table: Table, f: FuncDecl, blocks: seq<SSABasicBlock>) {
    Erasure.KeptBlocks(PhiPlacement.NotPhi(), blocks) == Erasure.KeptBlocks(PhiPlacement.NotPhi(), BuildFunc(table, f))
  }

  /** What code generation gets: the lowered function with its phis, optimised or as it is. */
  function Generated(lowered: seq<SSABasicBlock>, optimise: bool): seq<SSABasicBlock> {
    if optimise then DeadCodeElim.Optimized(lowered) else lowered
  }

  lemma GeneratedCarries(world: World, table: Table, f: FuncDecl, lowered: seq<SSABasicBlock>, optimise: bool)
    requires IsLowered(table, f, lowered)
    ensures Carries(world, table, f, Generated(lowered, optimise))
  {
    hide StopsAlike, FaultFree, BuildFunc;
    var p, q := BuildFunc(table, f), Generated(lowered, optimise);
    forall s: Store | FaultFree(p, world, Config(0, 0, s))
      ensures StopsAlike(p, q, world, Config(0, 0, s), Config(0, 0, s)) {
      PhiPlacement.InsertionIsInvisible(p, lowered, world, s);
      if optimise {
        StopsAlikeMeans(p, lowered, world, s);
        DeadCodeElim.OptimizedCorrect(lowered, world, s);
        StopsAlikeTrans(p, lowered, q, world, Config(0, 0, s));
      }
    }
  }

  lemma {:induction false} KeptOrNot(keep: SSAInstruction -> bool, insts: seq<SSAInstruction>, inst: SSAInstruction)
    ensures inst in Erasure.Kept(keep, insts) <==> inst in insts && keep(inst)
    decreases |insts|
  {
    if insts != [] {
      KeptOrNot(keep, insts[..|insts| - 1], inst);
      assert insts == insts[..|insts| - 1] + [insts[|insts| - 1]];
    }
  }

  lemma WithPhisGood(host: Host, sym: Symbols, table: Table, f: FuncDecl, lowered: seq<SSABasicBlock>)
    requires BlocksGood(host, sym, BuildFunc(table, f)) && IsLowered(table, f, lowered)
    ensures BlocksGood(host, sym, lowered)
  {
    hide Good, BuildFunc, Erasure.Kept, PhiPlacement.NotPhi;
    var p, keep := BuildFunc(table, f), PhiPlacement.NotPhi();
    forall b, j | 0 <= b < |lowered| && 0 <= j < |lowered[b].instructions|
      ensures Good(host, sym, lowered[b].instructions[j]) {
      var inst := lowered[b].instructions[j];
      assert |p| == |Erasure.KeptBlocks(keep, lowered)| == |lowered|;
      assert Erasure.Kept(keep, lowered[b].instructions) == Erasure.Kept(keep, p[b].instructions);
      KeptOrNot(keep, lowered[b].instructions, inst);
      KeptOrNot(keep, p[b].instructions, inst);
      PhiOrNot(host, sym, inst);
      assert AllGood(host, sym, p[b].instructions);
    }
  }

  lemma PhiOrNot(host: Host, sym: Symbols, inst: SSAInstruction)
    ensures PhiPlacement.NotPhi()(inst) || Good(host, sym, inst)
  {
  }

  lemma {:induction false} SubSequenceHas(a: seq<SSAInstruction>, b: seq<SSAInstruction>, inst: SSAInstruction)
    requires DeadCodeElim.SubSequence(a, b) && inst in a
    ensures inst in b
    decreases |b|
  {
    var c := b[..|b| - 1];
    if DeadCodeElim.SubSequence(a, c) {
      SubSequenceHas(a, c, inst);
    } else if inst != b[|b| - 1] {
      assert a == a[..|a| - 1] + [a[|a| - 1]];
      SubSequenceHas(a[..|a| - 1], c, inst);
    }
  }

  lemma OptimizedGood(host: Host, sym: Symbols, blocks: seq<SSABasicBlock>)
    requires BlocksGood(host, sym, blocks)
    ensures BlocksGood(host, sym, DeadCodeElim.Optimized(blocks)) && |DeadCodeElim.Optimized(blocks)| == |blocks|
  {
    hide Good, DeadCodeElim.SubSequence, DeadCodeElim.Optimized;
    var q := DeadCodeElim.Optimized(blocks);
    DeadCodeElim.OptimizedIsSubProgram(blocks);
    forall b, j | 0 <= b < |q| && 0 <= j < |q[b].instructions| ensures Good(host, sym, q[b].instructions[j]) {
      SubSequenceHas(q[b].instructions, blocks[b].instructions, q[b].instructions[j]);
      assert AllGood(host, sym, blocks[b].instructions);
    }
  }

  lemma GeneratedGood(host: Host, sym: Symbols, table: Table, f: FuncDecl, lowered: seq<SSABasicBlock>, optimise: bool)
    requires BlocksGood(host, sym, BuildFunc(table, f)) && IsLowered(table, f, lowered)
    ensures BlocksGood(host, sym, Generated(lowered, optimise)) && |Generated(lowered, optimise)| > 0
  {
    hide BlocksGood, BuildFunc, DeadCodeElim.Optimized;
    WithPhisGood(host, sym, table, f, lowered);
    OptimizedGood(host, sym, lowered);
    BlocksNotEmpty(table, f);
    assert |Erasure.KeptBlocks(PhiPlacement.NotPhi(), lowered)| == |BuildFunc(table, f)|;
  }

  lemma BlocksNotEmpty(table: Table, f: FuncDecl)
    ensures |BuildFunc(table, f)| > 0
  {
    hide BuildStmt, Emit;
  }

  /** The generated blocks return what the source function returns, and never fault. */
  lemma GeneratedReturns(world: World, table: Table, f: FuncDecl, blocks: seq<SSABasicBlock>, s: Store)
    requires LowerableFunc(table, f) && s.trace == [] && NeverFaults(world, f, SourceEnv(table, s.env))
      && Carries(world, table, f, blocks)
    ensures FaultFree(blocks, world, Config(0, 0, s))
    ensures forall trace, v ::
      HaltsWith(blocks, world, s, trace, v) <==> Returns(world, f, SourceEnv(table, s.env), v, trace)
  {
    hide Ssa.Run, LowerableFunc, BuildFunc, SourceEnv, NeverFaults, Returns, StopsAlike, HaltsWith;
    var p := BuildFunc(table, f);
    forall n: nat ensures !Ssa.Run(p, world, Config(0, 0, s), n).Faulted? { NeverFaultsRun(world, table, f, s, n); }
    StopsAlikeMeans(p, blocks, world, s);
    forall trace, v
      ensures HaltsWith(blocks, world, s, trace, v) <==> Returns(world, f, SourceEnv(table, s.env), v, trace) {
      CompilerCorrect(world, table, f, s, v, trace);
    }
  }

  lemma FaultFreeIsSafe(x: Runs.Setting, s: Store)
    requires FaultFree(x.blocks, x.host.world, Config(0, 0, s)) && BlocksGood(x.host, x.sym, x.blocks)
    ensures Runs.Safe(x, Config(0, 0, s))
  {
    hide Ssa.Run, BlocksGood, Runs.StepSafe;
    forall n: nat ensures Runs.SafeOutcome(x, Ssa.Run(x.blocks, x.host.world, Config(0, 0, s), n)) {
      var o := Ssa.Run(x.blocks, x.host.world, Config(0, 0, s), n);
      if o.Running? { NoIndexes(x, o.c); }
    }
  }

  // ----- the whole way

  function Encoded(f: FuncDecl, blocks: seq<SSABasicBlock>): SSAFunction {
    SSAFunction(f.name, f.params, f.isNaked, blocks)
  }

  /** A function that every stage is right for. */
  ghost predicate Compilable(host: Host, sym: Symbols, arrays: map<string, int>, table: Table, f: FuncDecl,
                             lowered: seq<SSABasicBlock>, optimise: bool) {
    && LowerableFunc(table, f) && TableInts(table) && StmtCallsNative(host, sym, f.body) && !f.isNaked
    && IsLowered(table, f, lowered) && Programs.Distinct(InRegisters(f.params))
    && FinalFrame(arrays, Encoded(f, Generated(lowered, optimise))).top >= -FRAME_SIZE
  }

  lemma CompilableRuns(host: Host, sym: Symbols, arrays: map<string, int>, table: Table, f: FuncDecl,
                       lowered: seq<SSABasicBlock>, optimise: bool)
    requires Compilable(host, sym, arrays, table, f, lowered, optimise)
    ensures Programs.Runnable(host, sym, arrays, Encoded(f, Generated(lowered, optimise)))
    ensures BlocksGood(host, sym, Generated(lowered, optimise)) && LowerableFunc(table, f)
    ensures Carries(host.world, table, f, Generated(lowered, optimise))
  {
    hide BuildFunc, StmtCallsNative, FinalFrame, Layout.BlocksOk, Globals, GoodTable, TableInts, Entered,
    Ast.Supported, Generated,
      IsLowered, Carries;
    FuncGood(host, sym, table, f);
    GeneratedGood(host, sym, table, f, lowered, optimise);
    GeneratedCarries(host.world, table, f, lowered, optimise);
    var blocks := Generated(lowered, optimise);
    NoArrays(host, sym, Entered(arrays, Encoded(f, blocks)), blocks);
    forall b: nat, j: nat | b < |blocks| && j < |blocks[b].instructions|
      ensures Sim.Supported(host, sym, blocks[b].instructions[j])
    {
      assert AllGood(host, sym, blocks[b].instructions);
      assert Good(host, sym, blocks[b].instructions[j]);
    }
  }

  /** The same, whatever arrays the functions before it have recorded. */
  ghost predicate CompilableIn(host: Host, sym: Symbols, arrays: map<string, int>, program: seq<SSAFunction>,
                               table: Table, f: FuncDecl, lowered: seq<SSABasicBlock>, optimise: bool)
  {
    forall before :: Order.EncodedBefore(program, Encoded(f, Generated(lowered, optimise)), before) ==>
      Compilable(host, sym, ArraysAfter(arrays, before), table, f, lowered, optimise)
  }

  /** From source to bytes. Calling any compiled function of a program at its label's address, from any
      registers and memory: its parameters are the argument registers, its other variables have some
      values, and unless the function divides by zero on these, the machine returns v to the caller, with
      stack and frame pointer restored and the calls `trace` made, if and only if the function returns v
      after making them. The entry's label is at the first byte. */
  lemma SourceToBytes(host: Host, sym: Symbols, arrays: map<string, int>, program: seq<SSAFunction>,
                      table: Table, f: FuncDecl, lowered: seq<SSABasicBlock>, optimise: bool, act: Sim.Activation,
                        c: Core)
    returns (x: Runs.Setting, start: nat, s: Store)
    requires Order.DistinctNames(program) && Encoded(f, Generated(lowered, optimise)) in program
      && CompilableIn(host, sym, arrays, program, table, f, lowered, optimise)
      && |EncProgram(arrays, sym, program)| < 0x8000_0000
    requires Programs.CalledOk(c, act) && c.trace == []
    ensures x.code == EncProgram(arrays, sym, program) && x.host == host && x.act == act
    ensures f.name in x.offsets && x.offsets[f.name] == start && Programs.Bound(f.params, c, s.env)
    ensures Order.IsEntry(program, Encoded(f, Generated(lowered, optimise))) ==> start == 0
    ensures NeverFaults(host.world, f, SourceEnv(table, s.env)) ==>
      forall trace, v :: Runs.MachineReturns(x, Machine(c, start), trace, v)
                    <==> Returns(host.world, f, SourceEnv(table, s.env), v, trace)
  {
    hide Order.DistinctNames, EncFunctions, Len, Programs.Runnable, Runs.Safe, Programs.CalledOk, Programs.Bound,
    Runs.MachineReturns, ArraysAfter, EncProgram, Compilable, LowerableFunc, BuildFunc, SourceEnv, NeverFaults, Returns,
    BlocksGood, HaltsWith, FinalFrame, Carries, FaultFree, Generated, Order.EncodedBefore, Order.IsEntry, Ordered;
    var blocks := Generated(lowered, optimise);
    var fn := Encoded(f, blocks);
    forall before | Order.EncodedBefore(program, fn, before)
      ensures Programs.Runnable(host, sym, ArraysAfter(arrays, before), fn)
    {
      CompilableRuns(host, sym, ArraysAfter(arrays, before), table, f, lowered, optimise);
    }
    var k := Order.OrderExactly(program, fn);
    CompilableRuns(host, sym, ArraysAfter(arrays, Ordered(program)[..k]), table, f, lowered, optimise);
    x, start, s := Programs.ProgramCorrect(host, sym, arrays, program, fn, act, c);
    if NeverFaults(host.world, f, SourceEnv(table, s.env)) {
      GeneratedReturns(host.world, table, f, blocks, s);
      FaultFreeIsSafe(x, s);
    }
  }
}
