/** Whole functions: src/middleend/ssa/SSABuilder.cpp:115-174. The machine running the blocks built
    for a function makes the same calls and returns the same value as the function is meant to, and
    runs on for ever exactly when the function does. */
module LoweringFunc {
  import opened Options
  import opened Ssa
  import opened Ast
  import opened Lowering
  import opened LoweringExprs
  import opened LoweringBlocks
  import opened LoweringRuns
  import opened LoweringStmts

  /** The builder's table between functions: literal globals, and names that earlier functions used. */
  ghost predicate GoodTable(table: Table) {
    forall x :: x in table ==> table[x].Num? || table[x] == Var(x)
  }

  function Globals(table: Table): map<string, int> {
    map x | x in table && table[x].Num? :: table[x].n
  }

  ghost predicate LowerableFunc(table: Table, f: FuncDecl) {
    && GoodTable(table) && Lowerable(Globals(table), f.body)
    && forall p :: p in f.params ==> IsUserName(p) && p !in Globals(table)
  }

  /** What the function sees: its arguments and whatever else is in the variables, and the globals. */
  function SourceEnv(table: Table, menv: Env): Env {
    menv + Globals(table)
  }

  lemma GoodTableOk(table: Table)
    requires GoodTable(table)
    ensures TableOk(Globals(table), table)
  {
  }

  lemma {:induction false} ParamsTable(globals: map<string, int>, table: Table, params: seq<string>)
    requires TableOk(globals, table) && forall p :: p in params ==> p !in globals
    ensures TableOk(globals, WithParams(table, params))
    decreases |params|
  {
    if params != [] {
      TableAssign(globals, table, params[0]);
      ParamsTable(globals, table[params[0] := Var(params[0])], params[1..]);
    }
  }

  // ----- no code after a return is ever reached

  lemma {:induction false} ExprStraight(table: Table, e: Expr, temps: nat)
    ensures Straight(BuildExpr(table, e, temps).insts)
    decreases e
  {
    match e
    case Binary(_, a, b) =>
      ExprStraight(table, a, temps);
      ExprStraight(table, b, BuildExpr(table, a, temps).temps);
    case FuncCall(_, args) => ArgsStraight(table, args, temps + 1);
    case _ =>
  }

  lemma {:induction false} ArgsStraight(table: Table, args: seq<Expr>, temps: nat)
    ensures Straight(BuildArgs(table, args, temps).insts)
    decreases args
  {
    if args != [] {
      ExprStraight(table, args[0], temps);
      ArgsStraight(table, args[1..], BuildExpr(table, args[0], temps).temps);
    }
  }

  lemma EmitStraight(b: Builder, insts: seq<SSAInstruction>)
    requires |b.blocks| > 0 && !EndsInReturn(b) && Straight(insts)
    ensures !EndsInReturn(Emit(b, insts))
  {
    var code := Emit(b, insts).blocks[|b.blocks| - 1].instructions;
    assert code == b.blocks[|b.blocks| - 1].instructions + insts;
    if insts != [] { assert code[|code| - 1] == insts[|insts| - 1]; }
  }

  /** A statement that can end normally leaves a block that does not end in a return. */
  lemma {:induction false} NormalIsOpen(world: World, b: Builder, s: Stmt, env: Env, trace: seq<Event>, fuel: nat)
    requires |b.blocks| > 0 && !EndsInReturn(b) && ExecStmt(world, s, env, trace, fuel).Normal?
    ensures !EndsInReturn(BuildStmt(b, s))
    decreases s, 1
  {
    hide Emit, BuildExpr, Eval, Arith, ExecWhile, ExecFor, IfElse, WhileLooped, ForLooped;
    match s
    case Block(ss) => NormalIsOpenAll(world, b, ss, env, trace, fuel);
    case ExprStmt(e) =>
      ExprStraight(b.table, e, b.temps);
      var c := BuildExpr(b.table, e, b.temps);
      EmitStraight(b.(temps := c.temps), c.insts);
    case VarAssign(x, op, e) =>
      ExprStraight(b.table, e, b.temps);
      var c := BuildExpr(b.table, e, b.temps);
      EmitStraight(b.(temps := c.temps, table := b.table[x := Var(x)]), c.insts + [AssignInst(x, op, c.value)]);
    case Print(e) =>
      ExprStraight(b.table, e, b.temps);
      var c := BuildExpr(b.table, e, b.temps);
      EmitStraight(b.(temps := c.temps), c.insts + [SSAInstruction(SSAOp.Call, "", [Str(PRINT_NUM), c.value])]);
    case _ =>
  }

  lemma {:induction false} NormalIsOpenAll(world: World, b: Builder, ss: seq<Stmt>, env: Env, trace: seq<Event>,
      fuel: nat)
    requires |b.blocks| > 0 && !EndsInReturn(b) && ExecStmts(world, ss, env, trace, fuel).Normal?
    ensures !EndsInReturn(BuildStmts(b, ss))
    decreases ss, 0
  {
    hide ExecStmt, BuildStmt, EndsInReturn;
    if ss != [] {
      var r := ExecStmt(world, ss[0], env, trace, fuel);
      NormalIsOpen(world, b, ss[0], env, trace, fuel);
      NormalIsOpenAll(world, BuildStmt(b, ss[0]), ss[1..], r.env, r.trace, fuel);
    }
  }

  // ----- the function as a whole

  function Built(table: Table, f: FuncDecl): (b: Builder)
    ensures |b.blocks| > 0
  {
    BuildStmt(Entry(table, f), f.body)
  }

  lemma FuncShape(table: Table, f: FuncDecl)
    ensures Extends(Built(table, f).blocks, BuildFunc(table, f)) && DistinctBlocks(BuildFunc(table, f))
  {
    hide BuildStmt, Extends, LabelInv;
    var b := Built(table, f);
    EntryLabels(table, f);
    StmtKeepsLabels(Entry(table, f), f.body, {});
    if EndsInReturn(b) {
      ExtendsItself(b.blocks);
      LabelsDistinct(b);
    } else {
      var code := RegionExits(b.isNaked) + [SSAInstruction(SSAOp.Return, "", [Num(0)])];
      EmitKeepsLabels(b, code, {});
      LabelsDistinct(Emit(b, code));
      ExtendsItself(Emit(b, code).blocks);
      BeforeEmit(b, code, BuildFunc(table, f));
    }
  }

  lemma ExtendsItself(p: seq<SSABasicBlock>)
    requires |p| > 0
    ensures Extends(p, p)
  {
  }

  lemma LabelsDistinct(b: Builder)
    requires LabelInv(b, {})
    ensures DistinctBlocks(b.blocks)
  {
  }

  lemma EntryRuns(program: seq<SSABasicBlock>, world: World, table: Table, f: FuncDecl, m: Store) returns (n: nat)
    requires Extends(Entry(table, f).blocks, program)
    ensures Run(program, world, Config(0, 0, m), n) == Running(At(Entry(table, f), m))
  {
    n := 0;
    if !f.isNaked {
      n := 1;
      assert program[0].instructions[0] == SSAInstruction(RegionEnter, "", [Str(f.name)]);
      OneStep(program, world, Config(0, 0, m));
    }
  }

  lemma CloseRuns(world: World, table: Table, f: FuncDecl, m: Store) returns (n: nat)
    requires !EndsInReturn(Built(table, f))
    ensures Run(BuildFunc(table, f), world, At(Built(table, f), m), n) == Halted(m.trace, 0)
  {
    hide BuildStmt, Extends, Emit, Run;
    var b := Built(table, f);
    var program := BuildFunc(table, f);
    ExtendsItself(program);
    assert ExecAll(world, [], m) == Some(m) && Straight([]);
    ExitsRun(world, b.isNaked, [], m, m);
    assert [] + RegionExits(b.isNaked) == RegionExits(b.isNaked);
    RunReturn(program, world, b, RegionExits(b.isNaked), Num(0), m, m);
    n := |RegionExits(b.isNaked)| + 1;
  }

  lemma SourceAgrees(table: Table, menv: Env)
    ensures Agrees(Globals(table), SourceEnv(table, menv), menv)
  {
  }

  /** A function's outcome as the machine shows it. */
  ghost predicate Shows(program: seq<SSABasicBlock>, world: World, c: Config, n: nat, r: Result, fuel: nat) {
    match r
    case Returned(v, trace) => Run(program, world, c, n) == Halted(trace, v)
    case OutOfFuel(trace) =>
      n >= fuel && Run(program, world, c, n).Running? && Run(program, world, c, n).c.store.trace == trace
    case _ => true
  }

  /** Compiler correctness, one run: from any variables, after some number of steps the machine has
      returned what the function returns with the same calls made; or, if the meaning was cut off
      after `fuel` loop iterations, is still running after at least that many steps with the same
      calls made. */
  lemma FuncCorrect(world: World, table: Table, f: FuncDecl, m: Store, fuel: nat) returns (n: nat)
    requires LowerableFunc(table, f) && m.trace == []
    ensures Shows(BuildFunc(table, f), world, Config(0, 0, m), n, ExecFunc(world, f, SourceEnv(table, m.env), fuel),
      fuel)
  {
    hide Agrees, TempsKept, TableOk, Extends, DistinctBlocks, BuildStmt, ExecStmt, Run, EndsInReturn, BuildFunc,
      Lowerable, Globals, GoodTable;
    var globals, program, b, env := Globals(table), BuildFunc(table, f), Entry(table, f), SourceEnv(table, m.env);
    FuncShape(table, f);
    BeforeStmt(b, f.body, program);
    var n0 := EntryRuns(program, world, table, f, m);
    GoodTableOk(table);
    ParamsTable(globals, table, f.params);
    SourceAgrees(table, m.env);
    var r := ExecStmt(world, f.body, env, [], fuel);
    var n1, m1 := StmtCorrect(program, world, globals, b, f.body, env, m, fuel);
    n := n0 + n1;
    if !r.StmtFault? { RunCompose(program, world, Config(0, 0, m), n0, n1); }
    if r.Normal? {
      EntryOpen(table, f);
      NormalIsOpen(world, b, f.body, env, [], fuel);
      var n2 := CloseRuns(world, table, f, m1);
      RunCompose(program, world, Config(0, 0, m), n0 + n1, n2);
      n := n0 + n1 + n2;
    }
  }

  lemma EntryOpen(table: Table, f: FuncDecl)
    ensures !EndsInReturn(Entry(table, f))
  {
  }

  ghost predicate NeverFaults(world: World, f: FuncDecl, env: Env) {
    forall fuel: nat :: !ExecFunc(world, f, env, fuel).StmtFault?
  }

  ghost predicate Returns(world: World, f: FuncDecl, env: Env, v: int, trace: seq<Event>) {
    exists fuel: nat :: ExecFunc(world, f, env, fuel) == Returned(v, trace)
  }

  /** Compiler correctness, all runs: unless the function divides by zero, the machine returns v after
      the calls `trace` if and only if the function does. In particular the code diverges exactly
      when the function does. */
  lemma CompilerCorrect(world: World, table: Table, f: FuncDecl, m: Store, v: int, trace: seq<Event>)
    requires LowerableFunc(table, f) && m.trace == [] && NeverFaults(world, f, SourceEnv(table, m.env))
    ensures HaltsWith(BuildFunc(table, f), world, m, trace, v) <==> Returns(world, f, SourceEnv(table, m.env), v, trace)
  {
    hide Run, ExecStmt, LowerableFunc, BuildFunc, SourceEnv;
    var program, env, c := BuildFunc(table, f), SourceEnv(table, m.env), Config(0, 0, m);
    if Returns(world, f, env, v, trace) {
      var fuel: nat :| ExecFunc(world, f, env, fuel) == Returned(v, trace);
      var n := FuncCorrect(world, table, f, m, fuel);
    }
    if HaltsWith(program, world, m, trace, v) {
      var n: nat :| Run(program, world, c, n) == Halted(trace, v);
      var fuel := n + 1;
      var n' := FuncCorrect(world, table, f, m, fuel);
      var r := ExecFunc(world, f, env, fuel);
      assert !r.StmtFault? && !r.Normal?;
      if r.OutOfFuel? {
        RunStillRunning(program, world, c, n, n');
        assert false;
      }
      RunEnds(program, world, c, n, if n <= n' then n' else n);
      RunEnds(program, world, c, n', if n <= n' then n' else n);
    }
  }

  // ----- globals

  /** A literal global stays known to later functions exactly if no statement of this one assigns it. */
  lemma {:induction false} GlobalsSurvive(b: Builder, s: Stmt, x: string)
    requires |b.blocks| > 0
    ensures Lookup(BuildStmt(b, s).table, x) == if x in Assigned(s) then Var(x) else Lookup(b.table, x)
    decreases s, 1
  {
    hide BuildExpr;
    match s
    case Block(ss) => GlobalsSurviveAll(b, ss, x);
    case If(_, yes, no) =>
      GlobalsSurvive(OpenBlock(IfTested(b, s.cond), ThenName(b)), yes, x);
      GlobalsSurvive(OpenBlock(IfThen(b, s), ElseName(b)), no, x);
    case While(_, body) => GlobalsSurvive(OpenBlock(WhileTested(b, s.cond), WhileInner(b)), body, x);
    case For(_, _, _, _, body) => GlobalsSurvive(OpenBlock(ForTested(b, s), ForInner(b)), body, x);
    case _ =>
  }

  lemma {:induction false} GlobalsSurviveAll(b: Builder, ss: seq<Stmt>, x: string)
    requires |b.blocks| > 0
    ensures Lookup(BuildStmts(b, ss).table, x) == if x in AssignedIn(ss) then Var(x) else Lookup(b.table, x)
    decreases ss, 0
  {
    if ss != [] {
      AssignedPart(ss);
      GlobalsSurvive(b, ss[0], x);
      GlobalsSurviveAll(BuildStmt(b, ss[0]), ss[1..], x);
    }
  }
}
