/** The main theorem of the lowering: in every program that contains the code built for a statement,
    the machine follows the statement's meaning. */
module LoweringStmts {
  import opened Options
  import opened Names
  import opened Ssa
  import opened Ast
  import opened Lowering
  import opened LoweringExprs
  import opened LoweringBlocks
  import opened LoweringRuns

  ghost predicate Ready(program: seq<SSABasicBlock>, globals: map<string, int>, b: Builder, env: Env, m: Store) {
    |b.blocks| > 0 && DistinctBlocks(program) && TableOk(globals, b.table) && Agrees(globals, env, m.env)
  }

  /** Supported, and no global constant is assigned. */
  ghost predicate Lowerable(globals: map<string, int>, s: Stmt) {
    Supported(s) && Assigned(s) !! globals.Keys
  }

  // ----- tables and environments

  lemma TableAssign(globals: map<string, int>, table: Table, x: string)
    requires TableOk(globals, table) && x !in globals
    ensures TableOk(globals, table[x := Var(x)])
  {
    forall y ensures Lookup(table[x := Var(x)], y) == (if y in globals then Num(globals[y]) else Var(y)) {
      assert Lookup(table, y) == (if y in globals then Num(globals[y]) else Var(y));
    }
  }

  lemma AssignedPart(ss: seq<Stmt>)
    requires ss != []
    ensures AssignedIn(ss) == Assigned(ss[0]) + AssignedIn(ss[1..])
  {
  }

  lemma {:induction false} StmtTable(globals: map<string, int>, b: Builder, s: Stmt)
    requires |b.blocks| > 0 && TableOk(globals, b.table) && Assigned(s) !! globals.Keys
    ensures TableOk(globals, BuildStmt(b, s).table)
    decreases s, 2
  {
    hide TableOk, BuildExpr;
    match s
    case Block(ss) => StmtsTable(globals, b, ss);
    case If(_, yes, no) =>
      StmtTable(globals, OpenBlock(IfTested(b, s.cond), ThenName(b)), yes);
      StmtTable(globals, OpenBlock(IfThen(b, s), ElseName(b)), no);
    case While(_, body) =>
      StmtTable(globals, OpenBlock(WhileTested(b, s.cond), WhileInner(b)), body);
    case For(x, _, _, _, body) =>
      TableAssign(globals, b.table, x);
      StmtTable(globals, OpenBlock(ForTested(b, s), ForInner(b)), body);
    case VarAssign(x, _, _) => TableAssign(globals, b.table, x);
    case _ =>
  }

  lemma {:induction false} StmtsTable(globals: map<string, int>, b: Builder, ss: seq<Stmt>)
    requires |b.blocks| > 0 && TableOk(globals, b.table) && AssignedIn(ss) !! globals.Keys
    ensures TableOk(globals, BuildStmts(b, ss).table)
    decreases ss, 0
  {
    hide TableOk, BuildStmt;
    if ss != [] {
      AssignedPart(ss);
      StmtTable(globals, b, ss[0]);
      StmtsTable(globals, BuildStmt(b, ss[0]), ss[1..]);
    }
  }

  lemma AssignAgrees(globals: map<string, int>, env: Env, menv: Env, x: string, v: int)
    requires Agrees(globals, env, menv) && x !in globals && IsUserName(x)
    ensures Agrees(globals, env[x := v], Write(menv, x, v))
  {
    forall y | IsUserName(y)
      ensures Read(env[x := v], y) == (if y in globals then globals[y] else Read(Write(menv, x, v), y))
    {
      assert Read(env, y) == (if y in globals then globals[y] else Read(menv, y));
    }
  }

  lemma AssignKeepsTemps(menv: Env, x: string, v: int, k: nat)
    requires IsUserName(x)
    ensures TempsKept(menv, Write(menv, x, v), k)
  {
  }

  /** Assigning does not disturb other variables of the program. */
  lemma {:induction false} UnassignedKept(world: World, s: Stmt, env: Env, trace: seq<Event>, fuel: nat, x: string)
    requires x !in Assigned(s) && ExecStmt(world, s, env, trace, fuel).Normal?
    ensures Read(ExecStmt(world, s, env, trace, fuel).env, x) == Read(env, x)
    decreases fuel, s, 2
  {
    hide Eval, Arith;
    match s
    case Block(ss) => UnassignedKeptAll(world, ss, env, trace, fuel, x);
    case If(c, yes, no) =>
      var r := Eval(world, c, env, trace);
      if r.v != 0 { UnassignedKept(world, yes, env, r.trace, fuel, x); }
      else { UnassignedKept(world, no, env, r.trace, fuel, x); }
    case While(c, body) => UnassignedKeptWhile(world, c, body, env, trace, fuel, x);
    case For(v, lo, hi, inclusive, body) =>
      var a := Eval(world, lo, env, trace);
      var z := Eval(world, hi, env, a.trace);
      UnassignedKeptFor(world, v, z.v, inclusive, body, env[v := a.v], z.trace, fuel, x);
    case _ =>
  }

  lemma {:induction false} UnassignedKeptAll(world: World, ss: seq<Stmt>, env: Env, trace: seq<Event>, fuel: nat,
      x: string)
    requires x !in AssignedIn(ss) && ExecStmts(world, ss, env, trace, fuel).Normal?
    ensures Read(ExecStmts(world, ss, env, trace, fuel).env, x) == Read(env, x)
    decreases fuel, ss, 0
  {
    hide ExecStmt;
    if ss != [] {
      AssignedPart(ss);
      var r := ExecStmt(world, ss[0], env, trace, fuel);
      UnassignedKept(world, ss[0], env, trace, fuel, x);
      UnassignedKeptAll(world, ss[1..], r.env, r.trace, fuel, x);
    }
  }

  lemma {:induction false} UnassignedKeptWhile(world: World, c: Expr, body: Stmt, env: Env, trace: seq<Event>,
      fuel: nat, x: string)
    requires x !in Assigned(body) && ExecWhile(world, c, body, env, trace, fuel).Normal?
    ensures Read(ExecWhile(world, c, body, env, trace, fuel).env, x) == Read(env, x)
    decreases fuel, body, 3
  {
    hide ExecStmt, Eval;
    var r := Eval(world, c, env, trace);
    if r.v != 0 {
      var b := ExecStmt(world, body, env, r.trace, fuel - 1);
      UnassignedKept(world, body, env, r.trace, fuel - 1, x);
      UnassignedKeptWhile(world, c, body, b.env, b.trace, fuel - 1, x);
    }
  }

  lemma {:induction false} UnassignedKeptFor(world: World, v: string, end: int, inclusive: bool, body: Stmt, env: Env,
      trace: seq<Event>, fuel: nat, x: string)
    requires x !in Assigned(body) && x != v && ExecFor(world, v, end, inclusive, body, env, trace, fuel).Normal?
    ensures Read(ExecFor(world, v, end, inclusive, body, env, trace, fuel).env, x) == Read(env, x)
    decreases fuel, body, 3
  {
    hide ExecStmt, Wrap;
    if InBounds(Read(env, v), end, inclusive) {
      var b := ExecStmt(world, body, env, trace, fuel - 1);
      UnassignedKept(world, body, env, trace, fuel - 1, x);
      UnassignedKeptFor(world, v, end, inclusive, body, b.env[v := Wrap(Read(b.env, v) + 1)], b.trace, fuel - 1, x);
    }
  }

  // ----- statements without control flow

  lemma ExprStmtCorrect(program: seq<SSABasicBlock>, world: World, globals: map<string, int>, b: Builder, s: Stmt,
      env: Env, m: Store, fuel: nat)
    returns (n: nat, m': Store)
    requires s.ExprStmt? && Ready(program, globals, b, env, m) && Lowerable(globals, s)
    requires Extends(BuildStmt(b, s).blocks, program)
    ensures Follows(program, world, globals, At(b, m), n, BuildStmt(b, s), m', b.temps,
      ExecStmt(world, s, env, m.trace, fuel), fuel)
  {
    hide Agrees, TempsKept, TableOk, Extends, DistinctBlocks, IsUserName, SameBelow, Emit;
    n, m' := 0, m;
    if Eval(world, s.e, env, m.trace).Val? {
      var c := BuildExpr(b.table, s.e, b.temps);
      m' := ValueExprCorrect(world, globals, b.table, s.e, b.temps, env, m);
      n := |c.insts|;
      RunCode(program, world, b.(temps := c.temps), c.insts, m, m');
      StoreAgrees(world, globals, env, c.insts, m, m', b.temps);
      TempsKeptBelow(m.env, m'.env, b.temps);
    }
  }

  lemma PrintCorrect(program: seq<SSABasicBlock>, world: World, globals: map<string, int>, b: Builder, s: Stmt,
      env: Env, m: Store, fuel: nat)
    returns (n: nat, m': Store)
    requires s.Print? && Ready(program, globals, b, env, m) && Lowerable(globals, s)
    requires Extends(BuildStmt(b, s).blocks, program)
    ensures Follows(program, world, globals, At(b, m), n, BuildStmt(b, s), m', b.temps,
      ExecStmt(world, s, env, m.trace, fuel), fuel)
  {
    hide Agrees, TempsKept, TableOk, Extends, DistinctBlocks, IsUserName, SameBelow, Emit;
    n, m' := 0, m;
    if Eval(world, s.e, env, m.trace).Val? {
      var c := BuildExpr(b.table, s.e, b.temps);
      var m1 := ValueExprCorrect(world, globals, b.table, s.e, b.temps, env, m);
      StoreAgrees(world, globals, env, c.insts, m, m1, b.temps);
      TempsKeptBelow(m.env, m1.env, b.temps);
      m' := PrintRuns(world, c.insts, c.value, m, m1);
      var insts := c.insts + [SSAInstruction(SSAOp.Call, "", [Str(PRINT_NUM), c.value])];
      n := |insts|;
      RunCode(program, world, b.(temps := c.temps), insts, m, m');
    }
  }

  lemma PrintRuns(world: World, insts: seq<SSAInstruction>, v: SSAValue, m: Store, m1: Store) returns (m': Store)
    requires Straight(insts) && ExecAll(world, insts, m) == Some(m1)
    ensures var code := insts + [SSAInstruction(SSAOp.Call, "", [Str(PRINT_NUM), v])];
      Straight(code) && ExecAll(world, code, m) == Some(m')
    ensures m'.env == m1.env && m'.trace == m1.trace + [Event(PRINT_NUM, [Value(v, m1.env)])]
  {
    var inst := SSAInstruction(SSAOp.Call, "", [Str(PRINT_NUM), v]);
    assert inst.operands[1..] == [v];
    assert Values([v], m1.env) == [Value(v, m1.env)];
    m' := m1.(trace := m1.trace + [Event(PRINT_NUM, [Value(v, m1.env)])]);
    assert Exec(world, inst, m1) == Some(m');
    hide Exec;
    ExecOne(world, inst, m1);
    ExecAllAppend(world, insts, [inst], m);
  }

  lemma AssignRuns(world: World, insts: seq<SSAInstruction>, inst: SSAInstruction, m: Store, m1: Store, v: int)
      returns (m': Store)
    requires Straight(insts) && ExecAll(world, insts, m) == Some(m1) && IsStraight(inst.op)
    requires Exec(world, inst, m1) == Some(m1.(env := Write(m1.env, inst.result, v)))
    ensures Straight(insts + [inst]) && ExecAll(world, insts + [inst], m) == Some(m')
    ensures m' == m1.(env := Write(m1.env, inst.result, v))
  {
    hide Exec;
    m' := m1.(env := Write(m1.env, inst.result, v));
    ExecOne(world, inst, m1);
    ExecAllAppend(world, insts, [inst], m);
  }

  lemma AssignInstExec(world: World, x: string, op: AssignOperator, v: SSAValue, m: Store, result: int)
    requires ApplyAssign(op, Read(m.env, x), Value(v, m.env)) == Some(result)
    ensures IsStraight(AssignInst(x, op, v).op) && AssignInst(x, op, v).result == x
    ensures Exec(world, AssignInst(x, op, v), m) == Some(m.(env := Write(m.env, x, result)))
  {
    hide Arith, AssignOp;
    if !op.Set? { AssignmentRight(op, Read(m.env, x), Value(v, m.env)); }
  }

  lemma AssignCorrect(program: seq<SSABasicBlock>, world: World, globals: map<string, int>, b: Builder, s: Stmt,
      env: Env, m: Store, fuel: nat)
    returns (n: nat, m': Store)
    requires s.VarAssign? && Ready(program, globals, b, env, m) && Lowerable(globals, s)
    requires Extends(BuildStmt(b, s).blocks, program)
    ensures Follows(program, world, globals, At(b, m), n, BuildStmt(b, s), m', b.temps,
      ExecStmt(world, s, env, m.trace, fuel), fuel)
  {
    hide TempsKept, TableOk, Extends, SameBelow, Emit, Arith, Exec, AssignInst, ApplyAssign;
    n, m' := 0, m;
    var r := ExecStmt(world, s, env, m.trace, fuel);
    if r.Normal? {
      var x := s.name;
      var c := BuildExpr(b.table, s.value, b.temps);
      var m1 := ValueExprCorrect(world, globals, b.table, s.value, b.temps, env, m);
      StoreAgrees(world, globals, env, c.insts, m, m1, b.temps);
      assert Read(env, x) == Read(m1.env, x);
      var v := Read(r.env, x);
      AssignInstExec(world, x, s.op, c.value, m1, v);
      m' := AssignRuns(world, c.insts, AssignInst(x, s.op, c.value), m, m1, v);
      AssignAgrees(globals, env, m1.env, x, v);
      hide Agrees;
      assert r.env == env[x := v];
      TempsKeptBelow(m.env, m1.env, b.temps);
      AssignKeepsTemps(m1.env, x, v, b.temps);
      TempsKeptTrans(m.env, m1.env, m'.env, b.temps, b.temps);
      var insts := c.insts + [AssignInst(x, s.op, c.value)];
      n := |insts|;
      RunCode(program, world, b.(temps := c.temps, table := b.table[x := Var(x)]), insts, m, m');
    }
  }

  lemma ExitsRun(world: World, isNaked: bool, insts: seq<SSAInstruction>, m: Store, m': Store)
    requires Straight(insts) && ExecAll(world, insts, m) == Some(m')
    ensures Straight(insts + RegionExits(isNaked)) && ExecAll(world, insts + RegionExits(isNaked), m) == Some(m')
  {
    if !isNaked { ExecOne(world, SSAInstruction(RegionExit, "", []), m'); }
    ExecAllAppend(world, insts, RegionExits(isNaked), m);
  }

  lemma ReturnCorrect(program: seq<SSABasicBlock>, world: World, globals: map<string, int>, b: Builder, s: Stmt,
      env: Env, m: Store, fuel: nat)
    returns (n: nat, m': Store)
    requires s.Return? && Ready(program, globals, b, env, m) && Lowerable(globals, s)
    requires Extends(BuildStmt(b, s).blocks, program)
    ensures Follows(program, world, globals, At(b, m), n, BuildStmt(b, s), m', b.temps,
      ExecStmt(world, s, env, m.trace, fuel), fuel)
  {
    hide Agrees, TempsKept, TableOk, Extends, DistinctBlocks, IsUserName, SameBelow, Emit, RegionExits, Run, ExecAll;
    n, m' := 0, m;
    if s.result == None {
      ComputesNothing(world, m, b.temps);
      n := ReturnRuns(program, world, b, [], Num(0), m, m', b.temps);
    } else if Eval(world, s.result.value, env, m.trace).Val? {
      var c := BuildExpr(b.table, s.result.value, b.temps);
      m' := ValueExprCorrect(world, globals, b.table, s.result.value, b.temps, env, m);
      n := ReturnRuns(program, world, b, c.insts, c.value, m, m', c.temps);
    }
  }

  lemma ReturnRuns(program: seq<SSABasicBlock>, world: World, b: Builder, insts: seq<SSAInstruction>, v: SSAValue,
      m: Store, m': Store, temps: nat)
    returns (n: nat)
    requires |b.blocks| > 0 && Straight(insts) && ExecAll(world, insts, m) == Some(m')
    requires Extends(Emit(b.(temps := temps),
      insts + RegionExits(b.isNaked) + [SSAInstruction(SSAOp.Return, "", [v])]).blocks, program)
    ensures Run(program, world, At(b, m), n) == Halted(m'.trace, Value(v, m'.env))
  {
    hide Extends, Emit, RegionExits, Run, ExecAll;
    ExitsRun(world, b.isNaked, insts, m, m');
    RunReturn(program, world, b.(temps := temps), insts + RegionExits(b.isNaked), v, m, m');
    n := |insts + RegionExits(b.isNaked)| + 1;
  }

  // ----- statements with control flow

  /** A branch that ends in a jump to block t, where the next block has been opened. */
  lemma JumpOn(program: seq<SSABasicBlock>, world: World, globals: map<string, int>, c: Config, n: nat,
               built: Builder, m: Store, temps: nat, r: Result, fuel: nat, t: nat, end: Builder)
    returns (n': nat)
    requires |built.blocks| > 0 && |end.blocks| > 0 && t < |program| && DistinctBlocks(program)
    requires Follows(program, world, globals, c, n, built, m, temps, r, fuel)
    requires Extends(Emit(built, [Goto(program[t].name)]).blocks, program)
    requires At(end, m) == Config(t, 0, m)
    ensures Follows(program, world, globals, c, n', end, m, temps, r, fuel)
    ensures n' >= n && (!r.Normal? ==> n' == n)
    ensures r.Normal? ==> Run(program, world, c, n') == Running(Config(t, 0, m))
  {
    hide Agrees, TempsKept, Extends, Emit, DistinctBlocks;
    n' := n;
    if r.Normal? {
      assert [] + [Goto(program[t].name)] == [Goto(program[t].name)];
      RunGoto(program, world, built, [], m, m, t);
      RunCompose(program, world, c, n, 1);
      n' := n + 1;
    }
  }

  /** Where the builder opens the two branches of a conditional. */
  function ThenOpen(b: Builder, s: Stmt): (r: Builder)
    requires |b.blocks| > 0 && s.If?
    ensures |r.blocks| > 0 && r.temps >= b.temps
  {
    OpenBlock(IfTested(b, s.cond), ThenName(b))
  }

  function ElseOpen(b: Builder, s: Stmt): (r: Builder)
    requires |b.blocks| > 0 && s.If?
    ensures |r.blocks| > 0 && r.temps >= b.temps
  {
    OpenBlock(IfThen(b, s), ElseName(b))
  }

  lemma IfTest(program: seq<SSABasicBlock>, world: World, globals: map<string, int>, b: Builder, s: Stmt, env: Env,
      m: Store)
    returns (n1: nat, m1: Store)
    requires s.If? && Ready(program, globals, b, env, m) && IsCondition(s.cond)
    requires Extends(BuildStmt(b, s).blocks, program) && Eval(world, s.cond, env, m.trace).Val?
    ensures var v := Eval(world, s.cond, env, m.trace);
      && Run(program, world, At(b, m), n1) == Running(At(if v.v != 0 then ThenOpen(b, s) else ElseOpen(b, s), m1))
      && m1.trace == v.trace && Agrees(globals, env, m1.env) && TempsKept(m.env, m1.env, b.temps)
  {
    hide Agrees, TempsKept, TableOk, Extends, DistinctBlocks, IsUserName, SameBelow, Emit, IsCondition, BuildStmt, Eval;
    BuildIfIs(b, s);
    BeforeOpen(IfElse(b, s), MergeName(b), program);
    BeforeElse(b, s, program);
    BeforeOpen(IfThen(b, s), ElseName(b), program);
    BeforeThen(b, s, program);
    BeforeOpen(IfTested(b, s.cond), ThenName(b), program);
    hide IfThen, IfElse;
    var c := BuildExpr(b.table, s.cond, b.temps);
    m1 := ConditionCorrect(world, globals, b.table, s.cond, b.temps, env, m);
    StoreAgrees(world, globals, env, c.insts, m, m1, b.temps);
    TempsKeptBelow(m.env, m1.env, b.temps);
    RunFork(program, world, b.(temps := c.temps, labels := b.labels + 3), c.insts, c.value, m, m1,
            |IfTested(b, s.cond).blocks|, |IfThen(b, s).blocks|);
    n1 := |c.insts| + 1;
  }

  lemma BuildIfIs(b: Builder, s: Stmt)
    requires |b.blocks| > 0 && s.If?
    ensures BuildStmt(b, s) == OpenBlock(IfElse(b, s), MergeName(b))
  {
  }

  lemma ExecIfIs(world: World, s: Stmt, env: Env, trace: seq<Event>, fuel: nat)
    requires s.If?
    ensures var v := Eval(world, s.cond, env, trace);
      ExecStmt(world, s, env, trace, fuel) ==
      if v.EvalFault? then StmtFault
      else ExecStmt(world, if v.v != 0 then s.thenBranch else s.elseBranch, env, v.trace, fuel)
  {
  }

  lemma ExecWhileIs(world: World, c: Expr, body: Stmt, env: Env, trace: seq<Event>, fuel: nat)
    ensures fuel == 0 ==> ExecWhile(world, c, body, env, trace, fuel) == OutOfFuel(trace)
    ensures fuel > 0 ==>
      var v := Eval(world, c, env, trace);
      ExecWhile(world, c, body, env, trace, fuel) ==
      if v.EvalFault? then StmtFault
      else if v.v == 0 then Normal(env, v.trace)
      else
        var r := ExecStmt(world, body, env, v.trace, fuel - 1);
        if r.Normal? then ExecWhile(world, c, body, r.env, r.trace, fuel - 1) else r
  {
  }

  /** A branch of a conditional, from its opening to the merge block. */
  lemma {:induction false} BranchCorrect(program: seq<SSABasicBlock>, world: World, globals: map<string, int>,
      inner: Builder, s: Stmt, env: Env, m: Store, fuel: nat, t: nat, end: Builder)
    returns (n: nat, m': Store)
    requires Ready(program, globals, inner, env, m) && Lowerable(globals, s)
    requires |end.blocks| == t + 1 && t < |program| && end.blocks[t].instructions == []
    requires Extends(Emit(BuildStmt(inner, s), [Goto(program[t].name)]).blocks, program)
    ensures Follows(program, world, globals, At(inner, m), n, end, m', inner.temps,
      ExecStmt(world, s, env, m.trace, fuel), fuel)
    decreases fuel, s, 3
  {
    hide Agrees, TempsKept, TableOk, Extends, DistinctBlocks, IsUserName, Emit, Supported, ExecStmt, BuildStmt, Follows;
    BeforeEmit(BuildStmt(inner, s), [Goto(program[t].name)], program);
    n, m' := StmtCorrect(program, world, globals, inner, s, env, m, fuel);
    n := JumpOn(program, world, globals, At(inner, m), n, BuildStmt(inner, s), m', inner.temps,
                ExecStmt(world, s, env, m.trace, fuel), fuel, t, end);
  }

  lemma IfShape(program: seq<SSABasicBlock>, globals: map<string, int>, b: Builder, s: Stmt)
    requires |b.blocks| > 0 && s.If? && Extends(BuildStmt(b, s).blocks, program)
    requires TableOk(globals, b.table) && Lowerable(globals, s)
    ensures BuildStmt(b, s) == OpenBlock(IfElse(b, s), MergeName(b))
    ensures |IfElse(b, s).blocks| < |program| && program[|IfElse(b, s).blocks|].name == MergeName(b)
    ensures Extends(Emit(BuildStmt(ThenOpen(b, s), s.thenBranch), [Goto(MergeName(b))]).blocks, program)
    ensures Extends(Emit(BuildStmt(ElseOpen(b, s), s.elseBranch), [Goto(MergeName(b))]).blocks, program)
    ensures TableOk(globals, ThenOpen(b, s).table) && TableOk(globals, ElseOpen(b, s).table)
    ensures Lowerable(globals, s.thenBranch) && Lowerable(globals, s.elseBranch) && IsCondition(s.cond)
  {
    hide Extends, TableOk;
    BuildIfIs(b, s);
    StmtTable(globals, ThenOpen(b, s), s.thenBranch);
    BeforeOpen(IfElse(b, s), MergeName(b), program);
    BeforeElse(b, s, program);
  }

  lemma {:induction false} IfCorrect(program: seq<SSABasicBlock>, world: World, globals: map<string, int>, b: Builder,
      s: Stmt, env: Env, m: Store, fuel: nat)
    returns (n: nat, m': Store)
    requires s.If? && Ready(program, globals, b, env, m) && Lowerable(globals, s)
    requires Extends(BuildStmt(b, s).blocks, program)
    ensures Follows(program, world, globals, At(b, m), n, BuildStmt(b, s), m', b.temps,
      ExecStmt(world, s, env, m.trace, fuel), fuel)
    decreases fuel, s, 1
  {
    hide Agrees, TempsKept, TableOk, Extends, DistinctBlocks, IsUserName, IsCondition, BuildStmt, Eval, Emit, IfElse,
    ThenOpen, ElseOpen, Follows, ExecStmt, Run,
         Supported, Assigned;
    IfShape(program, globals, b, s);
    ExecIfIs(world, s, env, m.trace, fuel);
    n, m' := 0, m;
    var v := Eval(world, s.cond, env, m.trace);
    if v.EvalFault? {
      FollowsFault(program, world, globals, At(b, m), n, BuildStmt(b, s), m', b.temps, fuel);
    } else {
      var n1, m1 := IfTest(program, world, globals, b, s, env, m);
      var inner, branch := if v.v != 0 then ThenOpen(b, s) else ElseOpen(b, s), if v.v != 0 then s.thenBranch
      else s.elseBranch;
      n, m' := BranchCorrect(program, world, globals, inner, branch, env, m1, fuel, |IfElse(b, s).blocks|,
        BuildStmt(b, s));
      Prepend(program, world, globals, At(b, m), n1, At(inner, m1), n, BuildStmt(b, s), m', b.temps, inner.temps,
              ExecStmt(world, branch, env, m1.trace, fuel), fuel, fuel);
      n := n1 + n;
    }
  }

  lemma {:induction false} WhileCorrect(program: seq<SSABasicBlock>, world: World, globals: map<string, int>,
      b: Builder, s: Stmt, env: Env, m: Store, fuel: nat)
    returns (n: nat, m': Store)
    requires s.While? && Ready(program, globals, b, env, m) && Lowerable(globals, s)
    requires Extends(BuildStmt(b, s).blocks, program)
    ensures Follows(program, world, globals, At(b, m), n, BuildStmt(b, s), m', b.temps,
      ExecStmt(world, s, env, m.trace, fuel), fuel)
    decreases fuel, s, 1
  {
    hide Agrees, TempsKept, TableOk, Extends, DistinctBlocks, IsUserName, SameBelow, Emit, IsCondition;
    var end := OpenBlock(WhileLooped(b, s), WhileExit(b));
    BeforeOpen(WhileLooped(b, s), WhileExit(b), program);
    BeforeWhileLoop(b, s, program);
    BeforeWhileTested(b, s.cond, program);
    var b1 := b.(labels := b.labels + 3);
    BeforeOpen(Emit(b1, [Goto(WhileHead(b))]), WhileHead(b), program);
    assert [] + [Goto(WhileHead(b))] == [Goto(WhileHead(b))];
    RunGoto(program, world, b1, [], m, m, |b.blocks|);
    n, m' := WhileLoop(program, world, globals, b, s, env, m, fuel);
    TempsKeptSame(m.env, b.temps);
    Prepend(program, world, globals, At(b, m), 1, At(WhileEntered(b), m), n, end, m', b.temps, b.temps,
            ExecStmt(world, s, env, m.trace, fuel), fuel, fuel);
    n := 1 + n;
  }

  lemma TempsKeptSame(env: Env, k: nat)
    ensures TempsKept(env, env, k)
  {
  }

  /** A loop whose body did not end normally ends the same way. */
  lemma CutShort(program: seq<SSABasicBlock>, world: World, globals: map<string, int>, c0: Config, n1: nat, c1: Config,
      n2: nat,
                 built: Builder, end: Builder, m': Store, temps: nat, inner: nat, r: Result, fuel: nat)
    requires |built.blocks| > 0 && |end.blocks| > 0 && fuel > 0 && n1 >= 1 && !r.Normal? && temps <= inner
    requires Run(program, world, c0, n1) == Running(c1) && TempsKept(c0.store.env, c1.store.env, temps)
    requires Follows(program, world, globals, c1, n2, built, m', inner, r, fuel - 1)
    ensures Follows(program, world, globals, c0, n1 + n2, end, m', temps, r, fuel)
  {
    hide TempsKept, Agrees, Run;
    Ended(program, world, globals, c1, n2, built, end, m', inner, r, fuel - 1);
    hide Follows;
    Prepend(program, world, globals, c0, n1, c1, n2, end, m', temps, inner, r, fuel, fuel - 1);
  }

  /** Once around a loop whose body ended normally: the rest of the loop follows. */
  lemma GoAround(program: seq<SSABasicBlock>, world: World, globals: map<string, int>, c0: Config, n1: nat, c1: Config,
      n2: nat,
                 c2: Config, n3: nat, end: Builder, m': Store, temps: nat, temps': nat, r: Result, fuel: nat)
    requires |end.blocks| > 0 && fuel > 0 && n1 >= 1
    requires Run(program, world, c0, n1) == Running(c1) && Run(program, world, c1, n2) == Running(c2)
    requires TempsKept(c0.store.env, c1.store.env, temps) && TempsKept(c1.store.env, c2.store.env, temps')
    requires temps <= temps' && Follows(program, world, globals, c2, n3, end, m', temps, r, fuel - 1)
    ensures Follows(program, world, globals, c0, n1 + n2 + n3, end, m', temps, r, fuel)
  {
    hide TempsKept, Agrees, Follows, Run;
    RunCompose(program, world, c0, n1, n2);
    TempsKeptTrans(c0.store.env, c1.store.env, c2.store.env, temps, temps');
    Prepend(program, world, globals, c0, n1 + n2, c2, n3, end, m', temps, temps, r, fuel, fuel - 1);
  }

  lemma BuildWhileIs(b: Builder, s: Stmt)
    requires |b.blocks| > 0 && s.While?
    ensures BuildStmt(b, s) == OpenBlock(WhileLooped(b, s), WhileExit(b))
  {
  }

  function WhileOpen(b: Builder, s: Stmt): (r: Builder)
    requires |b.blocks| > 0 && s.While?
    ensures |r.blocks| > 0 && r.temps >= b.temps
  {
    OpenBlock(WhileTested(b, s.cond), WhileInner(b))
  }

  lemma WhileTest(program: seq<SSABasicBlock>, world: World, globals: map<string, int>, b: Builder, s: Stmt, env: Env,
      m: Store)
    returns (n1: nat, m1: Store)
    requires s.While? && Ready(program, globals, b, env, m) && IsCondition(s.cond)
    requires Extends(BuildStmt(b, s).blocks, program) && Eval(world, s.cond, env, m.trace).Val?
    ensures var v := Eval(world, s.cond, env, m.trace);
      && n1 >= 1
      && Run(program, world, At(WhileEntered(b), m), n1) ==
         Running(At(if v.v != 0 then WhileOpen(b, s) else BuildStmt(b, s), m1))
      && m1.trace == v.trace && Agrees(globals, env, m1.env) && TempsKept(m.env, m1.env, b.temps)
  {
    hide Agrees, TempsKept, TableOk, Extends, DistinctBlocks, IsUserName, SameBelow, Emit, IsCondition, BuildStmt, Eval;
    BuildWhileIs(b, s);
    BeforeOpen(WhileLooped(b, s), WhileExit(b), program);
    BeforeWhileLoop(b, s, program);
    BeforeOpen(WhileTested(b, s.cond), WhileInner(b), program);
    hide WhileLooped;
    var c := BuildExpr(b.table, s.cond, b.temps);
    m1 := ConditionCorrect(world, globals, b.table, s.cond, b.temps, env, m);
    StoreAgrees(world, globals, env, c.insts, m, m1, b.temps);
    TempsKeptBelow(m.env, m1.env, b.temps);
    RunFork(program, world, WhileEntered(b).(temps := c.temps), c.insts, c.value, m, m1,
            |WhileTested(b, s.cond).blocks|, |WhileLooped(b, s).blocks|);
    n1 := |c.insts| + 1;
  }

  lemma WhileShape(program: seq<SSABasicBlock>, b: Builder, s: Stmt)
    requires |b.blocks| > 0 && s.While? && Extends(BuildStmt(b, s).blocks, program)
    ensures |b.blocks| < |program| && program[|b.blocks|].name == WhileHead(b)
    ensures Extends(Emit(BuildStmt(WhileOpen(b, s), s.body), [Goto(WhileHead(b))]).blocks, program)
    ensures |WhileEntered(b).blocks| == |b.blocks| + 1 && WhileEntered(b).blocks[|b.blocks|].instructions == []
    ensures WhileOpen(b, s).table == b.table
    ensures Supported(s) ==> Supported(s.body)
    ensures Assigned(s.body) == Assigned(s)
  {
    hide Extends;
    BeforeOpen(WhileLooped(b, s), WhileExit(b), program);
    BeforeWhileLoop(b, s, program);
    BeforeWhileTested(b, s.cond, program);
    BeforeOpen(Emit(b.(labels := b.labels + 3), [Goto(WhileHead(b))]), WhileHead(b), program);
  }

  lemma {:induction false} WhileLoop(program: seq<SSABasicBlock>, world: World, globals: map<string, int>, b: Builder,
      s: Stmt, env: Env, m: Store, fuel: nat)
    returns (n: nat, m': Store)
    requires s.While? && Ready(program, globals, b, env, m) && Lowerable(globals, s)
    requires Extends(BuildStmt(b, s).blocks, program)
    ensures Follows(program, world, globals, At(WhileEntered(b), m), n, BuildStmt(b, s), m', b.temps,
                    ExecWhile(world, s.cond, s.body, env, m.trace, fuel), fuel)
    decreases fuel, s.body, 4
  {
    hide Agrees, TempsKept, TableOk, Extends, DistinctBlocks, IsUserName, Emit, IsCondition, BuildStmt, WhileEntered,
      WhileOpen, Eval, ExecStmt, ExecWhile, Follows;
    WhileShape(program, b, s);
    ExecWhileIs(world, s.cond, s.body, env, m.trace, fuel);
    n, m' := 0, m;
    var c0, inner, end := At(WhileEntered(b), m), WhileOpen(b, s), BuildStmt(b, s);
    var v := Eval(world, s.cond, env, m.trace);
    if fuel == 0 {
      FollowsCut(program, world, globals, c0, end, m', b.temps);
    } else if v.EvalFault? {
      FollowsFault(program, world, globals, c0, n, end, m', b.temps, fuel);
    } else {
      var n1, m1 := WhileTest(program, world, globals, b, s, env, m);
      if v.v == 0 {
        FollowsNormal(program, world, globals, c0, n1, end, m1, b.temps, env, fuel);
        n, m' := n1, m1;
      } else {
        n, m' := LoopOnce(program, world, globals, b, s, env, m, fuel, n1, m1);
      }
    }
  }

  lemma BodyEnds(program: seq<SSABasicBlock>, world: World, globals: map<string, int>, c: Config, n: nat, end: Builder,
                 m': Store, temps: nat, r: Result, fuel: nat)
    requires |end.blocks| > 0 && r.Normal? && Follows(program, world, globals, c, n, end, m', temps, r, fuel)
    ensures Run(program, world, c, n) == Running(At(end, m')) && m'.trace == r.trace
    ensures Agrees(globals, r.env, m'.env) && TempsKept(c.store.env, m'.env, temps)
  {
  }

  /** One iteration whose condition holds, and what follows it. */
  lemma {:induction false} LoopOnce(program: seq<SSABasicBlock>, world: World, globals: map<string, int>, b: Builder,
      s: Stmt, env: Env, m: Store, fuel: nat, n1: nat, m1: Store)
    returns (n: nat, m': Store)
    requires s.While? && Ready(program, globals, b, env, m) && Lowerable(globals, s) && fuel > 0 && n1 >= 1
    requires Extends(BuildStmt(b, s).blocks, program)
    requires var v := Eval(world, s.cond, env, m.trace);
      && v.Val? && v.v != 0 && m1.trace == v.trace
      && Run(program, world, At(WhileEntered(b), m), n1) == Running(At(WhileOpen(b, s), m1))
    requires Agrees(globals, env, m1.env) && TempsKept(m.env, m1.env, b.temps)
    ensures Follows(program, world, globals, At(WhileEntered(b), m), n, BuildStmt(b, s), m', b.temps,
                    ExecWhile(world, s.cond, s.body, env, m.trace, fuel), fuel)
    decreases fuel, s.body, 3
  {
    hide Agrees, TempsKept, TableOk, Extends, DistinctBlocks, IsUserName, Emit, IsCondition, BuildStmt, WhileEntered,
      WhileOpen, Eval, ExecStmt, ExecWhile, Follows, Run, Supported, Assigned;
    WhileShape(program, b, s);
    ExecWhileIs(world, s.cond, s.body, env, m.trace, fuel);
    var c0, inner, end := At(WhileEntered(b), m), WhileOpen(b, s), BuildStmt(b, s);
    var r := ExecStmt(world, s.body, env, m1.trace, fuel - 1);
    var n2, m2 := BranchCorrect(program, world, globals, inner, s.body, env, m1, fuel - 1, |b.blocks|, WhileEntered(b));
    if r.Normal? {
      BodyEnds(program, world, globals, At(inner, m1), n2, WhileEntered(b), m2, inner.temps, r, fuel - 1);
      var n3;
      n3, m' := WhileLoop(program, world, globals, b, s, r.env, m2, fuel - 1);
      GoAround(program, world, globals, c0, n1, At(inner, m1), n2, At(WhileEntered(b), m2), n3, end, m', b.temps,
        inner.temps,
               ExecWhile(world, s.cond, s.body, r.env, m2.trace, fuel - 1), fuel);
      n := n1 + n2 + n3;
    } else {
      CutShort(program, world, globals, c0, n1, At(inner, m1), n2, WhileEntered(b), end, m2, b.temps, inner.temps, r,
        fuel);
      n, m' := n1 + n2, m2;
    }
  }

  // ----- range loops

  lemma ValueShape(table: Table, e: Expr, temps: nat)
    requires !e.VarRef?
    ensures var c := BuildExpr(table, e, temps);
      c.value.Num? || exists t: nat :: t < c.temps && c.value == Var(Temp(t))
  {
    var c := BuildExpr(table, e, temps);
    match e
    case FuncCall(_, _) => assert temps < c.temps && c.value == Var(Temp(temps));
    case Binary(_, a, b) =>
      var t := BuildExpr(table, b, BuildExpr(table, a, temps).temps).temps;
      if !c.value.Num? { assert t < c.temps && c.value == Var(Temp(t)); }
    case _ =>
  }

  function ForOpen(b: Builder, s: Stmt): (r: Builder)
    requires |b.blocks| > 0 && s.For?
    ensures |r.blocks| > 0 && r.temps >= b.temps
  {
    OpenBlock(ForTested(b, s), ForInner(b))
  }

  /** The value holding the upper bound is not changed by the body, by the loop variable, or by
      temporaries of the body. */
  lemma EndKept(globals: map<string, int>, b: Builder, s: Stmt, env: Env, env': Env, menv: Env, menv': Env)
    requires |b.blocks| > 0 && s.For? && TableOk(globals, ForTable(b, s)) && Supported(s)
    requires Agrees(globals, env, menv) && Agrees(globals, env', menv')
    requires TempsKept(menv, menv', ForEnd(b, s).temps)
    requires s.end.VarRef? ==> Read(env', s.end.name) == Read(env, s.end.name)
    ensures Value(ForEnd(b, s).value, menv') == Value(ForEnd(b, s).value, menv)
  {
    hide IsUserName;
    if s.end.VarRef? {
      assert ForEnd(b, s).value == Lookup(ForTable(b, s), s.end.name);
    } else {
      ValueShape(ForTable(b, s), s.end, ForStart(b, s).temps);
    }
  }

  /** The loop before its test: the variable holds its value, the bound its own. */
  ghost predicate Looping(globals: map<string, int>, b: Builder, s: Stmt, env: Env, m: Store, end: int)
    requires |b.blocks| > 0 && s.For?
  {
    Agrees(globals, env, m.env) && Value(ForEnd(b, s).value, m.env) == end
  }

  lemma ForShape(program: seq<SSABasicBlock>, globals: map<string, int>, b: Builder, s: Stmt)
    requires |b.blocks| > 0 && s.For? && Extends(BuildStmt(b, s).blocks, program)
    requires TableOk(globals, b.table) && Lowerable(globals, s)
    ensures |b.blocks| < |program| && program[|b.blocks|].name == ForHead(b)
    ensures |ForTested(b, s).blocks| < |program| && program[|ForTested(b, s).blocks|].name == ForInner(b)
    ensures |ForLooped(b, s).blocks| < |program| && program[|ForLooped(b, s).blocks|].name == ForExit(b)
    ensures BuildStmt(b, s) == OpenBlock(ForLooped(b, s), ForExit(b))
    ensures Extends(ForTested(b, s).blocks, program)
    ensures Extends(Emit(BuildStmt(ForOpen(b, s), s.body), ForTail(b, s)).blocks, program)
    ensures Extends(Emit(ForFirst(b, s), ForCode(b, s)).blocks, program)
    ensures |ForEntered(b, s).blocks| == |b.blocks| + 1 && ForEntered(b, s).blocks[|b.blocks|].instructions == []
    ensures ForOpen(b, s).table == ForTable(b, s) && TableOk(globals, ForTable(b, s))
    ensures ForOpen(b, s).temps == ForEnd(b, s).temps + 1 && ForEntered(b, s).temps == ForEnd(b, s).temps + 1
    ensures Lowerable(globals, s.body) && Supported(s)
      && (s.end.VarRef? ==> s.end.name !in Assigned(s.body) && s.end.name != s.v)
  {
    hide Extends, TableOk;
    TableAssign(globals, b.table, s.v);
    BeforeOpen(ForLooped(b, s), ForExit(b), program);
    BeforeForLoop(b, s, program);
    BeforeOpen(ForTested(b, s), ForInner(b), program);
    BeforeForTested(b, s, program);
    BeforeOpen(Emit(ForFirst(b, s), ForCode(b, s)), ForHead(b), program);
  }

  function ForFirst(b: Builder, s: Stmt): Builder
    requires s.For?
  {
    b.(temps := ForEnd(b, s).temps + 1, labels := b.labels + 3, table := ForTable(b, s))
  }

  function ForCode(b: Builder, s: Stmt): seq<SSAInstruction>
    requires s.For?
  {
    ForStart(b, s).insts + ForEnd(b, s).insts + [SSAInstruction(Copy, s.v, [ForStart(b, s).value])] + [Goto(ForHead(b))]
  }

  function ForTail(b: Builder, s: Stmt): seq<SSAInstruction>
    requires s.For?
  {
    [SSAInstruction(Add, s.v, [Var(s.v), Num(1)])] + [Goto(ForHead(b))]
  }

  /** Both bounds computed and the variable set. */
  lemma ForBounds(world: World, globals: map<string, int>, b: Builder, s: Stmt, env: Env, m: Store)
    returns (m': Store)
    requires |b.blocks| > 0 && s.For? && TableOk(globals, ForTable(b, s)) && Agrees(globals, env, m.env)
      && Lowerable(globals, s)
    requires Eval(world, s.start, env, m.trace).Val?
    requires Eval(world, s.end, env, Eval(world, s.start, env, m.trace).trace).Val?
    ensures var a := Eval(world, s.start, env, m.trace);
      var z := Eval(world, s.end, env, a.trace);
      var code := ForStart(b, s).insts + ForEnd(b, s).insts + [SSAInstruction(Copy, s.v, [ForStart(b, s).value])];
      && Straight(code) && ExecAll(world, code, m) == Some(m') && m'.trace == z.trace
      && Looping(globals, b, s, env[s.v := a.v], m', z.v) && TempsKept(m.env, m'.env, b.temps)
  {
    hide Agrees, TempsKept, TableOk, SameBelow, Eval, Exec;
    var a, z := ForStart(b, s), ForEnd(b, s);
    var m1 := ValueExprCorrect(world, globals, ForTable(b, s), s.start, b.temps, env, m);
    StoreAgrees(world, globals, env, a.insts, m, m1, b.temps);
    var m2 := ValueExprCorrect(world, globals, ForTable(b, s), s.end, a.temps, env, m1);
    StoreAgrees(world, globals, env, z.insts, m1, m2, a.temps);
    ComputesThen(world, a.insts, z.insts, m, m1, m2, b.temps, a.temps);
    SettledKept(a.value, m1.env, m2.env, a.temps);
    var v := Value(a.value, m2.env);
    CopyExec(world, s.v, a.value, m2);
    m' := AssignRuns(world, a.insts + z.insts, SSAInstruction(Copy, s.v, [a.value]), m, m2, v);
    AssignAgrees(globals, env, m2.env, s.v, v);
    TempsKeptBelow(m.env, m2.env, b.temps);
    AssignKeepsTemps(m2.env, s.v, v, b.temps);
    AssignKeepsTemps(m2.env, s.v, v, z.temps);
    TempsKeptTrans(m.env, m2.env, m'.env, b.temps, b.temps);
    EndKept(globals, b, s, env, env[s.v := v], m2.env, m'.env);
  }

  lemma CopyExec(world: World, x: string, v: SSAValue, m: Store)
    ensures Exec(world, SSAInstruction(Copy, x, [v]), m) == Some(m.(env := Write(m.env, x, Value(v, m.env))))
  {
  }

  function ForCompare(b: Builder, s: Stmt): SSAInstruction
    requires s.For?
  {
    SSAInstruction(if s.inclusive then LessEqual
    else LessThan, Temp(ForEnd(b, s).temps), [Var(s.v), ForEnd(b, s).value])
  }

  /** The comparison of the variable with the bound. */
  lemma ForCompares(world: World, globals: map<string, int>, b: Builder, s: Stmt, env: Env, m: Store, end: int)
    returns (m1: Store)
    requires |b.blocks| > 0 && s.For? && TableOk(globals, ForTable(b, s)) && Lowerable(globals, s)
      && Looping(globals, b, s, env, m, end)
    ensures Straight([ForCompare(b, s)]) && ExecAll(world, [ForCompare(b, s)], m) == Some(m1)
    ensures m1.trace == m.trace && Looping(globals, b, s, env, m1, end) && TempsKept(m.env, m1.env, ForEnd(b, s).temps)
    ensures Read(m1.env, Temp(ForEnd(b, s).temps)) == Bool(InBounds(Read(env, s.v), end, s.inclusive))
  {
    assert Read(env, s.v) == Read(m.env, s.v);
    hide Agrees, TempsKept, TableOk, SameBelow;
    var z := ForEnd(b, s);
    var op := if s.inclusive then LessEqual else LessThan;
    m1 := ComputesBinary(world, op, z.temps, Var(s.v), z.value, m, Bool(InBounds(Read(m.env, s.v), end, s.inclusive)));
    TempsKeptBelow(m.env, m1.env, z.temps);
    StoreAgrees(world, globals, env, [ForCompare(b, s)], m, m1, z.temps);
    EndKept(globals, b, s, env, env, m.env, m1.env);
  }

  lemma ForTest(program: seq<SSABasicBlock>, world: World, globals: map<string, int>, b: Builder, s: Stmt, env: Env,
      m: Store, end: int)
    returns (n1: nat, m1: Store)
    requires s.For? && Ready(program, globals, b, env, m) && Lowerable(globals, s)
      && Looping(globals, b, s, env, m, end)
    requires Extends(BuildStmt(b, s).blocks, program)
    ensures n1 >= 1 && m1.trace == m.trace && Looping(globals, b, s, env, m1, end)
    ensures Run(program, world, At(ForEntered(b, s), m), n1) ==
            Running(At(if InBounds(Read(env, s.v), end, s.inclusive) then ForOpen(b, s) else BuildStmt(b, s), m1))
    ensures TempsKept(m.env, m1.env, ForEnd(b, s).temps)
  {
    hide Agrees, TempsKept, TableOk, Extends, DistinctBlocks, Emit, BuildStmt, ForLooped, ForEntered, Supported,
    Assigned, Lowerable,
         Looping, Run, ForTable, ForEnd, ExecAll, Straight, ForCode, ForFirst, ForTail, InBounds;
    ForShape(program, globals, b, s);
    m1 := ForCompares(world, globals, b, s, env, m, end);
    RunFork(program, world, ForEntered(b, s), [ForCompare(b, s)], Var(Temp(ForEnd(b, s).temps)), m, m1,
            |ForTested(b, s).blocks|, |ForLooped(b, s).blocks|);
    n1 := 2;
  }

  /** The code before the loop, run up to the test. */
  lemma ForSetup(program: seq<SSABasicBlock>, world: World, globals: map<string, int>, b: Builder, s: Stmt, env: Env,
      m: Store)
    returns (n: nat, m': Store)
    requires s.For? && Ready(program, globals, b, env, m) && Lowerable(globals, s)
    requires Extends(BuildStmt(b, s).blocks, program)
    requires Eval(world, s.start, env, m.trace).Val?
    requires Eval(world, s.end, env, Eval(world, s.start, env, m.trace).trace).Val?
    ensures var a := Eval(world, s.start, env, m.trace);
      var z := Eval(world, s.end, env, a.trace);
      && Run(program, world, At(b, m), n) == Running(At(ForEntered(b, s), m')) && m'.trace == z.trace
      && Looping(globals, b, s, env[s.v := a.v], m', z.v) && TempsKept(m.env, m'.env, b.temps)
  {
    hide Agrees, TempsKept, TableOk, Extends, DistinctBlocks, IsUserName, Emit, BuildStmt, ForEntered, Eval, Run,
    ForStart, ForEnd, ForTable, Lowerable, Looping,
         ExecAll, Straight;
    ForShape(program, globals, b, s);
    m' := ForBounds(world, globals, b, s, env, m);
    var code := ForStart(b, s).insts + ForEnd(b, s).insts + [SSAInstruction(Copy, s.v, [ForStart(b, s).value])];
    RunGoto(program, world, ForFirst(b, s), code, m, m', |b.blocks|);
    n := |code| + 1;
  }

  lemma {:induction false} ForCorrect(program: seq<SSABasicBlock>, world: World, globals: map<string, int>, b: Builder,
      s: Stmt, env: Env, m: Store, fuel: nat)
    returns (n: nat, m': Store)
    requires s.For? && Ready(program, globals, b, env, m) && Lowerable(globals, s)
    requires Extends(BuildStmt(b, s).blocks, program)
    ensures Follows(program, world, globals, At(b, m), n, BuildStmt(b, s), m', b.temps,
      ExecStmt(world, s, env, m.trace, fuel), fuel)
    decreases fuel, s, 1
  {
    hide Agrees, TempsKept, TableOk, Extends, DistinctBlocks, IsUserName, Emit, BuildStmt, ForEntered, Eval, ExecStmt,
    ExecFor, Follows, Run, ForStart, ForEnd,
         ForTable, Lowerable, Supported, Assigned, Looping, ExecAll, Straight, ForFirst, ForCode, ForTail, ForOpen,
         ForTested, ForLooped, BuildExpr,
         Read, Value, Wrap;
    ExecForIs(world, s, env, m.trace, fuel);
    n, m' := 0, m;
    var a := Eval(world, s.start, env, m.trace);
    if a.EvalFault? || Eval(world, s.end, env, a.trace).EvalFault? {
      FollowsFault(program, world, globals, At(b, m), n, BuildStmt(b, s), m', b.temps, fuel);
    } else {
      var z := Eval(world, s.end, env, a.trace);
      var n1, m1 := ForSetup(program, world, globals, b, s, env, m);
      LoopingParts(globals, b, s, env[s.v := a.v], m1, z.v);
      var n2;
      n2, m' := ForLoop(program, world, globals, b, s, env[s.v := a.v], m1, z.v, fuel);
      Prepend(program, world, globals, At(b, m), n1, At(ForEntered(b, s), m1), n2, BuildStmt(b, s), m', b.temps,
        b.temps,
              ExecFor(world, s.v, z.v, s.inclusive, s.body, env[s.v := a.v], m1.trace, fuel), fuel, fuel);
      n := n1 + n2;
    }
  }

  lemma ExecForIs(world: World, s: Stmt, env: Env, trace: seq<Event>, fuel: nat)
    requires s.For?
    ensures var a := Eval(world, s.start, env, trace);
      ExecStmt(world, s, env, trace, fuel) ==
      if a.EvalFault? then StmtFault
      else
        var z := Eval(world, s.end, env, a.trace);
        if z.EvalFault? then StmtFault
        else ExecFor(world, s.v, z.v, s.inclusive, s.body, env[s.v := a.v], z.trace, fuel)
  {
  }

  lemma ExecForStep(world: World, s: Stmt, end: int, env: Env, trace: seq<Event>, fuel: nat)
    requires s.For?
    ensures fuel == 0 ==> ExecFor(world, s.v, end, s.inclusive, s.body, env, trace, fuel) == OutOfFuel(trace)
    ensures fuel > 0 ==>
      ExecFor(world, s.v, end, s.inclusive, s.body, env, trace, fuel) ==
      if !InBounds(Read(env, s.v), end, s.inclusive) then Normal(env, trace)
      else
        var r := ExecStmt(world, s.body, env, trace, fuel - 1);
        if r.Normal?
        then ExecFor(world, s.v, end, s.inclusive, s.body, r.env[s.v := Wrap(Read(r.env, s.v) + 1)], r.trace, fuel - 1)
        else r
  {
  }

  lemma {:induction false} ForLoop(program: seq<SSABasicBlock>, world: World, globals: map<string, int>, b: Builder,
      s: Stmt, env: Env, m: Store, end: int, fuel: nat)
    returns (n: nat, m': Store)
    requires s.For? && Ready(program, globals, b, env, m) && Lowerable(globals, s)
      && Looping(globals, b, s, env, m, end)
    requires Extends(BuildStmt(b, s).blocks, program)
    ensures Follows(program, world, globals, At(ForEntered(b, s), m), n, BuildStmt(b, s), m', b.temps,
                    ExecFor(world, s.v, end, s.inclusive, s.body, env, m.trace, fuel), fuel)
    decreases fuel, s.body, 5
  {
    hide Agrees, TempsKept, TableOk, Extends, DistinctBlocks, IsUserName, Emit, BuildStmt, ForEntered, ForOpen,
      ExecStmt, ExecFor, Follows, Run, ForEnd, Looping;
    ExecForStep(world, s, end, env, m.trace, fuel);
    n, m' := 0, m;
    var c0 := At(ForEntered(b, s), m);
    if fuel == 0 {
      FollowsCut(program, world, globals, c0, BuildStmt(b, s), m', b.temps);
    } else {
      var n1, m1 := ForTest(program, world, globals, b, s, env, m, end);
      LoopingParts(globals, b, s, env, m1, end);
      TempsKeptLess(m.env, m1.env, b.temps, ForEnd(b, s).temps);
      if !InBounds(Read(env, s.v), end, s.inclusive) {
        FollowsNormal(program, world, globals, c0, n1, BuildStmt(b, s), m1, b.temps, env, fuel);
        n, m' := n1, m1;
      } else {
        n, m' := ForOnce(program, world, globals, b, s, env, m, end, fuel, n1, m1);
      }
    }
  }

  lemma LoopingParts(globals: map<string, int>, b: Builder, s: Stmt, env: Env, m: Store, end: int)
    requires |b.blocks| > 0 && s.For?
    ensures Looping(globals, b, s, env, m, end) <==>
      Agrees(globals, env, m.env) && Value(ForEnd(b, s).value, m.env) == end
  {
  }

  lemma TempsKeptLess(env: Env, env': Env, k: nat, l: nat)
    requires TempsKept(env, env', l) && k <= l
    ensures TempsKept(env, env', k)
  {
  }

  /** Counting the variable up, as machine code and as meaning. */
  lemma CountUp(world: World, globals: map<string, int>, x: string, env: Env, m: Store, k: nat)
    returns (m': Store)
    requires IsUserName(x) && x !in globals && Agrees(globals, env, m.env)
    ensures var inst := SSAInstruction(Add, x, [Var(x), Num(1)]);
      Straight([inst]) && ExecAll(world, [inst], m) == Some(m')
    ensures m'.trace == m.trace && Agrees(globals, env[x := Wrap(Read(env, x) + 1)], m'.env)
      && TempsKept(m.env, m'.env, k)
  {
    assert Read(env, x) == Read(m.env, x);
    var i := Wrap(Read(env, x) + 1);
    AssignAgrees(globals, env, m.env, x, i);
    AssignKeepsTemps(m.env, x, i, k);
    hide Agrees, TempsKept, Wrap;
    m' := m.(env := Write(m.env, x, i));
    var inst := SSAInstruction(Add, x, [Var(x), Num(1)]);
    assert Exec(world, inst, m) == Some(m');
    ExecOne(world, inst, m);
  }

  lemma LoopVariable(globals: map<string, int>, s: Stmt)
    requires s.For? && Lowerable(globals, s)
    ensures IsUserName(s.v) && s.v !in globals
  {
  }

  /** Where the jump at the end of the body goes. */
  lemma ForJumpBack(program: seq<SSABasicBlock>, globals: map<string, int>, b: Builder, s: Stmt, m: Store)
    requires |b.blocks| > 0 && s.For? && TableOk(globals, b.table) && Lowerable(globals, s)
    requires Extends(BuildStmt(b, s).blocks, program)
    ensures |b.blocks| < |program| && At(ForEntered(b, s), m) == Config(|b.blocks|, 0, m)
    ensures Extends(Emit(BuildStmt(ForOpen(b, s), s.body),
                         [SSAInstruction(Add, s.v, [Var(s.v), Num(1)])] + [Goto(program[|b.blocks|].name)]).blocks,
                           program)
    ensures IsUserName(s.v) && s.v !in globals
  {
    ForShape(program, globals, b, s);
    LoopVariable(globals, s);
  }

  /** After the body: the variable is counted up and control is back at the test. */
  lemma ForAdvance(program: seq<SSABasicBlock>, world: World, globals: map<string, int>, b: Builder, s: Stmt, env: Env,
      m: Store)
    returns (m': Store)
    requires |b.blocks| > 0 && s.For? && DistinctBlocks(program) && TableOk(globals, b.table) && Lowerable(globals, s)
    requires Agrees(globals, env, m.env) && Extends(BuildStmt(b, s).blocks, program)
    ensures var i := Wrap(Read(env, s.v) + 1);
      && Run(program, world, At(BuildStmt(ForOpen(b, s), s.body), m), 2) == Running(At(ForEntered(b, s), m'))
      && m'.trace == m.trace && Agrees(globals, env[s.v := i], m'.env) && TempsKept(m.env, m'.env, ForEnd(b, s).temps)
  {
    hide Agrees, TempsKept, TableOk, Extends, DistinctBlocks, IsUserName, Emit, BuildStmt, ForEntered, ForOpen, ForEnd,
    Run, Wrap,
         ExecAll, Straight, Lowerable, Read, At;
    ForJumpBack(program, globals, b, s, m);
    m' := CountUp(world, globals, s.v, env, m, ForEnd(b, s).temps);
    ForJumpBack(program, globals, b, s, m');
    RunGoto(program, world, BuildStmt(ForOpen(b, s), s.body), [SSAInstruction(Add, s.v, [Var(s.v), Num(1)])], m, m',
      |b.blocks|);
  }

  /** What the body's run needs to know about the loop's code. */
  lemma ForBody(program: seq<SSABasicBlock>, globals: map<string, int>, b: Builder, s: Stmt)
    requires |b.blocks| > 0 && s.For? && Extends(BuildStmt(b, s).blocks, program)
    requires TableOk(globals, b.table) && Lowerable(globals, s)
    ensures Extends(BuildStmt(ForOpen(b, s), s.body).blocks, program) && TableOk(globals, ForOpen(b, s).table)
    ensures Lowerable(globals, s.body) && ForOpen(b, s).temps == ForEnd(b, s).temps + 1
  {
    hide Extends, TableOk, Emit, BuildStmt, Lowerable;
    ForShape(program, globals, b, s);
    BeforeEmit(BuildStmt(ForOpen(b, s), s.body), ForTail(b, s), program);
  }

  lemma BoundKept(world: World, globals: map<string, int>, b: Builder, s: Stmt, env: Env, m1: Store, r: Result,
      m3: Store, fuel: nat)
    requires |b.blocks| > 0 && s.For? && TableOk(globals, b.table) && Lowerable(globals, s)
    requires Agrees(globals, env, m1.env) && r == ExecStmt(world, s.body, env, m1.trace, fuel) && r.Normal?
    requires Agrees(globals, r.env[s.v := Wrap(Read(r.env, s.v) + 1)], m3.env)
    requires TempsKept(m1.env, m3.env, ForEnd(b, s).temps)
    ensures Value(ForEnd(b, s).value, m3.env) == Value(ForEnd(b, s).value, m1.env)
  {
    hide Agrees, TempsKept, TableOk, ExecStmt, Wrap, ForEnd;
    TableAssign(globals, b.table, s.v);
    if s.end.VarRef? { UnassignedKept(world, s.body, env, m1.trace, fuel, s.end.name); }
    EndKept(globals, b, s, env, r.env[s.v := Wrap(Read(r.env, s.v) + 1)], m1.env, m3.env);
  }

  lemma ForBackToTest(program: seq<SSABasicBlock>, world: World, globals: map<string, int>, b: Builder, s: Stmt,
      m1: Store,
                      r: Result, n2: nat, m2: Store, fuel: nat)
    returns (m3: Store)
    requires |b.blocks| > 0 && s.For? && DistinctBlocks(program) && TableOk(globals, b.table) && Lowerable(globals, s)
    requires Extends(BuildStmt(b, s).blocks, program) && r.Normal?
    requires Follows(program, world, globals, At(ForOpen(b, s), m1), n2, BuildStmt(ForOpen(b, s), s.body), m2,
      ForOpen(b, s).temps, r, fuel)
    requires ForOpen(b, s).temps >= ForEnd(b, s).temps
    ensures Run(program, world, At(ForOpen(b, s), m1), n2 + 2) == Running(At(ForEntered(b, s), m3))
      && m3.trace == r.trace
    ensures Agrees(globals, r.env[s.v := Wrap(Read(r.env, s.v) + 1)], m3.env)
      && TempsKept(m1.env, m3.env, ForEnd(b, s).temps)
  {
    hide Agrees, TempsKept, TableOk, Extends, DistinctBlocks, Emit, BuildStmt, ForEntered, ForOpen, Follows, Run,
    ForEnd,
         Lowerable, Wrap, Read;
    var inner := ForOpen(b, s);
    BodyEnds(program, world, globals, At(inner, m1), n2, BuildStmt(inner, s.body), m2, inner.temps, r, fuel);
    m3 := ForAdvance(program, world, globals, b, s, r.env, m2);
    RunCompose(program, world, At(inner, m1), n2, 2);
    TempsKeptLess(m1.env, m2.env, ForEnd(b, s).temps, inner.temps);
    TempsKeptTrans(m1.env, m2.env, m3.env, ForEnd(b, s).temps, ForEnd(b, s).temps);
  }

  /** A body that ended normally: the variable is counted up, and the loop is before its test again. */
  lemma ForAround(program: seq<SSABasicBlock>, world: World, globals: map<string, int>, b: Builder, s: Stmt, env: Env,
      m1: Store, end: int,
                  r: Result, n2: nat, m2: Store, fuel: nat)
    returns (m3: Store)
    requires s.For? && Ready(program, globals, b, env, m1) && Lowerable(globals, s)
      && Looping(globals, b, s, env, m1, end)
    requires Extends(BuildStmt(b, s).blocks, program) && r == ExecStmt(world, s.body, env, m1.trace, fuel) && r.Normal?
    requires Follows(program, world, globals, At(ForOpen(b, s), m1), n2, BuildStmt(ForOpen(b, s), s.body), m2,
      ForOpen(b, s).temps, r, fuel)
    ensures Run(program, world, At(ForOpen(b, s), m1), n2 + 2) == Running(At(ForEntered(b, s), m3))
      && m3.trace == r.trace
    ensures Looping(globals, b, s, r.env[s.v := Wrap(Read(r.env, s.v) + 1)], m3, end)
      && TempsKept(m1.env, m3.env, b.temps)
  {
    hide Agrees, TempsKept, TableOk, Extends, DistinctBlocks, Emit, BuildStmt, ForEntered, ForOpen, ExecStmt, Follows,
    Run, ForEnd,
         Lowerable, Looping, Wrap, Read, Value;
    ForBody(program, globals, b, s);
    LoopingParts(globals, b, s, env, m1, end);
    m3 := ForBackToTest(program, world, globals, b, s, m1, r, n2, m2, fuel);
    BoundKept(world, globals, b, s, env, m1, r, m3, fuel);
    TempsKeptLess(m1.env, m3.env, b.temps, ForEnd(b, s).temps);
    LoopingParts(globals, b, s, r.env[s.v := Wrap(Read(r.env, s.v) + 1)], m3, end);
  }

  lemma {:induction false} ForOnce(program: seq<SSABasicBlock>, world: World, globals: map<string, int>, b: Builder,
      s: Stmt, env: Env, m: Store, end: int, fuel: nat, n1: nat, m1: Store)
    returns (n: nat, m': Store)
    requires s.For? && Ready(program, globals, b, env, m) && Lowerable(globals, s) && fuel > 0 && n1 >= 1
    requires Extends(BuildStmt(b, s).blocks, program) && InBounds(Read(env, s.v), end, s.inclusive)
    requires Run(program, world, At(ForEntered(b, s), m), n1) == Running(At(ForOpen(b, s), m1))
    requires m1.trace == m.trace && Looping(globals, b, s, env, m1, end) && TempsKept(m.env, m1.env, b.temps)
    ensures Follows(program, world, globals, At(ForEntered(b, s), m), n, BuildStmt(b, s), m', b.temps,
                    ExecFor(world, s.v, end, s.inclusive, s.body, env, m.trace, fuel), fuel)
    decreases fuel, s.body, 4
  {
    hide Agrees, TempsKept, TableOk, Extends, DistinctBlocks, IsUserName, Emit, BuildStmt, ForEntered, ForOpen,
    ExecStmt, ExecFor, Follows, Run, ForEnd,
         Lowerable, Looping, InBounds, Wrap, Read, Value, ForTested, ForLooped, OpenBlock, LabelName, BuildExpr,
         BuildStmts,
         Supported, Assigned, Eval, TableOk;
    ForBody(program, globals, b, s);
    ExecForStep(world, s, end, env, m.trace, fuel);
    LoopingParts(globals, b, s, env, m1, end);
    var c0, inner := At(ForEntered(b, s), m), ForOpen(b, s);
    var r := ExecStmt(world, s.body, env, m1.trace, fuel - 1);
    var n2, m2 := StmtCorrect(program, world, globals, inner, s.body, env, m1, fuel - 1);
    if r.Normal? {
      var m3 := ForAround(program, world, globals, b, s, env, m1, end, r, n2, m2, fuel - 1);
      var env3 := r.env[s.v := Wrap(Read(r.env, s.v) + 1)];
      LoopingParts(globals, b, s, env3, m3, end);
      var n3;
      n3, m' := ForLoop(program, world, globals, b, s, env3, m3, end, fuel - 1);
      GoAround(program, world, globals, c0, n1, At(inner, m1), n2 + 2, At(ForEntered(b, s), m3), n3, BuildStmt(b, s),
        m', b.temps, b.temps,
               ExecFor(world, s.v, end, s.inclusive, s.body, env3, m3.trace, fuel - 1), fuel);
      n := n1 + (n2 + 2) + n3;
    } else {
      CutShort(program, world, globals, c0, n1, At(inner, m1), n2, BuildStmt(inner, s.body), BuildStmt(b, s), m2,
        b.temps,
               inner.temps, r, fuel);
      n, m' := n1 + n2, m2;
    }
  }

  lemma {:induction false} StmtCorrect(program: seq<SSABasicBlock>, world: World, globals: map<string, int>,
      b: Builder, s: Stmt, env: Env, m: Store, fuel: nat)
    returns (n: nat, m': Store)
    requires Ready(program, globals, b, env, m) && Lowerable(globals, s)
    requires Extends(BuildStmt(b, s).blocks, program)
    ensures Follows(program, world, globals, At(b, m), n, BuildStmt(b, s), m', b.temps,
      ExecStmt(world, s, env, m.trace, fuel), fuel)
    decreases fuel, s, 2
  {
    hide Ready, Follows, Extends;
    match s
    case Block(ss) => n, m' := StmtsCorrect(program, world, globals, b, ss, env, m, fuel);
    case If(_, _, _) => n, m' := IfCorrect(program, world, globals, b, s, env, m, fuel);
    case While(_, _) => n, m' := WhileCorrect(program, world, globals, b, s, env, m, fuel);
    case For(_, _, _, _, _) => n, m' := ForCorrect(program, world, globals, b, s, env, m, fuel);
    case ExprStmt(_) => n, m' := ExprStmtCorrect(program, world, globals, b, s, env, m, fuel);
    case VarAssign(_, _, _) => n, m' := AssignCorrect(program, world, globals, b, s, env, m, fuel);
    case Return(_) => n, m' := ReturnCorrect(program, world, globals, b, s, env, m, fuel);
    case Print(_) => n, m' := PrintCorrect(program, world, globals, b, s, env, m, fuel);
  }

  lemma {:induction false} StmtsCorrect(program: seq<SSABasicBlock>, world: World, globals: map<string, int>,
      b: Builder, ss: seq<Stmt>, env: Env, m: Store, fuel: nat)
    returns (n: nat, m': Store)
    requires Ready(program, globals, b, env, m)
      && (forall t :: t in ss ==> Supported(t)) && AssignedIn(ss) !! globals.Keys
    requires Extends(BuildStmts(b, ss).blocks, program)
    ensures Follows(program, world, globals, At(b, m), n, BuildStmts(b, ss), m', b.temps,
      ExecStmts(world, ss, env, m.trace, fuel), fuel)
    decreases fuel, ss, 0
  {
    hide Agrees, TempsKept, TableOk, Extends, DistinctBlocks, IsUserName, ExecStmt, BuildStmt, Supported;
    if ss == [] {
      n, m' := 0, m;
      TempsKeptSame(m.env, b.temps);
    } else {
      AssignedPart(ss);
      var b1 := BuildStmt(b, ss[0]);
      BeforeStmts(b1, ss[1..], program);
      var r := ExecStmt(world, ss[0], env, m.trace, fuel);
      var n1, m1 := StmtCorrect(program, world, globals, b, ss[0], env, m, fuel);
      if r.Normal? {
        StmtTable(globals, b, ss[0]);
        var n2;
        n2, m' := StmtsCorrect(program, world, globals, b1, ss[1..], r.env, m1, fuel);
        Prepend(program, world, globals, At(b, m), n1, At(b1, m1), n2, BuildStmts(b, ss), m', b.temps, b1.temps,
                ExecStmts(world, ss[1..], r.env, m1.trace, fuel), fuel, fuel);
        n := n1 + n2;
      } else {
        n, m' := n1, m1;
        Ended(program, world, globals, At(b, m), n1, b1, BuildStmts(b, ss), m1, b.temps, r, fuel);
      }
    }
  }
}
