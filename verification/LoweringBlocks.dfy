/** How the built blocks grow, and what that means for a machine running any program that extends
    them: positions stay, labels are unique, and jumps reach the block they name. */
module LoweringBlocks {
  import opened Names
  import opened Ssa
  import opened Ast
  import opened Lowering

  /** q has all of p's code where p has it: only p's last block may have grown. */
  predicate Extends(p: seq<SSABasicBlock>, q: seq<SSABasicBlock>) {
    && 0 < |p| <= |q|
    && p[..|p| - 1] == q[..|p| - 1]
    && p[|p| - 1].name == q[|p| - 1].name
    && p[|p| - 1].instructions <= q[|p| - 1].instructions
  }

  lemma ExtendsTrans(p: seq<SSABasicBlock>, q: seq<SSABasicBlock>, r: seq<SSABasicBlock>)
    requires Extends(p, q) && Extends(q, r)
    ensures Extends(p, r)
  {
    assert r[..|p| - 1] == r[..|q| - 1][..|p| - 1];
    if |p| < |q| { assert q[..|q| - 1][|p| - 1] == r[..|q| - 1][|p| - 1]; }
  }

  lemma BeforeEmit(b: Builder, insts: seq<SSAInstruction>, program: seq<SSABasicBlock>)
    requires |b.blocks| > 0 && Extends(Emit(b, insts).blocks, program)
    ensures Extends(b.blocks, program)
  {
    assert Extends(b.blocks, Emit(b, insts).blocks);
    ExtendsTrans(b.blocks, Emit(b, insts).blocks, program);
  }

  lemma BeforeOpen(b: Builder, name: string, program: seq<SSABasicBlock>)
    requires |b.blocks| > 0 && Extends(OpenBlock(b, name).blocks, program)
    ensures Extends(b.blocks, program)
    ensures |b.blocks| < |program| && program[|b.blocks|].name == name
    ensures program[|b.blocks| - 1].instructions == b.blocks[|b.blocks| - 1].instructions
  {
    assert program[..|b.blocks|] == b.blocks;
    assert program[|b.blocks| - 1] == program[..|b.blocks|][|b.blocks| - 1];
    assert program[..|b.blocks| - 1] == program[..|b.blocks|][..|b.blocks| - 1];
  }

  lemma {:induction false} BeforeStmt(b: Builder, s: Stmt, program: seq<SSABasicBlock>)
    requires |b.blocks| > 0 && Extends(BuildStmt(b, s).blocks, program)
    ensures Extends(b.blocks, program)
    decreases s, 2
  {
    hide Extends, Emit, OpenBlock, LabelName, BuildExpr;
    match s
    case Block(ss) => BeforeStmts(b, ss, program);
    case If(cond, yes, no) =>
      BeforeOpen(IfElse(b, s), MergeName(b), program);
      BeforeElse(b, s, program);
    case While(cond, body) =>
      BeforeOpen(WhileLooped(b, s), WhileExit(b), program);
      BeforeWhileLoop(b, s, program);
    case For(x, lo, hi, inclusive, body) =>
      BeforeOpen(ForLooped(b, s), ForExit(b), program);
      BeforeForLoop(b, s, program);
    case ExprStmt(e) =>
      var c := BuildExpr(b.table, e, b.temps);
      BeforeEmit(b.(temps := c.temps), c.insts, program);
    case VarAssign(x, op, e) =>
      var c := BuildExpr(b.table, e, b.temps);
      BeforeEmit(b.(temps := c.temps, table := b.table[x := Var(x)]), c.insts + [AssignInst(x, op, c.value)], program);
    case Return(e) =>
      var c := if e.Some? then BuildExpr(b.table, e.value, b.temps) else Code([], Num(0), b.temps);
      BeforeEmit(b.(temps := c.temps),
                 c.insts + RegionExits(b.isNaked) + [SSAInstruction(SSAOp.Return, "", [c.value])], program);
    case Print(e) =>
      var c := BuildExpr(b.table, e, b.temps);
      BeforeEmit(b.(temps := c.temps), c.insts + [SSAInstruction(SSAOp.Call, "", [Str(PRINT_NUM), c.value])], program);
  }

  lemma {:induction false} BeforeStmts(b: Builder, ss: seq<Stmt>, program: seq<SSABasicBlock>)
    requires |b.blocks| > 0 && Extends(BuildStmts(b, ss).blocks, program)
    ensures Extends(b.blocks, program)
    decreases ss, 0
  {
    hide Extends, BuildStmt;
    if ss != [] {
      BeforeStmts(BuildStmt(b, ss[0]), ss[1..], program);
      BeforeStmt(b, ss[0], program);
    }
  }

  lemma BeforeIfTested(b: Builder, cond: Expr, program: seq<SSABasicBlock>)
    requires |b.blocks| > 0 && Extends(IfTested(b, cond).blocks, program)
    ensures Extends(b.blocks, program)
  {
    hide Extends, Emit, BuildExpr;
    var c := BuildExpr(b.table, cond, b.temps);
    BeforeEmit(b.(temps := c.temps, labels := b.labels + 3),
               c.insts + [Fork(c.value, ThenName(b), ElseName(b))], program);
  }

  lemma {:induction false} BeforeThen(b: Builder, s: Stmt, program: seq<SSABasicBlock>)
    requires |b.blocks| > 0 && s.If? && Extends(IfThen(b, s).blocks, program)
    ensures Extends(BuildStmt(OpenBlock(IfTested(b, s.cond), ThenName(b)), s.thenBranch).blocks, program)
    ensures Extends(OpenBlock(IfTested(b, s.cond), ThenName(b)).blocks, program)
    ensures Extends(IfTested(b, s.cond).blocks, program) && Extends(b.blocks, program)
    decreases s, 0
  {
    hide Extends, Emit, OpenBlock, BuildExpr, IfTested;
    var inner := OpenBlock(IfTested(b, s.cond), ThenName(b));
    BeforeEmit(BuildStmt(inner, s.thenBranch), [Goto(MergeName(b))], program);
    BeforeStmt(inner, s.thenBranch, program);
    BeforeOpen(IfTested(b, s.cond), ThenName(b), program);
    BeforeIfTested(b, s.cond, program);
  }

  lemma {:induction false} BeforeElse(b: Builder, s: Stmt, program: seq<SSABasicBlock>)
    requires |b.blocks| > 0 && s.If? && Extends(IfElse(b, s).blocks, program)
    ensures Extends(BuildStmt(OpenBlock(IfThen(b, s), ElseName(b)), s.elseBranch).blocks, program)
    ensures Extends(OpenBlock(IfThen(b, s), ElseName(b)).blocks, program)
    ensures Extends(IfThen(b, s).blocks, program) && Extends(b.blocks, program)
    decreases s, 1
  {
    hide Extends, Emit, OpenBlock, BuildExpr, IfThen;
    var inner := OpenBlock(IfThen(b, s), ElseName(b));
    BeforeEmit(BuildStmt(inner, s.elseBranch), [Goto(MergeName(b))], program);
    BeforeStmt(inner, s.elseBranch, program);
    BeforeOpen(IfThen(b, s), ElseName(b), program);
    BeforeThen(b, s, program);
  }

  lemma BeforeWhileTested(b: Builder, cond: Expr, program: seq<SSABasicBlock>)
    requires |b.blocks| > 0 && Extends(WhileTested(b, cond).blocks, program)
    ensures Extends(WhileEntered(b).blocks, program) && Extends(b.blocks, program)
    ensures Extends(Emit(b.(labels := b.labels + 3), [Goto(WhileHead(b))]).blocks, program)
  {
    hide Extends, Emit, OpenBlock, BuildExpr;
    var c := BuildExpr(b.table, cond, b.temps);
    BeforeEmit(WhileEntered(b).(temps := c.temps),
               c.insts + [Fork(c.value, WhileInner(b), WhileExit(b))], program);
    BeforeOpen(Emit(b.(labels := b.labels + 3), [Goto(WhileHead(b))]), WhileHead(b), program);
    BeforeEmit(b.(labels := b.labels + 3), [Goto(WhileHead(b))], program);
  }

  lemma {:induction false} BeforeWhileLoop(b: Builder, s: Stmt, program: seq<SSABasicBlock>)
    requires |b.blocks| > 0 && s.While? && Extends(WhileLooped(b, s).blocks, program)
    ensures Extends(BuildStmt(OpenBlock(WhileTested(b, s.cond), WhileInner(b)), s.body).blocks, program)
    ensures Extends(OpenBlock(WhileTested(b, s.cond), WhileInner(b)).blocks, program)
    ensures Extends(WhileTested(b, s.cond).blocks, program) && Extends(b.blocks, program)
    decreases s, 0
  {
    hide Extends, Emit, OpenBlock, BuildExpr, WhileTested;
    var inner := OpenBlock(WhileTested(b, s.cond), WhileInner(b));
    BeforeEmit(BuildStmt(inner, s.body), [Goto(WhileHead(b))], program);
    BeforeStmt(inner, s.body, program);
    BeforeOpen(WhileTested(b, s.cond), WhileInner(b), program);
    BeforeWhileTested(b, s.cond, program);
  }

  lemma BeforeForTested(b: Builder, s: Stmt, program: seq<SSABasicBlock>)
    requires |b.blocks| > 0 && s.For? && Extends(ForTested(b, s).blocks, program)
    ensures Extends(ForEntered(b, s).blocks, program) && Extends(b.blocks, program)
  {
    hide Extends, Emit, OpenBlock, ForStart, ForEnd, ForTable;
    var a, z := ForStart(b, s), ForEnd(b, s);
    BeforeEmit(ForEntered(b, s),
         [SSAInstruction(if s.inclusive then LessEqual else LessThan, Temp(z.temps), [Var(s.v), z.value])]
         + [Fork(Var(Temp(z.temps)), ForInner(b), ForExit(b))], program);
    var b1 := b.(temps := z.temps + 1, labels := b.labels + 3, table := ForTable(b, s));
    var code := a.insts + z.insts + [SSAInstruction(Copy, s.v, [a.value])] + [Goto(ForHead(b))];
    BeforeOpen(Emit(b1, code), ForHead(b), program);
    BeforeEmit(b1, code, program);
  }

  lemma {:induction false} BeforeForLoop(b: Builder, s: Stmt, program: seq<SSABasicBlock>)
    requires |b.blocks| > 0 && s.For? && Extends(ForLooped(b, s).blocks, program)
    ensures Extends(BuildStmt(OpenBlock(ForTested(b, s), ForInner(b)), s.body).blocks, program)
    ensures Extends(OpenBlock(ForTested(b, s), ForInner(b)).blocks, program)
    ensures Extends(ForTested(b, s).blocks, program) && Extends(b.blocks, program)
    decreases s, 0
  {
    hide Extends, Emit, OpenBlock, ForTested;
    var inner := OpenBlock(ForTested(b, s), ForInner(b));
    BeforeEmit(BuildStmt(inner, s.body), [SSAInstruction(Add, s.v, [Var(s.v), Num(1)])] + [Goto(ForHead(b))], program);
    BeforeStmt(inner, s.body, program);
    BeforeOpen(ForTested(b, s), ForInner(b), program);
    BeforeForTested(b, s, program);
  }

  // ----- labels

  /** A label already in use: the entry's, or one with a counter that is taken and not reserved. */
  ghost predicate InUse(func: string, name: string, labels: nat, reserved: set<nat>) {
    name == func + "_entry" || exists n: nat :: n < labels && n !in reserved && Numbered(name, n)
  }

  ghost predicate DistinctBlocks(blocks: seq<SSABasicBlock>) {
    forall i, j :: 0 <= i < j < |blocks| ==> blocks[i].name != blocks[j].name
  }

  /** All labels differ; the reserved counters are those of blocks still to be opened. */
  ghost predicate LabelInv(b: Builder, reserved: set<nat>) {
    && DistinctBlocks(b.blocks)
    && forall i :: 0 <= i < |b.blocks| ==> InUse(b.func, b.blocks[i].name, b.labels, reserved)
  }

  lemma ReserveMore(b: Builder, b': Builder, reserved: set<nat>, more: set<nat>)
    requires LabelInv(b, reserved) && b'.blocks == b.blocks && b'.func == b.func && b'.labels >= b.labels
    requires forall n :: n in more ==> n >= b.labels
    ensures LabelInv(b', reserved + more)
  {
    forall i | 0 <= i < |b.blocks| ensures InUse(b'.func, b'.blocks[i].name, b'.labels, reserved + more) {
      assert InUse(b.func, b.blocks[i].name, b.labels, reserved);
    }
  }

  lemma EmitKeepsLabels(b: Builder, insts: seq<SSAInstruction>, reserved: set<nat>)
    requires |b.blocks| > 0 && LabelInv(b, reserved)
    ensures LabelInv(Emit(b, insts), reserved)
  {
    var r := Emit(b, insts);
    assert forall i :: 0 <= i < |b.blocks| ==> r.blocks[i].name == b.blocks[i].name;
  }

  lemma OpenReserved(b: Builder, kind: string, n: nat, reserved: set<nat>)
    requires Underscored(kind) && n in reserved && n < b.labels && LabelInv(b, reserved)
    ensures LabelInv(OpenBlock(b, LabelName(b.func, kind, n)), reserved - {n})
  {
    hide Underscored, LabelName, Numbered;
    var name := LabelName(b.func, kind, n);
    LabelNumbered(b.func, kind, n);
    var r := OpenBlock(b, name);
    forall i | 0 <= i < |b.blocks|
      ensures b.blocks[i].name != name && InUse(b.func, b.blocks[i].name, b.labels, reserved - {n})
    {
      assert InUse(b.func, b.blocks[i].name, b.labels, reserved);
      if b.blocks[i].name == b.func + "_entry" {
        EntryNotNumbered(b.func, n);
      } else {
        var m: nat :| m < b.labels && m !in reserved && Numbered(b.blocks[i].name, m);
        if Numbered(b.blocks[i].name, n) { NumberedOnce(b.blocks[i].name, m, n); }
      }
    }
    assert InUse(b.func, name, b.labels, reserved - {n});
  }

  lemma {:induction false} StmtKeepsLabels(b: Builder, s: Stmt, reserved: set<nat>)
    requires |b.blocks| > 0 && LabelInv(b, reserved) && forall n :: n in reserved ==> n < b.labels
    ensures LabelInv(BuildStmt(b, s), reserved)
    decreases s, 2
  {
    hide LabelInv, Emit, OpenBlock, BuildExpr;
    match s
    case Block(ss) => StmtsKeepLabels(b, ss, reserved);
    case If(_, _, _) => IfKeepsLabels(b, s, reserved);
    case While(_, _) => WhileKeepsLabels(b, s, reserved);
    case For(_, _, _, _, _) => ForKeepsLabels(b, s, reserved);
    case ExprStmt(e) =>
      var c := BuildExpr(b.table, e, b.temps);
      EmitLabels(b, b.(temps := c.temps), c.insts, reserved);
    case VarAssign(x, op, e) =>
      var c := BuildExpr(b.table, e, b.temps);
      EmitLabels(b, b.(temps := c.temps, table := b.table[x := Var(x)]), c.insts + [AssignInst(x, op, c.value)],
        reserved);
    case Return(e) =>
      var c := if e.Some? then BuildExpr(b.table, e.value, b.temps) else Code([], Num(0), b.temps);
      EmitLabels(b, b.(temps := c.temps),
                 c.insts + RegionExits(b.isNaked) + [SSAInstruction(SSAOp.Return, "", [c.value])], reserved);
    case Print(e) =>
      var c := BuildExpr(b.table, e, b.temps);
      EmitLabels(b, b.(temps := c.temps), c.insts + [SSAInstruction(SSAOp.Call, "", [Str(PRINT_NUM), c.value])],
        reserved);
  }

  lemma EmitLabels(b: Builder, b': Builder, insts: seq<SSAInstruction>, reserved: set<nat>)
    requires |b.blocks| > 0 && LabelInv(b, reserved)
    requires b'.blocks == b.blocks && b'.func == b.func && b'.labels == b.labels
    ensures LabelInv(Emit(b', insts), reserved)
  {
    ReserveMore(b, b', reserved, {});
    assert reserved + {} == reserved;
    EmitKeepsLabels(b', insts, reserved);
  }

  lemma {:induction false} StmtsKeepLabels(b: Builder, ss: seq<Stmt>, reserved: set<nat>)
    requires |b.blocks| > 0 && LabelInv(b, reserved) && forall n :: n in reserved ==> n < b.labels
    ensures LabelInv(BuildStmts(b, ss), reserved)
    decreases ss, 0
  {
    hide LabelInv, BuildStmt;
    if ss != [] {
      StmtKeepsLabels(b, ss[0], reserved);
      StmtsKeepLabels(BuildStmt(b, ss[0]), ss[1..], reserved);
    }
  }

  /** Code for the current block, the opening of a reserved block, and a statement in it. */
  lemma {:induction false} OpenAndBuild(b: Builder, kind: string, n: nat, s: Stmt, insts: seq<SSAInstruction>,
      reserved: set<nat>)
    requires |b.blocks| > 0 && Underscored(kind) && n in reserved && n < b.labels && LabelInv(b, reserved)
    requires forall m :: m in reserved ==> m < b.labels
    ensures LabelInv(Emit(BuildStmt(OpenBlock(b, LabelName(b.func, kind, n)), s), insts), reserved - {n})
    decreases s, 3
  {
    hide LabelInv, Emit, OpenBlock, BuildStmt, LabelName;
    OpenReserved(b, kind, n, reserved);
    var inner := OpenBlock(b, LabelName(b.func, kind, n));
    assert inner.labels == b.labels by { OpenFields(b, LabelName(b.func, kind, n)); }
    StmtKeepsLabels(inner, s, reserved - {n});
    EmitKeepsLabels(BuildStmt(inner, s), insts, reserved - {n});
  }

  lemma OpenFields(b: Builder, name: string)
    ensures OpenBlock(b, name).labels == b.labels && OpenBlock(b, name).func == b.func
    ensures OpenBlock(b, name).temps == b.temps && OpenBlock(b, name).table == b.table
  {
  }

  function Reserve(reserved: set<nat>, n: nat): set<nat> {
    reserved + {n, n + 1, n + 2}
  }

  lemma ReserveThree(reserved: set<nat>, n: nat)
    requires forall m :: m in reserved ==> m < n
    ensures Reserve(reserved, n) - {n} - {n + 1} - {n + 2} == reserved
    ensures forall m :: m in Reserve(reserved, n) ==> m < n + 3
  {
  }

  lemma IfTestedLabels(b: Builder, cond: Expr, reserved: set<nat>)
    requires |b.blocks| > 0 && LabelInv(b, reserved)
    ensures LabelInv(IfTested(b, cond), Reserve(reserved, b.labels))
  {
    hide LabelInv, BuildExpr, LabelName, Emit;
    var c := BuildExpr(b.table, cond, b.temps);
    var b1 := b.(temps := c.temps, labels := b.labels + 3);
    ReserveMore(b, b1, reserved, {b.labels, b.labels + 1, b.labels + 2});
    EmitKeepsLabels(b1, c.insts + [Fork(c.value, ThenName(b), ElseName(b))], Reserve(reserved, b.labels));
  }

  lemma {:induction false} IfKeepsLabels(b: Builder, s: Stmt, reserved: set<nat>)
    requires |b.blocks| > 0 && s.If? && LabelInv(b, reserved) && forall n :: n in reserved ==> n < b.labels
    ensures LabelInv(OpenBlock(IfElse(b, s), MergeName(b)), reserved)
    decreases s, 1
  {
    hide LabelInv, BuildExpr, LabelName, Underscored, Emit, OpenBlock, BuildStmt, IfTested;
    var n, r := b.labels, Reserve(reserved, b.labels);
    ReserveThree(reserved, n);
    Kinds();
    IfTestedLabels(b, s.cond, reserved);
    OpenAndBuild(IfTested(b, s.cond), "_then_", n, s.thenBranch, [Goto(MergeName(b))], r);
    OpenAndBuild(IfThen(b, s), "_else_", n + 1, s.elseBranch, [Goto(MergeName(b))], r - {n});
    OpenReserved(IfElse(b, s), "_merge_", n + 2, r - {n} - {n + 1});
  }

  lemma Kinds()
    ensures Underscored("_then_") && Underscored("_else_") && Underscored("_merge_")
    ensures Underscored("_while_cond_") && Underscored("_while_body_") && Underscored("_while_end_")
    ensures Underscored("_for_cond_") && Underscored("_for_body_") && Underscored("_for_end_")
  {
  }

  lemma WhileTestedLabels(b: Builder, cond: Expr, reserved: set<nat>)
    requires |b.blocks| > 0 && LabelInv(b, reserved)
    ensures LabelInv(WhileTested(b, cond), Reserve(reserved, b.labels) - {b.labels})
  {
    hide LabelInv, BuildExpr, LabelName, Underscored;
    var n, r := b.labels, Reserve(reserved, b.labels);
    var b1 := b.(labels := n + 3);
    ReserveMore(b, b1, reserved, {n, n + 1, n + 2});
    EmitKeepsLabels(b1, [Goto(WhileHead(b))], r);
    Kinds();
    OpenReserved(Emit(b1, [Goto(WhileHead(b))]), "_while_cond_", n, r);
    var c := BuildExpr(b.table, cond, b.temps);
    EmitLabels(WhileEntered(b), WhileEntered(b).(temps := c.temps),
               c.insts + [Fork(c.value, WhileInner(b), WhileExit(b))], r - {n});
  }

  lemma {:induction false} WhileKeepsLabels(b: Builder, s: Stmt, reserved: set<nat>)
    requires |b.blocks| > 0 && s.While? && LabelInv(b, reserved) && forall n :: n in reserved ==> n < b.labels
    ensures LabelInv(OpenBlock(WhileLooped(b, s), WhileExit(b)), reserved)
    decreases s, 1
  {
    hide LabelInv, BuildExpr, LabelName, Underscored, Emit, OpenBlock, BuildStmt, WhileTested;
    var n, r := b.labels, Reserve(reserved, b.labels);
    ReserveThree(reserved, n);
    Kinds();
    WhileTestedLabels(b, s.cond, reserved);
    OpenAndBuild(WhileTested(b, s.cond), "_while_body_", n + 1, s.body, [Goto(WhileHead(b))], r - {n});
    OpenReserved(WhileLooped(b, s), "_while_end_", n + 2, r - {n} - {n + 1});
  }

  lemma ForTestedLabels(b: Builder, s: Stmt, reserved: set<nat>)
    requires |b.blocks| > 0 && s.For? && LabelInv(b, reserved)
    ensures LabelInv(ForTested(b, s), Reserve(reserved, b.labels) - {b.labels})
  {
    hide LabelInv, BuildExpr, ForTable, ForStart, ForEnd, LabelName, Underscored, Temp;
    var n, r := b.labels, Reserve(reserved, b.labels);
    var a, z := ForStart(b, s), ForEnd(b, s);
    var b1 := b.(temps := z.temps + 1, labels := n + 3, table := ForTable(b, s));
    var code := a.insts + z.insts + [SSAInstruction(Copy, s.v, [a.value])] + [Goto(ForHead(b))];
    var test := [SSAInstruction(if s.inclusive then LessEqual else LessThan, Temp(z.temps), [Var(s.v), z.value])]
                + [Fork(Var(Temp(z.temps)), ForInner(b), ForExit(b))];
    ReserveMore(b, b1, reserved, {n, n + 1, n + 2});
    EmitKeepsLabels(b1, code, r);
    Kinds();
    OpenReserved(Emit(b1, code), "_for_cond_", n, r);
    EmitKeepsLabels(ForEntered(b, s), test, r - {n});
  }

  lemma {:induction false} ForKeepsLabels(b: Builder, s: Stmt, reserved: set<nat>)
    requires |b.blocks| > 0 && s.For? && LabelInv(b, reserved) && forall n :: n in reserved ==> n < b.labels
    ensures LabelInv(OpenBlock(ForLooped(b, s), ForExit(b)), reserved)
    decreases s, 1
  {
    hide LabelInv, BuildExpr, LabelName, Underscored, Emit, OpenBlock, BuildStmt, ForTested;
    var n, r := b.labels, Reserve(reserved, b.labels);
    ReserveThree(reserved, n);
    Kinds();
    ForTestedLabels(b, s, reserved);
    OpenAndBuild(ForTested(b, s), "_for_body_", n + 1, s.body,
                 [SSAInstruction(Add, s.v, [Var(s.v), Num(1)])] + [Goto(ForHead(b))], r - {n});
    OpenReserved(ForLooped(b, s), "_for_end_", n + 2, r - {n} - {n + 1});
  }

  lemma EntryLabels(table: Table, f: FuncDecl)
    ensures LabelInv(Entry(table, f), {})
  {
    var b := Entry(table, f);
    assert InUse(b.func, b.blocks[0].name, b.labels, {});
  }

  lemma FindUnique(blocks: seq<SSABasicBlock>, i: nat)
    requires DistinctBlocks(blocks) && i < |blocks|
    ensures Find(blocks, blocks[i].name) == i
  {
  }
}
