/** The builder object of src/middleend/ssa/SSABuilder.cpp with its fields, emitting code step by step
    into the block whose label is current. Its methods are proved to build what module Lowering
    specifies, so the compiled function does what module LoweringFunc says. */
module SsaBuilders {
  import opened Names
  import opened Ssa
  import opened Ast
  import opened Lowering
  import opened LoweringBlocks

  /** Code c emitted into b. */
  function Emitted(b: Builder, insts: seq<SSAInstruction>, temps: nat): (r: Builder)
    requires |b.blocks| > 0
    ensures |r.blocks| == |b.blocks| && r.labels == b.labels && r.table == b.table && r.temps == temps
    ensures r.func == b.func && r.isNaked == b.isNaked
  {
    Emit(b.(temps := temps), insts)
  }

  lemma EmittedTwice(b: Builder, x: seq<SSAInstruction>, y: seq<SSAInstruction>, m: nat, n: nat)
    requires |b.blocks| > 0
    ensures Emitted(Emitted(b, x, m), y, n) == Emitted(b, x + y, n)
  {
    var last := b.blocks[|b.blocks| - 1];
    assert last.instructions + x + y == last.instructions + (x + y);
    assert (b.blocks[..|b.blocks| - 1] + [last.(instructions := last.instructions + x)])[..|b.blocks| - 1] ==
      b.blocks[..|b.blocks| - 1];
  }

  lemma EmittedNothing(b: Builder)
    requires |b.blocks| > 0
    ensures Emitted(b, [], b.temps) == b
  {
    var last := b.blocks[|b.blocks| - 1];
    assert last.instructions + [] == last.instructions;
    assert b.blocks[..|b.blocks| - 1] + [last] == b.blocks;
  }

  class SSABuilder {
    var func: string
    var isNaked: bool
    var blocks: seq<SSABasicBlock>
    var currentBlockLabel: string
    var tempCounter: nat
    var blockCounter: nat
    var varVersionTable: Table

    constructor (globals: Table)
      ensures varVersionTable == globals
    {
      func, isNaked, blocks, currentBlockLabel, tempCounter, blockCounter := "", false, [], "", 0, 0;
      varVersionTable := globals;
    }

    ghost function State(): Builder
      reads this
    {
      Builder(func, isNaked, blocks, tempCounter, blockCounter, varVersionTable)
    }

    /** Labels are unique, the current one is that of the last block. `reserved` are the counters
        taken for blocks that are still to be opened. */
    ghost predicate Valid(reserved: set<nat>)
      reads this
    {
      && |blocks| > 0 && currentBlockLabel == blocks[|blocks| - 1].name
      && LabelInv(State(), reserved) && forall n :: n in reserved ==> n < blockCounter
    }

    /** The index of the current block: the search for its label ends at the last block. */
    method GetCurrentBlock(ghost reserved: set<nat>) returns (i: nat)
      requires Valid(reserved)
      ensures i == |blocks| - 1
    {
      i := 0;
      while i < |blocks| && blocks[i].name != currentBlockLabel
        invariant 0 <= i < |blocks|
      {
        i := i + 1;
      }
    }

    method EmitInst(inst: SSAInstruction, ghost reserved: set<nat>)
      requires Valid(reserved)
      modifies this
      ensures Valid(reserved) && State() == Emitted(old(State()), [inst], old(tempCounter))
    {
      var i := GetCurrentBlock(reserved);
      EmitKeepsLabels(State(), [inst], reserved);
      assert blocks[i := blocks[i].(instructions := blocks[i].instructions + [inst])] ==
             Emit(State(), [inst]).blocks;
      blocks := blocks[i := blocks[i].(instructions := blocks[i].instructions + [inst])];
    }

    method GetNextTemp() returns (v: SSAValue, ghost n: nat)
      modifies this`tempCounter
      ensures n == old(tempCounter) && v == Var(Temp(n)) && tempCounter == n + 1
    {
      n := tempCounter;
      v := Var(Temp(tempCounter));
      tempCounter := tempCounter + 1;
    }

    /** The value of an expression; its code is in the current block. */
    method BuildExprNode(e: Expr, ghost reserved: set<nat>) returns (v: SSAValue)
      requires Valid(reserved)
      modifies this
      ensures Valid(reserved)
      ensures var c := BuildExpr(old(varVersionTable), e, old(tempCounter));
        State() == Emitted(old(State()), c.insts, c.temps) && v == c.value
      decreases e
    {
      hide Emitted, LabelInv, TryFold, OpOf, Temp;
      ghost var b := State();
      match e
      case IntLit(n) =>
        EmittedNothing(b);
        v := Num(n);
      case VarRef(x) =>
        EmittedNothing(b);
        v := if x in varVersionTable then varVersionTable[x] else Var(x);
      case Unary(_, _) =>
        EmittedNothing(b);
        v := Num(0);
      case Binary(op, left, right) =>
        var l := BuildExprNode(left, reserved);
        ghost var b1 := State();
        var r := BuildExprNode(right, reserved);
        ghost var lc := BuildExpr(b.table, left, b.temps);
        ghost var rc := BuildExpr(b.table, right, lc.temps);
        EmittedTwice(b, lc.insts, rc.insts, lc.temps, rc.temps);
        var folded := TryFold(OpOf(op), l, r);
        if folded.Some? {
          v := Num(folded.value);
        } else {
          ghost var n;
          ghost var b2 := State();
          v, n := GetNextTemp();
          TempsDoNotMatter(b2, State(), reserved);
          TempsOverwritten(b, lc.insts + rc.insts, rc.temps, rc.temps + 1);
          EmitInst(SSAInstruction(OpOf(op), v.name, [l, r]), reserved);
          EmittedTwice(b, lc.insts + rc.insts, [SSAInstruction(OpOf(op), v.name, [l, r])], rc.temps + 1, rc.temps + 1);
        }
      case FuncCall(f, args) =>
        ghost var n;
        v, n := GetNextTemp();
        ghost var b1 := State();
        TempsDoNotMatter(b, b1, reserved);
        var vs := BuildArgNodes(args, reserved);
        ghost var c := BuildArgs(b.table, args, b.temps + 1);
        var inst := SSAInstruction(SSAOp.Call, v.name, [Str(f)] + vs);
        EmitInst(inst, reserved);
        TempsForgotten(b, b1, c.insts, c.temps);
        EmittedTwice(b, c.insts, [inst], c.temps, c.temps);
    }

    method BuildArgNodes(args: seq<Expr>, ghost reserved: set<nat>) returns (vs: seq<SSAValue>)
      requires Valid(reserved)
      modifies this
      ensures Valid(reserved)
      ensures var c := BuildArgs(old(varVersionTable), args, old(tempCounter));
        State() == Emitted(old(State()), c.insts, c.temps) && vs == c.values
      decreases args
    {
      ghost var b := State();
      if args == [] {
        EmittedNothing(b);
        vs := [];
      } else {
        var v := BuildExprNode(args[0], reserved);
        var rest := BuildArgNodes(args[1..], reserved);
        vs := [v] + rest;
        ghost var first := BuildExpr(b.table, args[0], b.temps);
        ghost var more := BuildArgs(b.table, args[1..], first.temps);
        EmittedTwice(b, first.insts, more.insts, first.temps, more.temps);
      }
    }

    method EmitAll(insts: seq<SSAInstruction>, ghost reserved: set<nat>)
      requires Valid(reserved)
      modifies this
      ensures Valid(reserved) && State() == Emitted(old(State()), insts, old(tempCounter))
    {
      hide LabelInv, Emitted;
      ghost var b := State();
      EmittedNothing(b);
      var i := 0;
      while i < |insts|
        invariant 0 <= i <= |insts| && Valid(reserved)
        invariant State() == Emitted(b, insts[..i], b.temps)
      {
        EmitInst(insts[i], reserved);
        EmittedTwice(b, insts[..i], [insts[i]], b.temps, b.temps);
        assert insts[..i] + [insts[i]] == insts[..i + 1];
        i := i + 1;
      }
      assert insts[..i] == insts;
    }

    /** A new block with a reserved label becomes the current one. */
    method StartBlock(kind: string, n: nat, ghost reserved: set<nat>) returns (name: string)
      requires Valid(reserved) && Underscored(kind) && n in reserved
      modifies this`blocks, this`currentBlockLabel
      ensures Valid(reserved - {n})
      ensures State() == OpenBlock(old(State()), LabelName(func, kind, n))
    {
      hide LabelInv, LabelName;
      OpenReserved(State(), kind, n, reserved);
      name := LabelName(func, kind, n);
      blocks := blocks + [SSABasicBlock(name, [])];
      currentBlockLabel := name;
    }

    /** Three block counters are taken. */
    method TakeLabels(ghost reserved: set<nat>) returns (n: nat)
      requires Valid(reserved)
      modifies this`blockCounter
      ensures n == old(blockCounter) && Valid(Reserve(reserved, n))
      ensures State() == old(State()).(labels := n + 3)
    {
      n := blockCounter;
      ReserveMore(State(), State().(labels := n + 3), reserved, {n, n + 1, n + 2});
      blockCounter := blockCounter + 3;
    }

    method BuildStatement(s: Stmt, ghost reserved: set<nat>)
      requires Valid(reserved)
      modifies this
      ensures Valid(reserved) && State() == BuildStmt(old(State()), s)
      decreases s, 2
    {
      hide Emitted, LabelInv, BuildExpr, AssignInst;
      ghost var b := State();
      match s
      case Block(ss) => BuildStatements(ss, reserved);
      case ExprStmt(e) =>
        var v := BuildExprNode(e, reserved);
        EmittedIs(b, BuildExpr(b.table, e, b.temps).insts, BuildExpr(b.table, e, b.temps).temps);
      case VarAssign(x, op, e) =>
        ghost var c := BuildExpr(b.table, e, b.temps);
        var v := BuildExprNode(e, reserved);
        EmittedMoved(b, c.insts, c.temps, b.labels, b.table[x := Var(x)], reserved);
        varVersionTable := varVersionTable[x := Var(x)];
        EmitInst(AssignInst(x, op, v), reserved);
        EmittedTwice(b.(table := varVersionTable), c.insts, [AssignInst(x, op, v)], c.temps, c.temps);
        EmittedIs(b.(table := varVersionTable), c.insts + [AssignInst(x, op, v)], c.temps);
      case If(_, _, _) => BuildIf(s, reserved);
      case While(_, _) => BuildWhile(s, reserved);
      case For(_, _, _, _, _) => BuildFor(s, reserved);
      case Return(_) => BuildReturn(s, reserved);
      case Print(e) =>
        ghost var c := BuildExpr(b.table, e, b.temps);
        var v := BuildExprNode(e, reserved);
        var inst := SSAInstruction(SSAOp.Call, "", [Str(PRINT_NUM), v]);
        EmitInst(inst, reserved);
        EmittedTwice(b, c.insts, [inst], c.temps, c.temps);
        EmittedIs(b, c.insts + [inst], c.temps);
    }

    method BuildStatements(ss: seq<Stmt>, ghost reserved: set<nat>)
      requires Valid(reserved)
      modifies this
      ensures Valid(reserved) && State() == BuildStmts(old(State()), ss)
      decreases ss, 0
    {
      hide LabelInv, BuildStmt;
      ghost var b := State();
      var i := 0;
      assert ss[0..] == ss;
      while i < |ss|
        invariant 0 <= i <= |ss| && Valid(reserved)
        invariant BuildStmts(State(), ss[i..]) == BuildStmts(b, ss)
      {
        assert ss[i..][1..] == ss[i + 1..];
        BuildStatement(ss[i], reserved);
        i := i + 1;
      }
    }

    method BuildReturn(s: Stmt, ghost reserved: set<nat>)
      requires s.Return? && Valid(reserved)
      modifies this
      ensures Valid(reserved) && State() == BuildStmt(old(State()), s)
      decreases s, 0
    {
      hide Emitted, LabelInv, BuildExpr, RegionExits;
      ghost var b := State();
      var v := Num(0);
      ghost var c := if s.result.Some? then BuildExpr(b.table, s.result.value, b.temps) else Code([], Num(0), b.temps);
      if s.result.Some? {
        v := BuildExprNode(s.result.value, reserved);
      } else {
        EmittedNothing(b);
      }
      EmitAll(RegionExits(isNaked), reserved);
      EmittedTwice(b, c.insts, RegionExits(b.isNaked), c.temps, c.temps);
      var inst := SSAInstruction(SSAOp.Return, "", [v]);
      EmitInst(inst, reserved);
      EmittedTwice(b, c.insts + RegionExits(b.isNaked), [inst], c.temps, c.temps);
      EmittedIs(b, c.insts + RegionExits(b.isNaked) + [inst], c.temps);
    }

    /** A branch: its block, its statement, and the instructions that lead on. */
    method BuildBranch(kind: string, n: nat, body: Stmt, last: seq<SSAInstruction>, ghost reserved: set<nat>)
      requires Valid(reserved) && Underscored(kind) && n in reserved
      modifies this
      ensures Valid(reserved - {n})
      ensures State() == Emit(BuildStmt(OpenBlock(old(State()), LabelName(old(func), kind, n)), body), last)
      decreases body, 3
    {
      hide Emitted, LabelInv, BuildStmt, LabelName, OpenBlock, Underscored, Emit;
      var _ := StartBlock(kind, n, reserved);
      BuildStatement(body, reserved - {n});
      EmittedIs(State(), last, tempCounter);
      EmitAll(last, reserved - {n});
    }

    method BuildIf(s: Stmt, ghost reserved: set<nat>)
      requires s.If? && Valid(reserved)
      modifies this
      ensures Valid(reserved) && State() == BuildStmt(old(State()), s)
      decreases s, 1
    {
      hide Emitted, LabelInv, BuildExpr, LabelName, OpenBlock, Underscored, Emit;
      Kinds();
      ghost var b := State();
      ReserveThree(reserved, b.labels);
      ghost var c := BuildExpr(b.table, s.cond, b.temps);
      var cond := BuildExprNode(s.cond, reserved);
      var n := TakeLabels(reserved);
      var thenLbl, elseLbl, mergeLbl :=
        LabelName(func, "_then_", n), LabelName(func, "_else_", n + 1), LabelName(func, "_merge_", n + 2);
      EmitInst(Fork(cond, thenLbl, elseLbl), Reserve(reserved, n));
      IfTestedIs(b, s.cond, State());

      BuildBranch("_then_", n, s.thenBranch, [Goto(mergeLbl)], Reserve(reserved, n));
      assert State() == IfThen(b, s);
      BuildBranch("_else_", n + 1, s.elseBranch, [Goto(mergeLbl)], Reserve(reserved, n) - {n});
      assert State() == IfElse(b, s);

      var _ := StartBlock("_merge_", n + 2, Reserve(reserved, n) - {n} - {n + 1});
    }

    method BuildWhile(s: Stmt, ghost reserved: set<nat>)
      requires s.While? && Valid(reserved)
      modifies this
      ensures Valid(reserved) && State() == BuildStmt(old(State()), s)
      decreases s, 1
    {
      hide Emitted, LabelInv, BuildExpr, LabelName, OpenBlock, Underscored, Emit;
      Kinds();
      ghost var b := State();
      ReserveThree(reserved, b.labels);
      var n := TakeLabels(reserved);
      var condLbl, bodyLbl, endLbl :=
        LabelName(func, "_while_cond_", n), LabelName(func, "_while_body_", n + 1),
          LabelName(func, "_while_end_", n + 2);
      EmittedIs(State(), [Goto(condLbl)], tempCounter);
      EmitInst(Goto(condLbl), Reserve(reserved, n));

      var _ := StartBlock("_while_cond_", n, Reserve(reserved, n));
      ghost var b1 := State();
      assert b1 == WhileEntered(b);
      ghost var c := BuildExpr(b.table, s.cond, b.temps);
      var cond := BuildExprNode(s.cond, Reserve(reserved, n) - {n});
      EmitInst(Fork(cond, bodyLbl, endLbl), Reserve(reserved, n) - {n});
      EmittedTwice(b1, c.insts, [Fork(cond, bodyLbl, endLbl)], c.temps, c.temps);
      EmittedIs(b1, c.insts + [Fork(cond, bodyLbl, endLbl)], c.temps);
      assert State() == WhileTested(b, s.cond);

      BuildBranch("_while_body_", n + 1, s.body, [Goto(condLbl)], Reserve(reserved, n) - {n});
      assert State() == WhileLooped(b, s);

      var _ := StartBlock("_while_end_", n + 2, Reserve(reserved, n) - {n} - {n + 1});
    }

    /** The bounds, the loop variable and the jump to the test. */
    method EnterFor(s: Stmt, n: nat, ghost b: Builder, ghost reserved: set<nat>) returns (endVal: SSAValue)
      requires s.For? && Valid(reserved) && Underscored("_for_cond_") && n in reserved && n == b.labels
      requires State() == b.(labels := b.labels + 3)
      modifies this
      ensures Valid(reserved - {n}) && endVal == ForEnd(b, s).value
      ensures State() == ForEntered(b, s).(temps := ForEnd(b, s).temps)
    {
      hide Emitted, LabelInv, BuildExpr, LabelName, OpenBlock, Underscored, Emit;
      ghost var a, z := ForStart(b, s), ForEnd(b, s);
      TableMoved(State(), ForTable(b, s), reserved);
      varVersionTable := varVersionTable[s.v := Var(s.v)];
      ghost var b0 := State();
      var startVal := BuildExprNode(s.start, reserved);
      endVal := BuildExprNode(s.end, reserved);
      EmittedTwice(b0, a.insts, z.insts, a.temps, z.temps);
      var copy := SSAInstruction(Copy, s.v, [startVal]);
      EmitInst(copy, reserved);
      EmittedTwice(b0, a.insts + z.insts, [copy], z.temps, z.temps);
      var jump := Goto(LabelName(func, "_for_cond_", n));
      EmitInst(jump, reserved);
      ghost var code := a.insts + z.insts + [copy] + [jump];
      EmittedTwice(b0, a.insts + z.insts + [copy], [jump], z.temps, z.temps);
      var _ := StartBlock("_for_cond_", n, reserved);
      ForEnteredIs(b, s, b0, code);
    }

    /** The test at the head of a range loop. */
    method TestFor(s: Stmt, bodyLbl: string, endLbl: string, endVal: SSAValue, ghost b: Builder,
        ghost reserved: set<nat>)
      requires s.For? && |b.blocks| > 0 && Valid(reserved) && endVal == ForEnd(b, s).value
      requires State() == ForEntered(b, s).(temps := ForEnd(b, s).temps) && bodyLbl == ForInner(b)
        && endLbl == ForExit(b)
      modifies this
      ensures Valid(reserved) && State() == ForTested(b, s)
    {
      hide Emitted, LabelInv, BuildExpr, LabelName, Emit, Temp, ForStart, ForEnd, ForEntered, ForTable;
      ghost var b1 := State();
      var condRes, t := GetNextTemp();
      TempsDoNotMatter(b1, State(), reserved);
      ghost var b2 := State();
      var test := SSAInstruction(if s.inclusive then LessEqual else LessThan, condRes.name, [Var(s.v), endVal]);
      EmitInst(test, reserved);
      EmitInst(Fork(condRes, bodyLbl, endLbl), reserved);
      EmittedTwice(b2, [test], [Fork(condRes, bodyLbl, endLbl)], b2.temps, b2.temps);
      EmittedIs(b2, [test] + [Fork(condRes, bodyLbl, endLbl)], b2.temps);
      ForEnteredTemps(b, s);
    }

    method BuildFor(s: Stmt, ghost reserved: set<nat>)
      requires s.For? && Valid(reserved)
      modifies this
      ensures Valid(reserved) && State() == BuildStmt(old(State()), s)
      decreases s, 1
    {
      hide Emitted, LabelInv, BuildExpr, LabelName, OpenBlock, Underscored, Emit, Temp, ForStart, ForEnd, ForEntered,
        ForTable;
      Kinds();
      ghost var b := State();
      ReserveThree(reserved, b.labels);
      var n := TakeLabels(reserved);
      var condLbl, bodyLbl, endLbl :=
        LabelName(func, "_for_cond_", n), LabelName(func, "_for_body_", n + 1), LabelName(func, "_for_end_", n + 2);
      var endVal := EnterFor(s, n, b, Reserve(reserved, n));
      ghost var b1 := State();

      TestFor(s, bodyLbl, endLbl, endVal, b, Reserve(reserved, n) - {n});
      assert State() == ForTested(b, s);

      var next := SSAInstruction(Add, s.v, [Var(s.v), Num(1)]);
      BuildBranch("_for_body_", n + 1, s.body, [next] + [Goto(condLbl)], Reserve(reserved, n) - {n});
      assert State() == ForLooped(b, s);

      var _ := StartBlock("_for_end_", n + 2, Reserve(reserved, n) - {n} - {n + 1});
    }

    /** The blocks of a function. The table keeps what earlier functions left in it. */
    method BuildFunction(f: FuncDecl) returns (built: seq<SSABasicBlock>)
      modifies this
      ensures built == BuildFunc(old(varVersionTable), f)
      ensures varVersionTable == BuildStmt(Entry(old(varVersionTable), f), f.body).table
    {
      hide LabelInv, BuildStmt, Emitted, EndsInReturn;
      ghost var table := varVersionTable;
      tempCounter, blockCounter, func, isNaked := 0, 0, f.name, f.isNaked;
      currentBlockLabel := f.name + "_entry";
      blocks := [SSABasicBlock(currentBlockLabel, if isNaked then []
      else [SSAInstruction(RegionEnter, "", [Str(f.name)])])];
      var i := 0;
      assert f.params[0..] == f.params;
      while i < |f.params|
        invariant 0 <= i <= |f.params|
        invariant WithParams(varVersionTable, f.params[i..]) == WithParams(table, f.params)
        invariant func == f.name && isNaked == f.isNaked && tempCounter == 0 && blockCounter == 0
        invariant blocks == Entry(table, f).blocks && currentBlockLabel == f.name + "_entry"
      {
        assert f.params[i..][1..] == f.params[i + 1..];
        varVersionTable := varVersionTable[f.params[i] := Var(f.params[i])];
        i := i + 1;
      }
      assert State() == Entry(table, f);
      EntryLabels(table, f);
      BuildStatement(f.body, {});
      ghost var b := State();
      var current := GetCurrentBlock({});
      var code := blocks[current].instructions;
      ClosesWhen(b);
      if |code| == 0 || code[|code| - 1].op != SSAOp.Return {
        EmitAll(RegionExits(isNaked), {});
        var inst := SSAInstruction(SSAOp.Return, "", [Num(0)]);
        EmitInst(inst, {});
        EmittedTwice(b, RegionExits(b.isNaked), [inst], b.temps, b.temps);
        EmittedIs(b, RegionExits(b.isNaked) + [inst], b.temps);
      }
      built := blocks;
    }
  }

  lemma ClosesWhen(b: Builder)
    requires |b.blocks| > 0
    ensures var code := b.blocks[|b.blocks| - 1].instructions;
      EndsInReturn(b) <==> |code| > 0 && code[|code| - 1].op == SSAOp.Return
  {
  }

  lemma EmittedIs(b: Builder, insts: seq<SSAInstruction>, temps: nat)
    requires |b.blocks| > 0
    ensures Emitted(b, insts, temps) == Emit(b.(temps := temps), insts)
  {
  }

  /** Emitting does not look at counters or at the table. */
  lemma EmittedMoved(b: Builder, insts: seq<SSAInstruction>, temps: nat, labels: nat, table: Table, reserved: set<nat>)
    requires |b.blocks| > 0
    ensures Emitted(b, insts, temps).(table := table, labels := labels) ==
      Emitted(b.(table := table, labels := labels), insts, temps)
    ensures labels == b.labels && LabelInv(Emitted(b, insts, temps), reserved) ==>
              LabelInv(Emitted(b, insts, temps).(table := table), reserved)
  {
  }

  lemma TableMoved(b: Builder, table: Table, reserved: set<nat>)
    requires LabelInv(b, reserved)
    ensures LabelInv(b.(table := table), reserved)
  {
  }

  lemma IfTestedIs(b: Builder, cond: Expr, r: Builder)
    requires |b.blocks| > 0
    requires var c := BuildExpr(b.table, cond, b.temps);
      r == Emitted(Emitted(b, c.insts, c.temps).(labels := b.labels + 3), [Fork(c.value, ThenName(b), ElseName(b))],
        c.temps)
    ensures r == IfTested(b, cond)
  {
    var c := BuildExpr(b.table, cond, b.temps);
    hide BuildExpr, LabelName;
    var b' := b.(labels := b.labels + 3);
    assert Emitted(b, c.insts, c.temps).(labels := b.labels + 3) == Emitted(b', c.insts, c.temps);
    EmittedTwice(b', c.insts, [Fork(c.value, ThenName(b), ElseName(b))], c.temps, c.temps);
  }

  lemma ForEnteredIs(b: Builder, s: Stmt, b0: Builder, code: seq<SSAInstruction>)
    requires |b.blocks| > 0 && s.For? && b0 == b.(labels := b.labels + 3, table := ForTable(b, s))
    requires code == ForStart(b, s).insts + ForEnd(b, s).insts + [SSAInstruction(Copy, s.v, [ForStart(b, s).value])]
                     + [Goto(ForHead(b))]
    ensures OpenBlock(Emitted(b0, code, ForEnd(b, s).temps), ForHead(b)) ==
      ForEntered(b, s).(temps := ForEnd(b, s).temps)
  {
    hide ForStart, ForEnd, ForTable, LabelName;
  }

  lemma ForEnteredTemps(b: Builder, s: Stmt)
    requires |b.blocks| > 0 && s.For?
    ensures ForEntered(b, s).temps == ForEnd(b, s).temps + 1
  {
  }

  lemma TempsOverwritten(b: Builder, insts: seq<SSAInstruction>, m: nat, n: nat)
    requires |b.blocks| > 0
    ensures Emitted(b, insts, m).(temps := n) == Emitted(b, insts, n)
  {
  }

  lemma TempsForgotten(b: Builder, b': Builder, insts: seq<SSAInstruction>, n: nat)
    requires |b.blocks| > 0 && b' == b.(temps := b'.temps)
    ensures Emitted(b', insts, n) == Emitted(b, insts, n)
  {
  }

  lemma TempsDoNotMatter(b: Builder, b': Builder, reserved: set<nat>)
    requires LabelInv(b, reserved) && b' == b.(temps := b'.temps)
    ensures LabelInv(b', reserved)
  {
  }
}
