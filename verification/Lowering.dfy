/** What src/middleend/ssa/SSABuilder.cpp builds, as functions of the builder's state. Expressions
    become straight-line code; statements append to the last block and open new ones. */
module Lowering {
  import opened Options
  import opened Names
  import opened Ssa
  import opened Ast

  /** The builder's variable table: a global with a literal value, or the variable itself. */
  type Table = map<string, SSAValue>

  function Lookup(table: Table, x: string): SSAValue {
    if x in table then table[x] else Var(x)
  }

  /** Folding of two integer constants; a zero divisor folds to 0. */
  function TryFold(op: SSAOp, l: SSAValue, r: SSAValue): Option<int>
    requires IsBinary(op)
  {
    if !l.Num? || !r.Num? then None
    else if (op.Div? || op.Mod?) && r.n == 0 then Some(0)
    else if op.Div? then Some(Wrap(TruncDiv(l.n, r.n)))
    else if op.Mod? then Some(Wrap(TruncMod(l.n, r.n)))
    else Arith(op, l.n, r.n)
  }

  const PRINT_NUM: string := "__lsm_native_print_num"

  /** The instruction chosen for an operator; an unknown operator becomes an addition. */
  function OpOf(op: BinaryOp): (r: SSAOp)
    ensures IsBinary(r)
  {
    match op
    case Plus => Add
    case Minus => Sub
    case Star => Mul
    case Slash => Div
    case Percent => Mod
    case EqEq => Equal
    case NotEq => NotEqual
    case Less => LessThan
    case LessOrEq => LessEqual
    case Greater => GreaterThan
    case GreaterOrEq => GreaterEqual
    case AmpAmp => Mul
    case PipePipe => Add
    case OtherOp(_) => Add
  }

  /** The instruction of an assignment. */
  function AssignOp(op: AssignOperator): SSAOp {
    match op
    case Set => Copy
    case PlusEq => Add
    case MinusEq => Sub
    case StarEq => Mul
    case SlashEq => Div
  }

  datatype Code = Code(insts: seq<SSAInstruction>, value: SSAValue, temps: nat)

  datatype ArgCode = ArgCode(insts: seq<SSAInstruction>, values: seq<SSAValue>, temps: nat)

  function BuildExpr(table: Table, e: Expr, temps: nat): (c: Code)
    ensures c.temps >= temps
    decreases e
  {
    match e
    case IntLit(n) => Code([], Num(n), temps)
    case VarRef(x) => Code([], Lookup(table, x), temps)
    case Unary(_, _) => Code([], Num(0), temps)  // no case for it in the builder
    case Binary(op, a, b) =>
      var l := BuildExpr(table, a, temps);
      var r := BuildExpr(table, b, l.temps);
      var folded := TryFold(OpOf(op), l.value, r.value);
      if folded.Some? then Code(l.insts + r.insts, Num(folded.value), r.temps)
      else
        var res := Temp(r.temps);
        Code(l.insts + r.insts + [SSAInstruction(OpOf(op), res, [l.value, r.value])], Var(res), r.temps + 1)
    case FuncCall(f, args) =>
      var res := Temp(temps);
      var c := BuildArgs(table, args, temps + 1);
      Code(c.insts + [SSAInstruction(SSAOp.Call, res, [Str(f)] + c.values)], Var(res), c.temps)
  }

  function BuildArgs(table: Table, args: seq<Expr>, temps: nat): (c: ArgCode)
    ensures c.temps >= temps && |c.values| == |args|
    decreases args
  {
    if args == [] then ArgCode([], [], temps)
    else
      var first := BuildExpr(table, args[0], temps);
      var rest := BuildArgs(table, args[1..], first.temps);
      ArgCode(first.insts + rest.insts, [first.value] + rest.values, rest.temps)
  }

  /** The builder between two statements. Code is always emitted into the last block. */
  datatype Builder = Builder(
    func: string, isNaked: bool, blocks: seq<SSABasicBlock>, temps: nat, labels: nat, table: Table)

  function Emit(b: Builder, insts: seq<SSAInstruction>): (r: Builder)
    requires |b.blocks| > 0
    ensures |r.blocks| == |b.blocks|
  {
    var last := b.blocks[|b.blocks| - 1];
    b.(blocks := b.blocks[..|b.blocks| - 1] + [last.(instructions := last.instructions + insts)])
  }

  function OpenBlock(b: Builder, name: string): (r: Builder)
    ensures |r.blocks| == |b.blocks| + 1
  {
    b.(blocks := b.blocks + [SSABasicBlock(name, [])])
  }

  function Goto(name: string): SSAInstruction {
    SSAInstruction(SSAOp.Branch, "", [Str(name)])
  }

  function Fork(cond: SSAValue, yes: string, no: string): SSAInstruction {
    SSAInstruction(SSAOp.CondBranch, "", [cond, Str(yes), Str(no)])
  }

  function RegionExits(isNaked: bool): seq<SSAInstruction> {
    if isNaked then [] else [SSAInstruction(RegionExit, "", [])]
  }

  function AssignInst(x: string, op: AssignOperator, v: SSAValue): SSAInstruction {
    if op.Set? then SSAInstruction(Copy, x, [v]) else SSAInstruction(AssignOp(op), x, [Var(x), v])
  }

  function BuildStmt(b: Builder, s: Stmt): (r: Builder)
    requires |b.blocks| > 0
    ensures |r.blocks| >= |b.blocks| && r.temps >= b.temps && r.labels >= b.labels
    ensures r.func == b.func && r.isNaked == b.isNaked
    decreases s, 2
  {
    match s
    case Block(ss) => BuildStmts(b, ss)
    case ExprStmt(e) =>
      var c := BuildExpr(b.table, e, b.temps);
      Emit(b.(temps := c.temps), c.insts)
    case VarAssign(x, op, e) =>
      var c := BuildExpr(b.table, e, b.temps);
      Emit(b.(temps := c.temps, table := b.table[x := Var(x)]), c.insts + [AssignInst(x, op, c.value)])
    case If(_, _, _) => OpenBlock(IfElse(b, s), MergeName(b))
    case While(_, _) => OpenBlock(WhileLooped(b, s), WhileExit(b))
    case For(_, _, _, _, _) => OpenBlock(ForLooped(b, s), ForExit(b))
    case Return(e) =>
      var c := if e.Some? then BuildExpr(b.table, e.value, b.temps) else Code([], Num(0), b.temps);
      Emit(b.(temps := c.temps), c.insts + RegionExits(b.isNaked) + [SSAInstruction(SSAOp.Return, "", [c.value])])
    case Print(e) =>
      var c := BuildExpr(b.table, e, b.temps);
      Emit(b.(temps := c.temps), c.insts + [SSAInstruction(SSAOp.Call, "", [Str(PRINT_NUM), c.value])])
  }

  // The stages of a conditional: tested, then-branch built, else-branch built.

  function ThenName(b: Builder): string { LabelName(b.func, "_then_", b.labels) }

  function ElseName(b: Builder): string { LabelName(b.func, "_else_", b.labels + 1) }

  function MergeName(b: Builder): string { LabelName(b.func, "_merge_", b.labels + 2) }

  function IfTested(b: Builder, cond: Expr): (r: Builder)
    requires |b.blocks| > 0
    ensures |r.blocks| == |b.blocks| && r.temps >= b.temps && r.labels >= b.labels
    ensures r.labels >= b.labels + 3
    ensures r.func == b.func && r.isNaked == b.isNaked
  {
    var c := BuildExpr(b.table, cond, b.temps);
    Emit(b.(temps := c.temps, labels := b.labels + 3), c.insts + [Fork(c.value, ThenName(b), ElseName(b))])
  }

  function IfThen(b: Builder, s: Stmt): (r: Builder)
    requires |b.blocks| > 0 && s.If?
    ensures |r.blocks| > |b.blocks| && r.temps >= b.temps && r.labels >= b.labels
    ensures r.labels >= b.labels + 3
    ensures r.func == b.func && r.isNaked == b.isNaked
    decreases s, 0
  {
    Emit(BuildStmt(OpenBlock(IfTested(b, s.cond), ThenName(b)), s.thenBranch), [Goto(MergeName(b))])
  }

  function IfElse(b: Builder, s: Stmt): (r: Builder)
    requires |b.blocks| > 0 && s.If?
    ensures |r.blocks| > |b.blocks| && r.temps >= b.temps && r.labels >= b.labels
    ensures r.labels >= b.labels + 3
    ensures r.func == b.func && r.isNaked == b.isNaked
    decreases s, 1
  {
    Emit(BuildStmt(OpenBlock(IfThen(b, s), ElseName(b)), s.elseBranch), [Goto(MergeName(b))])
  }

  // The stages of a while loop: condition block open, condition tested, body built.

  function WhileHead(b: Builder): string { LabelName(b.func, "_while_cond_", b.labels) }

  function WhileInner(b: Builder): string { LabelName(b.func, "_while_body_", b.labels + 1) }

  function WhileExit(b: Builder): string { LabelName(b.func, "_while_end_", b.labels + 2) }

  function WhileEntered(b: Builder): (r: Builder)
    requires |b.blocks| > 0
    ensures |r.blocks| == |b.blocks| + 1
  {
    OpenBlock(Emit(b.(labels := b.labels + 3), [Goto(WhileHead(b))]), WhileHead(b))
  }

  function WhileTested(b: Builder, cond: Expr): (r: Builder)
    requires |b.blocks| > 0
    ensures |r.blocks| == |b.blocks| + 1 && r.temps >= b.temps && r.labels >= b.labels
    ensures r.labels >= b.labels + 3
    ensures r.func == b.func && r.isNaked == b.isNaked
  {
    var c := BuildExpr(b.table, cond, b.temps);
    Emit(WhileEntered(b).(temps := c.temps), c.insts + [Fork(c.value, WhileInner(b), WhileExit(b))])
  }

  function WhileLooped(b: Builder, s: Stmt): (r: Builder)
    requires |b.blocks| > 0 && s.While?
    ensures |r.blocks| > |b.blocks| && r.temps >= b.temps && r.labels >= b.labels
    ensures r.labels >= b.labels + 3
    ensures r.func == b.func && r.isNaked == b.isNaked
    decreases s, 0
  {
    Emit(BuildStmt(OpenBlock(WhileTested(b, s.cond), WhileInner(b)), s.body), [Goto(WhileHead(b))])
  }

  // The stages of a range loop: bounds evaluated and variable set, condition tested, body built.

  function ForHead(b: Builder): string { LabelName(b.func, "_for_cond_", b.labels) }

  function ForInner(b: Builder): string { LabelName(b.func, "_for_body_", b.labels + 1) }

  function ForExit(b: Builder): string { LabelName(b.func, "_for_end_", b.labels + 2) }

  function ForTable(b: Builder, s: Stmt): Table
    requires s.For?
  {
    b.table[s.v := Var(s.v)]
  }

  function ForStart(b: Builder, s: Stmt): (c: Code)
    requires s.For?
    ensures c.temps >= b.temps
  {
    BuildExpr(ForTable(b, s), s.start, b.temps)
  }

  function ForEnd(b: Builder, s: Stmt): (c: Code)
    requires s.For?
    ensures c.temps >= b.temps
  {
    BuildExpr(ForTable(b, s), s.end, ForStart(b, s).temps)
  }

  function ForEntered(b: Builder, s: Stmt): (r: Builder)
    requires |b.blocks| > 0 && s.For?
    ensures |r.blocks| == |b.blocks| + 1 && r.temps >= b.temps && r.labels >= b.labels
    ensures r.labels >= b.labels + 3
    ensures r.func == b.func && r.isNaked == b.isNaked
  {
    var a, z := ForStart(b, s), ForEnd(b, s);
    OpenBlock(Emit(b.(temps := z.temps + 1, labels := b.labels + 3, table := ForTable(b, s)),
                   a.insts + z.insts + [SSAInstruction(Copy, s.v, [a.value])] + [Goto(ForHead(b))]), ForHead(b))
  }

  function ForTested(b: Builder, s: Stmt): (r: Builder)
    requires |b.blocks| > 0 && s.For?
    ensures |r.blocks| == |b.blocks| + 1 && r.temps >= b.temps && r.labels >= b.labels
    ensures r.labels >= b.labels + 3
    ensures r.func == b.func && r.isNaked == b.isNaked
  {
    var z := ForEnd(b, s);
    Emit(ForEntered(b, s),
         [SSAInstruction(if s.inclusive then LessEqual else LessThan, Temp(z.temps), [Var(s.v), z.value])]
         + [Fork(Var(Temp(z.temps)), ForInner(b), ForExit(b))])
  }

  function ForLooped(b: Builder, s: Stmt): (r: Builder)
    requires |b.blocks| > 0 && s.For?
    ensures |r.blocks| > |b.blocks| && r.temps >= b.temps && r.labels >= b.labels
    ensures r.labels >= b.labels + 3
    ensures r.func == b.func && r.isNaked == b.isNaked
    decreases s, 0
  {
    Emit(BuildStmt(OpenBlock(ForTested(b, s), ForInner(b)), s.body),
         [SSAInstruction(Add, s.v, [Var(s.v), Num(1)])] + [Goto(ForHead(b))])
  }

  function BuildStmts(b: Builder, ss: seq<Stmt>): (r: Builder)
    requires |b.blocks| > 0
    ensures |r.blocks| >= |b.blocks| && r.temps >= b.temps && r.labels >= b.labels
    ensures r.func == b.func && r.isNaked == b.isNaked
    decreases ss, 0
  {
    if ss == [] then b else BuildStmts(BuildStmt(b, ss[0]), ss[1..])
  }

  function WithParams(table: Table, params: seq<string>): Table
    decreases |params|
  {
    if params == [] then table else WithParams(table[params[0] := Var(params[0])], params[1..])
  }

  function Entry(table: Table, f: FuncDecl): (b: Builder)
    ensures |b.blocks| == 1
  {
    var enter := if f.isNaked then [] else [SSAInstruction(RegionEnter, "", [Str(f.name)])];
    Builder(f.name, f.isNaked, [SSABasicBlock(f.name + "_entry", enter)], 0, 0, WithParams(table, f.params))
  }

  predicate EndsInReturn(b: Builder)
    requires |b.blocks| > 0
  {
    var code := b.blocks[|b.blocks| - 1].instructions;
    |code| > 0 && code[|code| - 1].op == SSAOp.Return
  }

  /** A body that may run off its end is closed by `return 0`. */
  function Close(b: Builder): Builder
    requires |b.blocks| > 0
  {
    if EndsInReturn(b) then b
    else Emit(b, RegionExits(b.isNaked) + [SSAInstruction(SSAOp.Return, "", [Num(0)])])
  }

  function BuildFunc(table: Table, f: FuncDecl): seq<SSABasicBlock> {
    Close(BuildStmt(Entry(table, f), f.body)).blocks
  }
}
