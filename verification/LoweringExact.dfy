/** What the code built for an expression does, on every expression and every run: an account that
    follows the code where it departs from the documented meaning, and from it the exact conditions
    under which the two agree. */
module LoweringExact {
  import opened Options
  import opened Names
  import opened Ssa
  import opened Ast
  import opened Lowering
  import opened LoweringExprs
  import opened LoweringFunc

  // ----- what the code does

  /** The constant that an expression is built to, if it is. */
  function Const(table: Table, e: Expr): Option<int> {
    match e
    case IntLit(n) => Some(n)
    case VarRef(x) => if Lookup(table, x).Num? then Some(Lookup(table, x).n) else None
    case Unary(_, _) => Some(0)
    case Binary(op, a, b) =>
      if Const(table, a).Some? && Const(table, b).Some?
      then TryFold(OpOf(op), Num(Const(table, a).value), Num(Const(table, b).value)) else None
    case FuncCall(_, _) => None
  }

  /** An operation as the code performs it: folded on constants, executed otherwise. */
  function Combine(op: BinaryOp, folds: bool, l: int, r: int): Option<int> {
    if folds then TryFold(OpOf(op), Num(l), Num(r)) else Arith(OpOf(op), l, r)
  }

  /** Both operands of every operator run, `&&` multiplies, `||` adds, unary operators are dropped, and
      division of constants never faults. */
  function Lowered(world: World, table: Table, e: Expr, env: Env, trace: seq<Event>): EvalResult
    decreases e
  {
    match e
    case IntLit(n) => Val(n, trace)
    case VarRef(x) => Val(Read(env, x), trace)
    case Unary(_, _) => Val(0, trace)
    case Binary(op, a, b) =>
      var l := Lowered(world, table, a, env, trace);
      if l.EvalFault? then l
      else
        var r := Lowered(world, table, b, env, l.trace);
        if r.EvalFault? then r
        else
          var v := Combine(op, Const(table, a).Some? && Const(table, b).Some?, l.v, r.v);
          if v == None then EvalFault else Val(v.value, r.trace)
    case FuncCall(f, args) =>
      var vs := LoweredArgs(world, table, args, env, trace);
      if vs.ArgsFault? then EvalFault
      else
        var trace' := vs.trace + [Event(f, vs.vs)];
        Val(Wrap(world(trace')), trace')
  }

  function LoweredArgs(world: World, table: Table, args: seq<Expr>, env: Env, trace: seq<Event>): ArgsResult
    decreases args
  {
    if args == [] then Vals([], trace)
    else
      var r := Lowered(world, table, args[0], env, trace);
      if r.EvalFault? then ArgsFault
      else
        var rest := LoweredArgs(world, table, args[1..], env, r.trace);
        if rest.ArgsFault? then ArgsFault else Vals([r.v] + rest.vs, rest.trace)
  }

  /** No variable is called like a temporary. */
  ghost predicate Named(e: Expr) {
    match e
    case IntLit(_) => true
    case VarRef(x) => IsUserName(x)
    case Unary(_, _) => true
    case Binary(_, a, b) => Named(a) && Named(b)
    case FuncCall(_, args) => forall a :: a in args ==> Named(a)
  }

  /** The code faults, or ends in s' with the value and the calls of r. */
  ghost predicate Does(world: World, c: Code, s: Store, s': Store, lo: nat, r: EvalResult) {
    && Straight(c.insts)
    && if r.EvalFault? then ExecAll(world, c.insts, s) == None
       else Computes(world, c.insts, s, s', lo) && s'.trace == r.trace && Value(c.value, s'.env) == r.v
            && Settled(c.value, c.temps)
  }

  ghost predicate DoesArgs(world: World, c: ArgCode, s: Store, s': Store, lo: nat, r: ArgsResult) {
    && Straight(c.insts)
    && if r.ArgsFault? then ExecAll(world, c.insts, s) == None
       else Computes(world, c.insts, s, s', lo) && s'.trace == r.trace && Values(c.values, s'.env) == r.vs
            && AllSettled(c.values, c.temps)
  }

  lemma FoldsAlways(op: SSAOp, l: int, r: int)
    requires IsBinary(op)
    ensures TryFold(op, Num(l), Num(r)).Some?
  {
  }

  lemma {:induction false} ConstIs(table: Table, e: Expr, temps: nat)
    ensures BuildExpr(table, e, temps).value ==
      match Const(table, e) case Some(n) => Num(n) case None => BuildExpr(table, e, temps).value
    ensures BuildExpr(table, e, temps).value.Num? <==> Const(table, e).Some?
    decreases e
  {
    hide TryFold;
    if e.Binary? {
      ConstIs(table, e.left, temps);
      ConstIs(table, e.right, BuildExpr(table, e.left, temps).temps);
      if Const(table, e.left).Some? && Const(table, e.right).Some? {
        FoldsAlways(OpOf(e.op), Const(table, e.left).value, Const(table, e.right).value);
      } else {
        NoFold(OpOf(e.op), BuildExpr(table, e.left, temps).value,
          BuildExpr(table, e.right, BuildExpr(table, e.left, temps).temps).value);
      }
    }
  }

  lemma NoFold(op: SSAOp, l: SSAValue, r: SSAValue)
    requires IsBinary(op) && !(l.Num? && r.Num?)
    ensures TryFold(op, l, r) == None
  {
  }

  lemma FaultsFirst(world: World, a: seq<SSAInstruction>, b: seq<SSAInstruction>, s: Store)
    requires Straight(a) && Straight(b) && ExecAll(world, a, s) == None
    ensures Straight(a + b) && ExecAll(world, a + b, s) == None
  {
    ExecAllAppend(world, a, b, s);
  }

  lemma FaultsThen(world: World, a: seq<SSAInstruction>, b: seq<SSAInstruction>, s: Store, s1: Store, lo: nat)
    requires Computes(world, a, s, s1, lo) && Straight(b) && ExecAll(world, b, s1) == None
    ensures Straight(a + b) && ExecAll(world, a + b, s) == None
  {
    ExecAllAppend(world, a, b, s);
  }

  /** The code of two operands and of their combination. */
  lemma BinaryDoes(world: World, table: Table, e: Expr, temps: nat, s: Store, s1: Store, s2: Store, env: Env)
    returns (s': Store)
    requires e.Binary?
    requires
      var l, r := BuildExpr(table, e.left, temps), Lowered(world, table, e.left, env, s.trace);
      && r.Val? && Does(world, l, s, s1, temps, r)
      && Does(world, BuildExpr(table, e.right, l.temps), s1, s2, l.temps, Lowered(world, table, e.right, env, s1.trace))
      && Lowered(world, table, e.right, env, s1.trace).Val?
    ensures Does(world, BuildExpr(table, e, temps), s, s', temps, Lowered(world, table, e, env, s.trace))
  {
    hide Computes, SameBelow, Arith, TryFold, Above, Exec, Lowered;
    var l := BuildExpr(table, e.left, temps);
    var r := BuildExpr(table, e.right, l.temps);
    var op := OpOf(e.op);
    var x, y := Value(l.value, s1.env), Value(r.value, s2.env);
    ConstIs(table, e.left, temps);
    ConstIs(table, e.right, l.temps);
    ComputesThen(world, l.insts, r.insts, s, s1, s2, temps, l.temps);
    ComputesSame(world, r.insts, s1, s2, l.temps);
    SettledKept(l.value, s1.env, s2.env, l.temps);
    var folds := Const(table, e.left).Some? && Const(table, e.right).Some?;
    LoweredBinary(world, table, e, env, s.trace);
    s' := s2;
    if folds {
      FoldsAlways(op, x, y);
      BuildFolded(table, e, temps, TryFold(op, Num(x), Num(y)).value);
      ComputesStraight(world, l.insts + r.insts, s, s2, temps);
    } else {
      NoFold(op, l.value, r.value);
      var inst := SSAInstruction(op, Temp(r.temps), [l.value, r.value]);
      BuildUnfolded(table, e, temps);
      if Arith(op, x, y).Some? {
        s' := ComputesBinary(world, op, r.temps, l.value, r.value, s2, Arith(op, x, y).value);
        ComputesThen(world, l.insts + r.insts, [inst], s, s2, s', temps, r.temps);
        ComputesStraight(world, l.insts + r.insts + [inst], s, s', temps);
      } else {
        ArithFaults(world, inst, s2);
        FaultsThen(world, l.insts + r.insts, [inst], s, s2, temps);
      }
    }
  }

  lemma ComputesSame(world: World, insts: seq<SSAInstruction>, s: Store, s': Store, lo: nat)
    requires Computes(world, insts, s, s', lo)
    ensures SameBelow(s.env, s'.env, lo)
  {
  }

  lemma ComputesStraight(world: World, insts: seq<SSAInstruction>, s: Store, s': Store, lo: nat)
    requires Computes(world, insts, s, s', lo)
    ensures Straight(insts)
  {
  }

  lemma ArithFaults(world: World, inst: SSAInstruction, s: Store)
    requires IsBinary(inst.op) && |inst.operands| == 2
    requires Arith(inst.op, Value(inst.operands[0], s.env), Value(inst.operands[1], s.env)) == None
    ensures Straight([inst]) && ExecAll(world, [inst], s) == None
  {
    hide Arith;
    assert Exec(world, inst, s) == None;
  }

  lemma LoweredBinary(world: World, table: Table, e: Expr, env: Env, trace: seq<Event>)
    requires e.Binary? && Lowered(world, table, e.left, env, trace).Val?
    requires Lowered(world, table, e.right, env, Lowered(world, table, e.left, env, trace).trace).Val?
    ensures
      var l := Lowered(world, table, e.left, env, trace);
      var r := Lowered(world, table, e.right, env, l.trace);
      var v := Combine(e.op, Const(table, e.left).Some? && Const(table, e.right).Some?, l.v, r.v);
      Lowered(world, table, e, env, trace) == if v == None then EvalFault else Val(v.value, r.trace)
  {
    hide Combine, Const;
  }

  lemma BuildFolded(table: Table, e: Expr, temps: nat, n: int)
    requires e.Binary?
    requires
      var l := BuildExpr(table, e.left, temps);
      TryFold(OpOf(e.op), l.value, BuildExpr(table, e.right, l.temps).value) == Some(n)
    ensures
      var l := BuildExpr(table, e.left, temps);
      var r := BuildExpr(table, e.right, l.temps);
      BuildExpr(table, e, temps) == Code(l.insts + r.insts, Num(n), r.temps)
  {
    hide TryFold;
  }

  lemma BuildUnfolded(table: Table, e: Expr, temps: nat)
    requires e.Binary?
    requires
      var l := BuildExpr(table, e.left, temps);
      TryFold(OpOf(e.op), l.value, BuildExpr(table, e.right, l.temps).value) == None
    ensures
      var l := BuildExpr(table, e.left, temps);
      var r := BuildExpr(table, e.right, l.temps);
      BuildExpr(table, e, temps) ==
      Code(l.insts + r.insts + [SSAInstruction(OpOf(e.op), Temp(r.temps), [l.value, r.value])], Var(Temp(r.temps)),
        r.temps + 1)
  {
    hide TryFold;
  }

  /** For every expression: its code faults exactly if this account says so, and otherwise has the value
      and makes the calls that it says. */
  lemma {:induction false} CodeIsLowered(world: World, globals: map<string, int>, table: Table, e: Expr, temps: nat,
      env: Env, s: Store)
    returns (s': Store)
    requires Named(e) && TableOk(globals, table) && Agrees(globals, env, s.env)
    ensures Does(world, BuildExpr(table, e, temps), s, s', temps, Lowered(world, table, e, env, s.trace))
    decreases e, 0
  {
    hide Computes, SameBelow, Arith, TryFold, IsUserName, Above, Combine, Const;
    match e
    case IntLit(n) => s' := s; ComputesNothing(world, s, temps);
    case VarRef(x) => s' := s; ComputesNothing(world, s, temps); VariableSettled(globals, table, x, env, s.env, temps);
    case Unary(_, _) => s' := s; ComputesNothing(world, s, temps);
    case Binary(op, a, b) =>
      var l := BuildExpr(table, a, temps);
      var s1 := CodeIsLowered(world, globals, table, a, temps, env, s);
      ExprStraight(table, b, l.temps);
      if Lowered(world, table, a, env, s.trace).EvalFault? {
        s' := s;
        LeftFaults(world, table, e, temps, s);
      } else {
        StoreAgrees(world, globals, env, l.insts, s, s1, temps);
        var s2 := CodeIsLowered(world, globals, table, b, l.temps, env, s1);
        if Lowered(world, table, b, env, s1.trace).EvalFault? {
          s' := s;
          RightFaults(world, table, e, temps, s, s1);
        } else {
          s' := BinaryDoes(world, table, e, temps, s, s1, s2, env);
        }
      }
    case FuncCall(f, args) =>
      var c := BuildArgs(table, args, temps + 1);
      var s1 := ArgsAreLowered(world, globals, table, args, temps + 1, env, s);
      var inst := SSAInstruction(SSAOp.Call, Temp(temps), [Str(f)] + c.values);
      if LoweredArgs(world, table, args, env, s.trace).ArgsFault? {
        s' := s;
        FaultsFirst(world, c.insts, [inst], s);
      } else {
        s' := CallCorrect(world, f, c, s, s1, temps);
        ComputesStraight(world, c.insts + [inst], s, s', temps);
      }
  }

  lemma LeftFaults(world: World, table: Table, e: Expr, temps: nat, s: Store)
    requires e.Binary?
    requires
      var l := BuildExpr(table, e.left, temps);
      Straight(l.insts) && ExecAll(world, l.insts, s) == None && Straight(BuildExpr(table, e.right, l.temps).insts)
    ensures Straight(BuildExpr(table, e, temps).insts) && ExecAll(world, BuildExpr(table, e, temps).insts, s) == None
  {
    hide TryFold, ExecAll;
    var l := BuildExpr(table, e.left, temps);
    var r := BuildExpr(table, e.right, l.temps);
    FaultsFirst(world, l.insts, r.insts, s);
    FaultsFirst(world, l.insts + r.insts, [SSAInstruction(OpOf(e.op), Temp(r.temps), [l.value, r.value])], s);
  }

  lemma RightFaults(world: World, table: Table, e: Expr, temps: nat, s: Store, s1: Store)
    requires e.Binary?
    requires
      var l := BuildExpr(table, e.left, temps);
      var r := BuildExpr(table, e.right, l.temps);
      Computes(world, l.insts, s, s1, temps) && Straight(r.insts) && ExecAll(world, r.insts, s1) == None
    ensures Straight(BuildExpr(table, e, temps).insts) && ExecAll(world, BuildExpr(table, e, temps).insts, s) == None
  {
    hide TryFold, ExecAll, Computes;
    var l := BuildExpr(table, e.left, temps);
    var r := BuildExpr(table, e.right, l.temps);
    FaultsThen(world, l.insts, r.insts, s, s1, temps);
    FaultsFirst(world, l.insts + r.insts, [SSAInstruction(OpOf(e.op), Temp(r.temps), [l.value, r.value])], s);
  }

  lemma {:induction false} ArgsAreLowered(world: World, globals: map<string, int>, table: Table, args: seq<Expr>,
      temps: nat, env: Env, s: Store)
    returns (s': Store)
    requires (forall a :: a in args ==> Named(a)) && TableOk(globals, table) && Agrees(globals, env, s.env)
    ensures DoesArgs(world, BuildArgs(table, args, temps), s, s', temps, LoweredArgs(world, table, args, env, s.trace))
    decreases args, 0
  {
    hide Computes, SameBelow, Above, Lowered, Named, Settled;
    s' := s;
    if args == [] {
      ComputesNothing(world, s, temps);
    } else {
      var c := BuildExpr(table, args[0], temps);
      var s1 := CodeIsLowered(world, globals, table, args[0], temps, env, s);
      ArgsStraight(table, args[1..], c.temps);
      var rest := BuildArgs(table, args[1..], c.temps);
      if Lowered(world, table, args[0], env, s.trace).EvalFault? {
        FaultsFirst(world, c.insts, rest.insts, s);
      } else {
        StoreAgrees(world, globals, env, c.insts, s, s1, temps);
        var s2 := ArgsAreLowered(world, globals, table, args[1..], c.temps, env, s1);
        if LoweredArgs(world, table, args[1..], env, s1.trace).ArgsFault? {
          FaultsThen(world, c.insts, rest.insts, s, s1, temps);
        } else {
          s' := s2;
          ComputesThen(world, c.insts, rest.insts, s, s1, s', temps, c.temps);
          ComputesStraight(world, c.insts + rest.insts, s, s', temps);
          ComputesSame(world, rest.insts, s1, s', c.temps);
          ArgsCons(c.value, rest.values, s1.env, s'.env, c.temps, rest.temps);
        }
      }
    }
  }
}
