/** Exactly when the code of an expression agrees with the documented meaning. */
module LoweringAgreement {
  import opened Options
  import opened Ssa
  import opened Ast
  import opened Lowering
  import opened LoweringExprs
  import opened LoweringExact
  import opened LoweringBlocks
  import opened LoweringStmts
  import opened LoweringFunc

  // ----- value expressions

  /** Somewhere in it a division of two constants is folded that would fault. */
  ghost predicate FoldsFault(table: Table, e: Expr) {
    match e
    case Binary(op, a, b) =>
      || FoldsFault(table, a) || FoldsFault(table, b)
      || (Const(table, a).Some? && Const(table, b).Some?
         && FaultsOn(OpOf(op), Const(table, a).value, Const(table, b).value))
    case FuncCall(_, args) => exists a :: a in args && FoldsFault(table, a)
    case _ => false
  }

  lemma {:induction false} ConstHolds(world: World, globals: map<string, int>, table: Table, e: Expr, env: Env,
      menv: Env, trace: seq<Event>)
    requires Named(e) && TableOk(globals, table) && Agrees(globals, env, menv) && Const(table, e).Some?
    ensures Lowered(world, table, e, env, trace) == Val(Const(table, e).value, trace)
    decreases e
  {
    hide TryFold, IsUserName, Arith;
    match e
    case VarRef(x) => assert Lookup(table, x) == if x in globals then Num(globals[x]) else Var(x);
    case Binary(op, a, b) =>
      ConstHolds(world, globals, table, a, env, menv, trace);
      ConstHolds(world, globals, table, b, env, menv, trace);
    case _ =>
  }

  lemma {:induction false} ValueNamed(e: Expr)
    requires IsValueExpr(e)
    ensures Named(e)
    decreases e
  {
    match e
    case Binary(_, a, b) =>
      ValueNamed(a);
      ValueNamed(b);
    case FuncCall(_, args) =>
      forall a | a in args ensures Named(a) { ValueNamed(a); }
    case _ =>
  }

  /** On value expressions the code does what is meant, except that where it folds a fault away, what is
      meant is a fault. */
  lemma {:induction false} LoweredIsMeant(world: World, globals: map<string, int>, table: Table, e: Expr, env: Env,
      menv: Env, trace: seq<Event>)
    requires IsValueExpr(e) && TableOk(globals, table) && Agrees(globals, env, menv)
    ensures if FoldsFault(table, e) then Eval(world, e, env, trace).EvalFault?
            else Lowered(world, table, e, env, trace) == Eval(world, e, env, trace)
    decreases e, 0
  {
    hide TryFold, IsUserName, Arith, Apply, OpOf, TableOk, Agrees, Const;
    match e
    case Binary(op, a, b) =>
      ValueNamed(e);
      LoweredIsMeant(world, globals, table, a, env, menv, trace);
      var l := Eval(world, a, env, trace);
      if l.Val? && !FoldsFault(table, a) {
        LoweredIsMeant(world, globals, table, b, env, menv, l.trace);
        var r := Eval(world, b, env, l.trace);
        if r.Val? && !FoldsFault(table, b) {
          OperatorRight(op, l.v, r.v);
          if Const(table, a).Some? && Const(table, b).Some? {
            ConstHolds(world, globals, table, a, env, menv, trace);
            ConstHolds(world, globals, table, b, env, menv, l.trace);
            FoldExactly(OpOf(op), Num(l.v), Num(r.v));
          }
        }
      }
    case FuncCall(f, args) => ArgsAreMeant(world, globals, table, args, env, menv, trace);
    case _ =>
  }

  lemma {:induction false} ArgsAreMeant(world: World, globals: map<string, int>, table: Table, args: seq<Expr>,
      env: Env, menv: Env, trace: seq<Event>)
    requires (forall a :: a in args ==> IsValueExpr(a)) && TableOk(globals, table) && Agrees(globals, env, menv)
    ensures if exists a :: a in args && FoldsFault(table, a) then EvalArgs(world, args, env, trace).ArgsFault?
            else LoweredArgs(world, table, args, env, trace) == EvalArgs(world, args, env, trace)
    decreases args, 0
  {
    hide TableOk, Agrees, Eval, Lowered, FoldsFault, IsValueExpr;
    if args != [] {
      LoweredIsMeant(world, globals, table, args[0], env, menv, trace);
      var r := Eval(world, args[0], env, trace);
      assert forall a :: a in args ==> a == args[0] || a in args[1..];
      if r.Val? { ArgsAreMeant(world, globals, table, args[1..], env, menv, r.trace); }
    }
  }

  /** The code of a value expression does what is meant if and only if it folds no fault away, or faults
      all the same. */
  lemma ValueExactly(world: World, globals: map<string, int>, table: Table, e: Expr, env: Env, menv: Env,
      trace: seq<Event>)
    requires IsValueExpr(e) && TableOk(globals, table) && Agrees(globals, env, menv)
    ensures Lowered(world, table, e, env, trace) == Eval(world, e, env, trace) <==>
            !FoldsFault(table, e) || Lowered(world, table, e, env, trace).EvalFault?
  {
    hide TableOk, Agrees, Eval, Lowered, FoldsFault, IsValueExpr;
    LoweredIsMeant(world, globals, table, e, env, menv, trace);
  }

  // ----- how many calls

  /** Calls that the code makes, always the same number. */
  function Calls(e: Expr): nat {
    match e
    case Binary(_, a, b) => Calls(a) + Calls(b)
    case FuncCall(_, args) => CallsIn(args) + 1
    case _ => 0
  }

  function CallsIn(args: seq<Expr>): nat {
    if args == [] then 0 else Calls(args[0]) + CallsIn(args[1..])
  }

  lemma {:induction false} LoweredCalls(world: World, table: Table, e: Expr, env: Env, trace: seq<Event>)
    requires Lowered(world, table, e, env, trace).Val?
    ensures var t := Lowered(world, table, e, env, trace).trace; trace <= t && |t| == |trace| + Calls(e)
    decreases e, 0
  {
    hide Combine;
    match e
    case Binary(_, a, b) =>
      LoweredCalls(world, table, a, env, trace);
      LoweredCalls(world, table, b, env, Lowered(world, table, a, env, trace).trace);
    case FuncCall(_, args) => LoweredArgsCalls(world, table, args, env, trace);
    case _ =>
  }

  lemma {:induction false} LoweredArgsCalls(world: World, table: Table, args: seq<Expr>, env: Env, trace: seq<Event>)
    requires LoweredArgs(world, table, args, env, trace).Vals?
    ensures var t := LoweredArgs(world, table, args, env, trace).trace; trace <= t && |t| == |trace| + CallsIn(args)
    decreases args, 0
  {
    if args != [] {
      LoweredCalls(world, table, args[0], env, trace);
      LoweredArgsCalls(world, table, args[1..], env, Lowered(world, table, args[0], env, trace).trace);
    }
  }

  // ----- conditions

  /** Comparisons joined by `&&` and `||`. */
  ghost predicate IsLogic(e: Expr) {
    && e.Binary?
    && if IsComparisonOp(e.op) then IsValueExpr(e)
    else (e.op.AmpAmp? || e.op.PipePipe?) && IsLogic(e.left) && IsLogic(e.right)
  }

  /** Whether the left operand's truth decides. */
  predicate Skips(op: BinaryOp, left: bool) {
    if op.AmpAmp? then !left else left
  }

  /** The count of a condition: comparisons count 0 or 1 as compiled, `&&` multiplies, `||` adds. */
  function Count(world: World, table: Table, e: Expr, env: Env, trace: seq<Event>): EvalResult {
    if !e.Binary? || IsComparisonOp(e.op) then Lowered(world, table, e, env, trace)
    else
      var l := Count(world, table, e.left, env, trace);
      if l.EvalFault? then l
      else
        var r := Count(world, table, e.right, env, l.trace);
        if r.EvalFault? then r else Val(if e.op.AmpAmp? then l.v * r.v else l.v + r.v, r.trace)
  }

  lemma WrapIs(x: int) returns (k: int)
    ensures Wrap(x) == x - TWO64 * k
  {
    k := (x - MIN64) / TWO64;
  }

  lemma WrapMultiple(x: int, k: int)
    ensures Wrap(x + TWO64 * k) == Wrap(x)
  {
    var q := (x - MIN64) / TWO64;
    assert x - MIN64 == TWO64 * q + (x - MIN64) % TWO64;
    assert x + TWO64 * k - MIN64 == TWO64 * (q + k) + (x - MIN64) % TWO64;
  }

  lemma WrapSum(x: int, y: int)
    ensures Wrap(Wrap(x) + Wrap(y)) == Wrap(x + y)
  {
    var j := WrapIs(x);
    var k := WrapIs(y);
    WrapMultiple(x + y, -j - k);
  }

  lemma WrapProduct(x: int, y: int)
    ensures Wrap(Wrap(x) * Wrap(y)) == Wrap(x * y)
  {
    var j := WrapIs(x);
    var k := WrapIs(y);
    var m := -j * y - x * k + TWO64 * j * k;
    ProductOf(x, y, j, k);
    WrapMultiple(x * y, m);
  }

  lemma ProductOf(x: int, y: int, j: int, k: int)
    ensures (x - TWO64 * j) * (y - TWO64 * k) == x * y + TWO64 * (-j * y - x * k + TWO64 * j * k)
  {
  }

  /** The code's value is the count, wrapped around to 64 bits. */
  lemma {:induction false} LoweredIsCount(world: World, table: Table, e: Expr, env: Env, trace: seq<Event>)
    requires IsLogic(e)
    ensures
      var c, r := Lowered(world, table, e, env, trace), Count(world, table, e, env, trace);
      && (c.EvalFault? <==> r.EvalFault?)
      && (r.Val? ==> c == Val(Wrap(r.v), r.trace) && r.v >= 0 && (IsComparisonOp(e.op) ==> r.v <= 1))
    decreases e
  {
    hide Lowered, Wrap, IsValueExpr;
    if IsComparisonOp(e.op) {
      if Lowered(world, table, e, env, trace).Val? {
        ComparisonBit(world, table, e, env, trace);
        WrapBit(Lowered(world, table, e, env, trace).v);
      }
    } else {
      LoweredLogic(world, table, e, env, trace);
      LoweredIsCount(world, table, e.left, env, trace);
      var l := Count(world, table, e.left, env, trace);
      if l.Val? {
        LoweredIsCount(world, table, e.right, env, l.trace);
        var r := Count(world, table, e.right, env, l.trace);
        if r.Val? {
          WrapSum(l.v, r.v);
          WrapProduct(l.v, r.v);
          ProductSign(l.v, r.v);
        }
      }
    }
  }

  lemma WrapBit(x: int)
    requires 0 <= x <= 1
    ensures Wrap(x) == x
  {
  }

  lemma LoweredLogic(world: World, table: Table, e: Expr, env: Env, trace: seq<Event>)
    requires e.Binary? && (e.op.AmpAmp? || e.op.PipePipe?)
    ensures
      var l := Lowered(world, table, e.left, env, trace);
      Lowered(world, table, e, env, trace) ==
      if l.EvalFault? then EvalFault
      else
        var r := Lowered(world, table, e.right, env, l.trace);
        if r.EvalFault? then EvalFault else Val(Wrap(if e.op.AmpAmp? then l.v * r.v else l.v + r.v), r.trace)
  {
    hide Const, Combine, Wrap;
    var l := Lowered(world, table, e.left, env, trace);
    if l.Val? {
      var r := Lowered(world, table, e.right, env, l.trace);
      if r.Val? { LogicFolds(e.op, Const(table, e.left).Some? && Const(table, e.right).Some?, l.v, r.v); }
    }
  }

  lemma LogicFolds(op: BinaryOp, folds: bool, l: int, r: int)
    requires op.AmpAmp? || op.PipePipe?
    ensures Combine(op, folds, l, r) == Some(Wrap(if op.AmpAmp? then l * r else l + r))
  {
  }

  lemma ComparisonBit(world: World, table: Table, e: Expr, env: Env, trace: seq<Event>)
    requires e.Binary? && IsComparisonOp(e.op) && Lowered(world, table, e, env, trace).Val?
    ensures 0 <= Lowered(world, table, e, env, trace).v <= 1
  {
    hide Const, Combine, IsComparisonOp;
    var folds := Const(table, e.left).Some? && Const(table, e.right).Some?;
    var l := Lowered(world, table, e.left, env, trace);
    CombineBit(e.op, folds, l.v, Lowered(world, table, e.right, env, l.trace).v);
  }

  lemma CombineBit(op: BinaryOp, folds: bool, l: int, r: int)
    requires IsComparisonOp(op)
    ensures Combine(op, folds, l, r).Some? && 0 <= Combine(op, folds, l, r).value <= 1
  {
  }

  lemma WrapZero(n: int)
    ensures Wrap(n) == 0 <==> n % TWO64 == 0
  {
    var k := WrapIs(n);
    if Wrap(n) == 0 {
      assert n == TWO64 * k;
    } else if n % TWO64 == 0 {
      var q := n / TWO64;
      assert n == TWO64 * q;
      WrapMultiple(0, q);
    }
  }

  /** Operands that are meant to be skipped, but whose code runs, neither fault nor make calls. */
  ghost predicate SkipsQuietly(world: World, table: Table, e: Expr, env: Env, trace: seq<Event>) {
    e.Binary? && !IsComparisonOp(e.op) ==>
      && SkipsQuietly(world, table, e.left, env, trace)
      && var l := Eval(world, e.left, env, trace);
      && l.Val?
      && if Skips(e.op, l.v != 0) then Quiet(Lowered(world, table, e.right, env, l.trace), l.trace)
         else SkipsQuietly(world, table, e.right, env, l.trace)
  }

  ghost predicate Quiet(r: EvalResult, trace: seq<Event>) {
    r.Val? && r.trace == trace
  }

  lemma LogicMeans(world: World, e: Expr, env: Env, trace: seq<Event>)
    requires e.Binary? && (e.op.AmpAmp? || e.op.PipePipe?) && Eval(world, e, env, trace).Val?
    ensures
      var l, m := Eval(world, e.left, env, trace), Eval(world, e, env, trace);
      && l.Val?
      && if Skips(e.op, l.v != 0) then m.trace == l.trace && (m.v != 0 <==> e.op.PipePipe?)
         else Eval(world, e.right, env, l.trace).Val? && m.trace == Eval(world, e.right, env, l.trace).trace
              && (m.v != 0 <==> Eval(world, e.right, env, l.trace).v != 0)
  {
  }

  lemma LeafIsMeant(world: World, globals: map<string, int>, table: Table, e: Expr, env: Env, menv: Env,
      trace: seq<Event>)
    requires IsValueExpr(e) && TableOk(globals, table) && Agrees(globals, env, menv) && Eval(world, e, env, trace).Val?
    ensures Lowered(world, table, e, env, trace) == Eval(world, e, env, trace)
  {
    hide Eval, Lowered, TableOk, Agrees, FoldsFault, IsValueExpr;
    LoweredIsMeant(world, globals, table, e, env, menv, trace);
  }

  /** If what is skipped is quiet, the code makes the calls that are meant, and the count is zero exactly
      if the condition does not hold. */
  lemma {:induction false} QuietAgrees(world: World, globals: map<string, int>, table: Table, e: Expr, env: Env,
      menv: Env, trace: seq<Event>)
    requires IsLogic(e) && TableOk(globals, table) && Agrees(globals, env, menv)
    requires Eval(world, e, env, trace).Val? && SkipsQuietly(world, table, e, env, trace)
    ensures
      var n, m := Count(world, table, e, env, trace), Eval(world, e, env, trace);
      n.Val? && n.trace == m.trace && n.v >= 0 && (n.v > 0 <==> m.v != 0)
    decreases e
  {
    hide Eval, Lowered, TableOk, Agrees, IsValueExpr;
    LoweredIsCount(world, table, e, env, trace);
    if IsComparisonOp(e.op) {
      LeafIsMeant(world, globals, table, e, env, menv, trace);
    } else {
      LogicMeans(world, e, env, trace);
      var l := Eval(world, e.left, env, trace);
      QuietAgrees(world, globals, table, e.left, env, menv, trace);
      LoweredIsCount(world, table, e.right, env, l.trace);
      if !Skips(e.op, l.v != 0) { QuietAgrees(world, globals, table, e.right, env, menv, l.trace); }
      var x := Count(world, table, e.left, env, trace);
      var y := Count(world, table, e.right, env, l.trace);
      ProductSign(x.v, y.v);
    }
  }

  lemma ProductSign(x: nat, y: nat)
    ensures x * y >= 0 && (x * y > 0 <==> x > 0 && y > 0)
  {
    if x > 0 && y > 0 { assert x * y >= 1 * y; }
  }

  lemma {:induction false} MeantCalls(world: World, globals: map<string, int>, table: Table, e: Expr, env: Env,
      menv: Env, trace: seq<Event>)
    requires IsLogic(e) && TableOk(globals, table) && Agrees(globals, env, menv) && Eval(world, e, env, trace).Val?
    ensures var t := Eval(world, e, env, trace).trace; trace <= t && |t| <= |trace| + Calls(e)
    decreases e
  {
    hide Eval, Lowered, TableOk, Agrees, IsValueExpr;
    if IsComparisonOp(e.op) {
      LeafIsMeant(world, globals, table, e, env, menv, trace);
      LoweredCalls(world, table, e, env, trace);
    } else {
      LogicMeans(world, e, env, trace);
      MeantCalls(world, globals, table, e.left, env, menv, trace);
      var l := Eval(world, e.left, env, trace);
      if !Skips(e.op, l.v != 0) { MeantCalls(world, globals, table, e.right, env, menv, l.trace); }
    }
  }

  /** Conversely, if the code does not fault and makes as many calls as are meant, what was skipped is quiet. */
  lemma {:induction false} AgreesQuietly(world: World, globals: map<string, int>, table: Table, e: Expr, env: Env,
      menv: Env, trace: seq<Event>)
    requires IsLogic(e) && TableOk(globals, table) && Agrees(globals, env, menv) && Eval(world, e, env, trace).Val?
    requires Count(world, table, e, env, trace).Val? && |Eval(world, e, env, trace).trace| == |trace| + Calls(e)
    ensures SkipsQuietly(world, table, e, env, trace)
    decreases e
  {
    hide Eval, Lowered, TableOk, Agrees, IsValueExpr;
    if !IsComparisonOp(e.op) {
      LogicMeans(world, e, env, trace);
      MeantCalls(world, globals, table, e.left, env, menv, trace);
      var l := Eval(world, e.left, env, trace);
      if !Skips(e.op, l.v != 0) { MeantCalls(world, globals, table, e.right, env, menv, l.trace); }
      AgreesQuietly(world, globals, table, e.left, env, menv, trace);
      QuietAgrees(world, globals, table, e.left, env, menv, trace);
      LoweredIsCount(world, table, e.right, env, l.trace);
      if Skips(e.op, l.v != 0) {
        LoweredCalls(world, table, e.right, env, l.trace);
        SamePrefix(l.trace, Lowered(world, table, e.right, env, l.trace).trace);
      } else {
        AgreesQuietly(world, globals, table, e.right, env, menv, l.trace);
      }
    }
  }

  lemma SamePrefix(a: seq<Event>, b: seq<Event>)
    requires a <= b && |a| == |b|
    ensures a == b
  {
  }

  /** The code of a condition does what is meant: it ends, with the calls meant, in a value that is nonzero
      exactly if the condition holds. */
  ghost predicate ConditionRight(world: World, c: Code, s: Store, m: EvalResult)
    requires Straight(c.insts) && m.Val?
  {
    && ExecAll(world, c.insts, s).Some?
    && var s' := ExecAll(world, c.insts, s).value;
    s'.trace == m.trace && (Value(c.value, s'.env) != 0 <==> m.v != 0)
  }

  /** For every condition over comparisons that is meant to have a value: its code is right if and only if
      the code of what is to be skipped neither faults nor makes calls, and the count is zero or no
      multiple of 2^64. */
  lemma ConditionExactly(world: World, globals: map<string, int>, table: Table, e: Expr, temps: nat, env: Env, s: Store)
    requires IsLogic(e) && TableOk(globals, table) && Agrees(globals, env, s.env) && Eval(world, e, env, s.trace).Val?
    ensures Straight(BuildExpr(table, e, temps).insts)
    ensures
      var n := Count(world, table, e, env, s.trace);
      ConditionRight(world, BuildExpr(table, e, temps), s, Eval(world, e, env, s.trace)) <==>
      SkipsQuietly(world, table, e, env, s.trace) && n.Val? && (n.v == 0 || n.v % TWO64 != 0)
  {
    hide Eval, Lowered, TableOk, Agrees, IsLogic, Count, BuildExpr, ExecAll, Wrap;
    LogicNamed(e);
    var s' := CodeIsLowered(world, globals, table, e, temps, env, s);
    LoweredIsCount(world, table, e, env, s.trace);
    var n, m := Count(world, table, e, env, s.trace), Eval(world, e, env, s.trace);
    if SkipsQuietly(world, table, e, env, s.trace) { QuietAgrees(world, globals, table, e, env, s.env, s.trace); }
    if n.Val? {
      WrapZero(n.v);
      LoweredCalls(world, table, e, env, s.trace);
      if n.trace == m.trace { AgreesQuietly(world, globals, table, e, env, s.env, s.trace); }
    }
  }

  lemma {:induction false} LogicNamed(e: Expr)
    requires IsLogic(e)
    ensures Named(e)
    decreases e
  {
    if IsComparisonOp(e.op) {
      ValueNamed(e);
    } else {
      LogicNamed(e.left);
      LogicNamed(e.right);
    }
  }

  // ----- two comparisons

  /** The code does what is meant, faults included. */
  ghost predicate AllRight(world: World, c: Code, s: Store, m: EvalResult)
    requires Straight(c.insts)
  {
    if m.EvalFault? then ExecAll(world, c.insts, s) == None else ConditionRight(world, c, s, m)
  }

  /** `a && b` and `a || b` on any comparisons, faulting or not, with what their codes do. The code faults
      exactly if that of a does, or that of b after it. Where a is meant to have a value, the code is right
      exactly if b is to be skipped and its code neither faults nor makes calls, or b is not to be skipped
      and faults if it is meant to. */
  lemma LogicDoes(world: World, globals: map<string, int>, table: Table, op: BinaryOp, a: Expr, b: Expr, temps: nat,
      env: Env, s: Store)
    requires (op.AmpAmp? || op.PipePipe?) && TableOk(globals, table) && Agrees(globals, env, s.env)
    requires a.Binary? && IsComparisonOp(a.op) && IsValueExpr(a) && b.Binary? && IsComparisonOp(b.op) && IsValueExpr(b)
    ensures Straight(BuildExpr(table, Binary(op, a, b), temps).insts)
    ensures
      var l, c := Lowered(world, table, a, env, s.trace), BuildExpr(table, Binary(op, a, b), temps);
      ExecAll(world, c.insts, s) == None <==> l.EvalFault? || Lowered(world, table, b, env, l.trace).EvalFault?
    ensures
      var l, c := Eval(world, a, env, s.trace), BuildExpr(table, Binary(op, a, b), temps);
      AllRight(world, c, s, Eval(world, Binary(op, a, b), env, s.trace)) <==>
      if l.EvalFault? then ExecAll(world, c.insts, s) == None
      else
        var r := Lowered(world, table, b, env, l.trace);
        if Skips(op, l.v != 0) then Quiet(r, l.trace) else Eval(world, b, env, l.trace).EvalFault? ==> r.EvalFault?
  {
    hide Eval, Lowered, TableOk, Agrees, BuildExpr, ExecAll, Wrap, IsValueExpr, FoldsFault;
    var e := Binary(op, a, b);
    LogicNamed(e);
    var s' := CodeIsLowered(world, globals, table, e, temps, env, s);
    LoweredIsMeant(world, globals, table, a, env, s.env, s.trace);
    LoweredLogic(world, table, e, env, s.trace);
    var l := Eval(world, a, env, s.trace);
    if l.Val? {
      LoweredIsMeant(world, globals, table, b, env, s.env, l.trace);
      LeftMeans(world, op, a, b, env, s.trace);
      if Eval(world, e, env, s.trace).Val? {
        ConditionExactly(world, globals, table, e, temps, env, s);
        LoweredIsCount(world, table, e, env, s.trace);
        SmallCount(world, table, op, a, b, env, s.trace);
      }
    } else {
      LeftFaulted(world, op, a, b, env, s.trace);
    }
  }

  /** In particular if no fault is folded away in a and b: the code faults if and only if a faults, or b
      after it; and it is right if and only if a faults, or b is not to be skipped, or b neither faults
      nor makes calls. */
  lemma LogicExactly(world: World, globals: map<string, int>, table: Table, op: BinaryOp, a: Expr, b: Expr, temps: nat,
      env: Env, s: Store)
    requires (op.AmpAmp? || op.PipePipe?) && TableOk(globals, table) && Agrees(globals, env, s.env)
    requires a.Binary? && IsComparisonOp(a.op) && IsValueExpr(a) && !FoldsFault(table, a)
    requires b.Binary? && IsComparisonOp(b.op) && IsValueExpr(b) && !FoldsFault(table, b)
    ensures Straight(BuildExpr(table, Binary(op, a, b), temps).insts)
    ensures
      var l, c := Eval(world, a, env, s.trace), BuildExpr(table, Binary(op, a, b), temps);
      ExecAll(world, c.insts, s) == None <==> l.EvalFault? || Eval(world, b, env, l.trace).EvalFault?
    ensures
      var l, c := Eval(world, a, env, s.trace), BuildExpr(table, Binary(op, a, b), temps);
      AllRight(world, c, s, Eval(world, Binary(op, a, b), env, s.trace)) <==>
      l.EvalFault? || !Skips(op, l.v != 0) || Quiet(Eval(world, b, env, l.trace), l.trace)
  {
    hide Eval, Lowered, TableOk, Agrees, BuildExpr, ExecAll, IsValueExpr, FoldsFault, ConditionRight;
    LogicDoes(world, globals, table, op, a, b, temps, env, s);
    LoweredIsMeant(world, globals, table, a, env, s.env, s.trace);
    var l := Eval(world, a, env, s.trace);
    if l.Val? {
      LoweredIsMeant(world, globals, table, b, env, s.env, l.trace);
    } else {
      LeftFaulted(world, op, a, b, env, s.trace);
    }
  }

  lemma LeftFaulted(world: World, op: BinaryOp, a: Expr, b: Expr, env: Env, trace: seq<Event>)
    requires Eval(world, a, env, trace).EvalFault?
    ensures Eval(world, Binary(op, a, b), env, trace).EvalFault?
  {
  }

  lemma LeftMeans(world: World, op: BinaryOp, a: Expr, b: Expr, env: Env, trace: seq<Event>)
    requires (op.AmpAmp? || op.PipePipe?) && Eval(world, a, env, trace).Val?
    ensures
      var l := Eval(world, a, env, trace);
      Eval(world, Binary(op, a, b), env, trace).EvalFault? <==>
        !Skips(op, l.v != 0) && Eval(world, b, env, l.trace).EvalFault?
  {
  }

  lemma SmallCount(world: World, table: Table, op: BinaryOp, a: Expr, b: Expr, env: Env, trace: seq<Event>)
    requires (op.AmpAmp? || op.PipePipe?) && IsLogic(a) && IsLogic(b) && IsComparisonOp(a.op) && IsComparisonOp(b.op)
    ensures
      var n := Count(world, table, Binary(op, a, b), env, trace);
      n.Val? ==> 0 <= n.v <= 2
  {
    LoweredIsCount(world, table, a, env, trace);
    var l := Count(world, table, a, env, trace);
    if l.Val? {
      LoweredIsCount(world, table, b, env, l.trace);
      var r := Count(world, table, b, env, l.trace);
      if r.Val? && l.v == 1 { assert l.v * r.v == r.v; }
    }
  }

  // ----- folded faults in a program

  /** A function that returns a value expression: if a fault is folded away in it, the function is meant
      to fault, but unless the code faults elsewhere it returns. */
  lemma FoldedFaultReturns(world: World, table: Table, f: FuncDecl, e: Expr, m: Store)
    requires LowerableFunc(table, f) && f.body == Stmt.Return(Some(e)) && m.trace == []
    requires FoldsFault(WithParams(table, f.params), e)
    ensures forall fuel: nat :: ExecFunc(world, f, SourceEnv(table, m.env), fuel) == StmtFault
    ensures
      var r := Lowered(world, WithParams(table, f.params), e, SourceEnv(table, m.env), []);
      r.Val? ==> HaltsWith(BuildFunc(table, f), world, m, r.trace, r.v)
  {
    hide Extends, Emit, RegionExits, Run, ExecAll, Lowered, Agrees, TableOk, SourceEnv, GoodTable, FoldsFault,
      IsValueExpr, Computes;
    var globals, program, b, env := Globals(table), BuildFunc(table, f), Entry(table, f), SourceEnv(table, m.env);
    GoodTableOk(table);
    ParamsTable(globals, table, f.params);
    SourceAgrees(table, m.env);
    LoweredIsMeant(world, globals, b.table, e, env, m.env, []);
    ValueNamed(e);
    var c := BuildExpr(b.table, e, b.temps);
    var m' := CodeIsLowered(world, globals, b.table, e, b.temps, env, m);
    var r := Lowered(world, b.table, e, env, []);
    if r.Val? {
      FuncShape(table, f);
      var code := c.insts + RegionExits(b.isNaked) + [SSAInstruction(SSAOp.Return, "", [c.value])];
      assert Built(table, f) == Emit(b.(temps := c.temps), code);
      BeforeEmit(b.(temps := c.temps), code, program);
      var n0 := EntryRuns(program, world, table, f, m);
      ComputesMeans(world, c.insts, m, m', b.temps);
      var n1 := ReturnRuns(program, world, b, c.insts, c.value, m, m', c.temps);
      RunCompose(program, world, Config(0, 0, m), n0, n1);
    }
  }

  lemma ComputesMeans(world: World, insts: seq<SSAInstruction>, s: Store, s': Store, lo: nat)
    requires Computes(world, insts, s, s', lo)
    ensures Straight(insts) && ExecAll(world, insts, s) == Some(s')
  {
  }
}
