/** Where the lowering departs from the documented meaning: concrete programs outside the class that
    module Ast calls supported, each with what it should do and what its code does. */
module LoweringLimits {
  import opened Options
  import opened Names
  import opened Ssa
  import opened Ast
  import opened Lowering
  import opened LoweringExprs
  import opened LoweringExact
  import opened LoweringAgreement
  import opened LoweringFunc

  /** Unary operators have no case in the builder: `-5` is compiled to 0, `!0` too. */
  lemma UnaryIsDropped(world: World, table: Table, env: Env, temps: nat)
    ensures Eval(world, Unary(Negate, IntLit(5)), env, []) == Val(-5, [])
    ensures BuildExpr(table, Unary(Negate, IntLit(5)), temps) == Code([], Num(0), temps)
    ensures Eval(world, Unary(LogicalNot, IntLit(0)), env, []) == Val(1, [])
    ensures BuildExpr(table, Unary(LogicalNot, IntLit(0)), temps) == Code([], Num(0), temps)
  {
  }

  /** Exactly when the code of a unary operator, the constant 0, is right: the operand neither faults nor
      makes a call, and the operator gives 0. */
  lemma UnaryExactly(world: World, table: Table, op: UnaryOp, a: Expr, env: Env, trace: seq<Event>, temps: nat)
    ensures BuildExpr(table, Unary(op, a), temps) == Code([], Num(0), temps)
    ensures
      var r := Eval(world, a, env, trace);
      Eval(world, Unary(op, a), env, trace) == Val(0, trace) <==>
      r.Val? && r.trace == trace
        && (if op.Negate? then r.v % TWO64 == 0 else if op.LogicalNot? then r.v != 0 else r.v == -1)
  {
    var r := Eval(world, a, env, trace);
    if r.Val? && op.Negate? { NegationIsZero(r.v); }
  }

  lemma NegationIsZero(v: int)
    ensures Wrap(-v) == 0 <==> v % TWO64 == 0
  {
    WrapZero(-v);
  }

  /** `return 1 / 0` is meant to fault, and is compiled to `return 0`. */
  lemma DivisionFoldsAway(world: World, m: Store)
    requires m.trace == []
    ensures
      var f := FuncDecl("f", [], Stmt.Return(Some(Binary(Slash, IntLit(1), IntLit(0)))), false);
      && (forall fuel: nat :: ExecFunc(world, f, SourceEnv(map[], m.env), fuel) == StmtFault)
      && HaltsWith(BuildFunc(map[], f), world, m, [], 0)
  {
    var e := Binary(Slash, IntLit(1), IntLit(0));
    var f := FuncDecl("f", [], Stmt.Return(Some(e)), false);
    assert Lowered(world, map[], e, SourceEnv(map[], m.env), []) == Val(0, []);
    assert FoldsFault(map[], e);
    hide Lowered, FoldsFault, ExecFunc, BuildFunc, SourceEnv;
    FoldedFaultReturns(world, map[], f, e, m);
  }

  /** `x != 0 && 10 / x > 1` */
  function Guarded(): Expr {
    Binary(AmpAmp, Binary(NotEq, VarRef("x"), IntLit(0)),
      Binary(Greater, Binary(Slash, IntLit(10), VarRef("x")), IntLit(1)))
  }

  lemma ConjunctionCode(table: Table, a: Expr, b: Expr, temps: nat) returns (rest: seq<SSAInstruction>)
    ensures var l := BuildExpr(table, a, temps);
      var r := BuildExpr(table, b, l.temps);
      BuildExpr(table, Binary(AmpAmp, a, b), temps).insts == l.insts + r.insts + rest
    ensures Straight(rest)
  {
    hide TryFold;
    var l := BuildExpr(table, a, temps);
    var r := BuildExpr(table, b, l.temps);
    if TryFold(Mul, l.value, r.value).Some? {
      rest := [];
      assert l.insts + r.insts + rest == l.insts + r.insts;
    } else {
      rest := [SSAInstruction(Mul, Temp(r.temps), [l.value, r.value])];
    }
  }

  lemma GuardCode(table: Table)
    requires "x" !in table
    ensures BuildExpr(table, Guarded().left, 0) ==
      Code([SSAInstruction(NotEqual, Temp(0), [Var("x"), Num(0)])], Var(Temp(0)), 1)
    ensures BuildExpr(table, Guarded().right, 1).insts ==
            [SSAInstruction(Div, Temp(1), [Num(10), Var("x")])] + [SSAInstruction(GreaterThan, Temp(2),
              [Var(Temp(1)), Num(1)])]
  {
    hide Temp;
    assert BuildExpr(table, VarRef("x"), 0) == Code([], Var("x"), 0);
    DivisionCode(table);
  }

  lemma DivisionCode(table: Table)
    requires "x" !in table
    ensures BuildExpr(table, Guarded().right.left, 1) ==
      Code([SSAInstruction(Div, Temp(1), [Num(10), Var("x")])], Var(Temp(1)), 2)
  {
    hide Temp;
  }

  /** `&&` is not short-circuit: with x == 0 the guarded division is meant to be skipped, but its code
      runs and faults. The same operand without the division is quiet, and supported. */
  lemma AndIsStrict(world: World, table: Table, env: Env, s: Store)
    requires "x" !in table && Read(s.env, "x") == 0 && env == s.env && s.trace == []
    ensures Eval(world, Guarded(), env, []) == Val(0, [])
    ensures var c := BuildExpr(table, Guarded(), 0).insts;
      Straight(c) && ExecAll(world, c, s) == None
    ensures !IsQuiet(Guarded().right)
  {
    hide BuildExpr, Exec, Eval, Temp, ExecAll, Straight;
    GuardSkips(world, env);
    GuardCode(table);
    var rest := ConjunctionCode(table, Guarded().left, Guarded().right, 0);
    var i1 := SSAInstruction(NotEqual, Temp(0), [Var("x"), Num(0)]);
    var i2 := SSAInstruction(Div, Temp(1), [Num(10), Var("x")]);
    var i3 := SSAInstruction(GreaterThan, Temp(2), [Var(Temp(1)), Num(1)]);
    var s1 := s.(env := Write(s.env, Temp(0), 0));
    GuardRuns(world, s, s1);
    var c := BuildExpr(table, Guarded(), 0).insts;
    assert c == [i1] + ([i2] + ([i3] + rest));
    ExecOne(world, i1, s);
    ExecOne(world, i2, s1);
    ExecOne(world, i3, s1);
    StraightBoth([i3], rest);
    ExecAllAppend(world, [i2], [i3] + rest, s1);
    ExecAllAppend(world, [i1], [i2] + ([i3] + rest), s);
  }

  lemma StraightBoth(a: seq<SSAInstruction>, b: seq<SSAInstruction>)
    requires Straight(a) && Straight(b)
    ensures Straight(a + b)
  {
  }

  lemma GuardSkips(world: World, env: Env)
    requires Read(env, "x") == 0
    ensures Eval(world, Guarded(), env, []) == Val(0, []) && !IsQuiet(Guarded().right)
  {
    assert Eval(world, Guarded().left, env, []) == Val(0, []);
  }

  lemma GuardRuns(world: World, s: Store, s1: Store)
    requires Read(s.env, "x") == 0 && s1 == s.(env := Write(s.env, Temp(0), 0))
    ensures Exec(world, SSAInstruction(NotEqual, Temp(0), [Var("x"), Num(0)]), s) == Some(s1)
    ensures Exec(world, SSAInstruction(Div, Temp(1), [Num(10), Var("x")]), s1) == None
  {
    assert Temp(0) != "x" by { assert |Temp(0)| > 1; }
  }

  /** A logical operator used for its value: `1 == 1 || 1 == 1` is meant to be 1 and is compiled to 2. */
  lemma OrIsAddition(world: World, table: Table, env: Env, temps: nat)
    ensures Eval(world, Either(), env, []) == Val(1, [])
    ensures BuildExpr(table, Either(), temps) == Code([], Num(2), temps)
  {
    assert BuildExpr(table, True(), temps) == Code([], Num(1), temps);
  }

  function True(): Expr { Binary(EqEq, IntLit(1), IntLit(1)) }

  function Either(): Expr { Binary(PipePipe, True(), True()) }

  /** n + 1 disjunctions `1 == 1 || 1 == 1` joined by `&&`. */
  function Chain(n: nat): Expr {
    if n == 0 then Either() else Binary(AmpAmp, Chain(n - 1), Either())
  }

  function Pow2(n: nat): nat {
    if n == 0 then 1 else 2 * Pow2(n - 1)
  }

  /** The compiled value doubles with every conjunct. */
  lemma {:induction false} ChainDoubles(table: Table, n: nat, temps: nat)
    ensures BuildExpr(table, Chain(n), temps) == Code([], Num(Wrap(Pow2(n + 1))), temps)
    decreases n
  {
    assert BuildExpr(table, True(), temps) == Code([], Num(1), temps);
    assert BuildExpr(table, Either(), temps) == Code([], Num(2), temps);
    if n > 0 {
      ChainDoubles(table, n - 1, temps);
      WrapDouble(Pow2(n));
      hide Wrap, Chain;
      AndEither(table, n, temps, Wrap(Pow2(n)));
    }
  }

  lemma AndEither(table: Table, n: nat, temps: nat, v: int)
    requires n > 0 && BuildExpr(table, Chain(n - 1), temps) == Code([], Num(v), temps)
    requires BuildExpr(table, Either(), temps) == Code([], Num(2), temps)
    ensures BuildExpr(table, Chain(n), temps) == Code([], Num(Wrap(v * 2)), temps)
  {
    hide Wrap, Either;
  }

  lemma WrapDouble(x: int)
    ensures Wrap(Wrap(x) * 2) == Wrap(2 * x)
  {
    var k := (x - MIN64) / TWO64;
    assert Wrap(x) == x - TWO64 * k;
    assert Wrap(x) * 2 - MIN64 == (2 * x - MIN64) - TWO64 * (2 * k);
    ModShift(2 * x - MIN64, 2 * k);
  }

  lemma ModShift(a: int, k: int)
    ensures (a - TWO64 * k) % TWO64 == a % TWO64
  {
    var q := a / TWO64;
    assert a == TWO64 * q + a % TWO64;
    assert a - TWO64 * k == TWO64 * (q - k) + a % TWO64;
  }

  lemma {:induction false} ChainIsTrue(world: World, env: Env, n: nat)
    ensures Eval(world, Chain(n), env, []) == Val(1, [])
    decreases n
  {
    assert Eval(world, Either(), env, []) == Val(1, []);
    if n > 0 { ChainIsTrue(world, env, n - 1); }
  }

  lemma {:induction false} Pow2Is(n: nat, k: nat, v: nat)
    requires k <= n && Pow2(n - k) == v
    ensures Pow2(n) == v * Pow2(k)
    decreases k
  {
    if k > 0 {
      Pow2Is(n - 1, k - 1, v);
    }
  }

  /** A truth value can overflow: 64 true conjuncts multiply to 2^64, which is 0, so a condition that is
      true takes its else branch. This happens exactly from 64 on; the supported conditions are those
      whose bound excludes it. */
  lemma TruthOverflowsExactly(world: World, table: Table, env: Env, temps: nat, n: nat)
    ensures Eval(world, Chain(n), env, []) == Val(1, [])
    ensures var c := BuildExpr(table, Chain(n), temps);
      c.insts == [] && c.value.Num? && (c.value.n == 0 <==> n >= 63)
  {
    hide BuildExpr, Eval, Chain;
    ChainIsTrue(world, env, n);
    ChainDoubles(table, n, temps);
    PowersOfTwo(64);
    if n >= 63 {
      Pow2Is(n + 1, n - 63, Pow2(64));
      MultipleWraps(Pow2(n - 63));
      assert Pow2(n + 1) == TWO64 * Pow2(n - 63);
    } else {
      Pow2Is(64, 63 - n, Pow2(n + 1));
      Positive(n + 1);
      Positive(63 - n);
      Between(Pow2(n + 1), Pow2(63 - n));
    }
  }

  lemma {:induction false} Positive(n: nat)
    ensures Pow2(n) >= 1 && (n > 0 ==> Pow2(n) >= 2)
  {
    if n > 0 { Positive(n - 1); }
  }

  lemma MultipleWraps(k: nat)
    ensures Wrap(TWO64 * k) == 0
  {
    var j: int := k;
    ModShift(-MIN64, -j);
  }

  lemma Between(a: nat, b: nat)
    requires a >= 1 && b >= 2 && a * b == TWO64
    ensures Wrap(a) != 0
  {
    assert a * b >= a * 2;
  }

  lemma PowersOfTwo(n: nat)
    requires n == 64
    ensures Pow2(n) == TWO64
  {
    var a := n - 63;
    assert Pow2(a - 1) == 1 && Pow2(a) == 2;
    Pow2Is(2 * a, a, 2);
    Pow2Is(4 * a, 2 * a, 4);
    Pow2Is(8 * a, 4 * a, 16);
    Pow2Is(16 * a, 8 * a, 256);
    Pow2Is(32 * a, 16 * a, 65536);
    Pow2Is(n, 32 * a, 0x1_0000_0000);
  }
}
