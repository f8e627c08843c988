/** The code built for an expression computes the expression's documented value and calls, and
    writes nothing but fresh temporaries. */
module LoweringExprs {
  import opened Options
  import opened Names
  import opened Ssa
  import opened Ast
  import opened Lowering

  /** A temporary numbered lo or higher. */
  ghost predicate Above(x: string, lo: nat) {
    exists n: nat :: n >= lo && x == Temp(n)
  }

  /** Nothing but temporaries from lo on has changed. */
  ghost predicate SameBelow(env: Env, env': Env, lo: nat) {
    forall x :: !Above(x, lo) ==> Read(env', x) == Read(env, x)
  }

  /** Where the source program sees value v for a name, the machine sees it too: in the variable of
      that name, or for a global constant in the table. */
  ghost predicate Agrees(globals: map<string, int>, env: Env, menv: Env) {
    forall x :: IsUserName(x) ==> Read(env, x) == (if x in globals then globals[x] else Read(menv, x))
  }

  ghost predicate TableOk(globals: map<string, int>, table: Table) {
    forall x :: Lookup(table, x) == (if x in globals then Num(globals[x]) else Var(x))
  }

  /** A value that code using only temporaries from hi on cannot change. */
  ghost predicate Settled(v: SSAValue, hi: nat) {
    v.Num? || (v.Var? && v.name != "" && !Above(v.name, hi))
  }

  lemma AboveMono(x: string, lo: nat, hi: nat)
    requires lo <= hi && !Above(x, lo)
    ensures !Above(x, hi)
  {
  }

  lemma TempAbove(n: nat, lo: nat)
    ensures Above(Temp(n), lo) <==> lo <= n
  {
    if Above(Temp(n), lo) {
      var m: nat :| m >= lo && Temp(n) == Temp(m);
      TempsDiffer(n, m);
    }
  }

  lemma UserNotAbove(x: string, lo: nat)
    requires IsUserName(x)
    ensures !Above(x, lo)
  {
  }

  lemma SameBelowTrans(a: Env, b: Env, c: Env, lo: nat, hi: nat)
    requires SameBelow(a, b, lo) && SameBelow(b, c, hi) && lo <= hi
    ensures SameBelow(a, c, lo)
  {
    forall x | !Above(x, lo) ensures Read(c, x) == Read(a, x) { AboveMono(x, lo, hi); }
  }

  lemma AgreesKept(globals: map<string, int>, env: Env, menv: Env, menv': Env, lo: nat)
    requires Agrees(globals, env, menv) && SameBelow(menv, menv', lo)
    ensures Agrees(globals, env, menv')
  {
    forall x | IsUserName(x)
      ensures Read(env, x) == (if x in globals then globals[x] else Read(menv', x))
    {
      UserNotAbove(x, lo);
    }
  }

  lemma SettledKept(v: SSAValue, env: Env, env': Env, hi: nat)
    requires Settled(v, hi) && SameBelow(env, env', hi)
    ensures Value(v, env') == Value(v, env)
  {
  }

  lemma SettledMono(v: SSAValue, lo: nat, hi: nat)
    requires Settled(v, lo) && lo <= hi
    ensures Settled(v, hi)
  {
    if v.Var? { AboveMono(v.name, lo, hi); }
  }

  lemma WriteTemp(env: Env, n: nat, v: int)
    ensures SameBelow(env, Write(env, Temp(n), v), n)
    ensures Read(Write(env, Temp(n), v), Temp(n)) == v
    ensures Settled(Var(Temp(n)), n + 1)
  {
    TempAbove(n, n);
    TempAbove(n, n + 1);
  }

  /** Division faults on these operands. */
  predicate FaultsOn(op: SSAOp, l: int, r: int) {
    (op.Div? || op.Mod?) && (r == 0 || (l == MIN64 && r == -1))
  }

  /** Folding two constants gives what the instruction computes exactly if the instruction does not fault. */
  lemma FoldExactly(op: SSAOp, l: SSAValue, r: SSAValue)
    requires IsBinary(op) && l.Num? && r.Num?
    ensures TryFold(op, l, r).Some? && (Arith(op, l.n, r.n) == None <==> FaultsOn(op, l.n, r.n))
    ensures TryFold(op, l, r) == Arith(op, l.n, r.n) <==> !FaultsOn(op, l.n, r.n)
  {
    hide TruncDiv, TruncMod;
  }

  /** What an expression's code promises, from a store: it ends in s' with the expression's value. */
  ghost predicate Computes(world: World, insts: seq<SSAInstruction>, s: Store, s': Store, lo: nat) {
    && Straight(insts) && ExecAll(world, insts, s) == Some(s')
    && s'.cells == s.cells && SameBelow(s.env, s'.env, lo)
  }

  lemma ComputesNothing(world: World, s: Store, lo: nat)
    ensures Computes(world, [], s, s, lo)
  {
  }

  lemma ComputesThen(world: World, a: seq<SSAInstruction>, b: seq<SSAInstruction>, s: Store, s1: Store, s2: Store,
      lo: nat, hi: nat)
    requires Computes(world, a, s, s1, lo) && Computes(world, b, s1, s2, hi) && lo <= hi
    ensures Computes(world, a + b, s, s2, lo)
  {
    ExecAllAppend(world, a, b, s);
    SameBelowTrans(s.env, s1.env, s2.env, lo, hi);
  }

  lemma ExecOne(world: World, inst: SSAInstruction, s: Store)
    requires IsStraight(inst.op)
    ensures Straight([inst]) && ExecAll(world, [inst], s) == Exec(world, inst, s)
  {
    hide Exec;
    var r := Exec(world, inst, s);
    assert [inst][1..] == [];
    if r.Some? { assert ExecAll(world, [], r.value) == r; }
  }

  /** A binary instruction into a fresh temporary. */
  lemma ComputesBinary(world: World, op: SSAOp, n: nat, l: SSAValue, r: SSAValue, s: Store, v: int)
    returns (s': Store)
    requires IsBinary(op) && Arith(op, Value(l, s.env), Value(r, s.env)) == Some(v)
    ensures Computes(world, [SSAInstruction(op, Temp(n), [l, r])], s, s', n)
    ensures s'.trace == s.trace && Read(s'.env, Temp(n)) == v && Settled(Var(Temp(n)), n + 1)
  {
    hide Arith;
    var inst := SSAInstruction(op, Temp(n), [l, r]);
    s' := s.(env := Write(s.env, Temp(n), v));
    assert Exec(world, inst, s) == Some(s');
    ExecOne(world, inst, s);
    WriteTemp(s.env, n, v);
  }

  /** Combining the codes of two operands, folded or not. */
  lemma BinaryCode(world: World, op: SSAOp, l: Code, r: Code, s: Store, s1: Store, s2: Store, lo: nat, v: int)
    returns (s': Store, c: Code)
    requires IsBinary(op) && lo <= l.temps <= r.temps
    requires Computes(world, l.insts, s, s1, lo) && Computes(world, r.insts, s1, s2, l.temps)
    requires Settled(l.value, l.temps) && Settled(r.value, r.temps)
    requires Arith(op, Value(l.value, s1.env), Value(r.value, s2.env)) == Some(v)
    ensures c == var folded := TryFold(op, l.value, r.value);
                 if folded.Some? then Code(l.insts + r.insts, Num(folded.value), r.temps)
                 else Code(l.insts + r.insts + [SSAInstruction(op, Temp(r.temps), [l.value, r.value])],
                           Var(Temp(r.temps)), r.temps + 1)
    ensures Computes(world, c.insts, s, s', lo) && s'.trace == s2.trace
    ensures Value(c.value, s'.env) == v && Settled(c.value, c.temps)
  {
    ComputesThen(world, l.insts, r.insts, s, s1, s2, lo, l.temps);
    SettledKept(l.value, s1.env, s2.env, l.temps);
    var folded := TryFold(op, l.value, r.value);
    if folded.Some? {
      FoldExactly(op, l.value, r.value);
      s' := s2;
      c := Code(l.insts + r.insts, Num(folded.value), r.temps);
    } else {
      hide Arith, TryFold;
      s' := ComputesBinary(world, op, r.temps, l.value, r.value, s2, v);
      var inst := SSAInstruction(op, Temp(r.temps), [l.value, r.value]);
      ComputesThen(world, l.insts + r.insts, [inst], s, s2, s', lo, r.temps);
      c := Code(l.insts + r.insts + [inst], Var(Temp(r.temps)), r.temps + 1);
    }
  }

  lemma OperandValues(world: World, e: Expr, env: Env, trace: seq<Event>)
    requires e.Binary? && IsValueExpr(e) && Eval(world, e, env, trace).Val?
    ensures var l := Eval(world, e.left, env, trace);
      && l.Val?
      && var r := Eval(world, e.right, env, l.trace);
      && r.Val? && r.trace == Eval(world, e, env, trace).trace
      && Arith(OpOf(e.op), l.v, r.v) == Some(Eval(world, e, env, trace).v)
  {
    hide Arith, Apply, OpOf;
    var l := Eval(world, e.left, env, trace);
    if l.Val? {
      OperatorRight(e.op, l.v, Eval(world, e.right, env, l.trace).v);
    }
  }

  /** The instruction chosen for an operator computes what the operator means. */
  lemma OperatorRight(op: BinaryOp, l: int, r: int)
    requires IsArithmeticOp(op) || IsComparisonOp(op)
    ensures Arith(OpOf(op), l, r) == Apply(op, l, r)
  {
    hide Wrap, TruncDiv, TruncMod;
  }

  /** An operator that the builder does not know adds. */
  lemma UnknownAdds(spelling: string, l: int, r: int)
    ensures Arith(OpOf(OtherOp(spelling)), l, r) == Apply(Plus, l, r)
  {
  }

  /** And so does that of a compound assignment. */
  lemma AssignmentRight(op: AssignOperator, l: int, r: int)
    requires !op.Set?
    ensures IsBinary(AssignOp(op)) && Arith(AssignOp(op), l, r) == ApplyAssign(op, l, r)
  {
    hide Wrap, TruncDiv, TruncMod;
  }

  /** The code of a value expression computes its value and makes its calls. */
  lemma {:induction false} ValueExprCorrect(world: World, globals: map<string, int>, table: Table, e: Expr, temps: nat,
      env: Env, s: Store)
    returns (s': Store)
    requires IsValueExpr(e) && TableOk(globals, table) && Agrees(globals, env, s.env)
    requires Eval(world, e, env, s.trace).Val?
    ensures var c, r := BuildExpr(table, e, temps), Eval(world, e, env, s.trace);
      && Computes(world, c.insts, s, s', temps) && s'.trace == r.trace
      && Value(c.value, s'.env) == r.v && Settled(c.value, c.temps)
    decreases e, 0
  {
    hide Computes, SameBelow, Arith, TryFold, IsUserName, Above;
    match e
    case IntLit(n) => s' := s; ComputesNothing(world, s, temps);
    case VarRef(x) => s' := s; ComputesNothing(world, s, temps); VariableSettled(globals, table, x, env, s.env, temps);
    case Binary(op, a, b) =>
      OperandValues(world, e, env, s.trace);
      var l := BuildExpr(table, a, temps);
      var s1 := ValueExprCorrect(world, globals, table, a, temps, env, s);
      StoreAgrees(world, globals, env, l.insts, s, s1, temps);
      var s2 := ValueExprCorrect(world, globals, table, b, l.temps, env, s1);
      hide Eval, OpOf, IsValueExpr;
      var c;
      s', c := BinaryCode(world, OpOf(op), l, BuildExpr(table, b, l.temps), s, s1, s2, temps,
        Eval(world, e, env, s.trace).v);
    case FuncCall(f, args) =>
      var c := BuildArgs(table, args, temps + 1);
      var s1 := ArgsCorrect(world, globals, table, args, temps + 1, env, s);
      s' := CallCorrect(world, f, c, s, s1, temps);
  }

  lemma VariableSettled(globals: map<string, int>, table: Table, x: string, env: Env, menv: Env, temps: nat)
    requires TableOk(globals, table) && Agrees(globals, env, menv) && IsUserName(x)
    ensures Value(Lookup(table, x), menv) == Read(env, x) && Settled(Lookup(table, x), temps)
  {
    UserNotAbove(x, temps);
  }

  lemma StoreAgrees(world: World, globals: map<string, int>, env: Env, insts: seq<SSAInstruction>, s: Store, s': Store,
      lo: nat)
    requires Computes(world, insts, s, s', lo) && Agrees(globals, env, s.env)
    ensures Agrees(globals, env, s'.env)
  {
    AgreesKept(globals, env, s.env, s'.env, lo);
  }

  ghost predicate AllSettled(vs: seq<SSAValue>, hi: nat) {
    forall i :: 0 <= i < |vs| ==> Settled(vs[i], hi)
  }

  lemma {:induction false} ArgsCorrect(world: World, globals: map<string, int>, table: Table, args: seq<Expr>,
      temps: nat, env: Env, s: Store)
    returns (s': Store)
    requires (forall a :: a in args ==> IsValueExpr(a)) && TableOk(globals, table) && Agrees(globals, env, s.env)
    requires EvalArgs(world, args, env, s.trace).Vals?
    ensures var c, r := BuildArgs(table, args, temps), EvalArgs(world, args, env, s.trace);
      && Computes(world, c.insts, s, s', temps) && s'.trace == r.trace
      && Values(c.values, s'.env) == r.vs && AllSettled(c.values, c.temps)
    decreases args, 0
  {
    if args == [] {
      s' := s;
      ComputesNothing(world, s, temps);
    } else {
      var c := BuildExpr(table, args[0], temps);
      var s1 := ValueExprCorrect(world, globals, table, args[0], temps, env, s);
      StoreAgrees(world, globals, env, c.insts, s, s1, temps);
      s' := ArgsCorrect(world, globals, table, args[1..], c.temps, env, s1);
      var rest := BuildArgs(table, args[1..], c.temps);
      ComputesThen(world, c.insts, rest.insts, s, s1, s', temps, c.temps);
      ArgsCons(c.value, rest.values, s1.env, s'.env, c.temps, rest.temps);
    }
  }

  lemma ArgsCons(v: SSAValue, vs: seq<SSAValue>, env: Env, env': Env, lo: nat, hi: nat)
    requires Settled(v, lo) && SameBelow(env, env', lo) && lo <= hi && AllSettled(vs, hi)
    ensures Values([v] + vs, env') == [Value(v, env)] + Values(vs, env')
    ensures AllSettled([v] + vs, hi)
  {
    SettledKept(v, env, env', lo);
    SettledMono(v, lo, hi);
  }

  lemma CallCorrect(world: World, f: string, c: ArgCode, s: Store, s1: Store, temps: nat) returns (s': Store)
    requires Computes(world, c.insts, s, s1, temps + 1) && c.temps > temps
    ensures var trace := s1.trace + [Event(f, Values(c.values, s1.env))];
      && Computes(world, c.insts + [SSAInstruction(SSAOp.Call, Temp(temps), [Str(f)] + c.values)], s, s', temps)
      && s'.trace == trace && Read(s'.env, Temp(temps)) == Wrap(world(trace))
      && Settled(Var(Temp(temps)), c.temps)
  {
    var inst := SSAInstruction(SSAOp.Call, Temp(temps), [Str(f)] + c.values);
    var trace := s1.trace + [Event(f, Values(c.values, s1.env))];
    assert inst.operands[1..] == c.values;
    s' := s1.(env := Write(s1.env, Temp(temps), Wrap(world(trace))), trace := trace);
    assert Exec(world, inst, s1) == Some(s');
    ExecOne(world, inst, s1);
    WriteTemp(s1.env, temps, Wrap(world(trace)));
    SettledMono(Var(Temp(temps)), temps + 1, c.temps);
    hide Exec;
    WeakenComputes(world, c.insts, s, s1, temps, temps + 1);
    ComputesThen(world, c.insts, [inst], s, s1, s', temps, temps);
  }

  lemma WeakenComputes(world: World, insts: seq<SSAInstruction>, s: Store, s': Store, lo: nat, hi: nat)
    requires Computes(world, insts, s, s', hi) && lo <= hi
    ensures Computes(world, insts, s, s', lo)
  {
    forall x | !Above(x, lo) ensures Read(s'.env, x) == Read(s.env, x) { AboveMono(x, lo, hi); }
  }

  // ----- conditions

  lemma ProductBound(a: nat, b: nat, x: nat, y: nat)
    requires a <= x && b <= y && 1 <= x && 1 <= y
    ensures 0 <= a * b <= x * y && (a * b != 0 <==> a != 0 && b != 0)
    ensures x <= x * y && y <= x * y
  {
    assert a * b <= x * b <= x * y;
    if a != 0 && b != 0 { assert a * b >= a * 1; }
    assert x * 1 <= x * y && 1 * y <= x * y;
  }

  lemma {:induction false} TruthBoundPositive(e: Expr)
    requires IsTruthExpr(e)
    ensures TruthBound(e) >= 1
    decreases e
  {
    if !IsComparisonOp(e.op) {
      TruthBoundPositive(e.left);
      TruthBoundPositive(e.right);
      ProductBound(1, 1, TruthBound(e.left), TruthBound(e.right));
    }
  }

  lemma TruthParts(e: Expr)
    requires IsTruthExpr(e) && !IsComparisonOp(e.op)
    ensures 1 <= TruthBound(e.left) <= TruthBound(e) && 1 <= TruthBound(e.right) <= TruthBound(e)
  {
    TruthBoundPositive(e.left);
    TruthBoundPositive(e.right);
    ProductBound(1, 1, TruthBound(e.left), TruthBound(e.right));
  }

  /** The lowered `&&` and `||` have the right truth value and stay within the bound. */
  lemma TruthCombined(op: BinaryOp, l: int, r: int, x: nat, y: nat, bound: int)
    requires (op.AmpAmp? || op.PipePipe?) && 0 <= l <= x && 0 <= r <= y && 1 <= x && 1 <= y
    requires bound == (if op.AmpAmp? then x * y else x + y) && bound <= MAX64
    ensures Arith(OpOf(op), l, r) == Some(if op.AmpAmp? then l * r else l + r)
    ensures 0 <= (if op.AmpAmp? then l * r else l + r) <= bound
    ensures (if op.AmpAmp? then l * r else l + r) != 0 <==> (if op.AmpAmp? then l != 0 && r != 0 else l != 0 || r != 0)
  {
    ProductBound(l, r, x, y);
  }

  lemma ComparisonIsTruth(world: World, e: Expr, env: Env, trace: seq<Event>)
    requires e.Binary? && IsComparisonOp(e.op) && Eval(world, e, env, trace).Val?
    ensures 0 <= Eval(world, e, env, trace).v <= 1
  {
  }

  /** Both operands always run; where the meaning would have skipped the right one, that one is quiet. */
  lemma OperandsRun(world: World, e: Expr, env: Env, trace: seq<Event>)
    requires IsTruthExpr(e) && !IsComparisonOp(e.op) && Eval(world, e, env, trace).Val?
    ensures var l := Eval(world, e.left, env, trace);
      && l.Val?
      && var r := Eval(world, e.right, env, l.trace);
      && r.Val? && Eval(world, e, env, trace).trace == r.trace
      && (Eval(world, e, env, trace).v != 0 <==> (if e.op.AmpAmp? then l.v != 0 && r.v != 0 else l.v != 0 || r.v != 0))
  {
    var l := Eval(world, e.left, env, trace);
    QuietNeverFaults(world, e.right, env, l.trace);
  }

  lemma {:induction false} TruthExprCorrect(world: World, globals: map<string, int>, table: Table, e: Expr, temps: nat,
      env: Env, s: Store)
    returns (s': Store)
    requires IsTruthExpr(e) && TruthBound(e) <= MAX64 && TableOk(globals, table) && Agrees(globals, env, s.env)
    requires Eval(world, e, env, s.trace).Val?
    ensures var c, r := BuildExpr(table, e, temps), Eval(world, e, env, s.trace);
      && Computes(world, c.insts, s, s', temps) && s'.trace == r.trace
      && 0 <= Value(c.value, s'.env) <= TruthBound(e) && (Value(c.value, s'.env) != 0 <==> r.v != 0)
      && Settled(c.value, c.temps)
    decreases e
  {
    hide Computes, SameBelow, Arith, TryFold, IsUserName, Above;
    if IsComparisonOp(e.op) {
      s' := ValueExprCorrect(world, globals, table, e, temps, env, s);
      ComparisonIsTruth(world, e, env, s.trace);
    } else {
      OperandsRun(world, e, env, s.trace);
      TruthParts(e);
      var l := BuildExpr(table, e.left, temps);
      var r := BuildExpr(table, e.right, l.temps);
      var s1 := TruthExprCorrect(world, globals, table, e.left, temps, env, s);
      StoreAgrees(world, globals, env, l.insts, s, s1, temps);
      var s2 := TruthExprCorrect(world, globals, table, e.right, l.temps, env, s1);
      var x, y := Value(l.value, s1.env), Value(r.value, s2.env);
      TruthCombined(e.op, x, y, TruthBound(e.left), TruthBound(e.right), TruthBound(e));
      var c;
      s', c := BinaryCode(world, OpOf(e.op), l, r, s, s1, s2, temps, if e.op.AmpAmp? then x * y else x + y);
    }
  }

  /** The code of a condition is nonzero exactly when the condition is. */
  lemma ConditionCorrect(world: World, globals: map<string, int>, table: Table, e: Expr, temps: nat, env: Env, s: Store)
    returns (s': Store)
    requires IsCondition(e) && TableOk(globals, table) && Agrees(globals, env, s.env)
    requires Eval(world, e, env, s.trace).Val?
    ensures var c, r := BuildExpr(table, e, temps), Eval(world, e, env, s.trace);
      && Computes(world, c.insts, s, s', temps) && s'.trace == r.trace
      && (Value(c.value, s'.env) != 0 <==> r.v != 0)
  {
    if IsValueExpr(e) {
      s' := ValueExprCorrect(world, globals, table, e, temps, env, s);
    } else {
      s' := TruthExprCorrect(world, globals, table, e, temps, env, s);
    }
  }
}
