/** The abstract syntax handled by src/middleend/ssa/SSABuilder.cpp, integer fragment, and what it is
    documented to mean: 64-bit arithmetic, short-circuit `&&` and `||` with values 0 and 1
    (Documentation.md, operator table rows 11 and 12), loops bounds evaluated once. */
module Ast {
  import opened Options
  import opened Ssa
  import opened Names

  /** Operator spellings. `OtherOp` stands for any spelling the lowering does not know. */
  datatype BinaryOp =
    | Plus | Minus | Star | Slash | Percent
    | EqEq | NotEq | Less | LessOrEq | Greater | GreaterOrEq
    | AmpAmp | PipePipe
    | OtherOp(spelling: string)

  datatype UnaryOp = Negate | LogicalNot | BitwiseNot

  datatype AssignOperator = Set | PlusEq | MinusEq | StarEq | SlashEq

  datatype Expr =
    | IntLit(val: int)
    | VarRef(name: string)
    | Binary(op: BinaryOp, left: Expr, right: Expr)
    | Unary(unop: UnaryOp, operand: Expr)
    | FuncCall(callee: string, args: seq<Expr>)

  datatype Stmt =
    | Block(stmts: seq<Stmt>)
    | ExprStmt(e: Expr)
    | VarAssign(name: string, op: AssignOperator, value: Expr)
    | If(cond: Expr, thenBranch: Stmt, elseBranch: Stmt)
    | While(cond: Expr, body: Stmt)
    | For(v: string, start: Expr, end: Expr, inclusive: bool, body: Stmt)
    | Return(result: Option<Expr>)
    | Print(e: Expr)

  datatype FuncDecl = FuncDecl(name: string, params: seq<string>, body: Stmt, isNaked: bool)

  /** What printing is called in the record of calls. */
  const PRINTED: string := "__lsm_native_print_num"

  predicate IsComparisonOp(op: BinaryOp) {
    op.EqEq? || op.NotEq? || op.Less? || op.LessOrEq? || op.Greater? || op.GreaterOrEq?
  }

  predicate IsArithmeticOp(op: BinaryOp) {
    op.Plus? || op.Minus? || op.Star? || op.Slash? || op.Percent?
  }

  // ----- meaning

  /** What an operator computes on 64-bit integers, None for a fault. `&&` and `||` are not evaluated this
      way, and other spellings have no meaning. */
  function Apply(op: BinaryOp, l: int, r: int): Option<int> {
    match op
    case Plus => Some(Wrap(l + r))
    case Minus => Some(Wrap(l - r))
    case Star => Some(Wrap(l * r))
    case Slash => if r == 0 || (l == MIN64 && r == -1) then None else Some(Wrap(TruncDiv(l, r)))
    case Percent => if r == 0 || (l == MIN64 && r == -1) then None else Some(Wrap(TruncMod(l, r)))
    case EqEq => Some(if l == r then 1 else 0)
    case NotEq => Some(if l == r then 0 else 1)
    case Less => Some(if l < r then 1 else 0)
    case LessOrEq => Some(if l <= r then 1 else 0)
    case Greater => Some(if l > r then 1 else 0)
    case GreaterOrEq => Some(if l >= r then 1 else 0)
    case _ => None
  }

  /** The new value of a variable that holds l and is assigned r. */
  function ApplyAssign(op: AssignOperator, l: int, r: int): Option<int> {
    match op
    case Set => Some(r)
    case PlusEq => Apply(Plus, l, r)
    case MinusEq => Apply(Minus, l, r)
    case StarEq => Apply(Star, l, r)
    case SlashEq => Apply(Slash, l, r)
  }

  datatype EvalResult = Val(v: int, trace: seq<Event>) | EvalFault

  datatype ArgsResult = Vals(vs: seq<int>, trace: seq<Event>) | ArgsFault

  function Eval(world: World, e: Expr, env: Env, trace: seq<Event>): EvalResult
    decreases e
  {
    match e
    case IntLit(n) => Val(n, trace)
    case VarRef(x) => Val(Read(env, x), trace)
    case Unary(op, a) =>
      var r := Eval(world, a, env, trace);
      if r.EvalFault? then r
      else if op.Negate? then Val(Wrap(-r.v), r.trace)
      else if op.LogicalNot? then Val(if r.v == 0 then 1 else 0, r.trace)
      else Val(-1 - r.v, r.trace)
    case Binary(op, a, b) =>
      var l := Eval(world, a, env, trace);
      if l.EvalFault? then l
      else if op.AmpAmp? && l.v == 0 then Val(0, l.trace)
      else if op.PipePipe? && l.v != 0 then Val(1, l.trace)
      else
        var r := Eval(world, b, env, l.trace);
        if r.EvalFault? then r
        else if op.AmpAmp? || op.PipePipe? then Val(if r.v != 0 then 1 else 0, r.trace)
        else
          var v := Apply(op, l.v, r.v);
          if v == None then EvalFault else Val(v.value, r.trace)
    case FuncCall(f, args) =>
      var vs := EvalArgs(world, args, env, trace);
      if vs.ArgsFault? then EvalFault
      else
        var trace' := vs.trace + [Event(f, vs.vs)];
        Val(Wrap(world(trace')), trace')
  }

  function EvalArgs(world: World, args: seq<Expr>, env: Env, trace: seq<Event>): ArgsResult
    decreases args
  {
    if args == [] then Vals([], trace)
    else
      var r := Eval(world, args[0], env, trace);
      if r.EvalFault? then ArgsFault
      else
        var rest := EvalArgs(world, args[1..], env, r.trace);
        if rest.ArgsFault? then ArgsFault else Vals([r.v] + rest.vs, rest.trace)
  }

  /** How a statement ends; `fuel` bounds the loop iterations, and a run that needs more is cut off. */
  datatype Result =
    | Normal(env: Env, trace: seq<Event>)
    | Returned(value: int, trace: seq<Event>)
    | StmtFault
    | OutOfFuel(trace: seq<Event>)

  function ExecStmt(world: World, s: Stmt, env: Env, trace: seq<Event>, fuel: nat): Result
    decreases fuel, s, 2
  {
    match s
    case Block(ss) => ExecStmts(world, ss, env, trace, fuel)
    case ExprStmt(e) =>
      var r := Eval(world, e, env, trace);
      if r.EvalFault? then StmtFault else Normal(env, r.trace)
    case VarAssign(x, op, e) =>
      var r := Eval(world, e, env, trace);
      if r.EvalFault? then StmtFault
      else
        var v := ApplyAssign(op, Read(env, x), r.v);
        if v == None then StmtFault else Normal(env[x := v.value], r.trace)
    case If(c, a, b) =>
      var r := Eval(world, c, env, trace);
      if r.EvalFault? then StmtFault
      else if r.v != 0 then ExecStmt(world, a, env, r.trace, fuel)
      else ExecStmt(world, b, env, r.trace, fuel)
    case While(c, body) => ExecWhile(world, c, body, env, trace, fuel)
    case For(x, lo, hi, inclusive, body) =>
      var a := Eval(world, lo, env, trace);
      if a.EvalFault? then StmtFault
      else
        var b := Eval(world, hi, env, a.trace);
        if b.EvalFault? then StmtFault
        else ExecFor(world, x, b.v, inclusive, body, env[x := a.v], b.trace, fuel)
    case Return(e) =>
      if e == None then Returned(0, trace)
      else
        var r := Eval(world, e.value, env, trace);
        if r.EvalFault? then StmtFault else Returned(r.v, r.trace)
    case Print(e) =>
      var r := Eval(world, e, env, trace);
      if r.EvalFault? then StmtFault else Normal(env, r.trace + [Event(PRINTED, [r.v])])
  }

  function ExecStmts(world: World, ss: seq<Stmt>, env: Env, trace: seq<Event>, fuel: nat): Result
    decreases fuel, ss, 0
  {
    if ss == [] then Normal(env, trace)
    else
      var r := ExecStmt(world, ss[0], env, trace, fuel);
      if r.Normal? then ExecStmts(world, ss[1..], r.env, r.trace, fuel) else r
  }

  function ExecWhile(world: World, c: Expr, body: Stmt, env: Env, trace: seq<Event>, fuel: nat): Result
    decreases fuel, body, 3
  {
    if fuel == 0 then OutOfFuel(trace)
    else
      var r := Eval(world, c, env, trace);
      if r.EvalFault? then StmtFault
      else if r.v == 0 then Normal(env, r.trace)
      else
        var b := ExecStmt(world, body, env, r.trace, fuel - 1);
        if b.Normal? then ExecWhile(world, c, body, b.env, b.trace, fuel - 1) else b
  }

  predicate InBounds(i: int, end: int, inclusive: bool) {
    if inclusive then i <= end else i < end
  }

  function ExecFor(world: World, x: string, end: int, inclusive: bool, body: Stmt, env: Env, trace: seq<Event>,
      fuel: nat): Result
    decreases fuel, body, 3
  {
    if fuel == 0 then OutOfFuel(trace)
    else if !InBounds(Read(env, x), end, inclusive) then Normal(env, trace)
    else
      var b := ExecStmt(world, body, env, trace, fuel - 1);
      if b.Normal?
      then ExecFor(world, x, end, inclusive, body, b.env[x := Wrap(Read(b.env, x) + 1)], b.trace, fuel - 1)
      else b
  }

  /** A call of the function: what it observably does and returns; running off the end returns 0. */
  function ExecFunc(world: World, f: FuncDecl, env: Env, fuel: nat): Result {
    var r := ExecStmt(world, f.body, env, [], fuel);
    if r.Normal? then Returned(0, r.trace) else r
  }

  // ----- which programs the lowering is right for

  /** A name that cannot be confused with a temporary. */
  ghost predicate IsUserName(x: string) {
    x != "" && !IsTemp(x)
  }

  /** No logical operators, no unary ones, only the arithmetic and comparison operators. */
  ghost predicate IsValueExpr(e: Expr) {
    match e
    case IntLit(n) => InRange(n)
    case VarRef(x) => IsUserName(x)
    case Binary(op, a, b) => (IsArithmeticOp(op) || IsComparisonOp(op)) && IsValueExpr(a) && IsValueExpr(b)
    case Unary(_, _) => false
    case FuncCall(_, args) => forall a :: a in args ==> IsValueExpr(a)
  }

  /** No call and no division: nothing that skipping it could avoid. */
  predicate IsQuiet(e: Expr) {
    match e
    case IntLit(_) => true
    case VarRef(_) => true
    case Binary(op, a, b) => !op.Slash? && !op.Percent? && IsQuiet(a) && IsQuiet(b)
    case Unary(_, a) => IsQuiet(a)
    case FuncCall(_, _) => false
  }

  /** Comparisons joined by `&&` and `||`, with quiet right operands. */
  ghost predicate IsTruthExpr(e: Expr) {
    && e.Binary?
    && if IsComparisonOp(e.op) then IsValueExpr(e)
       else (e.op.AmpAmp? || e.op.PipePipe?) && IsTruthExpr(e.left) && IsTruthExpr(e.right) && IsQuiet(e.right)
  }

  /** The largest value the lowered truth expression can have: `&&` multiplies, `||` adds. */
  function TruthBound(e: Expr): nat {
    if e.Binary? && e.op.AmpAmp? then TruthBound(e.left) * TruthBound(e.right)
    else if e.Binary? && e.op.PipePipe? then TruthBound(e.left) + TruthBound(e.right)
    else 1
  }

  ghost predicate IsCondition(e: Expr) {
    IsValueExpr(e) || (IsTruthExpr(e) && TruthBound(e) <= MAX64)
  }

  function Assigned(s: Stmt): set<string> {
    match s
    case Block(ss) => AssignedIn(ss)
    case VarAssign(x, _, _) => {x}
    case If(_, a, b) => Assigned(a) + Assigned(b)
    case While(_, body) => Assigned(body)
    case For(x, _, _, _, body) => {x} + Assigned(body)
    case _ => {}
  }

  function AssignedIn(ss: seq<Stmt>): set<string> {
    if ss == [] then {} else Assigned(ss[0]) + AssignedIn(ss[1..])
  }

  ghost predicate Supported(s: Stmt) {
    match s
    case Block(ss) => forall t :: t in ss ==> Supported(t)
    case ExprStmt(e) => IsValueExpr(e)
    case VarAssign(x, op, e) => IsUserName(x) && IsValueExpr(e)
    case If(c, a, b) => IsCondition(c) && Supported(a) && Supported(b)
    case While(c, body) => IsCondition(c) && Supported(body)
    case For(x, lo, hi, _, body) =>
      IsUserName(x) && IsValueExpr(lo) && IsValueExpr(hi) && Supported(body)
        && (hi.VarRef? ==> hi.name != x && hi.name !in Assigned(body))
    case Return(e) => e.Some? ==> IsValueExpr(e.value)
    case Print(e) => IsValueExpr(e)
  }

  lemma ApplyTotal(op: BinaryOp, l: int, r: int)
    requires (IsArithmeticOp(op) || IsComparisonOp(op)) && !op.Slash? && !op.Percent?
    ensures Apply(op, l, r).Some?
  {
  }

  lemma {:induction false} QuietNeverFaults(world: World, e: Expr, env: Env, trace: seq<Event>)
    requires IsQuiet(e) && (IsValueExpr(e) || IsTruthExpr(e))
    ensures Eval(world, e, env, trace).Val? && Eval(world, e, env, trace).trace == trace
    decreases e
  {
    hide Apply;
    match e
    case Binary(op, a, b) =>
      QuietNeverFaults(world, a, env, trace);
      QuietNeverFaults(world, b, env, trace);
      if !op.AmpAmp? && !op.PipePipe? {
        ApplyTotal(op, Eval(world, a, env, trace).v, Eval(world, b, env, trace).v);
      }
    case _ =>
  }
}
