/** The intermediate representation of src/middleend/ssa/SSAInstruction.hpp, integer fragment, and a
    machine that runs it: named 64-bit values, array cells, and a trace of calls.

    A Phi carries no operands here and does nothing, as in the encoder (src/backend/x86_64/X86_64Encoder.cpp:456).
    Division faults as the machine's does: on a zero divisor, and on the least integer by -1. */
module Ssa {
  import opened Options

  datatype SSAOp =
    | Copy | Add | Sub | Mul | Div | Mod
    | Equal | NotEqual | LessThan | LessEqual | GreaterThan | GreaterEqual
    | Branch | CondBranch | Call | Return
    | ArrayAlloc | ArrayLoad | ArrayStore
    | RegionEnter | RegionExit | Phi

  datatype SSAValue = Num(n: int) | Str(s: string) | Var(name: string)
  {
    predicate IsConstant() { !Var? }
  }

  /** `result == ""` means the instruction has none. */
  datatype SSAInstruction = SSAInstruction(op: SSAOp, result: string, operands: seq<SSAValue>)

  datatype SSABasicBlock = SSABasicBlock(name: string, instructions: seq<SSAInstruction>)

  // ----- 64-bit arithmetic

  const TWO64: int := 0x1_0000_0000_0000_0000
  const MAX64: int := 0x7fff_ffff_ffff_ffff
  const MIN64: int := -0x8000_0000_0000_0000

  predicate InRange(x: int) { MIN64 <= x <= MAX64 }

  function Wrap(x: int): (r: int)
    ensures InRange(r)
    ensures InRange(x) ==> r == x
  {
    (x - MIN64) % TWO64 + MIN64
  }

  /** The number of the range that differs from x by a multiple of 2^64. */
  lemma WrapExactly(x: int, r: int)
    ensures Wrap(x) == r <==> InRange(r) && exists k :: r == x + k * TWO64
  {
    var w := Wrap(x);
    var k := -((x - MIN64) / TWO64);
    assert w == x + k * TWO64;
    if InRange(r) && exists j :: r == x + j * TWO64 {
      var j :| r == x + j * TWO64;
      assert r - w == (j - k) * TWO64;
    }
  }

  /** Division truncating toward zero, and its remainder. */
  function TruncDiv(a: int, b: int): int
    requires b != 0
  {
    if (a >= 0) == (b > 0) then Abs(a) / Abs(b) else -(Abs(a) / Abs(b))
  }

  function TruncMod(a: int, b: int): int
    requires b != 0
  {
    a - b * TruncDiv(a, b)
  }

  function Abs(a: int): int { if a < 0 then -a else a }

  function Bool(b: bool): int { if b then 1 else 0 }

  predicate IsBinary(op: SSAOp) {
    op.Add? || op.Sub? || op.Mul? || op.Div? || op.Mod? || IsComparison(op)
  }

  predicate IsComparison(op: SSAOp) {
    op.Equal? || op.NotEqual? || op.LessThan? || op.LessEqual? || op.GreaterThan? || op.GreaterEqual?
  }

  /** None is a fault. */
  function Arith(op: SSAOp, l: int, r: int): Option<int>
    requires IsBinary(op)
  {
    match op
    case Add => Some(Wrap(l + r))
    case Sub => Some(Wrap(l - r))
    case Mul => Some(Wrap(l * r))
    case Div => if r == 0 || (l == MIN64 && r == -1) then None else Some(Wrap(TruncDiv(l, r)))
    case Mod => if r == 0 || (l == MIN64 && r == -1) then None else Some(Wrap(TruncMod(l, r)))
    case Equal => Some(Bool(l == r))
    case NotEqual => Some(Bool(l != r))
    case LessThan => Some(Bool(l < r))
    case LessEqual => Some(Bool(l <= r))
    case GreaterThan => Some(Bool(l > r))
    case GreaterEqual => Some(Bool(l >= r))
    case _ => None
  }

  // ----- the machine

  type Env = map<string, int>
  type Cells = map<(string, int), int>

  function Read(env: Env, x: string): int {
    if x in env then env[x] else 0
  }

  /** An instruction without a result writes nothing. */
  function Write(env: Env, x: string, v: int): Env {
    if x == "" then env else env[x := v]
  }

  function Load(cells: Cells, a: string, i: int): int {
    if (a, i) in cells then cells[(a, i)] else 0
  }

  /** A string operand denotes an address that no program below computes with. */
  function Value(v: SSAValue, env: Env): int {
    match v
    case Num(n) => n
    case Str(_) => 0
    case Var(x) => Read(env, x)
  }

  function Values(vs: seq<SSAValue>, env: Env): seq<int> {
    seq(|vs|, i requires 0 <= i < |vs| => Value(vs[i], env))
  }

  /** An observable call: its target and argument values. */
  datatype Event = Event(callee: string, args: seq<int>)

  /** What a call returns, as a function of everything observed up to and including it. */
  type World = seq<Event> -> int

  datatype Store = Store(env: Env, cells: Cells, trace: seq<Event>)

  datatype Config = Config(block: nat, pos: nat, store: Store)

  datatype Outcome = Running(c: Config) | Halted(trace: seq<Event>, value: int) | Faulted

  /** Instructions that neither jump nor return: their effect on the store, None for a fault. */
  predicate IsStraight(op: SSAOp) {
    !op.Branch? && !op.CondBranch? && !op.Return?
  }

  function Exec(world: World, inst: SSAInstruction, s: Store): Option<Store>
    requires IsStraight(inst.op)
  {
    var ops := inst.operands;
    if inst.op.RegionEnter? || inst.op.RegionExit? || inst.op.Phi? || inst.op.ArrayAlloc? then Some(s)
    else if inst.op.Copy? then
      if |ops| < 1 then None else Some(s.(env := Write(s.env, inst.result, Value(ops[0], s.env))))
    else if IsBinary(inst.op) then
      if |ops| < 2 then None
      else
        var v := Arith(inst.op, Value(ops[0], s.env), Value(ops[1], s.env));
        if v == None then None else Some(s.(env := Write(s.env, inst.result, v.value)))
    else if inst.op.Call? then
      if |ops| < 1 || !ops[0].Str? then None
      else
        var trace := s.trace + [Event(ops[0].s, Values(ops[1..], s.env))];
        Some(s.(env := Write(s.env, inst.result, Wrap(world(trace))), trace := trace))
    else if inst.op.ArrayLoad? then
      if |ops| < 2 || !ops[0].Var? then None
      else Some(s.(env := Write(s.env, inst.result, Load(s.cells, ops[0].name, Value(ops[1], s.env)))))
    else
      if |ops| < 3 || !ops[0].Var? then None
      else Some(s.(cells := s.cells[(ops[0].name, Value(ops[1], s.env)) := Value(ops[2], s.env)]))
  }

  /** The first block with that label, |blocks| if there is none. */
  function Find(blocks: seq<SSABasicBlock>, name: string): (i: nat)
    ensures i <= |blocks|
    ensures i < |blocks| ==> blocks[i].name == name
    ensures forall j :: 0 <= j < i ==> blocks[j].name != name
  {
    if blocks == [] || blocks[0].name == name then 0 else 1 + Find(blocks[1..], name)
  }

  function Jump(blocks: seq<SSABasicBlock>, target: SSAValue, s: Store): Outcome {
    if target.Str? && Find(blocks, target.s) < |blocks| then Running(Config(Find(blocks, target.s), 0, s)) else Faulted
  }

  /** One step. Control that runs off the end of a block falls into the next one. */
  function Step(blocks: seq<SSABasicBlock>, world: World, c: Config): Outcome {
    if c.block >= |blocks| then Faulted
    else if c.pos >= |blocks[c.block].instructions| then Running(Config(c.block + 1, 0, c.store))
    else StepInstruction(blocks, world, blocks[c.block].instructions[c.pos], c)
  }

  function StepInstruction(blocks: seq<SSABasicBlock>, world: World, inst: SSAInstruction, c: Config): Outcome {
    var ops := inst.operands;
    match inst.op
    case Branch => if |ops| < 1 then Faulted else Jump(blocks, ops[0], c.store)
    case CondBranch =>
      if |ops| < 3 then Faulted
      else Jump(blocks, if Value(ops[0], c.store.env) != 0 then ops[1] else ops[2], c.store)
    case Return => Halted(c.store.trace, if |ops| < 1 then 0 else Value(ops[0], c.store.env))
    case _ =>
      var s := Exec(world, inst, c.store);
      if s == None then Faulted else Running(Config(c.block, c.pos + 1, s.value))
  }

  /** n steps; a halted or faulted run stays as it is. */
  function Run(blocks: seq<SSABasicBlock>, world: World, c: Config, n: nat): Outcome
    decreases n
  {
    if n == 0 then Running(c)
    else
      var r := Step(blocks, world, c);
      if r.Running? then Run(blocks, world, r.c, n - 1) else r
  }

  lemma {:induction false} RunCompose(blocks: seq<SSABasicBlock>, world: World, c: Config, m: nat, n: nat)
    requires Run(blocks, world, c, m).Running?
    ensures Run(blocks, world, c, m + n) == Run(blocks, world, Run(blocks, world, c, m).c, n)
    decreases m
  {
    if m > 0 { RunCompose(blocks, world, Step(blocks, world, c).c, m - 1, n); }
  }

  /** A run that has ended stays ended with the same outcome. */
  lemma {:induction false} RunEnds(blocks: seq<SSABasicBlock>, world: World, c: Config, m: nat, n: nat)
    requires m <= n && !Run(blocks, world, c, m).Running?
    ensures Run(blocks, world, c, n) == Run(blocks, world, c, m)
    decreases m
  {
    if Step(blocks, world, c).Running? { RunEnds(blocks, world, Step(blocks, world, c).c, m - 1, n - 1); }
  }

  lemma {:induction false} RunStillRunning(blocks: seq<SSABasicBlock>, world: World, c: Config, m: nat, n: nat)
    requires m <= n && Run(blocks, world, c, n).Running?
    ensures Run(blocks, world, c, m).Running?
  {
    if !Run(blocks, world, c, m).Running? { RunEnds(blocks, world, c, m, n); }
  }

  /** Started at the first instruction, the blocks return a value after some calls. */
  ghost predicate HaltsWith(blocks: seq<SSABasicBlock>, world: World, s: Store, trace: seq<Event>, value: int) {
    exists n: nat :: Run(blocks, world, Config(0, 0, s), n) == Halted(trace, value)
  }

  /** No division by zero, no jump to a label that does not exist, no running off the end. */
  ghost predicate FaultFree(blocks: seq<SSABasicBlock>, world: World, c: Config) {
    forall n: nat :: !Run(blocks, world, c, n).Faulted?
  }

  /** Instructions and block ends still to come in the text from block b on. */
  function Rank(blocks: seq<SSABasicBlock>, b: nat): nat
    decreases |blocks| - b
  {
    if b >= |blocks| then 0 else |blocks[b].instructions| + 1 + Rank(blocks, b + 1)
  }

  /** The run comes to a halt or a fault, with this outcome. */
  ghost predicate Stops(blocks: seq<SSABasicBlock>, world: World, c: Config, o: Outcome) {
    exists n: nat :: Run(blocks, world, c, n) == o
  }

  /** The two programs stop alike: same calls and value, or both with a fault. */
  ghost predicate StopsAlike(p: seq<SSABasicBlock>, q: seq<SSABasicBlock>, world: World, c: Config, d: Config) {
    forall o: Outcome :: !o.Running? ==> (Stops(p, world, c, o) <==> Stops(q, world, d, o))
  }

  lemma StopsAlikeTrans(p: seq<SSABasicBlock>, q: seq<SSABasicBlock>, r: seq<SSABasicBlock>, world: World, c: Config)
    requires StopsAlike(p, q, world, c, c) && StopsAlike(q, r, world, c, c)
    ensures StopsAlike(p, r, world, c, c)
  {
  }

  /** Started alike, programs that stop alike return the same values after the same calls, and one is
      free of faults if the other is. */
  lemma StopsAlikeMeans(p: seq<SSABasicBlock>, q: seq<SSABasicBlock>, world: World, s: Store)
    requires StopsAlike(p, q, world, Config(0, 0, s), Config(0, 0, s))
    ensures forall trace, v :: HaltsWith(p, world, s, trace, v) <==> HaltsWith(q, world, s, trace, v)
    ensures FaultFree(p, world, Config(0, 0, s)) <==> FaultFree(q, world, Config(0, 0, s))
  {
    hide Run;
    var c := Config(0, 0, s);
    forall trace, v ensures HaltsWith(p, world, s, trace, v) <==> HaltsWith(q, world, s, trace, v) {
      assert Stops(p, world, c, Halted(trace, v)) <==> Stops(q, world, c, Halted(trace, v));
    }
    assert Stops(p, world, c, Faulted) <==> Stops(q, world, c, Faulted);
  }

  // ----- straight-line code

  predicate Straight(code: seq<SSAInstruction>) {
    forall i :: 0 <= i < |code| ==> IsStraight(code[i].op)
  }

  function ExecAll(world: World, code: seq<SSAInstruction>, s: Store): Option<Store>
    requires Straight(code)
    decreases |code|
  {
    if code == [] then Some(s)
    else
      var s1 := Exec(world, code[0], s);
      if s1 == None then None else ExecAll(world, code[1..], s1.value)
  }

  lemma {:induction false} ExecAllAppend(world: World, a: seq<SSAInstruction>, b: seq<SSAInstruction>, s: Store)
    requires Straight(a) && Straight(b)
    ensures Straight(a + b)
    ensures ExecAll(world, a + b, s) ==
            if ExecAll(world, a, s) == None then None else ExecAll(world, b, ExecAll(world, a, s).value)
    decreases |a|
  {
    if a == [] {
      assert a + b == b;
    } else {
      assert (a + b)[1..] == a[1..] + b;
      if Exec(world, a[0], s).Some? { ExecAllAppend(world, a[1..], b, Exec(world, a[0], s).value); }
    }
  }

  /** A block that holds straight-line code at a position runs it there. */
  lemma {:induction false} RunStraight(blocks: seq<SSABasicBlock>, world: World, c: Config, code: seq<SSAInstruction>)
    requires Straight(code) && ExecAll(world, code, c.store).Some?
    requires c.block < |blocks| && c.pos + |code| <= |blocks[c.block].instructions|
    requires blocks[c.block].instructions[c.pos..c.pos + |code|] == code
    ensures Run(blocks, world, c, |code|) ==
            Running(Config(c.block, c.pos + |code|, ExecAll(world, code, c.store).value))
    decreases |code|
  {
    if code != [] {
      var insts := blocks[c.block].instructions;
      assert insts[c.pos] == code[0];
      var c1 := Config(c.block, c.pos + 1, Exec(world, code[0], c.store).value);
      assert Step(blocks, world, c) == Running(c1);
      assert insts[c.pos + 1..c.pos + 1 + |code[1..]|] == code[1..];
      RunStraight(blocks, world, c1, code[1..]);
    }
  }
}
