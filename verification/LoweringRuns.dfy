/** Running the built code inside a program that extends it: straight-line stretches, jumps, returns,
    and what it means for a machine run to follow the meaning of a statement. */
module LoweringRuns {
  import opened Options
  import opened Names
  import opened Ssa
  import opened Ast
  import opened Lowering
  import opened LoweringExprs
  import opened LoweringBlocks

  /** The end of what is built so far. */
  function At(b: Builder, m: Store): Config
    requires |b.blocks| > 0
  {
    Config(|b.blocks| - 1, |b.blocks[|b.blocks| - 1].instructions|, m)
  }

  lemma CodeAt(program: seq<SSABasicBlock>, b: Builder, insts: seq<SSAInstruction>, m: Store)
    requires |b.blocks| > 0 && Extends(Emit(b, insts).blocks, program)
    ensures var c := At(b, m);
      && c.block < |program| && c.pos + |insts| <= |program[c.block].instructions|
      && program[c.block].instructions[c.pos..c.pos + |insts|] == insts
  {
    var e := Emit(b, insts).blocks;
    var last := b.blocks[|b.blocks| - 1].instructions;
    assert e[|e| - 1].instructions == last + insts;
  }

  lemma RunCode(program: seq<SSABasicBlock>, world: World, b: Builder, insts: seq<SSAInstruction>, m: Store, m': Store)
    requires |b.blocks| > 0 && Extends(Emit(b, insts).blocks, program)
    requires Straight(insts) && ExecAll(world, insts, m) == Some(m')
    ensures Run(program, world, At(b, m), |insts|) == Running(At(Emit(b, insts), m'))
  {
    CodeAt(program, b, insts, m);
    RunStraight(program, world, At(b, m), insts);
  }

  /** Straight-line code followed by one more instruction: the machine reaches that instruction. */
  lemma RunUpTo(program: seq<SSABasicBlock>, world: World, b: Builder, insts: seq<SSAInstruction>,
      last: SSAInstruction, m: Store, m': Store)
    returns (c: Config)
    requires |b.blocks| > 0 && Extends(Emit(b, insts + [last]).blocks, program)
    requires Straight(insts) && ExecAll(world, insts, m) == Some(m')
    ensures Run(program, world, At(b, m), |insts|) == Running(c)
    ensures c.store == m' && c.block < |program| && c.pos < |program[c.block].instructions|
    ensures program[c.block].instructions[c.pos] == last
    ensures Run(program, world, At(b, m), |insts| + 1) == StepInstruction(program, world, last, c)
  {
    hide ExecAll, StepInstruction, Extends, Emit;
    CodeAt(program, b, insts + [last], m);
    var k, pos := At(b, m).block, At(b, m).pos;
    var code := program[k].instructions;
    assert code[pos..pos + |insts|] == code[pos..pos + |insts + [last]|][..|insts|] == insts;
    assert code[pos + |insts|] == code[pos..pos + |insts + [last]|][|insts|] == last;
    RunStraight(program, world, At(b, m), insts);
    c := Config(k, pos + |insts|, m');
    RunCompose(program, world, At(b, m), |insts|, 1);
    OneStep(program, world, c);
  }

  lemma OneStep(program: seq<SSABasicBlock>, world: World, c: Config)
    ensures Run(program, world, c, 1) == Step(program, world, c)
  {
    hide Step;
    var r := Step(program, world, c);
    if r.Running? { assert Run(program, world, r.c, 0) == r; }
  }

  lemma JumpTo(program: seq<SSABasicBlock>, t: nat, m: Store)
    requires t < |program| && DistinctBlocks(program)
    ensures Jump(program, Str(program[t].name), m) == Running(Config(t, 0, m))
  {
    FindUnique(program, t);
  }

  lemma RunGoto(program: seq<SSABasicBlock>, world: World, b: Builder, insts: seq<SSAInstruction>, m: Store, m': Store,
      t: nat)
    requires |b.blocks| > 0 && t < |program| && DistinctBlocks(program)
    requires Extends(Emit(b, insts + [Goto(program[t].name)]).blocks, program)
    requires Straight(insts) && ExecAll(world, insts, m) == Some(m')
    ensures Run(program, world, At(b, m), |insts| + 1) == Running(Config(t, 0, m'))
  {
    hide Jump, Find, Extends, Emit, Exec, ExecAll, DistinctBlocks, Run;
    var c := RunUpTo(program, world, b, insts, Goto(program[t].name), m, m');
    JumpTo(program, t, m');
  }

  lemma RunFork(program: seq<SSABasicBlock>, world: World, b: Builder, insts: seq<SSAInstruction>, v: SSAValue,
      m: Store, m': Store, yes: nat, no: nat)
    requires |b.blocks| > 0 && yes < |program| && no < |program| && DistinctBlocks(program)
    requires Extends(Emit(b, insts + [Fork(v, program[yes].name, program[no].name)]).blocks, program)
    requires Straight(insts) && ExecAll(world, insts, m) == Some(m')
    ensures Run(program, world, At(b, m), |insts| + 1) ==
            Running(Config(if Value(v, m'.env) != 0 then yes else no, 0, m'))
  {
    hide Jump, Find, Extends, Emit, Exec, ExecAll, DistinctBlocks, Run;
    var c := RunUpTo(program, world, b, insts, Fork(v, program[yes].name, program[no].name), m, m');
    JumpTo(program, yes, m');
    JumpTo(program, no, m');
  }

  lemma RunReturn(program: seq<SSABasicBlock>, world: World, b: Builder, insts: seq<SSAInstruction>, v: SSAValue,
      m: Store, m': Store)
    requires |b.blocks| > 0
    requires Extends(Emit(b, insts + [SSAInstruction(SSAOp.Return, "", [v])]).blocks, program)
    requires Straight(insts) && ExecAll(world, insts, m) == Some(m')
    ensures Run(program, world, At(b, m), |insts| + 1) == Halted(m'.trace, Value(v, m'.env))
  {
    var c := RunUpTo(program, world, b, insts, SSAInstruction(SSAOp.Return, "", [v]), m, m');
  }

  // ----- following a statement

  ghost predicate TempsKept(env: Env, env': Env, k: nat) {
    forall t: nat :: t < k ==> Read(env', Temp(t)) == Read(env, Temp(t))
  }

  lemma TempsKeptBelow(env: Env, env': Env, k: nat)
    requires SameBelow(env, env', k)
    ensures TempsKept(env, env', k)
  {
    forall t: nat | t < k ensures Read(env', Temp(t)) == Read(env, Temp(t)) { TempAbove(t, k); }
  }

  lemma TempsKeptTrans(a: Env, b: Env, c: Env, k: nat, l: nat)
    requires TempsKept(a, b, k) && TempsKept(b, c, l) && k <= l
    ensures TempsKept(a, c, k)
  {
  }

  /** From configuration c the machine follows a statement that ends with r: it reaches the end of
      the statement's code in an agreeing store, or halts with the same value, or, where the meaning
      was cut off by its fuel, is still running after at least that many steps; always with the same
      trace of calls. A faulting meaning promises nothing. */
  ghost predicate Follows(program: seq<SSABasicBlock>, world: World, globals: map<string, int>, c: Config,
                          n: nat, end: Builder, m': Store, temps: nat, r: Result, fuel: nat)
    requires |end.blocks| > 0
  {
    match r
    case Normal(env', trace) =>
      && Run(program, world, c, n) == Running(At(end, m'))
      && m'.trace == trace && Agrees(globals, env', m'.env) && TempsKept(c.store.env, m'.env, temps)
    case Returned(v, trace) => Run(program, world, c, n) == Halted(trace, v)
    case OutOfFuel(trace) =>
      n >= fuel && Run(program, world, c, n).Running? && Run(program, world, c, n).c.store.trace == trace
    case StmtFault => true
  }

  /** Steps taken before following. */
  lemma Prepend(program: seq<SSABasicBlock>, world: World, globals: map<string, int>, c0: Config, n0: nat, c: Config,
                n: nat, end: Builder, m': Store, temps0: nat, temps: nat, r: Result, fuel0: nat, fuel: nat)
    requires |end.blocks| > 0 && Run(program, world, c0, n0) == Running(c)
    requires Follows(program, world, globals, c, n, end, m', temps, r, fuel)
    requires TempsKept(c0.store.env, c.store.env, temps0) && temps0 <= temps && fuel0 <= n0 + fuel
    ensures Follows(program, world, globals, c0, n0 + n, end, m', temps0, r, fuel0)
  {
    hide Agrees, TempsKept;
    RunCompose(program, world, c0, n0, n);
    if r.Normal? { TempsKeptTrans(c0.store.env, c.store.env, m'.env, temps0, temps); }
  }

  /** Following code that has no result of its own to reach its end. */
  lemma Ended(program: seq<SSABasicBlock>, world: World, globals: map<string, int>, c: Config, n: nat,
              end: Builder, end': Builder, m': Store, temps: nat, r: Result, fuel: nat)
    requires |end.blocks| > 0 && |end'.blocks| > 0 && !r.Normal?
    requires Follows(program, world, globals, c, n, end, m', temps, r, fuel)
    ensures Follows(program, world, globals, c, n, end', m', temps, r, fuel)
  {
  }

  /** A faulting meaning is followed by anything. */
  lemma FollowsFault(program: seq<SSABasicBlock>, world: World, globals: map<string, int>, c: Config, n: nat,
                     end: Builder, m': Store, temps: nat, fuel: nat)
    requires |end.blocks| > 0
    ensures Follows(program, world, globals, c, n, end, m', temps, StmtFault, fuel)
  {
  }

  lemma FollowsNormal(program: seq<SSABasicBlock>, world: World, globals: map<string, int>, c: Config, n: nat,
                      end: Builder, m': Store, temps: nat, env': Env, fuel: nat)
    requires |end.blocks| > 0 && Run(program, world, c, n) == Running(At(end, m'))
    requires Agrees(globals, env', m'.env) && TempsKept(c.store.env, m'.env, temps)
    ensures Follows(program, world, globals, c, n, end, m', temps, Normal(env', m'.trace), fuel)
  {
  }

  lemma FollowsCut(program: seq<SSABasicBlock>, world: World, globals: map<string, int>, c: Config,
                   end: Builder, m': Store, temps: nat)
    requires |end.blocks| > 0
    ensures Follows(program, world, globals, c, 0, end, m', temps, OutOfFuel(c.store.trace), 0)
  {
  }
}
