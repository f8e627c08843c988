/** Leaving instructions out of a program. If those left out only write names that nothing left in
    reads, the program stops exactly when and how it did, as long as what is left out did not fault. */
module Erasure {
  import opened Ssa

  function Kept(keep: SSAInstruction -> bool, insts: seq<SSAInstruction>): (r: seq<SSAInstruction>)
    ensures |r| <= |insts|
  {
    if insts == [] then []
    else Kept(keep, insts[..|insts| - 1]) + if keep(insts[|insts| - 1]) then [insts[|insts| - 1]] else []
  }

  function KeptBlocks(keep: SSAInstruction -> bool, blocks: seq<SSABasicBlock>): (r: seq<SSABasicBlock>)
    ensures |r| == |blocks|
    ensures forall b :: 0 <= b < |blocks| ==>
      r[b].name == blocks[b].name && r[b].instructions == Kept(keep, blocks[b].instructions)
  {
    seq(|blocks|, b requires 0 <= b < |blocks| => SSABasicBlock(blocks[b].name, Kept(keep, blocks[b].instructions)))
  }

  /** Touches nothing but its result. */
  predicate IsPure(op: SSAOp) {
    IsStraight(op) && !op.Call? && !op.ArrayStore?
  }

  ghost predicate ReadsOnly(live: set<string>, inst: SSAInstruction) {
    forall v :: v in inst.operands && v.Var? ==> v.name in live
  }

  predicate WritesNothing(op: SSAOp) {
    op.RegionEnter? || op.RegionExit? || op.Phi? || op.ArrayAlloc?
  }

  /** What is kept reads live names only; what is not kept is pure and writes none. */
  ghost predicate Erasable(keep: SSAInstruction -> bool, live: set<string>, inst: SSAInstruction) {
    if keep(inst) then ReadsOnly(live, inst) else IsPure(inst.op) && (WritesNothing(inst.op) || inst.result !in live)
  }

  ghost predicate AllErasable(keep: SSAInstruction -> bool, live: set<string>, blocks: seq<SSABasicBlock>) {
    forall b: nat, j: nat ::
      b < |blocks| && j < |blocks[b].instructions| ==> Erasable(keep, live, blocks[b].instructions[j])
  }

  /** Instructions that are left out do not fault on this run. */
  ghost predicate ErasedRun(keep: SSAInstruction -> bool, blocks: seq<SSABasicBlock>, world: World, c: Config) {
    forall n: nat :: ErasedRuns(keep, blocks, world, Run(blocks, world, c, n))
  }

  ghost predicate ErasedRuns(keep: SSAInstruction -> bool, blocks: seq<SSABasicBlock>, world: World, o: Outcome) {
    o.Running? && AtErased(keep, blocks, o.c) ==> !Step(blocks, world, o.c).Faulted?
  }

  ghost predicate AtErased(keep: SSAInstruction -> bool, blocks: seq<SSABasicBlock>, c: Config) {
    c.block < |blocks| && c.pos < |blocks[c.block].instructions| && !keep(blocks[c.block].instructions[c.pos])
  }

  // ----- agreeing stores

  ghost predicate Agree(live: set<string>, s: Store, t: Store) {
    s.cells == t.cells && s.trace == t.trace && forall x :: x in live ==> Read(s.env, x) == Read(t.env, x)
  }

  lemma SameValues(live: set<string>, s: Store, t: Store, inst: SSAInstruction)
    requires Agree(live, s, t) && ReadsOnly(live, inst)
    ensures forall i :: 0 <= i < |inst.operands| ==> Value(inst.operands[i], s.env) == Value(inst.operands[i], t.env)
  {
  }

  lemma WriteAgrees(live: set<string>, s: Store, t: Store, x: string, v: int)
    requires Agree(live, s, t)
    ensures Agree(live, s.(env := Write(s.env, x, v)), t.(env := Write(t.env, x, v)))
  {
  }

  lemma ExecKept(world: World, live: set<string>, inst: SSAInstruction, s: Store, t: Store)
    requires Agree(live, s, t) && ReadsOnly(live, inst) && IsStraight(inst.op)
    ensures Exec(world, inst, s).Some? <==> Exec(world, inst, t).Some?
    ensures Exec(world, inst, s).Some? ==> Agree(live, Exec(world, inst, s).value, Exec(world, inst, t).value)
  {
    hide Value, Agree, Arith, Write, Load;
    SameValues(live, s, t, inst);
    SameStore(live, s, t);
    var ops := inst.operands;
    if inst.op.Call? && |ops| >= 1 && ops[0].Str? {
      assert Values(ops[1..], s.env) == Values(ops[1..], t.env);
      var trace := s.trace + [Event(ops[0].s, Values(ops[1..], s.env))];
      AgreeTrace(live, s, t, trace);
      WriteAgrees(live, s.(trace := trace), t.(trace := trace), inst.result, Wrap(world(trace)));
    } else if inst.op.ArrayStore? && |ops| >= 3 && ops[0].Var? {
      AgreeCells(live, s, t, s.cells[(ops[0].name, Value(ops[1], s.env)) := Value(ops[2], s.env)]);
    } else if inst.op.ArrayLoad? && |ops| >= 2 && ops[0].Var? {
      WriteAgrees(live, s, t, inst.result, Load(s.cells, ops[0].name, Value(ops[1], s.env)));
    } else if inst.op.Copy? && |ops| >= 1 {
      WriteAgrees(live, s, t, inst.result, Value(ops[0], s.env));
    } else if IsBinary(inst.op) && |ops| >= 2 && Arith(inst.op, Value(ops[0], s.env), Value(ops[1], s.env)).Some? {
      WriteAgrees(live, s, t, inst.result, Arith(inst.op, Value(ops[0], s.env), Value(ops[1], s.env)).value);
    }
  }

  lemma SameStore(live: set<string>, s: Store, t: Store)
    requires Agree(live, s, t)
    ensures s.cells == t.cells && s.trace == t.trace
  {
  }

  lemma AgreeTrace(live: set<string>, s: Store, t: Store, trace: seq<Event>)
    requires Agree(live, s, t)
    ensures Agree(live, s.(trace := trace), t.(trace := trace))
  {
  }

  lemma AgreeCells(live: set<string>, s: Store, t: Store, cells: Cells)
    requires Agree(live, s, t)
    ensures Agree(live, s.(cells := cells), t.(cells := cells))
  {
  }

  lemma ExecErased(world: World, live: set<string>, inst: SSAInstruction, s: Store, t: Store)
    requires Agree(live, s, t) && IsPure(inst.op) && (WritesNothing(inst.op) || inst.result !in live)
      && Exec(world, inst, s).Some?
    ensures Agree(live, Exec(world, inst, s).value, t)
  {
    hide Arith, Value, Load;
  }

  // ----- positions

  lemma {:induction false} KeptAt(keep: SSAInstruction -> bool, insts: seq<SSAInstruction>, j: nat)
    requires j < |insts|
    ensures Kept(keep, insts[..j + 1]) == Kept(keep, insts[..j]) + if keep(insts[j]) then [insts[j]] else []
    ensures Kept(keep, insts[..j + 1]) <= Kept(keep, insts)
    decreases |insts|
  {
    assert insts[..j + 1][..j] == insts[..j];
    if j + 1 == |insts| {
      assert insts[..j + 1] == insts;
    } else {
      var init := insts[..|insts| - 1];
      assert init[..j + 1] == insts[..j + 1];
      KeptAt(keep, init, j);
      assert Kept(keep, init) <= Kept(keep, insts);
    }
  }

  lemma {:induction false} FindSame(p: seq<SSABasicBlock>, q: seq<SSABasicBlock>, name: string)
    requires |p| == |q| && forall b :: 0 <= b < |p| ==> p[b].name == q[b].name
    ensures Find(p, name) == Find(q, name)
    decreases |p|
  {
    if p != [] && p[0].name != name { FindSame(p[1..], q[1..], name); }
  }

  // ----- one step

  ghost predicate Match(keep: SSAInstruction -> bool, live: set<string>, p: seq<SSABasicBlock>, c: Config, d: Config) {
    && d.block == c.block && Agree(live, c.store, d.store)
    && (c.block < |p| ==>
          c.pos <= |p[c.block].instructions| && d.pos == |Kept(keep, p[c.block].instructions[..c.pos])|)
  }

  lemma JumpAgrees(keep: SSAInstruction -> bool, live: set<string>, p: seq<SSABasicBlock>, target: SSAValue, s: Store,
      t: Store)
    requires Agree(live, s, t)
    ensures var o, r := Jump(p, target, s), Jump(KeptBlocks(keep, p), target, t);
      (o.Running? ==> r.Running? && Match(keep, live, p, o.c, r.c)) && (o.Faulted? <==> r.Faulted?) && !o.Halted?
  {
    hide Agree;
    if target.Str? {
      FindSame(p, KeptBlocks(keep, p), target.s);
      var i := Find(p, target.s);
      if i < |p| { assert p[i].instructions[..0] == []; }
    }
  }

  /** A kept instruction takes a step in both programs. */
  lemma StepKept(keep: SSAInstruction -> bool, live: set<string>, p: seq<SSABasicBlock>, world: World, c: Config,
      d: Config)
    requires AllErasable(keep, live, p) && Match(keep, live, p, c, d) && !AtErased(keep, p, c)
    ensures var o, r := Step(p, world, c), Step(KeptBlocks(keep, p), world, d);
      (o.Running? ==> r.Running? && Match(keep, live, p, o.c, r.c)) && (!o.Running? ==> r == o)
  {
    hide Agree, Exec, Value, Jump, Erasable, KeptBlocks, Kept;
    var q := KeptBlocks(keep, p);
    if c.block < |p| {
      var insts := p[c.block].instructions;
      if c.pos < |insts| {
        var inst := insts[c.pos];
        KeptAt(keep, insts, c.pos);
        assert q[c.block].instructions[d.pos] == inst;
        assert Erasable(keep, live, inst);
        KeptReads(keep, live, inst);
        KeptStep(keep, live, p, world, inst, c, d);
      } else {
        assert insts[..c.pos] == insts;
        NewBlock(keep, p, c.block + 1);
      }
    }
  }

  lemma NewBlock(keep: SSAInstruction -> bool, p: seq<SSABasicBlock>, b: nat)
    ensures b < |p| ==> |Kept(keep, p[b].instructions[..0])| == 0
  {
  }

  lemma KeptReads(keep: SSAInstruction -> bool, live: set<string>, inst: SSAInstruction)
    requires Erasable(keep, live, inst) && keep(inst)
    ensures ReadsOnly(live, inst)
  {
  }

  lemma KeptStep(keep: SSAInstruction -> bool, live: set<string>, p: seq<SSABasicBlock>, world: World,
      inst: SSAInstruction,
                 c: Config, d: Config)
    requires Match(keep, live, p, c, d) && ReadsOnly(live, inst) && keep(inst)
    requires c.block < |p| && c.pos < |p[c.block].instructions| && inst == p[c.block].instructions[c.pos]
    ensures var o, r := StepInstruction(p, world, inst, c), StepInstruction(KeptBlocks(keep, p), world, inst, d);
      (o.Running? ==> r.Running? && Match(keep, live, p, o.c, r.c)) && (!o.Running? ==> r == o)
  {
    hide Agree, Exec, Value, Jump, KeptBlocks, Kept, ReadsOnly;
    SameValues(live, c.store, d.store, inst);
    SameStore(live, c.store, d.store);
    KeptAt(keep, p[c.block].instructions, c.pos);
    if inst.op.Branch? && |inst.operands| >= 1 {
      JumpAgrees(keep, live, p, inst.operands[0], c.store, d.store);
    } else if inst.op.CondBranch? && |inst.operands| >= 3 {
      JumpAgrees(keep, live, p, inst.operands[1], c.store, d.store);
      JumpAgrees(keep, live, p, inst.operands[2], c.store, d.store);
    } else if IsStraight(inst.op) {
      ExecKept(world, live, inst, c.store, d.store);
    }
  }

  /** An instruction that is left out takes a step in one program only. */
  lemma StepErased(keep: SSAInstruction -> bool, live: set<string>, p: seq<SSABasicBlock>, world: World, c: Config,
      d: Config)
    requires AllErasable(keep, live, p) && Match(keep, live, p, c, d) && AtErased(keep, p, c)
      && !Step(p, world, c).Faulted?
    ensures Step(p, world, c).Running? && Match(keep, live, p, Step(p, world, c).c, d)
  {
    hide Agree, Exec, Kept;
    var inst := p[c.block].instructions[c.pos];
    assert Erasable(keep, live, inst);
    KeptAt(keep, p[c.block].instructions, c.pos);
    ExecErased(world, live, inst, c.store, d.store);
  }

  // ----- whole runs

  lemma ErasedLater(keep: SSAInstruction -> bool, p: seq<SSABasicBlock>, world: World, c: Config)
    requires ErasedRun(keep, p, world, c)
    ensures AtErased(keep, p, c) ==> !Step(p, world, c).Faulted?
    ensures Step(p, world, c).Running? ==> ErasedRun(keep, p, world, Step(p, world, c).c)
  {
    hide Step, AtErased;
    assert ErasedRuns(keep, p, world, Run(p, world, c, 0));
    var o := Step(p, world, c);
    if o.Running? {
      forall n: nat ensures ErasedRuns(keep, p, world, Run(p, world, o.c, n)) {
        assert ErasedRuns(keep, p, world, Run(p, world, c, n + 1));
      }
    }
  }

  lemma {:induction false} Forward(keep: SSAInstruction -> bool, live: set<string>, p: seq<SSABasicBlock>, world: World,
                                   c: Config, d: Config, n: nat) returns (k: nat)
    requires AllErasable(keep, live, p) && Match(keep, live, p, c, d) && ErasedRun(keep, p, world, c)
    requires !Run(p, world, c, n).Running?
    ensures Run(KeptBlocks(keep, p), world, d, k) == Run(p, world, c, n)
    decreases n
  {
    hide AllErasable, Match, ErasedRun, Step, AtErased, KeptBlocks;
    var o := Step(p, world, c);
    ErasedLater(keep, p, world, c);
    if AtErased(keep, p, c) {
      StepErased(keep, live, p, world, c, d);
      k := Forward(keep, live, p, world, o.c, d, n - 1);
    } else {
      StepKept(keep, live, p, world, c, d);
      if o.Running? {
        var k1 := Forward(keep, live, p, world, o.c, Step(KeptBlocks(keep, p), world, d).c, n - 1);
        k := k1 + 1;
      } else {
        k := 1;
      }
    }
  }

  function RankAt(p: seq<SSABasicBlock>, c: Config): nat {
    if c.block < |p| && c.pos <= |p[c.block].instructions| then Rank(p, c.block) - c.pos else 0
  }

  lemma ErasedRank(keep: SSAInstruction -> bool, p: seq<SSABasicBlock>, world: World, c: Config)
    requires AtErased(keep, p, c) && IsStraight(p[c.block].instructions[c.pos].op) && Step(p, world, c).Running?
    ensures RankAt(p, Step(p, world, c).c) < RankAt(p, c)
  {
    hide Exec;
  }

  lemma {:induction false} Backward(keep: SSAInstruction -> bool, live: set<string>, p: seq<SSABasicBlock>,
      world: World,
                                    c: Config, d: Config, k: nat) returns (n: nat)
    requires AllErasable(keep, live, p) && Match(keep, live, p, c, d) && ErasedRun(keep, p, world, c)
    requires !Run(KeptBlocks(keep, p), world, d, k).Running?
    ensures Run(p, world, c, n) == Run(KeptBlocks(keep, p), world, d, k)
    decreases k, RankAt(p, c)
  {
    hide AllErasable, Match, ErasedRun, Step, AtErased, KeptBlocks, RankAt;
    var o := Step(p, world, c);
    ErasedLater(keep, p, world, c);
    if AtErased(keep, p, c) {
      StepErased(keep, live, p, world, c, d);
      ErasedStraight(keep, live, p, c);
      ErasedRank(keep, p, world, c);
      var n1 := Backward(keep, live, p, world, o.c, d, k);
      n := n1 + 1;
    } else {
      StepKept(keep, live, p, world, c, d);
      if o.Running? {
        var n1 := Backward(keep, live, p, world, o.c, Step(KeptBlocks(keep, p), world, d).c, k - 1);
        n := n1 + 1;
      } else {
        n := 1;
      }
    }
  }

  lemma ErasedStraight(keep: SSAInstruction -> bool, live: set<string>, p: seq<SSABasicBlock>, c: Config)
    requires AllErasable(keep, live, p) && AtErased(keep, p, c)
    ensures c.block < |p| && c.pos < |p[c.block].instructions| && IsStraight(p[c.block].instructions[c.pos].op)
  {
    assert Erasable(keep, live, p[c.block].instructions[c.pos]);
  }

  /** Leaving the instructions out changes neither whether the program stops nor how. */
  lemma ErasureCorrect(keep: SSAInstruction -> bool, live: set<string>, p: seq<SSABasicBlock>, world: World, s: Store)
    requires AllErasable(keep, live, p) && ErasedRun(keep, p, world, Config(0, 0, s))
    ensures StopsAlike(p, KeptBlocks(keep, p), world, Config(0, 0, s), Config(0, 0, s))
  {
    hide AllErasable, ErasedRun, Run, KeptBlocks;
    var c := Config(0, 0, s);
    assert Match(keep, live, p, c, c);
    forall o: Outcome | !o.Running?
      ensures Stops(p, world, c, o) <==> Stops(KeptBlocks(keep, p), world, c, o)
    {
      if Stops(p, world, c, o) {
        var n: nat :| Run(p, world, c, n) == o;
        var k := Forward(keep, live, p, world, c, c, n);
      }
      if Stops(KeptBlocks(keep, p), world, c, o) {
        var k: nat :| Run(KeptBlocks(keep, p), world, c, k) == o;
        var n := Backward(keep, live, p, world, c, c, k);
      }
    }
  }
}
