/** Constant propagation, src/middleend/opt/ConstantProp.hpp: names assigned once, by a copy of a
    constant, are replaced by the constant, and arithmetic on two constants is folded. */
module ConstantProp {
  import opened Options
  import opened Ssa
  import opened Paths

  function TryFold(op: SSAOp, l: SSAValue, r: SSAValue): Option<int> {
    if !l.Num? || !r.Num? then None
    else
      match op
      case Add => Some(Wrap(l.n + r.n))
      case Sub => Some(Wrap(l.n - r.n))
      case Mul => Some(Wrap(l.n * r.n))
      case Div => Some(if r.n != 0 then Wrap(TruncDiv(l.n, r.n)) else 0)
      case _ => None
  }

  // ----- the two tables

  function CountIn(insts: seq<SSAInstruction>, x: string): nat {
    if insts == [] then 0
    else CountIn(insts[..|insts| - 1], x) + if insts[|insts| - 1].result == x then 1 else 0
  }

  /** How many instructions have the name as their result. */
  function Assignments(blocks: seq<SSABasicBlock>, x: string): nat {
    if blocks == [] then 0
    else Assignments(blocks[..|blocks| - 1], x) + CountIn(blocks[|blocks| - 1].instructions, x)
  }

  predicate IsConstantCopy(inst: SSAInstruction) {
    inst.result != "" && inst.op.Copy? && |inst.operands| > 0 && inst.operands[0].IsConstant()
  }

  /** The name's only assignment is a copy of this constant. */
  ghost predicate IsConstantName(blocks: seq<SSABasicBlock>, x: string, v: SSAValue) {
    Assignments(blocks, x) == 1
    && exists b: nat, j: nat :: b < |blocks| && j < |blocks[b].instructions|
         && IsConstantCopy(blocks[b].instructions[j]) && blocks[b].instructions[j].result == x
         && blocks[b].instructions[j].operands[0] == v
  }

  type Table = map<string, SSAValue>

  /** The table holds names assigned once by a copy of the constant it gives them, and all of these. */
  ghost predicate TableFor(table: Table, blocks: seq<SSABasicBlock>) {
    && (forall x :: x in table ==> IsConstantName(blocks, x, table[x]))
    && (forall x, v :: IsConstantName(blocks, x, v) ==> x in table)
  }

  // ----- rewriting

  function Substituted(table: Table, v: SSAValue): SSAValue {
    if v.Var? && v.name in table then table[v.name] else v
  }

  function SubstitutedAll(table: Table, vs: seq<SSAValue>): seq<SSAValue> {
    seq(|vs|, i requires 0 <= i < |vs| => Substituted(table, vs[i]))
  }

  function Rewritten(table: Table, inst: SSAInstruction): SSAInstruction {
    var ops := SubstitutedAll(table, inst.operands);
    if |ops| == 2 && TryFold(inst.op, ops[0], ops[1]).Some?
    then SSAInstruction(Copy, inst.result, [Num(TryFold(inst.op, ops[0], ops[1]).value)])
    else inst.(operands := ops)
  }

  function RewrittenAll(table: Table, insts: seq<SSAInstruction>): (r: seq<SSAInstruction>)
    ensures |r| == |insts| && forall j :: 0 <= j < |insts| ==> r[j] == Rewritten(table, insts[j])
  {
    seq(|insts|, j requires 0 <= j < |insts| => Rewritten(table, insts[j]))
  }

  function Propagated(table: Table, blocks: seq<SSABasicBlock>): (r: seq<SSABasicBlock>)
    ensures |r| == |blocks|
    ensures forall b :: 0 <= b < |blocks| ==>
      r[b].name == blocks[b].name && r[b].instructions == RewrittenAll(table, blocks[b].instructions)
  {
    seq(|blocks|,
      b requires 0 <= b < |blocks| => SSABasicBlock(blocks[b].name, RewrittenAll(table, blocks[b].instructions)))
  }

  // ----- single assignments

  lemma {:induction false} CountedTwice(insts: seq<SSAInstruction>, x: string, i: nat, j: nat)
    requires i < j < |insts| && insts[i].result == x == insts[j].result
    ensures CountIn(insts, x) >= 2
    decreases |insts|
  {
    var init := insts[..|insts| - 1];
    if j == |init| { Counted(init, x, i); } else { CountedTwice(init, x, i, j); }
  }

  lemma {:induction false} Counted(insts: seq<SSAInstruction>, x: string, i: nat)
    requires i < |insts| && insts[i].result == x
    ensures CountIn(insts, x) >= 1
    decreases |insts|
  {
    if i < |insts| - 1 { Counted(insts[..|insts| - 1], x, i); }
  }

  ghost predicate AssignedAt(blocks: seq<SSABasicBlock>, x: string, b: nat, j: nat) {
    b < |blocks| && j < |blocks[b].instructions| && blocks[b].instructions[j].result == x
  }

  lemma {:induction false} AssignedOnce(blocks: seq<SSABasicBlock>, x: string, b: nat, j: nat, b': nat, j': nat)
    requires AssignedAt(blocks, x, b, j) && AssignedAt(blocks, x, b', j') && (b < b' || (b == b' && j < j'))
    ensures Assignments(blocks, x) >= 2
    decreases |blocks|
  {
    var init, last := blocks[..|blocks| - 1], blocks[|blocks| - 1];
    if b' < |init| {
      AssignedOnce(init, x, b, j, b', j');
    } else {
      Counted(last.instructions, x, j');
      if b == b' { CountedTwice(last.instructions, x, j, j'); } else { AssignedSome(init, x, b, j); }
    }
  }

  lemma {:induction false} AssignedSome(blocks: seq<SSABasicBlock>, x: string, b: nat, j: nat)
    requires AssignedAt(blocks, x, b, j)
    ensures Assignments(blocks, x) >= 1
    decreases |blocks|
  {
    if b < |blocks| - 1 {
      AssignedSome(blocks[..|blocks| - 1], x, b, j);
    } else {
      Counted(blocks[b].instructions, x, j);
    }
  }

  /** An instruction that assigns a name of the table is the copy of its constant. */
  lemma TheAssignment(table: Table, blocks: seq<SSABasicBlock>, b: nat, j: nat)
    requires TableFor(table, blocks) && b < |blocks| && j < |blocks[b].instructions|
    requires blocks[b].instructions[j].result in table
    ensures var inst := blocks[b].instructions[j];
      IsConstantCopy(inst) && inst.operands[0] == table[inst.result] && table[inst.result].IsConstant()
  {
    var inst := blocks[b].instructions[j];
    var x := inst.result;
    assert IsConstantName(blocks, x, table[x]);
    var b': nat, j': nat :| b' < |blocks| && j' < |blocks[b'].instructions|
      && IsConstantCopy(blocks[b'].instructions[j']) && blocks[b'].instructions[j'].result == x
      && blocks[b'].instructions[j'].operands[0] == table[x];
    if b < b' || (b == b' && j < j') {
      AssignedOnce(blocks, x, b, j, b', j');
    } else if b' < b || (b == b' && j' < j) {
      AssignedOnce(blocks, x, b', j', b, j);
    }
  }

  // ----- runs

  /** The names assigned in the first n steps. */
  function AssignedBy(blocks: seq<SSABasicBlock>, world: World, c: Config, n: nat): set<string> {
    if n == 0 then {}
    else
      var before := Run(blocks, world, c, n - 1);
      AssignedBy(blocks, world, c, n - 1)
      + if before.Running? && AtInstruction(blocks, before.c) then {InstructionAt(blocks, before.c).result} else {}
  }

  predicate AtInstruction(blocks: seq<SSABasicBlock>, c: Config) {
    c.block < |blocks| && c.pos < |blocks[c.block].instructions|
  }

  function InstructionAt(blocks: seq<SSABasicBlock>, c: Config): SSAInstruction
    requires AtInstruction(blocks, c)
  {
    blocks[c.block].instructions[c.pos]
  }

  /** The instruction about to run reads no name of the table that has not been assigned yet, and
      names no array that is also a constant's name. */
  ghost predicate ReadsAssigned(table: Table, blocks: seq<SSABasicBlock>, done: set<string>, c: Config) {
    AtInstruction(blocks, c) ==>
      var inst := InstructionAt(blocks, c);
      && (forall v :: v in inst.operands && v.Var? && v.name in table ==> v.name in done)
      && (inst.op.ArrayLoad? || inst.op.ArrayStore? ==>
            |inst.operands| > 0 && inst.operands[0].Var? ==> inst.operands[0].name !in table)
  }

  ghost predicate RunReadsAssigned(table: Table, blocks: seq<SSABasicBlock>, world: World, c: Config) {
    forall n: nat :: ReadsAt(table, blocks, world, c, n)
  }

  ghost predicate ReadsAt(table: Table, blocks: seq<SSABasicBlock>, world: World, c: Config, n: nat) {
    Run(blocks, world, c, n).Running? ==>
      ReadsAssigned(table, blocks, AssignedBy(blocks, world, c, n), Run(blocks, world, c, n).c)
  }

  /** Names assigned so far hold their constants. */
  ghost predicate Holds(table: Table, done: set<string>, env: Env) {
    forall x :: x in table && x in done ==> table[x].IsConstant() && Read(env, x) == Value(table[x], env)
  }

  lemma SubstitutedValue(table: Table, done: set<string>, env: Env, v: SSAValue)
    requires Holds(table, done, env) && (v.Var? && v.name in table ==> v.name in done)
    ensures Value(Substituted(table, v), env) == Value(v, env)
  {
  }

  lemma SubstitutedValues(table: Table, done: set<string>, env: Env, vs: seq<SSAValue>)
    requires Holds(table, done, env) && forall v :: v in vs && v.Var? && v.name in table ==> v.name in done
    ensures forall i :: 0 <= i < |vs| ==> Value(SubstitutedAll(table, vs)[i], env) == Value(vs[i], env)
  {
    hide Holds;
    forall i | 0 <= i < |vs| ensures Value(SubstitutedAll(table, vs)[i], env) == Value(vs[i], env) {
      SubstitutedValue(table, done, env, vs[i]);
    }
  }

  /** Division faults on these operands. */
  predicate FaultsOn(op: SSAOp, l: int, r: int) {
    op.Div? && (r == 0 || (l == MIN64 && r == -1))
  }

  /** Folding two constants gives what the instruction computes exactly if the instruction does not fault. */
  lemma FoldExactly(op: SSAOp, l: SSAValue, r: SSAValue)
    requires TryFold(op, l, r).Some?
    ensures l.Num? && r.Num? && IsBinary(op) && (Arith(op, l.n, r.n) == None <==> FaultsOn(op, l.n, r.n))
    ensures TryFold(op, l, r) == Arith(op, l.n, r.n) <==> !FaultsOn(op, l.n, r.n)
  {
    hide TruncDiv;
  }

  lemma StraightSame(table: Table, world: World, inst: SSAInstruction, done: set<string>, s: Store)
    requires IsStraight(inst.op) && Holds(table, done, s.env)
    requires forall v :: v in inst.operands && v.Var? && v.name in table ==> v.name in done
    requires inst.op.ArrayLoad? || inst.op.ArrayStore? ==>
               |inst.operands| > 0 && inst.operands[0].Var? ==> inst.operands[0].name !in table
    requires Exec(world, inst, s).Some?
    ensures IsStraight(Rewritten(table, inst).op) && Exec(world, Rewritten(table, inst), s) == Exec(world, inst, s)
  {
    hide Holds, Value, Arith, TryFold, Write, Load;
    SubstitutedValues(table, done, s.env, inst.operands);
    var ops, new_ := inst.operands, SubstitutedAll(table, inst.operands);
    if |new_| == 2 && TryFold(inst.op, new_[0], new_[1]).Some? {
      FoldExactly(inst.op, new_[0], new_[1]);
      NumValue(new_[0].n, s.env);
      NumValue(new_[1].n, s.env);
      NumValue(TryFold(inst.op, new_[0], new_[1]).value, s.env);
    } else if inst.op.Call? {
      assert Values(new_[1..], s.env) == Values(ops[1..], s.env);
    }
  }

  lemma NumValue(n: int, env: Env)
    ensures Value(Num(n), env) == n
  {
  }

  // ----- one step

  lemma JumpSame(table: Table, blocks: seq<SSABasicBlock>, v: SSAValue, s: Store)
    requires !Jump(blocks, v, s).Faulted?
    ensures Jump(Propagated(table, blocks), Substituted(table, v), s) == Jump(blocks, v, s)
  {
    hide RewrittenAll;
    FindSame(blocks, Propagated(table, blocks), v.s);
  }

  lemma {:induction false} FindSame(p: seq<SSABasicBlock>, q: seq<SSABasicBlock>, name: string)
    requires |p| == |q| && forall b :: 0 <= b < |p| ==> p[b].name == q[b].name
    ensures Find(p, name) == Find(q, name)
    decreases |p|
  {
    if p != [] && p[0].name != name { FindSame(p[1..], q[1..], name); }
  }

  lemma StepSame(table: Table, blocks: seq<SSABasicBlock>, world: World, done: set<string>, c: Config)
    requires Holds(table, done, c.store.env) && ReadsAssigned(table, blocks, done, c)
    requires !Step(blocks, world, c).Faulted?
    ensures Step(Propagated(table, blocks), world, c) == Step(blocks, world, c)
  {
    hide Holds, Value, Exec, Jump, Propagated, RewrittenAll, TryFold, Substituted;
    var q := Propagated(table, blocks);
    if AtInstruction(blocks, c) {
      var inst := InstructionAt(blocks, c);
      var new_ := Rewritten(table, inst);
      var ops := inst.operands;
      assert q[c.block].instructions[c.pos] == new_;
      SubstitutedValues(table, done, c.store.env, ops);
      if IsStraight(inst.op) {
        StraightSame(table, world, inst, done, c.store);
      } else {
        NoFold(inst.op, SubstitutedAll(table, ops));
        if inst.op.Branch? {
          JumpSame(table, blocks, ops[0], c.store);
        } else if inst.op.CondBranch? {
          JumpSame(table, blocks, if Value(ops[0], c.store.env) != 0 then ops[1] else ops[2], c.store);
        }
      }
    }
  }

  lemma NoFold(op: SSAOp, ops: seq<SSAValue>)
    requires !IsBinary(op)
    ensures |ops| == 2 ==> TryFold(op, ops[0], ops[1]) == None
  {
  }

  /** What a step assigns is what the table says, if the table has the name. */
  lemma HoldsAfter(table: Table, blocks: seq<SSABasicBlock>, world: World, done: set<string>, c: Config)
    requires TableFor(table, blocks) && Holds(table, done, c.store.env) && AtInstruction(blocks, c)
    requires Step(blocks, world, c).Running?
    ensures Holds(table, done + {InstructionAt(blocks, c).result}, Step(blocks, world, c).c.store.env)
  {
    hide TableFor, Arith;
    var inst, env, env' := InstructionAt(blocks, c), c.store.env, Step(blocks, world, c).c.store.env;
    if inst.result in table { TheAssignment(table, blocks, c.block, c.pos); }
    assert forall x :: x != inst.result ==> Read(env', x) == Read(env, x);
    forall x | x in table && x in done + {inst.result}
      ensures table[x].IsConstant() && Read(env', x) == Value(table[x], env')
    {
      if x == inst.result { assert env' == env[x := Value(inst.operands[0], env)]; }
    }
  }

  // ----- whole runs

  lemma {:induction false} HoldsAlways(table: Table, blocks: seq<SSABasicBlock>, world: World, c: Config, n: nat)
    requires TableFor(table, blocks) && Run(blocks, world, c, n).Running?
    ensures Holds(table, AssignedBy(blocks, world, c, n), Run(blocks, world, c, n).c.store.env)
    decreases n
  {
    hide TableFor, Holds, Step;
    if n == 0 {
      NothingHolds(table, c.store.env);
    } else {
      RunStillRunning(blocks, world, c, n - 1, n);
      HoldsAlways(table, blocks, world, c, n - 1);
      var c1 := Run(blocks, world, c, n - 1).c;
      LastStep(blocks, world, c, n - 1);
      if AtInstruction(blocks, c1) {
        HoldsAfter(table, blocks, world, AssignedBy(blocks, world, c, n - 1), c1);
      } else {
        SameStoreStep(blocks, world, c1);
        assert AssignedBy(blocks, world, c, n) == AssignedBy(blocks, world, c, n - 1);
      }
    }
  }

  lemma NothingHolds(table: Table, env: Env)
    ensures Holds(table, {}, env)
  {
  }

  lemma SameStoreStep(blocks: seq<SSABasicBlock>, world: World, c: Config)
    requires !AtInstruction(blocks, c) && Step(blocks, world, c).Running?
    ensures Step(blocks, world, c).c.store == c.store
  {
  }

  /** On a run that never reads an unassigned name, and never faults up to then, the rewritten program
      is in the same state after every number of steps. */
  lemma {:induction false} PropagationCorrect(table: Table, blocks: seq<SSABasicBlock>, world: World, c: Config, n: nat)
    requires TableFor(table, blocks) && RunReadsAssigned(table, blocks, world, c) && !Run(blocks, world, c, n).Faulted?
    ensures Run(Propagated(table, blocks), world, c, n) == Run(blocks, world, c, n)
    decreases n
  {
    hide TableFor, Holds, Step, Propagated, ReadsAssigned;
    if n > 0 {
      var r := Run(blocks, world, c, n - 1);
      if r.Running? {
        LastStep(blocks, world, c, n - 1);
        PropagationCorrect(table, blocks, world, c, n - 1);
        HoldsAlways(table, blocks, world, c, n - 1);
        assert ReadsAt(table, blocks, world, c, n - 1);
        StepSame(table, blocks, world, AssignedBy(blocks, world, c, n - 1), r.c);
        LastStep(Propagated(table, blocks), world, c, n - 1);
      } else {
        RunEnds(blocks, world, c, n - 1, n);
        PropagationCorrect(table, blocks, world, c, n - 1);
        RunEnds(Propagated(table, blocks), world, c, n - 1, n);
      }
    }
  }

  /** So it stops alike. */
  lemma PropagationStopsAlike(table: Table, blocks: seq<SSABasicBlock>, world: World, s: Store)
    requires TableFor(table, blocks) && RunReadsAssigned(table, blocks, world, Config(0, 0, s))
    requires FaultFree(blocks, world, Config(0, 0, s))
    ensures StopsAlike(blocks, Propagated(table, blocks), world, Config(0, 0, s), Config(0, 0, s))
  {
    hide TableFor, RunReadsAssigned, Run, Propagated;
    var c := Config(0, 0, s);
    forall n: nat ensures Run(Propagated(table, blocks), world, c, n) == Run(blocks, world, c, n) {
      PropagationCorrect(table, blocks, world, c, n);
    }
  }

  // ----- where definitions dominate uses, no name is read too early

  /** No array is called like a constant. */
  ghost predicate ArraysApart(table: Table, blocks: seq<SSABasicBlock>) {
    forall p :: Inside(blocks, p) && (InstAt(blocks, p).op.ArrayLoad? || InstAt(blocks, p).op.ArrayStore?) ==>
      |InstAt(blocks, p).operands| > 0 && InstAt(blocks, p).operands[0].Var? ==>
        InstAt(blocks, p).operands[0].name !in table
  }

  lemma {:induction false} AssignedOnTheWay(blocks: seq<SSABasicBlock>, world: World, c: Config, n: nat, i: nat)
    requires i < n && Run(blocks, world, c, i).Running? && AtInstruction(blocks, Run(blocks, world, c, i).c)
    ensures InstructionAt(blocks, Run(blocks, world, c, i).c).result in AssignedBy(blocks, world, c, n)
    decreases n
  {
    hide Run;
    if i < n - 1 { AssignedOnTheWay(blocks, world, c, n - 1, i); }
  }

  lemma InTableAssigned(table: Table, blocks: seq<SSABasicBlock>, x: string)
    requires TableFor(table, blocks) && x in table
    ensures Assigned(blocks, x)
  {
    assert IsConstantName(blocks, x, table[x]);
    var b: nat, j: nat :| b < |blocks| && j < |blocks[b].instructions| && IsConstantCopy(blocks[b].instructions[j])
      && blocks[b].instructions[j].result == x && blocks[b].instructions[j].operands[0] == table[x];
    assert InstAt(blocks, Pos(b, j)).result == x;
  }

  /** In a function whose definitions dominate their uses no run reads a constant's name too early. */
  lemma DominatedReadsAssigned(table: Table, blocks: seq<SSABasicBlock>, world: World, s: Store)
    requires TableFor(table, blocks) && AllEndOnce(blocks) && DefsDominateUses(blocks) && ArraysApart(table, blocks)
    ensures RunReadsAssigned(table, blocks, world, Config(0, 0, s))
  {
    hide TableFor, AllEndOnce, DefsDominateUses, ArraysApart, Run, History;
    forall n: nat ensures ReadsAt(table, blocks, world, Config(0, 0, s), n) {
      if Run(blocks, world, Config(0, 0, s), n).Running? { ReadsAssignedAt(table, blocks, world, s, n); }
    }
  }

  lemma ReadsAssignedAt(table: Table, blocks: seq<SSABasicBlock>, world: World, s: Store, n: nat)
    requires TableFor(table, blocks) && AllEndOnce(blocks) && DefsDominateUses(blocks) && ArraysApart(table, blocks)
    requires Run(blocks, world, Config(0, 0, s), n).Running?
    ensures ReadsAt(table, blocks, world, Config(0, 0, s), n)
  {
    hide TableFor, AllEndOnce, Run, AssignedBy, Assigned;
    var c0 := Config(0, 0, s);
    var c := Run(blocks, world, c0, n).c;
    var w := RunFollows(blocks, world, s, n);
    HistoryInside(blocks, w, n);
    var inst := InstructionAt(blocks, c);
    assert InstAt(blocks, w[n]) == inst;
    forall v | v in inst.operands && v.Var? && v.name in table ensures v.name in AssignedBy(blocks, world, c0, n) {
      InTableAssigned(table, blocks, v.name);
      assert v == Var(v.name) && Reads(inst, v.name);
      assert DefinedBefore(blocks, w, v.name);
      var i :| 0 <= i < |w| - 1 && Defines(blocks, w[i], v.name);
      AssignedOnTheWay(blocks, world, c0, n, i);
    }
  }

  /** So in single-assignment code where definitions dominate uses the pass changes no run that does not fault. */
  lemma PropagationCorrectInSsa(table: Table, blocks: seq<SSABasicBlock>, world: World, s: Store)
    requires TableFor(table, blocks) && AllEndOnce(blocks) && DefsDominateUses(blocks) && ArraysApart(table, blocks)
    requires FaultFree(blocks, world, Config(0, 0, s))
    ensures StopsAlike(blocks, Propagated(table, blocks), world, Config(0, 0, s), Config(0, 0, s))
  {
    hide TableFor, AllEndOnce, DefsDominateUses, ArraysApart, FaultFree, StopsAlike, RunReadsAssigned;
    DominatedReadsAssigned(table, blocks, world, s);
    PropagationStopsAlike(table, blocks, world, s);
  }

  // ----- runs that fault

  /** Labels and callees are strings. */
  ghost predicate LabelsAreStrings(blocks: seq<SSABasicBlock>) {
    forall p :: Inside(blocks, p) ==>
      var inst, ops := InstAt(blocks, p), InstAt(blocks, p).operands;
      && ((inst.op.Branch? || inst.op.Call?) && |ops| >= 1 ==> ops[0].Str?)
      && (inst.op.CondBranch? && |ops| >= 3 ==> ops[1].Str? && ops[2].Str?)
  }

  predicate IsFolded(table: Table, inst: SSAInstruction) {
    && |inst.operands| == 2
    && TryFold(inst.op, Substituted(table, inst.operands[0]), Substituted(table, inst.operands[1])).Some?
  }

  lemma FoldedRuns(table: Table, world: World, inst: SSAInstruction, s: Store)
    requires IsStraight(inst.op) && IsFolded(table, inst)
    ensures IsStraight(Rewritten(table, inst).op) && Exec(world, Rewritten(table, inst), s).Some?
  {
    hide TryFold;
  }

  lemma UnfoldedFaults(table: Table, world: World, inst: SSAInstruction, done: set<string>, s: Store)
    requires IsStraight(inst.op) && !IsFolded(table, inst) && Holds(table, done, s.env) && Exec(world, inst, s) == None
    requires forall v :: v in inst.operands && v.Var? && v.name in table ==> v.name in done
    requires inst.op.Call? && |inst.operands| >= 1 ==> inst.operands[0].Str?
    ensures Rewritten(table, inst) == inst.(operands := SubstitutedAll(table, inst.operands))
    ensures Exec(world, Rewritten(table, inst), s) == None
  {
    hide Holds, Value, Arith, TryFold, Write, Load;
    SubstitutedValues(table, done, s.env, inst.operands);
  }

  lemma JumpFaults(table: Table, blocks: seq<SSABasicBlock>, v: SSAValue, s: Store)
    requires Jump(blocks, v, s).Faulted? && v.Str?
    ensures Jump(Propagated(table, blocks), Substituted(table, v), s).Faulted?
  {
    hide RewrittenAll;
    FindSame(blocks, Propagated(table, blocks), v.s);
  }

  lemma FaultStep(table: Table, blocks: seq<SSABasicBlock>, world: World, done: set<string>, c: Config)
    requires Holds(table, done, c.store.env) && ReadsAssigned(table, blocks, done, c) && LabelsAreStrings(blocks)
    requires Step(blocks, world, c).Faulted?
    ensures Step(Propagated(table, blocks), world, c).Faulted? <==>
      !(AtInstruction(blocks, c) && IsFolded(table, InstructionAt(blocks, c)))
  {
    hide Holds, Value, Exec, Jump, Propagated, RewrittenAll, TryFold, Substituted;
    var q := Propagated(table, blocks);
    if AtInstruction(blocks, c) {
      var inst := InstructionAt(blocks, c);
      var ops := inst.operands;
      assert q[c.block].instructions[c.pos] == Rewritten(table, inst);
      assert InstAt(blocks, Pos(c.block, c.pos)) == inst;
      SubstitutedValues(table, done, c.store.env, ops);
      if IsStraight(inst.op) {
        if IsFolded(table, inst) {
          FoldedRuns(table, world, inst, c.store);
        } else {
          UnfoldedFaults(table, world, inst, done, c.store);
        }
      } else {
        NoFold(inst.op, SubstitutedAll(table, ops));
        if inst.op.Branch? && |ops| >= 1 {
          JumpFaults(table, blocks, ops[0], c.store);
        } else if inst.op.CondBranch? && |ops| >= 3 {
          JumpFaults(table, blocks, if Value(ops[0], c.store.env) != 0 then ops[1] else ops[2], c.store);
        }
      }
    }
  }

  /** A run that faults: up to the fault the rewritten program is in the same states, and there it faults
      too if and only if the instruction has not been folded. */
  lemma FaultExactly(table: Table, blocks: seq<SSABasicBlock>, world: World, c: Config, n: nat)
    requires TableFor(table, blocks) && RunReadsAssigned(table, blocks, world, c) && LabelsAreStrings(blocks)
    requires Run(blocks, world, c, n).Running? && Run(blocks, world, c, n + 1).Faulted?
    ensures
      var d := Run(blocks, world, c, n).c;
      && Run(Propagated(table, blocks), world, c, n) == Running(d)
      && (Run(Propagated(table, blocks), world, c, n + 1).Faulted? <==>
         !(AtInstruction(blocks, d) && IsFolded(table, InstructionAt(blocks, d))))
  {
    hide TableFor, Holds, Step, Propagated, ReadsAssigned, LabelsAreStrings, Run, IsFolded;
    PropagationCorrect(table, blocks, world, c, n);
    HoldsAlways(table, blocks, world, c, n);
    assert ReadsAt(table, blocks, world, c, n);
    var d := Run(blocks, world, c, n).c;
    LastStep(blocks, world, c, n);
    LastStep(Propagated(table, blocks), world, c, n);
    FaultStep(table, blocks, world, AssignedBy(blocks, world, c, n), d);
  }

  const DIVIDES: seq<SSABasicBlock> :=
    [SSABasicBlock("f_entry",
      [SSAInstruction(Div, "x", [Num(1), Num(0)]), SSAInstruction(SSAOp.Return, "", [Var("x")])])]

  /** A program that faults, and returns 0 once its division is folded. */
  lemma FoldedDivisionReturns(world: World, s: Store)
    ensures
      var c := Config(0, 0, s);
      && Run(DIVIDES, world, c, 2) == Faulted
      && Run(Propagated(map[], DIVIDES), world, c, 2) == Halted(s.trace, 0)
  {
    var p, q, c := DIVIDES, Propagated(map[], DIVIDES), Config(0, 0, s);
    assert p[0].instructions[0] == SSAInstruction(Div, "x", [Num(1), Num(0)]);
    assert Step(p, world, c) == Faulted;
    assert q[0].instructions[0] == SSAInstruction(Copy, "x", [Num(0)]);
    assert q[0].instructions[1] == SSAInstruction(SSAOp.Return, "", [Var("x")]);
    var c1 := Step(q, world, c).c;
    assert Step(q, world, c1) == Halted(s.trace, 0);
    assert Run(q, world, c1, 1) == Step(q, world, c1);
  }

  // ----- reading an unassigned name

  const EARLY_READ: seq<SSABasicBlock> :=
    [SSABasicBlock("f_entry", [SSAInstruction(Copy, "y", [Var("x")]), SSAInstruction(Copy, "x", [Num(1)]),
                               SSAInstruction(SSAOp.Return, "", [Var("y")])])]

  /** The condition is needed: read before its assignment, a constant's name has its old value in the
      original program and the constant in the rewritten one. */
  lemma EarlyReadDiffers(world: World)
    ensures var c := Config(0, 0, Store(map[], map[], []));
      && Run(EARLY_READ, world, c, 3) == Halted([], 0)
      && Run(Propagated(map["x" := Num(1)], EARLY_READ), world, c, 3) == Halted([], 1)
  {
    var p, q, c0 := EARLY_READ, Propagated(map["x" := Num(1)], EARLY_READ), Config(0, 0, Store(map[], map[], []));
    assert p[0].instructions[0] == SSAInstruction(Copy, "y", [Var("x")]);
    assert q[0].instructions[0] == SSAInstruction(Copy, "y", [Num(1)]);
    assert q[0].instructions[1] == SSAInstruction(Copy, "x", [Num(1)]);
    assert q[0].instructions[2] == SSAInstruction(SSAOp.Return, "", [Var("y")]);
    RunThree(p, world, c0);
    RunThree(q, world, c0);
  }

  lemma RunThree(p: seq<SSABasicBlock>, world: World, c: Config)
    requires Step(p, world, c).Running? && Step(p, world, Step(p, world, c).c).Running?
    ensures var o := Step(p, world, Step(p, world, Step(p, world, c).c).c); !o.Running? ==> Run(p, world, c, 3) == o
  {
    hide Step;
    var c1 := Step(p, world, c).c;
    var c2 := Step(p, world, c1).c;
    assert !Step(p, world, c2).Running? ==> Run(p, world, c2, 1) == Step(p, world, c2);
    assert Run(p, world, c1, 2) == Run(p, world, c2, 1);
    assert Run(p, world, c, 3) == Run(p, world, c1, 2);
  }

  // ----- the pass as written: count assignments, collect constants, rewrite

  ghost predicate CountsFor(counts: map<string, nat>, blocks: seq<SSABasicBlock>) {
    forall x :: x != "" ==> (if x in counts then counts[x] else 0) == Assignments(blocks, x)
  }

  method CountAssignments(func: seq<SSABasicBlock>) returns (counts: map<string, nat>)
    ensures CountsFor(counts, func) && "" !in counts
  {
    counts := map[];
    var b := 0;
    while b < |func|
      invariant 0 <= b <= |func| && CountsFor(counts, func[..b]) && "" !in counts
    {
      var insts := func[b].instructions;
      assert func[..b + 1][..b] == func[..b];
      ghost var before := func[..b];
      var j := 0;
      while j < |insts|
        invariant 0 <= j <= |insts| && "" !in counts
        invariant forall x :: x != "" ==>
          (if x in counts then counts[x] else 0) == Assignments(before, x) + CountIn(insts[..j], x)
      {
        assert insts[..j + 1][..j] == insts[..j];
        var x := insts[j].result;
        if x != "" { counts := counts[x := (if x in counts then counts[x] else 0) + 1]; }
        j := j + 1;
      }
      assert insts[..j] == insts;
      b := b + 1;
    }
    assert func[..b] == func;
  }

  ghost predicate InTable(table: Table, blocks: seq<SSABasicBlock>, b: nat, j: nat)
    requires b < |blocks| && j < |blocks[b].instructions|
  {
    var inst := blocks[b].instructions[j];
    IsConstantCopy(inst) && Assignments(blocks, inst.result) == 1 ==> inst.result in table
  }

  ghost predicate InTableBefore(table: Table, blocks: seq<SSABasicBlock>, b: nat, j: nat) {
    forall b': nat, j': nat :: b' < |blocks| && j' < |blocks[b'].instructions| && (b' < b || (b' == b && j' < j)) ==>
      InTable(table, blocks, b', j')
  }

  method CollectConstants(func: seq<SSABasicBlock>, counts: map<string, nat>) returns (table: Table)
    requires CountsFor(counts, func) && "" !in counts
    ensures TableFor(table, func)
  {
    table := map[];
    var b := 0;
    while b < |func|
      invariant 0 <= b <= |func| && forall x :: x in table ==> IsConstantName(func, x, table[x])
      invariant InTableBefore(table, func, b, 0)
    {
      var insts := func[b].instructions;
      var j := 0;
      while j < |insts|
        invariant 0 <= j <= |insts| && forall x :: x in table ==> IsConstantName(func, x, table[x])
        invariant InTableBefore(table, func, b, j)
      {
        ghost var before := table;
        var inst := insts[j];
        if inst.op.Copy? && |inst.operands| > 0 && inst.operands[0].IsConstant() && inst.result in counts
          && counts[inst.result] == 1 {
          assert IsConstantName(func, inst.result, inst.operands[0]);
          table := table[inst.result := inst.operands[0]];
        }
        OneMore(before, table, func, b, j);
        j := j + 1;
      }
      b := b + 1;
    }
    AllIn(table, func);
  }

  lemma OneMore(before: Table, table: Table, blocks: seq<SSABasicBlock>, b: nat, j: nat)
    requires b < |blocks| && j < |blocks[b].instructions|
    requires InTableBefore(before, blocks, b, j) && before.Keys <= table.Keys && InTable(table, blocks, b, j)
    ensures InTableBefore(table, blocks, b, j + 1)
  {
    forall b': nat, j': nat | b' < |blocks| && j' < |blocks[b'].instructions| && (b' < b || (b' == b && j' < j + 1))
      ensures InTable(table, blocks, b', j')
    {
      if b' < b || j' < j { assert InTable(before, blocks, b', j'); }
    }
  }

  lemma AllIn(table: Table, blocks: seq<SSABasicBlock>)
    requires InTableBefore(table, blocks, |blocks|, 0)
    ensures forall x, v :: IsConstantName(blocks, x, v) ==> x in table
  {
    forall x, v | IsConstantName(blocks, x, v) ensures x in table {
      var b: nat, j: nat :| b < |blocks| && j < |blocks[b].instructions|
        && IsConstantCopy(blocks[b].instructions[j]) && blocks[b].instructions[j].result == x
        && blocks[b].instructions[j].operands[0] == v;
      assert InTable(table, blocks, b, j);
    }
  }

  /** The operands are replaced one by one, then the instruction is folded. */
  method RewriteInstruction(inst: SSAInstruction, table: Table) returns (r: SSAInstruction)
    ensures r == Rewritten(table, inst)
  {
    r := inst;
    var k := 0;
    while k < |r.operands|
      invariant 0 <= k <= |r.operands| == |inst.operands| && r == inst.(operands := r.operands)
      invariant forall i :: 0 <= i < |inst.operands| ==>
        r.operands[i] == if i < k then Substituted(table, inst.operands[i]) else inst.operands[i]
    {
      var v := r.operands[k];
      if v.Var? && v.name in table { r := r.(operands := r.operands[k := table[v.name]]); }
      k := k + 1;
    }
    assert r.operands == SubstitutedAll(table, inst.operands);
    if |r.operands| == 2 {
      var folded := TryFold(r.op, r.operands[0], r.operands[1]);
      if folded.Some? { r := r.(op := Copy, operands := [Num(folded.value)]); }
    }
  }

  method Optimize(func: seq<SSABasicBlock>) returns (blocks: seq<SSABasicBlock>, table: Table)
    ensures TableFor(table, func) && blocks == Propagated(table, func)
  {
    hide Rewritten, TableFor, CountsFor;
    var counts := CountAssignments(func);
    table := CollectConstants(func, counts);
    blocks := func;
    var b := 0;
    while b < |blocks|
      invariant 0 <= b <= |blocks| == |func|
      invariant forall i :: 0 <= i < |func| ==> blocks[i] == if i < b then Propagated(table, func)[i] else func[i]
    {
      var insts := blocks[b].instructions;
      var j := 0;
      while j < |insts|
        invariant 0 <= j <= |insts| == |func[b].instructions|
        invariant forall i :: 0 <= i < |insts| ==>
          insts[i] == if i < j then Rewritten(table, func[b].instructions[i]) else func[b].instructions[i]
      {
        var inst := RewriteInstruction(insts[j], table);
        insts := insts[j := inst];
        j := j + 1;
      }
      assert insts == RewrittenAll(table, func[b].instructions);
      blocks := blocks[b := blocks[b].(instructions := insts)];
      b := b + 1;
    }
    assert blocks == Propagated(table, func);
  }
}
