/** Loop-invariant code motion, src/middleend/opt/LICM.hpp. Instructions of a loop whose operands the
    loop does not define are moved to the end of the block before it. In single-assignment code where
    definitions dominate uses, for a loop entered only from that block, and with operators that cannot
    fault, the program stops exactly when and how it did. */
module Licm {
  import opened Options
  import opened Ssa
  import opened Erasure
  import opened Paths

  /** A program, the labels of a loop's blocks, the block before the loop, and what is moved there. */
  datatype Motion = Motion(blocks: seq<SSABasicBlock>, inLoop: set<string>, pre: nat, moved: seq<SSAInstruction>)

  function Results(insts: seq<SSAInstruction>): set<string> {
    set i | 0 <= i < |insts| :: insts[i].result
  }

  function Stay(names: set<string>): SSAInstruction -> bool {
    (inst: SSAInstruction) => inst.result !in names
  }

  /** Inserted before the jump that ends the block. */
  function BeforeJump(insts: seq<SSAInstruction>, moved: seq<SSAInstruction>): (r: seq<SSAInstruction>)
    ensures |r| == |insts| + |moved|
  {
    if EndsInJump(insts) then
      insts[..|insts| - 1] + moved + insts[|insts| - 1..]
    else insts + moved
  }

  /** The program after the motion. */
  function After(l: Motion): (r: seq<SSABasicBlock>)
    ensures |r| == |l.blocks| && forall b :: 0 <= b < |r| ==> r[b].name == l.blocks[b].name
  {
    seq(|l.blocks|, b requires 0 <= b < |l.blocks| =>
      var kept := Kept(Stay(Results(l.moved)), l.blocks[b].instructions);
      SSABasicBlock(l.blocks[b].name, if b == l.pre then BeforeJump(kept, l.moved) else kept))
  }

  // ----- what is asked of the program and the loop

  ghost predicate InLoop(l: Motion, b: nat) {
    b < |l.blocks| && l.blocks[b].name in l.inLoop
  }

  /** A jump into the loop from outside starts from the block before it. */
  ghost predicate Enters(l: Motion, b: nat, inst: SSAInstruction) {
    forall t :: t in Targets(inst) && t in l.inLoop && !InLoop(l, b) ==> b == l.pre
  }

  /** The loop is entered from the block before it only, and is not where the program starts. */
  ghost predicate EnteredOnce(l: Motion) {
    && l.pre < |l.blocks| && !InLoop(l, l.pre) && !InLoop(l, 0)
    && forall b: nat, j: nat :: At(l, b, j) ==> Enters(l, b, l.blocks[b].instructions[j])
  }

  predicate At(l: Motion, b: nat, j: nat) {
    b < |l.blocks| && j < |l.blocks[b].instructions|
  }

  /** Can be executed early: reads and writes names only, and never faults. */
  ghost predicate Movable(inst: SSAInstruction) {
    inst.result != "" && ((inst.op.Copy? && |inst.operands| >= 1)
                          || (IsBinary(inst.op) && !inst.op.Div? && !inst.op.Mod? && |inst.operands| >= 2)
                          || inst.op.ArrayAlloc?)
  }

  ghost predicate OutsideLoop(l: Motion, x: string) {
    forall b: nat, j: nat :: At(l, b, j) && InLoop(l, b) ==> x == "" || l.blocks[b].instructions[j].result != x
  }

  /** Operands of a moved instruction are results of earlier ones or not assigned in the loop. */
  ghost predicate OperandsReady(l: Motion) {
    forall k, x :: 0 <= k < |l.moved| && Reads(l.moved[k], x) ==>
      if x in Results(l.moved) then x in Results(l.moved[..k]) else OutsideLoop(l, x)
  }

  ghost predicate DistinctResults(moved: seq<SSAInstruction>) {
    forall i, k :: 0 <= i < k < |moved| ==> moved[i].result != moved[k].result
  }

  ghost predicate OnlyMoved(l: Motion, b: nat, inst: SSAInstruction) {
    inst.result in Results(l.moved) ==> InLoop(l, b) && inst in l.moved
  }

  /** Names of moved results are assigned once each, in the loop. */
  ghost predicate AssignedInLoop(l: Motion) {
    DistinctResults(l.moved) && forall b: nat, j: nat :: At(l, b, j) ==> OnlyMoved(l, b, l.blocks[b].instructions[j])
  }

  predicate EndsInJump(insts: seq<SSAInstruction>) {
    |insts| > 0 && (insts[|insts| - 1].op.Branch? || insts[|insts| - 1].op.CondBranch?)
  }

  ghost predicate MotionOk(l: Motion) {
    && (forall b :: 0 <= b < |l.blocks| ==> EndsOnce(l.blocks[b].instructions))
    && EnteredOnce(l) && OperandsReady(l) && AssignedInLoop(l)
    && (forall k :: 0 <= k < |l.moved| ==> Movable(l.moved[k]))
    && EndsInJump(l.blocks[l.pre].instructions)
  }

  // ----- executing a moved instruction again changes nothing

  ghost predicate Settled(world: World, inst: SSAInstruction, s: Store) {
    IsStraight(inst.op) && Exec(world, inst, s) == Some(s)
  }

  ghost predicate AllSettled(l: Motion, world: World, s: Store) {
    forall k :: 0 <= k < |l.moved| ==> Settled(world, l.moved[k], s)
  }

  lemma MovableTotal(world: World, inst: SSAInstruction, s: Store)
    requires Movable(inst)
    ensures IsPure(inst.op) && IsStraight(inst.op) && Exec(world, inst, s).Some?
    ensures var t := Exec(world, inst, s).value;
      t.cells == s.cells && t.trace == s.trace && forall x :: x != inst.result ==> Read(t.env, x) == Read(s.env, x)
  {
    if IsBinary(inst.op) { ArithSome(inst.op, Value(inst.operands[0], s.env), Value(inst.operands[1], s.env)); }
  }

  lemma ArithSome(op: SSAOp, l: int, r: int)
    requires IsBinary(op) && !op.Div? && !op.Mod?
    ensures Arith(op, l, r).Some?
  {
  }

  lemma SettledAfter(world: World, inst: SSAInstruction, s: Store)
    requires Movable(inst) && !Reads(inst, inst.result)
    ensures Settled(world, inst, Exec(world, inst, s).value)
  {
    hide Arith;
    MovableTotal(world, inst, s);
    var t := Exec(world, inst, s).value;
    forall i | 0 <= i < |inst.operands| ensures Value(inst.operands[i], t.env) == Value(inst.operands[i], s.env) {
      var v := inst.operands[i];
      if v.Var? { assert v.name != inst.result; }
    }
    if !inst.op.ArrayAlloc? { assert t.env[inst.result := t.env[inst.result]] == t.env; }
  }

  /** A write to another name leaves it settled. */
  lemma SettledStays(world: World, inst: SSAInstruction, s: Store, t: Store, y: string)
    requires Movable(inst) && Settled(world, inst, s) && y != inst.result && !Reads(inst, y)
    requires forall x :: x != y ==> Read(t.env, x) == Read(s.env, x) && (x in s.env ==> x in t.env)
    ensures Settled(world, inst, t)
  {
    hide Arith;
    forall i | 0 <= i < |inst.operands| ensures Value(inst.operands[i], t.env) == Value(inst.operands[i], s.env) {
      var v := inst.operands[i];
      if v.Var? { assert v.name != y; }
    }
    if !inst.op.ArrayAlloc? {
      MovableTotal(world, inst, s);
      var w := Exec(world, inst, s).value;
      assert inst.result in w.env && w.env == s.env;
      assert t.env[inst.result := Read(t.env, inst.result)] == t.env;
    }
  }

  lemma SettledSameEnv(world: World, inst: SSAInstruction, s: Store, t: Store)
    requires Movable(inst) && Settled(world, inst, s) && s.env == t.env
    ensures Settled(world, inst, t)
  {
    hide Arith;
  }

  // ----- executing what was moved

  lemma NotItsOwn(l: Motion, k: nat)
    requires OperandsReady(l) && DistinctResults(l.moved) && k < |l.moved|
    ensures !Reads(l.moved[k], l.moved[k].result)
    ensures forall i :: 0 <= i < k ==> !Reads(l.moved[i], l.moved[k].result) && l.moved[i].result != l.moved[k].result
  {
    var y := l.moved[k].result;
    assert y in Results(l.moved);
    forall i | 0 <= i <= k ensures !Reads(l.moved[i], y) {
      assert y !in Results(l.moved[..i]);
    }
  }

  ghost predicate SettledUpTo(l: Motion, world: World, s: Store, k: nat) {
    forall i :: 0 <= i < k && i < |l.moved| ==> Settled(world, l.moved[i], s)
  }

  ghost predicate AllMovable(moved: seq<SSAInstruction>) {
    forall k :: 0 <= k < |moved| ==> Movable(moved[k])
  }

  /** The names that moved instructions write. */
  function Written(moved: seq<SSAInstruction>): set<string> {
    set i | 0 <= i < |moved| && !moved[i].op.ArrayAlloc? :: moved[i].result
  }

  ghost predicate SameBut(names: set<string>, s: Store, t: Store) {
    s.cells == t.cells && s.trace == t.trace && forall x :: x !in names ==> Read(s.env, x) == Read(t.env, x)
  }

  /** In order, from the k-th on: in the end all are settled, and only their names have changed. */
  lemma {:induction false} ExecMoved(l: Motion, world: World, s: Store, k: nat) returns (t: Store)
    requires OperandsReady(l) && DistinctResults(l.moved) && AllMovable(l.moved) && k <= |l.moved|
      && SettledUpTo(l, world, s, k)
    ensures Straight(l.moved[k..]) && ExecAll(world, l.moved[k..], s) == Some(t)
    ensures SettledUpTo(l, world, t, |l.moved|) && SameBut(Written(l.moved), s, t)
    decreases |l.moved| - k
  {
    hide Exec, Settled, OperandsReady, Movable, Reads;
    if k == |l.moved| {
      t := s;
    } else {
      var inst := l.moved[k];
      MovableTotal(world, inst, s);
      NotItsOwn(l, k);
      SettledAfter(world, inst, s);
      var s1 := Exec(world, inst, s).value;
      ExecOne(world, inst, s);
      forall i | 0 <= i < k ensures Settled(world, l.moved[i], s1) {
        SettledStays(world, l.moved[i], s, s1, inst.result);
      }
      t := ExecMoved(l, world, s1, k + 1);
      assert l.moved[k..][1..] == l.moved[k + 1..];
      assert forall x :: x !in Written(l.moved) ==> x != inst.result || inst.op.ArrayAlloc?;
    }
  }

  lemma ExecOne(world: World, inst: SSAInstruction, s: Store)
    requires Movable(inst) && Exec(world, inst, s).Some? && IsStraight(inst.op)
    ensures var t := Exec(world, inst, s).value;
      (inst.op.ArrayAlloc? ==> t == s) && forall x :: x in s.env ==> x in t.env
  {
    hide Arith;
  }

  // ----- the states of the two programs

  /** Positions correspond, names agree except for those moved that have not been assigned since control
      last came to the block before the loop, and in the loop everything moved is settled. */
  ghost predicate Match(l: Motion, world: World, c: Config, d: Config, news: set<string>) {
    && c.block < |l.blocks| && c.pos < |l.blocks[c.block].instructions| && d.block == c.block
    && d.pos == |Kept(Stay(Results(l.moved)), l.blocks[c.block].instructions[..c.pos])|
    && SameBut(Written(l.moved) - news, c.store, d.store)
    && (InLoop(l, c.block) ==> SettledUpTo(l, world, d.store, |l.moved|))
    && (c.block == l.pre ==> news == {})
  }

  /** Reads no moved name that is not fresh. */
  ghost predicate ReadsFresh(l: Motion, c: Config, news: set<string>) {
    At(l, c.block, c.pos) ==>
      forall x :: Reads(l.blocks[c.block].instructions[c.pos], x) && x in Written(l.moved) ==> x in news
  }

  /** Names assigned since control last came to the block before the loop. */
  function NextFresh(l: Motion, c: Config, news: set<string>, next: Config): set<string> {
    if next.block == l.pre then {}
    else if At(l, c.block, c.pos) then news + {l.blocks[c.block].instructions[c.pos].result} else news
  }

  lemma SameReads(l: Motion, world: World, c: Config, d: Config, news: set<string>)
    requires Match(l, world, c, d, news) && ReadsFresh(l, c, news)
    ensures var ops := l.blocks[c.block].instructions[c.pos].operands;
      forall i :: 0 <= i < |ops| ==> Value(ops[i], c.store.env) == Value(ops[i], d.store.env)
  {
    hide SettledUpTo, Kept;
    var inst := l.blocks[c.block].instructions[c.pos];
    forall i | 0 <= i < |inst.operands|
      ensures Value(inst.operands[i], c.store.env) == Value(inst.operands[i], d.store.env) {
      var v := inst.operands[i];
      if v.Var? {
        assert v == Var(v.name);
        assert Reads(inst, v.name);
      }
    }
  }

  ghost predicate SameWrite(s: Store, t: Store, s1: Store, t1: Store, x: string) {
    && x in s1.env && x in t1.env && s1.env[x] == t1.env[x]
    && s1.env == s.env[x := s1.env[x]] && t1.env == t.env[x := t1.env[x]]
  }

  /** From equal operands, the same effect: at most the result changes, to the same value. */
  lemma ExecSame(world: World, inst: SSAInstruction, s: Store, t: Store)
    requires IsStraight(inst.op) && s.cells == t.cells && s.trace == t.trace
    requires forall i :: 0 <= i < |inst.operands| ==> Value(inst.operands[i], s.env) == Value(inst.operands[i], t.env)
    ensures Exec(world, inst, s).Some? <==> Exec(world, inst, t).Some?
    ensures Exec(world, inst, s).Some? ==>
      var s1, t1 := Exec(world, inst, s).value, Exec(world, inst, t).value;
      && s1.cells == t1.cells && s1.trace == t1.trace
      && ((s1.env == s.env && t1.env == t.env) || (inst.result != "" && SameWrite(s, t, s1, t1, inst.result)))
  {
    hide Value, Arith, Load;
    if inst.op.Call? && |inst.operands| >= 1 {
      assert Values(inst.operands[1..], s.env) == Values(inst.operands[1..], t.env);
    }
  }

  // ----- a straight instruction that stays

  lemma StayingResult(l: Motion, b: nat, j: nat)
    requires MotionOk(l) && At(l, b, j)
    ensures var inst := l.blocks[b].instructions[j];
      Stay(Results(l.moved))(inst) || (InLoop(l, b) && inst in l.moved && Movable(inst) && IsStraight(inst.op))
  {
    var inst := l.blocks[b].instructions[j];
    assert OnlyMoved(l, b, inst);
    if inst in l.moved { assert Movable(inst); }
  }

  lemma WrittenAreResults(l: Motion)
    ensures Written(l.moved) <= Results(l.moved)
  {
  }

  /** In the loop, writing a name that is not moved leaves everything moved settled. */
  lemma LoopKeepsSettled(l: Motion, world: World, b: nat, j: nat, s: Store, t: Store)
    requires MotionOk(l) && At(l, b, j) && InLoop(l, b) && SettledUpTo(l, world, s, |l.moved|)
    requires l.blocks[b].instructions[j].result !in Results(l.moved)
    requires var x := l.blocks[b].instructions[j].result;
      t.env == s.env || (x != "" && x in t.env && t.env == s.env[x := t.env[x]])
    ensures SettledUpTo(l, world, t, |l.moved|)
  {
    hide Settled, Exec, EnteredOnce, AssignedInLoop, Movable, EndsOnce;
    var x := l.blocks[b].instructions[j].result;
    forall k | 0 <= k < |l.moved| ensures Settled(world, l.moved[k], t) {
      assert Settled(world, l.moved[k], s) && Movable(l.moved[k]);
      if t.env == s.env {
        SettledSameEnv(world, l.moved[k], s, t);
      } else {
        assert l.moved[k].result in Results(l.moved);
        assert Reads(l.moved[k], x) ==> OutsideLoop(l, x);
        SettledStays(world, l.moved[k], s, t, x);
      }
    }
  }

  lemma SameButAfter(names: set<string>, s: Store, t: Store, s1: Store, t1: Store, x: string)
    requires SameBut(names, s, t) && s1.cells == t1.cells && s1.trace == t1.trace
    requires (s1.env == s.env && t1.env == t.env) || SameWrite(s, t, s1, t1, x)
    ensures SameBut(names, s1, t1)
    ensures SameWrite(s, t, s1, t1, x) ==> SameBut(names - {x}, s1, t1)
  {
  }

  lemma SameButFewer(names: set<string>, more: set<string>, s: Store, t: Store)
    requires SameBut(names, s, t) && names <= more
    ensures SameBut(more, s, t)
  {
  }

  /** Where a block's instructions are after the motion. */
  lemma AfterAt(l: Motion, b: nat, j: nat)
    requires MotionOk(l) && At(l, b, j)
    ensures var keep, insts, q := Stay(Results(l.moved)), l.blocks[b].instructions, After(l)[b].instructions;
      && Kept(keep, insts[..j + 1]) == Kept(keep, insts[..j]) + (if keep(insts[j]) then [insts[j]] else [])
      && (j < |insts| - 1 ==> Kept(keep, insts[..j + 1]) <= q)
      && (b != l.pre ==> Kept(keep, insts[..j + 1]) <= q)
      && (b == l.pre && j == |insts| - 1 ==> q == Kept(keep, insts[..j]) + l.moved + [insts[j]])
  {
    hide Kept, Stay, OperandsReady, AssignedInLoop, Movable, EnteredOnce;
    var keep, insts := Stay(Results(l.moved)), l.blocks[b].instructions;
    KeptAt(keep, insts, j);
    var n := |insts| - 1;
    KeptAt(keep, insts, n);
    assert insts[..n + 1] == insts;
    StayingResult(l, b, n);
    if b == l.pre {
      var kept := Kept(keep, insts);
      assert kept == Kept(keep, insts[..n]) + [insts[n]];
      assert kept[..|kept| - 1] == Kept(keep, insts[..n]);
      if j < n {
        KeptAt(keep, insts[..n], j);
        assert insts[..n][..j + 1] == insts[..j + 1];
      }
    }
  }

  ghost predicate AtEnd(l: Motion, c: Config) {
    At(l, c.block, c.pos) && c.pos == |l.blocks[c.block].instructions| - 1
  }

  lemma InnerIsStraight(l: Motion, c: Config)
    requires MotionOk(l) && At(l, c.block, c.pos)
    ensures AtEnd(l, c) <==> !IsStraight(l.blocks[c.block].instructions[c.pos].op)
  {
    assert EndsOnce(l.blocks[c.block].instructions);
  }

  /** An instruction that is not moved does the same in both programs. */
  lemma StayStep(l: Motion, world: World, c: Config, d: Config, news: set<string>)
    requires MotionOk(l) && Match(l, world, c, d, news) && ReadsFresh(l, c, news) && !AtEnd(l, c)
    requires l.blocks[c.block].instructions[c.pos].result !in Results(l.moved)
    ensures var o, r := Step(l.blocks, world, c), Step(After(l), world, d);
      && (o.Running? ==> r.Running? && Match(l, world, o.c, r.c, NextFresh(l, c, news, o.c)))
      && (!o.Running? ==> r == o)
  {
    hide Kept, Value, Exec, SettledUpTo, Reads, Results, Written, After, MotionOk, InLoop, SameBut;
    var inst := l.blocks[c.block].instructions[c.pos];
    InnerIsStraight(l, c);
    AfterAt(l, c.block, c.pos);
    assert After(l)[c.block].instructions[d.pos] == inst;
    SameReads(l, world, c, d, news);
    Unchanged(Written(l.moved) - news, c.store, d.store);
    ExecSame(world, inst, c.store, d.store);
    if Exec(world, inst, c.store).Some? {
      var s1, t1 := Exec(world, inst, c.store).value, Exec(world, inst, d.store).value;
      SameButAfter(Written(l.moved) - news, c.store, d.store, s1, t1, inst.result);
      WrittenAreResults(l);
      if c.block != l.pre { NewsStay(l, news, inst.result); }
      if InLoop(l, c.block) { LoopKeepsSettled(l, world, c.block, c.pos, d.store, t1); }
    }
  }

  lemma Unchanged(names: set<string>, s: Store, t: Store)
    requires SameBut(names, s, t)
    ensures s.cells == t.cells && s.trace == t.trace
  {
  }

  lemma NewsStay(l: Motion, news: set<string>, x: string)
    requires x !in Results(l.moved)
    ensures Written(l.moved) - news == Written(l.moved) - (news + {x})
  {
    WrittenAreResults(l);
  }

  /** A moved instruction is executed by one program only, and finds its value already there. */
  lemma MovedStep(l: Motion, world: World, c: Config, d: Config, news: set<string>)
    requires MotionOk(l) && Match(l, world, c, d, news) && ReadsFresh(l, c, news)
    requires l.blocks[c.block].instructions[c.pos].result in Results(l.moved)
    ensures var o := Step(l.blocks, world, c);
      o.Running? && o.c == Config(c.block, c.pos + 1, o.c.store) && Match(l, world, o.c, d, NextFresh(l, c, news, o.c))
  {
    hide Kept, Value, Exec, Reads, After, Results, Written, SameBut;
    var inst := l.blocks[c.block].instructions[c.pos];
    StayingResult(l, c.block, c.pos);
    InnerIsStraight(l, c);
    AfterAt(l, c.block, c.pos);
    SameReads(l, world, c, d, news);
    Unchanged(Written(l.moved) - news, c.store, d.store);
    ExecSame(world, inst, c.store, d.store);
    MovableTotal(world, inst, c.store);
    var k :| 0 <= k < |l.moved| && l.moved[k] == inst;
    assert Settled(world, l.moved[k], d.store);
    var s1 := Exec(world, inst, c.store).value;
    SameButAfter(Written(l.moved) - news, c.store, d.store, s1, d.store, inst.result);
    if !inst.op.ArrayAlloc? { MovableWrites(world, inst, c.store, d.store); }
    NewsGrow(l, inst, news, c.store, d.store, s1);
  }

  lemma NewsGrow(l: Motion, inst: SSAInstruction, news: set<string>, s: Store, t: Store, s1: Store)
    requires SameBut(Written(l.moved) - news, s1, t) && inst in l.moved && DistinctResults(l.moved)
    requires inst.op.ArrayAlloc? || SameBut(Written(l.moved) - news - {inst.result}, s1, t)
    ensures SameBut(Written(l.moved) - (news + {inst.result}), s1, t)
  {
    if inst.op.ArrayAlloc? {
      AllocNotWritten(l, inst);
      assert Written(l.moved) - news == Written(l.moved) - (news + {inst.result});
    } else {
      assert Written(l.moved) - news - {inst.result} == Written(l.moved) - (news + {inst.result});
    }
  }

  lemma AllocNotWritten(l: Motion, inst: SSAInstruction)
    requires inst in l.moved && inst.op.ArrayAlloc? && DistinctResults(l.moved)
    ensures inst.result !in Written(l.moved)
  {
    var k :| 0 <= k < |l.moved| && l.moved[k] == inst;
    forall i | 0 <= i < |l.moved| && !l.moved[i].op.ArrayAlloc? ensures l.moved[i].result != inst.result {
      assert i != k;
    }
  }

  lemma MovableWrites(world: World, inst: SSAInstruction, s: Store, t: Store)
    requires Movable(inst) && !inst.op.ArrayAlloc? && s.cells == t.cells && s.trace == t.trace && IsStraight(inst.op)
    requires forall i :: 0 <= i < |inst.operands| ==> Value(inst.operands[i], s.env) == Value(inst.operands[i], t.env)
    requires Exec(world, inst, s).Some? && Exec(world, inst, t).Some?
    ensures SameWrite(s, t, Exec(world, inst, s).value, Exec(world, inst, t).value, inst.result)
  {
    hide Value, Arith;
  }

  // ----- the end of a block

  lemma JumpSame(l: Motion, v: SSAValue, s: Store, t: Store)
    ensures var o, r := Jump(l.blocks, v, s), Jump(After(l), v, t);
      if o.Running? then r == Running(Config(o.c.block, 0, t)) && o.c == Config(o.c.block, 0, s)
        && o.c.block < |l.blocks|
                         && v.Str? && l.blocks[o.c.block].name == v.s
      else o.Faulted? && r.Faulted?
  {
    if v.Str? { FindSame(l.blocks, After(l), v.s); }
  }

  /** The last instruction of a block, on stores that agree on what it reads. */
  lemma LastSame(l: Motion, world: World, inst: SSAInstruction, c: Config, d: Config)
    requires !IsStraight(inst.op) && c.store.trace == d.store.trace
    requires forall i ::
      0 <= i < |inst.operands| ==> Value(inst.operands[i], c.store.env) == Value(inst.operands[i], d.store.env)
    ensures var o, r := StepInstruction(l.blocks, world, inst, c), StepInstruction(After(l), world, inst, d);
      if o.Running? then r == Running(Config(o.c.block, 0, d.store)) && o.c == Config(o.c.block, 0, c.store)
                         && o.c.block < |l.blocks| && l.blocks[o.c.block].name in Targets(inst)
      else r == o
  {
    hide Value, Jump, After;
    if inst.op.Branch? && |inst.operands| >= 1 {
      JumpSame(l, inst.operands[0], c.store, d.store);
    } else if inst.op.CondBranch? && |inst.operands| >= 3 {
      JumpSame(l, if Value(inst.operands[0], c.store.env) != 0 then inst.operands[1]
      else inst.operands[2], c.store, d.store);
    }
  }

  /** Coming to the end of the block before the loop, the second program executes what was moved. */
  lemma RunMoved(l: Motion, world: World, c: Config, d: Config) returns (u: Store)
    requires MotionOk(l) && Match(l, world, c, d, {}) && AtEnd(l, c) && c.block == l.pre
    ensures Run(After(l), world, d, |l.moved|) == Running(Config(d.block, d.pos + |l.moved|, u))
    ensures After(l)[l.pre].instructions ==
      After(l)[l.pre].instructions[..d.pos + |l.moved|] + [l.blocks[l.pre].instructions[c.pos]]
    ensures SettledUpTo(l, world, u, |l.moved|) && SameBut(Written(l.moved), c.store, u)
  {
    hide Kept, Exec, Settled, Written, OperandsReady, Movable, EnteredOnce, EndsOnce, Step, After;
    AfterAt(l, c.block, c.pos);
    u := ExecMoved(l, world, d.store, 0);
    assert l.moved[0..] == l.moved;
    var q := After(l)[l.pre].instructions;
    assert q[d.pos..d.pos + |l.moved|] == l.moved;
    RunStraight(After(l), world, d, l.moved);
    SameButTrans(Written(l.moved), c.store, d.store, u);
  }

  lemma SameButTrans(names: set<string>, s: Store, t: Store, u: Store)
    requires SameBut(names - {}, s, t) && SameBut(names, t, u)
    ensures SameBut(names, s, u)
  {
  }

  lemma OneStep(p: seq<SSABasicBlock>, world: World, d: Config)
    ensures Run(p, world, d, 1) == Step(p, world, d)
  {
    hide Step;
    var o := Step(p, world, d);
    if o.Running? { assert Run(p, world, o.c, 0) == o; }
  }

  /** Where control goes from the end of a block, everything moved is settled if that is in the loop. */
  lemma Arrives(l: Motion, world: World, c: Config, t: Store, i: nat, news: set<string>)
    requires MotionOk(l) && AtEnd(l, c) && i < |l.blocks| && SameBut(Written(l.moved) - news, c.store, t)
    requires l.blocks[i].name in Targets(l.blocks[c.block].instructions[c.pos])
    requires InLoop(l, c.block) || c.block == l.pre ==> SettledUpTo(l, world, t, |l.moved|)
    ensures Match(l, world, Config(i, 0, c.store), Config(i, 0, t), NextFresh(l, c, news, Config(i, 0, c.store)))
  {
    hide Written, Settled, OperandsReady, Movable, Targets, Results;
    var inst := l.blocks[c.block].instructions[c.pos];
    assert Enters(l, c.block, inst);
    assert OnlyMoved(l, c.block, inst);
    EndIsNotMoved(l, c);
    NewsStay(l, news, inst.result);
    assert EndsOnce(l.blocks[i].instructions);
    assert l.blocks[i].instructions[..0] == [];
    var next := NextFresh(l, c, news, Config(i, 0, c.store));
    if i == l.pre {
      SameButFewer(Written(l.moved) - news, Written(l.moved) - {}, c.store, t);
    }
  }

  lemma EndIsNotMoved(l: Motion, c: Config)
    requires MotionOk(l) && AtEnd(l, c)
    ensures l.blocks[c.block].instructions[c.pos].result !in Results(l.moved)
  {
    hide OperandsReady, EnteredOnce, Results;
    InnerIsStraight(l, c);
    StayingResult(l, c.block, c.pos);
  }

  lemma EndStep(l: Motion, world: World, c: Config, d: Config, news: set<string>) returns (j: nat, r: Outcome)
    requires MotionOk(l) && Match(l, world, c, d, news) && ReadsFresh(l, c, news) && AtEnd(l, c)
    ensures j > 0 && r == Run(After(l), world, d, j)
    ensures var o := Step(l.blocks, world, c);
      if o.Running? then r.Running? && Match(l, world, o.c, r.c, NextFresh(l, c, news, o.c)) else r == o
  {
    hide Kept, Value, Reads, Written, SettledUpTo, OperandsReady, Movable, EnteredOnce, AssignedInLoop, EndsOnce,
      After, Targets, SameBut, Results;
    var inst := l.blocks[c.block].instructions[c.pos];
    InnerIsStraight(l, c);
    AfterAt(l, c.block, c.pos);
    EndIsNotMoved(l, c);
    var d1 := d;
    j := 0;
    if c.block == l.pre {
      var u := RunMoved(l, world, c, d);
      d1 := Config(d.block, d.pos + |l.moved|, u);
      j := |l.moved|;
      NothingNew(l, c.store, u);
    }
    assert After(l)[d1.block].instructions[d1.pos] == inst;
    Unchanged(Written(l.moved) - news, c.store, d1.store);
    EndReads(l, inst, c, d1.store, news);
    LastSame(l, world, inst, c, d1);
    OneStep(After(l), world, d1);
    EndRun(l, world, d, d1, j);
    var o := Step(l.blocks, world, c);
    if o.Running? { Arrives(l, world, c, d1.store, o.c.block, news); }
    j := j + 1;
    r := Step(After(l), world, d1);
  }

  lemma NothingNew(l: Motion, s: Store, t: Store)
    requires SameBut(Written(l.moved), s, t)
    ensures SameBut(Written(l.moved) - {}, s, t)
  {
  }

  lemma EndRun(l: Motion, world: World, d: Config, d1: Config, j: nat)
    requires Run(After(l), world, d, j) == Running(d1) || (j == 0 && d1 == d)
    ensures Run(After(l), world, d, j + 1) == Run(After(l), world, d1, 1)
  {
    hide Step, After;
    if j == 0 { assert Run(After(l), world, d, 0) == Running(d); }
    RunCompose(After(l), world, d, j, 1);
  }

  lemma EndReads(l: Motion, inst: SSAInstruction, c: Config, t: Store, news: set<string>)
    requires At(l, c.block, c.pos) && inst == l.blocks[c.block].instructions[c.pos] && ReadsFresh(l, c, news)
    requires SameBut(Written(l.moved) - news, c.store, t)
    ensures forall i ::
      0 <= i < |inst.operands| ==> Value(inst.operands[i], c.store.env) == Value(inst.operands[i], t.env)
  {
    forall i | 0 <= i < |inst.operands| ensures Value(inst.operands[i], c.store.env) == Value(inst.operands[i], t.env) {
      var v := inst.operands[i];
      if v.Var? {
        assert v == Var(v.name);
        assert Reads(inst, v.name);
      }
    }
  }

  // ----- whole runs

  /** At every step of the run from c only fresh moved names are read. */
  ghost predicate RunFresh(l: Motion, world: World, c: Config, news: set<string>) {
    forall n: nat :: FreshAt(l, world, c, news, n)
  }

  ghost predicate FreshAt(l: Motion, world: World, c: Config, news: set<string>, n: nat)
    decreases n
  {
    if n == 0 then ReadsFresh(l, c, news)
    else
      var o := Step(l.blocks, world, c);
      o.Running? ==> FreshAt(l, world, o.c, NextFresh(l, c, news, o.c), n - 1)
  }

  lemma RunFreshStep(l: Motion, world: World, c: Config, news: set<string>)
    requires RunFresh(l, world, c, news)
    ensures ReadsFresh(l, c, news)
    ensures var o := Step(l.blocks, world, c); o.Running? ==> RunFresh(l, world, o.c, NextFresh(l, c, news, o.c))
  {
    hide Step, ReadsFresh, NextFresh;
    assert FreshAt(l, world, c, news, 0);
    var o := Step(l.blocks, world, c);
    if o.Running? {
      forall n: nat ensures FreshAt(l, world, o.c, NextFresh(l, c, news, o.c), n) {
        assert FreshAt(l, world, c, news, n + 1);
      }
    }
  }

  /** Any step: the second program follows in some number of steps, none only for a moved instruction. */
  lemma AnyStep(l: Motion, world: World, c: Config, d: Config, news: set<string>) returns (j: nat, r: Outcome)
    requires MotionOk(l) && Match(l, world, c, d, news) && ReadsFresh(l, c, news)
    ensures r == Run(After(l), world, d, j)
    ensures var o := Step(l.blocks, world, c);
      if o.Running? then r.Running? && Match(l, world, o.c, r.c, NextFresh(l, c, news, o.c)) else r == o
    ensures j == 0 ==>
      Step(l.blocks, world, c).Running? && RankAt(l.blocks, Step(l.blocks, world, c).c) < RankAt(l.blocks, c)
  {
    hide MotionOk, Match, ReadsFresh, NextFresh, Step, After, Results, Rank;
    InsideMatch(l, world, c, d, news);
    if AtEnd(l, c) {
      j, r := EndStep(l, world, c, d, news);
    } else if l.blocks[c.block].instructions[c.pos].result in Results(l.moved) {
      MovedStep(l, world, c, d, news);
      j, r := 0, Running(d);
    } else {
      StayStep(l, world, c, d, news);
      OneStep(After(l), world, d);
      j, r := 1, Step(After(l), world, d);
    }
  }

  lemma InsideMatch(l: Motion, world: World, c: Config, d: Config, news: set<string>)
    requires Match(l, world, c, d, news)
    ensures At(l, c.block, c.pos)
  {
  }

  lemma {:induction false} Forward(l: Motion, world: World, c: Config, d: Config, news: set<string>, n: nat)
      returns (k: nat)
    requires MotionOk(l) && Match(l, world, c, d, news) && RunFresh(l, world, c, news)
      && !Run(l.blocks, world, c, n).Running?
    ensures Run(After(l), world, d, k) == Run(l.blocks, world, c, n)
    decreases n
  {
    hide MotionOk, Match, ReadsFresh, RunFresh, NextFresh, Step, After, RankAt;
    RunFreshStep(l, world, c, news);
    var j, r := AnyStep(l, world, c, d, news);
    var o := Step(l.blocks, world, c);
    if o.Running? {
      var k1 := Forward(l, world, o.c, r.c, NextFresh(l, c, news, o.c), n - 1);
      RunCompose(After(l), world, d, j, k1);
      k := j + k1;
    } else {
      k := j;
    }
  }

  lemma {:induction false} Backward(l: Motion, world: World, c: Config, d: Config, news: set<string>, k: nat)
      returns (n: nat)
    requires MotionOk(l) && Match(l, world, c, d, news) && RunFresh(l, world, c, news)
      && !Run(After(l), world, d, k).Running?
    ensures Run(l.blocks, world, c, n) == Run(After(l), world, d, k)
    decreases k, RankAt(l.blocks, c)
  {
    hide MotionOk, Match, ReadsFresh, RunFresh, NextFresh, Step, After, RankAt;
    RunFreshStep(l, world, c, news);
    var j, r := AnyStep(l, world, c, d, news);
    var o := Step(l.blocks, world, c);
    if o.Running? {
      if k <= j { RunStillRunning(After(l), world, d, k, j); }
      RunCompose(After(l), world, d, j, k - j);
      var n1 := Backward(l, world, o.c, r.c, NextFresh(l, c, news, o.c), k - j);
      n := n1 + 1;
    } else {
      RunEnds(After(l), world, d, if j <= k then j else k, if j <= k then k else j);
      n := 1;
      assert Run(l.blocks, world, c, 1) == o;
    }
  }

  lemma StartMatch(l: Motion, world: World, s: Store)
    requires MotionOk(l)
    ensures Match(l, world, Config(0, 0, s), Config(0, 0, s), {})
  {
    hide OperandsReady, AssignedInLoop, Movable;
    assert EndsOnce(l.blocks[0].instructions);
    assert l.blocks[0].instructions[..0] == [];
  }

  /** On a run that reads moved names only where they are fresh, the motion changes nothing. */
  lemma MotionCorrect(l: Motion, world: World, s: Store)
    requires MotionOk(l) && RunFresh(l, world, Config(0, 0, s), {})
    ensures StopsAlike(l.blocks, After(l), world, Config(0, 0, s), Config(0, 0, s))
  {
    hide MotionOk, Match, RunFresh, Run, After;
    var c := Config(0, 0, s);
    StartMatch(l, world, s);
    forall o: Outcome | !o.Running? ensures Stops(l.blocks, world, c, o) <==> Stops(After(l), world, c, o) {
      if Stops(l.blocks, world, c, o) {
        var n: nat :| Run(l.blocks, world, c, n) == o;
        var k := Forward(l, world, c, c, {}, n);
      }
      if Stops(After(l), world, c, o) {
        var k: nat :| Run(After(l), world, c, k) == o;
        var n := Backward(l, world, c, c, {}, k);
      }
    }
  }

  // ----- where definitions dominate uses, only fresh names are read

  /** However control gets to a use of a moved name, it has passed the definition. */
  ghost predicate DefsDominate(l: Motion) {
    forall w, x ::
      History(l.blocks, w) && Inside(l.blocks, w[|w| - 1]) && Reads(InstAt(l.blocks, w[|w| - 1]), x)
        && x in Written(l.moved) ==>
      DefinedBefore(l.blocks, w, x)
  }

  ghost predicate OutsideOnly(l: Motion, w: seq<Pos>) {
    forall i :: 0 <= i < |w| ==> !InLoop(l, w[i].block)
  }

  /** A way to where control is on which every moved name defined is fresh, and the way by which it
      first came to the block before the loop, if it has. */
  ghost predicate Tracked(l: Motion, c: Config, news: set<string>, w: seq<Pos>, first: seq<Pos>) {
    && History(l.blocks, w) && w[|w| - 1] == Pos(c.block, c.pos)
    && (forall i, x :: 0 <= i < |w| - 1 && x in Written(l.moved) && Defines(l.blocks, w[i], x) ==> x in news)
    && (c.block == l.pre ==> news == {} && first != [])
    && if first == [] then OutsideOnly(l, w)
    else History(l.blocks, first) && first[|first| - 1] == Pos(l.pre, 0) && OutsideOnly(l, first)
  }

  lemma TrackedReads(l: Motion, c: Config, news: set<string>, w: seq<Pos>, first: seq<Pos>)
    requires DefsDominate(l) && Tracked(l, c, news, w, first)
    ensures ReadsFresh(l, c, news)
  {
    hide Written, Reads, Follows;
    if At(l, c.block, c.pos) {
      forall x | Reads(l.blocks[c.block].instructions[c.pos], x) && x in Written(l.moved) ensures x in news {
        assert DefinedBefore(l.blocks, w, x);
      }
    }
  }

  lemma BlocksEndOnce(l: Motion)
    requires MotionOk(l)
    ensures AllEndOnce(l.blocks)
  {
  }

  lemma OutsideDefinesNone(l: Motion, w: seq<Pos>, i: nat, x: string)
    requires MotionOk(l) && OutsideOnly(l, w) && i < |w| && Defines(l.blocks, w[i], x)
    ensures x !in Written(l.moved)
  {
    assert OnlyMoved(l, w[i].block, InstAt(l.blocks, w[i]));
    WrittenAreResults(l);
  }

  lemma TrackedStep(l: Motion, world: World, c: Config, news: set<string>, w: seq<Pos>, first: seq<Pos>)
    returns (w1: seq<Pos>, first1: seq<Pos>)
    requires MotionOk(l) && Tracked(l, c, news, w, first) && Step(l.blocks, world, c).Running?
    ensures var n := Step(l.blocks, world, c).c; Tracked(l, n, NextFresh(l, c, news, n), w1, first1)
  {
    hide OperandsReady, AssignedInLoop, Movable, EndsOnce, Written, Step, Targets;
    var n := Step(l.blocks, world, c).c;
    var here, next := Pos(c.block, c.pos), Pos(n.block, n.pos);
    TrackedInside(l, c, news, w, first);
    BlocksEndOnce(l);
    StepFollows(l.blocks, world, c);
    Longer(l.blocks, w, next);
    w1, first1 := w + [next], first;
    assert Enters(l, c.block, InstAt(l.blocks, here));
    if first == [] {
      assert !InLoop(l, w[|w| - 1].block);
      assert OutsideOnly(l, w1);
      if n.block == l.pre { first1 := w1; }
    }
    if n.block == l.pre {
      if c.block == l.pre && IsStraight(InstAt(l.blocks, here).op) {
        PreDefinesNone(l, here);
      } else {
        StraightStays(l, c, here, next);
        w1 := first1;
        forall i, x | 0 <= i < |w1| - 1 && x in Written(l.moved) ensures !Defines(l.blocks, w1[i], x) {
          if Defines(l.blocks, w1[i], x) { OutsideDefinesNone(l, w1, i, x); }
        }
      }
    }
  }

  lemma StraightStays(l: Motion, c: Config, here: Pos, next: Pos)
    requires Follows(l.blocks, here, next) && next.block == l.pre
      && !(here.block == l.pre && IsStraight(InstAt(l.blocks, here).op))
    ensures next == Pos(l.pre, 0)
  {
  }

  lemma PreDefinesNone(l: Motion, p: Pos)
    requires MotionOk(l) && Inside(l.blocks, p) && p.block == l.pre
    ensures InstAt(l.blocks, p).result !in Written(l.moved)
  {
    assert OnlyMoved(l, p.block, InstAt(l.blocks, p));
    WrittenAreResults(l);
  }

  lemma TrackedInside(l: Motion, c: Config, news: set<string>, w: seq<Pos>, first: seq<Pos>)
    requires Tracked(l, c, news, w, first)
    ensures At(l, c.block, c.pos)
  {
    if |w| > 1 {
      var i := |w| - 2;
      assert Follows(l.blocks, w[i], w[i + 1]);
    }
  }

  lemma {:induction false} TrackedRun(l: Motion, world: World, c: Config, news: set<string>, w: seq<Pos>,
      first: seq<Pos>, n: nat)
    requires MotionOk(l) && DefsDominate(l) && Tracked(l, c, news, w, first)
    ensures FreshAt(l, world, c, news, n)
    decreases n
  {
    hide MotionOk, DefsDominate, Tracked, ReadsFresh, Step, NextFresh;
    if n == 0 {
      TrackedReads(l, c, news, w, first);
    } else if Step(l.blocks, world, c).Running? {
      var w1, first1 := TrackedStep(l, world, c, news, w, first);
      var next := Step(l.blocks, world, c).c;
      TrackedRun(l, world, next, NextFresh(l, c, news, next), w1, first1, n - 1);
    }
  }

  lemma StartTracked(l: Motion, s: Store) returns (first: seq<Pos>)
    requires MotionOk(l)
    ensures Tracked(l, Config(0, 0, s), {}, [Pos(0, 0)], first)
  {
    hide OperandsReady, AssignedInLoop, Movable, Written;
    assert EndsOnce(l.blocks[0].instructions);
    first := if l.pre == 0 then [Pos(0, 0)] else [];
  }

  /** Loop-invariant code motion is correct: if definitions dominate uses, the program with the
      instructions moved stops exactly when and how the original does, on every run. */
  lemma HoistingCorrect(l: Motion, world: World, s: Store)
    requires MotionOk(l) && DefsDominate(l)
    ensures StopsAlike(l.blocks, After(l), world, Config(0, 0, s), Config(0, 0, s))
  {
    hide MotionOk, DefsDominate, Tracked, FreshAt, StopsAlike, After;
    var first := StartTracked(l, s);
    forall n: nat ensures FreshAt(l, world, Config(0, 0, s), {}, n) {
      TrackedRun(l, world, Config(0, 0, s), {}, [Pos(0, 0)], first, n);
    }
    MotionCorrect(l, world, s);
  }
}
