/** Ways that control can take through the blocks of a function, whatever the values. */
module Paths {
  import opened Ssa

  /** Only the last instruction of a block leaves it. */
  ghost predicate EndsOnce(insts: seq<SSAInstruction>) {
    |insts| > 0 && !IsStraight(insts[|insts| - 1].op) && forall j :: 0 <= j < |insts| - 1 ==> IsStraight(insts[j].op)
  }

  ghost predicate AllEndOnce(blocks: seq<SSABasicBlock>) {
    |blocks| > 0 && forall b :: 0 <= b < |blocks| ==> EndsOnce(blocks[b].instructions)
  }

  /** The labels a jump can go to. */
  function Targets(inst: SSAInstruction): set<string> {
    if inst.op.Branch? && |inst.operands| >= 1 && inst.operands[0].Str? then {inst.operands[0].s}
    else if inst.op.CondBranch? && |inst.operands| >= 3 then
      (if inst.operands[1].Str? then {inst.operands[1].s}
      else {}) + (if inst.operands[2].Str? then {inst.operands[2].s} else {})
    else {}
  }

  ghost predicate Reads(inst: SSAInstruction, x: string) {
    Var(x) in inst.operands
  }

  datatype Pos = Pos(block: nat, pos: nat)

  ghost predicate Inside(blocks: seq<SSABasicBlock>, p: Pos) {
    p.block < |blocks| && p.pos < |blocks[p.block].instructions|
  }

  function InstAt(blocks: seq<SSABasicBlock>, p: Pos): SSAInstruction
    requires p.block < |blocks| && p.pos < |blocks[p.block].instructions|
  {
    blocks[p.block].instructions[p.pos]
  }

  /** Control can go from p to q. */
  ghost predicate Follows(blocks: seq<SSABasicBlock>, p: Pos, q: Pos) {
    && Inside(blocks, p) && Inside(blocks, q)
    && if IsStraight(InstAt(blocks, p).op) then q == Pos(p.block, p.pos + 1)
       else q.pos == 0 && blocks[q.block].name in Targets(InstAt(blocks, p))
  }

  /** A way control can take from the first instruction. */
  ghost predicate History(blocks: seq<SSABasicBlock>, w: seq<Pos>) {
    && |w| > 0 && w[0] == Pos(0, 0) && Inside(blocks, w[0])
    && forall i, j :: 0 <= i && j == i + 1 && j < |w| ==> Follows(blocks, w[i], w[j])
  }

  ghost predicate Defines(blocks: seq<SSABasicBlock>, p: Pos, x: string) {
    Inside(blocks, p) && InstAt(blocks, p).result == x
  }

  ghost predicate DefinedBefore(blocks: seq<SSABasicBlock>, w: seq<Pos>, x: string) {
    exists i :: 0 <= i < |w| - 1 && Defines(blocks, w[i], x)
  }

  lemma Longer(blocks: seq<SSABasicBlock>, w: seq<Pos>, p: Pos)
    requires History(blocks, w) && Follows(blocks, w[|w| - 1], p)
    ensures History(blocks, w + [p])
  {
    hide Follows;
    var v := w + [p];
    forall i, j | 0 <= i && j == i + 1 && j < |v| ensures Follows(blocks, v[i], v[j]) {
      if j < |w| { assert Follows(blocks, w[i], w[j]); }
    }
  }

  lemma HistoryInside(blocks: seq<SSABasicBlock>, w: seq<Pos>, i: nat)
    requires History(blocks, w) && i < |w|
    ensures Inside(blocks, w[i])
  {
    if i > 0 {
      var j := i - 1;
      assert Follows(blocks, w[j], w[i]);
    }
  }

  // ----- runs follow ways

  lemma StepFollows(blocks: seq<SSABasicBlock>, world: World, c: Config)
    requires AllEndOnce(blocks) && Inside(blocks, Pos(c.block, c.pos)) && Step(blocks, world, c).Running?
    ensures var n := Step(blocks, world, c).c; Follows(blocks, Pos(c.block, c.pos), Pos(n.block, n.pos))
  {
    hide Exec, Value;
    assert EndsOnce(blocks[c.block].instructions);
    var n := Step(blocks, world, c).c;
    if n.block < |blocks| { assert EndsOnce(blocks[n.block].instructions); }
  }

  /** A way on which all that was assigned in n steps is defined. */
  lemma {:induction false} RunFollows(blocks: seq<SSABasicBlock>, world: World, s: Store, n: nat) returns (w: seq<Pos>)
    requires AllEndOnce(blocks) && Run(blocks, world, Config(0, 0, s), n).Running?
    ensures var c := Run(blocks, world, Config(0, 0, s), n).c; History(blocks, w) && w[|w| - 1] == Pos(c.block, c.pos)
    ensures |w| == n + 1
    ensures forall i :: 0 <= i <= n ==> Run(blocks, world, Config(0, 0, s), i).Running?
                                        && w[i] == Pos(Run(blocks, world, Config(0, 0, s), i).c.block,
                                           Run(blocks, world, Config(0, 0, s), i).c.pos)
  {
    hide Step, Follows;
    var c0 := Config(0, 0, s);
    if n == 0 {
      assert EndsOnce(blocks[0].instructions);
      w := [Pos(0, 0)];
    } else {
      RunStillRunning(blocks, world, c0, n - 1, n);
      w := RunFollows(blocks, world, s, n - 1);
      var c := Run(blocks, world, c0, n - 1).c;
      HistoryInside(blocks, w, |w| - 1);
      LastStep(blocks, world, c0, n - 1);
      StepFollows(blocks, world, c);
      var d := Run(blocks, world, c0, n).c;
      Longer(blocks, w, Pos(d.block, d.pos));
      w := w + [Pos(d.block, d.pos)];
    }
  }

  lemma LastStep(blocks: seq<SSABasicBlock>, world: World, c: Config, n: nat)
    requires Run(blocks, world, c, n).Running?
    ensures Run(blocks, world, c, n + 1) == Step(blocks, world, Run(blocks, world, c, n).c)
  {
    hide Step;
    RunCompose(blocks, world, c, n, 1);
    var d := Run(blocks, world, c, n).c;
    var o := Step(blocks, world, d);
    assert Run(blocks, world, d, 1) == if o.Running? then Run(blocks, world, o.c, 0) else o;
  }

  // ----- definitions dominate uses

  /** Names that some instruction writes. */
  ghost predicate Assigned(blocks: seq<SSABasicBlock>, x: string) {
    x != "" && exists p: Pos :: Inside(blocks, p) && InstAt(blocks, p).result == x && !InstAt(blocks, p).op.ArrayAlloc?
  }

  /** However control gets to a use of a name that the function assigns, it has passed a definition. */
  ghost predicate DefsDominateUses(blocks: seq<SSABasicBlock>) {
    forall w, x ::
      History(blocks, w) && Inside(blocks, w[|w| - 1]) && Reads(InstAt(blocks, w[|w| - 1]), x)
        && Assigned(blocks, x) ==>
      DefinedBefore(blocks, w, x)
  }
}
