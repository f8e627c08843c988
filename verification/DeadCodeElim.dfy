/** Dead code elimination, src/middleend/opt/DeadCodeElim.hpp: instructions without side effects whose
    result no operand names are erased, until there are none left. */
module DeadCodeElim {
  import opened Ssa
  import opened Erasure

  predicate HasSideEffects(op: SSAOp) {
    op.Call? || op.Return? || op.ArrayStore? || op.Branch? || op.CondBranch?
  }

  function OperandNames(vs: seq<SSAValue>): set<string> {
    if vs == [] then {}
    else
      var v := vs[|vs| - 1];
      OperandNames(vs[..|vs| - 1]) + if v.Var? && v.name != "" then {v.name} else {}
  }

  function InstNames(insts: seq<SSAInstruction>): set<string> {
    if insts == [] then {} else InstNames(insts[..|insts| - 1]) + OperandNames(insts[|insts| - 1].operands)
  }

  /** Every name that some operand mentions. */
  function Used(blocks: seq<SSABasicBlock>): set<string> {
    if blocks == [] then {} else Used(blocks[..|blocks| - 1]) + InstNames(blocks[|blocks| - 1].instructions)
  }

  predicate IsDead(used: set<string>, inst: SSAInstruction) {
    inst.result != "" && inst.result !in used && !HasSideEffects(inst.op)
  }

  /** One round: everything dead is erased. */
  function Round(blocks: seq<SSABasicBlock>): seq<SSABasicBlock> {
    KeptBlocks(inst => !IsDead(Used(blocks), inst), blocks)
  }

  function Total(blocks: seq<SSABasicBlock>): nat {
    if blocks == [] then 0 else Total(blocks[..|blocks| - 1]) + |blocks[|blocks| - 1].instructions|
  }

  lemma {:induction false} KeptSame(keep: SSAInstruction -> bool, insts: seq<SSAInstruction>)
    requires |Kept(keep, insts)| == |insts|
    ensures Kept(keep, insts) == insts && forall j :: 0 <= j < |insts| ==> keep(insts[j])
    decreases |insts|
  {
    if insts != [] { KeptSame(keep, insts[..|insts| - 1]); }
  }

  /** A round either changes nothing or leaves fewer instructions. */
  lemma {:induction false} KeptShrinks(keep: SSAInstruction -> bool, blocks: seq<SSABasicBlock>)
    ensures Total(KeptBlocks(keep, blocks)) <= Total(blocks)
    ensures Total(KeptBlocks(keep, blocks)) == Total(blocks) ==> KeptBlocks(keep, blocks) == blocks
    decreases |blocks|
  {
    if blocks != [] {
      var init, last := blocks[..|blocks| - 1], blocks[|blocks| - 1];
      KeptShrinks(keep, init);
      var q := KeptBlocks(keep, blocks);
      assert q[..|q| - 1] == KeptBlocks(keep, init);
      if |Kept(keep, last.instructions)| == |last.instructions| {
        KeptSame(keep, last.instructions);
        if Total(KeptBlocks(keep, init)) == Total(init) { assert q == init + [last]; }
      }
    }
  }

  function Optimized(blocks: seq<SSABasicBlock>): seq<SSABasicBlock>
    decreases Total(blocks)
  {
    KeptShrinks(inst => !IsDead(Used(blocks), inst), blocks);
    if Total(Round(blocks)) == Total(blocks) then blocks else Optimized(Round(blocks))
  }

  // ----- what is used

  lemma {:induction false} OperandUsed(vs: seq<SSAValue>, v: SSAValue)
    requires v in vs && v.Var? && v.name != ""
    ensures v.name in OperandNames(vs)
    decreases |vs|
  {
    if v != vs[|vs| - 1] {
      assert v in vs[..|vs| - 1];
      OperandUsed(vs[..|vs| - 1], v);
    }
  }

  lemma {:induction false} InstUsed(insts: seq<SSAInstruction>, j: nat)
    requires j < |insts|
    ensures OperandNames(insts[j].operands) <= InstNames(insts)
    decreases |insts|
  {
    if j < |insts| - 1 { InstUsed(insts[..|insts| - 1], j); }
  }

  lemma {:induction false} BlockUsed(blocks: seq<SSABasicBlock>, b: nat)
    requires b < |blocks|
    ensures InstNames(blocks[b].instructions) <= Used(blocks)
    decreases |blocks|
  {
    if b < |blocks| - 1 { BlockUsed(blocks[..|blocks| - 1], b); }
  }

  lemma DeadIsErasable(blocks: seq<SSABasicBlock>)
    ensures AllErasable(inst => !IsDead(Used(blocks), inst), Used(blocks) + {""}, blocks)
  {
    hide OperandNames, InstNames, Used;
    var used := Used(blocks);
    forall b: nat, j: nat | b < |blocks| && j < |blocks[b].instructions|
      ensures Erasable(inst => !IsDead(used, inst), used + {""}, blocks[b].instructions[j])
    {
      var inst := blocks[b].instructions[j];
      InstUsed(blocks[b].instructions, j);
      BlockUsed(blocks, b);
      forall v | v in inst.operands && v.Var? ensures v.name in used + {""} {
        if v.name != "" { OperandUsed(inst.operands, v); }
      }
    }
  }

  lemma FaultFreeErasedRun(keep: SSAInstruction -> bool, p: seq<SSABasicBlock>, world: World, c: Config)
    requires FaultFree(p, world, c)
    ensures ErasedRun(keep, p, world, c)
  {
    hide Step, AtErased;
    forall n: nat ensures ErasedRuns(keep, p, world, Run(p, world, c, n)) {
      var o := Run(p, world, c, n);
      if o.Running? {
        RunCompose(p, world, c, n, 1);
        assert !Run(p, world, c, n + 1).Faulted?;
        assert Run(p, world, o.c, 1) == if Step(p, world, o.c).Running? then Run(p, world, Step(p, world, o.c).c, 0)
        else Step(p, world, o.c);
      }
    }
  }

  lemma RoundCorrect(blocks: seq<SSABasicBlock>, world: World, s: Store)
    requires FaultFree(blocks, world, Config(0, 0, s))
    ensures StopsAlike(blocks, Round(blocks), world, Config(0, 0, s), Config(0, 0, s))
  {
    hide AllErasable, ErasedRun, Used, FaultFree, StopsAlike;
    var keep := inst => !IsDead(Used(blocks), inst);
    DeadIsErasable(blocks);
    FaultFreeErasedRun(keep, blocks, world, Config(0, 0, s));
    ErasureCorrect(keep, Used(blocks) + {""}, blocks, world, s);
  }

  /** On every run that does not fault, the optimised program makes the same calls and returns the
      same value; in particular it stops exactly when the original does. */
  lemma {:induction false} OptimizedCorrect(blocks: seq<SSABasicBlock>, world: World, s: Store)
    requires FaultFree(blocks, world, Config(0, 0, s))
    ensures StopsAlike(blocks, Optimized(blocks), world, Config(0, 0, s), Config(0, 0, s))
    decreases Total(blocks)
  {
    hide Round, FaultFree, StopsAlike;
    var c := Config(0, 0, s);
    Shrinks(blocks);
    if Total(Round(blocks)) != Total(blocks) {
      RoundCorrect(blocks, world, s);
      StopsAlikeMeans(blocks, Round(blocks), world, s);
      OptimizedCorrect(Round(blocks), world, s);
      StopsAlikeTrans(blocks, Round(blocks), Optimized(blocks), world, c);
    } else {
      SameAlike(blocks, world, c);
    }
  }

  lemma SameAlike(blocks: seq<SSABasicBlock>, world: World, c: Config)
    ensures StopsAlike(blocks, blocks, world, c, c)
  {
  }

  lemma Shrinks(blocks: seq<SSABasicBlock>)
    ensures Total(Round(blocks)) <= Total(blocks)
    ensures Total(Round(blocks)) == Total(blocks) ==> Round(blocks) == blocks
  {
    KeptShrinks(inst => !IsDead(Used(blocks), inst), blocks);
  }

  /** Nothing dead is left. */
  lemma {:induction false} NothingDeadLeft(blocks: seq<SSABasicBlock>, b: nat, j: nat)
    requires b < |Optimized(blocks)| && j < |Optimized(blocks)[b].instructions|
    ensures !IsDead(Used(Optimized(blocks)), Optimized(blocks)[b].instructions[j])
    decreases Total(blocks)
  {
    hide Used;
    Shrinks(blocks);
    if Total(Round(blocks)) != Total(blocks) {
      NothingDeadLeft(Round(blocks), b, j);
    } else {
      KeptSame(inst => !IsDead(Used(blocks), inst), blocks[b].instructions);
    }
  }

  // ----- the result is the original with instructions left out

  ghost predicate SubSequence(a: seq<SSAInstruction>, b: seq<SSAInstruction>) {
    a == [] || (b != []
      && (SubSequence(a, b[..|b| - 1]) || (a[|a| - 1] == b[|b| - 1] && SubSequence(a[..|a| - 1], b[..|b| - 1]))))
  }

  ghost predicate SubProgram(p: seq<SSABasicBlock>, q: seq<SSABasicBlock>) {
    |p| == |q| && forall b ::
      0 <= b < |p| ==> p[b].name == q[b].name && SubSequence(p[b].instructions, q[b].instructions)
  }

  lemma {:induction false} KeptIsSub(keep: SSAInstruction -> bool, insts: seq<SSAInstruction>)
    ensures SubSequence(Kept(keep, insts), insts)
    decreases |insts|
  {
    if insts != [] {
      var r := Kept(keep, insts);
      KeptIsSub(keep, insts[..|insts| - 1]);
      if keep(insts[|insts| - 1]) {
        assert r[..|r| - 1] == Kept(keep, insts[..|insts| - 1]) && r[|r| - 1] == insts[|insts| - 1];
      } else {
        assert r == Kept(keep, insts[..|insts| - 1]);
      }
    }
  }

  lemma {:induction false} SubTrans(a: seq<SSAInstruction>, b: seq<SSAInstruction>, c: seq<SSAInstruction>)
    requires SubSequence(a, b) && SubSequence(b, c)
    ensures SubSequence(a, c)
    decreases |c|
  {
    if a != [] {
      var c' := c[..|c| - 1];
      if SubSequence(b, c') {
        SubTrans(a, b, c');
      } else if SubSequence(a, b[..|b| - 1]) {
        SubTrans(a, b[..|b| - 1], c');
      } else {
        SubTrans(a[..|a| - 1], b[..|b| - 1], c');
      }
    }
  }

  lemma {:induction false} OptimizedIsSubProgram(blocks: seq<SSABasicBlock>)
    ensures SubProgram(Optimized(blocks), blocks)
    decreases Total(blocks)
  {
    hide SubSequence, Used;
    Shrinks(blocks);
    var q, keep := Round(blocks), inst => !IsDead(Used(blocks), inst);
    forall b | 0 <= b < |blocks| ensures SubSequence(q[b].instructions, blocks[b].instructions) {
      KeptIsSub(keep, blocks[b].instructions);
    }
    if Total(q) != Total(blocks) {
      OptimizedIsSubProgram(q);
      forall b | 0 <= b < |blocks| ensures SubSequence(Optimized(q)[b].instructions, blocks[b].instructions) {
        SubTrans(Optimized(q)[b].instructions, q[b].instructions, blocks[b].instructions);
      }
    } else {
      assert q == blocks;
    }
  }

  // ----- the pass as written: collect the used names, erase, repeat while something changed

  method CollectUsed(blocks: seq<SSABasicBlock>) returns (usedVars: set<string>)
    ensures usedVars == Used(blocks)
  {
    usedVars := {};
    var b := 0;
    while b < |blocks|
      invariant 0 <= b <= |blocks| && usedVars == Used(blocks[..b])
    {
      var insts, before := blocks[b].instructions, usedVars;
      var j := 0;
      while j < |insts|
        invariant 0 <= j <= |insts| && usedVars == before + InstNames(insts[..j])
      {
        var ops, here := insts[j].operands, usedVars;
        var k := 0;
        while k < |ops|
          invariant 0 <= k <= |ops| && usedVars == here + OperandNames(ops[..k])
        {
          assert ops[..k + 1][..k] == ops[..k];
          if ops[k].Var? && ops[k].name != "" { usedVars := usedVars + {ops[k].name}; }
          k := k + 1;
        }
        assert ops[..k] == ops && insts[..j + 1][..j] == insts[..j];
        j := j + 1;
      }
      assert insts[..j] == insts && blocks[..b + 1][..b] == blocks[..b];
      b := b + 1;
    }
    assert blocks[..b] == blocks;
  }

  method EraseDead(insts: seq<SSAInstruction>, usedVars: set<string>) returns (left: seq<SSAInstruction>, changed: bool)
    ensures left == Kept(inst => !IsDead(usedVars, inst), insts) && (changed <==> |left| < |insts|)
  {
    left, changed := insts, false;
    ghost var keep := inst => !IsDead(usedVars, inst);
    ghost var n := 0;
    var it := 0;
    while it < |left|
      invariant 0 <= it <= |left| && 0 <= n <= |insts| && left[..it] == Kept(keep, insts[..n])
        && left[it..] == insts[n..]
      invariant changed <==> |left| < |insts|
      decreases |left| - it
    {
      assert left[it] == left[it..][0] == insts[n];
      assert insts[..n + 1][..n] == insts[..n];
      if left[it].result != "" && left[it].result !in usedVars && !HasSideEffects(left[it].op) {
        left, changed := left[..it] + left[it + 1..], true;
        assert left[..it] == Kept(keep, insts[..n + 1]) && left[it..] == insts[n + 1..];
      } else {
        assert left[..it + 1] == left[..it] + [left[it]];
        assert left[it + 1..] == left[it..][1..] == insts[n + 1..];
        it := it + 1;
      }
      n := n + 1;
    }
    assert left[..it] == left && left[it..] == [] && insts[n..] == [] && insts[..n] == insts;
  }

  /** One round over every block. */
  method EraseRound(func: seq<SSABasicBlock>) returns (blocks: seq<SSABasicBlock>, changed: bool)
    ensures blocks == Round(func) && (changed <==> Total(Round(func)) != Total(func))
  {
    hide Used, Total, HasSideEffects, OperandNames, InstNames;
    var usedVars := CollectUsed(func);
    ghost var keep := inst => !IsDead(usedVars, inst);
    blocks, changed := func, false;
    var b := 0;
    while b < |blocks|
      invariant 0 <= b <= |blocks| == |func|
      invariant forall i :: 0 <= i < |func| ==> blocks[i] == if i < b then Round(func)[i] else func[i]
      invariant changed ==> exists i :: 0 <= i < b && blocks[i] != func[i]
      invariant !changed ==> blocks == func
    {
      ghost var before, was := blocks, changed;
      var left, c := EraseDead(blocks[b].instructions, usedVars);
      if !c { KeptSame(keep, func[b].instructions); }
      blocks := blocks[b := blocks[b].(instructions := left)];
      changed := changed || c;
      assert c ==> blocks[b] != func[b];
      if was {
        var i :| 0 <= i < b && before[i] != func[i];
        assert blocks[i] != func[i];
      }
      b := b + 1;
    }
    assert blocks == Round(func);
    Shrinks(func);
    SameTotal(func);
  }

  lemma SameTotal(func: seq<SSABasicBlock>)
    ensures Round(func) == func ==> Total(Round(func)) == Total(func)
  {
  }

  method Optimize(func: seq<SSABasicBlock>) returns (blocks: seq<SSABasicBlock>)
    ensures blocks == Optimized(func)
  {
    hide Used, Total, Round;
    blocks := func;
    var changed := true;
    while changed
      invariant Optimized(blocks) == Optimized(func) && (!changed ==> Total(Round(blocks)) == Total(blocks))
      decreases Total(blocks), changed
    {
      ghost var before := blocks;
      Shrinks(before);
      blocks, changed := EraseRound(blocks);
    }
  }
}
