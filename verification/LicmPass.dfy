/** The pass of src/middleend/opt/LICM.hpp as written: finding loops by their back edges, collecting
    invariant instructions until there are no more, and inserting them. What it does to one loop is
    proved to be a motion that module Licm shows correct. */
module LicmPasses {
  import opened Options
  import opened Ssa
  import opened Erasure
  import opened Paths
  import opened Licm
  import opened ConstantProp

  predicate HasSideEffects(op: SSAOp) {
    op.Call? || op.Return? || op.ArrayStore? || op.ArrayLoad? || op.Branch? || op.CondBranch? || op.Phi?
  }

  /** No name is the result of two instructions. */
  ghost predicate SingleAssignment(blocks: seq<SSABasicBlock>) {
    forall x :: x != "" ==> Assignments(blocks, x) <= 1
  }

  ghost predicate DistinctNames(blocks: seq<SSABasicBlock>) {
    forall i, j :: 0 <= i < j < |blocks| ==> blocks[i].name != blocks[j].name
  }

  function InstResults(insts: seq<SSAInstruction>): set<string> {
    if insts == [] then {}
    else InstResults(insts[..|insts| - 1]) + if insts[|insts| - 1].result != "" then {insts[|insts| - 1].result} else {}
  }

  /** The names that the blocks of the loop assign. */
  function LoopResults(blocks: seq<SSABasicBlock>, inLoop: set<string>): set<string> {
    if blocks == [] then {}
    else
      var last := blocks[|blocks| - 1];
      LoopResults(blocks[..|blocks| - 1], inLoop) + if last.name in inLoop then InstResults(last.instructions) else {}
  }

  lemma {:induction false} InInstResults(insts: seq<SSAInstruction>, x: string)
    ensures x in InstResults(insts) <==> x != "" && exists j :: 0 <= j < |insts| && insts[j].result == x
    decreases |insts|
  {
    if insts != [] {
      var init, n := insts[..|insts| - 1], |insts| - 1;
      InInstResults(init, x);
      if x in InstResults(init) {
        var j :| 0 <= j < |init| && init[j].result == x;
        assert insts[j].result == x;
      }
      if j :| x != "" && 0 <= j < |insts| && insts[j].result == x {
        if j < n { assert init[j].result == x; }
      }
    }
  }

  ghost predicate AssignedInBlock(blocks: seq<SSABasicBlock>, inLoop: set<string>, x: string, b: nat, j: nat) {
    b < |blocks| && blocks[b].name in inLoop && j < |blocks[b].instructions| && blocks[b].instructions[j].result == x
  }

  lemma {:induction false} InLoopResults(blocks: seq<SSABasicBlock>, inLoop: set<string>, x: string)
    ensures x in LoopResults(blocks, inLoop) <==>
      x != "" && exists b: nat, j: nat :: AssignedInBlock(blocks, inLoop, x, b, j)
    decreases |blocks|
  {
    hide InstResults;
    if blocks != [] {
      var init, n := blocks[..|blocks| - 1], |blocks| - 1;
      InLoopResults(init, inLoop, x);
      InInstResults(blocks[n].instructions, x);
      if x in LoopResults(init, inLoop) {
        var b: nat, j: nat :| AssignedInBlock(init, inLoop, x, b, j);
        assert AssignedInBlock(blocks, inLoop, x, b, j);
      } else if x in LoopResults(blocks, inLoop) {
        var j: nat :| j < |blocks[n].instructions| && blocks[n].instructions[j].result == x;
        assert AssignedInBlock(blocks, inLoop, x, n, j);
      }
      if b: nat, j: nat :| x != "" && AssignedInBlock(blocks, inLoop, x, b, j) {
        if b < n { assert AssignedInBlock(init, inLoop, x, b, j); }
      }
    }
  }

  // ----- erasing the one instruction that assigns a name

  lemma {:induction false} KeptWithout(insts: seq<SSAInstruction>, names: set<string>, x: string)
    requires CountIn(insts, x) == 0
    ensures Kept(Stay(names + {x}), insts) == Kept(Stay(names), insts)
    decreases |insts|
  {
    if insts != [] { KeptWithout(insts[..|insts| - 1], names, x); }
  }

  lemma {:induction false} KeptLess(insts: seq<SSAInstruction>, names: set<string>, x: string, it: nat)
    requires CountIn(insts, x) <= 1 && it < |Kept(Stay(names), insts)| && Kept(Stay(names), insts)[it].result == x
    ensures Kept(Stay(names + {x}), insts) == Kept(Stay(names), insts)[..it] + Kept(Stay(names), insts)[it + 1..]
    decreases |insts|
  {
    var init, last := insts[..|insts| - 1], insts[|insts| - 1];
    var k := Kept(Stay(names), init);
    if it < |k| {
      HasCount(init, names, x, it);
      KeptLess(init, names, x, it);
      if Stay(names)(last) {
        assert last.result != x;
        assert (k + [last])[it + 1..] == k[it + 1..] + [last];
      }
    } else {
      KeptWithout(init, names, x);
      assert (k + [last])[..it] == k;
    }
  }

  lemma {:induction false} HasCount(insts: seq<SSAInstruction>, names: set<string>, x: string, it: nat)
    requires it < |Kept(Stay(names), insts)| && Kept(Stay(names), insts)[it].result == x
    ensures CountIn(insts, x) >= 1
    decreases |insts|
  {
    var init := insts[..|insts| - 1];
    if it < |Kept(Stay(names), init)| { HasCount(init, names, x, it); }
  }

  lemma {:induction false} CountedSome(insts: seq<SSAInstruction>, x: string) returns (j: nat)
    requires CountIn(insts, x) >= 1
    ensures j < |insts| && insts[j].result == x
    decreases |insts|
  {
    if insts[|insts| - 1].result == x {
      j := |insts| - 1;
    } else {
      j := CountedSome(insts[..|insts| - 1], x);
    }
  }

  lemma {:induction false} CountAtMost(blocks: seq<SSABasicBlock>, x: string, b: nat)
    requires b < |blocks|
    ensures CountIn(blocks[b].instructions, x) <= Assignments(blocks, x)
    decreases |blocks|
  {
    if b < |blocks| - 1 { CountAtMost(blocks[..|blocks| - 1], x, b); }
  }

  /** Erasing the assignment of x: one block has one instruction less, the others are as they were. */
  lemma EraseAssignment(blocks: seq<SSABasicBlock>, names: set<string>, x: string, b: nat, it: nat)
    requires SingleAssignment(blocks) && x != "" && b < |blocks|
    requires it < |Kept(Stay(names), blocks[b].instructions)|
      && Kept(Stay(names), blocks[b].instructions)[it].result == x
    ensures var before, after := KeptBlocks(Stay(names), blocks), KeptBlocks(Stay(names + {x}), blocks);
      after == before[b := before[b].(instructions := before[b].instructions[..it] + before[b].instructions[it + 1..])]
  {
    hide Kept, Stay, SingleAssignment;
    assert Assignments(blocks, x) <= 1 by { AtMostOnce(blocks, x); }
    var before, after := KeptBlocks(Stay(names), blocks), KeptBlocks(Stay(names + {x}), blocks);
    CountAtMost(blocks, x, b);
    KeptLess(blocks[b].instructions, names, x, it);
    HasCount(blocks[b].instructions, names, x, it);
    var j := CountedSome(blocks[b].instructions, x);
    forall c | 0 <= c < |blocks| && c != b ensures after[c] == before[c] {
      NotElsewhere(blocks, x, b, j, c);
      KeptWithout(blocks[c].instructions, names, x);
    }
  }

  lemma AtMostOnce(blocks: seq<SSABasicBlock>, x: string)
    requires SingleAssignment(blocks) && x != ""
    ensures Assignments(blocks, x) <= 1
  {
  }

  lemma NotElsewhere(blocks: seq<SSABasicBlock>, x: string, b: nat, j: nat, c: nat)
    requires Assignments(blocks, x) <= 1 && AssignedAt(blocks, x, b, j) && c < |blocks| && c != b
    ensures CountIn(blocks[c].instructions, x) == 0
  {
    if CountIn(blocks[c].instructions, x) >= 1 {
      var k := CountedSome(blocks[c].instructions, x);
      if b < c { AssignedOnce(blocks, x, b, j, c, k); } else { AssignedOnce(blocks, x, c, k, b, j); }
    }
  }

  // ----- what has been collected

  /** An instruction of the loop that may be collected. */
  ghost predicate FromLoop(blocks: seq<SSABasicBlock>, inLoop: set<string>, inst: SSAInstruction) {
    inst.result != "" && !HasSideEffects(inst.op)
    && exists b: nat, j: nat :: AssignedInBlock(blocks, inLoop, inst.result, b, j) && blocks[b].instructions[j] == inst
  }

  /** Its operands are collected already or not assigned in the loop. */
  ghost predicate Invariant(blocks: seq<SSABasicBlock>, inLoop: set<string>, before: seq<SSAInstruction>,
      inst: SSAInstruction) {
    forall x :: Reads(inst, x) ==> x in Results(before) || x !in LoopResults(blocks, inLoop)
  }

  ghost predicate Collected(blocks: seq<SSABasicBlock>, inLoop: set<string>, moved: seq<SSAInstruction>) {
    && DistinctResults(moved)
    && forall k ::
      0 <= k < |moved| ==> FromLoop(blocks, inLoop, moved[k]) && Invariant(blocks, inLoop, moved[..k], moved[k])
  }

  /** Not to be collected: no result, side effects, or an operand that is still assigned in the loop. */
  ghost predicate Stuck(inst: SSAInstruction, defined: set<string>) {
    inst.result == "" || HasSideEffects(inst.op) || exists v :: v in inst.operands && v.Var? && v.name in defined
  }

  ghost predicate BlockDone(insts: seq<SSAInstruction>, defined: set<string>) {
    forall j :: 0 <= j < |insts| ==> Stuck(insts[j], defined)
  }

  ghost predicate LoopDone(left: seq<SSABasicBlock>, inLoop: set<string>, defined: set<string>) {
    forall b :: 0 <= b < |left| && left[b].name in inLoop ==> BlockDone(left[b].instructions, defined)
  }

  /** Nothing that is left in the loop could be collected. */
  ghost predicate Exhausted(blocks: seq<SSABasicBlock>, inLoop: set<string>, moved: seq<SSAInstruction>) {
    LoopDone(KeptBlocks(Stay(Results(moved)), blocks), inLoop, LoopResults(blocks, inLoop) - Results(moved))
  }

  lemma {:induction false} KeptHas(keep: SSAInstruction -> bool, insts: seq<SSAInstruction>, j: nat) returns (it: nat)
    requires j < |insts| && keep(insts[j])
    ensures it < |Kept(keep, insts)| && Kept(keep, insts)[it] == insts[j]
    decreases |insts|
  {
    var init := insts[..|insts| - 1];
    if j < |init| { it := KeptHas(keep, init, j); } else { it := |Kept(keep, init)|; }
  }

  lemma LeftIsStuck(blocks: seq<SSABasicBlock>, inLoop: set<string>, moved: seq<SSAInstruction>, inst: SSAInstruction)
    requires FromLoop(blocks, inLoop, inst) && Exhausted(blocks, inLoop, moved)
    ensures inst.result in Results(moved) || Stuck(inst, LoopResults(blocks, inLoop) - Results(moved))
  {
    hide LoopResults, HasSideEffects, Kept, Stuck;
    if inst.result !in Results(moved) {
      var b: nat, j: nat :| AssignedInBlock(blocks, inLoop, inst.result, b, j) && blocks[b].instructions[j] == inst;
      var it := KeptHas(Stay(Results(moved)), blocks[b].instructions, j);
      var left := KeptBlocks(Stay(Results(moved)), blocks);
      assert BlockDone(left[b].instructions, LoopResults(blocks, inLoop) - Results(moved));
    }
  }

  lemma CollectedToo(blocks: seq<SSABasicBlock>, inLoop: set<string>, before: seq<SSAInstruction>, inst: SSAInstruction,
                     moved: seq<SSAInstruction>)
    requires FromLoop(blocks, inLoop, inst) && Invariant(blocks, inLoop, before, inst)
      && Results(before) <= Results(moved)
    requires Exhausted(blocks, inLoop, moved)
    ensures inst.result in Results(moved)
  {
    hide LoopResults, HasSideEffects, Exhausted;
    LeftIsStuck(blocks, inLoop, moved, inst);
    forall v | v in inst.operands && v.Var? ensures v.name !in LoopResults(blocks, inLoop) - Results(moved) {
      assert v == Var(v.name) && Reads(inst, v.name);
    }
  }

  lemma {:induction false} CollectedWithin(blocks: seq<SSABasicBlock>, inLoop: set<string>, a: seq<SSAInstruction>,
      b: seq<SSAInstruction>, k: nat)
    requires Collected(blocks, inLoop, a) && Exhausted(blocks, inLoop, b) && k <= |a|
    ensures Results(a[..k]) <= Results(b)
  {
    hide FromLoop, Invariant, Exhausted;
    if k > 0 {
      CollectedWithin(blocks, inLoop, a, b, k - 1);
      CollectedToo(blocks, inLoop, a[..k - 1], a[k - 1], b);
      assert a[..k] == a[..k - 1] + [a[k - 1]];
      ResultsGrow(a[..k - 1], a[k - 1]);
    }
  }

  /** Which instructions are invariant does not depend on the order in which they are found: any two
      complete collections are the same set. */
  lemma InvariantsUnique(blocks: seq<SSABasicBlock>, inLoop: set<string>, a: seq<SSAInstruction>,
      b: seq<SSAInstruction>)
    requires Collected(blocks, inLoop, a) && Exhausted(blocks, inLoop, a)
    requires Collected(blocks, inLoop, b) && Exhausted(blocks, inLoop, b)
    ensures Results(a) == Results(b)
  {
    hide Collected, Exhausted, Results;
    CollectedWithin(blocks, inLoop, a, b, |a|);
    CollectedWithin(blocks, inLoop, b, a, |b|);
    assert a[..|a|] == a && b[..|b|] == b;
  }

  /** Collected so far, and what is left where. */
  ghost predicate HoistInv(blocks: seq<SSABasicBlock>, inLoop: set<string>, left: seq<SSABasicBlock>,
      moved: seq<SSAInstruction>,
                           defined: set<string>) {
    && Collected(blocks, inLoop, moved) && left == KeptBlocks(Stay(Results(moved)), blocks)
    && defined == LoopResults(blocks, inLoop) - Results(moved)
  }

  lemma ResultsGrow(moved: seq<SSAInstruction>, inst: SSAInstruction)
    ensures Results(moved + [inst]) == Results(moved) + {inst.result}
  {
    var all := moved + [inst];
    forall x ensures x in Results(all) <==> x in Results(moved) + {inst.result} {
      if x in Results(moved) {
        var i :| 0 <= i < |moved| && moved[i].result == x;
        assert all[i].result == x;
      }
      assert all[|moved|] == inst;
    }
  }

  lemma CollectOne(blocks: seq<SSABasicBlock>, inLoop: set<string>, moved: seq<SSAInstruction>, inst: SSAInstruction)
    requires Collected(blocks, inLoop, moved) && FromLoop(blocks, inLoop, inst)
      && Invariant(blocks, inLoop, moved, inst)
    requires inst.result !in Results(moved)
    ensures Collected(blocks, inLoop, moved + [inst])
  {
    hide FromLoop, Invariant;
    var all := moved + [inst];
    forall k | 0 <= k < |all| ensures FromLoop(blocks, inLoop, all[k]) && Invariant(blocks, inLoop, all[..k], all[k]) {
      if k < |moved| {
        assert all[..k] == moved[..k];
      } else {
        assert all[..k] == moved;
      }
    }
    forall i, k | 0 <= i < k < |all| ensures all[i].result != all[k].result {
      assert moved[i].result in Results(moved);
    }
  }

  lemma {:induction false} KeptFrom(keep: SSAInstruction -> bool, insts: seq<SSAInstruction>, it: nat) returns (j: nat)
    requires it < |Kept(keep, insts)|
    ensures j < |insts| && insts[j] == Kept(keep, insts)[it] && keep(insts[j])
    decreases |insts|
  {
    var init := insts[..|insts| - 1];
    if it < |Kept(keep, init)| { j := KeptFrom(keep, init, it); } else { j := |insts| - 1; }
  }

  /** One more instruction collected and erased. */
  lemma HoistOne(blocks: seq<SSABasicBlock>, inLoop: set<string>, left: seq<SSABasicBlock>, moved: seq<SSAInstruction>,
                 defined: set<string>, b: nat, it: nat)
    requires SingleAssignment(blocks) && HoistInv(blocks, inLoop, left, moved, defined)
    requires b < |left| && left[b].name in inLoop && it < |left[b].instructions|
    requires var inst := left[b].instructions[it];
      inst.result != "" && !HasSideEffects(inst.op) && forall v :: v in inst.operands && v.Var? ==> v.name !in defined
    ensures var inst, insts := left[b].instructions[it], left[b].instructions;
      HoistInv(blocks, inLoop, left[b := left[b].(instructions := insts[..it] + insts[it + 1..])], moved + [inst],
        defined - {inst.result})
  {
    hide LoopResults, SingleAssignment, Kept;
    var inst := left[b].instructions[it];
    var j := KeptFrom(Stay(Results(moved)), blocks[b].instructions, it);
    assert AssignedInBlock(blocks, inLoop, inst.result, b, j);
    forall x | Reads(inst, x) ensures x in Results(moved) || x !in LoopResults(blocks, inLoop) {
      assert Var(x).Var? && x !in defined;
    }
    CollectOne(blocks, inLoop, moved, inst);
    ResultsGrow(moved, inst);
    EraseAssignment(blocks, Results(moved), inst.result, b, it);
  }

  // ----- from what was collected to a motion

  lemma {:induction false} SamePlace(blocks: seq<SSABasicBlock>, x: string, b: nat, j: nat, b': nat, j': nat)
    requires Assignments(blocks, x) <= 1 && AssignedAt(blocks, x, b, j) && AssignedAt(blocks, x, b', j')
    ensures b == b' && j == j'
  {
    if b < b' || (b == b' && j < j') {
      AssignedOnce(blocks, x, b, j, b', j');
    } else if b' < b || j' < j {
      AssignedOnce(blocks, x, b', j', b, j);
    }
  }

  /** An instruction that cannot fault: not a division, and with its operands. */
  ghost predicate Total(inst: SSAInstruction) {
    if IsBinary(inst.op) then !inst.op.Div? && !inst.op.Mod? && |inst.operands| >= 2
    else (inst.op.Copy? && |inst.operands| >= 1) || inst.op.ArrayAlloc?
  }

  /** What is asked of a program and a loop. The rest of MotionOk follows from the algorithm. */
  ghost predicate SimpleLoop(l: Motion) {
    && SingleAssignment(l.blocks) && EnteredOnce(l) && EndsInJump(l.blocks[l.pre].instructions)
    && (forall b :: 0 <= b < |l.blocks| ==> EndsOnce(l.blocks[b].instructions))
    && (forall k :: 0 <= k < |l.moved| ==> Total(l.moved[k]))
  }

  lemma CollectedIsOk(l: Motion)
    requires SimpleLoop(l) && Collected(l.blocks, l.inLoop, l.moved)
    ensures MotionOk(l)
  {
    hide EndsOnce, EnteredOnce, SingleAssignment, LoopResults, DistinctResults, Enters;
    forall k, x | 0 <= k < |l.moved| && Reads(l.moved[k], x)
      ensures if x in Results(l.moved) then x in Results(l.moved[..k]) else OutsideLoop(l, x)
    {
      ReadyOperand(l, k, x);
    }
    forall b: nat, j: nat | At(l, b, j) ensures OnlyMoved(l, b, l.blocks[b].instructions[j]) { OnlyThere(l, b, j); }
    forall k | 0 <= k < |l.moved| ensures Movable(l.moved[k]) {
      assert FromLoop(l.blocks, l.inLoop, l.moved[k]) && Total(l.moved[k]);
    }
  }

  lemma ReadyOperand(l: Motion, k: nat, x: string)
    requires Collected(l.blocks, l.inLoop, l.moved) && k < |l.moved| && Reads(l.moved[k], x)
    ensures if x in Results(l.moved) then x in Results(l.moved[..k]) else OutsideLoop(l, x)
  {
    hide LoopResults;
    assert Invariant(l.blocks, l.inLoop, l.moved[..k], l.moved[k]);
    InLoopResults(l.blocks, l.inLoop, x);
    if x in Results(l.moved) {
      var i :| 0 <= i < |l.moved| && l.moved[i].result == x;
      assert FromLoop(l.blocks, l.inLoop, l.moved[i]);
    } else {
      assert x !in Results(l.moved[..k]);
      forall b: nat, j: nat | At(l, b, j) && InLoop(l, b) ensures x == "" || l.blocks[b].instructions[j].result != x {
        assert x !in LoopResults(l.blocks, l.inLoop);
        assert !(x != "" && AssignedInBlock(l.blocks, l.inLoop, x, b, j));
      }
    }
  }

  lemma OnlyThere(l: Motion, b: nat, j: nat)
    requires SingleAssignment(l.blocks) && Collected(l.blocks, l.inLoop, l.moved) && At(l, b, j)
    ensures OnlyMoved(l, b, l.blocks[b].instructions[j])
  {
    var x := l.blocks[b].instructions[j].result;
    if x in Results(l.moved) {
      var i :| 0 <= i < |l.moved| && l.moved[i].result == x;
      assert FromLoop(l.blocks, l.inLoop, l.moved[i]);
      var b': nat, j': nat :| AssignedInBlock(l.blocks, l.inLoop, x, b', j')
        && l.blocks[b'].instructions[j'] == l.moved[i];
      AtMostOnce(l.blocks, x);
      SamePlace(l.blocks, x, b, j, b', j');
    }
  }

  // ----- the pass

  method CollectDefined(func: seq<SSABasicBlock>, loopBlocks: set<string>) returns (loopDefinedVars: set<string>)
    ensures loopDefinedVars == LoopResults(func, loopBlocks)
  {
    loopDefinedVars := {};
    var b := 0;
    while b < |func|
      invariant 0 <= b <= |func| && loopDefinedVars == LoopResults(func[..b], loopBlocks)
    {
      assert func[..b + 1][..b] == func[..b];
      if func[b].name in loopBlocks {
        var insts, before, j := func[b].instructions, loopDefinedVars, 0;
        while j < |insts|
          invariant 0 <= j <= |insts| && loopDefinedVars == before + InstResults(insts[..j])
        {
          assert insts[..j + 1][..j] == insts[..j];
          if insts[j].result != "" { loopDefinedVars := loopDefinedVars + {insts[j].result}; }
          j := j + 1;
        }
        assert insts[..j] == insts;
      }
      b := b + 1;
    }
    assert func[..b] == func;
  }

  method AllInvariant(operands: seq<SSAValue>, loopDefinedVars: set<string>) returns (all: bool)
    ensures all <==> forall v :: v in operands && v.Var? ==> v.name !in loopDefinedVars
  {
    all := true;
    var i := 0;
    while i < |operands| && all
      invariant 0 <= i <= |operands|
      invariant all ==> forall v :: v in operands[..i] && v.Var? ==> v.name !in loopDefinedVars
      invariant !all ==> exists v :: v in operands && v.Var? && v.name in loopDefinedVars
    {
      if operands[i].Var? && operands[i].name in loopDefinedVars { all := false; }
      assert operands[..i + 1] == operands[..i] + [operands[i]];
      i := i + 1;
    }
    if all { assert operands[..i] == operands; }
  }

  /** Collects from one block. */
  method HoistBlock(ghost func: seq<SSABasicBlock>, loopBlocks: set<string>, left0: seq<SSABasicBlock>,
      moved0: seq<SSAInstruction>,
                    defined0: set<string>, b: nat)
    returns (left: seq<SSABasicBlock>, moved: seq<SSAInstruction>, defined: set<string>, changed: bool)
    requires SingleAssignment(func) && HoistInv(func, loopBlocks, left0, moved0, defined0)
    requires b < |left0| && left0[b].name in loopBlocks
    ensures HoistInv(func, loopBlocks, left, moved, defined) && |left| == |left0|
    ensures |moved| >= |moved0| && (changed ==> |moved| > |moved0|)
    ensures !changed ==>
      left == left0 && moved == moved0 && defined == defined0 && BlockDone(left[b].instructions, defined)
  {
    hide HoistInv, SingleAssignment, HasSideEffects;
    left, moved, defined, changed := left0, moved0, defined0, false;
    var it := 0;
    while it < |left[b].instructions|
      invariant |left| == |left0| && left[b].name == left0[b].name && 0 <= it <= |left[b].instructions|
      invariant HoistInv(func, loopBlocks, left, moved, defined)
      invariant |moved| >= |moved0| && (changed ==> |moved| > |moved0|)
      invariant !changed ==> left == left0 && moved == moved0 && defined == defined0
      invariant !changed ==> forall j :: 0 <= j < it ==> Stuck(left[b].instructions[j], defined)
      decreases |left[b].instructions| - it
    {
      var inst := left[b].instructions[it];
      if HasSideEffects(inst.op) || inst.result == "" {
        it := it + 1;
      } else {
        var allOperandsInvariant := AllInvariant(inst.operands, defined);
        if allOperandsInvariant {
          HoistOne(func, loopBlocks, left, moved, defined, b, it);
          moved := moved + [inst];
          defined := defined - {inst.result};
          left := left[b := left[b].(instructions := left[b].instructions[..it] + left[b].instructions[it + 1..])];
          changed := true;
        } else {
          it := it + 1;
        }
      }
    }
  }

  /** No more can be collected than there are names assigned. */
  lemma BoundedMoved(func: seq<SSABasicBlock>, inLoop: set<string>, moved: seq<SSAInstruction>)
    requires Collected(func, inLoop, moved)
    ensures |moved| <= |LoopResults(func, inLoop)|
  {
    hide LoopResults;
    CardResults(moved);
    forall x | x in Results(moved) ensures x in LoopResults(func, inLoop) {
      var i :| 0 <= i < |moved| && moved[i].result == x;
      assert FromLoop(func, inLoop, moved[i]);
      InLoopResults(func, inLoop, x);
    }
    SubsetSize(Results(moved), LoopResults(func, inLoop));
  }

  lemma {:induction false} SubsetSize(x: set<string>, y: set<string>)
    requires x <= y
    ensures |x| <= |y|
    decreases |x|
  {
    if x != {} {
      var d :| d in x;
      SubsetSize(x - {d}, y - {d});
    }
  }

  lemma {:induction false} CardResults(moved: seq<SSAInstruction>)
    requires DistinctResults(moved)
    ensures |Results(moved)| == |moved|
    decreases |moved|
  {
    if moved == [] {
      assert Results(moved) == {};
    } else {
      var init, last := moved[..|moved| - 1], moved[|moved| - 1];
      CardResults(init);
      ResultsGrow(init, last);
      assert moved == init + [last];
      assert last.result !in Results(init);
    }
  }

  /** Collects invariant instructions until a pass over the loop finds none, and inserts them. */
  method HoistLoop(func: seq<SSABasicBlock>, loopBlocks: set<string>, pre: nat)
    returns (blocks: seq<SSABasicBlock>)
    requires SingleAssignment(func) && pre < |func|
    ensures exists moved :: Collected(func, loopBlocks, moved) && Exhausted(func, loopBlocks, moved)
                            && blocks == After(Motion(func, loopBlocks, pre, moved))
  {
    hide SingleAssignment, LoopResults, HasSideEffects, Collected, BlockDone;
    var defined := CollectDefined(func, loopBlocks);
    var left, invariantInsts := func, [];
    NothingCollected(func, loopBlocks);
    var changed := true;
    while changed
      invariant HoistInv(func, loopBlocks, left, invariantInsts, defined) && |left| == |func|
      invariant !changed ==> LoopDone(left, loopBlocks, defined)
      decreases |LoopResults(func, loopBlocks)| - |invariantInsts|, changed
    {
      changed := false;
      ghost var before := invariantInsts;
      var b := 0;
      while b < |left|
        invariant 0 <= b <= |left| == |func| && HoistInv(func, loopBlocks, left, invariantInsts, defined)
        invariant |invariantInsts| >= |before| && (changed ==> |invariantInsts| > |before|)
        invariant !changed ==> forall c ::
          0 <= c < b && left[c].name in loopBlocks ==> BlockDone(left[c].instructions, defined)
      {
        if left[b].name in loopBlocks {
          var c;
          left, invariantInsts, defined, c := HoistBlock(func, loopBlocks, left, invariantInsts, defined, b);
          changed := changed || c;
        }
        b := b + 1;
      }
      BoundedMoved(func, loopBlocks, invariantInsts);
    }
    blocks := left[pre := left[pre].(instructions := BeforeJump(left[pre].instructions, invariantInsts))];
    assert blocks == After(Motion(func, loopBlocks, pre, invariantInsts));
  }

  lemma NothingCollected(func: seq<SSABasicBlock>, inLoop: set<string>)
    ensures HoistInv(func, inLoop, func, [], LoopResults(func, inLoop))
  {
    hide LoopResults;
    var q := KeptBlocks(Stay(Results([])), func);
    forall b | 0 <= b < |func| ensures q[b] == func[b] { KeptAll(func[b].instructions); }
    assert Results([]) == {};
  }

  lemma {:induction false} KeptAll(insts: seq<SSAInstruction>)
    ensures Kept(Stay(Results([])), insts) == insts
    decreases |insts|
  {
    if insts != [] {
      KeptAll(insts[..|insts| - 1]);
      assert insts == insts[..|insts| - 1] + [insts[|insts| - 1]];
    }
  }

  /** One loop, as the pass treats it: if the loop is simple and definitions dominate uses, nothing changes. */
  lemma HoistLoopCorrect(l: Motion, world: World, s: Store)
    requires Collected(l.blocks, l.inLoop, l.moved) && SimpleLoop(l) && DefsDominate(l)
    ensures StopsAlike(l.blocks, After(l), world, Config(0, 0, s), Config(0, 0, s))
  {
    hide Collected, SimpleLoop, DefsDominate, StopsAlike, After, MotionOk;
    CollectedIsOk(l);
    HoistingCorrect(l, world, s);
  }

  // ----- the program stays in single assignment

  lemma {:induction false} CountAppend(a: seq<SSAInstruction>, b: seq<SSAInstruction>, x: string)
    ensures CountIn(a + b, x) == CountIn(a, x) + CountIn(b, x)
    decreases |b|
  {
    if b == [] {
      assert a + b == a;
    } else {
      assert (a + b)[..|a + b| - 1] == a + b[..|b| - 1];
      CountAppend(a, b[..|b| - 1], x);
    }
  }

  lemma CountSingle(inst: SSAInstruction, x: string)
    ensures CountIn([inst], x) == if inst.result == x then 1 else 0
  {
    assert [inst][..0] == [];
  }

  lemma {:induction false} CountKept(names: set<string>, insts: seq<SSAInstruction>, x: string)
    ensures CountIn(Kept(Stay(names), insts), x) == if x in names then 0 else CountIn(insts, x)
    decreases |insts|
  {
    if insts != [] {
      var init, last := insts[..|insts| - 1], insts[|insts| - 1];
      CountKept(names, init, x);
      CountAppend(Kept(Stay(names), init), [last], x);
      CountSingle(last, x);
      if !Stay(names)(last) { assert Kept(Stay(names), insts) == Kept(Stay(names), init); }
    }
  }

  lemma {:induction false} AssignmentsKept(names: set<string>, blocks: seq<SSABasicBlock>, x: string)
    ensures Assignments(KeptBlocks(Stay(names), blocks), x) == if x in names then 0 else Assignments(blocks, x)
    decreases |blocks|
  {
    hide Kept, Stay, CountIn;
    if blocks != [] {
      var q := KeptBlocks(Stay(names), blocks);
      assert q[..|q| - 1] == KeptBlocks(Stay(names), blocks[..|blocks| - 1]);
      AssignmentsKept(names, blocks[..|blocks| - 1], x);
      CountKept(names, blocks[|blocks| - 1].instructions, x);
    }
  }

  lemma {:induction false} AssignmentsChanged(blocks: seq<SSABasicBlock>, b: nat, insts: seq<SSAInstruction>, x: string)
    requires b < |blocks|
    ensures Assignments(blocks[b := blocks[b].(instructions := insts)], x) ==
            Assignments(blocks, x) - CountIn(blocks[b].instructions, x) + CountIn(insts, x)
    decreases |blocks|
  {
    hide CountIn;
    var init, q := blocks[..|blocks| - 1], blocks[b := blocks[b].(instructions := insts)];
    if b < |init| {
      assert q[..|q| - 1] == init[b := init[b].(instructions := insts)];
      AssignmentsChanged(init, b, insts, x);
    } else {
      assert q[..|q| - 1] == init;
    }
  }

  lemma {:induction false} CountMoved(moved: seq<SSAInstruction>, x: string)
    requires DistinctResults(moved)
    ensures CountIn(moved, x) == if x in Results(moved) then 1 else 0
    decreases |moved|
  {
    if moved != [] {
      var init, last := moved[..|moved| - 1], moved[|moved| - 1];
      CountMoved(init, x);
      ResultsGrow(init, last);
      assert moved == init + [last];
      assert last.result !in Results(init);
    }
  }

  lemma AfterSingle(l: Motion)
    requires SingleAssignment(l.blocks) && DistinctResults(l.moved) && l.pre < |l.blocks|
    ensures SingleAssignment(After(l))
  {
    hide Kept, Stay, CountIn, Assignments, Results;
    forall x | x != "" ensures Assignments(After(l), x) <= 1 {
      AtMostOnce(l.blocks, x);
      var q := KeptBlocks(Stay(Results(l.moved)), l.blocks);
      var kept := q[l.pre].instructions;
      assert After(l) == q[l.pre := q[l.pre].(instructions := BeforeJump(kept, l.moved))];
      AssignmentsKept(Results(l.moved), l.blocks, x);
      AssignmentsChanged(q, l.pre, BeforeJump(kept, l.moved), x);
      CountInserted(kept, l.moved, x);
      CountMoved(l.moved, x);
    }
  }

  lemma CountInserted(insts: seq<SSAInstruction>, moved: seq<SSAInstruction>, x: string)
    ensures CountIn(BeforeJump(insts, moved), x) == CountIn(insts, x) + CountIn(moved, x)
  {
    hide CountIn;
    if EndsInJump(insts) {
      var n := |insts| - 1;
      CountAppend(insts[..n], moved, x);
      CountAppend(insts[..n] + moved, insts[n..], x);
      CountAppend(insts[..n], insts[n..], x);
      assert insts[..n] + insts[n..] == insts;
    } else {
      CountAppend(insts, moved, x);
    }
  }

  // ----- all loops

  /** A loop by its back edges: the header and the predecessors that it dominates. */
  function BackEdges(preds: seq<string>, dominators: map<string, set<string>>, header: string): set<string> {
    set q | q in preds && q in dominators && header in dominators[q]
  }

  /** The first predecessor outside the loop, the empty name if there is none. */
  function FirstOutside(preds: seq<string>, loopBlocks: set<string>): string {
    if preds == [] then "" else if preds[0] !in loopBlocks then preds[0] else FirstOutside(preds[1..], loopBlocks)
  }

  /** The loop that the pass treats at a block: its blocks and the place of the block before it. */
  function LoopAt(func: seq<SSABasicBlock>, preds: map<string, seq<string>>, dominators: map<string, set<string>>,
      i: nat): Option<(set<string>, nat)>
    requires i < |func|
  {
    var header := func[i].name;
    if header !in preds || BackEdges(preds[header], dominators, header) == {} then None
    else
      var loopBlocks := BackEdges(preds[header], dominators, header) + {header};
      var preHeader := FirstOutside(preds[header], loopBlocks);
      if preHeader == "" || Find(func, preHeader) >= |func| then None else Some((loopBlocks, Find(func, preHeader)))
  }

  /** One step of the pass: all that is invariant in a loop has been moved out of it. */
  ghost predicate Treats(l: Motion, found: (set<string>, nat)) {
    l.inLoop == found.0 && l.pre == found.1 && l.pre < |l.blocks|
    && Collected(l.blocks, l.inLoop, l.moved) && Exhausted(l.blocks, l.inLoop, l.moved)
  }

  /** What the first i blocks, tried as headers, make of the function: every one that is a loop's header
      has had that loop treated, and nothing else has changed. */
  ghost predicate Passed(func: seq<SSABasicBlock>, preds: map<string, seq<string>>,
      dominators: map<string, set<string>>, i: nat,
                         steps: seq<Motion>, blocks: seq<SSABasicBlock>)
    requires i <= |func|
    decreases i
  {
    if i == 0 then steps == [] && blocks == func
    else if LoopAt(func, preds, dominators, i - 1).None? then Passed(func, preds, dominators, i - 1, steps, blocks)
    else
      && steps != []
      && var last := steps[|steps| - 1];
      && Treats(last, LoopAt(func, preds, dominators, i - 1).value) && blocks == After(last)
      && Passed(func, preds, dominators, i - 1, steps[..|steps| - 1], last.blocks)
  }

  lemma SameAlike(blocks: seq<SSABasicBlock>, world: World, c: Config)
    ensures StopsAlike(blocks, blocks, world, c, c)
  {
  }

  method FindLoop(preds: seq<string>, dominators: map<string, set<string>>, header: string)
    returns (loopBlocks: set<string>, isLoopHeader: bool, preHeader: string)
    ensures isLoopHeader <==> BackEdges(preds, dominators, header) != {}
    ensures isLoopHeader ==>
      loopBlocks == BackEdges(preds, dominators, header) + {header} && preHeader == FirstOutside(preds, loopBlocks)
  {
    loopBlocks, preHeader := {}, "";
    var i := 0;
    while i < |preds|
      invariant 0 <= i <= |preds| && loopBlocks == BackEdges(preds[..i], dominators, header)
    {
      assert preds[..i + 1] == preds[..i] + [preds[i]];
      if preds[i] in dominators && header in dominators[preds[i]] { loopBlocks := loopBlocks + {preds[i]}; }
      i := i + 1;
    }
    assert preds[..i] == preds;
    isLoopHeader := loopBlocks != {};
    if isLoopHeader { loopBlocks := loopBlocks + {header}; }
    i := 0;
    var found := false;
    while i < |preds| && !found
      invariant 0 <= i <= |preds| && (!found ==> preHeader == "")
      invariant FirstOutside(preds, loopBlocks) == if found then preHeader else FirstOutside(preds[i..], loopBlocks)
    {
      if preds[i] !in loopBlocks { preHeader, found := preds[i], true; }
      i := i + 1;
    }
  }

  /** Motions rename no block, so loops are where they were in the original function. */
  lemma {:induction false} SameFind(a: seq<SSABasicBlock>, b: seq<SSABasicBlock>, name: string)
    requires |a| == |b| && forall i :: 0 <= i < |a| ==> a[i].name == b[i].name
    ensures Find(a, name) == Find(b, name)
    decreases |a|
  {
    if a != [] && a[0].name != name { SameFind(a[1..], b[1..], name); }
  }

  /** The pass: every block in order is tried as a loop header. */
  method Optimize(func: seq<SSABasicBlock>, preds: map<string, seq<string>>, dominators: map<string, set<string>>)
    returns (blocks: seq<SSABasicBlock>)
    requires SingleAssignment(func)
    ensures exists steps :: Passed(func, preds, dominators, |func|, steps, blocks)
  {
    hide SingleAssignment, Collected, Exhausted, After, BackEdges, Find;
    blocks := func;
    ghost var steps: seq<Motion> := [];
    var i := 0;
    while i < |blocks|
      invariant 0 <= i <= |blocks| == |func| && SingleAssignment(blocks)
        && Passed(func, preds, dominators, i, steps, blocks)
      invariant forall b :: 0 <= b < |func| ==> blocks[b].name == func[b].name
    {
      var header := blocks[i].name;
      ghost var blocks0 := blocks;
      if header in preds {
        var loopBlocks, isLoopHeader, preHeader := FindLoop(preds[header], dominators, header);
        var pre := Find(blocks, preHeader);
        SameFind(blocks, func, preHeader);
        if isLoopHeader && preHeader != "" && pre < |blocks| {
          blocks := HoistLoop(blocks, loopBlocks, pre);
          ghost var moved :| Collected(blocks0, loopBlocks, moved) && Exhausted(blocks0, loopBlocks, moved)
                             && blocks == After(Motion(blocks0, loopBlocks, pre, moved));
          ghost var l := Motion(blocks0, loopBlocks, pre, moved);
          CollectedDistinct(l);
          AfterSingle(l);
          ghost var loopAt: (set<string>, nat) := (loopBlocks, pre);
          assert LoopAt(func, preds, dominators, i) == Some(loopAt);
          assert (steps + [l])[..|steps|] == steps;
          steps := steps + [l];
        }
      }
      i := i + 1;
    }
    assert i == |func|;
    assert Passed(func, preds, dominators, |func|, steps, blocks);
  }

  lemma CollectedDistinct(l: Motion)
    requires Collected(l.blocks, l.inLoop, l.moved)
    ensures DistinctResults(l.moved) && |After(l)| == |l.blocks|
  {
  }

  // ----- division

  const GUARDED: seq<SSABasicBlock> :=
    [SSABasicBlock("f_entry", [SSAInstruction(SSAOp.Branch, "", [Str("h")])]),
     SSABasicBlock("h", [SSAInstruction(SSAOp.CondBranch, "", [Var("z"), Str("b"), Str("e")])]),
     SSABasicBlock("b", [SSAInstruction(Div, "q", [Num(1), Var("z")]), SSAInstruction(SSAOp.Branch, "", [Str("h")])]),
     SSABasicBlock("e", [SSAInstruction(SSAOp.Return, "", [Num(7)])])]

  const GUARDED_LOOP: Motion := Motion(GUARDED, {"h", "b"}, 0, [GUARDED[2].instructions[0]])

  lemma GuardedRuns(world: World, s: Store)
    requires Read(s.env, "z") == 0
    ensures Run(GUARDED, world, Config(0, 0, s), 3) == Halted(s.trace, 7)
  {
    hide Exec;
    var p := GUARDED;
    assert p[0].instructions == [SSAInstruction(SSAOp.Branch, "", [Str("h")])];
    assert p[1].name == "h" && p[3].name == "e";
    assert Find(p, "h") == 1 && Find(p, "e") == 3;
    assert Step(p, world, Config(0, 0, s)) == Running(Config(1, 0, s));
    assert Step(p, world, Config(1, 0, s)) == Running(Config(3, 0, s));
    assert Step(p, world, Config(3, 0, s)) == Halted(s.trace, 7);
    RunThree(p, world, Config(0, 0, s));
  }

  lemma GuardedMoved()
    ensures var q := After(GUARDED_LOOP);
      |q| == 4 && |q[0].instructions| > 0 && q[0].instructions[0] == GUARDED[2].instructions[0]
  {
    var names, insts := Results(GUARDED_LOOP.moved), GUARDED[0].instructions;
    assert insts[..0] == [] && insts == [insts[0]];
    assert Kept(Stay(names), insts[..0]) == [];
    assert insts[0].result == "" && GUARDED_LOOP.moved[0].result == "q";
    assert Kept(Stay(names), insts) == insts;
  }

  /** Total operators are needed: a division that a loop's test protects is executed before the test. */
  lemma HoistedDivisionFaults(world: World, s: Store)
    requires Read(s.env, "z") == 0
    ensures Collected(GUARDED, {"h", "b"}, GUARDED_LOOP.moved)
    ensures Run(GUARDED, world, Config(0, 0, s), 3) == Halted(s.trace, 7)
    ensures Run(After(GUARDED_LOOP), world, Config(0, 0, s), 1) == Faulted
  {
    hide After, Collected;
    GuardedCollected();
    GuardedRuns(world, s);
    GuardedMoved();
    assert Step(After(GUARDED_LOOP), world, Config(0, 0, s)).Faulted?;
  }

  lemma GuardedCollected()
    ensures Collected(GUARDED, {"h", "b"}, GUARDED_LOOP.moved)
  {
    var moved := GUARDED_LOOP.moved;
    assert AssignedInBlock(GUARDED, {"h", "b"}, "q", 2, 0);
    forall x | Reads(moved[0], x) ensures x !in LoopResults(GUARDED, {"h", "b"}) {
      InLoopResults(GUARDED, {"h", "b"}, x);
    }
  }
}
