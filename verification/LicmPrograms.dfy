/** The whole pass of src/middleend/opt/LICM.hpp on one function: what is asked of the function survives
    every motion, so the loops can be treated one after the other. */
module LicmPrograms {
  import opened Ssa
  import opened Erasure
  import opened Paths
  import opened Licm
  import opened LicmPasses

  function Last(insts: seq<SSAInstruction>): SSAInstruction
    requires |insts| > 0
  {
    insts[|insts| - 1]
  }

  ghost predicate JumpsWriteNothing(blocks: seq<SSABasicBlock>)
    requires AllEndOnce(blocks)
  {
    forall b :: 0 <= b < |blocks| ==> Last(blocks[b].instructions).result == ""
  }

  /** Blocks that jump from one to the next, from the first one on. */
  ghost predicate BlockPath(blocks: seq<SSABasicBlock>, path: seq<nat>)
    requires AllEndOnce(blocks)
  {
    && |path| > 0 && path[0] == 0 && (forall i :: 0 <= i < |path| ==> path[i] < |blocks|)
    && forall i, j ::
      0 <= i && j == i + 1 && j < |path| ==> blocks[path[j]].name in Targets(Last(blocks[path[i]].instructions))
  }

  ghost predicate Reached(blocks: seq<SSABasicBlock>, b: nat)
    requires AllEndOnce(blocks)
  {
    exists path :: BlockPath(blocks, path) && path[|path| - 1] == b
  }

  /** Single assignment, blocks that end in their only jump or return, all of them reachable, and
      definitions that dominate uses. */
  ghost predicate GoodProgram(blocks: seq<SSABasicBlock>) {
    && SingleAssignment(blocks) && AllEndOnce(blocks) && JumpsWriteNothing(blocks)
    && (forall b: nat :: b < |blocks| ==> Reached(blocks, b))
    && DefsDominateUses(blocks)
  }

  /** In the blocks of a loop only calls, array accesses and jumps can fault. */
  ghost predicate LoopTotal(blocks: seq<SSABasicBlock>, inLoop: set<string>) {
    forall p :: Inside(blocks, p) && blocks[p.block].name in inLoop ==> TotalIfMoved(InstAt(blocks, p))
  }

  ghost predicate TotalIfMoved(inst: SSAInstruction) {
    inst.result != "" && !HasSideEffects(inst.op) ==> Total(inst)
  }

  /** A loop that is entered only by the jump of the block before it. */
  ghost predicate GoodLoop(blocks: seq<SSABasicBlock>, inLoop: set<string>, pre: nat) {
    && pre < |blocks| && EndsInJump(blocks[pre].instructions) && EnteredOnce(Motion(blocks, inLoop, pre, []))
    && LoopTotal(blocks, inLoop)
  }

  // ----- where kept instructions were

  function Place(keep: SSAInstruction -> bool, insts: seq<SSAInstruction>, i: nat): (j: nat)
    requires i < |Kept(keep, insts)|
    ensures j < |insts| && keep(insts[j]) && Kept(keep, insts)[i] == insts[j] && |Kept(keep, insts[..j])| == i
  {
    var init := insts[..|insts| - 1];
    if i < |Kept(keep, init)| then
      assert init[..Place(keep, init, i)] == insts[..Place(keep, init, i)];
      Place(keep, init, i)
    else |insts| - 1
  }

  lemma {:induction false} KeptPrefixGrows(keep: SSAInstruction -> bool, insts: seq<SSAInstruction>, a: nat, b: nat)
    requires a <= b <= |insts|
    ensures |Kept(keep, insts[..a])| <= |Kept(keep, insts[..b])|
    ensures |Kept(keep, insts[..a])| == |Kept(keep, insts[..b])| ==> forall j :: a <= j < b ==> !keep(insts[j])
    decreases b
  {
    if a < b {
      KeptPrefixGrows(keep, insts, a, b - 1);
      assert insts[..b][..b - 1] == insts[..b - 1];
    }
  }

  /** From one kept instruction to the next only others lie between. */
  lemma PlaceNext(keep: SSAInstruction -> bool, insts: seq<SSAInstruction>, i: nat)
    requires i + 1 < |Kept(keep, insts)|
    ensures Place(keep, insts, i) < Place(keep, insts, i + 1)
    ensures forall j :: Place(keep, insts, i) < j < Place(keep, insts, i + 1) ==> !keep(insts[j])
  {
    var j, k := Place(keep, insts, i), Place(keep, insts, i + 1);
    assert insts[..j + 1][..j] == insts[..j];
    if k <= j { KeptPrefixGrows(keep, insts, k, j); }
    KeptPrefixGrows(keep, insts, j + 1, k);
  }

  lemma PlaceFirst(keep: SSAInstruction -> bool, insts: seq<SSAInstruction>)
    requires |Kept(keep, insts)| > 0
    ensures forall j :: 0 <= j < Place(keep, insts, 0) ==> !keep(insts[j])
  {
    KeptPrefixGrows(keep, insts, 0, Place(keep, insts, 0));
  }

  lemma PlaceLast(keep: SSAInstruction -> bool, insts: seq<SSAInstruction>)
    requires |insts| > 0 && keep(Last(insts))
    ensures |Kept(keep, insts)| > 0 && Place(keep, insts, |Kept(keep, insts)| - 1) == |insts| - 1
    ensures Last(Kept(keep, insts)) == Last(insts)
  {
  }

  // ----- a motion of a good loop in a good program

  ghost predicate GoodMotion(l: Motion) {
    && GoodProgram(l.blocks) && GoodLoop(l.blocks, l.inLoop, l.pre) && Collected(l.blocks, l.inLoop, l.moved)
  }

  lemma GoodIsSimple(l: Motion)
    requires GoodMotion(l)
    ensures SimpleLoop(l) && MotionOk(l)
  {
    hide LoopResults, DefsDominateUses, Reached, Enters, SingleAssignment, Invariant;
    assert EnteredOnce(l) by { SameEntry(l, []); }
    forall k | 0 <= k < |l.moved| ensures Total(l.moved[k]) {
      assert FromLoop(l.blocks, l.inLoop, l.moved[k]);
      var b: nat, j: nat :| AssignedInBlock(l.blocks, l.inLoop, l.moved[k].result, b, j)
        && l.blocks[b].instructions[j] == l.moved[k];
      assert InstAt(l.blocks, Pos(b, j)) == l.moved[k];
      assert TotalIfMoved(l.moved[k]);
    }
    CollectedIsOk(l);
  }

  lemma SameEntry(l: Motion, moved: seq<SSAInstruction>)
    requires EnteredOnce(Motion(l.blocks, l.inLoop, l.pre, moved))
    ensures EnteredOnce(l)
  {
    var k := Motion(l.blocks, l.inLoop, l.pre, moved);
    forall b: nat, j: nat | At(l, b, j) ensures Enters(l, b, l.blocks[b].instructions[j]) {
      assert At(k, b, j);
      assert Enters(k, b, l.blocks[b].instructions[j]);
    }
  }

  lemma GoodDominates(l: Motion)
    requires GoodMotion(l)
    ensures DefsDominate(l)
  {
    hide LoopResults, SingleAssignment, Reached, Follows, Invariant, GoodLoop;
    forall w, x | History(l.blocks, w) && Inside(l.blocks, w[|w| - 1]) && Reads(InstAt(l.blocks, w[|w| - 1]), x)
      && x in Written(l.moved)
      ensures DefinedBefore(l.blocks, w, x)
    {
      MovedAssigned(l, x);
    }
  }

  lemma MovedAssigned(l: Motion, x: string)
    requires Collected(l.blocks, l.inLoop, l.moved) && x in Written(l.moved)
    ensures Assigned(l.blocks, x)
  {
    var i :| 0 <= i < |l.moved| && !l.moved[i].op.ArrayAlloc? && l.moved[i].result == x;
    assert FromLoop(l.blocks, l.inLoop, l.moved[i]);
    var b: nat, j: nat :| AssignedInBlock(l.blocks, l.inLoop, x, b, j) && l.blocks[b].instructions[j] == l.moved[i];
    assert InstAt(l.blocks, Pos(b, j)) == l.moved[i];
  }

  // ----- positions after the motion and before

  function KeptOf(l: Motion, b: nat): seq<SSAInstruction>
    requires b < |l.blocks|
  {
    Kept(Stay(Results(l.moved)), l.blocks[b].instructions)
  }

  /** Which kept instruction is at a place; at and before the jump of the block before the loop, where the
      moved ones are, the jump. */
  function KeptIndex(l: Motion, b: nat, i: nat): int
    requires b < |l.blocks|
  {
    if b == l.pre && i >= |KeptOf(l, b)| - 1 then |KeptOf(l, b)| - 1 else i
  }

  predicate AmongMoved(l: Motion, p: Pos)
    requires p.block < |l.blocks|
  {
    p.block == l.pre && |KeptOf(l, p.block)| - 1 <= p.pos < |KeptOf(l, p.block)| - 1 + |l.moved|
  }

  ghost predicate MovedResult(l: Motion, x: string) {
    x in Results(l.moved)
  }

  /** Jumps stay, as the last instructions of their blocks; what does not stay is straight. */
  lemma LastStays(l: Motion, b: nat)
    requires GoodMotion(l) && b < |l.blocks|
    ensures |l.blocks[b].instructions| > 0 && Stay(Results(l.moved))(Last(l.blocks[b].instructions))
    ensures |KeptOf(l, b)| > 0 && Last(KeptOf(l, b)) == Last(l.blocks[b].instructions)
    ensures forall j :: 0 <= j < |l.blocks[b].instructions| && !Stay(Results(l.moved))(l.blocks[b].instructions[j]) ==>
              IsStraight(l.blocks[b].instructions[j].op)
  {
    hide LoopResults, DefsDominateUses, Reached, SingleAssignment, Invariant, GoodLoop, Kept;
    assert EndsOnce(l.blocks[b].instructions);
    assert "" !in Results(l.moved) by {
      forall k | 0 <= k < |l.moved| ensures l.moved[k].result != "" { assert FromLoop(l.blocks, l.inLoop, l.moved[k]); }
    }
    PlaceLast(Stay(Results(l.moved)), l.blocks[b].instructions);
  }

  /** The instruction at a position after the motion. */
  lemma InstAfter(l: Motion, p: Pos)
    requires GoodMotion(l) && p.block < |l.blocks|
    ensures
      var q, n := After(l), |KeptOf(l, p.block)|;
      && |q[p.block].instructions| == n + (if p.block == l.pre then |l.moved| else 0)
      && (Inside(q, p) ==>
            if AmongMoved(l, p) then InstAt(q, p) == l.moved[p.pos - (n - 1)]
            else 0 <= KeptIndex(l, p.block, p.pos) < n
                 && InstAt(q, p) == KeptOf(l, p.block)[KeptIndex(l, p.block, p.pos)]
                 && (KeptIndex(l, p.block, p.pos) == n - 1 <==> p.pos == |q[p.block].instructions| - 1))
  {
    hide Kept, Collected, GoodProgram;
    LastStays(l, p.block);
    var kept := KeptOf(l, p.block);
    if p.block == l.pre {
      assert BeforeJump(kept, l.moved) == kept[..|kept| - 1] + l.moved + [Last(kept)] by { JumpOf(l, kept); }
    }
  }

  lemma JumpOf(l: Motion, kept: seq<SSAInstruction>)
    requires GoodLoop(l.blocks, l.inLoop, l.pre) && |kept| > 0 && Last(kept) == Last(l.blocks[l.pre].instructions)
    ensures BeforeJump(kept, l.moved) == kept[..|kept| - 1] + l.moved + [Last(kept)]
  {
    assert kept[|kept| - 1..] == [Last(kept)];
  }

  /** Where control is in the original program. */
  function Back(l: Motion, p: Pos): Pos
    requires p.block < |l.blocks| && 0 <= KeptIndex(l, p.block, p.pos) < |KeptOf(l, p.block)|
  {
    Pos(p.block, Place(Stay(Results(l.moved)), l.blocks[p.block].instructions, KeptIndex(l, p.block, p.pos)))
  }

  lemma BackIs(l: Motion, p: Pos)
    requires GoodMotion(l) && Inside(After(l), p)
    ensures 0 <= KeptIndex(l, p.block, p.pos) < |KeptOf(l, p.block)| && Inside(l.blocks, Back(l, p))
    ensures !AmongMoved(l, p) ==> InstAt(After(l), p) == InstAt(l.blocks, Back(l, p))
    ensures AmongMoved(l, p) ==> Back(l, p) == Pos(l.pre, |l.blocks[l.pre].instructions| - 1)
    ensures p.pos == |After(l)[p.block].instructions| - 1 ==>
      Back(l, p) == Pos(p.block, |l.blocks[p.block].instructions| - 1)
  {
    hide Kept, Collected, GoodProgram, GoodLoop;
    InstAfter(l, p);
    LastStays(l, p.block);
    PlaceLast(Stay(Results(l.moved)), l.blocks[p.block].instructions);
  }

  // ----- a way after the motion is a way before it

  /** The first n moved results are defined on the way. */
  ghost predicate MovedDefined(l: Motion, v: seq<Pos>, n: int) {
    forall k :: 0 <= k < n && k < |l.moved| ==> DefinedBefore(After(l), v, l.moved[k].result)
  }

  ghost predicate SomeInLoop(l: Motion, w: seq<Pos>) {
    exists i :: 0 <= i < |w| && InLoop(l, w[i].block)
  }

  /** What else the original program has defined, the new one has; and it has defined the moved ones when
      the way has been in the loop, and those that control has passed. */
  ghost predicate DefinesToo(l: Motion, w: seq<Pos>, v: seq<Pos>)
    requires |v| > 0 && v[|v| - 1].block < |l.blocks|
  {
    && (forall x :: x != "" && !MovedResult(l, x) && DefinedBefore(l.blocks, w, x) ==> DefinedBefore(After(l), v, x))
    && (SomeInLoop(l, w) ==> MovedDefined(l, v, |l.moved|))
    && (v[|v| - 1].block == l.pre ==> MovedDefined(l, v, v[|v| - 1].pos - (|KeptOf(l, l.pre)| - 1)))
  }

  /** Straight on in a block. */
  lemma {:induction false} GoOn(blocks: seq<SSABasicBlock>, w: seq<Pos>, b: nat, from: nat, upto: nat)
      returns (w1: seq<Pos>)
    requires History(blocks, w) && w[|w| - 1] == Pos(b, from) && from <= upto
    requires b < |blocks| && upto < |blocks[b].instructions|
    requires forall j :: from <= j < upto ==> IsStraight(blocks[b].instructions[j].op)
    ensures History(blocks, w1) && w <= w1 && w1[|w1| - 1] == Pos(b, upto)
    ensures |w1| == |w| + upto - from && forall i :: |w| <= i < |w1| ==> w1[i] == Pos(b, from + 1 + i - |w|)
    decreases upto - from
  {
    w1 := w;
    if from < upto {
      var v := w + [Pos(b, from + 1)];
      Longer(blocks, w, Pos(b, from + 1));
      w1 := GoOn(blocks, v, b, from + 1, upto);
      assert w <= v;
      assert w1[|w|] == v[|w|];
    }
  }

  lemma DefinedLonger(blocks: seq<SSABasicBlock>, v: seq<Pos>, p: Pos, x: string)
    requires |v| > 0
    ensures DefinedBefore(blocks, v, x) || Defines(blocks, v[|v| - 1], x) ==> DefinedBefore(blocks, v + [p], x)
  {
    var u := v + [p];
    if Defines(blocks, v[|v| - 1], x) { assert Defines(blocks, u[|v| - 1], x); }
    if DefinedBefore(blocks, v, x) {
      var i :| 0 <= i < |v| - 1 && Defines(blocks, v[i], x);
      assert Defines(blocks, u[i], x);
    }
  }

  lemma MovedLonger(l: Motion, v: seq<Pos>, p: Pos, n: int)
    requires |v| > 0 && MovedDefined(l, v, n)
    ensures MovedDefined(l, v + [p], n)
  {
    hide DefinedBefore;
    forall k | 0 <= k < n && k < |l.moved| ensures DefinedBefore(After(l), v + [p], l.moved[k].result) {
      DefinedLonger(After(l), v, p, l.moved[k].result);
    }
  }

  /** Nothing that stays lies in a block from one place up to another. */
  ghost predicate NoneStays(l: Motion, b: nat, from: nat, upto: nat)
    requires b < |l.blocks| && upto <= |l.blocks[b].instructions|
  {
    forall j :: from <= j < upto ==> !Stay(Results(l.moved))(l.blocks[b].instructions[j])
  }

  /** One instruction that stays, at p in the original program and at q in the new one, and on to the
      next that stays. */
  lemma StayOn(l: Motion, w: seq<Pos>, v: seq<Pos>, p: Pos, q: Pos, next: Pos, from: nat) returns (w1: seq<Pos>)
    requires GoodMotion(l) && History(l.blocks, w) && History(After(l), v) && w[|w| - 1] == p && v[|v| - 1] == q
    requires Inside(l.blocks, p) && Inside(After(l), q) && p.block == q.block
      && InstAt(After(l), q) == InstAt(l.blocks, p)
    requires DefinesToo(l, w, v) && Inside(After(l), next) && Follows(l.blocks, p, Pos(next.block, from))
    requires 0 <= KeptIndex(l, next.block, next.pos) < |KeptOf(l, next.block)|
    requires from <= Back(l, next).pos && NoneStays(l, next.block, from, Back(l, next).pos)
    requires InLoop(l, next.block) ==> InLoop(l, q.block) || MovedDefined(l, v, |l.moved|)
    requires next.block == l.pre ==> next.pos - (|KeptOf(l, l.pre)| - 1) <= 0
    ensures History(l.blocks, w1) && w1[|w1| - 1] == Back(l, next) && DefinesToo(l, w1, v + [next])
  {
    hide GoodMotion, DefinedBefore, MovedDefined, Follows, KeptOf, KeptIndex;
    var mid := w + [Pos(next.block, from)];
    Longer(l.blocks, w, Pos(next.block, from));
    AllStraight(l, next.block, from, Back(l, next).pos);
    w1 := GoOn(l.blocks, mid, next.block, from, Back(l, next).pos);
    forall x | x != "" && !MovedResult(l, x) && DefinedBefore(l.blocks, w1, x)
      ensures DefinedBefore(After(l), v + [next], x) {
      assert w1[|w|] == mid[|w|] == Pos(next.block, from);
      WhereDefined(l, w, w1, next.block, from, Back(l, next).pos, x);
      SameDefines(l, p, q, x);
      DefinedLonger(After(l), v, next, x);
    }
    if SomeInLoop(l, w1) {
      var i :| 0 <= i < |w1| && InLoop(l, w1[i].block);
      assert w1[|w|] == mid[|w|];
      if i < |w| { assert w1[i] == mid[i] == w[i]; }
      if !SomeInLoop(l, w) { assert !InLoop(l, w[|w| - 1].block); }
      MovedLonger(l, v, next, |l.moved|);
    }
    if next.block == l.pre { NoneNeeded(l, v + [next], next.pos - (|KeptOf(l, l.pre)| - 1)); }
  }

  lemma NoneNeeded(l: Motion, v: seq<Pos>, n: int)
    ensures n <= 0 ==> MovedDefined(l, v, n)
  {
  }

  lemma SameDefines(l: Motion, p: Pos, q: Pos, x: string)
    requires Inside(l.blocks, p) && Inside(After(l), q) && InstAt(After(l), q) == InstAt(l.blocks, p)
    ensures Defines(l.blocks, p, x) ==> Defines(After(l), q, x)
  {
  }

  lemma AllStraight(l: Motion, b: nat, from: nat, upto: nat)
    requires GoodMotion(l) && b < |l.blocks| && upto <= |l.blocks[b].instructions| && NoneStays(l, b, from, upto)
    ensures forall j :: from <= j < upto ==> IsStraight(l.blocks[b].instructions[j].op)
  {
    hide GoodMotion, KeptOf;
    LastStays(l, b);
  }

  lemma WhereDefined(l: Motion, w: seq<Pos>, w1: seq<Pos>, b: nat, from: nat, upto: nat, x: string)
    requires |w| > 0 && b < |l.blocks| && upto <= |l.blocks[b].instructions| && NoneStays(l, b, from, upto)
    requires w + [Pos(b, from)] <= w1
      && forall i :: |w| <= i < |w1| - 1 ==> w1[i].block == b && from <= w1[i].pos < upto
    requires |w| < |w1| && !MovedResult(l, x) && DefinedBefore(l.blocks, w1, x)
    ensures DefinedBefore(l.blocks, w, x) || Defines(l.blocks, w[|w| - 1], x)
  {
    var i :| 0 <= i < |w1| - 1 && Defines(l.blocks, w1[i], x);
    var mid := w + [Pos(b, from)];
    if i < |w| { assert w1[i] == mid[i] == w[i]; }
  }
}
