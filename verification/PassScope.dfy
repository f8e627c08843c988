/** How far the optimisations go: which instructions they take for pure, what they fold, and that they leave
    nothing of it behind, all told by what running an instruction does and by where names occur. */
module PassScope {
  import opened Ssa
  import DCE = DeadCodeElim
  import Motion = LicmPasses
  import opened ConstantProp

  // ----- effects

  predicate Changes(world: World, inst: SSAInstruction, s: Store) {
    IsStraight(inst.op) && Exec(world, inst, s).Some?
    && (Exec(world, inst, s).value.cells != s.cells || Exec(world, inst, s).value.trace != s.trace)
  }

  /** Some instruction with this operation jumps, returns, stores in an array, or makes a call. */
  ghost predicate Effectful(op: SSAOp) {
    !IsStraight(op) || exists world, inst: SSAInstruction, s :: inst.op == op && Changes(world, inst, s)
  }

  predicate Differs(world: World, inst: SSAInstruction, s: Store, cells: Cells) {
    IsStraight(inst.op) && Exec(world, inst, s).Some? && Exec(world, inst, s.(cells := cells)).Some?
    && Exec(world, inst, s).value.env != Exec(world, inst, s.(cells := cells)).value.env
  }

  /** The result of some instruction with this operation depends on what arrays hold. */
  ghost predicate ReadsArrays(op: SSAOp) {
    exists world, inst: SSAInstruction, s, cells :: inst.op == op && Differs(world, inst, s, cells)
  }

  lemma NoChange(world: World, inst: SSAInstruction, s: Store, cells: Cells)
    requires !inst.op.Call? && !inst.op.ArrayStore?
    ensures !Changes(world, inst, s) && (!inst.op.ArrayLoad? ==> !Differs(world, inst, s, cells))
  {
    hide Arith;
  }

  lemma CallChanges(world: World)
    ensures Changes(world, SSAInstruction(Call, "", [Str("f")]), Store(map[], map[], []))
  {
  }

  lemma StoreChanges(world: World)
    ensures Changes(world, SSAInstruction(ArrayStore, "", [Var("a"), Num(0), Num(1)]), Store(map[], map[], []))
  {
    var s := Store(map[], map[], []);
    assert ("a", 0) in Exec(world, SSAInstruction(ArrayStore, "", [Var("a"), Num(0), Num(1)]), s).value.cells;
  }

  lemma LoadDiffers(world: World)
    ensures Differs(world, SSAInstruction(ArrayLoad, "x", [Var("a"), Num(0)]), Store(map[], map[], []),
      map[("a", 0) := 1])
  {
    var inst, s := SSAInstruction(ArrayLoad, "x", [Var("a"), Num(0)]), Store(map[], map[], []);
    var cells: Cells := map[("a", 0) := 1];
    assert Exec(world, inst, s).value.env["x"] == 0;
    assert Exec(world, inst, s.(cells := cells)).value.env["x"] == 1;
  }

  lemma CallNotRead(world: World, inst: SSAInstruction, s: Store, cells: Cells)
    requires inst.op.Call? || inst.op.ArrayStore?
    ensures !Differs(world, inst, s, cells)
  {
  }

  /** Dead code elimination spares exactly the operations that do more than give a result. */
  lemma SideEffectsExactly(op: SSAOp)
    ensures DCE.HasSideEffects(op) <==> Effectful(op)
  {
    hide Exec;
    var world: World := trace => 0;
    CallChanges(world);
    StoreChanges(world);
    if IsStraight(op) && !op.Call? && !op.ArrayStore? {
      forall w, inst: SSAInstruction, s | inst.op == op ensures !Changes(w, inst, s) { NoChange(w, inst, s, map[]); }
    }
  }

  /** Loop-invariant code motion leaves in place exactly these, what reads arrays, and phis. */
  lemma MotionScope(op: SSAOp)
    ensures Motion.HasSideEffects(op) <==> Effectful(op) || ReadsArrays(op) || op.Phi?
  {
    hide Exec;
    SideEffectsExactly(op);
    LoadDiffers(trace => 0);
    if !op.ArrayLoad? {
      forall w, inst: SSAInstruction, s, cells | inst.op == op ensures !Differs(w, inst, s, cells) {
        if op.Call? || op.ArrayStore? { CallNotRead(w, inst, s, cells); } else { NoChange(w, inst, s, cells); }
      }
    }
  }

  // ----- dead code

  ghost predicate MentionedAt(blocks: seq<SSABasicBlock>, x: string, b: nat, j: nat) {
    b < |blocks| && j < |blocks[b].instructions| && Var(x) in blocks[b].instructions[j].operands
  }

  ghost predicate Mentioned(blocks: seq<SSABasicBlock>, x: string) {
    exists b: nat, j: nat :: MentionedAt(blocks, x, b, j)
  }

  lemma {:induction false} InOperandNames(vs: seq<SSAValue>, x: string)
    ensures x in DCE.OperandNames(vs) <==> x != "" && Var(x) in vs
    decreases |vs|
  {
    if vs != [] {
      InOperandNames(vs[..|vs| - 1], x);
      assert vs == vs[..|vs| - 1] + [vs[|vs| - 1]];
    }
  }

  lemma {:induction false} InInstNames(insts: seq<SSAInstruction>, x: string)
    ensures x in DCE.InstNames(insts) <==> x != "" && exists j :: 0 <= j < |insts| && Var(x) in insts[j].operands
    decreases |insts|
  {
    hide DCE.OperandNames;
    if insts != [] {
      InInstNames(insts[..|insts| - 1], x);
      InOperandNames(insts[|insts| - 1].operands, x);
    }
  }

  /** The names that count as used are those that some operand mentions. */
  lemma {:induction false} UsedExactly(blocks: seq<SSABasicBlock>, x: string)
    ensures x in DCE.Used(blocks) <==> x != "" && Mentioned(blocks, x)
    decreases |blocks|
  {
    hide DCE.InstNames;
    if blocks != [] {
      var init, last := blocks[..|blocks| - 1], blocks[|blocks| - 1];
      UsedExactly(init, x);
      InInstNames(last.instructions, x);
      if b: nat, j: nat :| MentionedAt(init, x, b, j) { assert MentionedAt(blocks, x, b, j); }
      if b: nat, j: nat :| MentionedAt(blocks, x, b, j) { assert b < |init| ==> MentionedAt(init, x, b, j); }
      if j :| 0 <= j < |last.instructions| && Var(x) in last.instructions[j].operands {
        assert MentionedAt(blocks, x, |init|, j);
      }
    }
  }

  /** Whatever is left has no result, does more than give one, or has one that some operand mentions. */
  lemma NothingUselessLeft(blocks: seq<SSABasicBlock>, b: nat, j: nat)
    requires b < |DCE.Optimized(blocks)| && j < |DCE.Optimized(blocks)[b].instructions|
    ensures
      var inst := DCE.Optimized(blocks)[b].instructions[j];
      inst.result == "" || Effectful(inst.op) || Mentioned(DCE.Optimized(blocks), inst.result)
  {
    hide DCE.Optimized, DCE.Used, DCE.HasSideEffects, Effectful, Mentioned;
    var inst := DCE.Optimized(blocks)[b].instructions[j];
    DCE.NothingDeadLeft(blocks, b, j);
    UsedExactly(DCE.Optimized(blocks), inst.result);
    SideEffectsExactly(inst.op);
  }

  // ----- constants

  /** Sums, differences, products and quotients of two constants are folded, nothing else. */
  lemma FoldScope(op: SSAOp, l: SSAValue, r: SSAValue)
    ensures TryFold(op, l, r).Some? <==> l.Num? && r.Num? && (op.Add? || op.Sub? || op.Mul? || op.Div?)
  {
    hide TruncDiv;
  }

  /** The place is the one where the name is assigned. */
  ghost predicate OnlyAt(blocks: seq<SSABasicBlock>, x: string, b: nat, j: nat) {
    AssignedAt(blocks, x, b, j) && forall b': nat, j': nat :: AssignedAt(blocks, x, b', j') ==> b' == b && j' == j
  }

  lemma {:induction false} CountIs(insts: seq<SSAInstruction>, x: string, from: nat, j: nat)
    requires from <= |insts| && forall i :: 0 <= i < from ==> insts[i].result == x ==> i == j
    ensures CountIn(insts[..from], x) == if j < from && insts[j].result == x then 1 else 0
    decreases from
  {
    if from > 0 {
      assert insts[..from][..from - 1] == insts[..from - 1];
      CountIs(insts, x, from - 1, j);
    }
  }

  lemma {:induction false} AssignmentsAre(blocks: seq<SSABasicBlock>, x: string, n: nat, b: nat, j: nat)
    requires n <= |blocks| && OnlyAt(blocks, x, b, j)
    ensures Assignments(blocks[..n], x) == if b < n then 1 else 0
    decreases n
  {
    if n > 0 {
      assert blocks[..n][..n - 1] == blocks[..n - 1];
      AssignmentsAre(blocks, x, n - 1, b, j);
      var insts := blocks[n - 1].instructions;
      forall i: nat | i < |insts| && insts[i].result == x ensures n - 1 == b && i == j {
        assert AssignedAt(blocks, x, n - 1, i);
      }
      CountIs(insts, x, |insts|, if n - 1 == b then j else |insts|);
      assert insts[..|insts|] == insts;
    }
  }

  /** The names in the table are those whose one assignment copies a constant. */
  lemma TableScope(table: Table, blocks: seq<SSABasicBlock>, x: string)
    requires TableFor(table, blocks)
    ensures x in table <==>
      exists b: nat, j: nat :: OnlyAt(blocks, x, b, j) && IsConstantCopy(blocks[b].instructions[j])
  {
    hide Assignments;
    if b: nat, j: nat :| OnlyAt(blocks, x, b, j) && IsConstantCopy(blocks[b].instructions[j]) {
      AssignmentsAre(blocks, x, |blocks|, b, j);
      assert blocks[..|blocks|] == blocks;
      assert IsConstantName(blocks, x, blocks[b].instructions[j].operands[0]);
    }
    if x in table {
      var b: nat, j: nat :| b < |blocks| && j < |blocks[b].instructions|
        && IsConstantCopy(blocks[b].instructions[j]) && blocks[b].instructions[j].result == x;
      forall b': nat, j': nat | AssignedAt(blocks, x, b', j') ensures b' == b && j' == j {
        if b < b' || (b == b' && j < j') { AssignedOnce(blocks, x, b, j, b', j'); }
        if b' < b || (b == b' && j' < j) { AssignedOnce(blocks, x, b', j', b, j); }
      }
      assert OnlyAt(blocks, x, b, j);
    }
  }

  /** In the rewritten program no operand is a name of the table, and no two constants are left to fold. */
  lemma NothingToFold(table: Table, blocks: seq<SSABasicBlock>, b: nat, j: nat)
    requires TableFor(table, blocks) && b < |blocks| && j < |blocks[b].instructions|
    ensures
      var inst := Propagated(table, blocks)[b].instructions[j];
      && (forall v :: v in inst.operands && v.Var? ==> v.name !in table)
      && !(|inst.operands| == 2 && inst.operands[0].Num? && inst.operands[1].Num?
           && (inst.op.Add? || inst.op.Sub? || inst.op.Mul? || inst.op.Div?))
  {
    hide TryFold, Assignments;
    var inst, was := Propagated(table, blocks)[b].instructions[j], blocks[b].instructions[j];
    var ops := SubstitutedAll(table, was.operands);
    forall i: nat | i < |ops| ensures ops[i].Var? ==> ops[i].name !in table {
      var v := was.operands[i];
      if v.Var? && v.name in table { assert IsConstantName(blocks, v.name, table[v.name]); }
    }
    if |ops| == 2 { FoldScope(was.op, ops[0], ops[1]); }
  }
}
