/** Where phi instructions go, src/middleend/ssa/SSABuilder.cpp:30-70: for every variable into the
    iterated dominance frontier of the blocks that define it. The instructions have no operands and
    change no run. */
module PhiPlacement {
  import opened Ssa
  import opened Erasure
  import opened Dominance

  type Frontiers = map<string, set<string>>

  function FrontierOf(f: Frontiers, n: string): set<string> {
    if n in f then f[n] else {}
  }

  /** Holds the frontier of every definition and of every block it holds itself. */
  ghost predicate Closed(f: Frontiers, defs: set<string>, t: set<string>) {
    forall n :: n in defs + t ==> FrontierOf(f, n) <= t
  }

  /** The least such set. */
  ghost predicate IsIteratedFrontier(f: Frontiers, defs: set<string>, s: set<string>) {
    Closed(f, defs, s) && forall t :: Closed(f, defs, t) ==> s <= t
  }

  lemma IteratedFrontierUnique(f: Frontiers, defs: set<string>, s: set<string>, t: set<string>)
    requires IsIteratedFrontier(f, defs, s) && IsIteratedFrontier(f, defs, t)
    ensures s == t
  {
  }

  // ----- paths from two definitions meet only where a phi is

  /** Following a walk from x, the last point at which it left the dominance of where it was is in the
      iterated frontier; from there on everything is dominated by it. */
  lemma {:induction false} Leaving(g: Graph, f: Frontiers, defs: set<string>, s: set<string>, p: seq<string>, i: nat)
      returns (j: nat)
    requires FrontiersAre(g, f) && Closed(f, defs, s) && IsWalk(g, p) && InNodes(g, p) && p[0] in defs && i < |p|
    ensures j <= i && (j == 0 || p[j] in s) && forall k :: j <= k <= i ==> Dominates(g, p[j], p[k])
    decreases i
  {
    hide Dominates;
    if i == 0 {
      j := 0;
      DominatesSelf(g, p[0]);
    } else {
      var h := i - 1;
      j := Leaving(g, f, defs, s, p, h);
      if !Dominates(g, p[j], p[i]) {
        assert Edge(g, p[h], p[i]);
        assert InFrontier(g, p[j], p[i]);
        assert p[i] in FrontierOf(f, p[j]);
        j := i;
        DominatesSelf(g, p[i]);
      }
    }
  }

  /** The frontiers are those of the graph. */
  ghost predicate FrontiersAre(g: Graph, f: Frontiers) {
    forall n, b :: n in g.nodes && b in g.nodes ==> (b in FrontierOf(f, n) <==> InFrontier(g, n, b))
  }

  ghost predicate InNodes(g: Graph, p: seq<string>) {
    forall i :: 0 <= i < |p| ==> p[i] in g.nodes
  }

  /** All but the last node. */
  function Front(p: seq<string>): (r: seq<string>)
    ensures |p| > 0 ==> |r| == |p| - 1 && r == p[..|p| - 1]
  {
    if p == [] then [] else p[..|p| - 1]
  }

  /** A walk from x to z that visits z at its end only. */
  ghost predicate FirstReaches(g: Graph, p: seq<string>, x: string, z: string) {
    |p| >= 2 && IsWalk(g, p) && InNodes(g, p) && p[0] == x && p[|p| - 1] == z && z !in Front(p)
  }

  ghost predicate Disjoint(p: seq<string>, q: seq<string>) {
    forall x :: x in Front(p) ==> x !in Front(q)
  }

  lemma Apart(p: seq<string>, q: seq<string>, i: nat, k: nat)
    requires Disjoint(p, q) && i < |p| - 1 && k < |q| - 1
    ensures p[i] != q[k]
  {
    assert Front(p)[i] in Front(p) && Front(q)[k] in Front(q);
  }

  lemma NotYet(p: seq<string>, z: string, i: nat)
    requires z !in Front(p) && i < |p| - 1
    ensures p[i] != z
  {
    assert Front(p)[i] in Front(p);
  }

  /** If w dominates the end of a walk that avoids w, it dominates the walk's start. */
  lemma AvoidedAbove(g: Graph, y: string, w: string, p: seq<string>, j: nat, e: nat)
    requires IsWalk(g, p) && j <= e < |p| && p[j] == y && Dominates(g, w, p[e]) && w !in p[j..e + 1]
    ensures Dominates(g, w, y)
  {
    forall r | PathTo(g, r, y) ensures w in r {
      var t := r + p[j + 1..e + 1];
      forall a, b | 0 <= a && b == a + 1 && b < |t| ensures Edge(g, t[a], t[b]) {
        if b < |r| {
          assert Edge(g, r[a], r[b]);
        } else {
          var m := j + b - |r|;
          assert t[b] == p[m + 1];
          assert t[a] == p[m];
          assert Edge(g, p[m], p[m + 1]);
        }
      }
      assert t[|t| - 1] == p[e] by {
        if e > j { assert p[j + 1..e + 1][e - j - 1] == p[e]; }
      }
      assert PathTo(g, t, p[e]);
      assert w in t;
      assert p[j..e + 1] == [y] + p[j + 1..e + 1];
    }
  }

  /** Where node-disjoint walks from two definitions first meet, there is a phi. */
  lemma MeetingHasPhi(g: Graph, f: Frontiers, defs: set<string>, s: set<string>, p: seq<string>, q: seq<string>,
                      x: string, y: string, z: string)
    requires FrontiersAre(g, f) && Closed(f, defs, s) && x in defs && y in defs && Reachable(g, z)
    requires FirstReaches(g, p, x, z) && FirstReaches(g, q, y, z) && Disjoint(p, q)
    ensures z in s
  {
    hide Dominates, Reachable;
    var m, n := |p| - 1, |q| - 1;
    var j := Leaving(g, f, defs, s, p, m);
    var k := Leaving(g, f, defs, s, q, n);
    if j < m && k < n {
      var a, b := p[j], q[k];
      Apart(p, q, j, k);
      assert Dominates(g, a, p[m]) && Dominates(g, b, q[n]);
      Comparable(g, a, b, z);
      Crossing(g, p, j, q, k, z);
      Crossing(g, q, k, p, j, z);
      if Dominates(g, a, b) && Dominates(g, b, a) {
        DominatorIsReachable(g, a, z);
        SameNode(g, a, b);
      }
    }
  }

  /** If a point of one walk dominates the meeting point, it dominates every point of the other walk. */
  lemma Crossing(g: Graph, p: seq<string>, j: nat, q: seq<string>, k: nat, z: string)
    requires |p| >= 2 && IsWalk(g, p) && p[|p| - 1] == z && j < |p| - 1 && k < |q| - 1
    requires Disjoint(p, q) && z !in Front(q) && Dominates(g, q[k], z)
    ensures Dominates(g, q[k], p[j])
  {
    hide Dominates;
    var w, e := q[k], |p| - 2;
    NotYet(q, z, k);
    assert Edge(g, p[e], p[e + 1]);
    DominatesPred(g, w, p[e], z);
    forall i: nat | j <= i < e + 1 ensures p[i] != w { Apart(p, q, i, k); }
    assert w !in p[j..e + 1];
    AvoidedAbove(g, p[j], w, p, j, e);
  }

  // ----- inserting the instructions

  function PhiFor(result: string): SSAInstruction {
    SSAInstruction(Phi, result, [])
  }

  /** Labels are looked up from the front: no earlier block has the same label. */
  predicate IsFirst(blocks: seq<SSABasicBlock>, b: nat)
    requires b < |blocks|
  {
    forall j :: 0 <= j < b ==> blocks[j].name != blocks[b].name
  }

  lemma SameFirst(p: seq<SSABasicBlock>, q: seq<SSABasicBlock>, b: nat)
    requires b < |p| == |q| && forall i :: 0 <= i < |p| ==> p[i].name == q[i].name
    ensures IsFirst(p, b) == IsFirst(q, b)
  {
  }

  /** One phi at the head of every block of the set. */
  function WithPhis(blocks: seq<SSABasicBlock>, result: string, s: set<string>): (r: seq<SSABasicBlock>)
    ensures |r| == |blocks|
  {
    seq(|blocks|, b requires 0 <= b < |blocks| =>
      if blocks[b].name in s
        && IsFirst(blocks, b) then blocks[b].(instructions := [PhiFor(result)] + blocks[b].instructions)
      else blocks[b])
  }

  function NotPhi(): SSAInstruction -> bool {
    (inst: SSAInstruction) => !inst.op.Phi?
  }

  lemma {:induction false} KeptPhi(insts: seq<SSAInstruction>, result: string)
    ensures Kept(NotPhi(), [PhiFor(result)] + insts) == Kept(NotPhi(), insts)
    decreases |insts|
  {
    var all := [PhiFor(result)] + insts;
    if insts == [] {
      assert all[..|all| - 1] == [];
    } else {
      assert all[..|all| - 1] == [PhiFor(result)] + insts[..|insts| - 1];
      KeptPhi(insts[..|insts| - 1], result);
    }
  }

  lemma WithPhisKept(blocks: seq<SSABasicBlock>, result: string, s: set<string>)
    ensures KeptBlocks(NotPhi(), WithPhis(blocks, result, s)) == KeptBlocks(NotPhi(), blocks)
  {
    hide Kept, NotPhi;
    forall b | 0 <= b < |blocks|
      ensures KeptBlocks(NotPhi(), WithPhis(blocks, result, s))[b] == KeptBlocks(NotPhi(), blocks)[b]
    {
      KeptPhi(blocks[b].instructions, result);
    }
  }

  lemma {:induction false} ReadNames(insts: seq<SSAInstruction>) returns (names: set<string>)
    ensures forall j, v :: 0 <= j < |insts| && v in insts[j].operands && v.Var? ==> v.name in names
    decreases |insts|
  {
    names := {};
    if insts != [] {
      var before := ReadNames(insts[..|insts| - 1]);
      var last := insts[|insts| - 1].operands;
      names := before + set i | 0 <= i < |last| && last[i].Var? :: last[i].name;
      forall j, v | 0 <= j < |insts| && v in insts[j].operands && v.Var? ensures v.name in names {
        if j < |insts| - 1 {
          assert insts[..|insts| - 1][j] == insts[j];
        } else {
          var i :| 0 <= i < |last| && last[i] == v;
        }
      }
    }
  }

  lemma {:induction false} EverythingRead(blocks: seq<SSABasicBlock>) returns (names: set<string>)
    ensures forall b: nat, j: nat ::
      b < |blocks| && j < |blocks[b].instructions| ==> ReadsOnly(names, blocks[b].instructions[j])
    decreases |blocks|
  {
    names := {};
    if blocks != [] {
      var before := EverythingRead(blocks[..|blocks| - 1]);
      var here := ReadNames(blocks[|blocks| - 1].instructions);
      names := before + here;
      forall b: nat, j: nat | b < |blocks| && j < |blocks[b].instructions|
        ensures ReadsOnly(names, blocks[b].instructions[j])
      {
        if b < |blocks| - 1 { assert ReadsOnly(before, blocks[..|blocks| - 1][b].instructions[j]); }
      }
    }
  }

  /** Programs with the same instructions but for phis stop alike, whatever runs they have. */
  lemma PhisAreInvisible(blocks: seq<SSABasicBlock>, world: World, s: Store)
    ensures StopsAlike(blocks, KeptBlocks(NotPhi(), blocks), world, Config(0, 0, s), Config(0, 0, s))
  {
    hide Step, ReadsOnly, StopsAlike;
    var names := EverythingRead(blocks);
    var c := Config(0, 0, s);
    forall b: nat, j: nat | b < |blocks| && j < |blocks[b].instructions|
      ensures Erasable(NotPhi(), names, blocks[b].instructions[j])
    {
      assert ReadsOnly(names, blocks[b].instructions[j]);
    }
    forall n: nat ensures ErasedRuns(NotPhi(), blocks, world, Run(blocks, world, c, n)) {
      var o := Run(blocks, world, c, n);
      if o.Running? { PhiNeverFaults(blocks, world, o.c); }
    }
    ErasureCorrect(NotPhi(), names, blocks, world, s);
  }

  lemma PhiNeverFaults(blocks: seq<SSABasicBlock>, world: World, c: Config)
    ensures AtErased(NotPhi(), blocks, c) ==> !Step(blocks, world, c).Faulted?
  {
  }

  /** Inserting phis leaves every run as it was. */
  lemma InsertionIsInvisible(before: seq<SSABasicBlock>, after: seq<SSABasicBlock>, world: World, s: Store)
    requires KeptBlocks(NotPhi(), after) == KeptBlocks(NotPhi(), before)
    ensures StopsAlike(before, after, world, Config(0, 0, s), Config(0, 0, s))
  {
    hide Stops, KeptBlocks, NotPhi;
    PhisAreInvisible(before, world, s);
    PhisAreInvisible(after, world, s);
  }

  // ----- the work list

  /** The invariant of the work list: blocks seen have been or are to be processed; a processed block's
      frontier has phis; nothing outside the iterated frontier has one. */
  ghost predicate WorkInv(f: Frontiers, defs: set<string>, seen: set<string>, work: seq<string>,
      inserted: set<string>) {
    && defs <= seen && inserted <= seen && seen <= defs + inserted
    && (forall i :: 0 <= i < |work| ==> work[i] in seen)
    && (forall n :: n in seen && n !in work ==> FrontierOf(f, n) <= inserted)
    && forall t :: Closed(f, defs, t) ==> inserted <= t
  }

  /** The blocks of a set in some order. */
  method Queue(s: set<string>) returns (work: seq<string>)
    ensures forall n :: n in work <==> n in s
    ensures |work| == |s|
  {
    work := [];
    var rest := s;
    while rest != {}
      invariant rest <= s && forall n :: n in work <==> n in s - rest
      invariant |work| + |rest| == |s|
      decreases |rest|
    {
      var n :| n in rest;
      work := work + [n];
      rest := rest - {n};
    }
  }

  /** The blocks of one variable's phis: from the definitions outward, each block once. */
  method PhiBlocks(frontiers: Frontiers, defBlocks: set<string>) returns (insertedPhi: set<string>)
    ensures IsIteratedFrontier(frontiers, defBlocks, insertedPhi)
  {
    var workList := Queue(defBlocks);
    var inWorkList := defBlocks;
    insertedPhi := {};
    ghost var all := defBlocks + Everything(frontiers);
    while workList != []
      invariant WorkInv(frontiers, defBlocks, inWorkList, workList, insertedPhi) && inWorkList <= all
      decreases |all - inWorkList|, |workList|
    {
      hide Closed;
      ghost var before := inWorkList;
      var n := workList[0];
      workList, inWorkList, insertedPhi := VisitFrontier(frontiers, defBlocks, n, workList, inWorkList, insertedPhi);
      SmallerRest(all, before, inWorkList);
    }
  }

  lemma SmallerRest(all: set<string>, x: set<string>, y: set<string>)
    requires x <= y <= all
    ensures |all - y| <= |all - x| && (x != y ==> |all - y| < |all - x|)
  {
    SubsetSize(all - y, all - x);
    if x != y {
      var d :| d in y && d !in x;
      Smaller(all - y, all - x, d);
    }
  }

  ghost function Everything(f: Frontiers): set<string> {
    set n, b | n in f && b in f[n] :: b
  }

  /** Takes n off the list; every block of its frontier that has no phi gets one and is seen. */
  method VisitFrontier(frontiers: Frontiers, ghost defBlocks: set<string>, n: string, workList0: seq<string>,
                       inWorkList0: set<string>, insertedPhi0: set<string>)
    returns (workList: seq<string>, inWorkList: set<string>, insertedPhi: set<string>)
    requires |workList0| > 0 && n == workList0[0] && WorkInv(frontiers, defBlocks, inWorkList0, workList0, insertedPhi0)
    ensures WorkInv(frontiers, defBlocks, inWorkList, workList, insertedPhi)
    ensures inWorkList0 <= inWorkList <= inWorkList0 + Everything(frontiers)
    ensures inWorkList == inWorkList0 ==> |workList| < |workList0|
  {
    hide Closed;
    workList, inWorkList, insertedPhi := workList0[1..], inWorkList0, insertedPhi0;
    assert workList0 == [n] + workList;
    if n in frontiers {
      var rest := frontiers[n];
      while rest != {}
        invariant rest <= frontiers[n] && forall b :: b in frontiers[n] - rest ==> b in insertedPhi
        invariant defBlocks <= inWorkList && insertedPhi <= inWorkList && inWorkList <= defBlocks + insertedPhi
        invariant forall i :: 0 <= i < |workList| ==> workList[i] in inWorkList
        invariant n in inWorkList
          && forall m :: m in inWorkList && m !in workList && m != n ==> FrontierOf(frontiers, m) <= insertedPhi
        invariant insertedPhi <= insertedPhi0 + frontiers[n]
        invariant inWorkList0 <= inWorkList <= inWorkList0 + Everything(frontiers)
        invariant inWorkList == inWorkList0 ==> |workList| < |workList0|
        decreases |rest|
      {
        var df :| df in rest;
        if df !in insertedPhi {
          insertedPhi := insertedPhi + {df};
          if df !in inWorkList {
            workList := workList + [df];
            inWorkList := inWorkList + {df};
          }
        }
        rest := rest - {df};
      }
    }
    OnlyIterated(frontiers, defBlocks, n, inWorkList0, workList0, insertedPhi0, insertedPhi);
  }

  lemma OnlyIterated(f: Frontiers, defs: set<string>, n: string, seen: set<string>, work: seq<string>,
      before: set<string>,
                     after: set<string>)
    requires WorkInv(f, defs, seen, work, before) && n in work && after <= before + FrontierOf(f, n)
    ensures forall t :: Closed(f, defs, t) ==> after <= t
  {
    forall t | Closed(f, defs, t) ensures after <= t {
      assert before <= t;
      assert n in defs + t;
    }
  }

  /** Phis for one variable. */
  method InsertPhisFor(func: seq<SSABasicBlock>, frontiers: Frontiers, defBlocks: set<string>, result: string)
    returns (blocks: seq<SSABasicBlock>)
    ensures exists s :: IsIteratedFrontier(frontiers, defBlocks, s) && blocks == WithPhis(func, result, s)
  {
    var inserted := PhiBlocks(frontiers, defBlocks);
    blocks := func;
    var b := 0;
    while b < |blocks|
      invariant 0 <= b <= |blocks| == |func|
      invariant forall i ::
        0 <= i < |func| ==> blocks[i] == if i < b then WithPhis(func, result, inserted)[i] else func[i]
    {
      if blocks[b].name in inserted && IsFirst(func, b) {
        blocks := blocks[b := blocks[b].(instructions := [PhiFor(result)] + blocks[b].instructions)];
      }
      b := b + 1;
    }
    assert blocks == WithPhis(func, result, inserted);
  }

  /** The phis at the head of one block: one for each variable, in the order in which variables were
      treated, last one first, whose sites include the block. */
  function PhisAt(vars: seq<string>, sites: map<string, set<string>>, results: map<string, string>,
      block: string): seq<SSAInstruction> {
    if vars == [] then []
    else
      var x := vars[|vars| - 1];
      (if x in sites && block in sites[x] then [PhiFor(ResultOf(results, x))]
      else []) + PhisAt(vars[..|vars| - 1], sites, results, block)
  }

  function ResultOf(results: map<string, string>, x: string): string {
    if x in results then results[x] else ""
  }

  function WithAllPhis(func: seq<SSABasicBlock>, vars: seq<string>, sites: map<string, set<string>>,
      results: map<string, string>): (r: seq<SSABasicBlock>)
    ensures |r| == |func| && forall b :: 0 <= b < |r| ==> r[b].name == func[b].name
  {
    seq(|func|, b requires 0 <= b < |func| =>
      if IsFirst(func, b) then SSABasicBlock(func[b].name,
        PhisAt(vars, sites, results, func[b].name) + func[b].instructions)
      else func[b])
  }

  lemma OnePhiMore(func: seq<SSABasicBlock>, vars: seq<string>, sites: map<string, set<string>>,
      results: map<string, string>, x: string, s: set<string>)
    requires x !in vars
    ensures WithPhis(WithAllPhis(func, vars, sites, results), ResultOf(results, x), s) ==
      WithAllPhis(func, vars + [x], sites[x := s], results)
  {
    hide IsFirst, PhisAt;
    var before, after := WithAllPhis(func, vars, sites, results), WithAllPhis(func, vars + [x], sites[x := s], results);
    forall b | 0 <= b < |func| ensures WithPhis(before, ResultOf(results, x), s)[b] == after[b] {
      OthersStay(vars, sites, results, x, s, func[b].name);
      SameFirst(before, func, b);
      OneBlockMore(func[b], vars, sites, results, x, s);
    }
  }

  lemma OneBlockMore(block: SSABasicBlock, vars: seq<string>, sites: map<string, set<string>>,
      results: map<string, string>, x: string, s: set<string>)
    requires PhisAt(vars, sites[x := s], results, block.name) == PhisAt(vars, sites, results, block.name)
    ensures
      var rest := PhisAt(vars, sites, results, block.name) + block.instructions;
      PhisAt(vars + [x], sites[x := s], results, block.name) + block.instructions ==
      if block.name in s then [PhiFor(ResultOf(results, x))] + rest else rest
  {
    assert (vars + [x])[..|vars|] == vars;
    var phis := PhisAt(vars, sites, results, block.name);
    assert [PhiFor(ResultOf(results, x))] + phis + block.instructions ==
      [PhiFor(ResultOf(results, x))] + (phis + block.instructions);
    assert [] + phis == phis;
  }

  lemma {:induction false} OthersStay(vars: seq<string>, sites: map<string, set<string>>, results: map<string, string>,
      x: string, s: set<string>, block: string)
    requires x !in vars
    ensures PhisAt(vars, sites[x := s], results, block) == PhisAt(vars, sites, results, block)
    decreases |vars|
  {
    if vars != [] {
      assert vars[|vars| - 1] in vars;
      OthersStay(vars[..|vars| - 1], sites, results, x, s, block);
    }
  }

  lemma {:induction false} AllPhisKept(func: seq<SSABasicBlock>, vars: seq<string>, sites: map<string, set<string>>,
      results: map<string, string>)
    ensures KeptBlocks(NotPhi(), WithAllPhis(func, vars, sites, results)) == KeptBlocks(NotPhi(), func)
    decreases |vars|
  {
    if vars == [] {
      NoPhis(func, sites, results);
    } else {
      hide KeptBlocks, NotPhi, WithPhis, PhisAt;
      var init, x := vars[..|vars| - 1], vars[|vars| - 1];
      AllPhisKept(func, init, sites, results);
      LastPhis(func, vars, sites, results);
      WithPhisKept(WithAllPhis(func, init, sites, results), ResultOf(results, x), if x in sites then sites[x] else {});
    }
  }

  lemma LastPhis(func: seq<SSABasicBlock>, vars: seq<string>, sites: map<string, set<string>>,
      results: map<string, string>)
    requires vars != []
    ensures
      var init, x := vars[..|vars| - 1], vars[|vars| - 1];
      WithAllPhis(func, vars, sites, results) ==
        WithPhis(WithAllPhis(func, init, sites, results), ResultOf(results, x), if x in sites then sites[x] else {})
  {
    hide IsFirst;
    var init, x := vars[..|vars| - 1], vars[|vars| - 1];
    var before := WithAllPhis(func, init, sites, results);
    var all, one :=
      WithAllPhis(func, vars, sites, results),
        WithPhis(before, ResultOf(results, x), if x in sites then sites[x] else {});
    forall b | 0 <= b < |func| ensures all[b] == one[b] {
      SameFirst(before, func, b);
      var rest, phi := PhisAt(init, sites, results, func[b].name), [PhiFor(ResultOf(results, x))];
      assert phi + rest + func[b].instructions == phi + (rest + func[b].instructions);
      assert [] + rest == rest;
    }
  }

  /** Each variable has been treated once, with the blocks of its iterated frontier as sites. */
  ghost predicate SitesOf(frontiers: Frontiers, variableDefBlocks: map<string, set<string>>, vars: seq<string>,
      sites: map<string, set<string>>) {
    && (forall i, j :: 0 <= i < j < |vars| ==> vars[i] != vars[j]) && (forall x :: x in vars <==> x in sites)
    && sites.Keys <= variableDefBlocks.Keys
    && forall x :: x in sites ==> IsIteratedFrontier(frontiers, variableDefBlocks[x], sites[x])
  }

  /** Phis for every variable, in any order of the variables: at the head of each block (the first with
      its label) one for every variable in whose iterated frontier the block is, and no others. */
  method InsertPhiNodes(func: seq<SSABasicBlock>, frontiers: Frontiers, variableDefBlocks: map<string, set<string>>,
                        results: map<string, string>)
    returns (blocks: seq<SSABasicBlock>)
    ensures exists vars, sites ::
      SitesOf(frontiers, variableDefBlocks, vars, sites) && sites.Keys == variableDefBlocks.Keys
                                  && blocks == WithAllPhis(func, vars, sites, results)
    ensures KeptBlocks(NotPhi(), blocks) == KeptBlocks(NotPhi(), func)
  {
    hide KeptBlocks, NotPhi, WithPhis, WithAllPhis, IsIteratedFrontier;
    ghost var vars, sites: map<string, set<string>> := [], map[];
    blocks := func;
    NoPhis(func, sites, results);
    var rest := variableDefBlocks.Keys;
    while rest != {}
      invariant rest <= variableDefBlocks.Keys && sites.Keys == variableDefBlocks.Keys - rest
      invariant SitesOf(frontiers, variableDefBlocks, vars, sites) && blocks == WithAllPhis(func, vars, sites, results)
      decreases |rest|
    {
      var x :| x in rest;
      ghost var before := blocks;
      blocks := InsertPhisFor(blocks, frontiers, variableDefBlocks[x], ResultOf(results, x));
      ghost var s :| IsIteratedFrontier(frontiers, variableDefBlocks[x], s)
          && blocks == WithPhis(before, ResultOf(results, x), s);
      OnePhiMore(func, vars, sites, results, x, s);
      vars, sites := vars + [x], sites[x := s];
      rest := rest - {x};
    }
    AllPhisKept(func, vars, sites, results);
  }

  lemma NoPhis(func: seq<SSABasicBlock>, sites: map<string, set<string>>, results: map<string, string>)
    ensures WithAllPhis(func, [], sites, results) == func
  {
    forall b | 0 <= b < |func| ensures WithAllPhis(func, [], sites, results)[b] == func[b] {
      assert [] + func[b].instructions == func[b].instructions;
    }
  }

  lemma {:induction false} PhiOrder(vars: seq<string>, sites: map<string, set<string>>, results: map<string, string>,
      block: string) returns (order: seq<string>)
    requires forall i, j :: 0 <= i < j < |vars| ==> vars[i] != vars[j]
    ensures |order| == |PhisAt(vars, sites, results, block)| && forall i, j ::
      0 <= i < j < |order| ==> order[i] != order[j]
    ensures forall x :: x in order <==> x in vars && x in sites && block in sites[x]
    ensures forall i :: 0 <= i < |order| ==>
      PhisAt(vars, sites, results, block)[i] == SSAInstruction(Phi, ResultOf(results, order[i]), [])
    decreases |vars|
  {
    order := [];
    if vars != [] {
      var init, x := vars[..|vars| - 1], vars[|vars| - 1];
      var rest := PhiOrder(init, sites, results, block);
      assert vars == init + [x] && x !in init;
      order := (if x in sites && block in sites[x] then [x] else []) + rest;
    }
  }

  /** Every block keeps its instructions, after a phi for each variable in whose iterated frontier it is: each
      variable once, nothing else, and nothing in later blocks of the same label. */
  lemma PhisExactly(func: seq<SSABasicBlock>, frontiers: Frontiers, variableDefBlocks: map<string, set<string>>,
      vars: seq<string>, sites: map<string, set<string>>, results: map<string, string>, b: nat)
    returns (order: seq<string>)
    requires SitesOf(frontiers, variableDefBlocks, vars, sites) && sites.Keys == variableDefBlocks.Keys && b < |func|
    ensures forall i, j :: 0 <= i < j < |order| ==> order[i] != order[j]
    ensures forall x :: x in order <==> IsFirst(func, b) && x in variableDefBlocks && func[b].name in sites[x]
    ensures
      var after := WithAllPhis(func, vars, sites, results)[b].instructions;
      && |after| == |order| + |func[b].instructions| && after[|order|..] == func[b].instructions
      && forall i :: 0 <= i < |order| ==> after[i] == SSAInstruction(Phi, ResultOf(results, order[i]), [])
  {
    hide PhisAt, IsFirst;
    order := [];
    if IsFirst(func, b) { order := PhiOrder(vars, sites, results, func[b].name); }
  }
}
