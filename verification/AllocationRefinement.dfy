/** Register allocation keeps the meaning: a function run with every name replaced by the register or
    stack slot chosen for it (src/backend/regalloc/LivenessAnalyzer.hpp, then
    src/backend/regalloc/LinearScanAllocator.hpp) does what it does with names, if branches only go
    forward, names are assigned once before the text uses them, and nothing unassigned is read. */
module AllocationRefinement {
  import opened Names
  import opened Ssa
  import opened LinearScan
  import opened Liveness

  // ----- locations as names

  function Size(n: int): nat { if n < 0 then -n else n }

  function LocName(iv: LiveInterval): (r: string)
    ensures r != ""
  {
    if iv.isSpilled then "s" + Decimal(Size(iv.stackOffset)) else "r" + Decimal(Size(iv.reg))
  }

  /** The location of a name. */
  function Home(ivs: seq<LiveInterval>, x: string): (r: string)
    ensures r != ""
  {
    if ivs == [] then "none"
    else if ivs[|ivs| - 1].varName == x then LocName(ivs[|ivs| - 1])
    else Home(ivs[..|ivs| - 1], x)
  }

  lemma {:induction false} HomeIs(ivs: seq<LiveInterval>, i: nat)
    requires NamesApart(ivs) && i < |ivs|
    ensures Home(ivs, ivs[i].varName) == LocName(ivs[i])
    decreases |ivs|
  {
    hide LocName;
    if i < |ivs| - 1 { HomeIs(ivs[..|ivs| - 1], i); }
  }

  lemma SizesDiffer(m: int, n: int)
    requires Decimal(Size(m)) == Decimal(Size(n)) && (m >= 0) == (n >= 0)
    ensures m == n
  {
    ParseDecimal(Size(m));
    ParseDecimal(Size(n));
  }

  lemma SameLocation(a: LiveInterval, b: LiveInterval)
    requires LocName(a) == LocName(b)
    requires if a.isSpilled then a.stackOffset < 0 else a.reg >= 0
    requires if b.isSpilled then b.stackOffset < 0 else b.reg >= 0
    ensures a.isSpilled == b.isSpilled && if a.isSpilled then a.stackOffset == b.stackOffset else a.reg == b.reg
  {
    assert LocName(a)[0] == LocName(b)[0] && LocName(a)[1..] == LocName(b)[1..];
    if a.isSpilled { SizesDiffer(a.stackOffset, b.stackOffset); } else { SizesDiffer(a.reg, b.reg); }
  }

  // ----- the allocation of a function

  ghost predicate GoodPool(pool: seq<int>) {
    LinearScan.Distinct(pool) && forall r :: r in pool ==> r >= 0
  }

  /** Intervals computed for the function, then allocated. */
  ghost predicate IsAllocation(sort: Sorter, params: seq<string>, blocks: seq<SSABasicBlock>, pool: seq<int>,
      ivs: seq<LiveInterval>) {
    GoodPool(pool)
      && exists fresh_ :: AreIntervals(See(params, Flatten(blocks)), fresh_) && ivs == Allocated(sort, fresh_, pool).ivs
  }

  /** What the proof needs of an allocation: each name's interval, and that names whose intervals overlap
      have different homes. */
  ghost predicate HomesApart(pt: Points, ivs: seq<LiveInterval>)
    requires SameKeys(pt)
  {
    forall x, y :: x in pt.defs && y in pt.defs && x != y && Overlap(pt, x, y) ==> Home(ivs, x) != Home(ivs, y)
  }

  ghost predicate Overlap(pt: Points, x: string, y: string)
    requires SameKeys(pt) && x in pt.defs && y in pt.defs
  {
    Overlaps(IntervalOf(pt, x), IntervalOf(pt, y))
  }

  /** Two different intervals of an allocation that overlap have different homes. */
  lemma PairApart(sort: Sorter, ivs0: seq<LiveInterval>, pool: seq<int>, i: nat, j: nat)
    requires Fresh(ivs0) && GoodPool(pool) && i < |ivs0| && j < |ivs0| && i != j && Overlaps(ivs0[i], ivs0[j])
    ensures var ivs := Allocated(sort, ivs0, pool).ivs; LocName(ivs[i]) != LocName(ivs[j])
  {
    hide Allocated, LocName, Fresh;
    AllocationIsSafe(sort, ivs0, pool);
    var ivs := Allocated(sort, ivs0, pool).ivs;
    assert SameSpan(ivs0[i], ivs[i]) && SameSpan(ivs0[j], ivs[j]);
    DifferentHomes(ivs[i], ivs[j], pool);
    if i < j { assert Apart(ivs[i], ivs[j]) && SlotsApart(ivs[i], ivs[j]); } else {
      assert Apart(ivs[j], ivs[i]) && SlotsApart(ivs[j], ivs[i]);
    }
  }

  lemma NamesStay(sort: Sorter, ivs0: seq<LiveInterval>, pool: seq<int>)
    requires Fresh(ivs0) && GoodPool(pool) && NamesApart(ivs0)
    ensures var ivs := Allocated(sort, ivs0, pool).ivs;
      NamesApart(ivs) && forall i :: 0 <= i < |ivs0| ==> ivs[i].varName == ivs0[i].varName
  {
    hide Allocated, Fresh;
    AllocationIsSafe(sort, ivs0, pool);
    forall i | 0 <= i < |ivs0| ensures Allocated(sort, ivs0, pool).ivs[i].varName == ivs0[i].varName {
      assert SameSpan(ivs0[i], Allocated(sort, ivs0, pool).ivs[i]);
    }
  }

  lemma AllocationKeepsApart(sort: Sorter, pt: Points, ivs0: seq<LiveInterval>, pool: seq<int>)
    requires AreIntervals(pt, ivs0) && GoodPool(pool)
    ensures HomesApart(pt, Allocated(sort, ivs0, pool).ivs)
  {
    hide Allocated, Home, LocName, Fresh, GoodPool, Overlaps, NamesApart, IntervalOf;
    var ivs := Allocated(sort, ivs0, pool).ivs;
    NamesStay(sort, ivs0, pool);
    forall x, y | x in pt.defs && y in pt.defs && x != y && Overlap(pt, x, y) ensures Home(ivs, x) != Home(ivs, y) {
      var i :| 0 <= i < |ivs0| && ivs0[i].varName == x;
      var j :| 0 <= j < |ivs0| && ivs0[j].varName == y;
      assert FromPoint(pt, pt.defs.Keys, ivs0[i]) && FromPoint(pt, pt.defs.Keys, ivs0[j]);
      HomeIs(ivs, i);
      HomeIs(ivs, j);
      PairApart(sort, ivs0, pool, i, j);
    }
  }

  lemma DifferentHomes(a: LiveInterval, b: LiveInterval, pool: seq<int>)
    requires GoodPool(pool) && Overlaps(a, b)
    requires if a.isSpilled then a.stackOffset < 0 else a.reg in pool
    requires if b.isSpilled then b.stackOffset < 0 else b.reg in pool
    ensures (Apart(a, b) && SlotsApart(a, b)) || (Apart(b, a) && SlotsApart(b, a)) ==> LocName(a) != LocName(b)
  {
    hide LocName;
    if LocName(a) == LocName(b) { SameLocation(a, b); }
  }

  // ----- the function with locations instead of names

  function RenamedValue(ivs: seq<LiveInterval>, v: SSAValue): SSAValue {
    if v.Var? then Var(Home(ivs, v.name)) else v
  }

  function RenamedValues(ivs: seq<LiveInterval>, vs: seq<SSAValue>): seq<SSAValue> {
    seq(|vs|, i requires 0 <= i < |vs| => RenamedValue(ivs, vs[i]))
  }

  function Renamed(ivs: seq<LiveInterval>, inst: SSAInstruction): SSAInstruction {
    SSAInstruction(inst.op, if inst.result == "" then "" else Home(ivs, inst.result), RenamedValues(ivs, inst.operands))
  }

  function RenamedBlocks(ivs: seq<LiveInterval>, blocks: seq<SSABasicBlock>): (r: seq<SSABasicBlock>)
    ensures |r| == |blocks|
    ensures forall b ::
      0 <= b < |blocks| ==> r[b].name == blocks[b].name && |r[b].instructions| == |blocks[b].instructions|
    ensures forall b: nat, j: nat ::
      At(blocks, b, j) ==> r[b].instructions[j] == Renamed(ivs, blocks[b].instructions[j])
  {
    seq(|blocks|, b requires 0 <= b < |blocks| =>
      SSABasicBlock(blocks[b].name, seq(|blocks[b].instructions|, j requires 0 <= j < |blocks[b].instructions| =>
        Renamed(ivs, blocks[b].instructions[j]))))
  }

  // ----- what is asked of the function

  /** Integer instructions; what assigns a name really writes it. */
  predicate Writes(op: SSAOp) {
    IsBinary(op) || op.Copy? || op.Call?
  }

  predicate Plain(inst: SSAInstruction) {
    && (Writes(inst.op) || (inst.result == "" && (inst.op.RegionEnter? || inst.op.RegionExit? || !IsStraight(inst.op))))
    && forall i :: 0 <= i < |inst.operands| ==> inst.operands[i] != Var("")
  }

  ghost predicate JumpsForward(blocks: seq<SSABasicBlock>, b: nat, inst: SSAInstruction) {
    !IsStraight(inst.op) ==> forall i ::
      0 <= i < |inst.operands| && inst.operands[i].Str? ==> Find(blocks, inst.operands[i].s) > b
  }

  predicate At(blocks: seq<SSABasicBlock>, b: nat, j: nat) {
    b < |blocks| && j < |blocks[b].instructions|
  }

  /** Every name is assigned at most once, not if it is a parameter, and before the text uses it. */
  ghost predicate DefinedOnce(params: seq<string>, insts: seq<SSAInstruction>) {
    forall i: nat, x :: DefinesAt(insts, i, x) ==>
      x !in params && (forall k: nat :: UsesAt(insts, k, x) ==> k > i)
        && forall k: nat :: DefinesAt(insts, k, x) ==> k == i
  }

  ghost predicate Allocatable(params: seq<string>, blocks: seq<SSABasicBlock>) {
    && (forall b: nat, j: nat ::
      At(blocks, b, j) ==> Plain(blocks[b].instructions[j]) && JumpsForward(blocks, b, blocks[b].instructions[j]))
    && DefinedOnce(params, Flatten(blocks))
  }

  // ----- points

  /** The number of the instruction about to run. */
  function Point(blocks: seq<SSABasicBlock>, c: Config): nat {
    (if c.block <= |blocks| then |Flatten(blocks[..c.block])| else |Flatten(blocks)|) + c.pos + 1
  }

  lemma {:induction false} FlatAt(blocks: seq<SSABasicBlock>, b: nat, j: nat)
    requires At(blocks, b, j)
    ensures var i := |Flatten(blocks[..b])| + j;
      i < |Flatten(blocks)| && Flatten(blocks)[i] == blocks[b].instructions[j]
    decreases |blocks|
  {
    var init := blocks[..|blocks| - 1];
    if b < |init| {
      assert init[..b] == blocks[..b] && init[b] == blocks[b];
      FlatAt(init, b, j);
    } else {
      assert blocks[..b] == init;
    }
  }

  lemma {:induction false} FlatGrows(blocks: seq<SSABasicBlock>, b: nat, t: nat)
    requires b < t <= |blocks|
    ensures |Flatten(blocks[..b])| + |blocks[b].instructions| <= |Flatten(blocks[..t])|
    decreases t
  {
    assert blocks[..t][..t - 1] == blocks[..t - 1];
    if b < t - 1 { FlatGrows(blocks, b, t - 1); }
  }

  /** The point moves on with every instruction. */
  lemma PointMoves(blocks: seq<SSABasicBlock>, world: World, c: Config)
    requires At(blocks, c.block, c.pos) && JumpsForward(blocks, c.block, blocks[c.block].instructions[c.pos])
    requires Step(blocks, world, c).Running?
    ensures Point(blocks, Step(blocks, world, c).c) > Point(blocks, c)
  {
    hide Exec, Flatten;
    var inst, n := blocks[c.block].instructions[c.pos], Step(blocks, world, c).c;
    if !IsStraight(inst.op) {
      var k: nat := if inst.op.Branch? then 0 else if Value(inst.operands[0], c.store.env) != 0 then 1 else 2;
      assert inst.operands[k].Str? && n.block == Find(blocks, inst.operands[k].s) && n.pos == 0;
      FlatGrows(blocks, c.block, n.block);
    }
  }

  // ----- names and their homes

  function End(pt: Points, x: string): nat
    requires SameKeys(pt) && x in pt.defs
  {
    IntervalOf(pt, x).endPoint
  }

  /** Names assigned so far, seen before the current point. */
  ghost predicate Seen(pt: Points, done: set<string>, point: nat)
    requires SameKeys(pt)
  {
    forall x :: x in done ==> x != "" && x in pt.defs && pt.defs[x] < point
  }

  /** Names that are still going to be used are where they belong. */
  ghost predicate AtHome(pt: Points, ivs: seq<LiveInterval>, done: set<string>, point: nat, s: Env, t: Env)
    requires SameKeys(pt)
  {
    forall x :: x in done && x in pt.defs && End(pt, x) >= point ==> Read(t, Home(ivs, x)) == Read(s, x)
  }

  ghost predicate ReadsDone(blocks: seq<SSABasicBlock>, c: Config, done: set<string>) {
    At(blocks, c.block, c.pos) ==>
      forall v :: v in blocks[c.block].instructions[c.pos].operands && v.Var? ==> v.name in done
  }

  function NextDone(blocks: seq<SSABasicBlock>, c: Config, done: set<string>): set<string> {
    if At(blocks, c.block, c.pos)
      && blocks[c.block].instructions[c.pos].result != "" then done + {blocks[c.block].instructions[c.pos].result}
    else done
  }

  ghost predicate Match(pt: Points, ivs: seq<LiveInterval>, blocks: seq<SSABasicBlock>, c: Config, d: Config,
      done: set<string>)
    requires SameKeys(pt)
  {
    && d.block == c.block && d.pos == c.pos && d.store.cells == c.store.cells && d.store.trace == c.store.trace
    && (c.block < |blocks| ==> c.pos <= |blocks[c.block].instructions|)
    && Seen(pt, done, Point(blocks, c)) && AtHome(pt, ivs, done, Point(blocks, c), c.store.env, d.store.env)
  }

  /** An operand is used here, so its interval has not ended. */
  lemma OperandAtHome(params: seq<string>, pt: Points, ivs: seq<LiveInterval>, blocks: seq<SSABasicBlock>, c: Config,
      d: Config,
                      done: set<string>, v: SSAValue)
    requires Spans(params, Flatten(blocks), pt) && Match(pt, ivs, blocks, c, d, done) && ReadsDone(blocks, c, done)
    requires At(blocks, c.block, c.pos) && v in blocks[c.block].instructions[c.pos].operands
    ensures Value(RenamedValue(ivs, v), d.store.env) == Value(v, c.store.env)
  {
    hide Flatten, Home;
    if v.Var? {
      FlatAt(blocks, c.block, c.pos);
      var i := |Flatten(blocks[..c.block])| + c.pos;
      assert v == Var(v.name);
      assert UsesAt(Flatten(blocks), i, v.name);
    }
  }

  /** The result's interval starts here. */
  lemma ResultStarts(params: seq<string>, pt: Points, blocks: seq<SSABasicBlock>, c: Config)
    requires Spans(params, Flatten(blocks), pt) && DefinedOnce(params, Flatten(blocks)) && At(blocks, c.block, c.pos)
    requires blocks[c.block].instructions[c.pos].result != ""
    ensures var x := blocks[c.block].instructions[c.pos].result;
      x in pt.defs && pt.defs[x] == Point(blocks, c) <= End(pt, x)
  {
    hide Flatten;
    FlatAt(blocks, c.block, c.pos);
    var insts, i := Flatten(blocks), |Flatten(blocks[..c.block])| + c.pos;
    var x := insts[i].result;
    assert DefinesAt(insts, i, x);
    assert FirstAt(insts, pt.defs[x], x);
    var k := pt.defs[x] - 1;
    assert k <= i && (UsesAt(insts, k, x) ==> k > i);
    assert DefinesAt(insts, k, x);
  }

  /** Writing the result to its home leaves every name that is still needed where it is. */
  lemma WriteKeeps(pt: Points, ivs: seq<LiveInterval>, done: set<string>, p: nat, next: nat, s: Env, t: Env, r: string,
      v: int)
    requires SameKeys(pt) && HomesApart(pt, ivs) && Seen(pt, done, p) && AtHome(pt, ivs, done, p, s, t) && p < next
    requires r != "" && r in pt.defs && pt.defs[r] == p <= End(pt, r)
    ensures AtHome(pt, ivs, done + {r}, next, s[r := v], t[Home(ivs, r) := v]) && Seen(pt, done + {r}, next)
  {
    hide Home;
    forall x | x in done + {r} && x in pt.defs && End(pt, x) >= next
      ensures Read(t[Home(ivs, r) := v], Home(ivs, x)) == Read(s[r := v], x)
    {
      if x != r {
        assert Overlap(pt, x, r);
        assert Read(t, Home(ivs, x)) == Read(s, x);
      }
    }
  }

  lemma NothingWritten(pt: Points, ivs: seq<LiveInterval>, done: set<string>, p: nat, next: nat, s: Env, t: Env)
    requires SameKeys(pt) && Seen(pt, done, p) && AtHome(pt, ivs, done, p, s, t) && p <= next
    ensures AtHome(pt, ivs, done, next, s, t) && Seen(pt, done, next)
  {
  }

  /** From equal operands, the same effect on cells and trace, and the same value written. */
  lemma ExecRenamed(world: World, ivs: seq<LiveInterval>, inst: SSAInstruction, s: Store, t: Store)
    requires Plain(inst) && IsStraight(inst.op) && s.cells == t.cells && s.trace == t.trace
    requires forall v :: v in inst.operands ==> Value(RenamedValue(ivs, v), t.env) == Value(v, s.env)
    ensures Exec(world, inst, s).Some? <==> Exec(world, Renamed(ivs, inst), t).Some?
    ensures Exec(world, inst, s).Some? ==>
      var s1, t1 := Exec(world, inst, s).value, Exec(world, Renamed(ivs, inst), t).value;
      && s1.cells == t1.cells && s1.trace == t1.trace
      && if inst.result == "" then s1.env == s.env && t1.env == t.env
         else inst.result in s1.env && s1.env == s.env[inst.result := s1.env[inst.result]]
              && t1.env == t.env[Home(ivs, inst.result) := s1.env[inst.result]]
  {
    hide Value, Arith, Home, RenamedValue;
    var ops, new_ := inst.operands, RenamedValues(ivs, inst.operands);
    forall i | 0 <= i < |ops| ensures Value(new_[i], t.env) == Value(ops[i], s.env) { assert ops[i] in ops; }
    if inst.op.Call? && |ops| >= 1 {
      StrStays(ivs, ops[0]);
      assert Values(new_[1..], t.env) == Values(ops[1..], s.env);
    }
  }

  lemma StrStays(ivs: seq<LiveInterval>, v: SSAValue)
    ensures RenamedValue(ivs, v).Str? <==> v.Str?
    ensures v.Str? ==> RenamedValue(ivs, v) == v
  {
  }

  // ----- one step

  ghost predicate Follows(pt: Points, ivs: seq<LiveInterval>, blocks: seq<SSABasicBlock>, o: Outcome, r: Outcome,
      done: set<string>)
    requires SameKeys(pt)
  {
    if o.Running? then r.Running? && Match(pt, ivs, blocks, o.c, r.c, done) else r == o
  }

  /** What holds of a function and its allocation. */
  ghost predicate Ready(params: seq<string>, pt: Points, ivs: seq<LiveInterval>, blocks: seq<SSABasicBlock>) {
    Spans(params, Flatten(blocks), pt) && HomesApart(pt, ivs) && Allocatable(params, blocks)
  }

  lemma JumpFollows(params: seq<string>, pt: Points, ivs: seq<LiveInterval>, blocks: seq<SSABasicBlock>, v: SSAValue,
      c: Config, d: Config,
                    done: set<string>)
    requires SameKeys(pt) && Match(pt, ivs, blocks, c, d, done)
    requires var o := Jump(blocks, v, c.store); o.Running? ==> Point(blocks, o.c) >= Point(blocks, c)
    ensures Follows(pt, ivs, blocks, Jump(blocks, v, c.store),
      Jump(RenamedBlocks(ivs, blocks), RenamedValue(ivs, v), d.store), done)
  {
    hide Flatten, Home, RenamedBlocks, Seen, AtHome;
    StrStays(ivs, v);
    if v.Str? {
      FindRenamed(blocks, RenamedBlocks(ivs, blocks), v.s);
      var o := Jump(blocks, v, c.store);
      if o.Running? {
        NothingWritten(pt, ivs, done, Point(blocks, c), Point(blocks, o.c), c.store.env, d.store.env);
      }
    }
  }

  lemma {:induction false} FindRenamed(p: seq<SSABasicBlock>, q: seq<SSABasicBlock>, name: string)
    requires |p| == |q| && forall b :: 0 <= b < |p| ==> p[b].name == q[b].name
    ensures Find(p, name) == Find(q, name)
    decreases |p|
  {
    if p != [] && p[0].name != name { FindRenamed(p[1..], q[1..], name); }
  }

  lemma StraightFollows(params: seq<string>, pt: Points, ivs: seq<LiveInterval>, blocks: seq<SSABasicBlock>,
      world: World,
                        c: Config, d: Config, done: set<string>)
    requires Ready(params, pt, ivs, blocks) && SameKeys(pt) && Match(pt, ivs, blocks, c, d, done)
      && ReadsDone(blocks, c, done)
    requires At(blocks, c.block, c.pos) && IsStraight(blocks[c.block].instructions[c.pos].op)
    ensures Follows(pt, ivs, blocks, Step(blocks, world, c), Step(RenamedBlocks(ivs, blocks), world, d),
      NextDone(blocks, c, done))
  {
    hide Flatten, Home, RenamedBlocks, Seen, AtHome, Exec, Value, RenamedValue, Spans, HomesApart, DefinedOnce,
      JumpsForward, Plain, RenamedValues;
    var inst := blocks[c.block].instructions[c.pos];
    forall v | v in inst.operands ensures Value(RenamedValue(ivs, v), d.store.env) == Value(v, c.store.env) {
      OperandAtHome(params, pt, ivs, blocks, c, d, done, v);
    }
    assert Plain(inst);
    ExecRenamed(world, ivs, inst, c.store, d.store);
    if Exec(world, inst, c.store).Some? {
      var s1, t1 := Exec(world, inst, c.store).value, Exec(world, Renamed(ivs, inst), d.store).value;
      var p := Point(blocks, c);
      if inst.result == "" {
        NothingWritten(pt, ivs, done, p, p + 1, c.store.env, d.store.env);
      } else {
        ResultStarts(params, pt, blocks, c);
        WriteKeeps(pt, ivs, done, p, p + 1, c.store.env, d.store.env, inst.result, s1.env[inst.result]);
      }
    }
  }

  lemma StepFollows(params: seq<string>, pt: Points, ivs: seq<LiveInterval>, blocks: seq<SSABasicBlock>, world: World,
                    c: Config, d: Config, done: set<string>)
    requires Ready(params, pt, ivs, blocks) && SameKeys(pt) && Match(pt, ivs, blocks, c, d, done)
      && ReadsDone(blocks, c, done)
    ensures Follows(pt, ivs, blocks, Step(blocks, world, c), Step(RenamedBlocks(ivs, blocks), world, d),
      NextDone(blocks, c, done))
  {
    hide Flatten, Home, RenamedBlocks, Exec, Value, RenamedValue, Spans, HomesApart, DefinedOnce, Plain, Seen, AtHome,
      Jump, RenamedValues;
    if At(blocks, c.block, c.pos) {
      var inst := blocks[c.block].instructions[c.pos];
      if IsStraight(inst.op) {
        StraightFollows(params, pt, ivs, blocks, world, c, d, done);
      } else {
        NoResult(inst, blocks, c, params);
        forall v | v in inst.operands ensures Value(RenamedValue(ivs, v), d.store.env) == Value(v, c.store.env) {
          OperandAtHome(params, pt, ivs, blocks, c, d, done, v);
        }
        LastFollows(params, pt, ivs, blocks, world, c, d, done);
      }
    } else if c.block < |blocks| {
      EndOfBlock(blocks, c);
      NothingWritten(pt, ivs, done, Point(blocks, c), Point(blocks, Config(c.block + 1, 0, c.store)), c.store.env,
        d.store.env);
    }
  }

  lemma NoResult(inst: SSAInstruction, blocks: seq<SSABasicBlock>, c: Config, params: seq<string>)
    requires Allocatable(params, blocks) && At(blocks, c.block, c.pos) && inst == blocks[c.block].instructions[c.pos]
      && !IsStraight(inst.op)
    ensures inst.result == "" && JumpsForward(blocks, c.block, inst)
  {
    assert Plain(inst);
  }

  lemma EndOfBlock(blocks: seq<SSABasicBlock>, c: Config)
    requires c.block < |blocks| && c.pos == |blocks[c.block].instructions|
    ensures Point(blocks, Config(c.block + 1, 0, c.store)) == Point(blocks, c)
  {
    FlattenPrefix(blocks, c.block, 0);
  }

  lemma LastFollows(params: seq<string>, pt: Points, ivs: seq<LiveInterval>, blocks: seq<SSABasicBlock>, world: World,
                    c: Config, d: Config, done: set<string>)
    requires SameKeys(pt) && Match(pt, ivs, blocks, c, d, done) && At(blocks, c.block, c.pos)
    requires var inst := blocks[c.block].instructions[c.pos];
      && !IsStraight(inst.op) && inst.result == "" && JumpsForward(blocks, c.block, inst)
      && forall v :: v in inst.operands ==> Value(RenamedValue(ivs, v), d.store.env) == Value(v, c.store.env)
    ensures Follows(pt, ivs, blocks, Step(blocks, world, c), Step(RenamedBlocks(ivs, blocks), world, d),
      NextDone(blocks, c, done))
  {
    hide Flatten, Home, RenamedBlocks, Exec, Value, RenamedValue, Seen, AtHome, Jump, JumpsForward, RenamedValues;
    var inst := blocks[c.block].instructions[c.pos];
    var ops, new_ := inst.operands, RenamedValues(ivs, inst.operands);
    RenamedAt(ivs, ops);
    if Step(blocks, world, c).Running? { PointMoves(blocks, world, c); }
    assert RenamedBlocks(ivs, blocks)[c.block].instructions[c.pos] == Renamed(ivs, inst);
    if inst.op.Branch? && |ops| >= 1 {
      JumpFollows(params, pt, ivs, blocks, ops[0], c, d, done);
    } else if inst.op.CondBranch? && |ops| >= 3 {
      assert ops[0] in ops;
      JumpFollows(params, pt, ivs, blocks, if Value(ops[0], c.store.env) != 0 then ops[1] else ops[2], c, d, done);
    } else if inst.op.Return? && |ops| >= 1 {
      assert ops[0] in ops;
    }
  }

  lemma RenamedAt(ivs: seq<LiveInterval>, ops: seq<SSAValue>)
    ensures |RenamedValues(ivs, ops)| == |ops|
      && forall i :: 0 <= i < |ops| ==> RenamedValues(ivs, ops)[i] == RenamedValue(ivs, ops[i])
  {
  }

  // ----- whole runs

  /** At every step of the run the operands have been assigned. */
  ghost predicate RunReadsDone(blocks: seq<SSABasicBlock>, world: World, c: Config, done: set<string>, n: nat)
    decreases n
  {
    if n == 0 then true
    else
      var o := Step(blocks, world, c);
      ReadsDone(blocks, c, done) && (o.Running? ==> RunReadsDone(blocks, world, o.c, NextDone(blocks, c, done), n - 1))
  }

  ghost predicate SameOutcome(o: Outcome, r: Outcome) {
    if o.Running? then r.Running? && r.c.block == o.c.block && r.c.pos == o.c.pos && r.c.store.trace == o.c.store.trace
    else r == o
  }

  lemma {:induction false} RunFollows(params: seq<string>, pt: Points, ivs: seq<LiveInterval>,
      blocks: seq<SSABasicBlock>, world: World,
                                      c: Config, d: Config, done: set<string>, n: nat)
    requires Ready(params, pt, ivs, blocks) && SameKeys(pt) && Match(pt, ivs, blocks, c, d, done)
    requires RunReadsDone(blocks, world, c, done, n)
    ensures SameOutcome(Run(blocks, world, c, n), Run(RenamedBlocks(ivs, blocks), world, d, n))
    decreases n
  {
    hide Ready, Seen, AtHome, Step, RenamedBlocks, ReadsDone, Flatten, NextDone;
    if n > 0 {
      StepFollows(params, pt, ivs, blocks, world, c, d, done);
      var o, r := Step(blocks, world, c), Step(RenamedBlocks(ivs, blocks), world, d);
      if o.Running? {
        RunFollows(params, pt, ivs, blocks, world, o.c, r.c, NextDone(blocks, c, done), n - 1);
      }
    }
  }

  function AsSet(params: seq<string>): set<string> {
    set x | x in params
  }

  /** Parameters are passed in their homes. */
  ghost predicate Passed(params: seq<string>, ivs: seq<LiveInterval>, s: Env, t: Env) {
    forall x :: x in params ==> Read(t, Home(ivs, x)) == Read(s, x)
  }

  /** Allocation refines names: after any number of steps the function with locations is at the same
      instruction with the same calls made, or has stopped with the same calls and value. */
  lemma AllocationRefines(sort: Sorter, params: seq<string>, blocks: seq<SSABasicBlock>, pool: seq<int>,
      ivs: seq<LiveInterval>,
                          world: World, s: Store, t: Store, n: nat)
    requires IsAllocation(sort, params, blocks, pool, ivs) && Allocatable(params, blocks) && "" !in params
    requires Passed(params, ivs, s.env, t.env) && s.cells == t.cells && s.trace == t.trace
    requires RunReadsDone(blocks, world, Config(0, 0, s), AsSet(params), n)
    ensures SameOutcome(Run(blocks, world, Config(0, 0, s), n),
      Run(RenamedBlocks(ivs, blocks), world, Config(0, 0, t), n))
  {
    hide See, AreIntervals, Allocated, Allocatable, Spans, HomesApart, Run, RunReadsDone, RenamedBlocks, Home, Flatten,
      SeeParams;
    var pt := See(params, Flatten(blocks));
    var fresh_ :| AreIntervals(pt, fresh_) && ivs == Allocated(sort, fresh_, pool).ivs;
    SeeSpans(params, Flatten(blocks));
    SpansKeys(params, Flatten(blocks), pt);
    AllocationKeepsApart(sort, pt, fresh_, pool);
    StartMatch(params, pt, ivs, blocks, s, t);
    RunFollows(params, pt, ivs, blocks, world, Config(0, 0, s), Config(0, 0, t), AsSet(params), n);
  }

  lemma StartMatch(params: seq<string>, pt: Points, ivs: seq<LiveInterval>, blocks: seq<SSABasicBlock>, s: Store,
      t: Store)
    requires Spans(params, Flatten(blocks), pt) && "" !in params && SameKeys(pt)
    requires Passed(params, ivs, s.env, t.env) && s.cells == t.cells && s.trace == t.trace
    ensures Match(pt, ivs, blocks, Config(0, 0, s), Config(0, 0, t), AsSet(params))
  {
    hide Home, Flatten;
  }

  /** Two parameters never share a home, so they can be passed. */
  lemma ParametersApart(sort: Sorter, params: seq<string>, blocks: seq<SSABasicBlock>, pool: seq<int>,
      ivs: seq<LiveInterval>, x: string, y: string)
    requires IsAllocation(sort, params, blocks, pool, ivs) && x in params && y in params && x != y
    ensures Home(ivs, x) != Home(ivs, y)
  {
    hide See, AreIntervals, Allocated, Home, Flatten;
    var pt := See(params, Flatten(blocks));
    var fresh_ :| AreIntervals(pt, fresh_) && ivs == Allocated(sort, fresh_, pool).ivs;
    SeeSpans(params, Flatten(blocks));
    AllocationKeepsApart(sort, pt, fresh_, pool);
    assert Overlap(pt, x, y);
  }
}
