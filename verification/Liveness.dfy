/** Live intervals, src/backend/regalloc/LivenessAnalyzer.hpp: instructions are numbered from 1 in the
    order of the text, parameters are live from 0; a name's interval runs from its first occurrence to
    its last use. */
module Liveness {
  import opened Ssa
  import opened LinearScan

  function Flatten(blocks: seq<SSABasicBlock>): seq<SSAInstruction> {
    if blocks == [] then [] else Flatten(blocks[..|blocks| - 1]) + blocks[|blocks| - 1].instructions
  }

  /** First occurrence and last use of every name. */
  datatype Points = Points(defs: map<string, nat>, uses: map<string, nat>)

  function SeeUse(pt: Points, x: string, at: nat): Points {
    Points(if x in pt.defs then pt.defs else pt.defs[x := at], pt.uses[x := at])
  }

  function SeeUses(pt: Points, vs: seq<SSAValue>, at: nat): Points {
    if vs == [] then pt
    else
      var before, v := SeeUses(pt, vs[..|vs| - 1], at), vs[|vs| - 1];
      if v.Var? && v.name != "" then SeeUse(before, v.name, at) else before
  }

  function SeeResult(pt: Points, x: string, at: nat): Points {
    if x == "" then pt
    else Points(if x in pt.defs then pt.defs else pt.defs[x := at], if x in pt.uses then pt.uses else pt.uses[x := at])
  }

  function SeeParams(params: seq<string>): Points {
    if params == [] then Points(map[], map[])
    else
      var before, x := SeeParams(params[..|params| - 1]), params[|params| - 1];
      Points(before.defs[x := 0], before.uses[x := 0])
  }

  function See(params: seq<string>, insts: seq<SSAInstruction>): Points {
    if insts == [] then SeeParams(params)
    else
      var inst := insts[|insts| - 1];
      SeeResult(SeeUses(See(params, insts[..|insts| - 1]), inst.operands, |insts|), inst.result, |insts|)
  }

  // ----- what the points say

  ghost predicate SameKeys(pt: Points) {
    pt.defs.Keys == pt.uses.Keys
  }

  ghost predicate UsesAt(insts: seq<SSAInstruction>, i: nat, x: string) {
    i < |insts| && x != "" && Var(x) in insts[i].operands
  }

  ghost predicate DefinesAt(insts: seq<SSAInstruction>, i: nat, x: string) {
    i < |insts| && x != "" && insts[i].result == x
  }

  lemma {:induction false} SeeUsesMeans(pt: Points, vs: seq<SSAValue>, at: nat)
    requires SameKeys(pt)
    ensures var r := SeeUses(pt, vs, at);
      && SameKeys(r)
      && (forall x :: x in r.defs <==> x in pt.defs || (x != "" && Var(x) in vs))
      && (forall x :: x in pt.defs ==> r.defs[x] == pt.defs[x])
      && (forall x :: x in r.defs && x !in pt.defs ==> r.defs[x] == at)
      && (forall x :: x in r.defs ==> r.uses[x] == if x != "" && Var(x) in vs then at else pt.uses[x])
    decreases |vs|
  {
    if vs != [] {
      var init, v := vs[..|vs| - 1], vs[|vs| - 1];
      SeeUsesMeans(pt, init, at);
      assert forall x :: Var(x) in vs <==> Var(x) in init || Var(x) == v;
    }
  }

  lemma {:induction false} SeeParamsMeans(params: seq<string>)
    ensures var pt := SeeParams(params);
      SameKeys(pt) && (forall x :: x in pt.defs <==> x in params)
        && forall x :: x in pt.defs ==> pt.defs[x] == 0 == pt.uses[x]
    decreases |params|
  {
    if params != [] {
      SeeParamsMeans(params[..|params| - 1]);
      assert params == params[..|params| - 1] + [params[|params| - 1]];
    }
  }

  ghost predicate Mentions(inst: SSAInstruction, x: string) {
    x != "" && Var(x) in inst.operands
  }

  ghost predicate ParamsCovered(params: seq<string>, pt: Points) {
    forall x :: x in params ==> x in pt.defs && pt.defs[x] == 0
  }

  ghost predicate UsesCovered(insts: seq<SSAInstruction>, pt: Points)
    requires SameKeys(pt)
  {
    forall i: nat, x :: UsesAt(insts, i, x) ==> x in pt.defs && pt.defs[x] <= i + 1 <= pt.uses[x]
  }

  ghost predicate ResultsCovered(insts: seq<SSAInstruction>, pt: Points) {
    forall i: nat, x :: DefinesAt(insts, i, x) ==> x in pt.defs && pt.defs[x] <= i + 1
  }

  /** The name occurs in the instruction with that number. */
  ghost predicate FirstAt(insts: seq<SSAInstruction>, at: nat, x: string) {
    at >= 1 && (UsesAt(insts, at - 1, x) || DefinesAt(insts, at - 1, x))
  }

  ghost predicate FirstsOccur(params: seq<string>, insts: seq<SSAInstruction>, pt: Points) {
    forall x :: x in pt.defs && x !in params ==> FirstAt(insts, pt.defs[x], x)
  }

  /** The last use, or the first occurrence if there is no use. */
  ghost predicate LastAt(insts: seq<SSAInstruction>, first: nat, last: nat, x: string) {
    (last >= 1 && UsesAt(insts, last - 1, x)) || (last == first && forall i: nat :: !UsesAt(insts, i, x))
  }

  ghost predicate LastsOccur(insts: seq<SSAInstruction>, pt: Points)
    requires SameKeys(pt)
  {
    forall x :: x in pt.defs ==> LastAt(insts, pt.defs[x], pt.uses[x], x)
  }

  ghost predicate Bounded(pt: Points, n: nat)
    requires SameKeys(pt)
  {
    forall x :: x in pt.defs ==> pt.uses[x] <= n && pt.defs[x] <= n
  }

  /** Every occurrence lies at or after the first, every use at or before the last. */
  ghost predicate Spans(params: seq<string>, insts: seq<SSAInstruction>, pt: Points) {
    && SameKeys(pt) && ParamsCovered(params, pt) && UsesCovered(insts, pt) && ResultsCovered(insts, pt)
    && FirstsOccur(params, insts, pt) && LastsOccur(insts, pt) && Bounded(pt, |insts|)
  }

  /** What one instruction adds. */
  ghost predicate Adds(pt: Points, inst: SSAInstruction, at: nat, r: Points)
    requires SameKeys(pt)
  {
    && SameKeys(r)
    && (forall x :: x in r.defs <==> x in pt.defs || Mentions(inst, x) || (x != "" && inst.result == x))
    && (forall x :: x in r.defs ==> r.defs[x] == if x in pt.defs then pt.defs[x] else at)
    && (forall x :: x in r.defs ==> r.uses[x] == if Mentions(inst, x) || x !in pt.defs then at else pt.uses[x])
  }

  lemma SeeAdds(pt: Points, inst: SSAInstruction, at: nat)
    requires SameKeys(pt)
    ensures Adds(pt, inst, at, SeeResult(SeeUses(pt, inst.operands, at), inst.result, at))
  {
    hide SeeUses;
    SeeUsesMeans(pt, inst.operands, at);
    assert forall x :: Mentions(inst, x) <==> x != "" && Var(x) in inst.operands;
  }

  lemma UsesStay(insts: seq<SSAInstruction>, pt: Points, inst: SSAInstruction, r: Points)
    requires SameKeys(pt) && UsesCovered(insts, pt) && Bounded(pt, |insts|) && Adds(pt, inst, |insts| + 1, r)
    ensures UsesCovered(insts + [inst], r)
  {
    var all := insts + [inst];
    forall i: nat, x | UsesAt(all, i, x) ensures x in r.defs && r.defs[x] <= i + 1 <= r.uses[x] {
      if i < |insts| { assert UsesAt(insts, i, x); } else { assert Mentions(inst, x); }
    }
  }

  lemma ResultsStay(insts: seq<SSAInstruction>, pt: Points, inst: SSAInstruction, r: Points)
    requires SameKeys(pt) && ResultsCovered(insts, pt) && Bounded(pt, |insts|) && Adds(pt, inst, |insts| + 1, r)
    ensures ResultsCovered(insts + [inst], r)
  {
    var all := insts + [inst];
    forall i: nat, x | DefinesAt(all, i, x) ensures x in r.defs && r.defs[x] <= i + 1 {
      if i < |insts| { assert DefinesAt(insts, i, x); }
    }
  }

  lemma FirstsStay(params: seq<string>, insts: seq<SSAInstruction>, pt: Points, inst: SSAInstruction, r: Points)
    requires SameKeys(pt) && FirstsOccur(params, insts, pt) && Bounded(pt, |insts|) && Adds(pt, inst, |insts| + 1, r)
    ensures FirstsOccur(params, insts + [inst], r)
  {
    var all := insts + [inst];
    forall x | x in r.defs && x !in params ensures FirstAt(all, r.defs[x], x) {
      if x in pt.defs {
        assert FirstAt(insts, pt.defs[x], x);
        assert all[pt.defs[x] - 1] == insts[pt.defs[x] - 1];
      } else {
        assert all[|insts|] == inst;
      }
    }
  }

  lemma LastStays(insts: seq<SSAInstruction>, inst: SSAInstruction, first: nat, last: nat, x: string)
    requires LastAt(insts, first, last, x)
    ensures LastAt(insts + [inst], first, if Mentions(inst, x) then |insts| + 1 else last, x)
  {
    var all := insts + [inst];
    assert all[|insts|] == inst;
    if last >= 1 && UsesAt(insts, last - 1, x) { assert all[last - 1] == insts[last - 1]; }
    if !Mentions(inst, x) && forall i: nat :: !UsesAt(insts, i, x) {
      forall i: nat ensures !UsesAt(all, i, x) {
        assert i < |insts| ==> all[i] == insts[i] && !UsesAt(insts, i, x);
      }
    }
  }

  lemma LastsStay(insts: seq<SSAInstruction>, pt: Points, inst: SSAInstruction, r: Points)
    requires SameKeys(pt) && LastsOccur(insts, pt) && UsesCovered(insts, pt) && Adds(pt, inst, |insts| + 1, r)
    ensures LastsOccur(insts + [inst], r)
  {
    hide LastAt;
    forall x | x in r.defs ensures LastAt(insts + [inst], r.defs[x], r.uses[x], x) {
      if x in pt.defs {
        LastStays(insts, inst, pt.defs[x], pt.uses[x], x);
      } else {
        LastFirst(insts, pt, inst, x);
      }
    }
  }

  lemma LastFirst(insts: seq<SSAInstruction>, pt: Points, inst: SSAInstruction, x: string)
    requires SameKeys(pt) && UsesCovered(insts, pt) && x !in pt.defs
    ensures LastAt(insts + [inst], |insts| + 1, |insts| + 1, x)
  {
    assert forall i: nat :: !UsesAt(insts, i, x);
    assert LastAt(insts, |insts| + 1, |insts| + 1, x);
    LastStays(insts, inst, |insts| + 1, |insts| + 1, x);
  }

  lemma SeeOne(params: seq<string>, insts: seq<SSAInstruction>, pt: Points, inst: SSAInstruction, r: Points)
    requires Spans(params, insts, pt) && Adds(pt, inst, |insts| + 1, r)
    ensures Spans(params, insts + [inst], r)
  {
    hide UsesCovered, ResultsCovered, FirstsOccur, LastsOccur;
    LastsStay(insts, pt, inst, r);
    UsesStay(insts, pt, inst, r);
    ResultsStay(insts, pt, inst, r);
    FirstsStay(params, insts, pt, inst, r);
  }

  lemma {:induction false} SeeSpans(params: seq<string>, insts: seq<SSAInstruction>)
    ensures Spans(params, insts, See(params, insts))
    decreases |insts|
  {
    hide SeeUses, SeeResult, Spans, Adds;
    if insts == [] {
      SpansNothing(params);
    } else {
      var init, inst := insts[..|insts| - 1], insts[|insts| - 1];
      SeeSpans(params, init);
      SpansKeys(params, init, See(params, init));
      SeeAdds(See(params, init), inst, |insts|);
      SeeOne(params, init, See(params, init), inst, See(params, insts));
      assert insts == init + [inst];
    }
  }

  lemma SpansKeys(params: seq<string>, insts: seq<SSAInstruction>, pt: Points)
    requires Spans(params, insts, pt)
    ensures SameKeys(pt)
  {
  }

  lemma SpansNothing(params: seq<string>)
    ensures Spans(params, [], SeeParams(params))
  {
    SeeParamsMeans(params);
  }

  // ----- the intervals

  function IntervalOf(pt: Points, x: string): LiveInterval
    requires x in pt.defs && x in pt.uses
  {
    LiveInterval(x, pt.defs[x], if pt.uses[x] < pt.defs[x] then pt.defs[x] else pt.uses[x], false, 0, -1)
  }

  /** The interval of a name begins at its first occurrence, 0 for a parameter, and ends at its last use, or
      where it begins if there is none. */
  lemma IntervalExactly(params: seq<string>, insts: seq<SSAInstruction>, x: string)
    requires x in See(params, insts).defs
    ensures See(params, insts).defs.Keys == See(params, insts).uses.Keys
    ensures
      var iv := IntervalOf(See(params, insts), x);
      && (if x in params then iv.startPoint == 0 else FirstAt(insts, iv.startPoint, x))
      && LastAt(insts, iv.startPoint, iv.endPoint, x)
      && forall i: nat ::
        (UsesAt(insts, i, x) ==> iv.startPoint <= i + 1 <= iv.endPoint)
          && (DefinesAt(insts, i, x) ==> iv.startPoint <= i + 1)
  {
    hide See;
    SeeSpans(params, insts);
    var pt := See(params, insts);
    if pt.uses[x] < pt.defs[x] { LastNotFirst(insts, pt, x); }
  }

  lemma LastNotFirst(insts: seq<SSAInstruction>, pt: Points, x: string)
    requires SameKeys(pt) && UsesCovered(insts, pt) && LastsOccur(insts, pt) && x in pt.defs
    ensures pt.defs[x] <= pt.uses[x]
  {
    assert LastAt(insts, pt.defs[x], pt.uses[x], x);
  }

  /** One fresh interval for every name, in order of start points. */
  ghost predicate AreIntervals(pt: Points, ivs: seq<LiveInterval>) {
    SameKeys(pt) && SomeIntervals(pt, pt.defs.Keys, ivs)
  }

  method ScanUses(operands: seq<SSAValue>, at: nat, pt: Points) returns (r: Points)
    ensures r == SeeUses(pt, operands, at)
  {
    r := pt;
    var k := 0;
    while k < |operands|
      invariant 0 <= k <= |operands| && r == SeeUses(pt, operands[..k], at)
    {
      assert operands[..k + 1][..k] == operands[..k];
      var op := operands[k];
      if op.Var? && op.name != "" {
        if op.name !in r.defs { r := r.(defs := r.defs[op.name := at]); }
        r := r.(uses := r.uses[op.name := at]);
      }
      k := k + 1;
    }
    assert operands[..k] == operands;
  }

  lemma {:induction false} FlattenPrefix(blocks: seq<SSABasicBlock>, b: nat, j: nat)
    requires b < |blocks| && j <= |blocks[b].instructions|
    ensures Flatten(blocks[..b + 1]) == Flatten(blocks[..b]) + blocks[b].instructions
  {
    assert blocks[..b + 1][..b] == blocks[..b];
  }

  lemma SeeNext(params: seq<string>, before: seq<SSAInstruction>, insts: seq<SSAInstruction>, j: nat)
    requires j < |insts|
    ensures See(params, before + insts[..j + 1]) ==
            SeeResult(SeeUses(See(params, before + insts[..j]), insts[j].operands, |before| + j + 1), insts[j].result,
              |before| + j + 1)
  {
    var all := before + insts[..j + 1];
    assert all[..|all| - 1] == before + insts[..j];
  }

  /** The numbering and the two tables. */
  method ComputePoints(params: seq<string>, blocks: seq<SSABasicBlock>) returns (pt: Points)
    ensures pt == See(params, Flatten(blocks))
  {
    hide See, SeeUses, SeeParams;
    pt := ScanParams(params);
    ParamsFirst(params);
    var instructionIndex := 0;
    var b := 0;
    while b < |blocks|
      invariant 0 <= b <= |blocks| && instructionIndex == |Flatten(blocks[..b])|
        && pt == See(params, Flatten(blocks[..b]))
    {
      var insts := blocks[b].instructions;
      ghost var before := Flatten(blocks[..b]);
      FlattenPrefix(blocks, b, 0);
      assert before + insts[..0] == before;
      var j := 0;
      while j < |insts|
        invariant 0 <= j <= |insts| && instructionIndex == |before| + j && pt == See(params, before + insts[..j])
      {
        SeeNext(params, before, insts, j);
        instructionIndex := instructionIndex + 1;
        pt := ScanUses(insts[j].operands, instructionIndex, pt);
        if insts[j].result != "" {
          if insts[j].result !in pt.defs { pt := pt.(defs := pt.defs[insts[j].result := instructionIndex]); }
          if insts[j].result !in pt.uses { pt := pt.(uses := pt.uses[insts[j].result := instructionIndex]); }
        }
        j := j + 1;
      }
      assert insts[..j] == insts;
      b := b + 1;
    }
    assert blocks[..b] == blocks;
  }

  lemma ParamsFirst(params: seq<string>)
    ensures See(params, Flatten([])) == SeeParams(params)
  {
  }

  method ScanParams(params: seq<string>) returns (pt: Points)
    ensures pt == SeeParams(params)
  {
    pt := Points(map[], map[]);
    var i := 0;
    while i < |params|
      invariant 0 <= i <= |params| && pt == SeeParams(params[..i])
    {
      assert params[..i + 1][..i] == params[..i];
      pt := Points(pt.defs[params[i] := 0], pt.uses[params[i] := 0]);
      i := i + 1;
    }
    assert params[..i] == params;
  }

  ghost predicate NamesApart(ivs: seq<LiveInterval>) {
    forall i, j :: 0 <= i < j < |ivs| ==> ivs[i].varName != ivs[j].varName
  }

  ghost predicate FromPoints(pt: Points, done: set<string>, ivs: seq<LiveInterval>) {
    forall i :: 0 <= i < |ivs| ==> FromPoint(pt, done, ivs[i])
  }

  ghost predicate FromPoint(pt: Points, done: set<string>, iv: LiveInterval) {
    iv.varName in done && iv.varName in pt.defs && iv.varName in pt.uses && iv == IntervalOf(pt, iv.varName)
  }

  ghost predicate HasAll(done: set<string>, ivs: seq<LiveInterval>) {
    forall x :: x in done ==> exists i :: 0 <= i < |ivs| && ivs[i].varName == x
  }

  ghost predicate SomeIntervals(pt: Points, done: set<string>, ivs: seq<LiveInterval>) {
    Fresh(ivs) && NamesApart(ivs) && FromPoints(pt, done, ivs) && HasAll(done, ivs)
  }

  lemma InsertFresh(ivs: seq<LiveInterval>, iv: LiveInterval, k: nat)
    requires Fresh(ivs) && k <= |ivs| && iv.startPoint <= iv.endPoint && !iv.isSpilled && iv.reg == -1
    requires forall i :: k <= i < |ivs| ==> iv.startPoint < ivs[i].startPoint
    requires k > 0 ==> ivs[k - 1].startPoint <= iv.startPoint
    ensures Fresh(ivs[..k] + [iv] + ivs[k..])
  {
    var r := ivs[..k] + [iv] + ivs[k..];
    forall i, j | 0 <= i < j < |r| ensures r[i].startPoint <= r[j].startPoint {
      if i < k { assert k > 0 && ivs[i].startPoint <= ivs[k - 1].startPoint; }
    }
  }

  lemma InsertNamed(pt: Points, done: set<string>, ivs: seq<LiveInterval>, iv: LiveInterval, k: nat)
    requires NamesApart(ivs) && FromPoints(pt, done, ivs) && HasAll(done, ivs) && k <= |ivs|
    requires iv.varName !in done && FromPoint(pt, done + {iv.varName}, iv)
    ensures var r := ivs[..k] + [iv] + ivs[k..];
      NamesApart(r) && FromPoints(pt, done + {iv.varName}, r) && HasAll(done + {iv.varName}, r)
  {
    hide IntervalOf;
    var r, x := ivs[..k] + [iv] + ivs[k..], iv.varName;
    forall i | 0 <= i < |ivs| ensures FromPoint(pt, done + {x}, ivs[i]) && ivs[i].varName != x {
      assert FromPoint(pt, done, ivs[i]);
    }
    forall y | y in done + {x} ensures exists i :: 0 <= i < |r| && r[i].varName == y {
      if y == x {
        assert r[k].varName == y;
      } else {
        var i :| 0 <= i < |ivs| && ivs[i].varName == y;
        assert r[if i < k then i else i + 1].varName == y;
      }
    }
  }

  /** Puts an interval where the order of start points has it. */
  method InsertByStart(pt: Points, ghost done: set<string>, ivs: seq<LiveInterval>, x: string)
      returns (r: seq<LiveInterval>)
    requires SomeIntervals(pt, done, ivs) && SameKeys(pt) && x in pt.defs && x !in done
    ensures SomeIntervals(pt, done + {x}, r)
  {
    hide Fresh, NamesApart, FromPoints, HasAll;
    var startP, endP := pt.defs[x], pt.uses[x];
    if endP < startP { endP := startP; }
    var iv := LiveInterval(x, startP, endP, false, 0, -1);
    assert FromPoint(pt, done + {x}, iv);
    var k := |ivs|;
    while k > 0 && iv.startPoint < ivs[k - 1].startPoint
      invariant 0 <= k <= |ivs| && forall i :: k <= i < |ivs| ==> iv.startPoint < ivs[i].startPoint
    {
      k := k - 1;
    }
    r := ivs[..k] + [iv] + ivs[k..];
    InsertFresh(ivs, iv, k);
    InsertNamed(pt, done, ivs, iv, k);
  }

  /** The names come in any order and are sorted by start point. */
  method ComputeIntervals(params: seq<string>, blocks: seq<SSABasicBlock>) returns (intervals: seq<LiveInterval>)
    ensures AreIntervals(See(params, Flatten(blocks)), intervals)
  {
    hide See, SomeIntervals, Spans;
    var pt := ComputePoints(params, blocks);
    SeeSpans(params, Flatten(blocks));
    SpansKeys(params, Flatten(blocks), pt);
    intervals := [];
    NoIntervals(pt);
    var rest := pt.defs.Keys;
    while rest != {}
      invariant rest <= pt.defs.Keys && SomeIntervals(pt, pt.defs.Keys - rest, intervals)
      decreases |rest|
    {
      var x :| x in rest;
      intervals := InsertByStart(pt, pt.defs.Keys - rest, intervals, x);
      assert pt.defs.Keys - rest + {x} == pt.defs.Keys - (rest - {x});
      rest := rest - {x};
    }
    assert pt.defs.Keys - rest == pt.defs.Keys;
  }

  lemma NoIntervals(pt: Points)
    ensures SomeIntervals(pt, pt.defs.Keys - pt.defs.Keys, [])
  {
  }
}
