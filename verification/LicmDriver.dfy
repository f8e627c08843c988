/** The pass on a function with its own dominance analysis, src/middleend/opt/LICM.hpp:27-28. */
module LicmDriver {
  import opened Ssa
  import opened LicmPasses
  import opened LicmRepeated
  import opened Options
  import opened Dominance
  import D = DominanceAnalyzers

  /** A jump back to the header from a block that control reaches through the header only. */
  ghost predicate Latch(g: Graph, q: string, header: string) {
    Edge(g, q, header) && Dominates(g, header, q)
  }

  /** A jump to the header from a block that control can reach around it. */
  ghost predicate Enters(g: Graph, q: string, header: string) {
    Edge(g, q, header) && !Dominates(g, header, q)
  }

  ghost predicate FirstEntering(g: Graph, preds: seq<string>, q: string, header: string) {
    exists k :: 0 <= k < |preds| && preds[k] == q && Enters(g, q, header)
      && forall j :: 0 <= j < k ==> !Enters(g, preds[j], header)
  }

  lemma {:induction false} FirstOutsideIs(g: Graph, preds: seq<string>, inLoop: set<string>, header: string)
    requires forall q :: q in preds ==> q != "" && (q in inLoop <==> !Enters(g, q, header))
    ensures
      var q := FirstOutside(preds, inLoop);
      if q == "" then forall p :: p in preds ==> !Enters(g, p, header) else FirstEntering(g, preds, q, header)
  {
    hide Enters;
    if preds != [] && preds[0] in inLoop {
      assert preds == [preds[0]] + preds[1..];
      assert forall q :: q in preds[1..] ==> q in preds;
      FirstOutsideIs(g, preds[1..], inLoop, header);
      var q := FirstOutside(preds[1..], inLoop);
      if q != "" {
        var k :| 0 <= k < |preds[1..]| && preds[1..][k] == q && Enters(g, q, header)
          && forall j :: 0 <= j < k ==> !Enters(g, preds[1..][j], header);
        forall j | 0 <= j < k + 1 ensures !Enters(g, preds[j], header) {
          if j > 0 { assert preds[j] == preds[1..][j - 1]; }
        }
        assert preds[k + 1] == q;
      }
    } else if preds != [] {
      assert preds[0] in preds;
    }
  }

  /** The pass treats a block as the header of a loop exactly if some jump to it is a latch and some enters it.
      The loop is the header and its latches, and what is moved goes to the first block that enters it. */
  lemma LoopExactly(func: seq<SSABasicBlock>, dominators: map<string, set<string>>, i: nat)
    requires i < |func| && D.DistinctNames(func) && forall b :: 0 <= b < |func| ==> func[b].name != ""
    requires forall n :: n in D.CfgOf(func).nodes ==> n in dominators && dominators[n] == DominatorsOf(D.CfgOf(func), n)
    ensures
      var g, header := D.CfgOf(func), func[i].name;
      var found := LoopAt(func, g.preds, dominators, i);
      && (found.Some? <==> (exists q :: Latch(g, q, header)) && exists q :: Enters(g, q, header))
      && (found.Some? ==>
        && (forall x :: x in found.value.0 <==> x == header || Latch(g, x, header))
        && found.value.1 < |func| && FirstEntering(g, g.preds[header], func[found.value.1].name, header))
  {
    hide Dominates, D.PredsOf;
    var g, header := D.CfgOf(func), func[i].name;
    D.CfgWellFormed(func);
    assert header in g.nodes;
    var preds, latches := g.preds[header], BackEdges(g.preds[header], dominators, header);
    forall q ensures q in preds <==> Edge(g, q, header) {}
    forall q | q in preds ensures q in g.nodes && q != "" {
      var k :| 0 <= k < |preds| && preds[k] == q;
      var b :| 0 <= b < |g.nodes| && g.nodes[b] == q;
    }
    forall q ensures q in latches <==> Latch(g, q, header) {
      if q in preds { assert header in dominators[q] <==> Dominates(g, header, q); }
    }
    HeaderDominates(g, header);
    FirstOutsideIs(g, preds, latches + {header}, header);
    var pre := FirstOutside(preds, latches + {header});
    if pre != "" {
      assert pre in preds;
      var b :| 0 <= b < |g.nodes| && g.nodes[b] == pre;
      assert func[b].name == pre;
    }
  }

  lemma HeaderDominates(g: Graph, n: string)
    ensures Dominates(g, n, n)
  {
    forall p | PathTo(g, p, n) ensures n in p { assert p[|p| - 1] == n; }
  }

  /** The loops are those of the function's graph and its dominators; if the function and its loops are
      good, no run is changed. */
  method OptimizeFunction(func: seq<SSABasicBlock>, domAnalyzer: D.DominanceAnalyzer)
      returns (blocks: seq<SSABasicBlock>)
    requires |func| > 0 && D.DistinctNames(func) && D.AllReachable(D.CfgOf(func)) && D.PredsOf(func, func[0].name) == []
    requires SingleAssignment(func)
    modifies domAnalyzer
    ensures domAnalyzer.HasDominators(D.CfgOf(func))
    ensures exists steps :: Passed(func, D.CfgOf(func).preds, domAnalyzer.dominators, |func|, steps, blocks)
    ensures GoodFunction(func, D.CfgOf(func).preds, domAnalyzer.dominators) ==>
      forall world, s :: StopsAlike(func, blocks, world, Config(0, 0, s), Config(0, 0, s))
  {
    hide D.AllReachable, D.PredsOf, SingleAssignment, Passed, GoodFunction, StopsAlike;
    domAnalyzer.ComputeDominance(func);
    var preds := domAnalyzer.BuildCFG(func);
    blocks := Optimize(func, preds, domAnalyzer.dominators);
    ghost var steps :| Passed(func, preds, domAnalyzer.dominators, |func|, steps, blocks);
    if GoodFunction(func, preds, domAnalyzer.dominators) {
      forall world, s ensures StopsAlike(func, blocks, world, Config(0, 0, s), Config(0, 0, s)) {
        PassCorrect(func, preds, domAnalyzer.dominators, steps, blocks, world, s);
      }
    }
  }
}
