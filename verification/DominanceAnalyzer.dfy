/** The analyzer object of src/middleend/opt/Dominance.hpp: its methods fill the three tables, and these
    are proved to be the dominator sets by paths, the unique immediate dominators, and the frontiers. */
module DominanceAnalyzers {
  import opened Ssa
  import opened Dominance

  // ----- the graph of a function

  function TargetName(v: SSAValue): string {
    if v.Str? then v.s else ""
  }

  function Succs(insts: seq<SSAInstruction>): seq<string> {
    if insts == [] then []
    else
      var last := insts[|insts| - 1];
      Succs(insts[..|insts| - 1])
      + if last.op.Branch? && |last.operands| >= 1 then [TargetName(last.operands[0])]
        else if last.op.CondBranch?
             && |last.operands| >= 3 then [TargetName(last.operands[1]), TargetName(last.operands[2])]
        else []
  }

  /** The label once for every mention of n among the successors. */
  function Mentions(name: string, succs: seq<string>, n: string): seq<string> {
    if succs == [] then []
    else Mentions(name, succs[..|succs| - 1], n) + if succs[|succs| - 1] == n then [name] else []
  }

  function PredsOf(blocks: seq<SSABasicBlock>, n: string): seq<string> {
    if blocks == [] then []
    else
      var last := blocks[|blocks| - 1];
      PredsOf(blocks[..|blocks| - 1], n) + Mentions(last.name, Succs(last.instructions), n)
  }

  function Names(blocks: seq<SSABasicBlock>): (r: seq<string>)
    ensures |r| == |blocks| && forall b :: 0 <= b < |blocks| ==> r[b] == blocks[b].name
  {
    seq(|blocks|, b requires 0 <= b < |blocks| => blocks[b].name)
  }

  function CfgOf(blocks: seq<SSABasicBlock>): Graph {
    Graph(Names(blocks), map n | n in Names(blocks) :: PredsOf(blocks, n))
  }

  ghost predicate DistinctNames(blocks: seq<SSABasicBlock>) {
    forall i, j :: 0 <= i < j < |blocks| ==> blocks[i].name != blocks[j].name
  }

  lemma {:induction false} MentionsMeans(name: string, succs: seq<string>, n: string, q: string)
    ensures q in Mentions(name, succs, n) <==> q == name && n in succs
    decreases |succs|
  {
    if succs != [] {
      MentionsMeans(name, succs[..|succs| - 1], n, q);
      assert succs == succs[..|succs| - 1] + [succs[|succs| - 1]];
    }
  }

  ghost predicate Jumps(blocks: seq<SSABasicBlock>, b: nat, a: string, n: string) {
    b < |blocks| && blocks[b].name == a && n in Succs(blocks[b].instructions)
  }

  lemma {:induction false} PredsMean(blocks: seq<SSABasicBlock>, n: string, q: string)
    ensures q in PredsOf(blocks, n) <==> exists b: nat :: Jumps(blocks, b, q, n)
    decreases |blocks|
  {
    hide Succs, Mentions;
    if blocks != [] {
      var init, k := blocks[..|blocks| - 1], |blocks| - 1;
      PredsMean(init, n, q);
      MentionsMeans(blocks[k].name, Succs(blocks[k].instructions), n, q);
      if q in PredsOf(init, n) {
        var b: nat :| Jumps(init, b, q, n);
        assert Jumps(blocks, b, q, n);
      }
      if b: nat :| Jumps(blocks, b, q, n) {
        if b < k { assert Jumps(init, b, q, n); }
      }
      assert Jumps(blocks, k, q, n) <==> q == blocks[k].name && n in Succs(blocks[k].instructions);
    }
  }

  /** The graph's edges are the jumps between blocks. */
  lemma EdgesAreJumps(blocks: seq<SSABasicBlock>, a: string, n: string)
    ensures Edge(CfgOf(blocks), a, n) <==> n in Names(blocks) && exists b: nat :: Jumps(blocks, b, a, n)
  {
    hide Succs;
    PredsMean(blocks, n, a);
  }

  lemma CfgWellFormed(blocks: seq<SSABasicBlock>)
    requires |blocks| > 0 && DistinctNames(blocks)
    ensures WellFormed(CfgOf(blocks))
  {
    hide PredsOf;
    var g := CfgOf(blocks);
    forall n, i | n in g.preds && 0 <= i < |g.preds[n]| ensures g.preds[n][i] in g.nodes {
      PredsMean(blocks, n, g.preds[n][i]);
      var b: nat :| Jumps(blocks, b, g.preds[n][i], n);
      assert g.nodes[b] == g.preds[n][i];
    }
  }

  ghost predicate AllReachable(g: Graph) {
    forall n :: n in g.nodes ==> Reachable(g, n)
  }

  // ----- measuring the fixpoint

  function Weight(nodes: seq<string>, doms: map<string, set<string>>): nat {
    if nodes == [] then 0
    else
      var n := nodes[|nodes| - 1];
      Weight(nodes[..|nodes| - 1], doms) + if n in doms then |doms[n]| else 0
  }

  lemma {:induction false} WeightDrops(nodes: seq<string>, doms: map<string, set<string>>, n: string, s: set<string>)
    requires n in doms && s <= doms[n] && forall i, j :: 0 <= i < j < |nodes| ==> nodes[i] != nodes[j]
    ensures Weight(nodes, doms[n := s]) <= Weight(nodes, doms)
    ensures n in nodes && s != doms[n] ==> Weight(nodes, doms[n := s]) < Weight(nodes, doms)
    decreases |nodes|
  {
    if nodes != [] {
      var init, last := nodes[..|nodes| - 1], nodes[|nodes| - 1];
      WeightDrops(init, doms, n, s);
      if last == n {
        SubsetSize(s, doms[n]);
        if s != doms[n] {
          var d :| d in doms[n] && d !in s;
          Smaller(s, doms[n], d);
        }
      } else if n in nodes {
        assert n in init;
      }
    }
  }

  // ----- the invariants of the fixpoint loop

  ghost predicate Shrinking(g: Graph, doms: map<string, set<string>>)
    requires WellFormed(g)
  {
    forall n :: n in g.nodes && n != Entry(g) ==> ShrinksAt(g, doms, n)
  }

  ghost predicate ShrinksAt(g: Graph, doms: map<string, set<string>>, n: string) {
    n in doms && n in g.preds && (forall q :: q in g.preds[n] ==> q in doms) && Flow(g, doms, n) <= doms[n]
  }

  lemma MeetMonotone(all: set<string>, x: map<string, set<string>>, y: map<string, set<string>>, preds: seq<string>)
    requires forall q :: q in preds ==> q in x && q in y && x[q] <= y[q]
    ensures Meet(all, x, preds) <= Meet(all, y, preds)
  {
    forall d | d in Meet(all, x, preds) ensures d in Meet(all, y, preds) {
      MeetMeans(all, x, preds, d);
      MeetMeans(all, y, preds, d);
    }
  }

  /** One equation applied: what has been said of the sets stays true. */
  lemma UpdateKeeps(g: Graph, doms: map<string, set<string>>, n: string)
    requires WellFormed(g) && Covers(g, doms) && Above(g, doms) && Shrinking(g, doms) && n in g.nodes && n != Entry(g)
    requires ShrinksAt(g, doms, n)
    ensures var doms' := doms[n := Flow(g, doms, n)];
      Covers(g, doms') && Above(g, doms') && Shrinking(g, doms') && doms'[Entry(g)] == doms[Entry(g)]
  {
    hide DominatorsOf, Flow;
    var doms' := doms[n := Flow(g, doms, n)];
    FlowInside(g, doms, n);
    FlowAbove(g, doms, n);
    forall m | m in g.nodes && m != Entry(g) ensures ShrinksAt(g, doms', m) {
      assert ShrinksAt(g, doms, m);
      FlowMonotone(g, doms', doms, m);
    }
  }

  lemma FlowInside(g: Graph, doms: map<string, set<string>>, n: string)
    requires n in g.nodes && n in g.preds && forall q :: q in g.preds[n] ==> q in doms
    ensures Flow(g, doms, n) <= All(g)
  {
  }

  lemma FlowMonotone(g: Graph, x: map<string, set<string>>, y: map<string, set<string>>, n: string)
    requires n in g.preds && forall q :: q in g.preds[n] ==> q in x && q in y && x[q] <= y[q]
    ensures Flow(g, x, n) <= Flow(g, y, n)
  {
    MeetMonotone(All(g), x, y, g.preds[n]);
  }

  function InitialDoms(g: Graph): map<string, set<string>>
    requires |g.nodes| > 0
  {
    (map n | n in g.nodes :: All(g))[Entry(g) := {Entry(g)}]
  }

  lemma InitialKeeps(g: Graph)
    requires WellFormed(g)
    ensures var doms := InitialDoms(g);
      Covers(g, doms) && Above(g, doms) && Shrinking(g, doms) && doms[Entry(g)] == {Entry(g)}
  {
    var doms := InitialDoms(g);
    assert PathTo(g, [Entry(g)], Entry(g));
    forall n | n in g.nodes && n != Entry(g) ensures ShrinksAt(g, doms, n) {
      assert n in g.preds;
      forall q | q in g.preds[n] ensures q in doms {
        var i :| 0 <= i < |g.preds[n]| && g.preds[n][i] == q;
      }
      FlowInside(g, doms, n);
    }
  }

  class DominanceAnalyzer {
    var dominators: map<string, set<string>>
    var idom: map<string, string>
    var dominanceFrontiers: map<string, set<string>>

    constructor ()
    {
      dominators, idom, dominanceFrontiers := map[], map[], map[];
    }

    /** Every block's dominators, with nodes that cannot be reached dominated by everything. */
    ghost predicate HasDominators(g: Graph)
      reads `dominators
    {
      forall n :: n in g.nodes ==> n in dominators && dominators[n] == DominatorsOf(g, n)
    }

    ghost predicate HasIdoms(g: Graph)
      reads `idom
    {
      forall n :: n in g.nodes ==> (n in idom <==> n != g.nodes[0]) && (n in idom ==> IsIdom(g, idom[n], n))
    }

    ghost predicate HasFrontiers(g: Graph)
      reads this
    {
      forall n, b :: n in g.nodes && b in g.nodes ==>
        (n in dominanceFrontiers && b in dominanceFrontiers[n] <==> InFrontier(g, n, b))
    }

    /** Successors and predecessors of every block. */
    method BuildCFG(func: seq<SSABasicBlock>) returns (preds: map<string, seq<string>>)
      ensures preds == CfgOf(func).preds
    {
      preds := map[];
      var i := 0;
      while i < |func|
        invariant 0 <= i <= |func| && preds.Keys == (set n | n in Names(func)[..i])
        invariant forall n :: n in preds ==> preds[n] == []
      {
        preds := preds[func[i].name := []];
        i := i + 1;
      }
      assert Names(func)[..i] == Names(func);
      var b := 0;
      while b < |func|
        invariant 0 <= b <= |func| && preds.Keys == (set n | n in Names(func))
        invariant forall n :: n in preds ==> preds[n] == PredsOf(func[..b], n)
      {
        hide Succs, Mentions;
        assert func[..b + 1][..b] == func[..b];
        preds := AddPredecessor(preds, func[b].name, Succs(func[b].instructions));
        b := b + 1;
      }
      assert func[..b] == func;
    }

    /** A block is entered as predecessor of each of its successors that is a block. */
    method AddPredecessor(before: map<string, seq<string>>, name: string, succs: seq<string>)
      returns (preds: map<string, seq<string>>)
      ensures preds.Keys == before.Keys && forall n :: n in preds ==> preds[n] == before[n] + Mentions(name, succs, n)
    {
      preds := before;
      var j := 0;
      while j < |succs|
        invariant 0 <= j <= |succs| && preds.Keys == before.Keys
        invariant forall n :: n in preds ==> preds[n] == before[n] + Mentions(name, succs[..j], n)
      {
        assert succs[..j + 1][..j] == succs[..j];
        if succs[j] in preds { preds := preds[succs[j] := preds[succs[j]] + [name]]; }
        j := j + 1;
      }
      assert succs[..j] == succs;
    }

    /** All sets start full and shrink, one equation at a time, until none changes. */
    method ComputeDominators(g: Graph)
      requires WellFormed(g)
      modifies `dominators
      ensures HasDominators(g)
    {
      hide Weight, Covers, Above, Shrinking;
      InitialKeeps(g);
      dominators := InitialDoms(g);
      var changed := true;
      while changed
        invariant Covers(g, dominators) && Above(g, dominators) && Shrinking(g, dominators)
        invariant Entry(g) in dominators && dominators[Entry(g)] == {Entry(g)}
        invariant !changed ==> FixedUpTo(g, |g.nodes|)
        decreases Weight(g.nodes, dominators), changed
      {
        changed := OnePass(g);
      }
      Fixed(g);
      forall n | n in g.nodes ensures n in dominators && dominators[n] == DominatorsOf(g, n) {
        CoversNode(g, dominators, n);
        FixpointIsDominators(g, dominators, n);
      }
    }

    lemma CoversNode(g: Graph, doms: map<string, set<string>>, n: string)
      requires Covers(g, doms) && n in g.nodes
      ensures n in doms
    {
    }

    lemma Fixed(g: Graph)
      requires WellFormed(g) && Covers(g, dominators) && FixedUpTo(g, |g.nodes|)
      requires dominators[Entry(g)] == {Entry(g)}
      ensures IsFixpoint(g, dominators)
    {
      hide Flow;
      forall n | n in g.nodes && n != Entry(g)
        ensures n in g.preds
          && (forall q :: q in g.preds[n] ==> q in dominators) && dominators[n] == Flow(g, dominators, n)
      {
        var i :| 0 <= i < |g.nodes| && g.nodes[i] == n;
        PredsCovered(g, dominators, n);
        assert FixedAt(g, n);
      }
    }

    ghost predicate FixedAt(g: Graph, n: string)
      reads this
    {
      n in dominators && n in g.preds
        && (forall q :: q in g.preds[n] ==> q in dominators) && dominators[n] == Flow(g, dominators, n)
    }

    ghost predicate FixedUpTo(g: Graph, k: nat)
      reads this
    {
      forall i :: 1 <= i < k && i < |g.nodes| ==> FixedAt(g, g.nodes[i])
    }

    /** One pass over the blocks after the entry; `changed` if some set became smaller. */
    method OnePass(g: Graph) returns (changed: bool)
      requires WellFormed(g) && Covers(g, dominators) && Above(g, dominators) && Shrinking(g, dominators)
      requires Entry(g) in dominators && dominators[Entry(g)] == {Entry(g)}
      modifies `dominators
      ensures Covers(g, dominators) && Above(g, dominators) && Shrinking(g, dominators)
      ensures Entry(g) in dominators && dominators[Entry(g)] == {Entry(g)}
      ensures Weight(g.nodes, dominators) <= Weight(g.nodes, old(dominators))
      ensures changed ==> Weight(g.nodes, dominators) < Weight(g.nodes, old(dominators))
      ensures !changed ==> FixedUpTo(g, |g.nodes|)
    {
      hide Weight, Covers, Above, Flow;
      changed := false;
      var i := 1;
      while i < |g.nodes|
        invariant 1 <= i <= |g.nodes| || (i == 1 && |g.nodes| == 0)
        invariant Covers(g, dominators) && Above(g, dominators) && Shrinking(g, dominators)
        invariant Entry(g) in dominators && dominators[Entry(g)] == {Entry(g)}
        invariant Weight(g.nodes, dominators) <= Weight(g.nodes, old(dominators))
        invariant changed ==> Weight(g.nodes, dominators) < Weight(g.nodes, old(dominators))
        invariant !changed ==> FixedUpTo(g, i)
      {
        var n := g.nodes[i];
        assert ShrinksAt(g, dominators, n);
        var newDom := MeetPreds(g, n);
        newDom := newDom + {n};
        assert newDom == Flow(g, dominators, n) by { FlowIs(g, dominators, n, newDom); }
        if newDom != dominators[n] {
          UpdateKeeps(g, dominators, n);
          WeightDrops(g.nodes, dominators, n, newDom);
          dominators := dominators[n := newDom];
          changed := true;
        } else {
          assert FixedAt(g, n);
        }
        i := i + 1;
      }
    }

    lemma FlowIs(g: Graph, doms: map<string, set<string>>, n: string, s: set<string>)
      requires n in g.preds && forall q :: q in g.preds[n] ==> q in doms
      requires s == Meet(All(g), doms, g.preds[n]) + {n}
      ensures s == Flow(g, doms, n)
    {
    }

    method MeetPreds(g: Graph, n: string) returns (newDom: set<string>)
      requires n in g.preds && forall q :: q in g.preds[n] ==> q in dominators
      ensures newDom == Meet(All(g), dominators, g.preds[n])
    {
      newDom := All(g);
      var preds, k := g.preds[n], 0;
      while k < |preds|
        invariant 0 <= k <= |preds| && newDom == Meet(All(g), dominators, preds[..k])
      {
        assert preds[..k + 1][..k] == preds[..k];
        newDom := newDom * dominators[preds[k]];
        k := k + 1;
      }
      assert preds[..k] == preds;
    }

    // ----- immediate dominators

    /** Whether no other strict dominator of n is dominated by d; the set is visited in any order. */
    method IsImmediate(g: Graph, d: string, n: string) returns (isImmediate: bool)
      requires HasDominators(g) && n in g.nodes && d in dominators[n] && d != n
      ensures isImmediate <==> NoneBelow(g, d, n)
    {
      hide Dominates;
      isImmediate := true;
      var rest := dominators[n];
      while rest != {} && isImmediate
        invariant rest <= dominators[n]
        invariant isImmediate ==> forall o :: o in dominators[n] - rest && o != n && o != d ==> !Dominates(g, d, o)
        invariant !isImmediate ==> exists o :: o in dominators[n] && o != n && o != d && Dominates(g, d, o)
        decreases |rest|
      {
        var otherDom :| otherDom in rest;
        if otherDom != n && otherDom != d && d in dominators[otherDom] { isImmediate := false; }
        rest := rest - {otherDom};
      }
      forall o ensures StrictlyDominates(g, o, n) <==> o in dominators[n] && o != n {}
    }

    method ComputeImmediateDominators(g: Graph)
      requires WellFormed(g) && HasDominators(g) && AllReachable(g)
      modifies `idom
      ensures HasIdoms(g)
    {
      hide Dominates, Reachable, IsIdom;
      idom := map[];
      var i := 0;
      while i < |g.nodes|
        invariant 0 <= i <= |g.nodes|
        invariant forall n :: n in idom ==> n in g.nodes[..i]
        invariant forall n ::
          n in g.nodes[..i] ==> (n in idom <==> n != Entry(g)) && (n in idom ==> IsIdom(g, idom[n], n))
      {
        FindIdom(g, g.nodes[i]);
        assert g.nodes[..i + 1] == g.nodes[..i] + [g.nodes[i]];
        i := i + 1;
      }
      assert g.nodes[..i] == g.nodes;
    }

    /** Tries the dominators of n in any order; exactly one passes the test. */
    method FindIdom(g: Graph, n: string)
      requires WellFormed(g) && HasDominators(g) && AllReachable(g) && n in g.nodes && n !in idom
      modifies `idom
      ensures forall m :: m != n ==> (m in idom <==> m in old(idom)) && (m in idom ==> idom[m] == old(idom)[m])
      ensures (n in idom <==> n != Entry(g)) && (n in idom ==> IsIdom(g, idom[n], n))
    {
      hide Dominates, Reachable, IsIdom, NoneBelow;
      var rest := dominators[n];
      while rest != {}
        invariant rest <= dominators[n]
        invariant forall m :: m != n ==> (m in idom <==> m in old(idom)) && (m in idom ==> idom[m] == old(idom)[m])
        invariant n in idom ==> IsIdom(g, idom[n], n)
        invariant n !in idom ==> forall d :: d in dominators[n] - rest && d != n ==> !NoneBelow(g, d, n)
        decreases |rest|
      {
        var dom :| dom in rest;
        if dom != n {
          var isImmediate := IsImmediate(g, dom, n);
          NoneBelowIsIdom(g, dom, n);
          if isImmediate { idom := idom[n := dom]; }
        }
        rest := rest - {dom};
      }
      OneIdom(g, n);
    }

    lemma OneIdom(g: Graph, n: string)
      requires WellFormed(g) && HasDominators(g) && AllReachable(g) && n in g.nodes
      ensures n == Entry(g) ==> forall d :: !IsIdom(g, d, n)
      ensures n != Entry(g) ==> exists d :: d in dominators[n] && d != n && NoneBelow(g, d, n)
    {
      hide Dominates, NoneBelow;
      if n == Entry(g) {
        EntryAlone(g);
      } else {
        var d := HasIdom(g, n);
        NoneBelowIsIdom(g, d, n);
        assert d in DominatorsOf(g, n);
      }
    }

    lemma EntryAlone(g: Graph)
      requires |g.nodes| > 0
      ensures forall d :: Dominates(g, d, Entry(g)) ==> d == Entry(g)
    {
      assert PathTo(g, [Entry(g)], Entry(g));
    }

    // ----- frontiers

    ghost function Frontier(n: string): set<string>
      reads `dominanceFrontiers
    {
      if n in dominanceFrontiers then dominanceFrontiers[n] else {}
    }

    /** Walks up from one predecessor of b to b's immediate dominator. */
    method WalkUp(g: Graph, b: string, pred: string) returns (ghost seen: set<string>)
      requires WellFormed(g) && AllReachable(g) && HasIdoms(g) && b in g.nodes && b != Entry(g) && Edge(g, pred, b)
      modifies `dominanceFrontiers
      ensures forall n :: Frontier(n) == if n in seen then old(Frontier(n)) + {b} else old(Frontier(n))
      ensures forall n :: n in seen ==> n in g.nodes && InFrontier(g, n, b)
      ensures forall n :: n in g.nodes && Dominates(g, n, pred) && !StrictlyDominates(g, n, b) ==> n in seen
    {
      hide Dominates, Reachable, IsIdom, InFrontier;
      seen := {};
      ghost var d := idom[b];
      var runner := pred;
      PredIsNode(g, pred, b);
      WalkStart(g, b, pred);
      IdomAbovePreds(g, d, b, pred);
      while runner != idom[b]
        invariant WalkInv(g, b, pred, runner, seen) && Dominates(g, d, runner)
        invariant forall n :: Frontier(n) == if n in seen then old(Frontier(n)) + {b} else old(Frontier(n))
        decreases |DominatorsOf(g, runner)|
      {
        dominanceFrontiers :=
          dominanceFrontiers[runner := (if runner in dominanceFrontiers then dominanceFrontiers[runner] else {}) + {b}];
        NotEntry(g, d, runner);
        WalkStep(g, b, d, pred, runner, seen, idom[runner]);
        UpIsSmaller(g, idom[runner], runner);
        seen := seen + {runner};
        runner := idom[runner];
      }
      forall n | n in g.nodes && Dominates(g, n, pred) && !StrictlyDominates(g, n, b) ensures n in seen {
        WalkEnd(g, b, d, pred, seen, n);
      }
    }

    lemma PredIsNode(g: Graph, q: string, b: string)
      requires WellFormed(g) && Edge(g, q, b)
      ensures q in g.nodes
    {
      var i :| 0 <= i < |g.preds[b]| && g.preds[b][i] == q;
    }

    lemma NotEntry(g: Graph, d: string, r: string)
      requires |g.nodes| > 0 && Dominates(g, d, r) && d != r
      ensures r != Entry(g)
    {
      EntryAlone(g);
    }

    lemma UpIsSmaller(g: Graph, up: string, r: string)
      requires IsIdom(g, up, r) && Reachable(g, r) && r in g.nodes
      ensures |DominatorsOf(g, up)| < |DominatorsOf(g, r)|
    {
      hide Dominates, Reachable;
      if Dominates(g, r, up) {
        SameNode(g, r, up);
      } else {
        FewerDominators(g, up, r);
      }
    }

    method ComputeDominanceFrontiers(g: Graph)
      requires WellFormed(g) && AllReachable(g) && HasIdoms(g) && g.preds[Entry(g)] == []
      modifies `dominanceFrontiers
      ensures HasFrontiers(g)
    {
      hide Dominates, Reachable, IsIdom, InFrontier;
      dominanceFrontiers := map[];
      var i := 0;
      while i < |g.nodes|
        invariant 0 <= i <= |g.nodes|
        invariant forall n, b :: n in g.nodes ==> (b in Frontier(n) <==> b in g.nodes[..i] && InFrontier(g, n, b))
      {
        NextNode(g, i);
        ghost var node := g.nodes[i];
        JoinFrontiers(g, g.nodes[i]);
        forall n, b | n in g.nodes ensures b in Frontier(n) <==> b in g.nodes[..i + 1] && InFrontier(g, n, b) {
          assert b != node ==> (b in g.nodes[..i + 1] <==> b in g.nodes[..i]);
        }
        i := i + 1;
      }
      assert g.nodes[..i] == g.nodes;
    }

    lemma NextNode(g: Graph, i: nat)
      requires WellFormed(g) && i < |g.nodes|
      ensures forall b :: b in g.nodes[..i + 1] <==> b in g.nodes[..i] || b == g.nodes[i]
      ensures g.nodes[i] !in g.nodes[..i]
    {
      assert g.nodes[..i + 1] == g.nodes[..i] + [g.nodes[i]];
    }

    /** Puts b into the frontiers it is in, if it has several predecessors. */
    method JoinFrontiers(g: Graph, b: string)
      requires WellFormed(g) && AllReachable(g) && HasIdoms(g) && b in g.nodes && g.preds[Entry(g)] == []
      requires forall n :: n in g.nodes ==> b !in Frontier(n)
      modifies `dominanceFrontiers
      ensures forall n, c :: n in g.nodes && c != b ==> (c in Frontier(n) <==> c in old(Frontier(n)))
      ensures forall n :: n in g.nodes ==> (b in Frontier(n) <==> InFrontier(g, n, b))
    {
      hide Dominates, Reachable, IsIdom, InFrontier, WellFormed, HasIdoms;
      NodeHasPreds(g, b);
      var preds, k := g.preds[b], 0;
      if |preds| >= 2 {
        HasPreds(g, b);
        while k < |preds|
          invariant 0 <= k <= |preds|
          invariant forall n, c :: n in g.nodes && c != b ==> (c in Frontier(n) <==> c in old(Frontier(n)))
          invariant forall n :: n in g.nodes && b in Frontier(n) ==> InFrontier(g, n, b)
          invariant forall n, j ::
            n in g.nodes && 0 <= j < k && Dominates(g, n, preds[j]) && !StrictlyDominates(g, n, b) ==> b in Frontier(n)
        {
          var _ := WalkUp(g, b, preds[k]);
          k := k + 1;
        }
        forall n | n in g.nodes && InFrontier(g, n, b) ensures b in Frontier(n) { FrontierPred(g, n, b); }
      } else {
        forall n | n in g.nodes ensures !InFrontier(g, n, b) { FewPreds(g, n, b); }
      }
    }

    lemma NodeHasPreds(g: Graph, b: string)
      requires WellFormed(g) && b in g.nodes
      ensures b in g.preds && Entry(g) in g.preds
    {
    }

    lemma HasPreds(g: Graph, b: string)
      requires WellFormed(g) && b in g.nodes && g.preds[Entry(g)] == [] && |g.preds[b]| >= 2
      ensures b != Entry(g) && forall k :: 0 <= k < |g.preds[b]| ==> Edge(g, g.preds[b][k], b)
    {
    }

    lemma FrontierPred(g: Graph, n: string, b: string)
      requires InFrontier(g, n, b) && b in g.preds
      ensures !StrictlyDominates(g, n, b) && exists j :: 0 <= j < |g.preds[b]| && Dominates(g, n, g.preds[b][j])
    {
      hide Dominates;
      var q :| Edge(g, q, b) && Dominates(g, n, q);
      var j :| 0 <= j < |g.preds[b]| && g.preds[b][j] == q;
    }

    lemma FewPreds(g: Graph, n: string, b: string)
      requires WellFormed(g) && AllReachable(g) && b in g.nodes && n in g.nodes && g.preds[Entry(g)] == []
        && |g.preds[b]| < 2
      ensures !InFrontier(g, n, b)
    {
      hide Dominates;
      if b == Entry(g) {
        assert forall q :: !Edge(g, q, b);
      } else {
        SinglePred(g, n, b);
      }
    }

    /** The three tables of a function. */
    method ComputeDominance(func: seq<SSABasicBlock>)
      requires |func| > 0 && DistinctNames(func) && AllReachable(CfgOf(func)) && PredsOf(func, func[0].name) == []
      modifies this
      ensures var g := CfgOf(func); HasDominators(g) && HasIdoms(g) && HasFrontiers(g)
    {
      hide AllReachable, WellFormed, PredsOf, Dominates, InFrontier, IsIdom;
      var preds := BuildCFG(func);
      var g := Graph(Names(func), preds);
      assert g == CfgOf(func);
      CfgWellFormed(func);
      ComputeDominators(g);
      ComputeImmediateDominators(g);
      ComputeDominanceFrontiers(g);
    }
  }
}
