/** Dominators of a control-flow graph by paths, and what characterises them: the fixpoint of the data
    flow equations, immediate dominators, and dominance frontiers (src/middleend/opt/Dominance.hpp). */
module Dominance {

  /** Labels in block order, the entry first, and the predecessors of each. */
  datatype Graph = Graph(nodes: seq<string>, preds: map<string, seq<string>>)

  ghost predicate WellFormed(g: Graph) {
    && |g.nodes| > 0 && (forall i, j :: 0 <= i < j < |g.nodes| ==> g.nodes[i] != g.nodes[j])
    && (forall n :: n in g.nodes <==> n in g.preds)
    && (forall n :: n in g.preds ==> forall i :: 0 <= i < |g.preds[n]| ==> g.preds[n][i] in g.nodes)
  }

  function Entry(g: Graph): string
    requires |g.nodes| > 0
  {
    g.nodes[0]
  }

  function All(g: Graph): set<string> {
    set n | n in g.nodes
  }

  predicate Edge(g: Graph, a: string, b: string) {
    b in g.preds && a in g.preds[b]
  }

  ghost predicate IsWalk(g: Graph, p: seq<string>) {
    |p| > 0 && forall i, j :: 0 <= i && j == i + 1 && j < |p| ==> Edge(g, p[i], p[j])
  }

  /** A path from the entry to n. */
  ghost predicate PathTo(g: Graph, p: seq<string>, n: string) {
    |g.nodes| > 0 && IsWalk(g, p) && p[0] == Entry(g) && p[|p| - 1] == n
  }

  ghost predicate Reachable(g: Graph, n: string) {
    exists p :: PathTo(g, p, n)
  }

  /** d is on every path from the entry to n. */
  ghost predicate Dominates(g: Graph, d: string, n: string) {
    forall p :: PathTo(g, p, n) ==> d in p
  }

  ghost function DominatorsOf(g: Graph, n: string): set<string> {
    set d | d in g.nodes && Dominates(g, d, n)
  }

  lemma Extend(g: Graph, p: seq<string>, a: string, b: string)
    requires PathTo(g, p, a) && Edge(g, a, b)
    ensures PathTo(g, p + [b], b)
  {
  }

  lemma Shorten(g: Graph, p: seq<string>, k: nat)
    requires |p| > 0 && PathTo(g, p, p[|p| - 1]) && k < |p|
    ensures PathTo(g, p[..k + 1], p[k])
  {
  }

  /** Every path to n through its last edge. */
  lemma DominatesPred(g: Graph, d: string, q: string, n: string)
    requires Dominates(g, d, n) && Edge(g, q, n) && d != n
    ensures Dominates(g, d, q)
  {
    forall p | PathTo(g, p, q) ensures d in p {
      Extend(g, p, q, n);
      assert d in p + [n];
    }
  }

  // ----- the data flow equations

  function Meet(all: set<string>, doms: map<string, set<string>>, preds: seq<string>): (r: set<string>)
    requires forall q :: q in preds ==> q in doms
    ensures r <= all
  {
    if preds == [] then all else Meet(all, doms, preds[..|preds| - 1]) * doms[preds[|preds| - 1]]
  }

  lemma {:induction false} MeetMeans(all: set<string>, doms: map<string, set<string>>, preds: seq<string>, d: string)
    requires forall q :: q in preds ==> q in doms
    ensures d in Meet(all, doms, preds) <==> d in all && forall q :: q in preds ==> d in doms[q]
    decreases |preds|
  {
    if preds != [] {
      var init, q := preds[..|preds| - 1], preds[|preds| - 1];
      MeetMeans(all, doms, init, d);
      assert preds == init + [q];
    }
  }

  ghost predicate Covers(g: Graph, doms: map<string, set<string>>) {
    forall n :: n in g.nodes ==> n in doms && doms[n] <= All(g)
  }

  function Flow(g: Graph, doms: map<string, set<string>>, n: string): set<string>
    requires n in g.preds && forall q :: q in g.preds[n] ==> q in doms
  {
    Meet(All(g), doms, g.preds[n]) + {n}
  }

  lemma FlowMeans(g: Graph, doms: map<string, set<string>>, n: string, d: string)
    requires n in g.preds && forall q :: q in g.preds[n] ==> q in doms
    ensures d in Flow(g, doms, n) <==> d == n || (d in g.nodes && forall q :: Edge(g, q, n) ==> d in doms[q])
  {
    MeetMeans(All(g), doms, g.preds[n], d);
    assert forall q :: q in g.preds[n] <==> Edge(g, q, n);
  }

  lemma PredsCovered(g: Graph, doms: map<string, set<string>>, n: string)
    requires WellFormed(g) && Covers(g, doms) && n in g.nodes
    ensures n in g.preds && forall q :: q in g.preds[n] ==> q in doms && q in g.nodes
  {
    forall q | q in g.preds[n] ensures q in doms && q in g.nodes {
      var i :| 0 <= i < |g.preds[n]| && g.preds[n][i] == q;
    }
  }

  /** No dominator has been lost. */
  ghost predicate Above(g: Graph, doms: map<string, set<string>>) {
    forall n :: n in g.nodes && n in doms ==> DominatorsOf(g, n) <= doms[n]
  }

  /** Applying the equation loses no dominator. */
  lemma FlowAbove(g: Graph, doms: map<string, set<string>>, n: string)
    requires WellFormed(g) && Covers(g, doms) && Above(g, doms) && n in g.nodes
    requires forall q :: q in g.preds[n] ==> q in doms
    ensures DominatorsOf(g, n) <= Flow(g, doms, n)
  {
    hide Dominates;
    forall d | d in DominatorsOf(g, n) ensures d in Flow(g, doms, n) {
      FlowMeans(g, doms, n, d);
      forall q | Edge(g, q, n) && d != n ensures d in doms[q] {
        DominatesPred(g, d, q, n);
        PredsCovered(g, doms, n);
        assert d in DominatorsOf(g, q);
      }
    }
  }

  ghost predicate IsFixpoint(g: Graph, doms: map<string, set<string>>)
    requires WellFormed(g) && Covers(g, doms)
  {
    && doms[Entry(g)] == {Entry(g)}
    && forall n :: n in g.nodes && n != Entry(g) ==>
         n in g.preds && (forall q :: q in g.preds[n] ==> q in doms) && doms[n] == Flow(g, doms, n)
  }

  /** At a fixpoint every node of doms[n] is on every path to n. */
  lemma {:induction false} FixpointOnPath(g: Graph, doms: map<string, set<string>>, p: seq<string>, n: string,
      d: string)
    requires WellFormed(g) && Covers(g, doms) && IsFixpoint(g, doms)
    requires PathTo(g, p, n) && n in g.nodes && d in doms[n]
    ensures d in p
    decreases |p|
  {
    if n != Entry(g) && d != n {
      var k := |p| - 2;
      assert Edge(g, p[k], p[k + 1]);
      FlowMeans(g, doms, n, d);
      PredsCovered(g, doms, n);
      Shorten(g, p, k);
      FixpointOnPath(g, doms, p[..k + 1], p[k], d);
    }
  }

  /** A fixpoint that has lost no dominator is the dominator sets. */
  lemma FixpointIsDominators(g: Graph, doms: map<string, set<string>>, n: string)
    requires WellFormed(g) && Covers(g, doms) && IsFixpoint(g, doms) && Above(g, doms) && n in g.nodes
    ensures doms[n] == DominatorsOf(g, n)
  {
    hide IsFixpoint;
    forall d | d in doms[n] ensures d in DominatorsOf(g, n) {
      forall p | PathTo(g, p, n) ensures d in p { FixpointOnPath(g, doms, p, n, d); }
    }
  }

  // ----- the order of dominators

  lemma DominatesSelf(g: Graph, n: string)
    ensures Dominates(g, n, n)
  {
  }

  lemma EntryDominates(g: Graph, n: string)
    requires |g.nodes| > 0
    ensures Dominates(g, Entry(g), n)
  {
  }

  lemma DominatesTrans(g: Graph, a: string, b: string, c: string)
    requires Dominates(g, a, b) && Dominates(g, b, c)
    ensures Dominates(g, a, c)
  {
    forall p | PathTo(g, p, c) ensures a in p {
      var k :| 0 <= k < |p| && p[k] == b;
      Shorten(g, p, k);
      assert a in p[..k + 1];
    }
  }

  lemma {:induction false} Antisymmetric(g: Graph, a: string, b: string, p: seq<string>)
    requires Dominates(g, a, b) && Dominates(g, b, a) && PathTo(g, p, a)
    ensures a == b
    decreases |p|
  {
    var k :| 0 <= k < |p| && p[k] == b;
    Shorten(g, p, k);
    var j :| 0 <= j < |p[..k + 1]| && p[..k + 1][j] == a;
    if a != b {
      Shorten(g, p, j);
      Antisymmetric(g, a, b, p[..j + 1]);
    }
  }

  /** The last place of x in p. */
  function Last(p: seq<string>, x: string): (k: nat)
    requires x in p
    ensures k < |p| && p[k] == x && forall i :: k < i < |p| ==> p[i] != x
  {
    if p[|p| - 1] == x then |p| - 1 else Last(p[..|p| - 1], x)
  }

  /** A path to some node, continued along another path from there. */
  lemma Splice(g: Graph, q: seq<string>, p: seq<string>, k: nat)
    requires |p| > 0 && PathTo(g, p, p[|p| - 1]) && k < |p| && PathTo(g, q, p[k])
    ensures PathTo(g, q + p[k + 1..], p[|p| - 1])
  {
    var r := q + p[k + 1..];
    forall i, j | 0 <= i && j == i + 1 && j < |r| ensures Edge(g, r[i], r[j]) {
      if j < |q| {
        assert Edge(g, q[i], q[j]);
      } else if i < |q| {
        assert r[i] == p[k] && r[j] == p[k + 1];
        assert Edge(g, p[k], p[k + 1]);
      } else {
        var a := k + 1 + i - |q|;
        assert r[i] == p[a] && r[j] == p[a + 1];
      }
    }
  }

  lemma LaterDominates(g: Graph, a: string, b: string, p: seq<string>, n: string)
    requires Dominates(g, a, n) && PathTo(g, p, n) && a in p && b in p && Last(p, a) < Last(p, b)
    ensures Dominates(g, a, b)
  {
    forall q | PathTo(g, q, b) ensures a in q {
      var k := Last(p, b);
      Splice(g, q, p, k);
      assert a in q + p[k + 1..];
      assert a !in p[k + 1..];
    }
  }

  /** The dominators of a reachable node are in line. */
  lemma Comparable(g: Graph, a: string, b: string, n: string)
    requires Dominates(g, a, n) && Dominates(g, b, n) && Reachable(g, n)
    ensures Dominates(g, a, b) || Dominates(g, b, a)
  {
    var p :| PathTo(g, p, n);
    if Last(p, a) < Last(p, b) {
      LaterDominates(g, a, b, p, n);
    } else if Last(p, b) < Last(p, a) {
      LaterDominates(g, b, a, p, n);
    } else {
      DominatesSelf(g, a);
    }
  }

  // ----- immediate dominators

  ghost predicate StrictlyDominates(g: Graph, d: string, n: string) {
    d != n && d in g.nodes && Dominates(g, d, n)
  }

  /** The closest strict dominator: all others dominate it. */
  ghost predicate IsIdom(g: Graph, d: string, n: string) {
    StrictlyDominates(g, d, n) && forall o :: StrictlyDominates(g, o, n) ==> Dominates(g, o, d)
  }

  lemma DominatorIsReachable(g: Graph, d: string, n: string)
    requires Dominates(g, d, n) && Reachable(g, n)
    ensures Reachable(g, d)
  {
    var p :| PathTo(g, p, n);
    var k :| 0 <= k < |p| && p[k] == d;
    Shorten(g, p, k);
  }

  lemma IdomUnique(g: Graph, a: string, b: string, n: string)
    requires IsIdom(g, a, n) && IsIdom(g, b, n) && Reachable(g, n)
    ensures a == b
  {
    hide Dominates, Reachable;
    DominatorIsReachable(g, a, n);
    SameNode(g, a, b);
  }

  lemma SameNode(g: Graph, a: string, b: string)
    requires Dominates(g, a, b) && Dominates(g, b, a) && Reachable(g, a)
    ensures a == b
  {
    hide Dominates;
    var p :| PathTo(g, p, a);
    Antisymmetric(g, a, b, p);
  }

  /** The test the analyzer makes: no other strict dominator is dominated by d. */
  ghost predicate NoneBelow(g: Graph, d: string, n: string) {
    StrictlyDominates(g, d, n) && forall o :: StrictlyDominates(g, o, n) && o != d ==> !Dominates(g, d, o)
  }

  lemma NoneBelowIsIdom(g: Graph, d: string, n: string)
    requires Reachable(g, n)
    ensures NoneBelow(g, d, n) <==> IsIdom(g, d, n)
  {
    hide Dominates, Reachable;
    DominatesSelf(g, d);
    if NoneBelow(g, d, n) {
      forall o | StrictlyDominates(g, o, n) ensures Dominates(g, o, d) { Comparable(g, d, o, n); }
    }
    if IsIdom(g, d, n) {
      DominatorIsReachable(g, d, n);
      forall o | StrictlyDominates(g, o, n) && o != d ensures !Dominates(g, d, o) {
        if Dominates(g, d, o) { SameNode(g, d, o); }
      }
    }
  }

  ghost function StrictDominators(g: Graph, n: string): set<string> {
    set d | d in g.nodes && StrictlyDominates(g, d, n)
  }

  lemma FewerDominators(g: Graph, a: string, b: string)
    requires Dominates(g, a, b) && !Dominates(g, b, a) && b in g.nodes
    ensures |DominatorsOf(g, a)| < |DominatorsOf(g, b)|
  {
    hide Dominates;
    var x, y := DominatorsOf(g, a), DominatorsOf(g, b);
    forall d | d in x ensures d in y { DominatesTrans(g, d, a, b); }
    DominatesSelf(g, b);
    assert b in y && b !in x;
    Smaller(x, y, b);
  }

  lemma Smaller(x: set<string>, y: set<string>, d: string)
    requires x <= y && d in y && d !in x
    ensures |x| < |y|
  {
    assert x <= y - {d};
    SubsetSize(x, y - {d});
  }

  lemma {:induction false} SubsetSize(x: set<string>, y: set<string>)
    requires x <= y
    ensures |x| <= |y|
    decreases |x|
  {
    if x != {} {
      var d :| d in x;
      SubsetSize(x - {d}, y - {d});
    }
  }

  /** Of any nonempty set of strict dominators, one is dominated by all the others. */
  lemma {:induction false} Closest(g: Graph, s: set<string>, n: string) returns (d: string)
    requires s != {} && (forall o :: o in s ==> StrictlyDominates(g, o, n)) && Reachable(g, n)
    ensures d in s && forall o :: o in s ==> Dominates(g, o, d)
    decreases |s|
  {
    hide Dominates, Reachable;
    d :| d in s;
    DominatesSelf(g, d);
    if s - {d} != {} {
      var e := Closest(g, s - {d}, n);
      Comparable(g, d, e, n);
      if Dominates(g, e, d) {
        forall o | o in s ensures Dominates(g, o, d) {
          if o != d {
            assert o in s - {d};
            DominatesTrans(g, o, e, d);
          }
        }
      } else {
        forall o | o in s ensures Dominates(g, o, e) { assert o == d || o in s - {d}; }
        d := e;
      }
    } else {
      assert s == (s - {d}) + {d};
    }
  }

  /** Every reachable node but the entry has an immediate dominator. */
  lemma HasIdom(g: Graph, n: string) returns (d: string)
    requires |g.nodes| > 0 && Reachable(g, n) && n != Entry(g)
    ensures IsIdom(g, d, n)
  {
    hide Dominates, Reachable;
    EntryDominates(g, n);
    assert Entry(g) in StrictDominators(g, n);
    d := Closest(g, StrictDominators(g, n), n);
  }

  /** The strict dominators of n are the dominators of its immediate dominator. */
  lemma AboveIdom(g: Graph, d: string, n: string, o: string)
    requires IsIdom(g, d, n) && Reachable(g, n) && o in g.nodes
    ensures StrictlyDominates(g, o, n) <==> Dominates(g, o, d)
  {
    hide Dominates, Reachable;
    if Dominates(g, o, d) {
      DominatesTrans(g, o, d, n);
      if o == n {
        DominatorIsReachable(g, d, n);
        SameNode(g, d, n);
      }
    }
  }

  // ----- frontiers

  /** The frontier of n: blocks with a predecessor that n dominates, but not strictly dominated by n. */
  ghost predicate InFrontier(g: Graph, n: string, b: string) {
    (exists q :: Edge(g, q, b) && Dominates(g, n, q)) && !StrictlyDominates(g, n, b)
  }

  /** The immediate dominator of a node dominates all the node's predecessors. */
  lemma IdomAbovePreds(g: Graph, d: string, b: string, q: string)
    requires IsIdom(g, d, b) && Edge(g, q, b)
    ensures Dominates(g, d, q)
  {
    DominatesPred(g, d, q, b);
  }

  /** A node with a single predecessor is in no frontier. */
  lemma SinglePred(g: Graph, n: string, b: string)
    requires WellFormed(g) && Reachable(g, b) && b in g.nodes && n in g.nodes && b != Entry(g) && |g.preds[b]| < 2
    ensures !InFrontier(g, n, b)
  {
    hide Reachable;
    forall q | Edge(g, q, b) && Dominates(g, n, q) ensures StrictlyDominates(g, n, b) {
      OnlyPred(g, q, b);
      DominatesTrans(g, n, q, b);
      if n == b {
        DominatorIsReachable(g, q, b);
        SameNode(g, b, q);
        NotItsOwnPred(g, b);
      }
    }
  }

  lemma OnlyPred(g: Graph, q: string, b: string)
    requires WellFormed(g) && b in g.nodes && b != Entry(g) && |g.preds[b]| < 2 && Edge(g, q, b)
    ensures Dominates(g, q, b)
  {
    forall p | PathTo(g, p, b) ensures q in p {
      var k := |p| - 2;
      assert Edge(g, p[k], p[k + 1]);
      assert p[k] == g.preds[b][0] == q;
    }
  }

  lemma NotItsOwnPred(g: Graph, b: string)
    requires WellFormed(g) && Reachable(g, b) && b in g.nodes && b != Entry(g) && |g.preds[b]| < 2 && Edge(g, b, b)
    ensures false
  {
    var p :| PathTo(g, p, b);
    OnlySelf(g, b, p);
  }

  lemma {:induction false} OnlySelf(g: Graph, b: string, p: seq<string>)
    requires WellFormed(g) && b in g.nodes && b != Entry(g) && |g.preds[b]| < 2 && Edge(g, b, b) && PathTo(g, p, b)
    ensures false
    decreases |p|
  {
    var k := |p| - 2;
    assert Edge(g, p[k], p[k + 1]);
    assert p[k] == g.preds[b][0] == b;
    Shorten(g, p, k);
    OnlySelf(g, b, p[..k + 1]);
  }

  // ----- walking up from a predecessor

  /** What the walk from predecessor q of b has seen when it has come up to r. */
  ghost predicate WalkInv(g: Graph, b: string, q: string, r: string, seen: set<string>) {
    && r in g.nodes && Dominates(g, r, q) && seen <= All(g)
    && (forall n :: n in seen ==> InFrontier(g, n, b))
    && forall n :: n in g.nodes && Dominates(g, n, q) ==> Dominates(g, n, r) || n in seen
  }

  lemma WalkStart(g: Graph, b: string, q: string)
    requires q in g.nodes
    ensures WalkInv(g, b, q, q, {})
  {
    hide Dominates;
    DominatesSelf(g, q);
  }

  /** A node on the walk below the immediate dominator d of b is in whose frontier b is; the walk goes
      on from its immediate dominator. */
  lemma WalkStep(g: Graph, b: string, d: string, q: string, r: string, seen: set<string>, up: string)
    requires WalkInv(g, b, q, r, seen) && IsIdom(g, d, b) && Edge(g, q, b) && Dominates(g, d, r) && r != d
    requires Reachable(g, q) && Reachable(g, b) && IsIdom(g, up, r)
    ensures WalkInv(g, b, q, up, seen + {r}) && Dominates(g, d, up)
  {
    hide Dominates, Reachable;
    DominatorIsReachable(g, r, q);
    DominatesTrans(g, up, r, q);
    AboveIdom(g, up, r, d);
    if StrictlyDominates(g, r, b) { SameNode(g, r, d); }
    assert InFrontier(g, r, b);
    forall n | n in g.nodes && Dominates(g, n, q) ensures Dominates(g, n, up) || n in seen + {r} {
      AboveIdom(g, up, r, n);
    }
  }

  /** When the walk reaches d it has seen every node, dominating the predecessor, in whose frontier b is. */
  lemma WalkEnd(g: Graph, b: string, d: string, q: string, seen: set<string>, n: string)
    requires WalkInv(g, b, q, d, seen) && IsIdom(g, d, b) && Reachable(g, b) && n in g.nodes
    requires Dominates(g, n, q) && !StrictlyDominates(g, n, b)
    ensures n in seen
  {
    hide Dominates, Reachable;
    AboveIdom(g, d, b, n);
  }
}
