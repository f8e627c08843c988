/** Graph-colouring allocation, src/backend/regalloc/GraphColoring.hpp: nodes are removed one by one, of
    low degree where there is one, else of greatest degree, and coloured in the opposite order.

    The order in which the node table is walked is left open. The colours always come from the list of
    floating-point registers, for integer nodes too, as the code has it (line 113); nothing below depends
    on which list it is, only on its length. */
module GraphColoring {
  import LinearScan

  type LiveInterval = LinearScan.LiveInterval

  /** The interference graph. */
  type Graph = map<string, set<string>>

  ghost predicate DistinctNames(ivs: seq<LiveInterval>) {
    forall i, j :: 0 <= i < j < |ivs| ==> ivs[i].varName != ivs[j].varName
  }

  /** Two of the intervals up to `n`, or of the n-th and those up to m, overlap and are called so. */
  ghost predicate Interferes(ivs: seq<LiveInterval>, i: nat, j: nat, p: string, q: string) {
    i < |ivs| && j < |ivs| && i != j && ivs[i].varName == p && ivs[j].varName == q
      && LinearScan.Overlaps(ivs[i], ivs[j])
  }

  ghost predicate IsGraphOf(g: Graph, ivs: seq<LiveInterval>) {
    && (forall p :: p in g <==> exists i :: 0 <= i < |ivs| && ivs[i].varName == p)
    && forall p, q :: p in g ==> (q in g[p] <==> exists i: nat, j: nat :: Interferes(ivs, i, j, p, q))
  }

  ghost predicate WellFormed(g: Graph) {
    && "" !in g && (forall p, q :: p in g && q in g[p] ==> q in g && p in g[q] && p != q)
  }

  lemma GraphWellFormed(g: Graph, ivs: seq<LiveInterval>)
    requires IsGraphOf(g, ivs) && DistinctNames(ivs) && forall i :: 0 <= i < |ivs| ==> ivs[i].varName != ""
    ensures WellFormed(g)
  {
    forall p, q | p in g && q in g[p] ensures q in g && p in g[q] && p != q {
      var i: nat, j: nat :| Interferes(ivs, i, j, p, q);
      assert Interferes(ivs, j, i, q, p);
    }
  }

  // ----- building

  /** Pairs (i, j) with i < j that the double loop has seen. */
  ghost predicate SeenPair(i: nat, j: nat, a: nat, b: nat) {
    (i < j && (i < a || (i == a && j < b))) || (j < i && (j < a || (j == a && i < b)))
  }

  ghost predicate PartialGraph(g: Graph, ivs: seq<LiveInterval>, a: nat, b: nat) {
    && (forall p :: p in g <==> exists i :: 0 <= i < |ivs| && ivs[i].varName == p)
    && forall p, q ::
      p in g ==> (q in g[p] <==> exists i: nat, j: nat :: Interferes(ivs, i, j, p, q) && SeenPair(i, j, a, b))
  }

  lemma AddPair(g: Graph, g': Graph, ivs: seq<LiveInterval>, a: nat, b: nat)
    requires PartialGraph(g, ivs, a, b) && a < b < |ivs| && DistinctNames(ivs)
    requires var p, q := ivs[a].varName, ivs[b].varName;
      p in g && q in g && p != q
      && g' == if LinearScan.Overlaps(ivs[a], ivs[b]) then g[p := g[p] + {q}][q := g[q] + {p}] else g
    ensures PartialGraph(g', ivs, a, b + 1)
  {
    var p, q := ivs[a].varName, ivs[b].varName;
    assert LinearScan.Overlaps(ivs[a], ivs[b]) == LinearScan.Overlaps(ivs[b], ivs[a]);
    forall x, y | x in g'
      ensures y in g'[x] <==> exists i: nat, j: nat :: Interferes(ivs, i, j, x, y) && SeenPair(i, j, a, b + 1) {
      if y in g'[x] {
        if y in g[x] {
          var i: nat, j: nat :| Interferes(ivs, i, j, x, y) && SeenPair(i, j, a, b);
          assert SeenPair(i, j, a, b + 1);
        } else if x == p {
          assert Interferes(ivs, a, b, x, y) && SeenPair(a, b, a, b + 1);
        } else {
          assert Interferes(ivs, b, a, x, y) && SeenPair(b, a, a, b + 1);
        }
      }
      if i: nat, j: nat :| Interferes(ivs, i, j, x, y) && SeenPair(i, j, a, b + 1) {
        assert SeenPair(i, j, a, b) || (i == a && j == b) || (i == b && j == a);
      }
    }
  }

  method BuildGraph(intervals: seq<LiveInterval>) returns (graph: Graph)
    requires DistinctNames(intervals)
    ensures IsGraphOf(graph, intervals)
  {
    graph := map[];
    var n := 0;
    while n < |intervals|
      invariant 0 <= n <= |intervals| && forall p :: p in graph <==> exists i :: 0 <= i < n && intervals[i].varName == p
      invariant forall p :: p in graph ==> graph[p] == {}
    {
      graph := graph[intervals[n].varName := {}];
      n := n + 1;
    }
    var i := 0;
    while i < |intervals|
      invariant 0 <= i <= |intervals| && PartialGraph(graph, intervals, i, i + 1)
    {
      var j := i + 1;
      while j < |intervals|
        invariant i + 1 <= j <= |intervals| && PartialGraph(graph, intervals, i, j)
      {
        var p, q := intervals[i].varName, intervals[j].varName;
        ghost var before := graph;
        if LinearScan.Overlaps(intervals[i], intervals[j]) {
          graph := graph[p := graph[p] + {q}];
          graph := graph[q := graph[q] + {p}];
        }
        AddPair(before, graph, intervals, i, j);
        j := j + 1;
      }
      NextRow(graph, intervals, i);
      i := i + 1;
    }
    AllPairs(graph, intervals);
  }

  lemma NextRow(g: Graph, ivs: seq<LiveInterval>, a: nat)
    requires PartialGraph(g, ivs, a, |ivs|) || (a + 1 > |ivs| && PartialGraph(g, ivs, a, a + 1))
    requires a < |ivs|
    ensures PartialGraph(g, ivs, a + 1, a + 2)
  {
    var b := if a + 1 > |ivs| then a + 1 else |ivs|;
    forall i: nat, j: nat | i < |ivs| && j < |ivs| && i != j
      ensures SeenPair(i, j, a, b) <==> SeenPair(i, j, a + 1, a + 2) {}
    forall x, y | x in g
      ensures y in g[x] <==> exists i: nat, j: nat :: Interferes(ivs, i, j, x, y) && SeenPair(i, j, a + 1, a + 2) {
      if y in g[x] {
        var i: nat, j: nat :| Interferes(ivs, i, j, x, y) && SeenPair(i, j, a, b);
        assert SeenPair(i, j, a + 1, a + 2);
      }
      if i: nat, j: nat :| Interferes(ivs, i, j, x, y) && SeenPair(i, j, a + 1, a + 2) {
        assert SeenPair(i, j, a, b);
      }
    }
  }

  lemma AllPairs(g: Graph, ivs: seq<LiveInterval>)
    requires PartialGraph(g, ivs, |ivs|, |ivs| + 1)
    ensures IsGraphOf(g, ivs)
  {
    forall x, y | x in g ensures y in g[x] <==> exists i: nat, j: nat :: Interferes(ivs, i, j, x, y) {
      if i: nat, j: nat :| Interferes(ivs, i, j, x, y) { assert SeenPair(i, j, |ivs|, |ivs| + 1); }
    }
  }

  // ----- simplifying

  function SetOf(s: seq<string>): set<string> {
    set x | x in s
  }

  /** Neighbours not removed yet. */
  function ActiveDegree(g: Graph, removed: set<string>, n: string): nat
    requires n in g
  {
    |g[n] - removed|
  }

  /** How the nodes were removed: each once; a node of `low` when fewer neighbours than its limit were
      left, any other when every node left had at least as many as its limit, as a node of greatest degree. */
  ghost predicate Removal(g: Graph, limit: map<string, nat>, order: seq<string>, low: set<string>) {
    && (forall i, j :: 0 <= i < j < |order| ==> order[i] != order[j])
    && (forall i :: 0 <= i < |order| ==> order[i] in g && RemovedRightly(g, limit, SetOf(order[..i]), order[i], low))
  }

  ghost predicate RemovedRightly(g: Graph, limit: map<string, nat>, removed: set<string>, n: string, low: set<string>)
    requires n in g
  {
    if n in low then n in limit && ActiveDegree(g, removed, n) < limit[n]
    else forall m :: m in g && m !in removed && m in limit ==>
           ActiveDegree(g, removed, m) >= limit[m] && ActiveDegree(g, removed, m) <= ActiveDegree(g, removed, n)
  }

  /** A node of low degree, in any order of the table; none if there is none. */
  method FindLow(g: Graph, limit: map<string, nat>, removed: set<string>) returns (n: string, progress: bool)
    requires g.Keys <= limit.Keys
    ensures progress ==> n in g && n !in removed && ActiveDegree(g, removed, n) < limit[n]
    ensures !progress ==> forall m :: m in g && m !in removed ==> ActiveDegree(g, removed, m) >= limit[m]
  {
    n, progress := "", false;
    var rest := g.Keys;
    while rest != {} && !progress
      invariant rest <= g.Keys
      invariant progress ==> n in g && n !in removed && ActiveDegree(g, removed, n) < limit[n]
      invariant !progress ==> forall m ::
        m in g && m !in rest && m !in removed ==> ActiveDegree(g, removed, m) >= limit[m]
      decreases |rest|
    {
      var m :| m in rest;
      if m !in removed && ActiveDegree(g, removed, m) < limit[m] { n, progress := m, true; }
      rest := rest - {m};
    }
  }

  /** A node of greatest degree among those left. */
  method FindMax(g: Graph, removed: set<string>) returns (maxNode: string)
    requires "" !in g
    ensures maxNode != "" ==> maxNode in g && maxNode !in removed
    ensures maxNode != "" ==> forall m ::
      m in g && m !in removed ==> ActiveDegree(g, removed, m) <= ActiveDegree(g, removed, maxNode)
    ensures maxNode == "" ==> g.Keys <= removed
  {
    maxNode := "";
    var maxDegree := 0;
    var rest := g.Keys;
    while rest != {}
      invariant rest <= g.Keys
      invariant maxNode == "" ==> maxDegree == 0 && g.Keys - rest <= removed
      invariant maxNode != "" ==> maxNode in g && maxNode !in removed && maxDegree == ActiveDegree(g, removed, maxNode)
      invariant forall m :: m in g && m !in rest && m !in removed ==> ActiveDegree(g, removed, m) <= maxDegree
      decreases |rest|
    {
      var m :| m in rest;
      if m !in removed && ActiveDegree(g, removed, m) >= maxDegree {
        maxDegree, maxNode := ActiveDegree(g, removed, m), m;
      }
      rest := rest - {m};
    }
  }

  /** One node is removed in every round, until none is left. */
  method Simplify(g: Graph, limit: map<string, nat>) returns (selectStack: seq<string>, ghost low: set<string>)
    requires "" !in g && g.Keys <= limit.Keys
    ensures Removal(g, limit, selectStack, low) && SetOf(selectStack) == g.Keys
  {
    selectStack, low := [], {};
    var removedNodes := {};
    while |removedNodes| < |g|
      invariant removedNodes == SetOf(selectStack) && removedNodes <= g.Keys && low <= removedNodes
      invariant Removal(g, limit, selectStack, low)
      decreases |g| - |removedNodes|
    {
      var n, progress := FindLow(g, limit, removedNodes);
      if progress {
        RemoveOne(g, limit, selectStack, low, low + {n}, n);
        selectStack := selectStack + [n];
        removedNodes := removedNodes + {n};
        low := low + {n};
      } else {
        var maxNode := FindMax(g, removedNodes);
        if maxNode == "" { SameSize(removedNodes, g.Keys); }
        RemoveOne(g, limit, selectStack, low, low, maxNode);
        selectStack := selectStack + [maxNode];
        removedNodes := removedNodes + {maxNode};
      }
    }
    Whole(removedNodes, g.Keys);
  }

  lemma SameSize(x: set<string>, y: set<string>)
    requires x <= y <= x
    ensures |x| == |y|
  {
    assert x == y;
  }

  lemma Whole(x: set<string>, y: set<string>)
    requires x <= y && |x| >= |y|
    ensures x == y
  {
    if d :| d in y && d !in x { Smaller(x, y - {d}); }
  }

  lemma {:induction false} Smaller<T>(x: set<T>, y: set<T>)
    requires x <= y
    ensures |x| <= |y|
    decreases |x|
  {
    if x != {} {
      var d :| d in x;
      Smaller(x - {d}, y - {d});
    }
  }

  lemma RemoveOne(g: Graph, limit: map<string, nat>, order: seq<string>, low: set<string>, low': set<string>, n: string)
    requires Removal(g, limit, order, low) && n in g && n !in SetOf(order) && low <= SetOf(order)
    requires (low' == low || low' == low + {n}) && RemovedRightly(g, limit, SetOf(order), n, low')
    ensures Removal(g, limit, order + [n], low') && SetOf(order + [n]) == SetOf(order) + {n}
  {
    hide ActiveDegree;
    var all := order + [n];
    forall i | 0 <= i < |all| ensures all[i] in g && RemovedRightly(g, limit, SetOf(all[..i]), all[i], low') {
      if i < |order| {
        assert all[..i] == order[..i];
        assert RemovedRightly(g, limit, SetOf(order[..i]), order[i], low);
        assert order[i] in SetOf(order);
      } else {
        assert all[..i] == order;
      }
    }
  }

  // ----- colouring

  ghost predicate Proper(g: Graph, color: map<string, int>) {
    forall p, q :: p in color && q in color && p in g && q in g[p] ==> color[p] != color[q]
  }

  function Used(g: Graph, color: map<string, int>, n: string): set<int>
    requires n in g
  {
    set q | q in g[n] && q in color :: color[q]
  }

  ghost predicate DistinctColors(pool: seq<int>) {
    forall i, j :: 0 <= i < j < |pool| ==> pool[i] != pool[j]
  }

  /** The first colour of the pool that is not used. */
  method FirstFree(pool: seq<int>, used: set<int>) returns (color: int, found: bool)
    ensures found ==> IsFirstFree(pool, used, color)
    ensures !found ==> NoneFree(pool, used)
  {
    color, found := -1, false;
    var i := 0;
    while i < |pool| && !found
      invariant 0 <= i <= |pool| && (found ==> IsFirstFree(pool, used, color))
      invariant !found ==> forall j :: 0 <= j < i ==> pool[j] in used
    {
      if pool[i] !in used { color, found := pool[i], true; }
      i := i + 1;
    }
  }

  ghost predicate IsFirstFree(pool: seq<int>, used: set<int>, color: int) {
    exists k :: 0 <= k < |pool| && pool[k] == color && color !in used && forall j :: 0 <= j < k ==> pool[j] in used
  }

  ghost predicate NoneFree(pool: seq<int>, used: set<int>) {
    forall j :: 0 <= j < |pool| ==> pool[j] in used
  }

  /** Colours of the neighbours that were removed later, and so coloured before. */
  function UsedLater(g: Graph, color: map<string, int>, n: string, later: set<string>): set<int>
    requires n in g
  {
    set q | q in g[n] && q in later && q in color :: color[q]
  }

  /** Greedy colouring: the node at a place of the stack has the first colour that no neighbour above it
      has, and has none only if they hold all. */
  ghost predicate ChosenAt(g: Graph, pool: seq<int>, stack: seq<string>, color: map<string, int>, i: nat)
    requires i < |stack|
  {
    var n := stack[i];
    && n in g
    && if n in color then IsFirstFree(pool, UsedLater(g, color, n, SetOf(stack[i + 1..])), color[n])
       else NoneFree(pool, UsedLater(g, color, n, SetOf(stack[i + 1..])))
  }

  ghost predicate Greedy(g: Graph, pool: seq<int>, stack: seq<string>, color: map<string, int>, top: nat)
    requires top <= |stack|
  {
    forall i :: top <= i < |stack| ==> ChosenAt(g, pool, stack, color, i)
  }

  lemma {:induction false} ImageSize(g: Graph, color: map<string, int>, n: string, s: set<string>)
    requires n in g && s <= g[n] && s <= color.Keys
    ensures |(set q | q in s :: color[q])| <= |s|
    decreases |s|
  {
    if s == {} {
      assert (set q | q in s :: color[q]) == {};
    } else {
      var x :| x in s;
      ImageSize(g, color, n, s - {x});
      assert (set q | q in s :: color[q]) == (set q | q in s - {x} :: color[q]) + {color[x]};
    }
  }

  function Colors(pool: seq<int>): set<int> {
    set c | c in pool
  }

  lemma {:induction false} PoolSize(pool: seq<int>)
    requires DistinctColors(pool)
    ensures |Colors(pool)| == |pool|
    decreases |pool|
  {
    if pool == [] {
      assert Colors(pool) == {};
    } else {
      var init, c := pool[..|pool| - 1], pool[|pool| - 1];
      PoolSize(init);
      assert pool == init + [c];
      assert Colors(pool) == Colors(init) + {c} && c !in Colors(init);
    }
  }

  /** A node with fewer coloured neighbours than there are colours gets one. */
  lemma EnoughColors(g: Graph, color: map<string, int>, n: string, active: set<string>, pool: seq<int>)
    requires n in g && DistinctColors(pool) && g[n] * color.Keys <= active && |active| < |pool|
    ensures exists c :: c in pool && c !in Used(g, color, n)
  {
    var s := g[n] * color.Keys;
    ImageSize(g, color, n, s);
    assert Used(g, color, n) == (set q | q in s :: color[q]);
    Smaller(s, active);
    PoolSize(pool);
    if forall c :: c in pool ==> c in Used(g, color, n) { Smaller(Colors(pool), Used(g, color, n)); }
  }

  /** Where every node ends up: a register of the pool different from its neighbours', or a slot of its own. */
  ghost predicate Assigned(g: Graph, pool: seq<int>, nodes: set<string>, color: map<string, int>,
      slots: map<string, int>, offset: int) {
    && color.Keys + slots.Keys == nodes && color.Keys !! slots.Keys && Proper(g, color)
    && (forall p :: p in color ==> color[p] in pool)
    && SlotsApart(slots, offset)
  }

  /** Slots of eight bytes, packed without overlap. */
  ghost predicate SlotsApart(slots: map<string, int>, offset: int) {
    && (forall p :: p in slots ==> offset <= slots[p] <= -8)
    && (forall p, q :: p in slots && q in slots && p != q ==> slots[p] + 8 <= slots[q] || slots[q] + 8 <= slots[p])
    && offset == -8 * |slots|
  }

  /** Nodes are taken off the stack; the neighbours coloured before are those removed later. */
  method Select(g: Graph, limit: map<string, nat>, selectStack: seq<string>, ghost low: set<string>, pool: seq<int>)
    returns (varToReg: map<string, int>, varToStack: map<string, int>, totalStackSpillBytes: int)
    requires WellFormed(g) && Removal(g, limit, selectStack, low) && SetOf(selectStack) == g.Keys
    requires DistinctColors(pool) && forall n :: n in limit ==> limit[n] <= |pool|
    ensures Assigned(g, pool, g.Keys, varToReg, varToStack, -totalStackSpillBytes)
    ensures Greedy(g, pool, selectStack, varToReg, 0)
    ensures forall n :: n in low && n in g ==> n in varToReg
  {
    hide ActiveDegree, WellFormed, DistinctColors, Removal, Assigned, Greedy;
    varToReg, varToStack := map[], map[];
    var currentSpillOffset := 0;
    var top := |selectStack|;
    NothingAssigned(g, pool, selectStack);
    assert Greedy(g, pool, selectStack, varToReg, top) by { GreedyNone(g, pool, selectStack); }
    while top > 0
      invariant 0 <= top <= |selectStack|
      invariant Assigned(g, pool, SetOf(selectStack[top..]), varToReg, varToStack, currentSpillOffset)
      invariant Greedy(g, pool, selectStack, varToReg, top)
      invariant forall n :: n in low && n in SetOf(selectStack[top..]) ==> n in varToReg
    {
      top := top - 1;
      var n := selectStack[top];
      TopNode(selectStack, top);
      NotYet(g, limit, selectStack, low, top);
      var color, found := FirstFree(pool, Used(g, varToReg, n));
      AssignedNodes(g, pool, SetOf(selectStack[top + 1..]), varToReg, varToStack, currentSpillOffset);
      GreedyMore(g, pool, selectStack, varToReg, top, color, found);
      if n in low { LowIsColored(g, limit, selectStack, low, top, varToReg, pool); }
      if found {
        AssignColor(g, pool, SetOf(selectStack[top + 1..]), varToReg, varToStack, currentSpillOffset, n, color);
        varToReg := varToReg[n := color];
      } else {
        AssignSlot(g, pool, SetOf(selectStack[top + 1..]), varToReg, varToStack, currentSpillOffset, n);
        currentSpillOffset := currentSpillOffset - 8;
        varToStack := varToStack[n := currentSpillOffset];
      }
    }
    assert selectStack[top..] == selectStack;
    totalStackSpillBytes := -currentSpillOffset;
  }

  lemma GreedyNone(g: Graph, pool: seq<int>, stack: seq<string>)
    ensures Greedy(g, pool, stack, map[], |stack|)
  {
  }

  lemma GreedyMore(g: Graph, pool: seq<int>, stack: seq<string>, color: map<string, int>, top: nat, c: int, found: bool)
    requires top < |stack| && stack[top] in g && Greedy(g, pool, stack, color, top + 1)
      && stack[top] !in SetOf(stack[top + 1..])
    requires color.Keys <= SetOf(stack[top + 1..])
    requires if found then IsFirstFree(pool, Used(g, color, stack[top]), c)
    else NoneFree(pool, Used(g, color, stack[top]))
    ensures Greedy(g, pool, stack, if found then color[stack[top] := c] else color, top)
  {
    hide IsFirstFree, NoneFree;
    var n := stack[top];
    var color' := if found then color[n := c] else color;
    forall i | top <= i < |stack| ensures ChosenAt(g, pool, stack, color', i) {
      var later := SetOf(stack[i + 1..]);
      assert n !in later by { LaterStill(stack, top, i); }
      if i > top {
        assert ChosenAt(g, pool, stack, color, i);
        assert stack[i] in SetOf(stack[top + 1..]) by { assert stack[top + 1..][i - top - 1] == stack[i]; }
        assert UsedLater(g, color', stack[i], later) == UsedLater(g, color, stack[i], later);
      } else {
        assert UsedLater(g, color', n, later) == Used(g, color, n);
      }
    }
  }

  lemma LaterStill(stack: seq<string>, top: nat, i: nat)
    requires top <= i < |stack|
    ensures SetOf(stack[i + 1..]) <= SetOf(stack[top + 1..])
  {
    var a, b := stack[i + 1..], stack[top + 1..];
    forall x | x in a ensures x in b {
      var k :| 0 <= k < |a| && a[k] == x;
      assert b[k + i - top] == x;
    }
  }

  lemma AssignedNodes(g: Graph, pool: seq<int>, nodes: set<string>, color: map<string, int>, slots: map<string, int>,
      offset: int)
    requires Assigned(g, pool, nodes, color, slots, offset)
    ensures color.Keys <= nodes && slots.Keys <= nodes
  {
  }

  lemma AssignColor(g: Graph, pool: seq<int>, nodes: set<string>, color: map<string, int>, slots: map<string, int>,
      offset: int,
                    n: string, c: int)
    requires Assigned(g, pool, nodes, color, slots, offset) && WellFormed(g) && n in g && n !in nodes
      && IsFirstFree(pool, Used(g, color, n), c)
    ensures Assigned(g, pool, nodes + {n}, color[n := c], slots, offset)
  {
    hide Proper, WellFormed, Used, IsFirstFree, SlotsApart;
    FirstFreeIn(pool, Used(g, color, n), c);
    ProperMore(g, color, n, c);
  }

  lemma FirstFreeIn(pool: seq<int>, used: set<int>, c: int)
    requires IsFirstFree(pool, used, c)
    ensures c in pool && c !in used
  {
  }

  lemma SlotMore(slots: map<string, int>, offset: int, n: string)
    requires SlotsApart(slots, offset) && n !in slots
    ensures SlotsApart(slots[n := offset - 8], offset - 8)
  {
    var more := slots[n := offset - 8];
    assert more.Keys == slots.Keys + {n};
    assert |more| == |more.Keys| == |slots| + 1;
  }

  lemma AssignSlot(g: Graph, pool: seq<int>, nodes: set<string>, color: map<string, int>, slots: map<string, int>,
      offset: int, n: string)
    requires Assigned(g, pool, nodes, color, slots, offset) && n !in nodes
    ensures Assigned(g, pool, nodes + {n}, color, slots[n := offset - 8], offset - 8)
  {
    hide Proper, SlotsApart;
    SlotMore(slots, offset, n);
  }

  lemma NothingAssigned(g: Graph, pool: seq<int>, stack: seq<string>)
    ensures Assigned(g, pool, SetOf(stack[|stack|..]), map[], map[], 0)
  {
    assert stack[|stack|..] == [];
  }

  lemma TopNode(stack: seq<string>, top: nat)
    requires top < |stack|
    ensures SetOf(stack[top..]) == SetOf(stack[top + 1..]) + {stack[top]}
  {
    assert stack[top..] == [stack[top]] + stack[top + 1..];
  }

  lemma NotYet(g: Graph, limit: map<string, nat>, stack: seq<string>, low: set<string>, top: nat)
    requires Removal(g, limit, stack, low) && top < |stack|
    ensures stack[top] in g && stack[top] !in SetOf(stack[top + 1..])
  {
    var n := stack[top];
    var later := stack[top + 1..];
    forall i | 0 <= i < |later| ensures later[i] != n { assert later[i] == stack[top + 1 + i]; }
  }

  lemma LowIsColored(g: Graph, limit: map<string, nat>, stack: seq<string>, low: set<string>, top: nat,
      color: map<string, int>, pool: seq<int>)
    requires Removal(g, limit, stack, low) && top < |stack| && stack[top] in g && stack[top] in low
    requires color.Keys <= SetOf(stack[top + 1..]) && DistinctColors(pool)
      && forall n :: n in limit ==> limit[n] <= |pool|
    ensures exists c :: c in pool && c !in Used(g, color, stack[top])
  {
    var n, removed := stack[top], SetOf(stack[..top]);
    assert RemovedRightly(g, limit, removed, n, low);
    forall x | x in stack[top + 1..] ensures x !in removed {
      var i :| 0 <= i < |stack[top + 1..]| && stack[top + 1..][i] == x;
      assert stack[top + 1 + i] == x;
    }
    EnoughColors(g, color, n, g[n] - removed, pool);
  }

  lemma ProperMore(g: Graph, color: map<string, int>, n: string, c: int)
    requires WellFormed(g) && Proper(g, color) && n in g && n !in color && c !in Used(g, color, n)
    ensures Proper(g, color[n := c])
  {
    var color' := color[n := c];
    forall p, q | p in color' && q in color' && p in g && q in g[p] ensures color'[p] != color'[q] {
      if p == n {
        assert color[q] in Used(g, color, n);
      } else if q == n {
        assert color[p] in Used(g, color, n);
      }
    }
  }

  // ----- the allocator

  datatype ArchType = X86_64 | ARM64

  const X86_FPRS: seq<int> := [2, 3, 4, 5, 6, 7, 8, 9, 10, 11, 12, 13, 14, 15]
  const ARM_FPRS: seq<int> := [0, 1, 2, 3, 4, 5, 6, 7, 8, 9, 10, 11, 12]

  function Pool(arch: ArchType): seq<int> {
    if arch.X86_64? then X86_FPRS else ARM_FPRS
  }

  /** The registers of the integer class. */
  function Gprs(arch: ArchType): seq<int> {
    if arch.X86_64? then [10, 11, 3, 12, 13, 14, 15] else [9, 10, 11, 12, 13, 14, 15, 19, 20, 21, 22, 23]
  }

  /** How many registers of the node's own class there are. */
  function Limit(arch: ArchType, isFloat: bool): nat {
    |if isFloat then Pool(arch) else Gprs(arch)|
  }

  function Limits(g: Graph, floats: set<string>, arch: ArchType): map<string, nat> {
    map n | n in g :: Limit(arch, n in floats)
  }

  /** How an allocation comes about: from the interference graph, with nodes removed and coloured
      greedily. A node removed while it had fewer neighbours than its class has registers gets one; so
      if all nodes have fewer, nothing is spilled. */
  ghost predicate Explains(g: Graph, stack: seq<string>, low: set<string>, intervals: seq<LiveInterval>,
      floats: set<string>, arch: ArchType,
                           varToReg: map<string, int>, varToStack: map<string, int>, totalStackSpillBytes: int) {
    && IsGraphOf(g, intervals)
    && Removal(g, Limits(g, floats, arch), stack, low) && SetOf(stack) == g.Keys
    && Greedy(g, Pool(arch), stack, varToReg, 0)
    && Assigned(g, Pool(arch), g.Keys, varToReg, varToStack, -totalStackSpillBytes)
    && (forall n :: n in low && n in g ==> n in varToReg)
    && ((forall n :: n in g ==> |g[n]| < Limit(arch, n in floats)) ==> varToStack == map[])
  }

  ghost predicate OnePlace(intervals: seq<LiveInterval>, varToReg: map<string, int>, varToStack: map<string, int>) {
    forall i :: 0 <= i < |intervals| ==> InOne(intervals[i].varName, varToReg, varToStack)
  }

  predicate InOne(n: string, varToReg: map<string, int>, varToStack: map<string, int>) {
    (n in varToReg) != (n in varToStack)
  }

  ghost predicate NoSharing(intervals: seq<LiveInterval>, varToReg: map<string, int>) {
    forall i: nat, j: nat, p, q ::
      Interferes(intervals, i, j, p, q) && p in varToReg && q in varToReg ==> varToReg[p] != varToReg[q]
  }

  /** Every interval has a register of the pool or a slot of its own; overlapping ones never share a register. */
  ghost predicate KeptApart(intervals: seq<LiveInterval>, arch: ArchType, varToReg: map<string, int>,
      varToStack: map<string, int>,
                            totalStackSpillBytes: int) {
    && OnePlace(intervals, varToReg, varToStack) && NoSharing(intervals, varToReg)
    && (forall n :: n in varToReg ==> varToReg[n] in Pool(arch))
    && SlotsApart(varToStack, -totalStackSpillBytes)
  }

  lemma ExplainedApart(g: Graph, stack: seq<string>, low: set<string>, intervals: seq<LiveInterval>,
      floats: set<string>, arch: ArchType,
                       varToReg: map<string, int>, varToStack: map<string, int>, bytes: int)
    requires Explains(g, stack, low, intervals, floats, arch, varToReg, varToStack, bytes)
    ensures KeptApart(intervals, arch, varToReg, varToStack, bytes)
  {
    hide Removal, Greedy, Limits, Pool, SlotsApart;
    assert NoSharing(intervals, varToReg) by {
      forall i: nat, j: nat, p, q | Interferes(intervals, i, j, p, q) && p in varToReg && q in varToReg
        ensures varToReg[p] != varToReg[q] {
        assert p in g && q in g[p];
      }
    }
    assert OnePlace(intervals, varToReg, varToStack) by {
      forall i | 0 <= i < |intervals| ensures InOne(intervals[i].varName, varToReg, varToStack) {
        assert intervals[i].varName in g.Keys;
      }
    }
  }

  method Allocate(intervals: seq<LiveInterval>, floats: set<string>, arch: ArchType)
    returns (varToReg: map<string, int>, varToStack: map<string, int>, totalStackSpillBytes: int)
    requires DistinctNames(intervals) && forall i :: 0 <= i < |intervals| ==> intervals[i].varName != ""
    ensures KeptApart(intervals, arch, varToReg, varToStack, totalStackSpillBytes)
    ensures exists g, stack, low ::
      Explains(g, stack, low, intervals, floats, arch, varToReg, varToStack, totalStackSpillBytes)
  {
    hide IsGraphOf, DistinctNames, Removal, WellFormed, Assigned, DistinctColors, Greedy, KeptApart;
    var g := BuildGraph(intervals);
    GraphWellFormed(g, intervals);
    KeysNamed(g);
    var limit := Limits(g, floats, arch);
    var stack;
    ghost var low;
    stack, low := Simplify(g, limit);
    PoolDistinct(arch);
    varToReg, varToStack, totalStackSpillBytes := Select(g, limit, stack, low, Pool(arch));
    if forall n :: n in g ==> |g[n]| < Limit(arch, n in floats) {
      forall n | n in g ensures n in low { AlwaysLow(g, limit, stack, low, n); }
      NothingSpilled(g, Pool(arch), varToReg, varToStack, -totalStackSpillBytes);
    }
    ExplainedApart(g, stack, low, intervals, floats, arch, varToReg, varToStack, totalStackSpillBytes);
  }

  lemma KeysNamed(g: Graph)
    requires WellFormed(g)
    ensures "" !in g
  {
  }

  lemma PoolDistinct(arch: ArchType)
    ensures DistinctColors(Pool(arch)) && forall float: bool :: Limit(arch, float) <= |Pool(arch)|
  {
  }

  lemma NothingSpilled(g: Graph, pool: seq<int>, color: map<string, int>, slots: map<string, int>, offset: int)
    requires Assigned(g, pool, g.Keys, color, slots, offset) && forall n :: n in g ==> n in color
    ensures slots == map[]
  {
    assert slots.Keys == {};
  }

  lemma AlwaysLow(g: Graph, limit: map<string, nat>, order: seq<string>, low: set<string>, n: string)
    requires Removal(g, limit, order, low) && n in SetOf(order) && n in g && n in limit && |g[n]| < limit[n]
    ensures n in low
  {
    var i :| 0 <= i < |order| && order[i] == n;
    var removed := SetOf(order[..i]);
    assert RemovedRightly(g, limit, removed, n, low);
    Smaller(g[n] - removed, g[n]);
    forall x | x in order[..i] ensures x != n {
      var k :| 0 <= k < |order[..i]| && order[..i][k] == x;
      assert order[k] == x;
    }
  }

  // ----- which list the colours come from

  lemma FirstColor(pool: seq<int>, used: set<int>, c: int)
    requires used == {} && |pool| > 0
    ensures !NoneFree(pool, used) && (IsFirstFree(pool, used, c) ==> c == pool[0])
  {
  }

  /** The node coloured first gets the first register of the floating-point list, which is none of the
      integer class. */
  lemma FirstIsNoGpr(g: Graph, stack: seq<string>, low: set<string>, intervals: seq<LiveInterval>, floats: set<string>,
      arch: ArchType,
                     varToReg: map<string, int>, varToStack: map<string, int>, bytes: int)
    requires Explains(g, stack, low, intervals, floats, arch, varToReg, varToStack, bytes) && intervals != []
    ensures
      && |stack| > 0
      && var n := stack[|stack| - 1];
      n in varToReg && varToReg[n] == Pool(arch)[0] && varToReg[n] !in Gprs(arch)
  {
    hide Removal, Assigned, Limits;
    assert intervals[0].varName in g;
    assert intervals[0].varName in SetOf(stack);
    var top := |stack| - 1;
    var n := stack[top];
    assert ChosenAt(g, Pool(arch), stack, varToReg, top);
    assert stack[top + 1..] == [];
    var used := UsedLater(g, varToReg, n, SetOf(stack[top + 1..]));
    FirstColor(Pool(arch), used, if n in varToReg then varToReg[n] else 0);
  }

  /** Taking colours from the floating-point list for both classes is sound for functions without
      floating-point values exactly if there is nothing to allocate. */
  lemma ColorListExactly(g: Graph, stack: seq<string>, low: set<string>, intervals: seq<LiveInterval>, arch: ArchType,
                         varToReg: map<string, int>, varToStack: map<string, int>, bytes: int)
    requires Explains(g, stack, low, intervals, {}, arch, varToReg, varToStack, bytes)
    ensures (forall n :: n in varToReg ==> varToReg[n] in Gprs(arch)) <==> intervals == []
  {
    hide Removal, Greedy, Limits;
    if intervals != [] { FirstIsNoGpr(g, stack, low, intervals, {}, arch, varToReg, varToStack, bytes); }
  }
}
