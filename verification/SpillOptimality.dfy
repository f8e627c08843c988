/** The furthest-end eviction rule of src/backend/regalloc/LinearScanAllocator.hpp is optimal: no
    assignment of the pool's registers to intervals, in which overlapping intervals get different
    registers, serves more intervals than the scan does.

    The proof is "greedy stays ahead": at every visited interval and for every later point e, the
    scan has kept at least as many intervals ending before e as the rival assignment has. */
module SpillOptimality {
  import opened LinearScan

  /** A rival: registers of the pool for some of the intervals, different ones where they overlap. */
  ghost predicate Rival(ivs: seq<LiveInterval>, pool: seq<int>, assign: map<nat, int>) {
    && (forall i :: i in assign ==> i < |ivs| && assign[i] in pool)
    && (forall i, j :: i in assign && j in assign && i != j && Overlaps(ivs[i], ivs[j]) ==> assign[i] != assign[j])
  }

  /** How many of the first k intervals are chosen and end before e. */
  function Ending(ivs: seq<LiveInterval>, chosen: set<nat>, k: nat, e: int): nat
    requires k <= |ivs|
  {
    if k == 0 then 0
    else Ending(ivs, chosen, k - 1, e) + (if k - 1 in chosen && ivs[k - 1].endPoint < e then 1 else 0)
  }

  function Kept(s: Scan, k: nat): set<nat>
    requires k <= |s.ivs|
  {
    set i: nat | i < k && !s.ivs[i].isSpilled
  }

  ghost predicate Ahead(ivs: seq<LiveInterval>, kept: set<nat>, rival: set<nat>, k: nat, now: nat)
    requires k <= |ivs|
  {
    forall e: int :: e >= now ==> Ending(ivs, rival, k, e) <= Ending(ivs, kept, k, e)
  }

  lemma {:induction false} EndingLocal(ivs: seq<LiveInterval>, a: set<nat>, b: set<nat>, k: nat, e: int)
    requires k <= |ivs|
    requires forall i: nat :: i < k && ivs[i].endPoint < e ==> (i in a <==> i in b)
    ensures Ending(ivs, a, k, e) == Ending(ivs, b, k, e)
  {
    if k > 0 { EndingLocal(ivs, a, b, k - 1, e); }
  }

  /** A set of chosen intervals ending in [lo, hi) is counted between the two. */
  lemma {:induction false} EndingAtLeast(ivs: seq<LiveInterval>, chosen: set<nat>, k: nat, lo: int, hi: int,
      part: set<nat>)
    requires k <= |ivs| && lo <= hi
    requires forall i :: i in part ==> i < k && i in chosen && lo <= ivs[i].endPoint < hi
    ensures Ending(ivs, chosen, k, hi) >= Ending(ivs, chosen, k, lo) + |part|
  {
    if k > 0 {
      EndingAtLeast(ivs, chosen, k - 1, lo, hi, part - {k - 1});
      if k - 1 in part {
        assert |part - {k - 1}| == |part| - 1;
      } else {
        assert part - {k - 1} == part;
      }
    } else {
      assert part == {};
    }
  }

  lemma {:induction false} EndingAtMost(ivs: seq<LiveInterval>, chosen: set<nat>, k: nat, lo: int, hi: int)
    returns (part: set<nat>)
    requires k <= |ivs| && lo <= hi
    ensures forall i :: i in part ==> i < k && i in chosen && lo <= ivs[i].endPoint
    ensures Ending(ivs, chosen, k, hi) <= Ending(ivs, chosen, k, lo) + |part|
  {
    part := {};
    if k > 0 {
      part := EndingAtMost(ivs, chosen, k - 1, lo, hi);
      if k - 1 in chosen && lo <= ivs[k - 1].endPoint {
        assert k - 1 !in part;
        part := part + {k - 1};
      }
    }
  }

  /** Intervals with pairwise different registers of the pool are at most as many as the pool. */
  lemma {:induction false} Pigeonhole(part: set<nat>, assign: map<nat, int>, pool: set<int>)
    requires forall i :: i in part ==> i in assign && assign[i] in pool
    requires forall i, j :: i in part && j in part && i != j ==> assign[i] != assign[j]
    ensures |part| <= |pool|
    decreases |part|
  {
    if part != {} {
      var i :| i in part;
      Pigeonhole(part - {i}, assign, pool - {assign[i]});
    }
  }

  function Elements<T>(q: seq<T>): set<T> {
    set x | x in q
  }

  lemma ElementsAppend<T>(front: seq<T>, last: T)
    requires last !in front
    ensures |Elements(front + [last])| == |Elements(front)| + 1
  {
    assert Elements(front + [last]) == Elements(front) + {last};
  }

  lemma {:induction false} PoolSize(pool: seq<int>)
    requires Distinct(pool)
    ensures |Elements(pool)| == |pool|
    decreases |pool|
  {
    if pool != [] {
      var front, last := pool[..|pool| - 1], pool[|pool| - 1];
      PoolSize(front);
      assert pool == front + [last];
      ElementsAppend(front, last);
    }
  }

  /** At any point at most as many rival intervals are live as there are registers. */
  lemma RivalFits(ivs: seq<LiveInterval>, pool: seq<int>, assign: map<nat, int>, part: set<nat>, now: nat)
    requires Rival(ivs, pool, assign) && Distinct(pool)
    requires forall i :: i in part ==> i in assign && ivs[i].startPoint <= now <= ivs[i].endPoint
    ensures |part| <= |pool|
  {
    PoolSize(pool);
    Pigeonhole(part, assign, Elements(pool));
  }

  lemma {:induction false} HeldSize(ivs: seq<LiveInterval>, active: seq<nat>)
    requires InRange(active, |ivs|)
    ensures |Held(ivs, active)| == |active|
    decreases |active|
  {
    if active != [] { HeldSize(ivs, active[..|active| - 1]); }
  }

  lemma LastIsNew(ivs: seq<LiveInterval>, front: seq<nat>, last: nat, pool: seq<int>)
    requires InRange(front, |ivs|) && last < |ivs| && Distinct(pool)
    requires Held(ivs, front) + multiset{ivs[last].reg} <= multiset(pool)
    ensures last !in front
  {
    if last in front { HeldMember(ivs, front, last); }
    PoolMultiplicity(pool, ivs[last].reg);
    assert (Held(ivs, front) + multiset{ivs[last].reg})[ivs[last].reg] <= 1;
  }

  lemma {:induction false} ActiveSize(ivs: seq<LiveInterval>, active: seq<nat>, pool: seq<int>)
    requires InRange(active, |ivs|) && Held(ivs, active) <= multiset(pool) && Distinct(pool)
    ensures |Elements(active)| == |active|
    decreases |active|
  {
    if active != [] {
      var front, last := active[..|active| - 1], active[|active| - 1];
      assert active == front + [last];
      HeldAppend(ivs, front, last);
      hide Held, Elements;
      LastIsNew(ivs, front, last, pool);
      ElementsAppend(front, last);
      ActiveSize(ivs, front, pool);
    }
  }

  /** The current interval is kept and nobody is evicted. */
  lemma AheadWhenAllKept(ivs: seq<LiveInterval>, kept: set<nat>, rival: set<nat>, k: nat, before: nat, now: nat)
    requires k < |ivs| && Ahead(ivs, kept, rival, k, before) && before <= now
    ensures Ahead(ivs, kept + {k}, rival, k + 1, now)
  {
    forall e: int {:trigger Ending(ivs, rival, k + 1, e)} | e >= now
      ensures Ending(ivs, rival, k + 1, e) <= Ending(ivs, kept + {k}, k + 1, e) {
      EndingLocal(ivs, kept, kept + {k}, k, e);
    }
  }

  /** All registers are held by intervals of `part`, live at `now` and ending at most at m, and every
      interval the scan has just given up on ends at m or later. */
  lemma AheadWhenFull(ivs: seq<LiveInterval>, pool: seq<int>, assign: map<nat, int>, kept: set<nat>, kept': set<nat>,
                      k: nat, before: nat, now: nat, m: nat, part: set<nat>)
    requires Fresh(ivs) && k < |ivs| && Rival(ivs, pool, assign) && Distinct(pool)
    requires Ahead(ivs, kept, assign.Keys, k, before) && before <= now == ivs[k].startPoint <= m
    requires forall i: nat :: i < k && ivs[i].endPoint < m ==> (i in kept <==> i in kept')
    requires k in kept' || ivs[k].endPoint >= m
    requires |part| == |pool|
    requires forall i :: i in part ==> i < k + 1 && i in kept' && now <= ivs[i].endPoint <= m
    ensures Ahead(ivs, kept', assign.Keys, k + 1, now)
  {
    var rival := assign.Keys;
    forall e: int {:trigger Ending(ivs, rival, k + 1, e)} | e >= now
      ensures Ending(ivs, rival, k + 1, e) <= Ending(ivs, kept', k + 1, e) {
      if e <= m {
        EndingLocal(ivs, kept, kept', k, e);
      } else {
        EndingLocal(ivs, kept, kept', k, now);
        EndingAtLeast(ivs, kept', k + 1, now, e, part);
        var live := EndingAtMost(ivs, rival, k + 1, now, e);
        RivalFits(ivs, pool, assign, live, now);
        assert Ending(ivs, rival, k, now) <= Ending(ivs, kept, k, now);
      }
    }
  }

  /** With no register free the active intervals hold them all. */
  lemma ActiveIsPool(s: Scan, pool: seq<int>)
    requires InRange(s.active, |s.ivs|) && PoolInv(pool, s) && s.free == [] && Distinct(pool)
    ensures |Elements(s.active)| == |pool|
  {
    ActiveSize(s.ivs, s.active, pool);
    HeldSize(s.ivs, s.active);
    assert |multiset(pool)| == |pool|;
  }

  lemma EvictedPart(sort: Sorter, s: Scan, k: nat, now: nat)
    requires k < |s.ivs| && ActiveInv(s, k) && s.active != [] && !s.ivs[k].isSpilled
    requires ActiveInv(Evict(sort, s, k), k + 1)
    requires forall i :: i in s.active ==> s.ivs[i].endPoint >= now
    requires now <= s.ivs[k].endPoint < s.ivs[s.active[|s.active| - 1]].endPoint
    ensures forall i :: i in Elements(Evict(sort, s, k).active) ==>
      && i < k + 1 && i in Kept(Evict(sort, s, k), k + 1)
      && now <= s.ivs[i].endPoint <= s.ivs[s.active[|s.active| - 1]].endPoint
  {
    var c := s.active[|s.active| - 1];
    assert s.active == s.active[..|s.active| - 1] + [c];
    forall i | i in Elements(Evict(sort, s, k).active) && i != k
      ensures now <= s.ivs[i].endPoint <= s.ivs[c].endPoint
    {
      assert i in s.active;
    }
  }

  lemma EvictAhead(sort: Sorter, ivs: seq<LiveInterval>, pool: seq<int>, assign: map<nat, int>, s: Scan, k: nat,
      before: nat)
    requires Fresh(ivs) && k < |ivs| && Rival(ivs, pool, assign) && Distinct(pool)
    requires before <= ivs[k].startPoint && ScanInv(ivs, pool, s, k, ivs[k].startPoint)
    requires Ahead(ivs, Kept(s, k), assign.Keys, k, before)
    requires s.free == [] && s.active != [] && forall i :: i in s.active ==> s.ivs[i].endPoint >= ivs[k].startPoint
    requires s.ivs[s.active[|s.active| - 1]].endPoint > ivs[k].endPoint
    ensures Ahead(ivs, Kept(Evict(sort, s, k), k + 1), assign.Keys, k + 1, ivs[k].startPoint)
  {
    hide Held, SortByEnd, Ahead, Ending, PlacedInv, SlotInv, PoolInv, Rival;
    var s', c := Evict(sort, s, k), s.active[|s.active| - 1];
    EvictPool(sort, pool, s, k);
    ActiveIsPool(s', pool);
    assert c in s.active;
    EvictedPart(sort, s, k, ivs[k].startPoint);
    hide ActiveInv, SortedByEnd;
    AheadWhenFull(ivs, pool, assign, Kept(s, k), Kept(s', k + 1), k, before, ivs[k].startPoint, ivs[c].endPoint,
                  Elements(s'.active));
  }

  lemma SpillSelfAhead(ivs: seq<LiveInterval>, pool: seq<int>, assign: map<nat, int>, s: Scan, k: nat, before: nat)
    requires Fresh(ivs) && k < |ivs| && Rival(ivs, pool, assign) && Distinct(pool)
    requires before <= ivs[k].startPoint && ScanInv(ivs, pool, s, k, ivs[k].startPoint)
    requires Ahead(ivs, Kept(s, k), assign.Keys, k, before)
    requires s.free == [] && forall i :: i in s.active ==> s.ivs[i].endPoint >= ivs[k].startPoint
    requires s.active == [] || s.ivs[s.active[|s.active| - 1]].endPoint <= ivs[k].endPoint
    ensures Ahead(ivs, Kept(SpillSelf(s, k), k + 1), assign.Keys, k + 1, ivs[k].startPoint)
  {
    hide Held, SortByEnd, Ahead, Ending, PlacedInv, SlotInv;
    ActiveIsPool(s, pool);
    var part := Elements(s.active);
    forall i | i in part
      ensures i in Kept(SpillSelf(s, k), k + 1) && ivs[k].startPoint <= ivs[i].endPoint <= ivs[k].endPoint
    {
      var a :| 0 <= a < |s.active| && s.active[a] == i;
      assert a == |s.active| - 1 || s.ivs[s.active[a]].endPoint <= s.ivs[s.active[|s.active| - 1]].endPoint;
    }
    AheadWhenFull(ivs, pool, assign, Kept(s, k), Kept(SpillSelf(s, k), k + 1), k, before, ivs[k].startPoint,
                  ivs[k].endPoint, part);
  }

  lemma TakeFreeAhead(sort: Sorter, ivs: seq<LiveInterval>, assign: map<nat, int>, s: Scan, k: nat, before: nat)
    requires Fresh(ivs) && k < |ivs| == |s.ivs| && InRange(s.active, |s.ivs|) && s.free != [] && !s.ivs[k].isSpilled
    requires before <= ivs[k].startPoint && Ahead(ivs, Kept(s, k), assign.Keys, k, before)
    ensures Ahead(ivs, Kept(TakeFree(sort, s, k), k + 1), assign.Keys, k + 1, ivs[k].startPoint)
  {
    assert Kept(TakeFree(sort, s, k), k + 1) == Kept(s, k) + {k};
    AheadWhenAllKept(ivs, Kept(s, k), assign.Keys, k, before, ivs[k].startPoint);
  }

  lemma VisitAhead(sort: Sorter, ivs: seq<LiveInterval>, pool: seq<int>, assign: map<nat, int>, s: Scan, k: nat,
      k': nat, before: nat)
    requires Fresh(ivs) && k < |ivs| && k' == k + 1 && Rival(ivs, pool, assign) && Distinct(pool) && -1 !in pool
    requires before <= ivs[k].startPoint && ScanInv(ivs, pool, s, k, before)
    requires Ahead(ivs, Kept(s, k), assign.Keys, k, before)
    ensures Ahead(ivs, Kept(Visit(sort, s, k), k'), assign.Keys, k', ivs[k].startPoint)
  {
    hide Held, Ahead, PlacedInv, SlotInv, Evict, TakeFree, SpillSelf;
    ExpiredInv(ivs, pool, s, k, before, ivs[k].startPoint);
    var s1 := Expired(s, ivs[k].startPoint);
    assert Kept(s1, k) == Kept(s, k);
    if s1.free != [] {
      TakeFreeAhead(sort, ivs, assign, s1, k, before);
    } else if s1.active != [] && s1.ivs[s1.active[|s1.active| - 1]].endPoint > s1.ivs[k].endPoint {
      EvictAhead(sort, ivs, pool, assign, s1, k, before);
    } else {
      SpillSelfAhead(ivs, pool, assign, s1, k, before);
    }
  }

  lemma {:induction false} ScanAhead(sort: Sorter, ivs: seq<LiveInterval>, pool: seq<int>, assign: map<nat, int>,
      s: Scan, k: nat, now: nat)
    returns (end: nat)
    requires Fresh(ivs) && Rival(ivs, pool, assign) && Distinct(pool) && -1 !in pool
    requires ScanInv(ivs, pool, s, k, now) && (k < |ivs| ==> now <= ivs[k].startPoint)
    requires Ahead(ivs, Kept(s, k), assign.Keys, k, now)
    ensures Ahead(ivs, Kept(ScanFrom(sort, s, k), |ivs|), assign.Keys, |ivs|, end)
    decreases |ivs| - k
  {
    hide Visit, Held, SortedByEnd, Ahead, Kept;
    if k == |ivs| {
      end := now;
    } else {
      var k' := k + 1;
      VisitInv(sort, ivs, pool, s, k, k', now);
      VisitAhead(sort, ivs, pool, assign, s, k, k', now);
      end := ScanAhead(sort, ivs, pool, assign, Visit(sort, s, k), k', ivs[k].startPoint);
      assert ScanFrom(sort, s, k) == ScanFrom(sort, Visit(sort, s, k), k');
    }
  }

  // ----- counting everything

  function Horizon(ivs: seq<LiveInterval>, k: nat): nat
    requires k <= |ivs|
  {
    if k == 0 then 0
    else
      var h := Horizon(ivs, k - 1);
      if ivs[k - 1].endPoint >= h then ivs[k - 1].endPoint + 1 else h
  }

  lemma {:induction false} RivalCount(ivs: seq<LiveInterval>, chosen: set<nat>, k: nat, e: int)
    requires k <= |ivs| && Horizon(ivs, k) <= e && forall i :: i in chosen ==> i < k
    ensures Ending(ivs, chosen, k, e) == |chosen|
  {
    if k == 0 {
      assert chosen == {};
    } else {
      var rest := chosen - {k - 1};
      RivalCount(ivs, rest, k - 1, e);
      EndingLocal(ivs, chosen, rest, k - 1, e);
      if k - 1 in chosen { assert |rest| == |chosen| - 1; } else { assert rest == chosen; }
    }
  }

  lemma {:induction false} KeptCount(ivs: seq<LiveInterval>, s: Scan, n: nat, k: nat, e: int)
    requires k <= n <= |ivs| == |s.ivs| && Horizon(ivs, k) <= e
    ensures Ending(ivs, Kept(s, n), k, e) + SpillCount(s.ivs, k) == k
  {
    if k > 0 { KeptCount(ivs, s, n, k - 1, e); }
  }

  /** Optimality: whatever intervals a rival serves, the scan spills at most the number the rival
      leaves out; the reported spill area is eight bytes for each. */
  lemma AllocationIsOptimal(sort: Sorter, ivs: seq<LiveInterval>, pool: seq<int>, assign: map<nat, int>)
    requires Fresh(ivs) && Distinct(pool) && -1 !in pool && Rival(ivs, pool, assign)
    ensures SpillCount(Allocated(sort, ivs, pool).ivs, |ivs|) <= |ivs| - |assign.Keys|
    ensures -Allocated(sort, ivs, pool).spillOffset <= 8 * (|ivs| - |assign.Keys|)
  {
    var s := Scan(ivs, [], pool, 0);
    InitialScan(ivs, pool);
    var end := ScanAhead(sort, ivs, pool, assign, s, 0, 0);
    AllocationIsSafe(sort, ivs, pool);
    hide ScanFrom, Held, SortedByEnd;
    var e := if Horizon(ivs, |ivs|) >= end then Horizon(ivs, |ivs|) else end;
    KeptCount(ivs, Allocated(sort, ivs, pool), |ivs|, |ivs|, e);
    RivalCount(ivs, assign.Keys, |ivs|, e);
  }
}
