/** The allocator invariant holds after any run of region operations. */
module RegionSafety {
  import opened Options
  import opened Regions
  import opened RegionSteps

  // ----- dispose

  lemma DisposeKeeps(sys: System, r: nat)
    requires Inv(sys) && AliveAt(sys, r)
    ensures Inv(Step(sys, DoDispose(r)).0)
  {
    hide PairOk, ItemsOk, ListsOk, HasItem;
    var sys' := Step(sys, DoDispose(r)).0;
    assert forall s: nat ::
      AliveAt(sys', s) ==>
        AliveAt(sys, s) && (s == r || (!Descends(sys.regions, s, r) && sys'.regions[s] == sys.regions[s]));
    EmptyOk(sys.regions[r], sys.words);
    forall s: nat, t: nat | AliveAt(sys', s) && AliveAt(sys', t) && s != t ensures PairOk(sys', s, t) {
      DisposePair(sys, r, s, t);
    }
  }

  lemma EmptyOk(r: Region, words: map<int, int>)
    ensures ItemsOk(Dispose(r)) && ListsOk(Dispose(r), words) && OnlyRoom(Dispose(r))
  {
  }

  ghost predicate OnlyRoom(r: Region) {
    forall i :: HasItem(r, i) ==> i == Extent(r)
  }

  lemma DisposePair(sys: System, r: nat, s: nat, t: nat)
    requires Inv(sys) && AliveAt(sys, r) && AliveAt(sys, s) && AliveAt(sys, t) && s != t
    requires (s == r || !Descends(sys.regions, s, r)) && (t == r || !Descends(sys.regions, t, r))
    ensures PairOk(Step(sys, DoDispose(r)).0, s, t)
  {
    hide ItemsOk, ListsOk, HasItem, Apart;
    var sys' := Step(sys, DoDispose(r)).0;
    EmptyOk(sys.regions[r], sys.words);
    SameDescends(sys.regions, sys'.regions, s, t);
    SameDescends(sys.regions, sys'.regions, t, s);
    assert PairOk(sys, s, t) && PairOk(sys, t, s);
    var a, b := sys'.regions[s], sys'.regions[t];
    assert Extent(a) == Extent(sys.regions[s]) && Extent(b) == Extent(sys.regions[t]);
    forall i, j | HasItem(a, i) && HasItem(b, j) ensures Apart(i, j) {
      ApartSym(i, j);
    }
    ApartSym(Extent(a), Extent(b));
  }

  // ----- a new region

  lemma {:induction false} DescendsDown(regions: seq<Region>, s: nat, r: nat)
    requires s < |regions| && Descends(regions, s, r)
    ensures r <= s
    decreases s
  {
    if s != r { DescendsDown(regions, regions[s].carvedFrom, r); }
  }

  /** c is carved, directly or not, out of region r. */
  predicate CarvedUnder(sys: System, c: Region, r: nat) {
    0 <= c.carvedFrom < |sys.regions| && Descends(sys.regions, c.carvedFrom, r)
  }

  ghost predicate ClearOf(sys: System, c: Region, s: nat)
    requires s < |sys.regions|
  {
    && (forall j :: HasItem(sys.regions[s], j) ==> Apart(Extent(c), j))
    && (!CarvedUnder(sys, c, s) ==> Apart(Extent(c), Extent(sys.regions[s])))
  }

  lemma AppendKeeps(sys: System, c: Region)
    requires Inv(sys) && c == NewRegion(c.carvedFrom, c.parent, c.buffer, c.capacity) && c.carvedFrom < |sys.regions|
    requires forall s: nat :: AliveAt(sys, s) ==> ClearOf(sys, c, s)
    ensures Inv(Append(sys, c))
  {
    hide PairOk, ItemsOk, ListsOk, HasItem, ClearOf;
    var sys' := Append(sys, c);
    var n := |sys.regions|;
    assert Dispose(c) == c;
    EmptyOk(c, sys.words);
    assert forall s: nat :: AliveAt(sys', s) && s != n ==> AliveAt(sys, s) && sys'.regions[s] == sys.regions[s];
    forall s: nat, t: nat | AliveAt(sys', s) && AliveAt(sys', t) && s != t ensures PairOk(sys', s, t) {
      if s == n {
        AppendPair(sys, c, t);
      } else if t == n {
        AppendPair(sys, c, s);
      } else {
        OldPair(sys, c, s, t);
      }
    }
  }

  lemma OldPair(sys: System, c: Region, s: nat, t: nat)
    requires Inv(sys) && AliveAt(sys, s) && AliveAt(sys, t) && s != t
    ensures PairOk(Append(sys, c), s, t)
  {
    hide ItemsOk, ListsOk, HasItem, Apart;
    var sys' := Append(sys, c);
    SameDescends(sys.regions, sys'.regions, s, t);
    SameDescends(sys.regions, sys'.regions, t, s);
    assert PairOk(sys, s, t);
  }

  lemma AppendPair(sys: System, c: Region, s: nat)
    requires AliveAt(sys, s) && ClearOf(sys, c, s) && OnlyRoom(c) && c.carvedFrom < |sys.regions|
    ensures PairOk(Append(sys, c), s, |sys.regions|) && PairOk(Append(sys, c), |sys.regions|, s)
  {
    hide ItemsOk, ListsOk, HasItem, Apart;
    var sys' := Append(sys, c);
    var n := |sys.regions|;
    if Descends(sys'.regions, s, n) { DescendsDown(sys'.regions, s, n); }
    if 0 <= c.carvedFrom { SameDescends(sys.regions, sys'.regions, c.carvedFrom, s); }
    assert Descends(sys'.regions, n, s) == CarvedUnder(sys, c, s);
    assert sys'.regions[s] == sys.regions[s] && sys'.regions[n] == c;
    forall j | HasItem(sys.regions[s], j) ensures Apart(j, Extent(c)) { ApartSym(j, Extent(c)); }
    ApartSym(Extent(c), Extent(sys.regions[s]));
  }

  // ----- createChild

  /** A region whose memory malloc supplies. */
  lemma SuppliedKeeps(sys: System, parent: int, mem: nat, size: nat)
    requires Inv(sys) && Supplied(sys, mem, size)
    ensures Inv(Append(sys, NewRegion(-1, parent, mem, size)))
  {
    hide PairOk, ListsOk, HasItem, Apart;
    var c := NewRegion(-1, parent, mem, size);
    assert Extent(c) == Extent(NewRegion(-1, -1, mem, size));
    forall s: nat | AliveAt(sys, s) ensures ClearOf(sys, c, s) {
      assert ItemsOk(sys.regions[s]);
      forall j | HasItem(sys.regions[s], j) ensures Apart(Extent(c), j) {
        ApartSym(Extent(c), Extent(sys.regions[s]));
        ApartWithin(Extent(sys.regions[s]), j, Extent(c));
        ApartSym(Extent(c), j);
      }
    }
    AppendKeeps(sys, c);
  }

  /** Bumping the offset over a block that no client gets leaves it apart from all that the region holds. */
  lemma CarveOff(p: Region, size: nat)
    requires ItemsOk(p) && Alloc(p, size, CACHE_LINE).1 != NULL
    ensures
      var (p2, data) := Alloc(p, size, CACHE_LINE);
      var p3 := p.(offset := p2.offset);
      && data > 0
      && Divides(p, p3)
      && HasItem(p, RoomOf(p)) && Within(Room(data, size), RoomOf(p))
      && forall j :: HasItem(p3, j) ==> Apart(Room(data, size), j)
  {
    hide Divides, ItemsOk, IsPowerOfTwo;
    EightIsPower();
    AllocDivides(p, size, CACHE_LINE);
    var (p2, data) := Alloc(p, size, CACHE_LINE);
    var p3 := p.(offset := p2.offset);
    var b := Live(Block(data, size, CACHE_LINE));
    ItemsOkPair(p, b, RoomOf(p));
    assert !HasItem(p, b);
    assert forall j :: HasItem(p3, j) ==> HasItem(p2, j) && j != b;
    FewerDivide(p, p2, p3);
    forall j | HasItem(p3, j) ensures Apart(Room(data, size), j) {
      DividesItemsOk(p, p2);
      ItemsOkPair(p2, b, j);
    }
  }

  lemma ItemsOkPair(r: Region, i: Item, j: Item)
    requires ItemsOk(r)
    ensures HasItem(r, i) && HasItem(r, j) && i != j ==> Apart(i, j)
  {
  }

  lemma FewerDivide(r: Region, r': Region, r3: Region)
    requires Divides(r, r') && r3 == r.(offset := r'.offset) && forall j :: HasItem(r3, j) ==> HasItem(r', j)
    requires r.live <= r'.live
    ensures Divides(r, r3)
  {
    hide HasItem, Within, Apart;
  }

  lemma CarveKeeps(sys: System, p: nat, size: nat)
    requires Inv(sys) && AliveAt(sys, p) && Alloc(sys.regions[p], size, CACHE_LINE).1 != NULL
    ensures
      var (p2, data) := Alloc(sys.regions[p], size, CACHE_LINE);
      data > 0 && Inv(Append(SetRegion(sys, p, sys.regions[p].(offset := p2.offset)), NewRegion(p, p, data, size)))
  {
    hide PairOk, ItemsOk, ListsOk, Divides, HasItem, Apart, Within, Alloc;
    assert ItemsOk(sys.regions[p]);
    CarveOff(sys.regions[p], size);
    var (p2, data) := Alloc(sys.regions[p], size, CACHE_LINE);
    var p3 := sys.regions[p].(offset := p2.offset);
    var sys1 := SetRegion(sys, p, p3);
    var c := NewRegion(p, p, data, size);
    forall r: nat | AliveAt(sys1, r) ensures ListsOk(sys1.regions[r], sys1.words) && AliveAt(sys, r) {
      SameLists(sys.regions[p], p3, sys.words);
      assert ListsOk(sys.regions[r], sys.words);
    }
    DivideKeeps(sys, sys1, p);
    forall s: nat | AliveAt(sys1, s) ensures ClearOf(sys1, c, s) {
      SameDescends(sys.regions, sys1.regions, p, s);
      if s != p { CarvedClear(sys, p, s, c); }
    }
    AppendKeeps(sys1, c);
  }

  lemma SameLists(r: Region, r': Region, words: map<int, int>)
    requires r'.heads == r.heads && r'.chunks == r.chunks
    ensures ListsOk(r, words) ==> ListsOk(r', words)
  {
    hide Linked;
    if ListsOk(r, words) {
      forall c: nat | c < 5 ensures ListOk(r', words, c) { assert ListOk(r, words, c); }
    }
  }

  lemma CarvedClear(sys: System, p: nat, s: nat, c: Region)
    requires Inv(sys) && AliveAt(sys, p) && AliveAt(sys, s) && s != p
    requires HasItem(sys.regions[p], RoomOf(sys.regions[p])) && Within(Extent(c), RoomOf(sys.regions[p]))
    ensures forall j :: HasItem(sys.regions[s], j) ==> Apart(Extent(c), j)
    ensures !Descends(sys.regions, p, s) ==> Apart(Extent(c), Extent(sys.regions[s]))
  {
    hide ItemsOk, ListsOk, HasItem, Apart, Within;
    var room := RoomOf(sys.regions[p]);
    assert PairOk(sys, p, s) && PairOk(sys, s, p);
    forall j | HasItem(sys.regions[s], j) ensures Apart(Extent(c), j) { ApartWithin(room, Extent(c), j); }
    if !Descends(sys.regions, p, s) { ApartWithin(room, Extent(c), Extent(sys.regions[s])); }
  }

  lemma AllocKeeps(sys: System, r: nat, size: nat, align: nat)
    requires Inv(sys) && AliveAt(sys, r) && GoodAlign(align)
    ensures Inv(SetRegion(sys, r, Alloc(sys.regions[r], size, align).0))
  {
    hide PairOk, ItemsOk, ListsOk, Divides, HasItem, Alloc, IsPowerOfTwo;
    assert ItemsOk(sys.regions[r]);
    AllocDivides(sys.regions[r], size, align);
    var sys' := SetRegion(sys, r, Alloc(sys.regions[r], size, align).0);
    forall s: nat | AliveAt(sys', s) ensures ListsOk(sys'.regions[s], sys'.words) {
      assert AliveAt(sys, s);
      AllocLists(sys.regions[r], size, align, sys.words);
    }
    DivideKeeps(sys, sys', r);
  }

  lemma CreateKeeps(sys: System, parent: Option<nat>, size: nat, mem: nat)
    requires Inv(sys) && Legal(sys, DoCreate(parent, size, mem))
    ensures Inv(Step(sys, DoCreate(parent, size, mem)).0)
  {
    hide Inv, Alloc, IsPowerOfTwo, Apart;
    if parent.None? {
      SuppliedKeeps(sys, -1, mem, size);
    } else {
      var p := parent.value;
      EightIsPower();
      AllocKeeps(sys, p, OBJECT_SIZE, OBJECT_ALIGN);
      AllocSame(sys.regions[p], OBJECT_SIZE, OBJECT_ALIGN);
      var (p1, obj) := Alloc(sys.regions[p], OBJECT_SIZE, OBJECT_ALIGN);
      var sys1 := SetRegion(sys, p, p1);
      AllocKeeps(sys1, p, size, CACHE_LINE);
      AllocSame(p1, size, CACHE_LINE);
      var (p2, data) := Alloc(p1, size, CACHE_LINE);
      if obj == NULL || data == NULL {
        var sys2 := SetRegion(sys, p, p2);
        assert SetRegion(sys1, p, p2) == sys2;
        forall s: nat | AliveAt(sys2, s)
          ensures AliveAt(sys, s) && Extent(sys2.regions[s]) == Extent(sys.regions[s]) { }
        SuppliedKeeps(sys2, p, mem, size);
      } else {
        CarveKeeps(sys1, p, size);
        assert SetRegion(sys1, p, p1.(offset := p2.offset)) == SetRegion(sys, p, p1.(offset := p2.offset));
      }
    }
  }

  lemma AllocSame(r: Region, size: nat, align: nat)
    ensures Extent(Alloc(r, size, align).0) == Extent(r) && Alloc(r, size, align).0.alive == r.alive
      && 0 <= Alloc(r, size, align).1
  {
  }

  // ----- the free lists

  lemma SlabAllocKeeps(sys: System, r: nat, size: nat)
    requires Inv(sys) && AliveAt(sys, r)
    ensures Inv(Step(sys, DoSlabAlloc(r, size)).0)
  {
    hide PairOk, ItemsOk, ListsOk, Divides, HasItem, SlabAlloc;
    assert ItemsOk(sys.regions[r]) && ListsOk(sys.regions[r], sys.words);
    SlabAllocDivides(sys.regions[r], sys.words, size);
    var sys' := Step(sys, DoSlabAlloc(r, size)).0;
    assert forall s: nat :: AliveAt(sys', s) ==> AliveAt(sys, s);
    DivideKeeps(sys, sys', r);
  }

  lemma SlabFreeKeeps(sys: System, r: nat, ptr: int, size: nat)
    requires Inv(sys) && Legal(sys, DoSlabFree(r, ptr, size))
    ensures Inv(Step(sys, DoSlabFree(r, ptr, size)).0)
  {
    hide PairOk, ItemsOk, ListsOk, Divides, HasItem;
    assert ItemsOk(sys.regions[r]);
    var sys' := Step(sys, DoSlabFree(r, ptr, size)).0;
    if ptr != NULL && SlabClass(size) < 5 {
      FreeLists(sys, r, ptr, size, r);
      FreeDivides(sys.regions[r], sys.words, ptr, size);
      forall s: nat | AliveAt(sys', s) ensures ListsOk(sys'.regions[s], sys'.words) {
        assert AliveAt(sys, s);
        FreeLists(sys, r, ptr, size, s);
      }
      DivideKeeps(sys, sys', r);
    } else {
      assert sys' == sys;
    }
  }

  /** Clients cannot reach the links through their blocks. */
  lemma WriteKeeps(sys: System, words: map<int, int>)
    requires Inv(sys) && WritesBlocks(sys, words)
    ensures Inv(sys.(words := words))
  {
    hide PairOk, ItemsOk, ListsOk, Apart;
    var sys' := sys.(words := words);
    forall r: nat | AliveAt(sys', r) ensures ListsOk(sys'.regions[r], words) {
      assert AliveAt(sys, r);
      forall c: nat, a | HasItem(sys.regions[r], Chunk(c, a)) && a in sys.words
        ensures a in words && words[a] == sys.words[a] {
        ChunkNotInBlock(sys, r, c, a);
      }
      ListsFrame(sys.regions[r], sys.words, words);
    }
    forall r: nat, s: nat | AliveAt(sys', r) && AliveAt(sys', s) && r != s ensures PairOk(sys', r, s) {
      assert AliveAt(sys, r) && AliveAt(sys, s);
      SamePair(sys, sys', r, s);
    }
    assert forall r: nat :: AliveAt(sys', r) ==> AliveAt(sys, r);
  }

  lemma SamePair(sys: System, sys': System, r: nat, s: nat)
    requires sys'.regions == sys.regions && r < |sys.regions| && s < |sys.regions| && PairOk(sys, r, s)
    ensures PairOk(sys', r, s)
  {
    hide HasItem, Apart;
  }

  lemma ChunkNotInBlock(sys: System, r: nat, c: nat, a: int)
    requires Inv(sys) && AliveAt(sys, r) && HasItem(sys.regions[r], Chunk(c, a))
    ensures !InBlock(sys, a)
  {
    hide PairOk, ListsOk;
    forall s: nat, b | AliveAt(sys, s) && b in sys.regions[s].live ensures Apart(Room(a, 8), Live(b)) {
      assert ItemsOk(sys.regions[s]);
      ChunksElsewhere(sys, s, r, b, c, a);
    }
  }

  // ----- runs

  lemma StepKeeps(sys: System, op: Operation)
    requires Inv(sys) && Legal(sys, op)
    ensures Inv(Step(sys, op).0)
  {
    hide Inv, Alloc, SlabAlloc, SlabFree, Carve, Dispose, IsPowerOfTwo;
    match op
    case DoAlloc(r, size, align) => AllocKeeps(sys, r, size, align);
    case DoEscaped(r, size, align) => AllocKeeps(sys, EscapeTo(sys, r), size, align);
    case DoSlabAlloc(r, size) => SlabAllocKeeps(sys, r, size);
    case DoSlabFree(r, ptr, size) => SlabFreeKeeps(sys, r, ptr, size);
    case DoCreate(parent, size, mem) => CreateKeeps(sys, parent, size, mem);
    case DoDispose(r) => DisposeKeeps(sys, r);
    case DoWrite(words) => WriteKeeps(sys, words);
  }

  /** The states that legal operations lead through. */
  ghost predicate LegalRun(states: seq<System>, ops: seq<Operation>) {
    && |states| == |ops| + 1
    && states[0] == System([], map[])
    && forall k :: 0 <= k < |ops| ==> LegalStep(states[k], ops[k], states[k + 1])
  }

  ghost predicate LegalStep(sys: System, op: Operation, sys': System) {
    Legal(sys, op) && sys' == Step(sys, op).0
  }

  lemma {:induction false} RunKeeps(states: seq<System>, ops: seq<Operation>, k: nat)
    requires LegalRun(states, ops) && k < |states|
    ensures Inv(states[k])
  {
    hide Legal, Step;
    if k > 0 {
      RunKeeps(states, ops, k - 1);
      assert LegalStep(states[k - 1], ops[k - 1], states[k - 1 + 1]);
      StepKeeps(states[k - 1], ops[k - 1]);
    }
  }

  /** After any run, blocks held by clients are aligned, within their region's buffer, and apart from each
      other and from every chunk of a free list. */
  lemma RegionsAreSafe(states: seq<System>, ops: seq<Operation>, k: nat, r: nat, s: nat, i: Item, j: Item)
    requires LegalRun(states, ops) && k < |states| && AliveAt(states[k], r) && AliveAt(states[k], s)
    requires HasItem(states[k].regions[r], i) && HasItem(states[k].regions[s], j) && (r != s || i != j)
    requires i.Live? && (j.Live? || j.Chunk?)
    ensures Apart(i, j) && Within(i, Extent(states[k].regions[r])) && i.block.align > 0
      && i.block.addr % i.block.align == 0
  {
    RunKeeps(states, ops, k);
    LiveBlocksAreSafe(states[k], r, s, i, j);
  }

  /** After any run, each free list is acyclic and links exactly the chunks of its class. */
  lemma ListsAreSound(states: seq<System>, ops: seq<Operation>, k: nat, r: nat, c: nat)
    requires LegalRun(states, ops) && k < |states| && AliveAt(states[k], r) && c < 5
    ensures
      var region := states[k].regions[r];
      && Linked(states[k].words, region.heads[c], region.chunks[c])
      && forall i, j :: 0 <= i < j < |region.chunks[c]| ==> region.chunks[c][i] != region.chunks[c][j]
  {
    RunKeeps(states, ops, k);
    assert ListsOk(states[k].regions[r], states[k].words);
    assert ListOk(states[k].regions[r], states[k].words, c);
  }

  // ----- who holds what

  ghost predicate Takes(r: Region, r': Region, addr: int, size: nat, align: nat) {
    exists n: nat :: n >= size && r'.live == r.live + {Block(addr, n, align)}
  }

  lemma AllocTakes(r: Region, size: nat, align: nat)
    ensures
      var (r', addr) := Alloc(r, size, align);
      if addr == NULL then r' == r else Takes(r, r', addr, size, align)
  {
    hide AlignUp;
    var (r', addr) := Alloc(r, size, align);
    if r' != r { assert r'.live == r.live + {Block(addr, size, align)}; }
  }

  lemma SlabAllocTakes(r: Region, words: map<int, int>, size: nat)
    ensures
      var (r', addr) := SlabAlloc(r, words, size);
      if addr == NULL then r' == r else Takes(r, r', addr, size, 8)
  {
    hide Alloc;
    var i := SlabClass(size);
    AllocTakes(r, if i < 5 then SLAB_SIZES[i] else size, 8);
    if i < 5 && r.heads[i] != NULL {
      assert SlabAlloc(r, words, size).0.live == r.live + {Block(r.heads[i], SLAB_SIZES[i], 8)};
    }
  }

  /** Every address a client gets is a block that it then holds, as large as asked for, and it still holds
      all that it held. */
  lemma ReturnedIsHeld(sys: System, op: Operation)
    requires Legal(sys, op) && (op.DoAlloc? || op.DoEscaped? || op.DoSlabAlloc?)
    ensures
      var (sys', addr) := Step(sys, op);
      var p := if op.DoEscaped? then EscapeTo(sys, op.region) else op.region;
      && (if addr == NULL then sys' == sys
         else Takes(sys.regions[p], sys'.regions[p], addr, op.size, if op.DoSlabAlloc? then 8 else op.align))
      && sys' == sys.(regions := sys.regions[p := sys'.regions[p]])
  {
    hide Alloc, SlabAlloc, Takes;
    match op
    case DoAlloc(r, size, align) => AllocTakes(sys.regions[r], size, align);
    case DoEscaped(r, size, align) => AllocTakes(sys.regions[EscapeTo(sys, r)], size, align);
    case DoSlabAlloc(r, size) => SlabAllocTakes(sys.regions[r], sys.words, size);
    case _ =>
  }

  /** Parents are older than their children. */
  ghost predicate ParentsFirst(sys: System) {
    forall s :: 0 <= s < |sys.regions| ==> sys.regions[s].parent < s
  }

  lemma {:induction false} RunParentsFirst(states: seq<System>, ops: seq<Operation>, k: nat)
    requires LegalRun(states, ops) && k < |states|
    ensures ParentsFirst(states[k])
  {
    hide Legal, Alloc, SlabAlloc, SlabFree, Carve, Dispose, Descends;
    if k > 0 {
      RunParentsFirst(states, ops, k - 1);
      assert LegalStep(states[k - 1], ops[k - 1], states[k - 1 + 1]);
      StepParentsFirst(states[k - 1], ops[k - 1]);
    }
  }

  lemma SameParent(r: Region, words: map<int, int>, size: nat, align: nat, ptr: int)
    ensures Alloc(r, size, align).0.parent == SlabAlloc(r, words, size).0.parent == r.parent
    ensures SlabFree(r, words, ptr, size).0.parent == Dispose(r).parent == Carve(r, size).0.parent == r.parent
  {
    hide AlignUp;
  }

  lemma StepParentsFirst(sys: System, op: Operation)
    requires Legal(sys, op) && ParentsFirst(sys)
    ensures ParentsFirst(Step(sys, op).0)
  {
    hide Alloc, SlabAlloc, SlabFree, Carve, Dispose, Descends, Supplied, WritesBlocks;
    match op
    case DoAlloc(r, size, align) => SameParent(sys.regions[r], sys.words, size, align, NULL);
    case DoEscaped(r, size, align) => SameParent(sys.regions[EscapeTo(sys, r)], sys.words, size, align, NULL);
    case DoSlabAlloc(r, size) => SameParent(sys.regions[r], sys.words, size, 8, NULL);
    case DoSlabFree(r, ptr, size) => SameParent(sys.regions[r], sys.words, size, 8, ptr);
    case DoCreate(parent, size, mem) =>
      if parent.Some? { SameParent(sys.regions[parent.value], sys.words, size, 8, NULL); }
    case DoDispose(r) => SameParent(sys.regions[r], sys.words, 0, 8, NULL);
    case DoWrite(words) =>
  }

  lemma {:induction false} OlderDescendsNot(regions: seq<Region>, s: nat, r: nat)
    requires s < |regions| && s < r
    ensures !Descends(regions, s, r)
    decreases s
  {
    if 0 <= regions[s].carvedFrom < s { OlderDescendsNot(regions, regions[s].carvedFrom, r); }
  }

  /** A value that escapes from a region with a parent outlives it: disposing of the region leaves the
      parent, and the block in it, in use. */
  lemma EscapedSurvives(states: seq<System>, ops: seq<Operation>, k: nat, r: nat, size: nat, align: nat)
    requires LegalRun(states, ops) && k < |states| && Legal(states[k], DoEscaped(r, size, align))
    requires 0 <= states[k].regions[r].parent && Step(states[k], DoEscaped(r, size, align)).1 != NULL
    ensures
      var (sys1, addr) := Step(states[k], DoEscaped(r, size, align));
      var p := states[k].regions[r].parent;
      && Legal(sys1, DoDispose(r))
      && var sys2 := Step(sys1, DoDispose(r)).0;
         AliveAt(sys2, p) && sys2.regions[r].live == {}
           && Takes(states[k].regions[p], sys2.regions[p], addr, size, align)
  {
    hide Alloc, Takes, IsPowerOfTwo;
    var sys := states[k];
    RunParentsFirst(states, ops, k);
    ReturnedIsHeld(sys, DoEscaped(r, size, align));
    var (sys1, addr) := Step(sys, DoEscaped(r, size, align));
    var p := sys.regions[r].parent;
    AllocSame(sys.regions[p], size, align);
    OlderDescendsNot(sys1.regions, p, r);
    TakesSame(sys.regions[p], sys1.regions[p], Step(sys1, DoDispose(r)).0.regions[p], addr, size, align);
  }

  lemma TakesSame(r: Region, r': Region, r3: Region, addr: int, size: nat, align: nat)
    requires Takes(r, r', addr, size, align) && r3.live == r'.live
    ensures Takes(r, r3, addr, size, align)
  {
    var n: nat :| n >= size && r'.live == r.live + {Block(addr, n, align)};
    assert r3.live == r.live + {Block(addr, n, align)};
  }

  // ----- what is returned

  lemma LeastAligned(x: nat, align: nat, a: nat)
    requires IsPowerOfTwo(align) && x <= a && a % align == 0
    ensures AlignUp(x, align) <= a
  {
    hide AndNot, IsPowerOfTwo;
    var up := AlignUp(x, align);
    AlignUpIs(x, align);
    var d := up / align - a / align;
    assert up == align * (up / align) && a == align * (a / align);
    assert up - a == align * d;
    if up > a { SmallMultiple(align, d); }
  }

  /** A block of this size and alignment fits at a. */
  ghost predicate FitsAt(r: Region, size: nat, align: nat, a: nat)
    requires align > 0
  {
    r.buffer + r.offset <= a && a + size <= r.buffer + r.capacity && a % align == 0
  }

  /** alloc fails exactly if no aligned block fits in the rest of the buffer; else it gives the lowest. */
  lemma AllocExactly(r: Region, size: nat, align: nat)
    requires r.buffer != NULL && size > 0 && IsPowerOfTwo(align)
    ensures
      var addr := Alloc(r, size, align).1;
      && ((exists a: nat :: FitsAt(r, size, align, a)) <==> addr != NULL)
      && (addr != NULL ==> FitsAt(r, size, align, addr) && forall a: nat :: FitsAt(r, size, align, a) ==> addr <= a)
  {
    hide AndNot, IsPowerOfTwo;
    var addr := AlignUp(r.buffer + r.offset, align);
    AlignUpIs(r.buffer + r.offset, align);
    assert addr + size <= r.buffer + r.capacity ==> FitsAt(r, size, align, addr);
    forall a: nat | FitsAt(r, size, align, a) ensures addr <= a { LeastAligned(r.buffer + r.offset, align, a); }
  }

  /** After disposal all of the buffer is there to allocate from again. */
  lemma DisposeReclaims(r: Region, size: nat, align: nat, a: nat)
    requires r.buffer != NULL && size > 0 && IsPowerOfTwo(align)
    requires r.buffer <= a && a + size <= r.buffer + r.capacity && a % align == 0
    ensures r.buffer <= Alloc(Dispose(r), size, align).1 <= a
  {
    hide IsPowerOfTwo, Alloc;
    AllocExactly(Dispose(r), size, align);
    assert FitsAt(Dispose(r), size, align, a);
  }

  /** A freed block is the next one that slabAlloc returns for its class, and taking it restores the lists. */
  lemma FreeThenAlloc(r: Region, words: map<int, int>, ptr: int, size: nat, size': nat)
    requires ptr != NULL && SlabClass(size) < 5 && SlabClass(size') == SlabClass(size)
    requires Block(ptr, SLAB_SIZES[SlabClass(size)], 8) in r.live
    ensures
      var (r1, words1) := SlabFree(r, words, ptr, size);
      SlabAlloc(r1, words1, size') == (r, ptr)
  {
    hide SlabClass;
    var i := SlabClass(size);
    var (r1, words1) := SlabFree(r, words, ptr, size);
    var (r2, addr) := SlabAlloc(r1, words1, size');
    assert r2.heads == r.heads;
    assert r1.chunks[i][1..] == r.chunks[i];
    assert r2.chunks == r.chunks;
    assert r2.live == r.live;
  }
}
