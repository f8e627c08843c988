/** Runs of region operations, src/core/Region.hpp:39-98: whatever clients call, in whatever order, the
    blocks they hold stay aligned, in bounds and apart, and the free lists stay well formed. */
module RegionSteps {
  import opened Options
  import opened Regions

  /** sizeof and alignof a Region object on the 64-bit target. */
  const OBJECT_SIZE: nat := 120
  const OBJECT_ALIGN: nat := 8

  /** `mem` is the cache-line aligned memory that malloc supplies, null if it cannot. DoWrite stands for
      all that clients store in their blocks between two operations. */
  datatype Operation =
    | DoAlloc(region: nat, size: nat, align: nat)
    | DoEscaped(region: nat, size: nat, align: nat)
    | DoSlabAlloc(region: nat, size: nat)
    | DoSlabFree(region: nat, ptr: int, size: nat)
    | DoCreate(parent: Option<nat>, size: nat, mem: nat)
    | DoDispose(region: nat)
    | DoWrite(words: map<int, int>)

  function NewRegion(carvedFrom: int, parent: int, buffer: nat, capacity: nat): Region {
    Region(true, carvedFrom, parent, buffer, capacity, 0, [NULL, NULL, NULL, NULL, NULL], [[], [], [], [], []], {})
  }

  /** Where an escaping value of region r is allocated. */
  function EscapeTo(sys: System, r: nat): int
    requires r < |sys.regions|
  {
    if 0 <= sys.regions[r].parent then sys.regions[r].parent else r
  }

  /** The parent after createChild asked for the two blocks, and the data block if both were served. The
      data block is the child's, no client gets it. */
  function Carve(p: Region, size: nat): (Region, nat) {
    var (p1, obj) := Alloc(p, OBJECT_SIZE, OBJECT_ALIGN);
    var (p2, data) := Alloc(p1, size, CACHE_LINE);
    if obj == NULL || data == NULL then (p2, NULL) else (p1.(offset := p2.offset), data)
  }

  /** Disposing of a region ends the regions carved out of it. */
  function EndCarved(regions: seq<Region>, r: nat): (ended: seq<Region>)
    ensures |ended| == |regions|
  {
    seq(|regions|, s requires 0 <= s < |regions| =>
      regions[s].(alive := regions[s].alive && (s == r || !Descends(regions, s, r))))
  }

  /** A word that overlaps a block some client holds. */
  ghost predicate InBlock(sys: System, a: int) {
    exists r: nat, b :: AliveAt(sys, r) && b in sys.regions[r].live && !Apart(Room(a, 8), Live(b))
  }

  ghost predicate WritesBlocks(sys: System, words: map<int, int>) {
    forall a :: a in sys.words && !InBlock(sys, a) ==> a in words && words[a] == sys.words[a]
  }

  /** Memory from malloc overlaps no region in use. */
  ghost predicate Supplied(sys: System, mem: nat, size: nat) {
    forall s: nat :: AliveAt(sys, s) ==> Apart(Extent(NewRegion(-1, -1, mem, size)), Extent(sys.regions[s]))
  }

  predicate GoodAlign(align: nat) {
    align == 0 || IsPowerOfTwo(align)
  }

  /** What callers owe: regions in use, alignments that are powers of two, slabFree with the size class of
      a block they hold, stores only inside their blocks. */
  ghost predicate Legal(sys: System, op: Operation) {
    match op
    case DoAlloc(r, size, align) => AliveAt(sys, r) && GoodAlign(align)
    case DoEscaped(r, size, align) =>
      AliveAt(sys, r) && GoodAlign(align) && 0 <= EscapeTo(sys, r) && AliveAt(sys, EscapeTo(sys, r))
    case DoSlabAlloc(r, size) => AliveAt(sys, r)
    case DoSlabFree(r, ptr, size) =>
      AliveAt(sys, r)
        && (ptr == NULL || SlabClass(size) == 5 || Block(ptr, SLAB_SIZES[SlabClass(size)], 8) in sys.regions[r].live)
    case DoCreate(parent, size, mem) => (parent.Some? ==> AliveAt(sys, parent.value)) && Supplied(sys, mem, size)
    case DoDispose(r) => AliveAt(sys, r)
    case DoWrite(words) => WritesBlocks(sys, words)
  }

  function SetRegion(sys: System, r: nat, region: Region): System
    requires r < |sys.regions|
  {
    sys.(regions := sys.regions[r := region])
  }

  function Append(sys: System, region: Region): System {
    sys.(regions := sys.regions + [region])
  }

  /** One operation: the regions and words it leaves and the address it returns. */
  ghost function Step(sys: System, op: Operation): (System, int)
    requires Legal(sys, op)
  {
    match op
    case DoAlloc(r, size, align) =>
      var (region, addr) := Alloc(sys.regions[r], size, align);
      (SetRegion(sys, r, region), addr)
    case DoEscaped(r, size, align) =>
      var (region, addr) := Alloc(sys.regions[EscapeTo(sys, r)], size, align);
      (SetRegion(sys, EscapeTo(sys, r), region), addr)
    case DoSlabAlloc(r, size) =>
      var (region, addr) := SlabAlloc(sys.regions[r], sys.words, size);
      (SetRegion(sys, r, region), addr)
    case DoSlabFree(r, ptr, size) =>
      var (region, words) := SlabFree(sys.regions[r], sys.words, ptr, size);
      (SetRegion(sys, r, region).(words := words), NULL)
    case DoCreate(parent, size, mem) =>
      if parent.None? then (Append(sys, NewRegion(-1, -1, mem, size)), mem)
      else
        var p := parent.value;
        var (region, data) := Carve(sys.regions[p], size);
        if data == NULL then (Append(SetRegion(sys, p, region), NewRegion(-1, p, mem, size)), mem)
        else (Append(SetRegion(sys, p, region), NewRegion(p, p, data, size)), data)
    case DoDispose(r) =>
      (SetRegion(sys.(regions := EndCarved(sys.regions, r)), r, Dispose(sys.regions[r])), NULL)
    case DoWrite(words) => (sys.(words := words), NULL)
  }

  // ----- dividing what a region holds

  lemma {:induction false} DivideKeeps(sys: System, sys': System, k: nat)
    requires Inv(sys) && AliveAt(sys, k) && |sys'.regions| == |sys.regions| && Divides(sys.regions[k], sys'.regions[k])
    requires forall m: nat :: m < |sys.regions| && m != k ==> sys'.regions[m] == sys.regions[m]
    requires forall r: nat :: AliveAt(sys', r) ==> ListsOk(sys'.regions[r], sys'.words)
    ensures Inv(sys')
  {
    hide PairOk, ItemsOk, ListsOk, HasItem, Within;
    forall r: nat, s: nat | AliveAt(sys', r) && AliveAt(sys', s) && r != s ensures PairOk(sys', r, s) {
      assert AliveAt(sys, r) && AliveAt(sys, s);
      PairDivides(sys, sys', k, r, s);
    }
    forall r: nat | AliveAt(sys', r) ensures ItemsOk(sys'.regions[r]) {
      assert AliveAt(sys, r);
      DividesItemsOk(sys.regions[k], sys'.regions[k]);
    }
    forall r: nat | AliveAt(sys', r) && 0 <= sys'.regions[r].carvedFrom ensures sys'.regions[r].carvedFrom < r {
      assert AliveAt(sys, r);
    }
  }

  lemma DividesItemsOk(r: Region, r': Region)
    requires Divides(r, r')
    ensures ItemsOk(r')
  {
  }

  /** The lists of the other regions are as before if the words they are linked through are. */
  lemma {:induction false} LinkedFrame(words: map<int, int>, words': map<int, int>, head: int, chunks: seq<int>)
    requires Linked(words, head, chunks)
    requires forall i ::
      0 <= i < |chunks| && chunks[i] in words ==> chunks[i] in words' && words'[chunks[i]] == words[chunks[i]]
    ensures Linked(words', head, chunks)
    decreases |chunks|
  {
    if chunks != [] {
      var rest := chunks[1..];
      assert forall i :: 0 <= i < |rest| ==> rest[i] == chunks[i + 1];
      LinkedFrame(words, words', words[head], rest);
    }
  }

  lemma ListsFrame(r: Region, words: map<int, int>, words': map<int, int>)
    requires ListsOk(r, words)
    requires forall c: nat, a :: HasItem(r, Chunk(c, a)) && a in words ==> a in words' && words'[a] == words[a]
    ensures ListsOk(r, words')
  {
    forall c: nat | c < 5 ensures ListOk(r, words', c) {
      assert ListOk(r, words, c);
      forall i | 0 <= i < |r.chunks[c]| ensures HasItem(r, Chunk(c, r.chunks[c][i])) { }
      LinkedFrame(words, words', r.heads[c], r.chunks[c]);
    }
  }

  // ----- each operation divides one region

  /** Each item of r' comes from one of r, two that come from the same one are apart. */
  ghost predicate ComesFrom(r: Region, r': Region, origin: Item -> Item) {
    && r'.buffer == r.buffer && r'.capacity == r.capacity && r'.carvedFrom == r.carvedFrom && r'.alive == r.alive
    && r'.offset <= r'.capacity
    && (forall b :: b in r'.live ==> b.size > 0 && b.align > 0 && b.addr % b.align == 0)
    && (forall j :: HasItem(r', j) ==> HasItem(r, origin(j)) && Within(j, origin(j)))
    && forall i, j :: HasItem(r', i) && HasItem(r', j) && i != j && origin(i) == origin(j) ==> Apart(i, j)
  }

  lemma Divided(r: Region, r': Region, origin: Item -> Item)
    requires ItemsOk(r) && ComesFrom(r, r', origin)
    ensures Divides(r, r')
  {
    hide HasItem, Within, Apart;
    forall i, j | HasItem(r', i) && HasItem(r', j) && i != j ensures Apart(i, j) {
      if origin(i) != origin(j) {
        ApartWithin(origin(i), i, origin(j));
        ApartSym(i, origin(j));
        ApartWithin(origin(j), j, i);
        ApartSym(j, i);
      }
    }
    forall j | HasItem(r', j) ensures Within(j, Extent(r')) {
      WithinTrans(j, origin(j), Extent(r));
    }
  }

  lemma WithinTrans(i: Item, j: Item, k: Item)
    requires Within(i, j) && Within(j, k)
    ensures Within(i, k)
  {
  }

  function RoomOf(r: Region): Item {
    Room(r.buffer + r.offset, if r.buffer == NULL then 0 else r.capacity - r.offset)
  }

  lemma AllocDivides(r: Region, size: nat, align: nat)
    requires ItemsOk(r) && GoodAlign(align)
    ensures Divides(r, Alloc(r, size, align).0)
  {
    hide Divides, ItemsOk, AndNot, IsPowerOfTwo;
    var (r', addr) := Alloc(r, size, align);
    ItemsOkMeans(r);
    if r' != r {
      AlignUpIs(r.buffer + r.offset, align);
      SplitRoom(r, r', Block(addr, size, align));
    } else {
      Divided(r, r, (j: Item) => j);
    }
  }

  /** A block taken from the room, which starts after it from now on. */
  lemma SplitRoom(r: Region, r': Region, block: Block)
    requires ItemsOk(r) && r.buffer != NULL && block.size > 0 && block.align > 0 && block.addr % block.align == 0
    requires r' == r.(offset := r'.offset, live := r.live + {block}) && r'.offset <= r.capacity
    requires r.buffer + r.offset <= block.addr && block.addr + block.size <= r.buffer + r'.offset
    ensures Divides(r, r')
  {
    hide Divides, ItemsOk;
    ItemsOkMeans(r);
    var origin := (j: Item) => if j == Live(block) || j == RoomOf(r') then RoomOf(r) else j;
    assert forall j :: HasItem(r', j) ==> j == Live(block) || j == RoomOf(r') || HasItem(r, j);
    forall j | HasItem(r', j) ensures HasItem(r, origin(j)) && Within(j, origin(j)) { }
    Divided(r, r', origin);
  }

  lemma AllocLists(r: Region, size: nat, align: nat, words: map<int, int>)
    requires ListsOk(r, words)
    ensures ListsOk(Alloc(r, size, align).0, words)
  {
    hide Linked;
    var r' := Alloc(r, size, align).0;
    forall c: nat | c < 5 ensures ListOk(r', words, c) { assert ListOk(r, words, c); }
  }

  lemma SlabAllocDivides(r: Region, words: map<int, int>, size: nat)
    requires ItemsOk(r) && ListsOk(r, words)
    ensures Divides(r, SlabAlloc(r, words, size).0) && ListsOk(SlabAlloc(r, words, size).0, words)
  {
    hide ItemsOk, Divides, IsPowerOfTwo;
    var i := SlabClass(size);
    if i < 5 && r.heads[i] != NULL {
      TakeLists(r, words, i, size);
      TakeDivides(r, words, i, size);
    } else {
      EightIsPower();
      AllocDivides(r, if i < 5 then SLAB_SIZES[i] else size, 8);
      AllocLists(r, if i < 5 then SLAB_SIZES[i] else size, 8, words);
    }
  }

  lemma EightIsPower()
    ensures IsPowerOfTwo(8) && IsPowerOfTwo(64)
  {
    assert IsPowerOfTwo(2) && IsPowerOfTwo(4) && IsPowerOfTwo(8) && IsPowerOfTwo(16) && IsPowerOfTwo(32);
  }

  /** The head of a free list that is not empty is its first chunk. */
  lemma HeadIsFirst(r: Region, words: map<int, int>, i: nat)
    requires ListsOk(r, words) && i < 5 && r.heads[i] != NULL
    ensures |r.chunks[i]| > 0 && r.chunks[i][0] == r.heads[i] && r.heads[i] % 8 == 0 && r.heads[i] in words
    ensures Linked(words, words[r.heads[i]], r.chunks[i][1..]) && r.heads[i] !in r.chunks[i][1..]
    ensures HasItem(r, Chunk(i, r.heads[i]))
  {
    assert ListOk(r, words, i);
    assert r.chunks[i][0] in r.chunks[i];
  }

  lemma TakeLists(r: Region, words: map<int, int>, i: nat, size: nat)
    requires ListsOk(r, words) && i == SlabClass(size) && i < 5 && r.heads[i] != NULL
    ensures ListsOk(SlabAlloc(r, words, size).0, words)
  {
    hide Linked;
    var r' := SlabAlloc(r, words, size).0;
    HeadIsFirst(r, words, i);
    forall c: nat | c < 5 ensures ListOk(r', words, c) {
      assert ListOk(r, words, c);
    }
  }

  lemma TakeDivides(r: Region, words: map<int, int>, i: nat, size: nat)
    requires ItemsOk(r) && ListsOk(r, words) && i == SlabClass(size) && i < 5 && r.heads[i] != NULL
    ensures Divides(r, SlabAlloc(r, words, size).0)
  {
    hide Linked, ListOk, ItemsOk, Divides, SlabClass;
    var (r', head) := SlabAlloc(r, words, size);
    HeadIsFirst(r, words, i);
    var b := Live(Block(head, SLAB_SIZES[i], 8));
    var origin := (j: Item) => if j == b then Chunk(i, head) else j;
    ItemsOkMeans(r);
    forall j | HasItem(r', j) ensures HasItem(r, origin(j)) && Within(j, origin(j)) && j != Chunk(i, head) { }
    Divided(r, r', origin);
  }

  lemma ItemsOkMeans(r: Region)
    requires ItemsOk(r)
    ensures r.offset <= r.capacity && forall b :: b in r.live ==> b.size > 0 && b.align > 0 && b.addr % b.align == 0
  {
  }

  /** Freeing turns the block into a chunk. */
  lemma FreeDivides(r: Region, words: map<int, int>, ptr: int, size: nat)
    requires ItemsOk(r)
    requires ptr != NULL && SlabClass(size) < 5 && Block(ptr, SLAB_SIZES[SlabClass(size)], 8) in r.live
    ensures Divides(r, SlabFree(r, words, ptr, size).0)
  {
    hide ItemsOk, Divides, SlabClass;
    var i := SlabClass(size);
    var r' := SlabFree(r, words, ptr, size).0;
    var b := Live(Block(ptr, SLAB_SIZES[i], 8));
    var origin := (j: Item) => if j == Chunk(i, ptr) then b else j;
    ItemsOkMeans(r);
    forall j | HasItem(r', j) ensures HasItem(r, origin(j)) && Within(j, origin(j)) && j != b { }
    Divided(r, r', origin);
  }

  /** No chunk of any free list is at the address of a live block. */
  lemma ChunksElsewhere(sys: System, r: nat, s: nat, b: Block, c: nat, a: int)
    requires Inv(sys) && AliveAt(sys, r) && AliveAt(sys, s) && b in sys.regions[r].live && b.size > 0
    requires HasItem(sys.regions[s], Chunk(c, a))
    ensures Apart(Live(b), Chunk(c, a)) && Length(Chunk(c, a)) >= 32 && a != b.addr
  {
    LiveBlocksAreSafe(sys, r, s, Live(b), Chunk(c, a));
    assert ListsOk(sys.regions[s], sys.words);
  }

  lemma FreeLists(sys: System, r: nat, ptr: int, size: nat, s: nat)
    requires Inv(sys) && AliveAt(sys, r) && AliveAt(sys, s)
    requires ptr != NULL && SlabClass(size) < 5 && Block(ptr, SLAB_SIZES[SlabClass(size)], 8) in sys.regions[r].live
    ensures
      var (r', words') := SlabFree(sys.regions[r], sys.words, ptr, size);
      ListsOk(if s == r then r' else sys.regions[s], words')
  {
    hide ItemsOk, PairOk, Linked, Apart;
    assert ListsOk(sys.regions[r], sys.words) && ListsOk(sys.regions[s], sys.words);
    var i := SlabClass(size);
    var (r', words') := SlabFree(sys.regions[r], sys.words, ptr, size);
    var before := sys.regions[s];
    forall c: nat, a | HasItem(before, Chunk(c, a)) ensures a != ptr {
      ChunksElsewhere(sys, r, s, Block(ptr, SLAB_SIZES[i], 8), c, a);
    }
    ListsFrame(before, sys.words, words');
    if s == r {
      AlignedEight(sys, r, ptr, SLAB_SIZES[i]);
      PushLists(sys.regions[r], sys.words, ptr, size);
    }
  }

  lemma AlignedEight(sys: System, r: nat, ptr: int, size: nat)
    requires Inv(sys) && AliveAt(sys, r) && Block(ptr, size, 8) in sys.regions[r].live
    ensures ptr % 8 == 0
  {
    assert ItemsOk(sys.regions[r]);
  }

  lemma PushLists(r: Region, words: map<int, int>, ptr: int, size: nat)
    requires ptr != NULL && ptr % 8 == 0 && SlabClass(size) < 5
    requires ListsOk(r, SlabFree(r, words, ptr, size).1) && forall c: nat, a :: HasItem(r, Chunk(c, a)) ==> a != ptr
    ensures
      var (r', words') := SlabFree(r, words, ptr, size);
      ListsOk(r', words')
  {
    hide Linked;
    var i := SlabClass(size);
    var (r', words') := SlabFree(r, words, ptr, size);
    forall c: nat | c < 5 ensures ListOk(r', words', c) {
      assert ListOk(r, words', c);
      if c == i {
        forall k | 0 <= k < |r.chunks[i]| ensures r.chunks[i][k] != ptr {
          assert HasItem(r, Chunk(i, r.chunks[i][k]));
        }
        LinkedCons(words', ptr, r.chunks[i]);
      }
    }
  }

  lemma LinkedCons(words: map<int, int>, ptr: int, chunks: seq<int>)
    requires ptr != NULL && ptr in words && Linked(words, words[ptr], chunks)
    ensures Linked(words, ptr, [ptr] + chunks)
  {
    assert ([ptr] + chunks)[1..] == chunks;
  }
}
