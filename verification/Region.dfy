/** Regions, src/core/Region.hpp over src/core/Arena.hpp: bump allocation in a buffer, slab free lists
    whose links are stored in the freed chunks themselves, and regions carved out of other regions.

    The state is all regions and the memory words their free lists are linked through. `live` has the
    blocks handed out and not returned; `chunks` says what the free lists hold, which the invariant ties
    to the words. Addresses and sizes do not wrap around. */
module Regions {

  type Heads = h: seq<int> | |h| == 5 witness [0, 0, 0, 0, 0]

  type Chunks = c: seq<seq<int>> | |c| == 5 witness [[], [], [], [], []]

  /** A block was asked for with an alignment. */
  datatype Block = Block(addr: int, size: int, align: int)

  datatype Region = Region(
    alive: bool, carvedFrom: int, parent: int, buffer: nat, capacity: nat, offset: nat,
    heads: Heads, chunks: Chunks, live: set<Block>)

  datatype System = System(regions: seq<Region>, words: map<int, int>)

  const NULL: int := 0
  const CACHE_LINE: int := 64
  const SLAB_SIZES: seq<int> := [32, 64, 128, 256, 512]

  /** The first slab class that is large enough, 5 if none is. */
  function SlabClass(size: int): (i: nat)
    ensures i <= 5 && (forall j :: 0 <= j < i ==> SLAB_SIZES[j] < size)
    ensures if size <= 512 then i < 5 && size <= SLAB_SIZES[i] else i == 5
  {
    if size <= 32 then 0 else if size <= 64 then 1 else if size <= 128 then 2 else if size <= 256 then 3
    else if size <= 512 then 4 else 5
  }

  predicate IsPowerOfTwo(n: int): (p: bool)
    ensures p ==> n > 0
    decreases n
  {
    n == 1 || (n > 1 && n % 2 == 0 && IsPowerOfTwo(n / 2))
  }

  // ----- rounding up by masking

  /** x & ~m, bit by bit. */
  function AndNot(x: nat, m: nat): (r: nat)
    ensures x - m <= r <= x
  {
    if x == 0 then 0 else 2 * AndNot(x / 2, m / 2) + (if m % 2 == 1 then 0 else x % 2)
  }

  function AlignUp(x: nat, align: nat): (r: nat)
    requires align > 0
    ensures x <= r < x + align
  {
    AndNot(x + align - 1, align - 1)
  }

  lemma {:induction false} MaskIsFloor(x: nat, align: int)
    requires IsPowerOfTwo(align)
    ensures AndNot(x, align - 1) % align == 0
    decreases align
  {
    hide AndNot;
    if x == 0 {
      assert AndNot(x, align - 1) == 0;
    } else if align > 1 {
      var a := align / 2;
      assert (align - 1) / 2 == a - 1 && (align - 1) % 2 == 1;
      MaskIsFloor(x / 2, a);
      HalvesOf(x, align - 1);
      Doubled(AndNot(x / 2, a - 1), a, AndNot(x, align - 1), align);
    }
  }

  lemma HalvesOf(x: nat, m: nat)
    requires x > 0 && m % 2 == 1
    ensures AndNot(x, m) == 2 * AndNot(x / 2, m / 2)
  {
  }

  lemma Doubled(n: nat, a: int, n2: nat, a2: int)
    requires a > 0 && n % a == 0 && n2 == 2 * n && a2 == 2 * a
    ensures n2 % a2 == 0
  {
    var q := n / a;
    assert n == q * a;
    assert n2 == q * a2;
    MulMod(q, a2);
  }

  lemma MulMod(q: int, a: int)
    requires a > 0
    ensures q * a % a == 0
  {
    var d := q - q * a / a;
    assert q * a == a * (q * a / a) + q * a % a;
    assert a * d == q * a % a;
    SmallMultiple(a, d);
  }

  lemma SmallMultiple(a: int, d: int)
    requires 0 <= a * d < a
    ensures d == 0
  {
  }

  lemma {:induction false} MaskItself(x: nat)
    ensures AndNot(x, x) == 0
  {
    if x > 0 { MaskItself(x / 2); }
  }

  /** Masking an address of n by n - 1 leaves its lowest bit, less than n unless n is a power of two. */
  lemma {:induction false} LowestBit(n: nat)
    requires n > 0
    ensures 0 < AndNot(n, n - 1) <= n && (AndNot(n, n - 1) == n <==> IsPowerOfTwo(n))
  {
    if n % 2 == 1 {
      assert (n - 1) / 2 == n / 2;
      MaskItself(n / 2);
    } else {
      assert (n - 1) / 2 == n / 2 - 1;
      LowestBit(n / 2);
    }
  }

  ghost predicate AlignsAll(align: nat)
    requires align > 0
  {
    forall x: nat :: AlignUp(x, align) % align == 0
  }

  /** The mask aligns every address if and only if the alignment is a power of two. */
  lemma AlignsExactlyPowers(align: nat)
    requires align > 0
    ensures AlignsAll(align) <==> IsPowerOfTwo(align)
  {
    hide AndNot, IsPowerOfTwo;
    LowestBit(align);
    assert AlignUp(1, align) == AndNot(align, align - 1);
    var low := AndNot(align, align - 1);
    assert low < align ==> low % align != 0;
    if IsPowerOfTwo(align) {
      forall x: nat ensures AlignUp(x, align) % align == 0 { MaskIsFloor(x + align - 1, align); }
    }
  }

  lemma AlignUpIs(x: nat, align: int)
    requires IsPowerOfTwo(align)
    ensures AlignUp(x, align) % align == 0
  {
    MaskIsFloor(x + align - 1, align);
  }

  // ----- one region

  /** Bump allocation: the block goes at the next aligned address, null if there is no room. */
  function Alloc(r: Region, size: nat, align: nat): (Region, int)
  {
    if r.buffer == NULL || size == 0 || align == 0 then (r, NULL)
    else
      var current := r.buffer + r.offset;
      var padding := AlignUp(current, align) - current;
      if r.offset + padding + size > r.capacity then (r, NULL)
      else (r.(offset := r.offset + padding + size, live := r.live + {Block(current + padding, size, align)}),
           current + padding)
  }

  /** From the free list of the size's class if there is a chunk, else from the buffer. */
  function SlabAlloc(r: Region, words: map<int, int>, size: nat): (Region, int)
  {
    var i := SlabClass(size);
    if i < 5 && r.heads[i] != NULL then
      var head := r.heads[i];
      var next := if head in words then words[head] else NULL;
      (r.(heads := r.heads[i := next], chunks := r.chunks[i := if r.chunks[i] == [] then [] else r.chunks[i][1..]],
          live := r.live + {Block(head, SLAB_SIZES[i], 8)}), head)
    else Alloc(r, if i < 5 then SLAB_SIZES[i] else size, 8)
  }

  /** Puts a block at the front of its class's free list; larger blocks are not kept. */
  function SlabFree(r: Region, words: map<int, int>, ptr: int, size: nat): (Region, map<int, int>)
  {
    var i := SlabClass(size);
    if i < 5 && ptr != NULL then
      (r.(heads := r.heads[i := ptr], chunks := r.chunks[i := [ptr] + r.chunks[i]],
          live := r.live - {Block(ptr, SLAB_SIZES[i], 8)}), words[ptr := r.heads[i]])
    else (r, words)
  }

  function Dispose(r: Region): Region {
    r.(offset := 0, heads := [NULL, NULL, NULL, NULL, NULL], chunks := [[], [], [], [], []], live := {})
  }

  // ----- what occupies memory

  datatype Item = Live(block: Block) | Chunk(cls: nat, addr: int) | Room(start: int, length: int)

  function Start(i: Item): int {
    match i
    case Live(b) => b.addr
    case Chunk(_, a) => a
    case Room(s, _) => s
  }

  function Length(i: Item): int {
    match i
    case Live(b) => b.size
    case Chunk(c, _) => if c < 5 then SLAB_SIZES[c] else 0
    case Room(_, n) => n
  }

  predicate Apart(i: Item, j: Item) {
    Length(i) <= 0 || Length(j) <= 0 || Start(i) + Length(i) <= Start(j) || Start(j) + Length(j) <= Start(i)
  }

  predicate Within(i: Item, j: Item) {
    Length(i) <= 0 || (Start(j) <= Start(i) && Start(i) + Length(i) <= Start(j) + Length(j))
  }

  /** The whole buffer of a region. */
  function Extent(r: Region): Item {
    Room(r.buffer, if r.buffer == NULL then 0 else r.capacity)
  }

  predicate HasItem(r: Region, i: Item) {
    match i
    case Live(b) => b in r.live
    case Chunk(c, a) => c < 5 && a in r.chunks[c]
    case Room(s, n) => s == r.buffer + r.offset && n == if r.buffer == NULL then 0 else r.capacity - r.offset
  }

  // ----- the invariant of one region

  /** The list starting at head goes through the chunks and ends. */
  ghost predicate Linked(words: map<int, int>, head: int, chunks: seq<int>)
    decreases |chunks|
  {
    if chunks == [] then head == NULL
    else head == chunks[0] && head != NULL && head in words && Linked(words, words[head], chunks[1..])
  }

  ghost predicate ListsOk(r: Region, words: map<int, int>) {
    forall c :: 0 <= c < 5 ==> ListOk(r, words, c)
  }

  ghost predicate ListOk(r: Region, words: map<int, int>, c: nat)
    requires c < 5
  {
    && Linked(words, r.heads[c], r.chunks[c])
    && (forall i, j :: 0 <= i < j < |r.chunks[c]| ==> r.chunks[c][i] != r.chunks[c][j])
    && forall i :: 0 <= i < |r.chunks[c]| ==> r.chunks[c][i] % 8 == 0
  }

  ghost predicate ItemsOk(r: Region) {
    && r.offset <= r.capacity
    && (forall i :: HasItem(r, i) ==> Within(i, Extent(r)))
    && (forall i, j :: HasItem(r, i) && HasItem(r, j) && i != j ==> Apart(i, j))
    && forall b :: b in r.live ==> b.size > 0 && b.align > 0 && b.addr % b.align == 0
  }

  // ----- the invariant of all regions

  /** s is carved, directly or not, out of r, or is r. */
  predicate Descends(regions: seq<Region>, s: nat, r: nat)
    requires s < |regions|
    decreases s
  {
    s == r || (0 <= regions[s].carvedFrom < s && Descends(regions, regions[s].carvedFrom, r))
  }

  ghost predicate AliveAt(sys: System, r: nat) {
    r < |sys.regions| && sys.regions[r].alive
  }

  /** What a region holds never overlaps what another holds. */
  ghost predicate ItemsApart(sys: System, r: nat, s: nat)
    requires r < |sys.regions| && s < |sys.regions|
  {
    forall i, j :: HasItem(sys.regions[r], i) && HasItem(sys.regions[s], j) ==> Apart(i, j)
  }

  /** What s holds lies outside the buffer of r. */
  ghost predicate OutsideOf(sys: System, s: nat, r: nat)
    requires r < |sys.regions| && s < |sys.regions|
  {
    forall i :: HasItem(sys.regions[s], i) ==> Apart(i, Extent(sys.regions[r]))
  }

  ghost predicate PairOk(sys: System, r: nat, s: nat)
    requires r < |sys.regions| && s < |sys.regions|
  {
    && ItemsApart(sys, r, s)
    && (!Descends(sys.regions, s, r) ==> OutsideOf(sys, s, r))
    && (!Descends(sys.regions, s, r) && !Descends(sys.regions, r, s) ==>
       Apart(Extent(sys.regions[r]), Extent(sys.regions[s])))
  }

  ghost predicate Inv(sys: System) {
    && (forall r: nat :: AliveAt(sys, r) ==> ItemsOk(sys.regions[r]) && ListsOk(sys.regions[r], sys.words))
    && (forall r: nat, s: nat :: AliveAt(sys, r) && AliveAt(sys, s) && r != s ==> PairOk(sys, r, s))
    && (forall s: nat :: AliveAt(sys, s) && 0 <= sys.regions[s].carvedFrom ==> sys.regions[s].carvedFrom < s)
  }

  /** The blocks that clients hold are aligned, in bounds and pairwise disjoint, across all regions, and
      no free list shares memory with any of them. */
  lemma LiveBlocksAreSafe(sys: System, r: nat, s: nat, i: Item, j: Item)
    requires Inv(sys) && AliveAt(sys, r) && AliveAt(sys, s)
    requires i.Live? && (j.Live? || j.Chunk?) && HasItem(sys.regions[r], i) && HasItem(sys.regions[s], j)
      && (r != s || i != j)
    ensures Apart(i, j) && Within(i, Extent(sys.regions[r])) && i.block.align > 0 && i.block.addr % i.block.align == 0
  {
    assert ItemsOk(sys.regions[r]);
    if r != s { assert PairOk(sys, r, s); }
  }

  // ----- a region changes by dividing what it holds

  /** Everything that r' holds lies in something that r holds, and nothing in it overlaps. */
  ghost predicate Divides(r: Region, r': Region) {
    && r'.buffer == r.buffer && r'.capacity == r.capacity && r'.carvedFrom == r.carvedFrom && r'.alive == r.alive
    && ItemsOk(r') && forall j :: HasItem(r', j) ==> exists i :: HasItem(r, i) && Within(j, i)
  }

  lemma ApartWithin(i: Item, j: Item, k: Item)
    requires Apart(i, k) && Within(j, i)
    ensures Apart(j, k)
  {
  }

  lemma {:induction false} SameDescends(a: seq<Region>, b: seq<Region>, s: nat, r: nat)
    requires s < |a| <= |b| && forall k :: 0 <= k < |a| ==> a[k].carvedFrom == b[k].carvedFrom
    ensures Descends(a, s, r) == Descends(b, s, r)
    decreases s
  {
    if 0 <= a[s].carvedFrom < s { SameDescends(a, b, a[s].carvedFrom, r); }
  }

  lemma PairDivides(sys: System, sys': System, k: nat, r: nat, s: nat)
    requires k < |sys.regions| == |sys'.regions| && r < |sys.regions| && s < |sys.regions| && r != s
      && PairOk(sys, r, s)
    requires Divides(sys.regions[k], sys'.regions[k])
      && forall m: nat :: m < |sys.regions| && m != k ==> sys'.regions[m] == sys.regions[m]
    ensures PairOk(sys', r, s)
  {
    hide Within, Apart, ItemsOk, HasItem;
    assert forall m :: 0 <= m < |sys.regions| ==> sys.regions[m].carvedFrom == sys'.regions[m].carvedFrom;
    SameDescends(sys.regions, sys'.regions, s, r);
    SameDescends(sys.regions, sys'.regions, r, s);
    var a, b, a', b' := sys.regions[r], sys.regions[s], sys'.regions[r], sys'.regions[s];
    forall i, j | HasItem(a', i) && HasItem(b', j) ensures Apart(i, j) {
      var i0 :| HasItem(a, i0) && (if r == k then Within(i, i0) else i == i0);
      var j0 :| HasItem(b, j0) && (if s == k then Within(j, j0) else j == j0);
      if r == k { ApartWithin(i0, i, j); }
      if s == k {
        ApartSym(i, j0);
        ApartWithin(j0, j, i);
        ApartSym(j, i);
      }
    }
    forall j | HasItem(b', j) && !Descends(sys.regions, s, r) ensures Apart(j, Extent(a')) {
      var j0 :| HasItem(b, j0) && (if s == k then Within(j, j0) else j == j0);
      if s == k { ApartWithin(j0, j, Extent(a)); }
    }
  }

  lemma ApartSym(i: Item, j: Item)
    ensures Apart(i, j) == Apart(j, i)
  {
  }
}
