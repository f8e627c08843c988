/** The Region class, src/core/Region.hpp:7-98 and src/core/Arena.hpp:14-110, against the functions of the
    region model. Memory is shared by all regions: the free lists are linked through it. */
module RegionObjects {
  import R = Regions
  import S = RegionSteps

  class Memory {
    var words: map<int, int>

    constructor ()
      ensures words == map[]
    {
      words := map[];
    }
  }

  class RegionObject {
    const memory: Memory
    const parentRegion: RegionObject?
    const buffer: nat
    const capacity: nat
    var offset: nat
    var freeLists: R.Heads
    ghost const carvedFrom: int
    ghost const parentIndex: int
    ghost var chunks: R.Chunks
    ghost var live: set<R.Block>

    ghost function View(): R.Region
      reads this
    {
      R.Region(true, carvedFrom, parentIndex, buffer, capacity, offset, freeLists, chunks, live)
    }

    constructor (memory: Memory, parent: RegionObject?, buffer: nat, capacity: nat, ghost carvedFrom: int,
        ghost parentIndex: int)
      ensures View() == S.NewRegion(carvedFrom, parentIndex, buffer, capacity)
      ensures this.memory == memory && parentRegion == parent
    {
      this.memory, parentRegion, this.buffer, this.capacity, offset := memory, parent, buffer, capacity, 0;
      freeLists := [R.NULL, R.NULL, R.NULL, R.NULL, R.NULL];
      this.carvedFrom, this.parentIndex, chunks, live := carvedFrom, parentIndex, [[], [], [], [], []], {};
    }

    method Alloc(size: nat, align: nat) returns (addr: int)
      modifies this
      ensures (View(), addr) == R.Alloc(old(View()), size, align)
    {
      if buffer == R.NULL || size == 0 || align == 0 {
        return R.NULL;
      }
      var current := buffer + offset;
      var padding := R.AlignUp(current, align) - current;
      if offset + padding + size > capacity {
        return R.NULL;
      }
      offset := offset + padding;
      addr := buffer + offset;
      offset := offset + size;
      live := live + {R.Block(addr, size, align)};
    }

    method SlabAlloc(size: nat) returns (addr: int)
      modifies this
      ensures (View(), addr) == R.SlabAlloc(old(View()), memory.words, size)
    {
      var i := R.SlabClass(size);
      if i < 5 && freeLists[i] != R.NULL {
        var head := freeLists[i];
        var next := if head in memory.words then memory.words[head] else R.NULL;
        freeLists := freeLists[i := next];
        chunks := chunks[i := if chunks[i] == [] then [] else chunks[i][1..]];
        live := live + {R.Block(head, R.SLAB_SIZES[i], 8)};
        return head;
      }
      var allocSize := if i < 5 then R.SLAB_SIZES[i] else size;
      addr := Alloc(allocSize, 8);
    }

    method SlabFree(ptr: int, size: nat)
      modifies this, memory
      ensures (View(), memory.words) == R.SlabFree(old(View()), old(memory.words), ptr, size)
    {
      var i := R.SlabClass(size);
      if i < 5 && ptr != R.NULL {
        memory.words := memory.words[ptr := freeLists[i]];
        freeLists := freeLists[i := ptr];
        chunks := chunks[i := [ptr] + chunks[i]];
        live := live - {R.Block(ptr, R.SLAB_SIZES[i], 8)};
      }
    }

    method AllocEscaped(size: nat, align: nat) returns (addr: int)
      modifies this, parentRegion
      ensures parentRegion != null ==> (parentRegion.View(), addr) == R.Alloc(old(parentRegion.View()), size, align)
      ensures parentRegion == null ==> (View(), addr) == R.Alloc(old(View()), size, align)
      ensures parentRegion != null && parentRegion != this ==> View() == old(View())
    {
      if parentRegion != null {
        addr := parentRegion.Alloc(size, align);
      } else {
        addr := Alloc(size, align);
      }
    }

    method Dispose()
      modifies this
      ensures View() == R.Dispose(old(View()))
    {
      offset := 0;
      chunks, live := [[], [], [], [], []], {};
      var i := 0;
      while i < 5
        invariant 0 <= i <= 5
        invariant forall k :: 0 <= k < i ==> freeLists[k] == R.NULL
        invariant View().(heads := old(freeLists)) == R.Dispose(old(View())).(heads := old(freeLists))
      {
        freeLists := freeLists[i := R.NULL];
        i := i + 1;
      }
      assert freeLists == [R.NULL, R.NULL, R.NULL, R.NULL, R.NULL];
    }

    /** `mem` is what malloc would supply, `index` the number of the parent. */
    static method CreateChild(memory: Memory, parent: RegionObject?, size: nat, mem: nat, ghost index: nat)
        returns (child: RegionObject)
      modifies parent
      ensures fresh(child) && child.memory == memory && child.parentRegion == parent
      ensures parent == null ==> child.View() == S.NewRegion(-1, -1, mem, size)
      ensures parent != null ==> parent.View() == S.Carve(old(parent.View()), size).0
      ensures parent != null ==>
        var data := S.Carve(old(parent.View()), size).1;
        child.View() == if data == R.NULL then S.NewRegion(-1, index, mem, size)
        else S.NewRegion(index, index, data, size)
    {
      if parent == null {
        child := new RegionObject(memory, null, mem, size, -1, -1);
        return;
      }
      var obj := parent.Alloc(S.OBJECT_SIZE, S.OBJECT_ALIGN);
      ghost var live := parent.live;
      var data := parent.Alloc(size, R.CACHE_LINE);
      if obj == R.NULL || data == R.NULL {
        child := new RegionObject(memory, parent, mem, size, -1, index);
      } else {
        parent.live := live;
        child := new RegionObject(memory, parent, data, size, index, index);
      }
    }
  }
}
