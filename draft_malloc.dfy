/** The earlier draft of the main allocator, Project_1/my_malloc/src/my_malloc.c.
    Only its well-formed routines are modelled: the list routines it calls
    (removeFromFreeList, insertInFrontOf) do not build as written, so their
    calls leave the list and the headers as they were, and nothing here keeps
    the list in shape.  Its counters are `size_t`, so they are kept modulo
    2^64. */
module Draft {
  import opened Blocks

  /** 2^64: `size_t` arithmetic is modulo this. */
  const WORD: int := 0x1_0000_0000_0000_0000

  /** An integer as the `size_t` it becomes. */
  function Wrap(x: int): (r: nat)
    ensures r < WORD
    ensures 0 <= x < WORD ==> r == x
    ensures -WORD <= x < 0 ==> r as int == x + WORD
  {
    x % WORD
  }

  /** Subtracting in `size_t` and then wrapping is subtracting first. */
  lemma WrapSub(x: int, n: int)
    ensures Wrap(Wrap(x) - n) == Wrap(x - n)
  {
    var q := x / WORD;
    assert x == q * WORD + Wrap(x);
    assert Wrap(x) - n == (x - n) - q * WORD;
    ModShift(x - n, -q);
  }

  lemma ModShift(y: int, q: int)
    ensures (y + q * WORD) % WORD == y % WORD
  {
    var r := y % WORD;
    var d := y / WORD;
    assert y + q * WORD == (d + q) * WORD + r;
  }

  /** A remainder header written `size + META_SIZE` bytes into a block of
      `dataSize` bytes and given `dataSize - size` bytes runs `META_SIZE`
      bytes past the end of the block it was cut from: the header deduction
      is missing. */
  lemma RemainderOverruns(b: nat, dataSize: nat, size: nat)
    requires size < dataSize
    ensures End(b + size + META_SIZE, Blank(dataSize - size, false))
            == End(b, Blank(dataSize, true)) + META_SIZE
  {
  }

  class Allocator {
    var heap: map<nat, Header>
    /** free_list.head / free_list.tail */
    var head: Option<nat>
    var tail: Option<nat>
    /** heap_info */
    var totalAllocated: nat
    var totalFreed: nat
    var brk: nat
    const base: nat
    const limit: nat
    /** errno == ENOMEM; nothing clears it. */
    var noMem: bool

    /** Bytes sbrk granted that allocate discarded because errno was still
        ENOMEM. */
    ghost var Lost: nat
    /** Bytes splitBlock has taken off the free-space count. */
    ghost var Reused: nat

    /** The break has only moved up, by what allocate counted or lost, and
        the free-space count is what splitBlock took off it, modulo 2^64. */
    ghost predicate Valid()
      reads this
    {
      && base <= brk <= limit
      && totalAllocated + Lost == brk - base
      && totalFreed == Wrap(-(Reused as int))
    }

    constructor (base: nat, limit: nat)
      requires base <= limit
      ensures Valid()
      ensures this.base == base && this.limit == limit && brk == base
      ensures head == None && tail == None && totalAllocated == 0 && totalFreed == 0 && !noMem
    {
      this.base := base;
      this.limit := limit;
      heap := map[];
      head, tail := None, None;
      totalAllocated, totalFreed := 0, 0;
      brk := base;
      noMem := false;
      Lost, Reused := 0, 0;
    }

    /** initBlockMeta */
    method InitBlockMeta(block: nat, dataSize: nat, isAllocated: bool)
      modifies this`heap
      ensures heap == old(heap)[block := Blank(dataSize, isAllocated)]
    {
      heap := heap[block := Blank(dataSize, isAllocated)];
    }

    /** isEmpty: true exactly when both ends are null; a list whose chain
        from `head` is `path` is then empty. */
    function IsEmpty(path: seq<nat>): (r: bool)
      reads this
      ensures IsChain(heap, head, path) ==> (r <==> path == [] && tail == None)
    {
      head == None && tail == None
    }

    /** findFirstFit: from `curr`, the first header of at least `size`
        bytes; the draft does not look at the allocated flag. */
    method FindFirstFit(curr: Option<nat>, size: nat, ghost path: seq<nat>) returns (r: Option<nat>)
      requires IsChain(heap, curr, path)
      ensures var k := FirstIndex(heap, path, AtLeast(size, false));
              r == if k < |path| then Some(path[k]) else None
    {
      r := Blocks.FindFirstFit(heap, curr, AtLeast(size, false), path);
    }

    /** findBestFit: from `curr`, the first header of exactly `size` bytes,
        otherwise the earliest smallest larger one. */
    method FindBestFit(curr: Option<nat>, size: nat, ghost path: seq<nat>) returns (r: Option<nat>)
      requires IsChain(heap, curr, path)
      ensures var k := BestIndex(heap, path, Exactly(size, false), MoreThan(size, false));
              r == if k < |path| then Some(path[k]) else None
    {
      r := Blocks.FindBestFit(heap, curr, Exactly(size, false), MoreThan(size, false), path);
    }

    /** allocate: sbrk for a header and `dataSize` bytes; on success an
        allocated header is written there and the block counted. */
    method Allocate(dataSize: nat) returns (p: Option<nat>)
      requires Valid()
      modifies this`heap, this`brk, this`noMem, this`totalAllocated, this`Lost
      ensures Valid()
      ensures brk == old(brk) + if old(brk) + dataSize + META_SIZE <= limit then dataSize + META_SIZE else 0
      ensures p.Some? <==> old(brk) + dataSize + META_SIZE <= limit && !old(noMem)
      ensures p.Some? ==>
                && p.value == DataPointer(old(brk))
                && heap == old(heap)[old(brk) := Blank(dataSize, true)]
                && totalAllocated == old(totalAllocated) + dataSize + META_SIZE
      ensures p == None ==> heap == old(heap) && totalAllocated == old(totalAllocated) && noMem
    {
      var blockSize := dataSize + META_SIZE;
      var allocatedBlock: Option<nat> := None;
      if brk + blockSize <= limit {
        allocatedBlock := Some(brk);
        brk := brk + blockSize;
      } else {
        noMem := true;
      }
      if allocatedBlock == None || noMem {
        if allocatedBlock.Some? {
          Lost := Lost + blockSize;
        }
        return None;
      }
      InitBlockMeta(allocatedBlock.value, dataSize, true);
      totalAllocated := totalAllocated + blockSize;
      return Some(DataPointer(allocatedBlock.value));
    }

    /** splitBlock: a block of exactly `size` bytes is taken whole; a larger
        one gets a free remainder header `size + META_SIZE` bytes in, sized
        `dataSize - size` (see `RemainderOverruns`), and is cut down to `size`
        bytes and marked allocated.  The free-space count drops by what was
        taken plus one header. */
    method SplitBlock(block: nat, size: nat) returns (r: nat)
      requires Valid() && block in heap && size <= heap[block].dataSize
      modifies this`heap, this`totalFreed, this`Reused
      ensures Valid()
      ensures r == block
      ensures size == old(heap[block].dataSize) ==>
                heap == old(heap) && Reused == old(Reused) + size + META_SIZE
      ensures size < old(heap[block].dataSize) ==>
                && heap == old(heap)[block + size + META_SIZE := Blank(old(heap[block].dataSize) - size, false)]
                                    [block := old(heap[block]).(dataSize := size, isAllocated := true)]
                && Reused == old(Reused) + size + META_SIZE
    {
      WrapSub(-(Reused as int), size + META_SIZE);
      if size == heap[block].dataSize {
        totalFreed := Wrap(totalFreed - (heap[block].dataSize + META_SIZE));
        Reused := Reused + size + META_SIZE;
      } else {
        var remainFree := block + size + META_SIZE;
        var remainFreeSize := heap[block].dataSize - size;
        InitBlockMeta(remainFree, remainFreeSize, false);
        totalFreed := Wrap(totalFreed - (size + META_SIZE));
        Reused := Reused + size + META_SIZE;
        heap := heap[block := heap[block].(dataSize := size)];
        heap := heap[block := heap[block].(isAllocated := true)];
      }
      return block;
    }

    /** coalesceWithLeft: a left neighbour (`prev`) that ends exactly where
        the block starts grows by the block and its header. */
    method CoalesceWithLeft(rightBlock: nat)
      requires rightBlock in heap
      requires heap[rightBlock].prev.Some? ==> heap[rightBlock].prev.value in heap
      modifies this`heap
      ensures var left := old(heap[rightBlock].prev);
              if left.Some? && rightBlock == End(left.value, old(heap[left.value])) then
                && heap == old(heap)[left.value := old(heap[left.value]).(dataSize := old(heap[left.value].dataSize + META_SIZE + heap[rightBlock].dataSize))]
                && End(left.value, heap[left.value]) == End(rightBlock, old(heap[rightBlock]))
              else heap == old(heap)
    {
      var left := heap[rightBlock].prev;
      if left != None && rightBlock == left.value + heap[left.value].dataSize + META_SIZE {
        heap := heap[left.value := heap[left.value].(dataSize := heap[left.value].dataSize + heap[rightBlock].dataSize + META_SIZE)];
      }
    }

    /** coalesceWithRight: a right neighbour (`next`) that starts exactly
        where the block ends is absorbed with its header. */
    method CoalesceWithRight(leftBlock: nat)
      requires leftBlock in heap
      requires heap[leftBlock].next.Some? ==> heap[leftBlock].next.value in heap
      modifies this`heap
      ensures var right := old(heap[leftBlock].next);
              if right.Some? && right.value == End(leftBlock, old(heap[leftBlock])) then
                && heap == old(heap)[leftBlock := old(heap[leftBlock]).(dataSize := old(heap[leftBlock].dataSize + META_SIZE + heap[right.value].dataSize))]
                && End(leftBlock, heap[leftBlock]) == End(right.value, old(heap[right.value]))
              else heap == old(heap)
    {
      var right := heap[leftBlock].next;
      if right != None && leftBlock as int == right.value - heap[leftBlock].dataSize - META_SIZE {
        var rightBlock := right.value;
        heap := heap[leftBlock := heap[leftBlock].(dataSize := heap[leftBlock].dataSize + heap[rightBlock].dataSize + META_SIZE)];
      }
    }

    /** ff_malloc: the first header of at least `size` bytes on the list,
        split and handed out one byte past its header, or else a fresh block
        from allocate.  The draft has no zero-size check. */
    method FfMalloc(size: nat, ghost path: seq<nat>) returns (p: Option<nat>)
      requires Valid() && IsChain(heap, head, path)
      modifies this`heap, this`brk, this`noMem, this`totalAllocated, this`Lost, this`totalFreed, this`Reused
      ensures Valid()
      ensures var k := FirstIndex(old(heap), path, AtLeast(size, false));
              k < |path| ==>
                var b := path[k];
                && p == Some(OneBytePast(b))
                && brk == old(brk) && totalAllocated == old(totalAllocated)
                && Reused == old(Reused) + size + META_SIZE
                && (size == old(heap[b].dataSize) ==> heap == old(heap))
                && (size < old(heap[b].dataSize) ==>
                      heap == old(heap)[b + size + META_SIZE := Blank(old(heap[b].dataSize) - size, false)]
                                       [b := old(heap[b]).(dataSize := size, isAllocated := true)])
      ensures var k := FirstIndex(old(heap), path, AtLeast(size, false));
              k == |path| ==>
                && brk == old(brk) + (if old(brk) + size + META_SIZE <= limit then size + META_SIZE else 0)
                && (p.Some? <==> old(brk) + size + META_SIZE <= limit && !old(noMem))
                && (p.Some? ==> && p.value == DataPointer(old(brk))
                                && heap == old(heap)[old(brk) := Blank(size, true)]
                                && totalAllocated == old(totalAllocated) + size + META_SIZE)
                && (p == None ==> heap == old(heap) && totalAllocated == old(totalAllocated) && noMem)
                && totalFreed == old(totalFreed) && Reused == old(Reused)
    {
      var curr := head;
      curr := FindFirstFit(curr, size, path);
      if curr != None {
        var b := SplitBlock(curr.value, size);
        return Some(OneBytePast(b));
      }
      p := Allocate(size);
    }

    /** get_data_segment_size: every byte sbrk granted, less those lost to
        a stale errno. */
    function GetDataSegmentSize(): (r: nat)
      reads this
      ensures Valid() ==> r + Lost == brk - base
    {
      totalAllocated
    }

    /** get_data_segment_free_space_size: the count only ever drops, so once
        splitBlock has taken anything it reads as 2^64 less what it took. */
    function GetDataSegmentFreeSpaceSize(): (r: nat)
      reads this
      ensures Valid() ==> r == Wrap(-(Reused as int))
      ensures Valid() && 0 < Reused <= WORD ==> r == WORD - Reused
    {
      totalFreed
    }
  }
}
