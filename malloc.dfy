/** The main allocator, Project_1/my_malloc/my_malloc.c: one process-wide
    free list (free_list.head / free_list.tail) kept in address order, the
    two counters of heap_info, and the program break that sbrk moves. */
module Malloc {
  import opened Blocks
  import opened Extents
  import opened FreeList
  import opened Steps
  import opened Carving
  import opened Invariant

  class Allocator {
    /** Every header written so far, by address (the data segment). */
    var heap: map<nat, Header>
    var head: Option<nat>
    var tail: Option<nat>
    var totalAllocated: nat
    var totalFreed: nat
    /** The program break, and the highest break the system will grant. */
    var brk: nat
    const base: nat
    const limit: nat
    /** errno == ENOMEM.  Nothing in the allocator clears it once a failed
        sbrk has set it. */
    var noMem: bool

    /** The free list from head to tail. */
    ghost var Free: seq<nat>
    /** Headers of the blocks handed out and not yet freed. */
    ghost var Live: set<nat>
    /** Bytes sbrk granted that allocate then discarded because errno was
        still ENOMEM. */
    ghost var Lost: nat

    ghost predicate Valid()
      reads this
    {
      && Sound(heap, head, tail, Free, Live, base, brk, totalAllocated + Lost, totalFreed)
      && UnlinkedOff(heap, Free)
    }

    constructor (base: nat, limit: nat)
      ensures Valid()
      ensures this.base == base && this.limit == limit && brk == base
      ensures Free == [] && Live == {} && totalAllocated == 0 && totalFreed == 0 && !noMem
    {
      this.base := base;
      this.limit := limit;
      heap := map[];
      head, tail := None, None;
      totalAllocated, totalFreed := 0, 0;
      brk := base;
      noMem := false;
      Free, Live, Lost := [], {}, 0;
    }

    // ---------------------------------------------------------------------
    // Block metadata and the free list

    method InitBlockMeta(block: nat, dataSize: nat, isAllocated: bool)
      modifies this`heap
      ensures heap == old(heap)[block := Blank(dataSize, isAllocated)]
    {
      heap := heap[block := Blank(dataSize, isAllocated)];
    }

    function IsEmpty(): (r: bool)
      reads this
      ensures Linked(heap, head, tail, Free) ==> (r <==> Free == [])
    {
      head == None && tail == None
    }

    method AppendToFreeList(toAppend: nat)
      requires Linked(heap, head, tail, Free)
      requires toAppend in heap && toAppend !in Free
      requires Free == [] ==> heap[toAppend].prev == None && heap[toAppend].next == None
      requires UnlinkedOff(heap, Free)
      modifies this`heap, this`head, this`tail, this`Free
      ensures Linked(heap, head, tail, Free) && UnlinkedOff(heap, Free)
      ensures Free == old(Free) + [toAppend]
      ensures heap == Flagged(if old(Free) == [] then old(heap)
                              else Spliced(old(heap), old(Free)[|old(Free)| - 1], toAppend), toAppend, false)
    {
      ghost var h0, s, head0 := heap, Free, head;
      if IsEmpty() {
        head := Some(toAppend);
        tail := Some(toAppend);
      } else {
        var t := tail.value;
        heap := heap[t := heap[t].(next := Some(toAppend))];
        heap := heap[toAppend := heap[toAppend].(prev := tail)];
        heap := heap[toAppend := heap[toAppend].(next := None)];
        tail := Some(toAppend);
        assert heap == Spliced(h0, t, toAppend);
      }
      assert head == if s == [] then Some(toAppend) else head0;
      heap := heap[toAppend := heap[toAppend].(isAllocated := false)];
      Free := s + [toAppend];
      AppendedLinked(h0, head0, if s == [] then None else Some(s[|s| - 1]), s, toAppend);
      AppendedOff(h0, head0, if s == [] then None else Some(s[|s| - 1]), s, toAppend);
    }

    method RemoveFromFreeList(toRemove: nat)
      requires Linked(heap, head, tail, Free)
      requires Free != [] ==> toRemove in Free
      requires UnlinkedOff(heap, Free)
      modifies this`heap, this`head, this`tail, this`Free
      ensures Linked(heap, head, tail, Free) && UnlinkedOff(heap, Free)
      ensures old(Free) == [] ==> heap == old(heap) && Free == old(Free)
      ensures old(Free) != [] ==>
                && Free == Erase(old(Free), IndexOf(old(Free), toRemove))
                && heap == Flagged(Detached(old(heap), toRemove), toRemove, true)
    {
      if IsEmpty() {
        return;
      }
      ghost var h0, s := heap, Free;
      ghost var k := IndexOf(Free, toRemove);
      IndexOfAt(s, 0);
      IndexOfAt(s, |s| - 1);
      ghost var p0, n0 := h0[toRemove].prev, h0[toRemove].next;
      assert p0 == if k == 0 then None else Some(s[k - 1]);
      assert n0 == if k == |s| - 1 then None else Some(s[k + 1]);
      if head == Some(toRemove) && tail == Some(toRemove) {
        head := None;
        tail := None;
      } else if head == Some(toRemove) {
        head := heap[toRemove].next;
        heap := heap[head.value := heap[head.value].(prev := None)];
      } else if tail == Some(toRemove) {
        tail := heap[toRemove].prev;
        heap := heap[tail.value := heap[tail.value].(next := None)];
      } else {
        var p, n := heap[toRemove].prev.value, heap[toRemove].next.value;
        heap := heap[p := heap[p].(next := Some(n))];
        heap := heap[n := heap[n].(prev := Some(p))];
      }
      heap := heap[toRemove := heap[toRemove].(prev := None, next := None)];
      assert heap == Detached(h0, toRemove);
      assert head == if k == 0 then n0 else Some(s[0]);
      assert tail == if k == |s| - 1 then p0 else Some(s[|s| - 1]);
      heap := heap[toRemove := heap[toRemove].(isAllocated := true)];
      Free := Erase(s, k);
      RemovedLinked(h0, Some(s[0]), Some(s[|s| - 1]), s, k);
      RemovedOff(h0, Some(s[0]), Some(s[|s| - 1]), s, k);
    }

    /** Links `toInsert` in after `curr` (despite the name).  With a null
        `curr` nothing is linked: the local `toInsert` is overwritten with the
        head, whose `prev` is set and then cleared again. */
    method InsertInFrontOf(toInsert: nat, curr: Option<nat>)
      requires Linked(heap, head, tail, Free)
      requires toInsert in heap && toInsert !in Free
      requires Free == [] ==> heap[toInsert].prev == None && heap[toInsert].next == None
      requires Free != [] && curr.Some? ==> curr.value in Free
      requires UnlinkedOff(heap, Free)
      modifies this`heap, this`head, this`tail, this`Free
      ensures Linked(heap, head, tail, Free) && UnlinkedOff(heap, Free)
      ensures old(Free) == [] ==> Free == [toInsert] && heap == old(heap)
      ensures old(Free) != [] && curr == None ==> Free == old(Free) && heap == old(heap)
      ensures old(Free) != [] && curr.Some? ==>
                && Free == InsertAt(old(Free), IndexOf(old(Free), curr.value) + 1, toInsert)
                && heap == Spliced(old(heap), curr.value, toInsert)
    {
      ghost var h0, s := heap, Free;
      if IsEmpty() {
        head := Some(toInsert);
        tail := Some(toInsert);
        Free := [toInsert];
        LinkedSingle(heap, toInsert);
      } else if curr == None {
        var first := head.value;
        heap := heap[first := heap[first].(prev := Some(toInsert))];
        var moved := first;
        heap := heap[moved := heap[moved].(prev := None)];
        head := Some(moved);
        assert h0[first].prev == None;
        assert heap == h0;
      } else {
        LinkAfter(curr.value, toInsert);
      }
    }

    /** insertInFrontOf's null-`curr` branch as evidently intended:
        `toInsert` points forward at the old head and becomes the head. */
    method InsertAtHead(toInsert: nat)
      requires Linked(heap, head, tail, Free) && Free != []
      requires toInsert in heap && toInsert !in Free
      modifies this`heap, this`head, this`Free
      ensures Linked(heap, head, tail, Free)
      ensures Free == [toInsert] + old(Free) && head == Some(toInsert)
      ensures View(heap, Free) == [Extent(toInsert, old(heap[toInsert].dataSize))] + old(View(heap, Free))
    {
      ghost var h0, s, tail0 := heap, Free, tail;
      var first := head.value;
      heap := heap[first := heap[first].(prev := Some(toInsert))];
      heap := heap[toInsert := heap[toInsert].(prev := None, next := Some(first))];
      head := Some(toInsert);
      assert heap == Prepended(h0, toInsert, s[0]);
      Free := [toInsert] + s;
      PrependedLinked(h0, Some(first), tail0, s, toInsert);
    }

    /** insertInFrontOf's last two branches: `toInsert` is linked in right
        after `c`, becoming the tail when `c` was the tail. */
    method LinkAfter(c: nat, toInsert: nat)
      requires Linked(heap, head, tail, Free) && c in Free
      requires toInsert in heap && toInsert !in Free && UnlinkedOff(heap, Free)
      modifies this`heap, this`tail, this`Free
      ensures Linked(heap, head, tail, Free) && UnlinkedOff(heap, Free)
      ensures Free == InsertAt(old(Free), IndexOf(old(Free), c) + 1, toInsert)
      ensures heap == Spliced(old(heap), c, toInsert)
    {
      ghost var h0, s, head0, tail0 := heap, Free, head, tail;
      ghost var k := IndexOf(s, c) + 1;
      if Some(c) == tail {
        IndexOfAt(s, |s| - 1);
        assert h0[c].next == None;
        SpliceWrites(c, toInsert);
        tail := Some(toInsert);
      } else {
        assert k < |s| && h0[c].next == Some(s[k]);
        DistinctAt(s, k - 1, k);
        SpliceWrites(c, toInsert);
      }
      Free := InsertAt(s, k, toInsert);
      InsertedLinked(h0, head0, tail0, s, k, toInsert);
      SplicedOff(h0, head0, tail0, s, k, toInsert);
    }

    /** The pointer writes that link `toInsert` after `c` and, when `c` has a
        successor, in front of that successor. */
    method SpliceWrites(c: nat, toInsert: nat)
      requires c in heap && toInsert in heap && c != toInsert
      requires heap[c].next.Some? ==> heap[c].next.value in heap && heap[c].next.value !in {c, toInsert}
      modifies this`heap
      ensures heap == Spliced(old(heap), c, toInsert)
    {
      var following := heap[c].next;
      heap := heap[c := heap[c].(next := Some(toInsert))];
      heap := heap[toInsert := heap[toInsert].(prev := Some(c))];
      heap := heap[toInsert := heap[toInsert].(next := following)];
      if following.Some? {
        heap := heap[following.value := heap[following.value].(prev := Some(toInsert))];
      }
    }

    // ---------------------------------------------------------------------
    // Coalescing

    method CoalesceWithLeft(rightBlock: nat)
      requires Linked(heap, head, tail, Free) && rightBlock in Free && UnlinkedOff(heap, Free)
      modifies this`heap, this`head, this`tail, this`Free
      ensures Linked(heap, head, tail, Free) && UnlinkedOff(heap, Free)
      ensures MergedLeft(old(heap), old(head), old(tail), old(Free), heap, Free, rightBlock)
    {
      ghost var h0, head0, tail0, s := heap, head, tail, Free;
      ghost var k := IndexOf(s, rightBlock);
      if heap[rightBlock].prev.Some?
         && rightBlock == heap[rightBlock].prev.value + heap[heap[rightBlock].prev.value].dataSize + META_SIZE
      {
        var left := heap[rightBlock].prev.value;
        assert h0[rightBlock].prev == if k == 0 then None else Some(s[k - 1]);
        ghost var grown := Resized(h0, s[k - 1], h0[left].dataSize + h0[rightBlock].dataSize + META_SIZE);
        heap := heap[left := heap[left].(dataSize := heap[left].dataSize + heap[rightBlock].dataSize + META_SIZE)];
        assert heap == grown;
        ResizedLinks(h0, head0, tail0, s, k - 1, heap[left].dataSize);
        KeptOff(h0, s, left, heap[left].dataSize);
        RemoveFromFreeList(rightBlock);
      }
    }

    method CoalesceWithRight(leftBlock: nat)
      requires Linked(heap, head, tail, Free)
      requires leftBlock in heap && (leftBlock in Free || heap[leftBlock].next == None)
      requires UnlinkedOff(heap, Free)
      modifies this`heap, this`head, this`tail, this`Free
      ensures Linked(heap, head, tail, Free) && UnlinkedOff(heap, Free)
      ensures MergedRight(old(heap), old(head), old(tail), old(Free), heap, Free, leftBlock)
      ensures leftBlock in old(Free) ==> leftBlock in Free
    {
      ghost var h0, head0, tail0, s := heap, head, tail, Free;
      if heap[leftBlock].next.Some?
         && leftBlock as int == heap[leftBlock].next.value as int - heap[leftBlock].dataSize - META_SIZE
      {
        ghost var k := IndexOf(s, leftBlock);
        var right := heap[leftBlock].next.value;
        assert h0[leftBlock].next == if k + 1 == |s| then None else Some(s[k + 1]);
        IndexOfAt(s, k + 1);
        ghost var grown := Resized(h0, s[k], h0[leftBlock].dataSize + h0[right].dataSize + META_SIZE);
        heap := heap[leftBlock := heap[leftBlock].(dataSize := heap[leftBlock].dataSize + heap[right].dataSize + META_SIZE)];
        assert heap == grown;
        ResizedLinks(h0, head0, tail0, s, k, heap[leftBlock].dataSize);
        KeptOff(h0, s, leftBlock, heap[leftBlock].dataSize);
        RemoveFromFreeList(right);
        assert Free[k] == leftBlock;
      }
    }

    /** coalesceWithRight with the absorbed successor's header marked free
        after removeFromFreeList: the list and its view end as the code
        leaves them, and the merge leaves no allocated header behind that a
        later ff_free could mistake for a handed-out block. */
    method CoalesceWithRightCorrected(leftBlock: nat)
      requires Linked(heap, head, tail, Free) && leftBlock in Free && UnlinkedOff(heap, Free)
      modifies this`heap, this`head, this`tail, this`Free
      ensures Linked(heap, head, tail, Free) && UnlinkedOff(heap, Free)
      ensures View(heap, Free) == MergeRightAt(old(View(heap, Free)), IndexOf(old(Free), leftBlock))
      ensures forall y | y in heap && y !in Free && heap[y].isAllocated ::
                y in old(heap) && y !in old(Free) && heap[y] == old(heap)[y]
    {
      ghost var h0, hd0, tl0, s0 := heap, head, tail, Free;
      ghost var k := IndexOf(s0, leftBlock);
      var merging := AdjacentRight(heap, leftBlock);
      var right := heap[leftBlock].next;
      CoalesceWithRight(leftBlock);
      if merging {
        assert h0[leftBlock].next == if k + 1 == |s0| then None else Some(s0[k + 1]);
        ghost var h1 := heap;
        assert h1 == Absorb(h0, hd0, tl0, s0, k) && Free == Erase(s0, k + 1) && right == Some(s0[k + 1]);
        heap := heap[right.value := heap[right.value].(isAllocated := false)];
        assert heap == Flagged(h1, s0[k + 1], false);
        AbsorbCleared(h0, hd0, tl0, s0, k);
        FlaggedLinked(h1, head, tail, Free, s0[k + 1], false);
        KeptOff(h1, Free, s0[k + 1], 0);
      } else {
        ApartRight(h0, hd0, tl0, s0, k);
      }
    }

    // ---------------------------------------------------------------------
    // Releasing a block

    /** The branches of deallocate that put a block back on the list: an
        empty list gets it appended; a block below the head goes through
        insertInFrontOf with a null `curr`, which links nothing, and a right
        merge that cannot apply; a block above the tail is appended and
        merged left; any other block is linked in after the last free block
        below it, found by walking from the head, then merged right and
        left. */
    method LinkByAddress(b: nat)
      requires Linked(heap, head, tail, Free) && Ordered(View(heap, Free)) && ClearBut(heap, Free, None)
      requires b in heap && b !in Free && heap[b].isAllocated && heap[b].prev == None && heap[b].next == None
      requires UnlinkedOff(heap, Free)
      modifies this`heap, this`head, this`tail, this`Free
      ensures Released(old(heap), old(Free), b, heap, head, tail, Free) && UnlinkedOff(heap, Free)
    {
      ghost var h0, hd0, tl0, s0 := heap, head, tail, Free;
      ghost var v0 := View(h0, s0);
      if IsEmpty() {
        AppendToFreeList(b);
        ReleasedEmpty(h0, b, heap, head, tail);
      } else if b < head.value {
        LinkBelow(b);
      } else if b > tail.value {
        LinkAbove(b);
      } else {
        LinkBetween(b);
      }
    }

    /** deallocate's branch for a block below the head: insertInFrontOf
        with a null `curr` links nothing, so the block is left off the list,
        and coalesceWithRight then finds no successor to merge with. */
    method LinkBelow(b: nat)
      requires Linked(heap, head, tail, Free) && Ordered(View(heap, Free)) && ClearBut(heap, Free, None)
      requires b in heap && b !in Free && heap[b].isAllocated && heap[b].prev == None && heap[b].next == None
      requires UnlinkedOff(heap, Free)
      requires Free != [] && b < Free[0]
      modifies this`heap, this`head, this`tail, this`Free
      ensures Released(old(heap), old(Free), b, heap, head, tail, Free) && UnlinkedOff(heap, Free)
    {
      ghost var h0, hd0, tl0, s0 := heap, head, tail, Free;
      InsertInFrontOf(b, None);
      CoalesceWithRight(b);
      ReleasedBelow(h0, hd0, tl0, s0, b);
    }

    /** deallocate's branch for a block above the tail: it is appended and
        merges with the block on its left. */
    method LinkAbove(b: nat)
      requires Linked(heap, head, tail, Free) && Ordered(View(heap, Free)) && ClearBut(heap, Free, None)
      requires b in heap && b !in Free && heap[b].isAllocated && heap[b].prev == None && heap[b].next == None
      requires UnlinkedOff(heap, Free)
      requires Free != [] && Free[|Free| - 1] < b
      modifies this`heap, this`head, this`tail, this`Free
      ensures Released(old(heap), old(Free), b, heap, head, tail, Free) && UnlinkedOff(heap, Free)
    {
      ghost var h0, hd0, tl0, s0 := heap, head, tail, Free;
      AppendToFreeList(b);
      ghost var h1, hd1, tl1, s1 := heap, head, tail, Free;
      CoalesceWithLeft(b);
      ReleasedAbove(h0, hd0, tl0, s0, b, h1, hd1, tl1, s1, heap, head, tail, Free);
    }

    /** deallocate's last branch, for a block between the head and the tail:
        walk from the head to the first free block above it, link it in after
        that block's predecessor, then merge right and left. */
    method LinkBetween(b: nat)
      requires Linked(heap, head, tail, Free) && Ordered(View(heap, Free)) && ClearBut(heap, Free, None)
      requires b in heap && b !in Free && heap[b].isAllocated && heap[b].prev == None && heap[b].next == None
      requires UnlinkedOff(heap, Free)
      requires Free != [] && Free[0] < b < Free[|Free| - 1]
      modifies this`heap, this`head, this`tail, this`Free
      ensures Released(old(heap), old(Free), b, heap, head, tail, Free) && UnlinkedOff(heap, Free)
    {
      ghost var h0, hd0, tl0, s0 := heap, head, tail, Free;
      ghost var v0 := View(h0, s0);
      var iter := head.value;
      ghost var i := 0;
      while iter < b
        invariant heap == h0 && Free == s0 && head == hd0 && tail == tl0
        invariant i < |s0| && iter == s0[i] && i <= Slot(v0, b)
        decreases |s0| - i
      {
        assert v0[i].addr < b;
        if i == |s0| - 1 {
          assert false;
        }
        assert h0[s0[i]].next == Some(s0[i + 1]);
        iter := heap[iter].next.value;
        i := i + 1;
      }
      assert v0[i].addr == iter && iter != b && iter != s0[0];
      assert 0 < i == Slot(v0, b);
      var curr := heap[iter].prev;
      IndexOfAt(s0, i - 1);
      assert curr == Some(s0[i - 1]);
      InsertInFrontOf(b, curr);
      ghost var h1, hd1, tl1, s1 := heap, head, tail, Free;
      assert s1 == InsertAt(s0, i, b) && h1 == Spliced(h0, s0[i - 1], b);
      assert s1[i] == b;
      CoalesceWithRight(b);
      ghost var h2, hd2, tl2, s2 := heap, head, tail, Free;
      CoalesceWithLeft(b);
      assert BetweenChain(h0, hd0, tl0, s0, b, i, h1, hd1, tl1, s1, h2, hd2, tl2, s2, heap, head, tail, Free);
      ReleasedBetween(h0, hd0, tl0, s0, b, i, h1, hd1, tl1, s1, h2, hd2, tl2, s2, heap, head, tail, Free);
    }

    /** deallocate: the block goes back on the list by address (see
        `LinkByAddress`), is marked free, and its final size plus one header
        is counted as freed.  The free view becomes `Release` of the old one,
        and the count grows by `Absorbed` more than the block's own bytes.
        Only the release of a block still handed out keeps `Valid()`: any
        other allocated header is one that a right merge absorbed (see
        `CoalesceWithRight`), and `StaleRelease` shows what releasing it
        does. */
    method Deallocate(toDeallocate: nat)
      requires Valid() && toDeallocate in heap && heap[toDeallocate].isAllocated
      modifies this`heap, this`head, this`tail, this`Free, this`totalFreed, this`Live
      ensures toDeallocate in old(Live) ==> Valid()
      ensures Linked(heap, head, tail, Free) && ClearBut(heap, Free, None) && UnlinkedOff(heap, Free)
      ensures Live == old(Live) - {toDeallocate}
      ensures View(heap, Free) == Release(old(View(heap, Free)), old(BlockOf(heap, toDeallocate)))
      ensures totalFreed == old(totalFreed) + old(heap[toDeallocate].dataSize) + META_SIZE
                            + Absorbed(old(View(heap, Free)), old(BlockOf(heap, toDeallocate)))
      ensures forall y | y in old(heap) && y !in old(Free) && y != toDeallocate :: y in heap && heap[y] == old(heap)[y]
    {
      ghost var h0, hd0, tl0, s0 := heap, head, tail, Free;
      ghost var live0, freed0 := Live, totalFreed;
      assert toDeallocate !in Free && Unlinked(heap, toDeallocate);
      LinkByAddress(toDeallocate);
      ghost var h1 := heap;
      heap := heap[toDeallocate := heap[toDeallocate].(isAllocated := false)];
      totalFreed := totalFreed + heap[toDeallocate].dataSize + META_SIZE;
      Live := Live - {toDeallocate};
      Deallocated(h0, hd0, tl0, s0, live0, base, brk, totalAllocated + Lost, freed0, toDeallocate, h1, head, tail, Free, totalFreed);
    }

    // ---------------------------------------------------------------------
    // Taking a free block

    /** splitBlock: takes `block` off the free list for `size` bytes.  With
        no room for another header after `size` bytes the whole block is
        removed; otherwise it is cut (see `CutBlock`).  The freed count drops
        by what was handed out plus one header. */
    method SplitBlock(block: nat, size: nat) returns (r: nat)
      requires Linked(heap, head, tail, Free) && Ordered(View(heap, Free)) && ClearBut(heap, Free, None)
      requires block in Free && Total(View(heap, Free)) <= totalFreed && UnlinkedOff(heap, Free)
      modifies this`heap, this`head, this`tail, this`Free, this`totalFreed
      ensures r == block && UnlinkedOff(heap, Free)
      ensures Carved(old(heap), old(Free), IndexOf(old(Free), block), size, heap, head, tail, Free)
      ensures totalFreed + Taken(old(BlockOf(heap, block)), size).size + META_SIZE == old(totalFreed)
    {
      ghost var h0, hd0, tl0, s0 := heap, head, tail, Free;
      ghost var k := IndexOf(s0, block);
      TotalAt(View(h0, s0), k);
      if size + META_SIZE > heap[block].dataSize {
        assert heap[block].dataSize == View(h0, s0)[k].size;
        RemoveFromFreeList(block);
        totalFreed := totalFreed - (heap[block].dataSize + META_SIZE);
        CarvedWhole(h0, hd0, tl0, s0, k, size, heap, head, tail, Free);
      } else {
        CutBlock(block, size);
        totalFreed := totalFreed - (size + META_SIZE);
      }
      return block;
    }

    /** splitBlock's cutting branch: a free header for the rest is written
        right after the kept `size` bytes, the block is cut down and marked
        allocated, the rest is linked in after it, and the block is removed
        from the list. */
    method CutBlock(block: nat, size: nat)
      requires Linked(heap, head, tail, Free) && Ordered(View(heap, Free)) && ClearBut(heap, Free, None)
      requires block in Free && size + META_SIZE <= heap[block].dataSize && UnlinkedOff(heap, Free)
      modifies this`heap, this`head, this`tail, this`Free
      ensures UnlinkedOff(heap, Free)
      ensures Carved(old(heap), old(Free), IndexOf(old(Free), block), size, heap, head, tail, Free)
    {
      ghost var h0, hd0, tl0, s0 := heap, head, tail, Free;
      ghost var k := IndexOf(s0, block);
      var remainFree := TrimBlock(block, size, k);
      ghost var h1 := heap;
      TrimmedOff(h0, s0, block, size);
      assert s0 != [] && IndexOf(s0, block) + 1 == k + 1;
      InsertInFrontOf(remainFree, Some(block));
      ghost var h2, hd2, tl2, s2 := heap, head, tail, Free;
      assert s2 == InsertAt(s0, k + 1, remainFree);
      assert h2 == Spliced(h1, block, remainFree);
      assert s2[k] == block;
      IndexOfAt(s2, k);
      RemoveFromFreeList(block);
      assert CutChain(h0, hd0, tl0, s0, k, size, h1, h2, hd2, tl2, s2, heap, head, tail, Free);
      CarvedCut(h0, hd0, tl0, s0, k, size, h1, h2, hd2, tl2, s2, heap, head, tail, Free);
    }

    /** splitBlock's header writes: a free header for the rest right after
        the kept `size` bytes, then the block cut down and marked allocated.
        The list is untouched and the new header is not on it. */
    method TrimBlock(block: nat, size: nat, ghost k: nat) returns (remainFree: nat)
      requires Linked(heap, head, tail, Free) && Ordered(View(heap, Free))
      requires k < |Free| && Free[k] == block && size + META_SIZE <= heap[block].dataSize
      modifies this`heap
      ensures remainFree == RemainderAt(block, size)
      ensures heap == Trim(old(heap), block, size) && Linked(heap, head, tail, Free)
      ensures remainFree in heap && remainFree !in Free
    {
      ghost var h0 := heap;
      remainFree := block + size + META_SIZE;
      var remainFreeSize := heap[block].dataSize - size - META_SIZE;
      InitBlockMeta(remainFree, remainFreeSize, false);
      heap := heap[block := heap[block].(dataSize := size)];
      heap := heap[block := heap[block].(isAllocated := true)];
      assert heap == Trim(h0, block, size);
      TrimmedLinked(h0, head, tail, Free, k, size);
      RemainderOff(h0, Free, k, size);
    }

    // ---------------------------------------------------------------------
    // Growing the data segment

    /** sbrk(n): moves the break up by `n` bytes and returns the old break;
        past `limit` it fails, leaves the break and sets errno to ENOMEM. */
    method Sbrk(n: nat) returns (r: Option<nat>)
      modifies this`brk, this`noMem
      ensures old(brk) + n <= limit ==> r == Some(old(brk)) && brk == old(brk) + n && noMem == old(noMem)
      ensures old(brk) + n > limit ==> r == None && brk == old(brk) && noMem
    {
      if brk + n <= limit {
        r := Some(brk);
        brk := brk + n;
      } else {
        r := None;
        noMem := true;
      }
    }

    /** allocate: asks sbrk for a header and `dataSize` bytes and writes an
        allocated header there.  It gives up when sbrk fails or when errno
        already holds ENOMEM, in which case the bytes sbrk did grant are
        lost. */
    method Allocate(dataSize: nat) returns (p: Option<nat>)
      requires Valid()
      modifies this`heap, this`brk, this`noMem, this`totalAllocated, this`Live, this`Lost
      ensures Valid()
      ensures View(heap, Free) == old(View(heap, Free))
      ensures brk == old(brk) + if old(brk) + dataSize + META_SIZE <= limit then dataSize + META_SIZE else 0
      ensures p.Some? <==> old(brk) + dataSize + META_SIZE <= limit && !old(noMem)
      ensures p.Some? ==>
                && p.value == DataPointer(old(brk))
                && old(brk) !in old(Live) && Live == old(Live) + {old(brk)}
                && heap[old(brk)] == Blank(dataSize, true)
                && totalAllocated == old(totalAllocated) + dataSize + META_SIZE
      ensures p == None ==> Live == old(Live) && totalAllocated == old(totalAllocated) && noMem
      ensures heap == if p.Some? then old(heap)[old(brk) := Blank(dataSize, true)] else old(heap)
      ensures Grown(old(heap), old(Free), old(Live), old(brk), old(noMem), old(totalAllocated), old(totalFreed), dataSize, p.Some?)
    {
      var blockSize := dataSize + META_SIZE;
      ghost var granted := totalAllocated + Lost;
      ghost var brk0 := brk;
      var block := Sbrk(blockSize);
      if block == None || noMem {
        if block.Some? {
          Lost := Lost + blockSize;
          GrowSound(heap, head, tail, Free, Live, base, brk0, granted, totalFreed, blockSize);
        }
        return None;
      }
      Grant(block.value, dataSize);
      return Some(DataPointer(block.value));
    }

    /** allocate once sbrk has granted the bytes from `block` up to the new
        break: the header is written and the block counted. */
    method Grant(block: nat, dataSize: nat)
      requires Sound(heap, head, tail, Free, Live, base, block, totalAllocated + Lost, totalFreed)
      requires brk == block + dataSize + META_SIZE && UnlinkedOff(heap, Free)
      modifies this`heap, this`totalAllocated, this`Live
      ensures Valid()
      ensures View(heap, Free) == old(View(heap, Free))
      ensures block !in old(Live) && Live == old(Live) + {block}
      ensures heap == old(heap)[block := Blank(dataSize, true)]
      ensures totalAllocated == old(totalAllocated) + dataSize + META_SIZE
    {
      ghost var h0, live0, granted := heap, Live, totalAllocated + Lost;
      GrantSound(h0, head, tail, Free, live0, base, block, granted, totalFreed, dataSize);
      AtBreak(h0, head, tail, Free, live0, base, block, granted, totalFreed);
      OffListWrite(h0, head, tail, Free, block, Blank(dataSize, true));
      assert UnlinkedOff(h0[block := Blank(dataSize, true)], Free) by {
        BlankOff(h0, Free, block, dataSize, true);
      }
      InitBlockMeta(block, dataSize, true);
      totalAllocated := totalAllocated + dataSize + META_SIZE;
      Live := Live + {block};
      assert heap == h0[block := Blank(dataSize, true)] && Live == live0 + {block};
      assert totalAllocated + Lost == granted + dataSize + META_SIZE && brk == block + dataSize + META_SIZE;
    }

    // ---------------------------------------------------------------------
    // The placement searches (ff_malloc and bf_malloc inline their own)

    /** findFirstFit: from `curr`, the first free header of at least `size`
        bytes. */
    method FindFirstFit(curr: Option<nat>, size: nat, ghost path: seq<nat>) returns (r: Option<nat>)
      requires IsChain(heap, curr, path)
      ensures var k := FirstIndex(heap, path, AtLeast(size, true));
              r == if k < |path| then Some(path[k]) else None
    {
      r := Blocks.FindFirstFit(heap, curr, AtLeast(size, true), path);
    }

    /** findBestFit: from `curr`, the first free header of exactly `size`
        bytes, otherwise the earliest smallest larger header, which it takes
        whether or not that header is free. */
    method FindBestFit(curr: Option<nat>, size: nat, ghost path: seq<nat>) returns (r: Option<nat>)
      requires IsChain(heap, curr, path)
      ensures var k := BestIndex(heap, path, Exactly(size, true), MoreThan(size, false));
              r == if k < |path| then Some(path[k]) else None
    {
      r := Blocks.FindBestFit(heap, curr, Exactly(size, true), MoreThan(size, false), path);
    }

    // ---------------------------------------------------------------------
    // The entry points

    /** What ff_malloc and bf_malloc do with the free block they chose,
        entry `k` of the list: splitBlock, and the block is handed out. */
    method Reuse(block: nat, size: nat, ghost k: nat)
      requires Valid() && k < |Free| && Free[k] == block
      modifies this`heap, this`head, this`tail, this`Free, this`totalFreed, this`Live
      ensures Valid()
      ensures block !in old(Live) && Live == old(Live) + {block}
      ensures View(heap, Free) == Carve(old(View(heap, Free)), k, size)
      ensures block in heap && heap[block] == Header(Taken(old(View(heap, Free))[k], size).size, true, None, None)
      ensures totalFreed + Taken(old(View(heap, Free))[k], size).size + META_SIZE == old(totalFreed)
      ensures forall y | y in old(heap) && y !in old(Free) && y !in Span(old(View(heap, Free))[k]) :: y in heap && heap[y] == old(heap)[y]
      ensures Reused(old(heap), old(Free), old(Live), old(brk), old(totalAllocated), old(totalFreed), k, size)
    {
      ghost var h0, hd0, tl0, s0, live0, freed0 := heap, head, tail, Free, Live, totalFreed;
      IndexOfAt(s0, k);
      var b := SplitBlock(block, size);
      CarveSound(h0, hd0, tl0, s0, live0, base, brk, totalAllocated + Lost, freed0, k, size, heap, head, tail, Free, totalFreed);
      Live := Live + {block};
    }

    /** The state after entry `k` of the list `s0` was split for `size` bytes
        and handed out: the view is `Carve` of the old one, the block's
        header holds what it kept and is marked allocated with null links,
        the freed count drops by that much plus one header, and every header
        off the list and outside the block is as it was. */
    ghost predicate Reused(h0: map<nat, Header>, s0: seq<nat>, live0: set<nat>, brk0: nat,
                           allocated0: nat, freed0: nat, k: nat, size: nat)
      requires InHeap(h0, s0) && k < |s0|
      reads this
    {
      var kept := Taken(View(h0, s0)[k], size).size;
      && Linked(heap, head, tail, Free)
      && View(heap, Free) == Carve(View(h0, s0), k, size)
      && s0[k] in heap && heap[s0[k]] == Header(kept, true, None, None)
      && s0[k] !in live0 && Live == live0 + {s0[k]}
      && totalFreed + kept + META_SIZE == freed0
      && brk == brk0 && totalAllocated == allocated0
      && (forall y | y in h0 && y !in s0 && y !in Span(View(h0, s0)[k]) :: y in heap && heap[y] == h0[y])
    }

    /** The state after allocate was asked for `size` bytes with the break at
        `brk0`: the list is as it was, the break moved when sbrk could grant
        the bytes, and `granted` says whether a block came of it, with a
        fresh allocated header at the old break as the only change to
        memory. */
    ghost predicate Grown(h0: map<nat, Header>, s0: seq<nat>, live0: set<nat>, brk0: nat, noMem0: bool,
                          allocated0: nat, freed0: nat, size: nat, granted: bool)
      requires InHeap(h0, s0)
      reads this
    {
      && Linked(heap, head, tail, Free) && View(heap, Free) == View(h0, s0)
      && totalFreed == freed0
      && brk == brk0 + (if brk0 + size + META_SIZE <= limit then size + META_SIZE else 0)
      && (granted <==> brk0 + size + META_SIZE <= limit && !noMem0)
      && Free == s0
      && heap == (if granted then h0[brk0 := Blank(size, true)] else h0)
      && (granted ==> && brk0 !in live0 && Live == live0 + {brk0}
                      && totalAllocated == allocated0 + size + META_SIZE)
      && (!granted ==> Live == live0 && totalAllocated == allocated0 && noMem)
    }

    /** ff_malloc: nothing for a zero size; otherwise the first free block
        of at least `size` bytes along the list, handed out one header past
        its header, or else a fresh block from allocate. */
    method FfMalloc(size: nat) returns (p: Option<nat>)
      requires Valid()
      modifies this`heap, this`head, this`tail, this`Free, this`totalFreed, this`Live
      modifies this`brk, this`noMem, this`totalAllocated, this`Lost
      ensures Valid()
      ensures size == 0 ==> p == None && unchanged(this)
      ensures p.Some? ==> && META_SIZE <= p.value && HeaderOf(p.value) !in old(Live) && Live == old(Live) + {HeaderOf(p.value)}
                          && heap[HeaderOf(p.value)].dataSize >= size
      ensures p == None ==> Live == old(Live)
      ensures size > 0 ==>
                var k := FirstIndex(old(heap), old(Free), AtLeast(size, true));
                && (k < |old(Free)| ==>
                      && p == Some(DataPointer(old(Free)[k]))
                      && Reused(old(heap), old(Free), old(Live), old(brk), old(totalAllocated), old(totalFreed), k, size))
                && (k == |old(Free)| ==>
                      && Grown(old(heap), old(Free), old(Live), old(brk), old(noMem), old(totalAllocated), old(totalFreed), size, p.Some?)
                      && (p.Some? ==> p.value == DataPointer(old(brk))))
    {
      if size == 0 {
        return None;
      }
      LinkedChain(heap, head, tail, Free);
      ghost var k := FirstIndex(heap, Free, AtLeast(size, true));
      var curr := Blocks.FindFirstFit(heap, head, AtLeast(size, true), Free);
      if curr.Some? {
        Reuse(curr.value, size, k);
        return Some(DataPointer(curr.value));
      }
      p := Allocate(size);
    }

    /** bf_malloc up to the pointer arithmetic, for a non-zero size: the
        first free block of exactly `size` bytes, else the earliest smallest
        larger one, else a fresh block from allocate.  Returns the header of
        the block handed out and whether allocate grew the heap for it. */
    method BestFitBlock(size: nat) returns (b: Option<nat>, grown: bool)
      requires Valid() && size > 0
      modifies this`heap, this`head, this`tail, this`Free, this`totalFreed, this`Live
      modifies this`brk, this`noMem, this`totalAllocated, this`Lost
      ensures Valid()
      ensures b.Some? ==> && b.value !in old(Live) && Live == old(Live) + {b.value}
                          && b.value in heap && heap[b.value].dataSize >= size
      ensures b == None ==> Live == old(Live)
      ensures var k := BestIndex(old(heap), old(Free), Exactly(size, true), MoreThan(size, true));
              && (k < |old(Free)| ==>
                    && b == Some(old(Free)[k]) && !grown
                    && Reused(old(heap), old(Free), old(Live), old(brk), old(totalAllocated), old(totalFreed), k, size))
              && (k == |old(Free)| ==>
                    && grown
                    && Grown(old(heap), old(Free), old(Live), old(brk), old(noMem), old(totalAllocated), old(totalFreed), size, b.Some?)
                    && (b.Some? ==> b.value == old(brk)))
    {
      LinkedChain(heap, head, tail, Free);
      ghost var k := BestIndex(heap, Free, Exactly(size, true), MoreThan(size, true));
      var bestFit := Blocks.FindBestFit(heap, head, Exactly(size, true), MoreThan(size, true), Free);
      if bestFit.Some? {
        assert k < |Free| && bestFit.value == Free[k] && heap[Free[k]].dataSize >= size;
        assert View(heap, Free)[k].size >= size;
        Reuse(bestFit.value, size, k);
        return bestFit, false;
      }
      assert k == |Free|;
      var p := Allocate(size);
      if p == None {
        return None, true;
      }
      return Some(HeaderOf(p.value)), true;
    }

    /** bf_malloc as written: a reused block is returned one byte past its
        header (`OneBytePast`), a fresh one one header past it. */
    method BfMalloc(size: nat) returns (p: Option<nat>)
      requires Valid()
      modifies this`heap, this`head, this`tail, this`Free, this`totalFreed, this`Live
      modifies this`brk, this`noMem, this`totalAllocated, this`Lost
      ensures Valid()
      ensures size == 0 ==> p == None && unchanged(this)
      ensures p == None ==> Live == old(Live)
      ensures size > 0 ==>
                var k := BestIndex(old(heap), old(Free), Exactly(size, true), MoreThan(size, true));
                && (k < |old(Free)| ==>
                      && p == Some(OneBytePast(old(Free)[k]))
                      && Reused(old(heap), old(Free), old(Live), old(brk), old(totalAllocated), old(totalFreed), k, size))
                && (k == |old(Free)| ==>
                      && Grown(old(heap), old(Free), old(Live), old(brk), old(noMem), old(totalAllocated), old(totalFreed), size, p.Some?)
                      && (p.Some? ==> p.value == DataPointer(old(brk))))
    {
      if size == 0 {
        return None;
      }
      var b, grown := BestFitBlock(size);
      if b == None {
        return None;
      }
      if grown {
        return Some(DataPointer(b.value));
      }
      return Some(OneBytePast(b.value));
    }

    /** bf_malloc with the commented-out `(char *) splitBlock(...) + META_SIZE`
        in place of `+ 1`: every block is returned one header past its
        header, so the free routines find it again. */
    method BfMallocCorrected(size: nat) returns (p: Option<nat>)
      requires Valid()
      modifies this`heap, this`head, this`tail, this`Free, this`totalFreed, this`Live
      modifies this`brk, this`noMem, this`totalAllocated, this`Lost
      ensures Valid()
      ensures size == 0 ==> p == None && unchanged(this)
      ensures p.Some? ==> && META_SIZE <= p.value && HeaderOf(p.value) !in old(Live)
                          && Live == old(Live) + {HeaderOf(p.value)}
                          && heap[HeaderOf(p.value)].dataSize >= size
      ensures p == None ==> Live == old(Live)
      ensures size > 0 ==>
                var k := BestIndex(old(heap), old(Free), Exactly(size, true), MoreThan(size, true));
                && (k < |old(Free)| ==>
                      && p == Some(DataPointer(old(Free)[k]))
                      && Reused(old(heap), old(Free), old(Live), old(brk), old(totalAllocated), old(totalFreed), k, size))
                && (k == |old(Free)| ==>
                      && Grown(old(heap), old(Free), old(Live), old(brk), old(noMem), old(totalAllocated), old(totalFreed), size, p.Some?)
                      && (p.Some? ==> p.value == DataPointer(old(brk))))
    {
      if size == 0 {
        return None;
      }
      var b, grown := BestFitBlock(size);
      if b == None {
        return None;
      }
      return Some(DataPointer(b.value));
    }

    /** ff_free: nothing for a null pointer; otherwise the header one header
        below the pointer is released when it is marked allocated (see
        `Deallocate`), and a free one is left alone.  An allocated header
        that is not a block still handed out is one a right merge absorbed;
        releasing it breaks `Valid()` (see `StaleRelease`). */
    method FfFree(toFree: Option<nat>)
      requires Valid()
      requires toFree.Some? ==> META_SIZE <= toFree.value && HeaderOf(toFree.value) in heap
      modifies this`heap, this`head, this`tail, this`Free, this`totalFreed, this`Live
      ensures toFree == None || !old(heap[HeaderOf(toFree.value)].isAllocated) ==> unchanged(this)
      ensures toFree == None || HeaderOf(toFree.value) in old(Live) || !old(heap[HeaderOf(toFree.value)].isAllocated) ==> Valid()
      ensures toFree.Some? && old(heap[HeaderOf(toFree.value)].isAllocated) ==>
                var b := HeaderOf(toFree.value);
                && Linked(heap, head, tail, Free) && ClearBut(heap, Free, None)
                && Live == old(Live) - {b}
                && View(heap, Free) == Release(old(View(heap, Free)), old(BlockOf(heap, b)))
                && totalFreed == old(totalFreed) + old(heap[b].dataSize) + META_SIZE
                                 + Absorbed(old(View(heap, Free)), old(BlockOf(heap, b)))
                && (forall y | y in old(heap) && y !in old(Free) && y != b :: y in heap && heap[y] == old(heap)[y])
    {
      if toFree == None {
        return;
      }
      var block := HeaderOf(toFree.value);
      if heap[block].isAllocated {
        Deallocate(block);
      }
    }

    /** bf_free: the same as ff_free. */
    method BfFree(toFree: Option<nat>)
      requires Valid()
      requires toFree.Some? ==> META_SIZE <= toFree.value && HeaderOf(toFree.value) in heap
      modifies this`heap, this`head, this`tail, this`Free, this`totalFreed, this`Live
      ensures toFree == None || !old(heap[HeaderOf(toFree.value)].isAllocated) ==> unchanged(this)
      ensures toFree == None || HeaderOf(toFree.value) in old(Live) || !old(heap[HeaderOf(toFree.value)].isAllocated) ==> Valid()
      ensures toFree.Some? && old(heap[HeaderOf(toFree.value)].isAllocated) ==>
                var b := HeaderOf(toFree.value);
                && Linked(heap, head, tail, Free) && ClearBut(heap, Free, None)
                && Live == old(Live) - {b}
                && View(heap, Free) == Release(old(View(heap, Free)), old(BlockOf(heap, b)))
                && totalFreed == old(totalFreed) + old(heap[b].dataSize) + META_SIZE
                                 + Absorbed(old(View(heap, Free)), old(BlockOf(heap, b)))
                && (forall y | y in old(heap) && y !in old(Free) && y != b :: y in heap && heap[y] == old(heap)[y])
    {
      FfFree(toFree);
    }

    /** get_data_segment_size: every byte sbrk granted, less those lost to
        a stale errno. */
    function GetDataSegmentSize(): (r: nat)
      reads this
      ensures Valid() ==> r + Lost == brk - base
    {
      totalAllocated
    }

    /** get_data_segment_free_space_size: never less than the free blocks,
        headers included, actually on the list. */
    function GetDataSegmentFreeSpaceSize(): (r: nat)
      reads this
      ensures Valid() ==> Total(View(heap, Free)) <= r
    {
      totalFreed
    }
  }
}
