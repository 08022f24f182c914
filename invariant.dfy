/** What the main allocator keeps true between calls, and why releasing a
    block keeps it. */
module Invariant {
  import opened Blocks
  import opened Extents
  import opened FreeList
  import opened Steps
  import opened Carving

  /** The block whose header is at `x`, as an extent. */
  ghost function BlockOf(heap: map<nat, Header>, x: nat): (e: Extent)
    requires x in heap
    ensures e.addr == x && e.size == heap[x].dataSize
  {
    Extent(x, heap[x].dataSize)
  }

  /** The blocks handed out (`live`) carry allocated headers with null links
      and overlap neither the free blocks `v` nor one another. */
  ghost predicate Handed(heap: map<nat, Header>, v: seq<Extent>, live: set<nat>)
  {
    && (forall x | x in live :: x in heap && heap[x].isAllocated && heap[x].prev == None && heap[x].next == None)
    && (forall x | x in live :: Span(BlockOf(heap, x)) !! Bytes(v))
    && (forall x, y | x in live && y in live && x != y :: Span(BlockOf(heap, x)) !! Span(BlockOf(heap, y)))
  }

  /** Every free and every handed-out byte lies between `lo` and `hi`. */
  ghost predicate Arena(heap: map<nat, Header>, v: seq<Extent>, live: set<nat>, lo: nat, hi: nat)
    requires forall x | x in live :: x in heap
  {
    && (forall a | a in Bytes(v) :: lo <= a < hi)
    && (forall x | x in live :: lo <= x && Limit(BlockOf(heap, x)) <= hi)
  }

  /** A handed-out block is not on the free list. */
  lemma LiveOff(heap: map<nat, Header>, s: seq<nat>, live: set<nat>, x: nat)
    requires InHeap(heap, s) && Handed(heap, View(heap, s), live) && x in live
    ensures x !in s
  {
    var v := View(heap, s);
    forall i | 0 <= i < |s|
      ensures s[i] != x
    {
      SpanInBytes(v, i);
      assert s[i] in Span(v[i]);
    }
  }

  /** The allocator's state is sound: the free list is well linked, in
      address order, fully coalesced and holds only free headers; the blocks
      handed out overlap neither it nor each other; everything lies between
      the start of the heap and the break; `granted` is what sbrk has
      granted and `freed` is at least what the free list holds. */
  ghost predicate Sound(heap: map<nat, Header>, head: Option<nat>, tail: Option<nat>, s: seq<nat>,
                        live: set<nat>, base: nat, brk: nat, granted: nat, freed: nat)
  {
    && Linked(heap, head, tail, s)
    && Ordered(View(heap, s))
    && Coalesced(View(heap, s))
    && ClearBut(heap, s, None)
    && Handed(heap, View(heap, s), live)
    && base <= brk
    && Arena(heap, View(heap, s), live, base, brk)
    && granted == brk - base
    && Total(View(heap, s)) <= freed
  }

  /** The handed-out blocks other than `b` keep their headers through a
      release of `b`. */
  lemma ReleaseKeepsLive(h0: map<nat, Header>, s0: seq<nat>, live: set<nat>, b: nat, h: map<nat, Header>)
    requires InHeap(h0, s0) && Handed(h0, View(h0, s0), live) && b in live
    requires forall y | y in h0 && y !in s0 && y != b :: y in h && h[y] == h0[y]
    ensures forall x | x in live - {b} :: x in h && h[x] == h0[x] && BlockOf(h, x) == BlockOf(h0, x)
  {
    forall x | x in live - {b} ensures x in h && h[x] == h0[x] {
      LiveOff(h0, s0, live, x);
    }
  }

  /** Releasing a handed-out block `b` keeps the allocator sound, with `b`
      no longer handed out and the freed count raised by `b`'s final size
      plus one header. */
  lemma ReleaseSound(h0: map<nat, Header>, head0: Option<nat>, tail0: Option<nat>, s0: seq<nat>,
                     live: set<nat>, base: nat, brk: nat, granted: nat, freed: nat, b: nat,
                     h: map<nat, Header>, head: Option<nat>, tail: Option<nat>, s: seq<nat>, freed2: nat)
    requires Sound(h0, head0, tail0, s0, live, base, brk, granted, freed) && b in live
    requires Released(h0, s0, b, h, head, tail, s)
    requires freed2 == freed + Flagged(h, b, false)[b].dataSize + META_SIZE
    ensures Sound(Flagged(h, b, false), head, tail, s, live - {b}, base, brk, granted, freed2)
  {
    var h1 := Flagged(h, b, false);
    var v0 := View(h0, s0);
    ReleaseKeepsLive(h0, s0, live, b, h1);
    ReleaseShape(v0, BlockOf(h0, b));
    ReleaseLive(h0, s0, live, base, brk, b, h1, View(h1, s));
  }

  /** What deallocate leaves for any allocated header `b`: the list stays
      linked and free, the view is `Release` of the old one, the freed count
      grows by `b`'s own bytes plus what merged into it, and the allocator
      stays sound when `b` was handed out. */
  lemma Deallocated(h0: map<nat, Header>, head0: Option<nat>, tail0: Option<nat>, s0: seq<nat>,
                    live: set<nat>, base: nat, brk: nat, granted: nat, freed: nat, b: nat,
                    h: map<nat, Header>, head: Option<nat>, tail: Option<nat>, s: seq<nat>, freed2: nat)
    requires Sound(h0, head0, tail0, s0, live, base, brk, granted, freed)
    requires b in h0 && Released(h0, s0, b, h, head, tail, s) && UnlinkedOff(h, s)
    requires freed2 == freed + Flagged(h, b, false)[b].dataSize + META_SIZE
    ensures var h1 := Flagged(h, b, false);
            && Linked(h1, head, tail, s) && ClearBut(h1, s, None) && UnlinkedOff(h1, s)
            && View(h1, s) == Release(View(h0, s0), BlockOf(h0, b))
            && freed2 == freed + h0[b].dataSize + META_SIZE + Absorbed(View(h0, s0), BlockOf(h0, b))
            && (b in live ==> Sound(h1, head, tail, s, live - {b}, base, brk, granted, freed2))
            && (forall y | y in h0 && y !in s0 && y != b :: y in h1 && h1[y] == h0[y])
  {
    KeptOff(h, s, b, 0);
    if b in live {
      ReleaseSound(h0, head0, tail0, s0, live, base, brk, granted, freed, b, h, head, tail, s, freed2);
    }
  }

  /** The blocks still handed out after releasing `b` stay clear of the new
      free bytes, which lie within the old ones and `b`'s. */
  lemma ReleaseLive(h0: map<nat, Header>, s0: seq<nat>, live: set<nat>, base: nat, brk: nat, b: nat,
                    h1: map<nat, Header>, v: seq<Extent>)
    requires InHeap(h0, s0) && Handed(h0, View(h0, s0), live) && b in live
    requires Arena(h0, View(h0, s0), live, base, brk)
    requires forall x | x in live - {b} :: x in h1 && h1[x] == h0[x] && BlockOf(h1, x) == BlockOf(h0, x)
    requires Bytes(v) <= Bytes(View(h0, s0)) + Span(BlockOf(h0, b))
    ensures Handed(h1, v, live - {b})
    ensures Arena(h1, v, live - {b}, base, brk)
  {
    forall x | x in live - {b} ensures Span(BlockOf(h1, x)) !! Bytes(v) {
      assert Span(BlockOf(h0, x)) !! Span(BlockOf(h0, b));
    }
  }

  /** The block carved out of entry `k` lies inside that entry, so inside the
      free bytes. */
  lemma TakenInside(v: seq<Extent>, k: nat, size: nat)
    requires k < |v|
    ensures Span(Taken(v[k], size)) <= Span(v[k]) <= Bytes(v)
  {
    SpanInBytes(v, k);
  }

  /** The handed-out blocks keep their headers through a carve, and the
      carved block was not one of them. */
  lemma CarveKeepsLive(h0: map<nat, Header>, s0: seq<nat>, live: set<nat>, k: nat, size: nat,
                       h: map<nat, Header>, head: Option<nat>, tail: Option<nat>, s: seq<nat>)
    requires InHeap(h0, s0) && Handed(h0, View(h0, s0), live)
    requires k < |s0| && Carved(h0, s0, k, size, h, head, tail, s)
    ensures s0[k] !in live
    ensures forall x | x in live :: x in h && h[x] == h0[x] && BlockOf(h, x) == BlockOf(h0, x)
  {
    var v0 := View(h0, s0);
    TakenInside(v0, k, size);
    forall x | x in live ensures x !in Span(v0[k]) && x in h && h[x] == h0[x] {
      LiveOff(h0, s0, live, x);
      assert x in Span(BlockOf(h0, x));
    }
    LiveOff2(h0, s0, live, k);
  }

  /** An entry of the free list is not handed out. */
  lemma LiveOff2(h: map<nat, Header>, s: seq<nat>, live: set<nat>, k: nat)
    requires InHeap(h, s) && Handed(h, View(h, s), live) && k < |s|
    ensures s[k] !in live
  {
    if s[k] in live {
      LiveOff(h, s, live, s[k]);
    }
  }

  /** After a carve the carved block is the `Taken` part of its entry, and
      the free bytes are the old ones less that part. */
  lemma CarveFacts(h0: map<nat, Header>, s0: seq<nat>, live: set<nat>, k: nat, size: nat,
                   h: map<nat, Header>, head: Option<nat>, tail: Option<nat>, s: seq<nat>)
    requires InHeap(h0, s0) && Ordered(View(h0, s0)) && Coalesced(View(h0, s0))
    requires k < |s0| && Carved(h0, s0, k, size, h, head, tail, s)
    ensures s0[k] in h && BlockOf(h, s0[k]) == Taken(View(h0, s0)[k], size)
    ensures Span(Taken(View(h0, s0)[k], size)) <= Bytes(View(h0, s0))
    ensures Bytes(View(h, s)) <= Bytes(View(h0, s0))
    ensures Span(Taken(View(h0, s0)[k], size)) !! Bytes(View(h, s))
  {
    CarvePlaced(View(h0, s0), k, size);
    TakenInside(View(h0, s0), k, size);
  }

  /** Carving keeps the handed-out blocks apart from the free list and from
      each other once the carved block joins them. */
  lemma CarveHanded(h0: map<nat, Header>, s0: seq<nat>, live: set<nat>, k: nat, size: nat,
                    h: map<nat, Header>, head: Option<nat>, tail: Option<nat>, s: seq<nat>)
    requires InHeap(h0, s0) && Handed(h0, View(h0, s0), live)
    requires Ordered(View(h0, s0)) && Coalesced(View(h0, s0))
    requires k < |s0| && Carved(h0, s0, k, size, h, head, tail, s)
    ensures Handed(h, View(h, s), live + {s0[k]})
  {
    CarveHeaders(h0, s0, live, k, size, h, head, tail, s);
    CarveOffFree(h0, s0, live, k, size, h, head, tail, s);
    CarveApart(h0, s0, live, k, size, h, head, tail, s);
  }

  /** The handed-out headers, the carved one among them, stay allocated and
      unlinked. */
  lemma CarveHeaders(h0: map<nat, Header>, s0: seq<nat>, live: set<nat>, k: nat, size: nat,
                     h: map<nat, Header>, head: Option<nat>, tail: Option<nat>, s: seq<nat>)
    requires InHeap(h0, s0) && Handed(h0, View(h0, s0), live)
    requires k < |s0| && Carved(h0, s0, k, size, h, head, tail, s)
    ensures forall x | x in live + {s0[k]} ::
              x in h && h[x].isAllocated && h[x].prev == None && h[x].next == None
  {
    CarveKeepsLive(h0, s0, live, k, size, h, head, tail, s);
  }

  /** No handed-out block, the carved one among them, overlaps the free
      list left by the carve. */
  lemma CarveOffFree(h0: map<nat, Header>, s0: seq<nat>, live: set<nat>, k: nat, size: nat,
                     h: map<nat, Header>, head: Option<nat>, tail: Option<nat>, s: seq<nat>)
    requires InHeap(h0, s0) && Handed(h0, View(h0, s0), live)
    requires Ordered(View(h0, s0)) && Coalesced(View(h0, s0))
    requires k < |s0| && Carved(h0, s0, k, size, h, head, tail, s)
    ensures forall x | x in live + {s0[k]} :: x in h && Span(BlockOf(h, x)) !! Bytes(View(h, s))
  {
    CarveKeepsLive(h0, s0, live, k, size, h, head, tail, s);
    CarveFacts(h0, s0, live, k, size, h, head, tail, s);
  }

  /** The carved block overlaps no block still handed out. */
  lemma CarveApart(h0: map<nat, Header>, s0: seq<nat>, live: set<nat>, k: nat, size: nat,
                   h: map<nat, Header>, head: Option<nat>, tail: Option<nat>, s: seq<nat>)
    requires InHeap(h0, s0) && Handed(h0, View(h0, s0), live)
    requires Ordered(View(h0, s0)) && Coalesced(View(h0, s0))
    requires k < |s0| && Carved(h0, s0, k, size, h, head, tail, s)
    ensures forall x, y | x in live + {s0[k]} && y in live + {s0[k]} && x != y ::
              x in h && y in h && Span(BlockOf(h, x)) !! Span(BlockOf(h, y))
  {
    CarveKeepsLive(h0, s0, live, k, size, h, head, tail, s);
    CarveFacts(h0, s0, live, k, size, h, head, tail, s);
  }

  /** Carving keeps everything inside the arena. */
  lemma CarveArena(h0: map<nat, Header>, s0: seq<nat>, live: set<nat>, base: nat, brk: nat, k: nat, size: nat,
                   h: map<nat, Header>, head: Option<nat>, tail: Option<nat>, s: seq<nat>)
    requires InHeap(h0, s0) && Handed(h0, View(h0, s0), live) && Arena(h0, View(h0, s0), live, base, brk)
    requires Ordered(View(h0, s0)) && Coalesced(View(h0, s0))
    requires k < |s0| && Carved(h0, s0, k, size, h, head, tail, s)
    ensures forall x | x in live + {s0[k]} :: x in h
    ensures Arena(h, View(h, s), live + {s0[k]}, base, brk)
  {
    CarveArenaFree(h0, s0, live, base, brk, k, size, h, head, tail, s);
    CarveArenaLive(h0, s0, live, base, brk, k, size, h, head, tail, s);
  }

  /** The free bytes left by a carve are among the old ones. */
  lemma CarveArenaFree(h0: map<nat, Header>, s0: seq<nat>, live: set<nat>, base: nat, brk: nat, k: nat, size: nat,
                       h: map<nat, Header>, head: Option<nat>, tail: Option<nat>, s: seq<nat>)
    requires InHeap(h0, s0) && Handed(h0, View(h0, s0), live) && Arena(h0, View(h0, s0), live, base, brk)
    requires Ordered(View(h0, s0)) && Coalesced(View(h0, s0))
    requires k < |s0| && Carved(h0, s0, k, size, h, head, tail, s)
    ensures forall a | a in Bytes(View(h, s)) :: base <= a < brk
  {
    CarvePlaced(View(h0, s0), k, size);
  }

  /** The carved block lies inside the free block it came from, hence inside
      the arena; the other handed-out blocks are untouched. */
  lemma CarveArenaLive(h0: map<nat, Header>, s0: seq<nat>, live: set<nat>, base: nat, brk: nat, k: nat, size: nat,
                       h: map<nat, Header>, head: Option<nat>, tail: Option<nat>, s: seq<nat>)
    requires InHeap(h0, s0) && Handed(h0, View(h0, s0), live) && Arena(h0, View(h0, s0), live, base, brk)
    requires k < |s0| && Carved(h0, s0, k, size, h, head, tail, s)
    ensures forall x | x in live + {s0[k]} :: x in h && base <= x && Limit(BlockOf(h, x)) <= brk
  {
    var t := Taken(View(h0, s0)[k], size);
    TakenInside(View(h0, s0), k, size);
    CarveKeepsLive(h0, s0, live, k, size, h, head, tail, s);
    assert s0[k] in Span(t) && Limit(t) - 1 in Span(t);
    assert BlockOf(h, s0[k]) == t;
  }

  /** splitBlock keeps the allocator sound: the carved block joins the
      handed-out blocks and the freed count drops by exactly what left the
      free list. */
  lemma CarveSound(h0: map<nat, Header>, head0: Option<nat>, tail0: Option<nat>, s0: seq<nat>,
                   live: set<nat>, base: nat, brk: nat, granted: nat, freed: nat, k: nat, size: nat,
                   h: map<nat, Header>, head: Option<nat>, tail: Option<nat>, s: seq<nat>, freed2: nat)
    requires Sound(h0, head0, tail0, s0, live, base, brk, granted, freed)
    requires k < |s0| && Carved(h0, s0, k, size, h, head, tail, s)
    requires freed2 + Taken(View(h0, s0)[k], size).size + META_SIZE == freed
    ensures s0[k] !in live
    ensures Sound(h, head, tail, s, live + {s0[k]}, base, brk, granted, freed2)
  {
    CarveKeepsLive(h0, s0, live, k, size, h, head, tail, s);
    CarveHanded(h0, s0, live, k, size, h, head, tail, s);
    CarveArena(h0, s0, live, base, brk, k, size, h, head, tail, s);
    CarvePlaced(View(h0, s0), k, size);
  }

  // ---------------------------------------------------------------------
  // Growing the data segment

  /** Moving the break up by `n` bytes that nobody uses keeps the invariant,
      with the granted count grown by the same amount. */
  lemma GrowSound(heap: map<nat, Header>, head: Option<nat>, tail: Option<nat>, s: seq<nat>,
                  live: set<nat>, base: nat, brk: nat, granted: nat, freed: nat, n: nat)
    requires Sound(heap, head, tail, s, live, base, brk, granted, freed)
    ensures Sound(heap, head, tail, s, live, base, brk + n, granted + n, freed)
  {
  }

  /** Nothing on the free list and no handed-out block reaches the break. */
  lemma AtBreak(heap: map<nat, Header>, head: Option<nat>, tail: Option<nat>, s: seq<nat>,
                live: set<nat>, base: nat, brk: nat, granted: nat, freed: nat)
    requires Sound(heap, head, tail, s, live, base, brk, granted, freed)
    ensures brk !in s && brk !in live
    ensures forall x | x in live :: x in heap && Span(BlockOf(heap, x)) !! Span(Extent(brk, 0))
  {
    forall i | 0 <= i < |s| ensures s[i] < brk {
      SpanInBytes(View(heap, s), i);
      assert s[i] in Span(View(heap, s)[i]);
    }
  }

  /** A header written at the old break for a fresh allocated block of
      `ds` bytes, with the break moved past it, keeps the invariant once the
      block is counted as handed out. */
  lemma GrantSound(heap: map<nat, Header>, head: Option<nat>, tail: Option<nat>, s: seq<nat>,
                   live: set<nat>, base: nat, brk: nat, granted: nat, freed: nat, ds: nat)
    requires Sound(heap, head, tail, s, live, base, brk, granted, freed)
    ensures brk !in live
    ensures Sound(heap[brk := Blank(ds, true)], head, tail, s, live + {brk}, base,
                  brk + ds + META_SIZE, granted + ds + META_SIZE, freed)
  {
    var h := heap[brk := Blank(ds, true)];
    AtBreak(heap, head, tail, s, live, base, brk, granted, freed);
    OffListWrite(heap, head, tail, s, brk, Blank(ds, true));
    GrantHanded(heap, s, live, base, brk, ds);
  }

  /** The fresh block lies wholly at and above the old break, so it overlaps
      nothing free and nothing handed out. */
  lemma GrantHanded(heap: map<nat, Header>, s: seq<nat>, live: set<nat>, base: nat, brk: nat, ds: nat)
    requires InHeap(heap, s) && Handed(heap, View(heap, s), live)
    requires base <= brk && Arena(heap, View(heap, s), live, base, brk) && brk !in s && brk !in live
    ensures Handed(heap[brk := Blank(ds, true)], View(heap, s), live + {brk})
    ensures Arena(heap[brk := Blank(ds, true)], View(heap, s), live + {brk}, base, brk + ds + META_SIZE)
  {
    var h := heap[brk := Blank(ds, true)];
    var e := BlockOf(h, brk);
    assert forall x | x in live :: BlockOf(h, x) == BlockOf(heap, x);
    forall x | x in live ensures Span(BlockOf(h, x)) !! Span(e) {
      assert Limit(BlockOf(heap, x)) <= brk;
    }
    assert Span(e) !! Bytes(View(heap, s));
  }
}
