/** The two coalescing steps of the main allocator as effects on memory and
    on the free list, and what each does to the list's view. */
module Steps {
  import opened Blocks
  import opened Extents
  import opened FreeList

  /** coalesceWithRight's test: `l` has a successor on the list that starts
      right where `l`'s data ends. */
  predicate AdjacentRight(h: map<nat, Header>, l: nat)
  {
    && l in h
    && h[l].next.Some?
    && l as int == h[l].next.value as int - h[l].dataSize - META_SIZE
  }

  /** coalesceWithLeft's test: `r` has a predecessor on the list whose data
      ends right where `r` starts. */
  predicate AdjacentLeft(h: map<nat, Header>, r: nat)
  {
    && r in h
    && h[r].prev.Some?
    && h[r].prev.value in h
    && r == h[r].prev.value + h[h[r].prev.value].dataSize + META_SIZE
  }

  /** The memory after entry `k` grows to `size` and entry `k + 1` is
      unlinked, as both coalescing routines leave it. */
  ghost function Absorb(h: map<nat, Header>, head: Option<nat>, tail: Option<nat>, s: seq<nat>, k: nat): map<nat, Header>
    requires Linked(h, head, tail, s) && k + 1 < |s|
  {
    var grown := Resized(h, s[k], h[s[k]].dataSize + h[s[k + 1]].dataSize + META_SIZE);
    Flagged(Detached(grown, s[k + 1]), s[k + 1], true)
  }

  /** coalesceWithRight(l) took memory `h1` and list `s1` to `h2` and `s2`:
      when the successor is adjacent, `l` grows by the successor's header and
      data and the successor is removed from the list; otherwise nothing
      changes. */
  ghost predicate MergedRight(h1: map<nat, Header>, head1: Option<nat>, tail1: Option<nat>, s1: seq<nat>,
                              h2: map<nat, Header>, s2: seq<nat>, l: nat)
    requires Linked(h1, head1, tail1, s1) && l in h1 && (l in s1 || h1[l].next == None)
  {
    if AdjacentRight(h1, l) then
      var k := IndexOf(s1, l);
      && k + 1 < |s1|
      && s2 == Erase(s1, k + 1)
      && h2 == Absorb(h1, head1, tail1, s1, k)
    else
      h2 == h1 && s2 == s1
  }

  /** coalesceWithLeft(r) took memory `h1` and list `s1` to `h2` and `s2`:
      when the predecessor is adjacent, it grows by `r`'s header and data and
      `r` is removed from the list; otherwise nothing changes. */
  ghost predicate MergedLeft(h1: map<nat, Header>, head1: Option<nat>, tail1: Option<nat>, s1: seq<nat>,
                             h2: map<nat, Header>, s2: seq<nat>, r: nat)
    requires Linked(h1, head1, tail1, s1) && r in s1
  {
    if AdjacentLeft(h1, r) then
      var k := IndexOf(s1, r);
      && 0 < k
      && s2 == Erase(s1, k)
      && h2 == Absorb(h1, head1, tail1, s1, k - 1)
    else
      h2 == h1 && s2 == s1
  }

  /** A change of sizes only keeps every list entry's flag. */
  lemma ResizedClear(h: map<nat, Header>, s: seq<nat>, x: nat, n: nat, z: Option<nat>)
    requires InHeap(h, s) && x in h && ClearBut(h, s, z)
    ensures InHeap(Resized(h, x, n), s) && ClearBut(Resized(h, x, n), s, z)
  {
    var h2 := Resized(h, x, n);
    forall i | 0 <= i < |s| ensures s[i] in h2 && h2[s[i]].isAllocated == h[s[i]].isAllocated {
    }
  }

  /** Absorbing entry `k + 1` into entry `k` merges the two in the view. */
  lemma AbsorbView(h: map<nat, Header>, head: Option<nat>, tail: Option<nat>, s: seq<nat>, k: nat)
    requires Linked(h, head, tail, s) && k + 1 < |s|
    requires Limit(View(h, s)[k]) == View(h, s)[k + 1].addr
    ensures InHeap(Absorb(h, head, tail, s, k), Erase(s, k + 1))
    ensures View(Absorb(h, head, tail, s, k), Erase(s, k + 1)) == MergeAt(View(h, s), k)
  {
    var v := View(h, s);
    var size := h[s[k]].dataSize + h[s[k + 1]].dataSize + META_SIZE;
    var grown := Resized(h, s[k], size);
    ResizedLinked(h, head, tail, s, k, size);
    assert View(grown, s) == v[k := Merged(v[k], v[k + 1])];
    RemovedLinks(grown, head, tail, s, k + 1);
    MergeAsErase(v, k);
  }

  /** Absorbing keeps every header that is off the list, and entry `k`'s
      new size. */
  lemma AbsorbFrame(h: map<nat, Header>, head: Option<nat>, tail: Option<nat>, s: seq<nat>, k: nat)
    requires Linked(h, head, tail, s) && k + 1 < |s|
    ensures forall y | y in h && y !in s :: y in Absorb(h, head, tail, s, k) && Absorb(h, head, tail, s, k)[y] == h[y]
    ensures Absorb(h, head, tail, s, k)[s[k]].dataSize == h[s[k]].dataSize + h[s[k + 1]].dataSize + META_SIZE
    ensures Absorb(h, head, tail, s, k)[s[k + 1]].dataSize == h[s[k + 1]].dataSize
  {
    var size := h[s[k]].dataSize + h[s[k + 1]].dataSize + META_SIZE;
    var grown := Resized(h, s[k], size);
    ResizedLinks(h, head, tail, s, k, size);
    RemovedLinks(grown, head, tail, s, k + 1);
    DistinctAt(s, k, k + 1);
    DetachedShape(grown, s[k + 1]);
  }

  /** Absorbing keeps the flags of the list. */
  lemma AbsorbClear(h: map<nat, Header>, head: Option<nat>, tail: Option<nat>, s: seq<nat>, k: nat, z: Option<nat>)
    requires Linked(h, head, tail, s) && k + 1 < |s| && ClearBut(h, s, z)
    ensures var h2 := Absorb(h, head, tail, s, k);
            InHeap(h2, Erase(s, k + 1)) && ClearBut(h2, Erase(s, k + 1), z)
  {
    var size := h[s[k]].dataSize + h[s[k + 1]].dataSize + META_SIZE;
    var grown := Resized(h, s[k], size);
    ResizedLinks(h, head, tail, s, k, size);
    ResizedClear(h, s, s[k], size, z);
    RemovedClear(grown, head, tail, s, k + 1, z);
    assert Absorb(h, head, tail, s, k) == Flagged(Detached(grown, s[k + 1]), s[k + 1], true);
  }

  /** Entry `k + 1` absorbed into entry `k`, with the memory and list after
      it named `h2` and `s2`. */
  lemma AbsorbedAt(h1: map<nat, Header>, head1: Option<nat>, tail1: Option<nat>, s1: seq<nat>,
                   h2: map<nat, Header>, s2: seq<nat>, k: nat)
    requires Linked(h1, head1, tail1, s1) && k + 1 < |s1|
    requires Limit(View(h1, s1)[k]) == View(h1, s1)[k + 1].addr
    requires h2 == Absorb(h1, head1, tail1, s1, k) && s2 == Erase(s1, k + 1)
    ensures InHeap(h2, s2) && View(h2, s2) == MergeAt(View(h1, s1), k)
    ensures s1[k + 1] in h2 && h2[s1[k + 1]].dataSize == h1[s1[k + 1]].dataSize
    ensures s1[k + 1] !in s2 && s2[k] == s1[k]
    ensures forall y | y in s2 :: y in s1
    ensures forall y | y in h1 && y !in s1 :: y in h2 && h2[y] == h1[y]
    ensures forall z :: ClearBut(h1, s1, z) ==> ClearBut(h2, s2, z)
  {
    forall y | y in s2 ensures y in s1 {
      EraseHas(s1, k + 1, y);
    }
    AbsorbView(h1, head1, tail1, s1, k);
    AbsorbFrame(h1, head1, tail1, s1, k);
    forall z | ClearBut(h1, s1, z) ensures ClearBut(h2, s2, z) {
      AbsorbClear(h1, head1, tail1, s1, k, z);
    }
    ErasedGone(s1, k + 1);
  }

  /** When coalesceWithRight's test fails on entry `k`, the view has nothing
      to merge there. */
  lemma ApartRight(h: map<nat, Header>, head: Option<nat>, tail: Option<nat>, s: seq<nat>, k: nat)
    requires Linked(h, head, tail, s) && k < |s| && !AdjacentRight(h, s[k])
    ensures MergeRightAt(View(h, s), k) == View(h, s)
  {
    assert h[s[k]].next == if k + 1 < |s| then Some(s[k + 1]) else None;
  }

  /** When coalesceWithLeft's test fails on entry `k`, the view has nothing
      to merge there. */
  lemma ApartLeft(h: map<nat, Header>, head: Option<nat>, tail: Option<nat>, s: seq<nat>, k: nat)
    requires Linked(h, head, tail, s) && k < |s| && !AdjacentLeft(h, s[k])
    ensures MergeLeftAt(View(h, s), k) == View(h, s)
  {
    assert h[s[k]].prev == if 0 < k then Some(s[k - 1]) else None;
  }

  /** coalesceWithRight on entry `k` merges the view exactly as
      `MergeRightAt` does, keeps every header that is off the list, keeps the
      flags of the list and leaves entry `k` where it was. */
  lemma MergedRightView(h1: map<nat, Header>, head1: Option<nat>, tail1: Option<nat>, s1: seq<nat>,
                        h2: map<nat, Header>, s2: seq<nat>, k: nat)
    requires Linked(h1, head1, tail1, s1) && k < |s1|
    requires MergedRight(h1, head1, tail1, s1, h2, s2, s1[k])
    ensures InHeap(h2, s2) && View(h2, s2) == MergeRightAt(View(h1, s1), k)
    ensures k < |s2| && s2[k] == s1[k]
    ensures forall y | y in s2 :: y in s1
    ensures forall y | y in h1 && y !in s1 :: y in h2 && h2[y] == h1[y]
    ensures forall z :: ClearBut(h1, s1, z) ==> ClearBut(h2, s2, z)
  {
    var l := s1[k];
    if AdjacentRight(h1, l) {
      IndexOfAt(s1, k);
      AbsorbedAt(h1, head1, tail1, s1, h2, s2, k);
    } else {
      ApartRight(h1, head1, tail1, s1, k);
    }
  }

  /** coalesceWithLeft on entry `k` merges the view exactly as `MergeLeftAt`
      does, keeps every header that is off the list, keeps the flags of the
      list, and keeps entry `k`'s own size even when it is absorbed. */
  lemma MergedLeftView(h1: map<nat, Header>, head1: Option<nat>, tail1: Option<nat>, s1: seq<nat>,
                       h2: map<nat, Header>, s2: seq<nat>, k: nat)
    requires Linked(h1, head1, tail1, s1) && k < |s1|
    requires MergedLeft(h1, head1, tail1, s1, h2, s2, s1[k])
    ensures InHeap(h2, s2) && View(h2, s2) == MergeLeftAt(View(h1, s1), k)
    ensures s1[k] in h2 && h2[s1[k]].dataSize == h1[s1[k]].dataSize
    ensures s1[k] in s2 <==> s2 == s1
    ensures forall y | y in h1 && y !in s1 :: y in h2 && h2[y] == h1[y]
    ensures forall z :: ClearBut(h1, s1, z) ==> ClearBut(h2, s2, z)
  {
    var r := s1[k];
    if AdjacentLeft(h1, r) {
      assert 0 < k && h1[r].prev == Some(s1[k - 1]);
      IndexOfAt(s1, k);
      AbsorbedAt(h1, head1, tail1, s1, h2, s2, k - 1);
      assert |s2| != |s1|;
    } else {
      ApartLeft(h1, head1, tail1, s1, k);
    }
  }

  /** Absorbing as coalesceWithRight does leaves a stale header behind:
      the successor keeps the allocated flag and the null links that
      removeFromFreeList gave it, is off the list, and starts strictly inside
      the merged free block.  ff_free takes any allocated header for a block
      to release, and releasing this one slots it in after the block that
      contains it: the view falls out of address order. */
  lemma StaleRelease(h1: map<nat, Header>, head1: Option<nat>, tail1: Option<nat>, s1: seq<nat>, k: nat)
    requires Linked(h1, head1, tail1, s1) && k + 1 < |s1|
    requires Ordered(View(h1, s1)) && Limit(View(h1, s1)[k]) == View(h1, s1)[k + 1].addr
    ensures var h2, s2, x := Absorb(h1, head1, tail1, s1, k), Erase(s1, k + 1), s1[k + 1];
            && InHeap(h2, s2) && x in h2 && x !in s2
            && h2[x].isAllocated && Unlinked(h2, x)
            && View(h2, s2)[k].addr < x < Limit(View(h2, s2)[k])
            && !Ordered(Release(View(h2, s2), Extent(x, h2[x].dataSize)))
  {
    var h2, s2, x := Absorb(h1, head1, tail1, s1, k), Erase(s1, k + 1), s1[k + 1];
    var v1 := View(h1, s1);
    AbsorbedAt(h1, head1, tail1, s1, h2, s2, k);
    MergeOrdered(v1, k);
    assert View(h2, s2)[k] == Merged(v1[k], v1[k + 1]);
    assert v1[k + 1].addr == x;
    ReleaseOverlaps(View(h2, s2), Extent(x, h2[x].dataSize), k);
  }

  /** The merge as evidently intended: `Absorb` with the absorbed header
      then marked free.  The view merges just the same, and every allocated
      header off the list was already one, unchanged: the merge hands ff_free
      nothing new to release. */
  lemma AbsorbCleared(h1: map<nat, Header>, head1: Option<nat>, tail1: Option<nat>, s1: seq<nat>, k: nat)
    requires Linked(h1, head1, tail1, s1) && k + 1 < |s1|
    requires Limit(View(h1, s1)[k]) == View(h1, s1)[k + 1].addr
    ensures var x := s1[k + 1];
            var h2, s2 := Flagged(Absorb(h1, head1, tail1, s1, k), x, false), Erase(s1, k + 1);
            && InHeap(h2, s2) && View(h2, s2) == MergeAt(View(h1, s1), k)
            && !h2[x].isAllocated
            && forall y | y in h2 && y !in s2 && h2[y].isAllocated :: y in h1 && y !in s1 && h2[y] == h1[y]
  {
    var x := s1[k + 1];
    var h, s2 := Absorb(h1, head1, tail1, s1, k), Erase(s1, k + 1);
    AbsorbedAt(h1, head1, tail1, s1, h, s2, k);
    var h2 := Flagged(h, x, false);
    assert View(h2, s2) == View(h, s2) by {
      forall i | 0 <= i < |s2| ensures h2[s2[i]].dataSize == h[s2[i]].dataSize {
      }
    }
  }

  // ---------------------------------------------------------------------
  // deallocate

  /** What deallocate leaves, up to its last write: once `b` is marked free
      in `h`, the list `s` is well linked and holds no allocated entry, its
      view is `Release` of the old view, `b` has absorbed exactly what
      `Absorbed` says, and every header off the old list other than `b` is
      as it was. */
  ghost predicate Released(h0: map<nat, Header>, s0: seq<nat>, b: nat,
                           h: map<nat, Header>, head: Option<nat>, tail: Option<nat>, s: seq<nat>)
    requires InHeap(h0, s0) && b in h0
  {
    && b in h
    && var e := Extent(b, h0[b].dataSize);
       var freed := Flagged(h, b, false);
       && Linked(freed, head, tail, s)
       && ClearBut(freed, s, None)
       && View(freed, s) == Release(View(h0, s0), e)
       && freed[b].dataSize == e.size + Absorbed(View(h0, s0), e)
       && (forall y | y in h0 && y !in s0 && y != b :: y in freed && freed[y] == h0[y])
  }

  /** The empty-list branch: `b` is appended and becomes the whole list. */
  lemma ReleasedEmpty(h0: map<nat, Header>, b: nat, h1: map<nat, Header>, head1: Option<nat>, tail1: Option<nat>)
    requires b in h0 && h1 == Flagged(h0, b, false) && Linked(h1, head1, tail1, [b])
    ensures Released(h0, [], b, h1, head1, tail1, [b])
  {
    var e := Extent(b, h0[b].dataSize);
    ReleaseEmpty(e);
    assert Flagged(h1, b, false) == h1;
    assert View(h1, [b])[0] == e;
  }

  /** The branch for a block below the head: insertInFrontOf with a null
      `curr` links nothing and the block is only marked free. */
  lemma ReleasedBelow(h0: map<nat, Header>, head0: Option<nat>, tail0: Option<nat>, s0: seq<nat>, b: nat)
    requires Linked(h0, head0, tail0, s0) && ClearBut(h0, s0, None)
    requires s0 != [] && b in h0 && b < s0[0] && b !in s0
    ensures Released(h0, s0, b, h0, head0, tail0, s0)
  {
    var freed := Flagged(h0, b, false);
    OffListWrite(h0, head0, tail0, s0, b, h0[b].(isAllocated := false));
    ClearKept(h0, freed, s0, None, Some(b), None);
  }

  /** The last write of deallocate, marking `b` free, completes `Released`
      once the view, the size of `b`, the flags and the untouched headers are
      as it requires. */
  lemma FreedFrom(h0: map<nat, Header>, s0: seq<nat>, b: nat,
                  h: map<nat, Header>, head: Option<nat>, tail: Option<nat>, s: seq<nat>, z: Option<nat>)
    requires InHeap(h0, s0) && b in h0 && b in h
    requires Linked(h, head, tail, s) && (z == None || z == Some(b)) && ClearBut(h, s, z)
    requires View(h, s) == Release(View(h0, s0), Extent(b, h0[b].dataSize))
    requires h[b].dataSize == h0[b].dataSize + Absorbed(View(h0, s0), Extent(b, h0[b].dataSize))
    requires forall y | y in h0 && y !in s0 && y != b :: y in h && h[y] == h0[y]
    ensures Released(h0, s0, b, h, head, tail, s)
  {
    FlaggedLinked(h, head, tail, s, b, false);
    ClearedFlag(h, s, b, z);
  }

  /** The branch for a block above the tail, as far as the view goes:
      appended, then merged with an adjacent left neighbour. */
  ghost predicate AboveChain(h0: map<nat, Header>, head0: Option<nat>, tail0: Option<nat>, s0: seq<nat>, b: nat,
                             h1: map<nat, Header>, head1: Option<nat>, tail1: Option<nat>, s1: seq<nat>,
                             h2: map<nat, Header>, head2: Option<nat>, tail2: Option<nat>, s2: seq<nat>)
  {
    && Linked(h0, head0, tail0, s0) && Ordered(View(h0, s0)) && ClearBut(h0, s0, None)
    && s0 != [] && s0[|s0| - 1] < b && b in h0 && b !in s0
    && s1 == s0 + [b] && h1 == Flagged(Spliced(h0, s0[|s0| - 1], b), b, false)
    && Linked(h1, head1, tail1, s1)
    && MergedLeft(h1, head1, tail1, s1, h2, s2, b) && Linked(h2, head2, tail2, s2)
  }

  lemma AboveView(h0: map<nat, Header>, head0: Option<nat>, tail0: Option<nat>, s0: seq<nat>, b: nat,
                  h1: map<nat, Header>, head1: Option<nat>, tail1: Option<nat>, s1: seq<nat>,
                  h2: map<nat, Header>, head2: Option<nat>, tail2: Option<nat>, s2: seq<nat>)
    requires AboveChain(h0, head0, tail0, s0, b, h1, head1, tail1, s1, h2, head2, tail2, s2)
    ensures View(h2, s2) == Release(View(h0, s0), Extent(b, h0[b].dataSize))
    ensures b in h2 && h2[b].dataSize == h0[b].dataSize + Absorbed(View(h0, s0), Extent(b, h0[b].dataSize))
  {
    var v0 := View(h0, s0);
    var e := Extent(b, h0[b].dataSize);
    var spliced := Spliced(h0, s0[|s0| - 1], b);
    SplicedView(h0, head0, tail0, s0, |s0|, b);
    InsertAtEnd(s0, b);
    InsertAtEnd(v0, e);
    ViewFrame(spliced, h1, s1);
    AppendedLinked(h0, head0, tail0, s0, b);
    assert s1[|s0|] == b;
    MergedLeftView(h1, head1, tail1, s1, h2, s2, |s0|);
    ReleaseAbove(v0, e);
  }

  lemma AboveRest(h0: map<nat, Header>, head0: Option<nat>, tail0: Option<nat>, s0: seq<nat>, b: nat,
                  h1: map<nat, Header>, head1: Option<nat>, tail1: Option<nat>, s1: seq<nat>,
                  h2: map<nat, Header>, head2: Option<nat>, tail2: Option<nat>, s2: seq<nat>)
    requires AboveChain(h0, head0, tail0, s0, b, h1, head1, tail1, s1, h2, head2, tail2, s2)
    ensures ClearBut(h2, s2, None)
    ensures forall y | y in h0 && y !in s0 && y != b :: y in h2 && h2[y] == h0[y]
  {
    Appended(h0, head0, tail0, s0, b);
    assert s1[|s0|] == b;
    MergedLeftView(h1, head1, tail1, s1, h2, s2, |s0|);
  }

  /** The branch for a block above the tail. */
  lemma ReleasedAbove(h0: map<nat, Header>, head0: Option<nat>, tail0: Option<nat>, s0: seq<nat>, b: nat,
                      h1: map<nat, Header>, head1: Option<nat>, tail1: Option<nat>, s1: seq<nat>,
                      h2: map<nat, Header>, head2: Option<nat>, tail2: Option<nat>, s2: seq<nat>)
    requires AboveChain(h0, head0, tail0, s0, b, h1, head1, tail1, s1, h2, head2, tail2, s2)
    ensures Released(h0, s0, b, h2, head2, tail2, s2)
  {
    AboveView(h0, head0, tail0, s0, b, h1, head1, tail1, s1, h2, head2, tail2, s2);
    AboveRest(h0, head0, tail0, s0, b, h1, head1, tail1, s1, h2, head2, tail2, s2);
    FreedFrom(h0, s0, b, h2, head2, tail2, s2, None);
  }

  /** The branch for a block between the head and the tail: linked in after
      the last free block below it, merged with an adjacent right neighbour,
      then with an adjacent left one. */
  ghost predicate BetweenChain(h0: map<nat, Header>, head0: Option<nat>, tail0: Option<nat>, s0: seq<nat>, b: nat, k: nat,
                               h1: map<nat, Header>, head1: Option<nat>, tail1: Option<nat>, s1: seq<nat>,
                               h2: map<nat, Header>, head2: Option<nat>, tail2: Option<nat>, s2: seq<nat>,
                               h3: map<nat, Header>, head3: Option<nat>, tail3: Option<nat>, s3: seq<nat>)
  {
    && Linked(h0, head0, tail0, s0) && ClearBut(h0, s0, None)
    && b in h0 && h0[b].isAllocated && b !in s0
    && 0 < k <= |s0| && k == Slot(View(h0, s0), b)
    && s1 == InsertAt(s0, k, b) && h1 == Spliced(h0, s0[k - 1], b) && Linked(h1, head1, tail1, s1) && b in s1
    && MergedRight(h1, head1, tail1, s1, h2, s2, b) && Linked(h2, head2, tail2, s2) && b in s2
    && MergedLeft(h2, head2, tail2, s2, h3, s3, b) && Linked(h3, head3, tail3, s3)
  }

  /** The view of the between branch after its right merge. */
  lemma BetweenRight(h0: map<nat, Header>, head0: Option<nat>, tail0: Option<nat>, s0: seq<nat>, b: nat, k: nat,
                     h1: map<nat, Header>, head1: Option<nat>, tail1: Option<nat>, s1: seq<nat>,
                     h2: map<nat, Header>, head2: Option<nat>, tail2: Option<nat>, s2: seq<nat>,
                     h3: map<nat, Header>, head3: Option<nat>, tail3: Option<nat>, s3: seq<nat>)
    requires BetweenChain(h0, head0, tail0, s0, b, k, h1, head1, tail1, s1, h2, head2, tail2, s2, h3, head3, tail3, s3)
    ensures k < |s2| && s2[k] == b
    ensures View(h2, s2) == MergeRightAt(InsertAt(View(h0, s0), k, Extent(b, h0[b].dataSize)), k)
  {
    SplicedView(h0, head0, tail0, s0, k, b);
    assert s1[k] == b;
    MergedRightView(h1, head1, tail1, s1, h2, s2, k);
  }

  lemma BetweenView(h0: map<nat, Header>, head0: Option<nat>, tail0: Option<nat>, s0: seq<nat>, b: nat, k: nat,
                    h1: map<nat, Header>, head1: Option<nat>, tail1: Option<nat>, s1: seq<nat>,
                    h2: map<nat, Header>, head2: Option<nat>, tail2: Option<nat>, s2: seq<nat>,
                    h3: map<nat, Header>, head3: Option<nat>, tail3: Option<nat>, s3: seq<nat>)
    requires BetweenChain(h0, head0, tail0, s0, b, k, h1, head1, tail1, s1, h2, head2, tail2, s2, h3, head3, tail3, s3)
    ensures View(h3, s3) == Release(View(h0, s0), Extent(b, h0[b].dataSize))
    ensures b in h3 && h3[b].dataSize == h0[b].dataSize + Absorbed(View(h0, s0), Extent(b, h0[b].dataSize))
  {
    var v0 := View(h0, s0);
    var e := Extent(b, h0[b].dataSize);
    var w := InsertAt(v0, k, e);
    BetweenRight(h0, head0, tail0, s0, b, k, h1, head1, tail1, s1, h2, head2, tail2, s2, h3, head3, tail3, s3);
    MergedLeftView(h2, head2, tail2, s2, h3, s3, k);
    ReleaseInside(v0, e, k);
    assert h2[b].dataSize == View(h2, s2)[k].size;
  }

  lemma BetweenRest(h0: map<nat, Header>, head0: Option<nat>, tail0: Option<nat>, s0: seq<nat>, b: nat, k: nat,
                    h1: map<nat, Header>, head1: Option<nat>, tail1: Option<nat>, s1: seq<nat>,
                    h2: map<nat, Header>, head2: Option<nat>, tail2: Option<nat>, s2: seq<nat>,
                    h3: map<nat, Header>, head3: Option<nat>, tail3: Option<nat>, s3: seq<nat>)
    requires BetweenChain(h0, head0, tail0, s0, b, k, h1, head1, tail1, s1, h2, head2, tail2, s2, h3, head3, tail3, s3)
    ensures ClearBut(h3, s3, Some(b))
    ensures forall y | y in h0 && y !in s0 && y != b :: y in h3 && h3[y] == h0[y]
  {
    Inserted(h0, head0, tail0, s0, k, b);
    assert s1[k] == b;
    MergedRightView(h1, head1, tail1, s1, h2, s2, k);
    MergedLeftView(h2, head2, tail2, s2, h3, s3, k);
    forall y | y in h0 && y !in s0 && y != b ensures y in h3 && h3[y] == h0[y] {
      InsertAtHas(s0, k, b, y);
    }
  }

  /** The branch for a block between the head and the tail. */
  lemma ReleasedBetween(h0: map<nat, Header>, head0: Option<nat>, tail0: Option<nat>, s0: seq<nat>, b: nat, k: nat,
                        h1: map<nat, Header>, head1: Option<nat>, tail1: Option<nat>, s1: seq<nat>,
                        h2: map<nat, Header>, head2: Option<nat>, tail2: Option<nat>, s2: seq<nat>,
                        h3: map<nat, Header>, head3: Option<nat>, tail3: Option<nat>, s3: seq<nat>)
    requires BetweenChain(h0, head0, tail0, s0, b, k, h1, head1, tail1, s1, h2, head2, tail2, s2, h3, head3, tail3, s3)
    ensures Released(h0, s0, b, h3, head3, tail3, s3)
  {
    BetweenView(h0, head0, tail0, s0, b, k, h1, head1, tail1, s1, h2, head2, tail2, s2, h3, head3, tail3, s3);
    BetweenRest(h0, head0, tail0, s0, b, k, h1, head1, tail1, s1, h2, head2, tail2, s2, h3, head3, tail3, s3);
    FreedFrom(h0, s0, b, h3, head3, tail3, s3, Some(b));
  }
}
