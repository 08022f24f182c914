/** splitBlock of the main allocator as an effect on memory and on the free
    list: the block handed out leaves the list, whole or cut down, and what
    the list then shows is `Carve` of what it showed before. */
module Carving {
  import opened Blocks
  import opened Extents
  import opened FreeList

  /** What splitBlock leaves after taking entry `k` for `size` bytes: the
      list is well linked and holds no allocated entry, its view is `Carve`
      of the old view, the block's header is allocated, unlinked and sized
      as `Taken` says, and every header off the old list and outside the
      carved block is as it was. */
  ghost predicate Carved(h0: map<nat, Header>, s0: seq<nat>, k: nat, size: nat,
                         h: map<nat, Header>, head: Option<nat>, tail: Option<nat>, s: seq<nat>)
    requires InHeap(h0, s0) && k < |s0|
  {
    var v0 := View(h0, s0);
    && Linked(h, head, tail, s)
    && ClearBut(h, s, None)
    && View(h, s) == Carve(v0, k, size)
    && s0[k] in h && h[s0[k]] == Header(Taken(v0[k], size).size, true, None, None)
    && (forall y | y in h0 && y !in s0 && y !in Span(v0[k]) :: y in h && h[y] == h0[y])
  }

  /** removeFromFreeList leaves the removed header allocated, unlinked and
      at its size. */
  lemma RemovedHeader(h0: map<nat, Header>, head0: Option<nat>, tail0: Option<nat>, s0: seq<nat>, k: nat)
    requires Linked(h0, head0, tail0, s0) && k < |s0|
    ensures s0[k] in Flagged(Detached(h0, s0[k]), s0[k], true)
    ensures Flagged(Detached(h0, s0[k]), s0[k], true)[s0[k]] == Header(h0[s0[k]].dataSize, true, None, None)
  {
    var b := s0[k];
    assert h0[b].prev == if k == 0 then None else Some(s0[k - 1]);
    assert h0[b].next == if k == |s0| - 1 then None else Some(s0[k + 1]);
    DetachedShape(h0, b);
  }

  /** The whole-block branch: removeFromFreeList alone. */
  lemma CarvedWhole(h0: map<nat, Header>, head0: Option<nat>, tail0: Option<nat>, s0: seq<nat>, k: nat, size: nat,
                    h: map<nat, Header>, head: Option<nat>, tail: Option<nat>, s: seq<nat>)
    requires Linked(h0, head0, tail0, s0) && ClearBut(h0, s0, None) && k < |s0|
    requires size + META_SIZE > h0[s0[k]].dataSize
    requires h == Flagged(Detached(h0, s0[k]), s0[k], true) && s == Erase(s0, k) && Linked(h, head, tail, s)
    ensures Carved(h0, s0, k, size, h, head, tail, s)
  {
    RemovedView(h0, head0, tail0, s0, k);
    RemovedFrame(h0, head0, tail0, s0, k);
    RemovedClear(h0, head0, tail0, s0, k, None);
    RemovedHeader(h0, head0, tail0, s0, k);
    assert Carve(View(h0, s0), k, size) == Erase(View(h0, s0), k);
  }

  /** Where splitBlock writes the remainder's header. */
  function RemainderAt(b: nat, size: nat): (r: nat)
    ensures b < r
  {
    b + size + META_SIZE
  }

  /** splitBlock's writes before it edits the list: a free header for the
      remainder right after the kept `size` data bytes, then the block cut
      down to `size` and marked allocated. */
  ghost function Trim(h: map<nat, Header>, b: nat, size: nat): map<nat, Header>
    requires b in h && size + META_SIZE <= h[b].dataSize
  {
    var h1 := h[RemainderAt(b, size) := Blank(h[b].dataSize - size - META_SIZE, false)];
    Flagged(Resized(h1, b, size), b, true)
  }

  /** The remainder's header lies inside the block being cut and is on no
      list entry. */
  lemma RemainderOff(h: map<nat, Header>, s: seq<nat>, k: nat, size: nat)
    requires InHeap(h, s) && Ordered(View(h, s)) && k < |s| && size + META_SIZE <= h[s[k]].dataSize
    ensures RemainderAt(s[k], size) !in s
    ensures RemainderAt(s[k], size) in Span(View(h, s)[k])
  {
    var v := View(h, s);
    var r := RemainderAt(s[k], size);
    forall j | 0 <= j < |s| ensures s[j] != r {
      if j < k {
        assert Limit(v[j]) <= v[k].addr;
      } else if k < j {
        assert Limit(v[k]) <= v[j].addr;
      }
    }
  }

  /** Trimming keeps the list linked and shows the block at its new size. */
  lemma TrimmedLinked(h: map<nat, Header>, head: Option<nat>, tail: Option<nat>, s: seq<nat>, k: nat, size: nat)
    requires Linked(h, head, tail, s) && Ordered(View(h, s)) && k < |s| && size + META_SIZE <= h[s[k]].dataSize
    ensures Linked(Trim(h, s[k], size), head, tail, s)
    ensures View(Trim(h, s[k], size), s) == View(h, s)[k := Extent(s[k], size)]
  {
    var r := RemainderAt(s[k], size);
    var h1 := h[r := Blank(h[s[k]].dataSize - size - META_SIZE, false)];
    RemainderOff(h, s, k, size);
    OffListWrite(h, head, tail, s, r, Blank(h[s[k]].dataSize - size - META_SIZE, false));
    ResizedLinked(h1, head, tail, s, k, size);
    FlaggedLinked(Resized(h1, s[k], size), head, tail, s, s[k], true);
  }

  /** What trimming writes: the remainder's header and the block's size and
      flag, and nothing else. */
  lemma TrimmedAt(h: map<nat, Header>, b: nat, size: nat)
    requires b in h && size + META_SIZE <= h[b].dataSize
    ensures RemainderAt(b, size) in Trim(h, b, size)
    ensures Trim(h, b, size)[RemainderAt(b, size)] == Blank(h[b].dataSize - size - META_SIZE, false)
    ensures b in Trim(h, b, size) && Trim(h, b, size)[b] == h[b].(dataSize := size, isAllocated := true)
    ensures forall y | y in h && y != b && y != RemainderAt(b, size) :: y in Trim(h, b, size) && Trim(h, b, size)[y] == h[y]
  {
  }

  /** Trimming leaves the block the only allocated entry of the list. */
  lemma TrimmedClear(h: map<nat, Header>, s: seq<nat>, k: nat, size: nat)
    requires InHeap(h, s) && Ordered(View(h, s)) && k < |s| && size + META_SIZE <= h[s[k]].dataSize
    requires ClearBut(h, s, None)
    ensures InHeap(Trim(h, s[k], size), s) && ClearBut(Trim(h, s[k], size), s, Some(s[k]))
  {
    var h1 := Trim(h, s[k], size);
    RemainderOff(h, s, k, size);
    forall i | 0 <= i < |s| ensures s[i] in h1 && (Some(s[i]) != Some(s[k]) ==> !h1[s[i]].isAllocated) {
      assert s[i] != RemainderAt(s[k], size);
    }
  }

  /** The cutting branch, step by step: trimmed, the remainder linked in
      after the block, then the block removed. */
  ghost predicate CutChain(h0: map<nat, Header>, head0: Option<nat>, tail0: Option<nat>, s0: seq<nat>, k: nat, size: nat,
                           h1: map<nat, Header>,
                           h2: map<nat, Header>, head2: Option<nat>, tail2: Option<nat>, s2: seq<nat>,
                           h3: map<nat, Header>, head3: Option<nat>, tail3: Option<nat>, s3: seq<nat>)
  {
    && Linked(h0, head0, tail0, s0) && Ordered(View(h0, s0)) && ClearBut(h0, s0, None)
    && k < |s0| && size + META_SIZE <= h0[s0[k]].dataSize
    && h1 == Trim(h0, s0[k], size) && Linked(h1, head0, tail0, s0)
    && RemainderAt(s0[k], size) in h1 && RemainderAt(s0[k], size) !in s0
    && s2 == InsertAt(s0, k + 1, RemainderAt(s0[k], size))
    && h2 == Spliced(h1, s0[k], RemainderAt(s0[k], size)) && Linked(h2, head2, tail2, s2)
    && s2[k] == s0[k]
    && s3 == Erase(s2, k) && h3 == Flagged(Detached(h2, s0[k]), s0[k], true) && Linked(h3, head3, tail3, s3)
  }

  lemma CutView(h0: map<nat, Header>, head0: Option<nat>, tail0: Option<nat>, s0: seq<nat>, k: nat, size: nat,
                h1: map<nat, Header>,
                h2: map<nat, Header>, head2: Option<nat>, tail2: Option<nat>, s2: seq<nat>,
                h3: map<nat, Header>, head3: Option<nat>, tail3: Option<nat>, s3: seq<nat>)
    requires CutChain(h0, head0, tail0, s0, k, size, h1, h2, head2, tail2, s2, h3, head3, tail3, s3)
    ensures View(h3, s3) == Carve(View(h0, s0), k, size)
  {
    var v0 := View(h0, s0);
    var b, r := s0[k], RemainderAt(s0[k], size);
    var v1 := v0[k := Extent(b, size)];
    TrimmedLinked(h0, head0, tail0, s0, k, size);
    TrimmedAt(h0, b, size);
    SplicedView(h1, head0, tail0, s0, k + 1, r);
    assert View(h1, s0) == v1;
    assert Extent(r, h1[r].dataSize) == Remainder(v0[k], size);
    assert View(h2, s2) == InsertAt(View(h1, s0), k + 1, Extent(r, h1[r].dataSize));
    RemovedView(h2, head2, tail2, s2, k);
    EraseInserted(v1, k, Remainder(v0[k], size));
  }

  lemma CutHeader(h0: map<nat, Header>, head0: Option<nat>, tail0: Option<nat>, s0: seq<nat>, k: nat, size: nat,
                  h1: map<nat, Header>,
                  h2: map<nat, Header>, head2: Option<nat>, tail2: Option<nat>, s2: seq<nat>,
                  h3: map<nat, Header>, head3: Option<nat>, tail3: Option<nat>, s3: seq<nat>)
    requires CutChain(h0, head0, tail0, s0, k, size, h1, h2, head2, tail2, s2, h3, head3, tail3, s3)
    ensures ClearBut(h3, s3, None)
    ensures s0[k] in h3 && h3[s0[k]] == Header(size, true, None, None)
  {
    var b, r := s0[k], RemainderAt(s0[k], size);
    TrimmedAt(h0, b, size);
    TrimmedClear(h0, s0, k, size);
    SplicedClear(h1, head0, tail0, s0, k + 1, r, Some(b));
    SplicedShape(h1, b, r);
    RemovedClear(h2, head2, tail2, s2, k, Some(b));
    ErasedGone(s2, k);
    ClearDrop(h3, s3, b);
  }

  lemma CutFrame(h0: map<nat, Header>, head0: Option<nat>, tail0: Option<nat>, s0: seq<nat>, k: nat, size: nat,
                 h1: map<nat, Header>,
                 h2: map<nat, Header>, head2: Option<nat>, tail2: Option<nat>, s2: seq<nat>,
                 h3: map<nat, Header>, head3: Option<nat>, tail3: Option<nat>, s3: seq<nat>)
    requires CutChain(h0, head0, tail0, s0, k, size, h1, h2, head2, tail2, s2, h3, head3, tail3, s3)
    ensures forall y | y in h0 && y !in s0 && y !in Span(View(h0, s0)[k]) :: y in h3 && h3[y] == h0[y]
  {
    var b, r := s0[k], RemainderAt(s0[k], size);
    TrimmedAt(h0, b, size);
    RemainderOff(h0, s0, k, size);
    SplicedFrame(h1, head0, tail0, s0, k + 1, r);
    RemovedFrame(h2, head2, tail2, s2, k);
    forall y | y in h0 && y !in s0 && y !in Span(View(h0, s0)[k]) ensures y in h3 && h3[y] == h0[y] {
      InsertAtHas(s0, k + 1, r, y);
    }
  }

  /** The cutting branch as a whole. */
  lemma CarvedCut(h0: map<nat, Header>, head0: Option<nat>, tail0: Option<nat>, s0: seq<nat>, k: nat, size: nat,
                  h1: map<nat, Header>,
                  h2: map<nat, Header>, head2: Option<nat>, tail2: Option<nat>, s2: seq<nat>,
                  h3: map<nat, Header>, head3: Option<nat>, tail3: Option<nat>, s3: seq<nat>)
    requires CutChain(h0, head0, tail0, s0, k, size, h1, h2, head2, tail2, s2, h3, head3, tail3, s3)
    ensures Carved(h0, s0, k, size, h3, head3, tail3, s3)
  {
    CutView(h0, head0, tail0, s0, k, size, h1, h2, head2, tail2, s2, h3, head3, tail3, s3);
    CutHeader(h0, head0, tail0, s0, k, size, h1, h2, head2, tail2, s2, h3, head3, tail3, s3);
    CutFrame(h0, head0, tail0, s0, k, size, h1, h2, head2, tail2, s2, h3, head3, tail3, s3);
  }

  /** splitBlock's header writes keep every allocated header off the list
      unlinked: the remainder's header is free, and the block it cuts is
      still on the list. */
  lemma TrimmedOff(h: map<nat, Header>, s: seq<nat>, b: nat, size: nat)
    requires b in h && size + META_SIZE <= h[b].dataSize && b in s && UnlinkedOff(h, s)
    ensures UnlinkedOff(Trim(h, b, size), s)
  {
    var h2 := Trim(h, b, size);
    forall y | y in h2 && y !in s && h2[y].isAllocated
      ensures Unlinked(h2, y)
    {
      assert Unlinked(h, y);
    }
  }
}
