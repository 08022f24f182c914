/** The free list seen as plain values: the address and data size of each
    free block, in list order.  The allocator's list edits are specified as
    operations on this view (placing a released block, carving an allocation
    out of a free block), and their properties are proved here once. */
module Extents {
  import opened Blocks

  /** A block: where its header starts and how many data bytes follow it. */
  datatype Extent = Extent(addr: nat, size: nat)

  /** First address past the block. */
  function Limit(e: Extent): (r: nat)
    ensures e.addr < r
  {
    e.addr + META_SIZE + e.size
  }

  /** The bytes the block occupies, header included. */
  ghost function Span(e: Extent): (r: set<int>)
    ensures forall i :: i in r <==> e.addr <= i < Limit(e)
  {
    set i: int | e.addr <= i < Limit(e) && Within(i, e.addr, Limit(e))
  }

  /** Blocks appear in ascending address order and none overlaps a later one. */
  ghost predicate Ordered(v: seq<Extent>)
  {
    forall i, j | 0 <= i < j < |v| :: Limit(v[i]) <= v[j].addr
  }

  /** Entry `i` does not end exactly where entry `i + 1` starts. */
  ghost predicate Gap(v: seq<Extent>, i: int)
    requires 0 <= i < |v| - 1
  {
    Limit(v[i]) != v[i + 1].addr
  }

  /** No two neighbours could be merged: coalescing is complete. */
  ghost predicate Coalesced(v: seq<Extent>)
  {
    forall i | 0 <= i < |v| - 1 :: Gap(v, i)
  }

  /** Every byte of every block. */
  ghost function Bytes(v: seq<Extent>): set<int>
  {
    if v == [] then {} else Span(v[0]) + Bytes(v[1..])
  }

  /** Sum of dataSize + META_SIZE over the blocks. */
  ghost function Total(v: seq<Extent>): nat
  {
    if v == [] then 0 else v[0].size + META_SIZE + Total(v[1..])
  }

  /** Two byte-adjacent blocks as one: the left header absorbs the right
      block's header and data. */
  function Merged(a: Extent, b: Extent): (r: Extent)
    requires Limit(a) == b.addr
    ensures r.addr == a.addr && Limit(r) == Limit(b)
    ensures r.size == a.size + META_SIZE + b.size
  {
    Extent(a.addr, a.size + META_SIZE + b.size)
  }

  /** Entries `i` and `i + 1` merged, when they are byte-adjacent. */
  ghost function MergeAt(v: seq<Extent>, i: nat): seq<Extent>
    requires i + 1 < |v| && Limit(v[i]) == v[i + 1].addr
  {
    v[..i] + [Merged(v[i], v[i + 1])] + v[i + 2..]
  }

  /** coalesceWithRight on entry `i`: absorb the next entry if it starts where
      entry `i` ends. */
  ghost function MergeRightAt(v: seq<Extent>, i: nat): seq<Extent>
    requires i < |v|
  {
    if i + 1 < |v| && Limit(v[i]) == v[i + 1].addr then MergeAt(v, i) else v
  }

  /** coalesceWithLeft on entry `i`: be absorbed by the previous entry if it
      ends where entry `i` starts. */
  ghost function MergeLeftAt(v: seq<Extent>, i: nat): seq<Extent>
    requires i < |v|
  {
    if 0 < i && Limit(v[i - 1]) == v[i].addr then MergeAt(v, i - 1) else v
  }

  /** Index of the first block whose address is not below `a` (|v| if none):
      where the deallocation scan stops. */
  ghost function Slot(v: seq<Extent>, a: nat): (k: nat)
    ensures k <= |v|
    ensures forall j | 0 <= j < k :: v[j].addr < a
    ensures k < |v| ==> a <= v[k].addr
  {
    if v == [] || a <= v[0].addr then 0 else 1 + Slot(v[1..], a)
  }

  /** The view after `e` is released, as the deallocation code does it: a
      block below the first free block is dropped (the list is left as it
      was); otherwise it is linked in at its address and merged with a
      byte-adjacent right neighbour, then with a byte-adjacent left one. */
  ghost function Release(v: seq<Extent>, e: Extent): seq<Extent>
  {
    if v != [] && e.addr < v[0].addr then v
    else
      var k := Slot(v, e.addr);
      MergeLeftAt(MergeRightAt(InsertAt(v, k, e), k), k)
  }

  /** The extra data bytes the released block gains by absorbing its right
      neighbour, as the deallocation code does it: `META_SIZE` plus the
      neighbour's size when the neighbour starts where the block ends, none
      otherwise (and none for a block that is not linked in). */
  ghost function Absorbed(v: seq<Extent>, e: Extent): nat
  {
    if v != [] && e.addr < v[0].addr then 0
    else
      var k := Slot(v, e.addr);
      if k < |v| && Limit(e) == v[k].addr then v[k].size + META_SIZE else 0
  }

  /** What the split leaves free in place of a block `e` cut down to `size`
      data bytes: a new header right after the kept part, holding the rest. */
  function Remainder(e: Extent, size: nat): (r: Extent)
    requires size + META_SIZE <= e.size
    ensures r.addr == Limit(Extent(e.addr, size)) && Limit(r) == Limit(e)
    ensures e.size == size + META_SIZE + r.size
  {
    Extent(e.addr + size + META_SIZE, e.size - size - META_SIZE)
  }

  /** The view after entry `k` is taken for an allocation of `size` bytes:
      replaced by its remainder when there is room for another header,
      dropped whole otherwise. */
  ghost function Carve(v: seq<Extent>, k: nat, size: nat): seq<Extent>
    requires k < |v|
  {
    if size + META_SIZE > v[k].size then Erase(v, k) else v[k := Remainder(v[k], size)]
  }

  /** The block that an allocation of `size` bytes out of `e` hands out. */
  function Taken(e: Extent, size: nat): (r: Extent)
    ensures r.addr == e.addr && Limit(r) <= Limit(e)
  {
    if size + META_SIZE > e.size then e else Extent(e.addr, size)
  }

  // ---------------------------------------------------------------------
  // Bytes and totals

  lemma {:induction false} BytesConcat(v: seq<Extent>, w: seq<Extent>)
    ensures Bytes(v + w) == Bytes(v) + Bytes(w)
    ensures Total(v + w) == Total(v) + Total(w)
  {
    if v == [] {
      assert v + w == w;
    } else {
      assert (v + w)[1..] == v[1..] + w;
      BytesConcat(v[1..], w);
    }
  }

  lemma BytesSingle(e: Extent)
    ensures Bytes([e]) == Span(e) && Total([e]) == e.size + META_SIZE
  {
    assert [e][1..] == [];
  }

  /** An entry's bytes are among the view's bytes. */
  lemma {:induction false} SpanInBytes(v: seq<Extent>, i: nat)
    requires i < |v|
    ensures Span(v[i]) <= Bytes(v)
  {
    if i > 0 {
      SpanInBytes(v[1..], i - 1);
    }
  }

  /** A byte of the view lies in some entry. */
  lemma {:induction false} InBytes(v: seq<Extent>, x: int) returns (i: nat)
    requires x in Bytes(v)
    ensures i < |v| && x in Span(v[i])
  {
    if x in Span(v[0]) {
      i := 0;
    } else {
      var j := InBytes(v[1..], x);
      i := j + 1;
    }
  }

  /** Every byte lies between the lowest start and the highest end. */
  lemma BytesWithin(v: seq<Extent>, lo: int, hi: int)
    requires forall i | 0 <= i < |v| :: lo <= v[i].addr && Limit(v[i]) <= hi
    ensures forall x | x in Bytes(v) :: lo <= x < hi
  {
    forall x | x in Bytes(v) ensures lo <= x < hi {
      var i := InBytes(v, x);
    }
  }

  lemma InsertBytes(v: seq<Extent>, k: nat, e: Extent)
    requires k <= |v|
    ensures Bytes(InsertAt(v, k, e)) == Bytes(v) + Span(e)
    ensures Total(InsertAt(v, k, e)) == Total(v) + e.size + META_SIZE
  {
    assert InsertAt(v, k, e) == v[..k] + [e] + v[k..];
    assert v == v[..k] + v[k..];
    BytesConcat(v[..k] + [e], v[k..]);
    BytesConcat(v[..k], [e]);
    BytesConcat(v[..k], v[k..]);
    BytesSingle(e);
  }

  lemma EraseBytes(v: seq<Extent>, k: nat)
    requires k < |v|
    ensures Bytes(Erase(v, k)) + Span(v[k]) == Bytes(v)
    ensures Total(Erase(v, k)) + v[k].size + META_SIZE == Total(v)
  {
    assert InsertAt(Erase(v, k), k, v[k]) == v;
    InsertBytes(Erase(v, k), k, v[k]);
  }

  /** In an ordered view no other entry shares a byte with entry `k`. */
  lemma EraseApart(v: seq<Extent>, k: nat)
    requires Ordered(v) && k < |v|
    ensures Bytes(Erase(v, k)) !! Span(v[k])
  {
    var r := Erase(v, k);
    forall x | x in Bytes(r) ensures x !in Span(v[k]) {
      var i := InBytes(r, x);
      if i < k {
        assert r[i] == v[i] && Limit(v[i]) <= v[k].addr;
      } else {
        assert r[i] == v[i + 1] && Limit(v[k]) <= v[i + 1].addr;
      }
    }
  }

  lemma MergeBytes(v: seq<Extent>, i: nat)
    requires i + 1 < |v| && Limit(v[i]) == v[i + 1].addr
    ensures Bytes(MergeAt(v, i)) == Bytes(v)
    ensures Total(MergeAt(v, i)) == Total(v)
  {
    var m := Merged(v[i], v[i + 1]);
    assert v == v[..i] + [v[i], v[i + 1]] + v[i + 2..];
    BytesConcat(v[..i] + [m], v[i + 2..]);
    BytesConcat(v[..i], [m]);
    BytesConcat(v[..i] + [v[i], v[i + 1]], v[i + 2..]);
    BytesConcat(v[..i], [v[i], v[i + 1]]);
    BytesSingle(m);
    assert [v[i], v[i + 1]] == [v[i]] + [v[i + 1]];
    BytesConcat([v[i]], [v[i + 1]]);
    BytesSingle(v[i]);
    BytesSingle(v[i + 1]);
  }

  // ---------------------------------------------------------------------
  // Order and coalescing

  /** A block fits between its neighbours when it starts at or after the end
      of the one before and ends at or before the start of the one after. */
  ghost predicate FitsAt(v: seq<Extent>, k: nat, e: Extent)
    requires k <= |v|
  {
    && (0 < k ==> Limit(v[k - 1]) <= e.addr)
    && (k < |v| ==> Limit(e) <= v[k].addr)
  }

  lemma InsertOrdered(v: seq<Extent>, k: nat, e: Extent)
    requires Ordered(v) && k <= |v| && FitsAt(v, k, e)
    ensures Ordered(InsertAt(v, k, e))
  {
    var r := InsertAt(v, k, e);
    forall i, j | 0 <= i < j < |r| ensures Limit(r[i]) <= r[j].addr {
      if j < k {
        assert r[i] == v[i] && r[j] == v[j];
      } else if j == k {
        assert r[i] == v[i] && r[j] == e;
        if i < k - 1 { assert Limit(v[i]) <= v[k - 1].addr; }
      } else if i == k {
        assert r[i] == e && r[j] == v[j - 1];
        if j - 1 > k { assert Limit(v[k]) <= v[j - 1].addr; }
      } else if i < k {
        assert r[i] == v[i] && r[j] == v[j - 1];
      } else {
        assert r[i] == v[i - 1] && r[j] == v[j - 1];
      }
    }
  }

  lemma EraseOrdered(v: seq<Extent>, k: nat)
    requires Ordered(v) && k < |v|
    ensures Ordered(Erase(v, k))
  {
    var r := Erase(v, k);
    forall i, j | 0 <= i < j < |r| ensures Limit(r[i]) <= r[j].addr {
      assert r[i] == (if i < k then v[i] else v[i + 1]);
      assert r[j] == (if j < k then v[j] else v[j + 1]);
    }
  }

  lemma EraseCoalesced(v: seq<Extent>, k: nat)
    requires Ordered(v) && Coalesced(v) && k < |v|
    ensures Coalesced(Erase(v, k))
  {
    var r := Erase(v, k);
    forall i | 0 <= i < |r| - 1 ensures Gap(r, i) {
      if i + 1 < k {
        assert Gap(v, i) && r[i] == v[i] && r[i + 1] == v[i + 1];
      } else if i + 1 == k {
        assert r[i] == v[i] && r[i + 1] == v[k + 1];
        assert Limit(v[i]) <= v[k].addr && Limit(v[k]) <= v[k + 1].addr;
      } else {
        assert Gap(v, i + 1) && r[i] == v[i + 1] && r[i + 1] == v[i + 2];
      }
    }
  }

  /** Every neighbour pair but the ones at `a` and `b` has a gap. */
  ghost predicate CoalescedBut(v: seq<Extent>, a: int, b: int)
  {
    forall i | 0 <= i < |v| - 1 && i != a && i != b :: Gap(v, i)
  }

  lemma InsertCoalesced(v: seq<Extent>, k: nat, e: Extent)
    requires Coalesced(v) && k <= |v|
    ensures CoalescedBut(InsertAt(v, k, e), k - 1, k)
  {
    var r := InsertAt(v, k, e);
    forall i | 0 <= i < |r| - 1 && i != k - 1 && i != k ensures Gap(r, i) {
      if i < k - 1 {
        assert Gap(v, i) && r[i] == v[i] && r[i + 1] == v[i + 1];
      } else {
        assert Gap(v, i - 1) && r[i] == v[i - 1] && r[i + 1] == v[i];
      }
    }
  }

  lemma MergeOrdered(v: seq<Extent>, i: nat)
    requires Ordered(v) && i + 1 < |v| && Limit(v[i]) == v[i + 1].addr
    ensures Ordered(MergeAt(v, i))
  {
    var r := MergeAt(v, i);
    assert |r| == |v| - 1;
    forall a, b | 0 <= a < b < |r| ensures Limit(r[a]) <= r[b].addr {
      assert r[a] == (if a < i then v[a] else if a == i then Merged(v[i], v[i + 1]) else v[a + 1]);
      assert r[b] == (if b < i then v[b] else if b == i then Merged(v[i], v[i + 1]) else v[b + 1]);
      if b == i { assert Limit(v[a]) <= v[i].addr; }
      if a == i { assert Limit(v[i + 1]) <= v[b + 1].addr; }
    }
  }

  /** Merging at `i` closes the pair at `i`; the other pairs shift down past it. */
  lemma MergeCoalesced(v: seq<Extent>, i: nat, a: int)
    requires i + 1 < |v| && Limit(v[i]) == v[i + 1].addr
    requires CoalescedBut(v, i, a) && a != i + 1
    ensures CoalescedBut(MergeAt(v, i), if a == i then -1 else if a < i then a else a - 1, -1)
  {
    var r := MergeAt(v, i);
    var a' := if a == i then -1 else if a < i then a else a - 1;
    assert |r| == |v| - 1;
    forall p | 0 <= p < |r| - 1 && p != a' ensures Gap(r, p) {
      if p < i - 1 {
        assert Gap(v, p) && r[p] == v[p] && r[p + 1] == v[p + 1];
      } else if p == i - 1 {
        assert Gap(v, p) && r[p] == v[p] && r[p + 1].addr == v[i].addr;
      } else if p == i {
        assert Gap(v, i + 1) && Limit(r[p]) == Limit(v[i + 1]) && r[p + 1] == v[i + 2];
      } else {
        assert Gap(v, p + 1) && r[p] == v[p + 1] && r[p + 1] == v[p + 2];
      }
    }
  }

  lemma CoalescedButGap(v: seq<Extent>, a: int, b: int)
    requires CoalescedBut(v, a, b)
    requires 0 <= a < |v| - 1 ==> Gap(v, a)
    requires 0 <= b < |v| - 1 ==> Gap(v, b)
    ensures Coalesced(v)
  {
  }

  // ---------------------------------------------------------------------
  // Releasing a block

  /** A block that shares no byte with an ordered view fits at its slot. */
  lemma SlotFits(v: seq<Extent>, e: Extent)
    requires Ordered(v) && Span(e) !! Bytes(v)
    ensures FitsAt(v, Slot(v, e.addr), e)
  {
    var k := Slot(v, e.addr);
    if 0 < k {
      SpanInBytes(v, k - 1);
      assert e.addr in Span(e);
    }
    if k < |v| {
      SpanInBytes(v, k);
      assert v[k].addr in Span(v[k]);
    }
  }

  /** Linking `e` in at its slot: the view stays ordered, only the two pairs
      around `e` may lack a gap, and `e`'s bytes are added. */
  lemma InsertStep(v: seq<Extent>, e: Extent)
    requires Ordered(v) && Coalesced(v) && Span(e) !! Bytes(v)
    ensures Ordered(InsertAt(v, Slot(v, e.addr), e))
    ensures CoalescedBut(InsertAt(v, Slot(v, e.addr), e), Slot(v, e.addr) - 1, Slot(v, e.addr))
    ensures Bytes(InsertAt(v, Slot(v, e.addr), e)) == Bytes(v) + Span(e)
    ensures Total(InsertAt(v, Slot(v, e.addr), e)) == Total(v) + e.size + META_SIZE
  {
    var k := Slot(v, e.addr);
    SlotFits(v, e);
    InsertOrdered(v, k, e);
    InsertCoalesced(v, k, e);
    InsertBytes(v, k, e);
  }

  /** coalesceWithRight on entry `k` closes the pair after it and keeps the
      entry's address and everything before it. */
  lemma MergeRightStep(w: seq<Extent>, k: nat)
    requires Ordered(w) && k < |w| && CoalescedBut(w, k - 1, k)
    ensures Ordered(MergeRightAt(w, k)) && CoalescedBut(MergeRightAt(w, k), k - 1, -1)
    ensures Bytes(MergeRightAt(w, k)) == Bytes(w) && Total(MergeRightAt(w, k)) == Total(w)
    ensures k < |MergeRightAt(w, k)| && MergeRightAt(w, k)[k].addr == w[k].addr
    ensures 0 < k ==> MergeRightAt(w, k)[k - 1] == w[k - 1]
  {
    if k + 1 < |w| && Limit(w[k]) == w[k + 1].addr {
      MergeOrdered(w, k);
      MergeCoalesced(w, k, k - 1);
      MergeBytes(w, k);
    } else {
      assert k + 1 < |w| ==> Gap(w, k);
    }
  }

  /** coalesceWithLeft on entry `k` closes the last open pair. */
  lemma MergeLeftStep(w: seq<Extent>, k: nat)
    requires Ordered(w) && k < |w| && CoalescedBut(w, k - 1, -1)
    ensures Ordered(MergeLeftAt(w, k)) && Coalesced(MergeLeftAt(w, k))
    ensures Bytes(MergeLeftAt(w, k)) == Bytes(w) && Total(MergeLeftAt(w, k)) == Total(w)
  {
    if 0 < k && Limit(w[k - 1]) == w[k].addr {
      MergeClosing(w, k - 1);
    } else {
      CoalescedButGap(w, k - 1, -1);
    }
  }

  /** Merging at the only open pair leaves none open. */
  lemma MergeClosing(w: seq<Extent>, i: nat)
    requires Ordered(w) && i + 1 < |w| && Limit(w[i]) == w[i + 1].addr && CoalescedBut(w, i, -1)
    ensures Ordered(MergeAt(w, i)) && Coalesced(MergeAt(w, i))
    ensures Bytes(MergeAt(w, i)) == Bytes(w) && Total(MergeAt(w, i)) == Total(w)
  {
    MergeOrdered(w, i);
    MergeCoalesced(w, i, i);
    MergeBytes(w, i);
    CoalescedButGap(MergeAt(w, i), -1, -1);
  }

  /** Releasing a block that is not below the first free block keeps the view
      ordered and fully coalesced, adds exactly the block's bytes and adds its
      size plus one header to the total. */
  lemma ReleasePlaced(v: seq<Extent>, e: Extent)
    requires Ordered(v) && Coalesced(v) && Span(e) !! Bytes(v)
    requires v == [] || v[0].addr <= e.addr
    ensures Ordered(Release(v, e)) && Coalesced(Release(v, e))
    ensures Bytes(Release(v, e)) == Bytes(v) + Span(e)
    ensures Total(Release(v, e)) == Total(v) + e.size + META_SIZE
  {
    var k := Slot(v, e.addr);
    var w := InsertAt(v, k, e);
    InsertStep(v, e);
    MergeRightStep(w, k);
    MergeLeftStep(MergeRightAt(w, k), k);
  }

  // ---------------------------------------------------------------------
  // Carving an allocation out of a free block

  /** The split arithmetic: the kept part, a header and the remainder fill the
      old block exactly. */
  lemma RemainderSpans(e: Extent, size: nat)
    requires size + META_SIZE <= e.size
    ensures Span(Extent(e.addr, size)) + Span(Remainder(e, size)) == Span(e)
    ensures Span(Extent(e.addr, size)) !! Span(Remainder(e, size))
  {
  }

  /** Dropping entry `k` whole. */
  lemma EraseStep(v: seq<Extent>, k: nat)
    requires Ordered(v) && Coalesced(v) && k < |v|
    ensures Ordered(Erase(v, k)) && Coalesced(Erase(v, k))
    ensures Bytes(Erase(v, k)) + Span(v[k]) == Bytes(v) && Bytes(Erase(v, k)) !! Span(v[k])
    ensures Total(Erase(v, k)) + v[k].size + META_SIZE == Total(v)
  {
    EraseBytes(v, k);
    EraseApart(v, k);
    EraseOrdered(v, k);
    EraseCoalesced(v, k);
  }

  /** Replacing entry `k` by its remainder keeps the order. */
  lemma RemainderOrdered(v: seq<Extent>, k: nat, size: nat)
    requires Ordered(v) && k < |v| && size + META_SIZE <= v[k].size
    ensures Ordered(v[k := Remainder(v[k], size)])
  {
    var rem := Remainder(v[k], size);
    var u := Erase(v, k);
    assert v[k := rem] == InsertAt(u, k, rem);
    EraseOrdered(v, k);
    assert FitsAt(u, k, rem) by {
      if 0 < k { assert u[k - 1] == v[k - 1] && Limit(v[k - 1]) <= v[k].addr; }
      if k < |u| { assert u[k] == v[k + 1] && Limit(v[k]) <= v[k + 1].addr; }
    }
    InsertOrdered(u, k, rem);
  }

  /** Replacing entry `k` by its remainder keeps every gap: the remainder
      starts above the previous block's end and ends where the old block did. */
  lemma RemainderCoalesced(v: seq<Extent>, k: nat, size: nat)
    requires Ordered(v) && Coalesced(v) && k < |v| && size + META_SIZE <= v[k].size
    ensures Coalesced(v[k := Remainder(v[k], size)])
  {
    var rem := Remainder(v[k], size);
    var r := v[k := rem];
    forall i | 0 <= i < |r| - 1 ensures Gap(r, i) {
      if i == k - 1 {
        assert Limit(v[i]) <= v[k].addr < rem.addr;
      } else if i == k {
        assert Gap(v, k) && Limit(rem) == Limit(v[k]);
      } else {
        assert Gap(v, i);
      }
    }
  }

  /** Replacing entry `k` by its remainder gives up exactly the kept part. */
  lemma RemainderBytes(v: seq<Extent>, k: nat, size: nat)
    requires Ordered(v) && k < |v| && size + META_SIZE <= v[k].size
    ensures Bytes(v[k := Remainder(v[k], size)]) + Span(Extent(v[k].addr, size)) == Bytes(v)
    ensures Bytes(v[k := Remainder(v[k], size)]) !! Span(Extent(v[k].addr, size))
    ensures Total(v[k := Remainder(v[k], size)]) + size + META_SIZE == Total(v)
  {
    var rem := Remainder(v[k], size);
    var u := Erase(v, k);
    assert v[k := rem] == InsertAt(u, k, rem);
    EraseBytes(v, k);
    EraseApart(v, k);
    InsertBytes(u, k, rem);
    RemainderSpans(v[k], size);
  }

  /** Carving keeps the view ordered and fully coalesced, and the view loses
      exactly the bytes and the total of the block handed out. */
  lemma CarvePlaced(v: seq<Extent>, k: nat, size: nat)
    requires Ordered(v) && Coalesced(v) && k < |v|
    ensures Ordered(Carve(v, k, size)) && Coalesced(Carve(v, k, size))
    ensures Bytes(Carve(v, k, size)) + Span(Taken(v[k], size)) == Bytes(v)
    ensures Bytes(Carve(v, k, size)) !! Span(Taken(v[k], size))
    ensures Total(Carve(v, k, size)) + Taken(v[k], size).size + META_SIZE == Total(v)
  {
    if size + META_SIZE > v[k].size {
      EraseStep(v, k);
    } else {
      RemainderOrdered(v, k, size);
      RemainderCoalesced(v, k, size);
      RemainderBytes(v, k, size);
    }
  }

  // ---------------------------------------------------------------------
  // The merges as the list code performs them

  /** Merging entries `i` and `i + 1` is growing entry `i` and erasing entry
      `i + 1`. */
  lemma MergeAsErase(v: seq<Extent>, i: nat)
    requires i + 1 < |v| && Limit(v[i]) == v[i + 1].addr
    ensures MergeAt(v, i) == Erase(v[i := Merged(v[i], v[i + 1])], i + 1)
  {
    var a, b := MergeAt(v, i), Erase(v[i := Merged(v[i], v[i + 1])], i + 1);
    assert |a| == |b|;
    forall j | 0 <= j < |a| ensures a[j] == b[j] {
      if j < i {
        assert a[j] == v[..i][j];
      } else if j > i {
        assert a[j] == v[i + 2..][j - i - 1];
      }
    }
  }

  /** What a release keeps of the view's shape, in either branch: still
      ordered and coalesced, no byte outside the old view and the block, and
      the total raised by at most the block and its header. */
  lemma ReleaseShape(v: seq<Extent>, e: Extent)
    requires Ordered(v) && Coalesced(v) && Span(e) !! Bytes(v)
    ensures Ordered(Release(v, e)) && Coalesced(Release(v, e))
    ensures Bytes(Release(v, e)) <= Bytes(v) + Span(e)
    ensures Total(Release(v, e)) <= Total(v) + e.size + META_SIZE
  {
    if v == [] || v[0].addr <= e.addr {
      ReleasePlaced(v, e);
    }
  }

  /** Releasing into an empty view gives the one block. */
  lemma ReleaseEmpty(e: Extent)
    ensures Release([], e) == [e]
  {
    assert InsertAt([], 0, e) == [e] by {
      assert InsertAt([], 0, e)[0] == e;
    }
  }

  /** Releasing a block above every free block appends it and merges it with
      the last one when they touch. */
  lemma ReleaseAbove(v: seq<Extent>, e: Extent)
    requires Ordered(v) && v != [] && v[|v| - 1].addr < e.addr
    ensures Slot(v, e.addr) == |v|
    ensures Release(v, e) == MergeLeftAt(v + [e], |v|)
    ensures Absorbed(v, e) == 0
  {
    var k := Slot(v, e.addr);
    if k < |v| {
      assert false;
    }
    InsertAtEnd(v, e);
  }

  /** Releasing a block that lands after entry `k - 1`: inserted at `k`,
      merged right, then left; and the merged-right entry has grown by
      exactly `Absorbed`. */
  lemma ReleaseInside(v: seq<Extent>, e: Extent, k: nat)
    requires 0 < k && k == Slot(v, e.addr)
    ensures k <= |v| && Release(v, e) == MergeLeftAt(MergeRightAt(InsertAt(v, k, e), k), k)
    ensures k < |MergeRightAt(InsertAt(v, k, e), k)|
    ensures MergeRightAt(InsertAt(v, k, e), k)[k].size == e.size + Absorbed(v, e)
  {
    assert v[0].addr < e.addr;
    var w := InsertAt(v, k, e);
    assert w[k] == e;
    if k < |v| {
      assert w[k + 1] == v[k];
    }
  }

  /** Each block's size and header are part of the total. */
  lemma {:induction false} TotalAt(v: seq<Extent>, k: nat)
    requires k < |v|
    ensures v[k].size + META_SIZE <= Total(v)
  {
    if k > 0 {
      TotalAt(v[1..], k - 1);
    }
  }

  /** Releasing a block whose header lies strictly inside free entry `j`
      (one a right merge absorbed into it) slots it in right after that
      entry, which it overlaps, and no merge can undo that: the view is no
      longer in address order. */
  lemma ReleaseOverlaps(v: seq<Extent>, e: Extent, j: nat)
    requires Ordered(v) && j < |v| && v[j].addr < e.addr < Limit(v[j])
    ensures !Ordered(Release(v, e))
  {
    var k := Slot(v, e.addr);
    assert k == j + 1;
    if j > 0 {
      assert Limit(v[0]) <= v[j].addr;
    }
    ReleaseInside(v, e, k);
    var w1 := InsertAt(v, k, e);
    assert w1[j] == v[j] && w1[k] == e;
    var w2 := MergeRightAt(w1, k);
    assert w2[j] == v[j] && w2[k].addr == e.addr;
    assert Release(v, e) == w2;
    assert Limit(w2[j]) > w2[j + 1].addr;
  }
}
