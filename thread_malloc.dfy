/** The engine of the thread-safe allocator, project2/my_malloc.c.  It keeps
    the same headers as the main allocator, but every list routine receives
    the list's `head` and `tail` by value: what it assigns to them is lost on
    return, and only the headers it writes through them change.  Memory is
    grown by a function the caller passes in.

    Each routine is given twice: as a function from the header memory to
    the memory it leaves (or a fault when it dereferences a null pointer or
    an address holding no header), and as the method that makes the same
    writes in place, proved to leave exactly that memory. */
module ThreadMalloc {
  import opened Blocks
  import opened FreeList

  type Memory = map<nat, Header>

  /** What running a routine leaves: a value, or a fault when the code
      reads or writes through a null pointer or an address where no header
      was ever written. */
  datatype Outcome<T> = Fault | Done(value: T)
  {
    predicate IsFailure()
    {
      Fault?
    }

    function PropagateFailure<U>(): Outcome<U>
      requires Fault?
    {
      Fault
    }

    function Extract(): T
      requires Done?
    {
      value
    }
  }

  /** A pointer compared as an address: null is address 0. */
  function Addr(p: Option<nat>): nat
  {
    if p.Some? then p.value else 0
  }

  /** `*p` */
  function Load(m: Memory, p: Option<nat>): Outcome<Header>
  {
    if p.Some? && p.value in m then Done(m[p.value]) else Fault
  }

  /** `p->next = q` */
  function SetNext(m: Memory, p: Option<nat>, q: Option<nat>): Outcome<Memory>
  {
    if p.Some? && p.value in m then Done(m[p.value := m[p.value].(next := q)]) else Fault
  }

  /** `p->prev = q` */
  function SetPrev(m: Memory, p: Option<nat>, q: Option<nat>): Outcome<Memory>
  {
    if p.Some? && p.value in m then Done(m[p.value := m[p.value].(prev := q)]) else Fault
  }

  /** `p->allocated = a` */
  function SetFlag(m: Memory, p: Option<nat>, a: bool): Outcome<Memory>
  {
    if p.Some? && p.value in m then Done(m[p.value := m[p.value].(isAllocated := a)]) else Fault
  }

  /** `p->dataSize = n` */
  function SetSize(m: Memory, p: Option<nat>, n: nat): Outcome<Memory>
  {
    if p.Some? && p.value in m then Done(m[p.value := m[p.value].(dataSize := n)]) else Fault
  }

  /** isEmptyFreeList */
  function IsEmptyFreeList(head: Option<nat>, tail: Option<nat>): (r: bool)
  {
    head == None && tail == None
  }

  // ---------------------------------------------------------------------
  // What each routine leaves in memory

  /** appendToFreeList */
  ghost function AppendEffect(m: Memory, head: Option<nat>, tail: Option<nat>, x: nat): Outcome<Memory>
  {
    if IsEmptyFreeList(head, tail) then SetFlag(m, Some(x), false)
    else
      var m1 :- SetNext(m, tail, Some(x));
      var m2 :- SetPrev(m1, Some(x), tail);
      var m3 :- SetNext(m2, Some(x), None);
      SetFlag(m3, Some(x), false)
  }

  /** insertIntoFreeList as written: in its last branch the inner
      `toInsert` is `curr->next`, which ends up linked to itself. */
  ghost function InsertEffect(m: Memory, head: Option<nat>, tail: Option<nat>, x: nat, curr: Option<nat>): Outcome<Memory>
  {
    if IsEmptyFreeList(head, tail) then Done(m)
    else if curr == None then
      var m1 :- SetPrev(m, head, Some(x));
      var m2 :- SetNext(m1, Some(x), head);
      SetPrev(m2, Some(x), None)
    else if curr == tail then
      var m1 :- SetNext(m, tail, Some(x));
      var m2 :- SetPrev(m1, Some(x), tail);
      SetNext(m2, Some(x), None)
    else
      var c :- Load(m, curr);
      var m1 :- SetNext(m, curr, c.next);
      var m2 :- SetPrev(m1, c.next, curr);
      var m3 :- SetNext(m2, c.next, c.next);
      SetPrev(m3, c.next, c.next)
  }

  /** The neighbour updates of removeFromFreeList on a non-empty list. */
  ghost function UnlinkEffect(m: Memory, head: Option<nat>, tail: Option<nat>, x: nat): Outcome<Memory>
  {
    if head == Some(x) && tail == Some(x) then Done(m)
    else if head == Some(x) then
      var h :- Load(m, head);
      SetPrev(m, h.next, None)
    else if tail == Some(x) then
      var t :- Load(m, tail);
      SetNext(m, t.prev, None)
    else
      var c :- Load(m, Some(x));
      var m1 :- SetNext(m, c.prev, c.next);
      var c1 :- Load(m1, Some(x));
      SetPrev(m1, c1.next, c1.prev)
  }

  /** removeFromFreeList */
  ghost function RemoveEffect(m: Memory, head: Option<nat>, tail: Option<nat>, x: nat): Outcome<Memory>
  {
    if IsEmptyFreeList(head, tail) then Done(m)
    else
      var m1 :- UnlinkEffect(m, head, tail, x);
      var m2 :- SetPrev(m1, Some(x), None);
      var m3 :- SetNext(m2, Some(x), None);
      SetFlag(m3, Some(x), true)
  }

  /** Where splitMemoryBlock puts the rest of a block cut to `ds` bytes:
      `(char *)(block + 1) + dataSize`. */
  function RestAt(b: nat, ds: nat): nat
  {
    b + META_SIZE + ds
  }

  /** The header writes splitMemoryBlock makes before its list calls on a
      block large enough to cut: a free header for the rest right after
      `ds` bytes (initializeMemoryBlock), then the block's size set to `ds`
      and its flag to allocated. */
  ghost function Cut(m: Memory, b: nat, ds: nat): Memory
    requires b in m && META_SIZE + ds <= m[b].dataSize
  {
    m[RestAt(b, ds) := Blank(m[b].dataSize - ds - META_SIZE, false)]
     [b := m[b].(dataSize := ds, isAllocated := true)]
  }

  /** splitMemoryBlock */
  ghost function SplitEffect(m: Memory, head: Option<nat>, tail: Option<nat>, b: nat, ds: nat): Outcome<Memory>
  {
    var hb :- Load(m, Some(b));
    if hb.dataSize < META_SIZE + ds then RemoveEffect(m, head, tail, b)
    else
      var m4 :- InsertEffect(Cut(m, b, ds), head, tail, RestAt(b, ds), Some(b));
      RemoveEffect(m4, head, tail, b)
  }

  /** coalesceWithLeft */
  ghost function CoalesceLeftEffect(m: Memory, head: Option<nat>, tail: Option<nat>, b: nat): Outcome<Memory>
  {
    var hb :- Load(m, Some(b));
    if hb.prev == None then Done(m)
    else
      var hp :- Load(m, hb.prev);
      if b == hb.prev.value + META_SIZE + hp.dataSize then
        var m1 :- SetSize(m, hb.prev, hp.dataSize + META_SIZE + hb.dataSize);
        RemoveEffect(m1, head, tail, b)
      else Done(m)
  }

  /** coalesceWithRight */
  ghost function CoalesceRightEffect(m: Memory, head: Option<nat>, tail: Option<nat>, b: nat): Outcome<Memory>
  {
    var hb :- Load(m, Some(b));
    if hb.next == None || hb.next.value != b + META_SIZE + hb.dataSize then Done(m)
    else
      var hn :- Load(m, hb.next);
      var m1 :- SetSize(m, Some(b), hb.dataSize + META_SIZE + hn.dataSize);
      RemoveEffect(m1, head, tail, hb.next.value)
  }

  /** `while (iter < block) iter = iter->next;` from `iter` along the
      chain `path`: the first header at or above `b`.  Running off the end
      of the chain reads through the null pointer. */
  ghost function Seek(m: Memory, iter: Option<nat>, b: nat, path: seq<nat>): Outcome<nat>
    requires IsChain(m, iter, path)
    decreases |path|
  {
    if iter == None then Fault
    else if iter.value < b then Seek(m, m[iter.value].next, b, path[1..])
    else Done(iter.value)
  }

  /** freeMemoryBlock takes its last branch, the one that walks the list. */
  predicate Walks(head: Option<nat>, tail: Option<nat>, b: nat)
  {
    !IsEmptyFreeList(head, tail) && b <= Addr(tail) && Addr(head) <= b
  }

  /** freeMemoryBlock */
  ghost function FreeEffect(m: Memory, head: Option<nat>, tail: Option<nat>, b: nat, path: seq<nat>): Outcome<Memory>
    requires Walks(head, tail, b) ==> IsChain(m, head, path)
  {
    var m0 :- SetFlag(m, Some(b), false);
    if IsEmptyFreeList(head, tail) || b > Addr(tail) then
      var m1 :- AppendEffect(m0, head, tail, b);
      if !IsEmptyFreeList(head, tail) && b > Addr(tail) then CoalesceLeftEffect(m1, head, tail, b)
      else Done(m1)
    else if b < Addr(head) then
      var m1 :- InsertEffect(m0, head, tail, b, None);
      CoalesceRightEffect(m1, head, tail, b)
    else
      var iter :- Seek(m, head, b, path);
      var hi :- Load(m0, Some(iter));
      var m1 :- InsertEffect(m0, head, tail, b, hi.prev);
      var m2 :- CoalesceRightEffect(m1, head, tail, b);
      CoalesceLeftEffect(m2, head, tail, b)
  }

  // ---------------------------------------------------------------------
  // The list routines on a well-formed list

  /** On a non-empty list, appendToFreeList links `x` after the last block
      as the main allocator does; the blocks then run from `head` to `x`,
      although the caller's `tail` still names the old last block. */
  lemma AppendOnList(m: Memory, head: Option<nat>, tail: Option<nat>, s: seq<nat>, x: nat)
    requires Linked(m, head, tail, s) && s != [] && x in m && x !in s
    ensures AppendEffect(m, head, tail, x) == Done(Flagged(Spliced(m, s[|s| - 1], x), x, false))
    ensures Linked(AppendEffect(m, head, tail, x).value, head, Some(x), s + [x])
  {
    var t := s[|s| - 1];
    assert m[t].next == None;
    var r := AppendEffect(m, head, tail, x).value;
    var f := Flagged(Spliced(m, t, x), x, false);
    assert r[x] == f[x];
    assert r == f;
    AppendedLinked(m, head, tail, s, x);
  }

  /** On a list holding `s[k]`, removeFromFreeList unlinks it as the main
      allocator does and marks it allocated; the other blocks stay linked
      between the new ends it computed, which the caller never sees. */
  lemma RemoveOnList(m: Memory, head: Option<nat>, tail: Option<nat>, s: seq<nat>, k: nat)
    requires Linked(m, head, tail, s) && k < |s|
    ensures RemoveEffect(m, head, tail, s[k]) == Done(Flagged(Detached(m, s[k]), s[k], true))
    ensures Linked(RemoveEffect(m, head, tail, s[k]).value,
                   if k == 0 then m[s[k]].next else head,
                   if k == |s| - 1 then m[s[k]].prev else tail, Erase(s, k))
  {
    var x := s[k];
    UnlinkOnList(m, head, tail, s, k);
    var r := RemoveEffect(m, head, tail, x).value;
    var f := Flagged(Detached(m, x), x, true);
    assert r[x] == f[x];
    assert r == f;
    RemovedLinked(m, head, tail, s, k);
  }

  /** The neighbour updates of removeFromFreeList on a list holding `s[k]`
      are those of `Detached`: the neighbours point at each other. */
  lemma UnlinkOnList(m: Memory, head: Option<nat>, tail: Option<nat>, s: seq<nat>, k: nat)
    requires Linked(m, head, tail, s) && k < |s|
    ensures var p, n := m[s[k]].prev, m[s[k]].next;
            && (p.Some? ==> p.value in m && p.value != s[k])
            && (n.Some? ==> n.value in m && n.value != s[k])
            && var h1 := if p.Some? then m[p.value := m[p.value].(next := n)] else m;
               UnlinkEffect(m, head, tail, s[k]) == Done(if n.Some? then h1[n.value := h1[n.value].(prev := p)] else h1)
  {
    if 0 < k { DistinctAt(s, 0, k); DistinctAt(s, k - 1, k); }
    if k < |s| - 1 { DistinctAt(s, k, |s| - 1); DistinctAt(s, k, k + 1); }
    if 0 < k < |s| - 1 { DistinctAt(s, k - 1, k + 1); }
  }

  /** With a null `curr`, insertIntoFreeList links `x` in front of the
      first block: the blocks then run from `x` to `tail`. */
  lemma InsertFrontOnList(m: Memory, head: Option<nat>, tail: Option<nat>, s: seq<nat>, x: nat)
    requires Linked(m, head, tail, s) && s != [] && x in m && x !in s
    ensures InsertEffect(m, head, tail, x, None) == Done(Prepended(m, x, s[0]))
    ensures Linked(InsertEffect(m, head, tail, x, None).value, Some(x), tail, [x] + s)
  {
    var r := InsertEffect(m, head, tail, x, None).value;
    assert r[x] == Prepended(m, x, s[0])[x];
    assert r == Prepended(m, x, s[0]);
    PrependedLinked(m, head, tail, s, x);
  }

  /** With `curr` the last block, insertIntoFreeList links `x` after it:
      the blocks then run from `head` to `x`. */
  lemma InsertAfterTailOnList(m: Memory, head: Option<nat>, tail: Option<nat>, s: seq<nat>, x: nat)
    requires Linked(m, head, tail, s) && s != [] && x in m && x !in s
    ensures InsertEffect(m, head, tail, x, tail) == Done(Spliced(m, s[|s| - 1], x))
    ensures Linked(InsertEffect(m, head, tail, x, tail).value, head, Some(x), s + [x])
  {
    var t := s[|s| - 1];
    assert m[t].next == None;
    var r := InsertEffect(m, head, tail, x, tail).value;
    assert r[x] == Spliced(m, t, x)[x];
    assert r == Spliced(m, t, x);
    InsertedLinked(m, head, tail, s, |s|, x);
    InsertAtEnd(s, x);
  }

  /** With `curr` any block but the last, insertIntoFreeList links the block
      after `curr` to itself in both directions and leaves `x` untouched. */
  lemma InsertSelfLoop(m: Memory, head: Option<nat>, tail: Option<nat>, s: seq<nat>, k: nat, x: nat)
    requires Linked(m, head, tail, s) && k + 1 < |s| && x !in s
    ensures var r := InsertEffect(m, head, tail, x, Some(s[k]));
            && r.Done? && s[k + 1] in r.value
            && r.value[s[k + 1]].next == Some(s[k + 1])
            && r.value[s[k + 1]].prev == Some(s[k + 1])
            && (x in m ==> x in r.value && r.value[x] == m[x])
  {
    DistinctAt(s, k, |s| - 1);
  }

  // ---------------------------------------------------------------------
  // Sizes and flags, whatever the list looks like

  /** Every header of `m` is still there with the same data size. */
  ghost predicate SizesKept(m: Memory, r: Memory)
  {
    forall y | y in m :: y in r && r[y].dataSize == m[y].dataSize
  }

  /** Every header of `m` other than `x` keeps its allocated flag. */
  ghost predicate FlagsKept(m: Memory, r: Memory, x: Option<nat>)
  {
    forall y | y in m && Some(y) != x :: y in r && r[y].isAllocated == m[y].isAllocated
  }

  /** Writing a link keeps every size and every flag. */
  lemma LinkKeeps(m: Memory, r: Memory, p: Option<nat>, q: Option<nat>)
    requires SetNext(m, p, q) == Done(r) || SetPrev(m, p, q) == Done(r)
    ensures SizesKept(m, r) && FlagsKept(m, r, None)
  {
  }

  lemma KeptChain(m1: Memory, m2: Memory, m3: Memory, x: Option<nat>)
    requires SizesKept(m1, m2) && FlagsKept(m1, m2, None)
    requires SizesKept(m2, m3) && FlagsKept(m2, m3, x)
    ensures SizesKept(m1, m3) && FlagsKept(m1, m3, x)
  {
  }

  /** insertIntoFreeList writes only links. */
  lemma InsertKeeps(m: Memory, head: Option<nat>, tail: Option<nat>, x: nat, curr: Option<nat>)
    requires InsertEffect(m, head, tail, x, curr).Done?
    ensures SizesKept(m, InsertEffect(m, head, tail, x, curr).value)
    ensures FlagsKept(m, InsertEffect(m, head, tail, x, curr).value, None)
  {
    if IsEmptyFreeList(head, tail) {
    } else if curr == None {
      var m1 := SetPrev(m, head, Some(x)).value;
      var m2 := SetNext(m1, Some(x), head).value;
      LinkKeeps(m, m1, head, Some(x));
      LinkKeeps(m1, m2, Some(x), head);
      KeptChain(m, m1, m2, None);
      LinkKeeps(m2, SetPrev(m2, Some(x), None).value, Some(x), None);
      KeptChain(m, m2, SetPrev(m2, Some(x), None).value, None);
    } else if curr == tail {
      var m1 := SetNext(m, tail, Some(x)).value;
      var m2 := SetPrev(m1, Some(x), tail).value;
      LinkKeeps(m, m1, tail, Some(x));
      LinkKeeps(m1, m2, Some(x), tail);
      KeptChain(m, m1, m2, None);
      LinkKeeps(m2, SetNext(m2, Some(x), None).value, Some(x), None);
      KeptChain(m, m2, SetNext(m2, Some(x), None).value, None);
    } else {
      var n := m[curr.value].next;
      var m1 := SetNext(m, curr, n).value;
      var m2 := SetPrev(m1, n, curr).value;
      var m3 := SetNext(m2, n, n).value;
      LinkKeeps(m, m1, curr, n);
      LinkKeeps(m1, m2, n, curr);
      KeptChain(m, m1, m2, None);
      LinkKeeps(m2, m3, n, n);
      KeptChain(m, m2, m3, None);
      LinkKeeps(m3, SetPrev(m3, n, n).value, n, n);
      KeptChain(m, m3, SetPrev(m3, n, n).value, None);
    }
  }

  /** The neighbour updates of removeFromFreeList write only links. */
  lemma UnlinkKeeps(m: Memory, head: Option<nat>, tail: Option<nat>, x: nat)
    requires UnlinkEffect(m, head, tail, x).Done?
    ensures SizesKept(m, UnlinkEffect(m, head, tail, x).value)
    ensures FlagsKept(m, UnlinkEffect(m, head, tail, x).value, None)
  {
    if head == Some(x) && tail == Some(x) {
    } else if head == Some(x) {
      LinkKeeps(m, UnlinkEffect(m, head, tail, x).value, m[x].next, None);
    } else if tail == Some(x) {
      LinkKeeps(m, UnlinkEffect(m, head, tail, x).value, m[x].prev, None);
    } else {
      var c := m[x];
      var m1 := SetNext(m, c.prev, c.next).value;
      LinkKeeps(m, m1, c.prev, c.next);
      var c1 := m1[x];
      LinkKeeps(m1, SetPrev(m1, c1.next, c1.prev).value, c1.next, c1.prev);
      KeptChain(m, m1, SetPrev(m1, c1.next, c1.prev).value, None);
    }
  }

  /** removeFromFreeList writes links, and the flag of the block it is
      given, which it sets unless the list is empty. */
  lemma RemoveKeeps(m: Memory, head: Option<nat>, tail: Option<nat>, x: nat)
    requires RemoveEffect(m, head, tail, x).Done?
    ensures SizesKept(m, RemoveEffect(m, head, tail, x).value)
    ensures FlagsKept(m, RemoveEffect(m, head, tail, x).value, Some(x))
    ensures !IsEmptyFreeList(head, tail) ==> x in RemoveEffect(m, head, tail, x).value
                                             && RemoveEffect(m, head, tail, x).value[x].isAllocated
  {
    if !IsEmptyFreeList(head, tail) {
      var m1 := UnlinkEffect(m, head, tail, x).value;
      UnlinkKeeps(m, head, tail, x);
      var m2 := SetPrev(m1, Some(x), None).value;
      LinkKeeps(m1, m2, Some(x), None);
      KeptChain(m, m1, m2, None);
      var m3 := SetNext(m2, Some(x), None).value;
      LinkKeeps(m2, m3, Some(x), None);
      KeptChain(m, m2, m3, None);
    }
  }

  /** splitMemoryBlock on a block of at least `META_SIZE + ds` bytes leaves
      it with `ds` bytes and allocated, followed by a free header for the
      rest, the two tiling the old block; on a smaller block the size is
      left as it was. */
  lemma SplitShape(m: Memory, head: Option<nat>, tail: Option<nat>, b: nat, ds: nat)
    requires SplitEffect(m, head, tail, b, ds).Done?
    ensures b in m
    ensures var r := SplitEffect(m, head, tail, b, ds).value;
            && b in r
            && (m[b].dataSize < META_SIZE + ds ==>
                  && r[b].dataSize == m[b].dataSize
                  && (!IsEmptyFreeList(head, tail) ==> r[b].isAllocated))
            && (META_SIZE + ds <= m[b].dataSize ==>
                  && r[b].dataSize == ds && r[b].isAllocated
                  && RestAt(b, ds) in r
                  && r[RestAt(b, ds)].dataSize == m[b].dataSize - ds - META_SIZE
                  && !r[RestAt(b, ds)].isAllocated
                  && End(b, r[b]) == RestAt(b, ds)
                  && End(RestAt(b, ds), r[RestAt(b, ds)]) == End(b, m[b]))
  {
    if META_SIZE + ds <= m[b].dataSize {
      var m3 := Cut(m, b, ds);
      InsertKeeps(m3, head, tail, RestAt(b, ds), Some(b));
      RemoveKeeps(InsertEffect(m3, head, tail, RestAt(b, ds), Some(b)).value, head, tail, b);
    } else {
      RemoveKeeps(m, head, tail, b);
    }
  }

  /** coalesceWithLeft merges only a left neighbour (`prev`) that ends
      exactly where the block starts; the neighbour grows by the block and
      its header and then ends where the block ended. */
  lemma CoalesceLeftShape(m: Memory, head: Option<nat>, tail: Option<nat>, b: nat)
    requires CoalesceLeftEffect(m, head, tail, b).Done?
    ensures b in m
    ensures var r, p := CoalesceLeftEffect(m, head, tail, b).value, m[b].prev;
            if p.Some? && p.value in m && b == End(p.value, m[p.value]) then
              && p.value in r
              && r[p.value].dataSize == m[p.value].dataSize + META_SIZE + m[b].dataSize
              && End(p.value, r[p.value]) == End(b, m[b])
            else r == m
  {
    var p := m[b].prev;
    if p.Some? && p.value in m && b == End(p.value, m[p.value]) {
      var m1 := SetSize(m, p, m[p.value].dataSize + META_SIZE + m[b].dataSize).value;
      assert CoalesceLeftEffect(m, head, tail, b) == RemoveEffect(m1, head, tail, b);
      RemoveKeeps(m1, head, tail, b);
    }
  }

  /** coalesceWithRight merges only a right neighbour (`next`) that starts
      exactly where the block ends; the block grows by the neighbour and its
      header and then ends where the neighbour ended. */
  lemma CoalesceRightShape(m: Memory, head: Option<nat>, tail: Option<nat>, b: nat)
    requires CoalesceRightEffect(m, head, tail, b).Done?
    ensures b in m
    ensures var r, n := CoalesceRightEffect(m, head, tail, b).value, m[b].next;
            if n.Some? && n.value == End(b, m[b]) then
              && n.value in m && b in r
              && r[b].dataSize == m[b].dataSize + META_SIZE + m[n.value].dataSize
              && End(b, r[b]) == End(n.value, m[n.value])
            else r == m
  {
    assert b in m;
    var n := m[b].next;
    if n.Some? && n.value == End(b, m[b]) {
      assert n.value in m;
      CoalesceRightMerged(m, head, tail, b);
    } else {
      assert CoalesceRightEffect(m, head, tail, b) == Done(m);
    }
  }

  /** The merging branch of coalesceWithRight: the block takes over the
      neighbour's bytes and its header. */
  lemma CoalesceRightMerged(m: Memory, head: Option<nat>, tail: Option<nat>, b: nat)
    requires b in m && m[b].next.Some? && m[b].next.value in m
    requires m[b].next.value == End(b, m[b])
    requires CoalesceRightEffect(m, head, tail, b).Done?
    ensures var r, n := CoalesceRightEffect(m, head, tail, b).value, m[b].next.value;
            && b in r
            && r[b].dataSize == m[b].dataSize + META_SIZE + m[n].dataSize
  {
    var n := m[b].next.value;
    var m1 := m[b := m[b].(dataSize := m[b].dataSize + META_SIZE + m[n].dataSize)];
    var e := RemoveEffect(m1, head, tail, n);
    assert e == CoalesceRightEffect(m, head, tail, b) by {
      CoalesceRightStep(m, head, tail, b);
    }
    assert b in e.value && e.value[b].dataSize == m1[b].dataSize by {
      RemoveKeeps(m1, head, tail, n);
    }
  }

  /** The merging branch of coalesceWithRight, unfolded: the size update
      followed by the removal of the neighbour. */
  lemma CoalesceRightStep(m: Memory, head: Option<nat>, tail: Option<nat>, b: nat)
    requires b in m && m[b].next.Some? && m[b].next.value in m
    requires m[b].next.value == End(b, m[b])
    ensures var n := m[b].next.value;
            CoalesceRightEffect(m, head, tail, b)
            == RemoveEffect(m[b := m[b].(dataSize := m[b].dataSize + META_SIZE + m[n].dataSize)], head, tail, n)
  {
    assert Load(m, Some(b)) == Done(m[b]);
    assert Load(m, m[b].next) == Done(m[m[b].next.value]);
  }

  /** With the null head and tail that every caller in the file passes
      (the lists are never updated), freeMemoryBlock only clears the
      allocated flag: the block joins no list and is never reused. */
  lemma FreeOnNullList(m: Memory, b: nat)
    requires b in m
    ensures FreeEffect(m, None, None, b, []) == Done(Flagged(m, b, false))
  {
    var f := Flagged(m, b, false);
    assert f[b := f[b].(isAllocated := false)] == f;
  }

  // ---------------------------------------------------------------------
  // The routines, writing in place

  /** The headers in the process's memory, written through the pointers
      the routines receive. */
  class Segment {
    var heap: Memory

    constructor (heap0: Memory)
      ensures heap == heap0
    {
      heap := heap0;
    }

    /** `p->next = q` */
    method WriteNext(p: Option<nat>, q: Option<nat>)
      requires SetNext(heap, p, q).Done?
      modifies this
      ensures Done(heap) == SetNext(old(heap), p, q)
    {
      heap := heap[p.value := heap[p.value].(next := q)];
    }

    /** `p->prev = q` */
    method WritePrev(p: Option<nat>, q: Option<nat>)
      requires SetPrev(heap, p, q).Done?
      modifies this
      ensures Done(heap) == SetPrev(old(heap), p, q)
    {
      heap := heap[p.value := heap[p.value].(prev := q)];
    }

    /** `p->allocated = a` */
    method WriteFlag(p: Option<nat>, a: bool)
      requires SetFlag(heap, p, a).Done?
      modifies this
      ensures Done(heap) == SetFlag(old(heap), p, a)
    {
      heap := heap[p.value := heap[p.value].(isAllocated := a)];
    }

    /** `p->dataSize = n` */
    method WriteSize(p: Option<nat>, n: nat)
      requires SetSize(heap, p, n).Done?
      modifies this
      ensures Done(heap) == SetSize(old(heap), p, n)
    {
      heap := heap[p.value := heap[p.value].(dataSize := n)];
    }

    /** initializeMemoryBlock: a header with no links. */
    method InitializeMemoryBlock(block: nat, dataSize: nat, isAllocated: bool)
      modifies this
      ensures heap == old(heap)[block := Blank(dataSize, isAllocated)]
    {
      heap := heap[block := Blank(dataSize, isAllocated)];
    }

    /** appendToFreeList */
    method AppendToFreeList(head: Option<nat>, tail: Option<nat>, toAdd: nat)
      requires AppendEffect(heap, head, tail, toAdd).Done?
      modifies this
      ensures Done(heap) == AppendEffect(old(heap), head, tail, toAdd)
    {
      if !IsEmptyFreeList(head, tail) {
        WriteNext(tail, Some(toAdd));
        WritePrev(Some(toAdd), tail);
        WriteNext(Some(toAdd), None);
      }
      WriteFlag(Some(toAdd), false);
    }

    /** insertIntoFreeList, as written. */
    method InsertIntoFreeList(head: Option<nat>, tail: Option<nat>, toInsert: nat, curr: Option<nat>)
      requires InsertEffect(heap, head, tail, toInsert, curr).Done?
      modifies this
      ensures Done(heap) == InsertEffect(old(heap), head, tail, toInsert, curr)
    {
      if IsEmptyFreeList(head, tail) {
      } else if curr == None {
        WritePrev(head, Some(toInsert));
        WriteNext(Some(toInsert), head);
        WritePrev(Some(toInsert), None);
      } else if curr == tail {
        WriteNext(tail, Some(toInsert));
        WritePrev(Some(toInsert), tail);
        WriteNext(Some(toInsert), None);
      } else {
        // the source declares a second `toInsert` here, naming `curr->next`
        var following := heap[curr.value].next;
        WriteNext(curr, following);
        WritePrev(following, curr);
        WriteNext(following, following);
        WritePrev(following, following);
      }
    }

    /** removeFromFreeList */
    method RemoveFromFreeList(head: Option<nat>, tail: Option<nat>, toRemove: nat)
      requires RemoveEffect(heap, head, tail, toRemove).Done?
      modifies this
      ensures Done(heap) == RemoveEffect(old(heap), head, tail, toRemove)
    {
      if IsEmptyFreeList(head, tail) {
        return;
      }
      if head == Some(toRemove) && tail == Some(toRemove) {
      } else if head == Some(toRemove) {
        WritePrev(heap[head.value].next, None);
      } else if tail == Some(toRemove) {
        WriteNext(heap[tail.value].prev, None);
      } else {
        WriteNext(heap[toRemove].prev, heap[toRemove].next);
        WritePrev(heap[toRemove].next, heap[toRemove].prev);
      }
      WritePrev(Some(toRemove), None);
      WriteNext(Some(toRemove), None);
      WriteFlag(Some(toRemove), true);
    }

    /** allocateMemory: `grown` is what the growth function returned for
        `dataSize + META_SIZE` bytes (None for its failure value) and
        `noMem` whether errno then reads ENOMEM. */
    method AllocateMemory(dataSize: nat, grown: Option<nat>, noMem: bool) returns (p: Option<nat>)
      modifies this
      ensures p.Some? <==> grown.Some? && !noMem
      ensures p.Some? ==> p.value == DataPointer(grown.value)
                          && heap == old(heap)[grown.value := Blank(dataSize, true)]
      ensures p.None? ==> heap == old(heap)
    {
      if grown == None || noMem {
        return None;
      }
      InitializeMemoryBlock(grown.value, dataSize, true);
      return Some(DataPointer(grown.value));
    }

    /** splitMemoryBlock */
    method SplitMemoryBlock(head: Option<nat>, tail: Option<nat>, block: nat, dataSize: nat) returns (r: nat)
      requires SplitEffect(heap, head, tail, block, dataSize).Done?
      modifies this
      ensures r == block
      ensures Done(heap) == SplitEffect(old(heap), head, tail, block, dataSize)
    {
      if heap[block].dataSize < META_SIZE + dataSize {
        RemoveFromFreeList(head, tail, block);
      } else {
        ghost var m := heap;
        var remaining := CutHeaders(block, dataSize);
        assert SplitEffect(m, head, tail, block, dataSize)
            == (var m4 :- InsertEffect(heap, head, tail, remaining, Some(block)); RemoveEffect(m4, head, tail, block));
        InsertIntoFreeList(head, tail, remaining, Some(block));
        RemoveFromFreeList(head, tail, block);
      }
      return block;
    }

    /** The header writes of splitMemoryBlock's cutting branch. */
    method CutHeaders(block: nat, dataSize: nat) returns (remaining: nat)
      requires block in heap && META_SIZE + dataSize <= heap[block].dataSize
      modifies this
      ensures remaining == RestAt(block, dataSize)
      ensures heap == Cut(old(heap), block, dataSize)
    {
      remaining := RestAt(block, dataSize);
      InitializeMemoryBlock(remaining, heap[block].dataSize - dataSize - META_SIZE, false);
      WriteSize(Some(block), dataSize);
      WriteFlag(Some(block), true);
    }

    /** coalesceWithLeft */
    method CoalesceWithLeft(head: Option<nat>, tail: Option<nat>, block: nat)
      requires CoalesceLeftEffect(heap, head, tail, block).Done?
      modifies this
      ensures Done(heap) == CoalesceLeftEffect(old(heap), head, tail, block)
    {
      var left := heap[block].prev;
      if left != None && block == left.value + META_SIZE + heap[left.value].dataSize {
        ghost var m := heap;
        WriteSize(left, heap[left.value].dataSize + META_SIZE + heap[block].dataSize);
        assert CoalesceLeftEffect(m, head, tail, block) == RemoveEffect(heap, head, tail, block);
        RemoveFromFreeList(head, tail, block);
      }
    }

    /** coalesceWithRight */
    method CoalesceWithRight(head: Option<nat>, tail: Option<nat>, block: nat)
      requires CoalesceRightEffect(heap, head, tail, block).Done?
      modifies this
      ensures Done(heap) == CoalesceRightEffect(old(heap), head, tail, block)
    {
      var right := heap[block].next;
      if right != None && right.value == block + META_SIZE + heap[block].dataSize {
        ghost var m := heap;
        assert right.value in heap;
        var grown := heap[block].dataSize + META_SIZE + heap[right.value].dataSize;
        WriteSize(Some(block), grown);
        assert heap == m[block := m[block].(dataSize := grown)];
        assert RemoveEffect(heap, head, tail, right.value) == CoalesceRightEffect(m, head, tail, block) by {
          CoalesceRightStep(m, head, tail, block);
        }
        RemoveFromFreeList(head, tail, right.value);
      }
    }

    /** freeMemoryBlock.  `path` is the chain from `head`, which the loop
        walks when the block lies between the first and the last block. */
    method FreeMemoryBlock(head: Option<nat>, tail: Option<nat>, block: nat, ghost path: seq<nat>)
      requires Walks(head, tail, block) ==> IsChain(heap, head, path)
      requires FreeEffect(heap, head, tail, block, path).Done?
      modifies this
      ensures Done(heap) == FreeEffect(old(heap), head, tail, block, path)
    {
      WriteFlag(Some(block), false);
      if IsEmptyFreeList(head, tail) || block > Addr(tail) {
        AppendToFreeList(head, tail, block);
        var coalesce := !IsEmptyFreeList(head, tail) && block > Addr(tail);
        if coalesce {
          CoalesceWithLeft(head, tail, block);
        }
      } else if block < Addr(head) {
        InsertIntoFreeList(head, tail, block, None);
        CoalesceWithRight(head, tail, block);
      } else {
        var iter := head;
        ghost var rest := path;
        while Addr(iter) < block
          invariant IsChain(old(heap), iter, rest)
          invariant Seek(old(heap), iter, block, rest) == Seek(old(heap), head, block, path)
          invariant heap == Flagged(old(heap), block, false)
          decreases |rest|
        {
          iter := heap[iter.value].next;
          rest := rest[1..];
        }
        var curr := heap[iter.value].prev;
        InsertIntoFreeList(head, tail, block, curr);
        CoalesceWithRight(head, tail, block);
        CoalesceWithLeft(head, tail, block);
      }
    }

    /** findFirstFit: from `curr`, the first header of at least `size`
        bytes, allocated or not. */
    method FindFirstFit(head: Option<nat>, tail: Option<nat>, curr: Option<nat>, size: nat, ghost path: seq<nat>)
      returns (r: Option<nat>)
      requires IsChain(heap, curr, path)
      ensures var k := FirstIndex(heap, path, AtLeast(size, false));
              r == if k < |path| then Some(path[k]) else None
    {
      r := Blocks.FindFirstFit(heap, curr, AtLeast(size, false), path);
    }

    /** findBestFit: from `curr`, the first header of exactly `size` bytes,
        otherwise the earliest smallest larger one, allocated or not. */
    method FindBestFit(head: Option<nat>, tail: Option<nat>, curr: Option<nat>, size: nat, ghost path: seq<nat>)
      returns (r: Option<nat>)
      requires IsChain(heap, curr, path)
      ensures var k := BestIndex(heap, path, Exactly(size, false), MoreThan(size, false));
              r == if k < |path| then Some(path[k]) else None
    {
      r := Blocks.FindBestFit(heap, curr, Exactly(size, false), MoreThan(size, false), path);
    }

    /** ff_malloc: cut the first header of at least `size` bytes on the
        chain from `head`, or grow memory. */
    method FfMalloc(head: Option<nat>, tail: Option<nat>, grown: Option<nat>, noMem: bool, size: nat, ghost path: seq<nat>)
      returns (p: Option<nat>)
      requires IsChain(heap, head, path)
      requires var k := FirstIndex(heap, path, AtLeast(size, false));
               0 < size && k < |path| ==> SplitEffect(heap, head, tail, path[k], size).Done?
      modifies this
      ensures size == 0 ==> p == None && heap == old(heap)
      ensures var k := FirstIndex(old(heap), path, AtLeast(size, false));
              0 < size && k < |path| ==>
                && p == Some(DataPointer(path[k]))
                && Done(heap) == SplitEffect(old(heap), head, tail, path[k], size)
      ensures var k := FirstIndex(old(heap), path, AtLeast(size, false));
              0 < size && k == |path| ==>
                && (p.Some? <==> grown.Some? && !noMem)
                && (p.Some? ==> p.value == DataPointer(grown.value)
                                && heap == old(heap)[grown.value := Blank(size, true)])
                && (p.None? ==> heap == old(heap))
    {
      if size == 0 {
        return None;
      }
      var curr := head;
      curr := FindFirstFit(head, tail, curr, size, path);
      if curr != None {
        var b := SplitMemoryBlock(head, tail, curr.value, size);
        return Some(DataPointer(b));
      }
      p := AllocateMemory(size, grown, noMem);
    }

    /** bf_malloc: cut the best-fitting header on the chain from `head`, or
        grow memory. */
    method BfMalloc(head: Option<nat>, tail: Option<nat>, grown: Option<nat>, noMem: bool, size: nat, ghost path: seq<nat>)
      returns (p: Option<nat>)
      requires IsChain(heap, head, path)
      requires var k := BestIndex(heap, path, Exactly(size, false), MoreThan(size, false));
               0 < size && k < |path| ==> SplitEffect(heap, head, tail, path[k], size).Done?
      modifies this
      ensures size == 0 ==> p == None && heap == old(heap)
      ensures var k := BestIndex(old(heap), path, Exactly(size, false), MoreThan(size, false));
              0 < size && k < |path| ==>
                && p == Some(DataPointer(path[k]))
                && Done(heap) == SplitEffect(old(heap), head, tail, path[k], size)
      ensures var k := BestIndex(old(heap), path, Exactly(size, false), MoreThan(size, false));
              0 < size && k == |path| ==>
                && (p.Some? <==> grown.Some? && !noMem)
                && (p.Some? ==> p.value == DataPointer(grown.value)
                                && heap == old(heap)[grown.value := Blank(size, true)])
                && (p.None? ==> heap == old(heap))
    {
      if size == 0 {
        return None;
      }
      var current := head;
      var bestFit := FindBestFit(head, tail, current, size, path);
      if bestFit != None {
        var b := SplitMemoryBlock(head, tail, bestFit.value, size);
        return Some(DataPointer(b));
      }
      p := AllocateMemory(size, grown, noMem);
    }

    /** ff_free: a null pointer is ignored, and so is a block whose header
        says it is already free. */
    method FfFree(head: Option<nat>, tail: Option<nat>, ptr: Option<nat>, ghost path: seq<nat>)
      requires ptr.Some? ==> META_SIZE <= ptr.value && HeaderOf(ptr.value) in heap
      requires ptr.Some? && heap[HeaderOf(ptr.value)].isAllocated ==>
                 && (Walks(head, tail, HeaderOf(ptr.value)) ==> IsChain(heap, head, path))
                 && FreeEffect(heap, head, tail, HeaderOf(ptr.value), path).Done?
      modifies this
      ensures ptr.None? || !old(heap)[HeaderOf(ptr.value)].isAllocated ==> heap == old(heap)
      ensures ptr.Some? && old(heap)[HeaderOf(ptr.value)].isAllocated ==>
                Done(heap) == FreeEffect(old(heap), head, tail, HeaderOf(ptr.value), path)
    {
      if ptr == None {
        return;
      }
      var block := HeaderOf(ptr.value);
      if heap[block].isAllocated {
        FreeMemoryBlock(head, tail, block, path);
      }
    }

    /** bf_free is ff_free. */
    method BfFree(head: Option<nat>, tail: Option<nat>, ptr: Option<nat>, ghost path: seq<nat>)
      requires ptr.Some? ==> META_SIZE <= ptr.value && HeaderOf(ptr.value) in heap
      requires ptr.Some? && heap[HeaderOf(ptr.value)].isAllocated ==>
                 && (Walks(head, tail, HeaderOf(ptr.value)) ==> IsChain(heap, head, path))
                 && FreeEffect(heap, head, tail, HeaderOf(ptr.value), path).Done?
      modifies this
      ensures ptr.None? || !old(heap)[HeaderOf(ptr.value)].isAllocated ==> heap == old(heap)
      ensures ptr.Some? && old(heap)[HeaderOf(ptr.value)].isAllocated ==>
                Done(heap) == FreeEffect(old(heap), head, tail, HeaderOf(ptr.value), path)
    {
      FfFree(head, tail, ptr, path);
    }
  }
}
