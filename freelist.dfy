/** Facts about an address-ordered, doubly linked free list stored in an
    abstract memory, stated over values so that the allocator classes can
    share them: how the list is linked, how its entries are ordered, which
    bytes it covers and how many bytes it holds. */
module FreeList {
  import opened Blocks
  import opened Extents

  /** Entries `i` and `j` of `s` differ. */
  ghost predicate Apart(s: seq<nat>, i: int, j: int)
    requires 0 <= i < |s| && 0 <= j < |s|
  {
    s[i] != s[j]
  }

  ghost predicate Distinct(s: seq<nat>)
  {
    forall i, j | 0 <= i < j < |s| :: Apart(s, i, j)
  }

  /** `s` is the list from `head` to `tail`: every `next` and `prev` link of
      an entry points at its neighbour in `s`, and the ends are null. */
  ghost predicate Linked(heap: map<nat, Header>, head: Option<nat>, tail: Option<nat>, s: seq<nat>)
  {
    && InHeap(heap, s)
    && Distinct(s)
    && head == (if s == [] then None else Some(s[0]))
    && tail == (if s == [] then None else Some(s[|s| - 1]))
    && (forall i {:trigger heap[s[i]].prev} | 0 <= i < |s| :: heap[s[i]].prev == (if i == 0 then None else Some(s[i - 1])))
    && (forall i {:trigger heap[s[i]].next} | 0 <= i < |s| :: heap[s[i]].next == (if i == |s| - 1 then None else Some(s[i + 1])))
  }

  /** The list as values: each entry's address and data size, in list order. */
  ghost function View(heap: map<nat, Header>, s: seq<nat>): (v: seq<Extent>)
    requires InHeap(heap, s)
    ensures |v| == |s|
    ensures forall i {:trigger v[i]} | 0 <= i < |v| :: v[i] == Extent(s[i], heap[s[i]].dataSize)
  {
    if s == [] then [] else [Extent(s[0], heap[s[0]].dataSize)] + View(heap, s[1..])
  }

  ghost function Elems(s: seq<nat>): set<nat>
  {
    set x | x in s
  }

  ghost function IndexOf(s: seq<nat>, x: nat): (k: nat)
    requires x in s
    ensures k < |s| && s[k] == x
  {
    if s[0] == x then 0 else 1 + IndexOf(s[1..], x)
  }

  /** `y` is none of the headers `a`, `b`, `c` (the last two may be null). */
  predicate Untouched(y: nat, a: nat, b: Option<nat>, c: Option<nat>)
  {
    y != a && b != Some(y) && c != Some(y)
  }

  /** Every header other than `a`, `b` and `c` is as it was. */
  ghost predicate SameBut(h1: map<nat, Header>, h2: map<nat, Header>, a: nat, b: Option<nat>, c: Option<nat>)
  {
    && h1.Keys == h2.Keys
    && forall y {:trigger h1[y]} {:trigger h2[y]} | y in h1 && Untouched(y, a, b, c) :: h2[y] == h1[y]
  }

  /** Every link other than those of `a`, `b` and `c` is as it was. */
  ghost predicate LinksKeptBut(h1: map<nat, Header>, h2: map<nat, Header>, a: nat, b: Option<nat>, c: Option<nat>)
  {
    forall y {:trigger h1[y].prev} {:trigger h1[y].next} {:trigger h2[y].prev} {:trigger h2[y].next}
      | y in h1 && Untouched(y, a, b, c) ::
      y in h2 && h2[y].prev == h1[y].prev && h2[y].next == h1[y].next
  }

  /** The same headers with the same sizes. */
  ghost predicate SameSizes(h1: map<nat, Header>, h2: map<nat, Header>)
  {
    && h1.Keys == h2.Keys
    && forall y {:trigger h2[y]} | y in h1 :: h2[y].dataSize == h1[y].dataSize
  }

  /** The same headers with the same sizes and flags: at most links changed. */
  ghost predicate OnlyLinks(h1: map<nat, Header>, h2: map<nat, Header>)
  {
    && SameSizes(h1, h2)
    && forall y {:trigger h2[y]} | y in h1 :: h2[y].isAllocated == h1[y].isAllocated
  }

  // ---------------------------------------------------------------------
  // Views of changed memories

  /** The view depends only on the sizes of the entries. */
  lemma ViewFrame(h1: map<nat, Header>, h2: map<nat, Header>, s: seq<nat>)
    requires InHeap(h1, s) && SameSizes(h1, h2)
    ensures InHeap(h2, s) && View(h2, s) == View(h1, s)
  {
    var v1, v2 := View(h1, s), View(h2, s);
    forall i | 0 <= i < |s| ensures v2[i] == v1[i] {
      assert h2[s[i]].dataSize == h1[s[i]].dataSize;
    }
  }

  lemma ViewInsert(h: map<nat, Header>, s: seq<nat>, k: nat, x: nat)
    requires InHeap(h, s) && k <= |s| && x in h
    ensures InHeap(h, InsertAt(s, k, x))
    ensures View(h, InsertAt(s, k, x)) == InsertAt(View(h, s), k, Extent(x, h[x].dataSize))
  {
    var r := InsertAt(s, k, x);
    assert forall i | 0 <= i < |r| :: r[i] in h by {
      forall i | 0 <= i < |r| ensures r[i] in h {
        assert r[i] == if i < k then s[i] else if i == k then x else s[i - 1];
      }
    }
    var a, b := View(h, r), InsertAt(View(h, s), k, Extent(x, h[x].dataSize));
    forall i | 0 <= i < |a| ensures a[i] == b[i] {
      assert r[i] == if i < k then s[i] else if i == k then x else s[i - 1];
    }
  }

  lemma ViewErase(h: map<nat, Header>, s: seq<nat>, k: nat)
    requires InHeap(h, s) && k < |s|
    ensures InHeap(h, Erase(s, k))
    ensures View(h, Erase(s, k)) == Erase(View(h, s), k)
  {
    var r := Erase(s, k);
    assert forall i | 0 <= i < |r| :: r[i] in h by {
      forall i | 0 <= i < |r| ensures r[i] in h {
        assert r[i] == if i < k then s[i] else s[i + 1];
      }
    }
    var a, b := View(h, r), Erase(View(h, s), k);
    forall i | 0 <= i < |a| ensures a[i] == b[i] {
      assert r[i] == if i < k then s[i] else s[i + 1];
    }
  }

  // ---------------------------------------------------------------------
  // Relinking: the list after an entry is inserted or erased

  /** A one-entry list. */
  lemma LinkedSingle(heap: map<nat, Header>, x: nat)
    requires x in heap && heap[x].prev == None && heap[x].next == None
    ensures Linked(heap, Some(x), Some(x), [x])
  {
  }

  /** An entry whose links an update left alone still links to its neighbours. */
  lemma KeptEntry(h1: map<nat, Header>, h2: map<nat, Header>, head: Option<nat>, tail: Option<nat>,
                  s: seq<nat>, j: nat, a: nat, b: Option<nat>, c: Option<nat>)
    requires Linked(h1, head, tail, s)
    requires j < |s| && Untouched(s[j], a, b, c) && LinksKeptBut(h1, h2, a, b, c)
    ensures s[j] in h2
    ensures h2[s[j]].prev == (if j == 0 then None else Some(s[j - 1]))
    ensures h2[s[j]].next == (if j == |s| - 1 then None else Some(s[j + 1]))
  {
    assert h1[s[j]].prev == (if j == 0 then None else Some(s[j - 1]));
    assert h1[s[j]].next == (if j == |s| - 1 then None else Some(s[j + 1]));
  }

  /** `x` linked in after `s[k - 1]`: its predecessor's `next`, its own links
      and its successor's `prev` are rewritten, no other link changes. */
  ghost predicate InsertRelinked(h1: map<nat, Header>, h2: map<nat, Header>, s: seq<nat>, k: nat, x: nat)
    requires 0 < k <= |s|
  {
    && h1.Keys == h2.Keys
    && s[k - 1] in h1 && x in h1
    && LinksKeptBut(h1, h2, x, Some(s[k - 1]), if k == |s| then None else Some(s[k]))
    && h2[s[k - 1]].prev == h1[s[k - 1]].prev && h2[s[k - 1]].next == Some(x)
    && h2[x].prev == Some(s[k - 1]) && h2[x].next == (if k < |s| then Some(s[k]) else None)
    && (k < |s| ==> s[k] in h1 && h2[s[k]].prev == Some(x) && h2[s[k]].next == h1[s[k]].next)
  }

  lemma InsertKeptAt(h1: map<nat, Header>, h2: map<nat, Header>, head: Option<nat>, tail: Option<nat>,
                     s: seq<nat>, k: nat, x: nat, i: nat)
    requires Linked(h1, head, tail, s)
    requires 0 < k <= |s| && x !in s
    requires InsertRelinked(h1, h2, s, k, x)
    requires i <= |s| && (i < k - 1 || k + 1 < i)
    ensures InsertAt(s, k, x)[i] in h2
    ensures h2[InsertAt(s, k, x)[i]].prev == (if i == 0 then None else Some(InsertAt(s, k, x)[i - 1]))
    ensures h2[InsertAt(s, k, x)[i]].next == (if i == |s| then None else Some(InsertAt(s, k, x)[i + 1]))
  {
    var r := InsertAt(s, k, x);
    if i < k - 1 {
      assert Apart(s, i, k - 1) && (k < |s| ==> Apart(s, i, k));
      KeptEntry(h1, h2, head, tail, s, i, x, Some(s[k - 1]), if k == |s| then None else Some(s[k]));
      assert r[i] == s[i] && r[i + 1] == s[i + 1] && (0 < i ==> r[i - 1] == s[i - 1]);
    } else {
      assert Apart(s, k - 1, i - 1) && Apart(s, k, i - 1);
      KeptEntry(h1, h2, head, tail, s, i - 1, x, Some(s[k - 1]), Some(s[k]));
      assert r[i] == s[i - 1] && r[i - 1] == s[i - 2] && (i < |s| ==> r[i + 1] == s[i]);
    }
  }

  lemma InsertTouchedAt(h1: map<nat, Header>, h2: map<nat, Header>, head: Option<nat>, tail: Option<nat>,
                        s: seq<nat>, k: nat, x: nat, i: nat)
    requires Linked(h1, head, tail, s)
    requires 0 < k <= |s| && x !in s
    requires InsertRelinked(h1, h2, s, k, x)
    requires i <= |s| && k - 1 <= i <= k + 1
    ensures InsertAt(s, k, x)[i] in h2
    ensures h2[InsertAt(s, k, x)[i]].prev == (if i == 0 then None else Some(InsertAt(s, k, x)[i - 1]))
    ensures h2[InsertAt(s, k, x)[i]].next == (if i == |s| then None else Some(InsertAt(s, k, x)[i + 1]))
  {
    var r := InsertAt(s, k, x);
    if i == k - 1 {
      assert s[i] == s[k - 1];
      assert h1[s[i]].prev == (if i == 0 then None else Some(s[i - 1]));
      assert r[i] == s[i] && r[i + 1] == x && (0 < i ==> r[i - 1] == s[i - 1]);
    } else if i == k {
      assert r[i] == x && r[i - 1] == s[k - 1] && (i < |s| ==> r[i + 1] == s[k]);
    } else {
      assert s[i - 1] == s[k];
      assert h1[s[i - 1]].next == (if i - 1 == |s| - 1 then None else Some(s[i]));
      assert r[i] == s[i - 1] && r[i - 1] == x && (i < |s| ==> r[i + 1] == s[i]);
    }
  }

  lemma DistinctInsert(s: seq<nat>, k: nat, x: nat)
    requires Distinct(s) && k <= |s| && x !in s
    ensures Distinct(InsertAt(s, k, x))
  {
    var r := InsertAt(s, k, x);
    forall i, j | 0 <= i < j < |r| ensures Apart(r, i, j) {
      if j < k { assert Apart(s, i, j); }
      else if j == k { assert r[j] == x && r[i] == s[i]; }
      else if i == k { assert r[i] == x && r[j] == s[j - 1]; }
      else if i < k { assert Apart(s, i, j - 1); }
      else { assert Apart(s, i - 1, j - 1); }
    }
  }

  lemma LinkedInsert(h1: map<nat, Header>, h2: map<nat, Header>, head: Option<nat>, tail: Option<nat>,
                     s: seq<nat>, k: nat, x: nat)
    requires Linked(h1, head, tail, s)
    requires 0 < k <= |s| && x !in s
    requires InsertRelinked(h1, h2, s, k, x)
    ensures Linked(h2, head, if k == |s| then Some(x) else tail, InsertAt(s, k, x))
  {
    var r := InsertAt(s, k, x);
    forall i | 0 <= i < |r|
      ensures r[i] in h2
    {
    }
    forall i {:trigger h2[r[i]].prev} {:trigger h2[r[i]].next} | 0 <= i < |r|
      ensures h2[r[i]].prev == (if i == 0 then None else Some(r[i - 1]))
      ensures h2[r[i]].next == (if i == |r| - 1 then None else Some(r[i + 1]))
    {
      if i < k - 1 || k + 1 < i {
        InsertKeptAt(h1, h2, head, tail, s, k, x, i);
      } else {
        InsertTouchedAt(h1, h2, head, tail, s, k, x, i);
      }
    }
    DistinctInsert(s, k, x);
  }

  /** The entry at `k` unlinked: its neighbours now point at each other, no
      other list link changes. */
  ghost predicate EraseRelinked(h1: map<nat, Header>, h2: map<nat, Header>, s: seq<nat>, k: nat)
    requires k < |s|
  {
    && h1.Keys == h2.Keys
    && LinksKeptBut(h1, h2, s[k], if k == 0 then None else Some(s[k - 1]), if k == |s| - 1 then None else Some(s[k + 1]))
    && (0 < k ==>
          && s[k - 1] in h1
          && h2[s[k - 1]].prev == h1[s[k - 1]].prev
          && h2[s[k - 1]].next == (if k < |s| - 1 then Some(s[k + 1]) else None))
    && (k < |s| - 1 ==>
          && s[k + 1] in h1
          && h2[s[k + 1]].next == h1[s[k + 1]].next
          && h2[s[k + 1]].prev == (if 0 < k then Some(s[k - 1]) else None))
  }

  lemma EraseKeptAt(h1: map<nat, Header>, h2: map<nat, Header>, head: Option<nat>, tail: Option<nat>,
                     s: seq<nat>, k: nat, i: nat)
    requires Linked(h1, head, tail, s)
    requires k < |s| && EraseRelinked(h1, h2, s, k)
    requires i < |s| - 1 && (i < k - 1 || k < i)
    ensures Erase(s, k)[i] in h2
    ensures h2[Erase(s, k)[i]].prev == (if i == 0 then None else Some(Erase(s, k)[i - 1]))
    ensures h2[Erase(s, k)[i]].next == (if i == |s| - 2 then None else Some(Erase(s, k)[i + 1]))
  {
    if i < k - 1 {
      EraseKeptBelow(h1, h2, head, tail, s, k, i);
    } else {
      EraseKeptAbove(h1, h2, head, tail, s, k, i);
    }
  }

  lemma EraseKeptBelow(h1: map<nat, Header>, h2: map<nat, Header>, head: Option<nat>, tail: Option<nat>,
                       s: seq<nat>, k: nat, i: nat)
    requires Linked(h1, head, tail, s)
    requires k < |s| && EraseRelinked(h1, h2, s, k)
    requires i < k - 1
    ensures Erase(s, k)[i] in h2
    ensures h2[Erase(s, k)[i]].prev == (if i == 0 then None else Some(Erase(s, k)[i - 1]))
    ensures h2[Erase(s, k)[i]].next == Some(Erase(s, k)[i + 1])
  {
    var r := Erase(s, k);
    assert Apart(s, i, k) && Apart(s, i, k - 1) && (k < |s| - 1 ==> Apart(s, i, k + 1));
    KeptEntry(h1, h2, head, tail, s, i, s[k], Some(s[k - 1]), if k == |s| - 1 then None else Some(s[k + 1]));
    assert r[i] == s[i] && r[i + 1] == s[i + 1] && (0 < i ==> r[i - 1] == s[i - 1]);
  }

  lemma EraseKeptAbove(h1: map<nat, Header>, h2: map<nat, Header>, head: Option<nat>, tail: Option<nat>,
                       s: seq<nat>, k: nat, i: nat)
    requires Linked(h1, head, tail, s)
    requires k < |s| && EraseRelinked(h1, h2, s, k)
    requires k < i < |s| - 1
    ensures Erase(s, k)[i] in h2
    ensures h2[Erase(s, k)[i]].prev == Some(Erase(s, k)[i - 1])
    ensures h2[Erase(s, k)[i]].next == (if i == |s| - 2 then None else Some(Erase(s, k)[i + 1]))
  {
    var r := Erase(s, k);
    assert Apart(s, k, i + 1) && Apart(s, k + 1, i + 1) && (0 < k ==> Apart(s, k - 1, i + 1));
    KeptEntry(h1, h2, head, tail, s, i + 1, s[k], if k == 0 then None else Some(s[k - 1]), Some(s[k + 1]));
    assert r[i] == s[i + 1] && r[i - 1] == s[i] && (i < |s| - 2 ==> r[i + 1] == s[i + 2]);
  }

  lemma EraseTouchedAt(h1: map<nat, Header>, h2: map<nat, Header>, head: Option<nat>, tail: Option<nat>,
                       s: seq<nat>, k: nat, i: nat)
    requires Linked(h1, head, tail, s)
    requires k < |s| && EraseRelinked(h1, h2, s, k)
    requires i < |s| - 1 && k - 1 <= i <= k
    ensures Erase(s, k)[i] in h2
    ensures h2[Erase(s, k)[i]].prev == (if i == 0 then None else Some(Erase(s, k)[i - 1]))
    ensures h2[Erase(s, k)[i]].next == (if i == |s| - 2 then None else Some(Erase(s, k)[i + 1]))
  {
    var r := Erase(s, k);
    if i == k - 1 {
      assert h1[s[k - 1]].prev == (if i == 0 then None else Some(s[i - 1]));
      assert r[i] == s[k - 1] && (0 < i ==> r[i - 1] == s[i - 1]) && (i < |s| - 2 ==> r[i + 1] == s[k + 1]);
    } else {
      assert h1[s[k + 1]].next == (if k + 1 == |s| - 1 then None else Some(s[k + 2]));
      assert r[i] == s[k + 1] && (0 < i ==> r[i - 1] == s[k - 1]) && (i < |s| - 2 ==> r[i + 1] == s[k + 2]);
    }
  }

  lemma DistinctErase(s: seq<nat>, k: nat)
    requires Distinct(s) && k < |s|
    ensures Distinct(Erase(s, k))
  {
    var r := Erase(s, k);
    forall i, j | 0 <= i < j < |r| ensures Apart(r, i, j) {
      if j < k { assert Apart(s, i, j); }
      else if i < k { assert Apart(s, i, j + 1); }
      else { assert Apart(s, i + 1, j + 1); }
    }
  }

  lemma LinkedErase(h1: map<nat, Header>, h2: map<nat, Header>, head: Option<nat>, tail: Option<nat>,
                    s: seq<nat>, k: nat)
    requires Linked(h1, head, tail, s)
    requires k < |s| && EraseRelinked(h1, h2, s, k)
    ensures Linked(h2, if k == 0 then (if |s| == 1 then None else Some(s[1])) else head,
                       if k == |s| - 1 then (if k == 0 then None else Some(s[k - 1])) else tail,
                       Erase(s, k))
  {
    var r := Erase(s, k);
    forall i | 0 <= i < |r|
      ensures r[i] in h2
    {
    }
    forall i {:trigger h2[r[i]].prev} {:trigger h2[r[i]].next} | 0 <= i < |r|
      ensures h2[r[i]].prev == (if i == 0 then None else Some(r[i - 1]))
      ensures h2[r[i]].next == (if i == |r| - 1 then None else Some(r[i + 1]))
    {
      if i < k - 1 || k < i {
        EraseKeptAt(h1, h2, head, tail, s, k, i);
      } else {
        EraseTouchedAt(h1, h2, head, tail, s, k, i);
      }
    }
    DistinctErase(s, k);
  }

  // ---------------------------------------------------------------------
  // The list edits, as functions of the memory they rewrite

  /** `x` linked in after `c`: `c.next` becomes `x`, `x` points back at `c`
      and on to `c`'s old successor, whose `prev` becomes `x`. */
  ghost function Spliced(h: map<nat, Header>, c: nat, x: nat): map<nat, Header>
    requires c in h && x in h && (h[c].next.Some? ==> h[c].next.value in h)
  {
    var n := h[c].next;
    var h1 := h[c := h[c].(next := Some(x))];
    var h2 := h1[x := h1[x].(prev := Some(c), next := n)];
    if n.Some? then h2[n.value := h2[n.value].(prev := Some(x))] else h2
  }

  /** `x` unlinked: its neighbours point at each other and its own links are
      cleared. */
  ghost function Detached(h: map<nat, Header>, x: nat): map<nat, Header>
    requires x in h
    requires h[x].prev.Some? ==> h[x].prev.value in h
    requires h[x].next.Some? ==> h[x].next.value in h
  {
    var p, n := h[x].prev, h[x].next;
    var h1 := if p.Some? then h[p.value := h[p.value].(next := n)] else h;
    var h2 := if n.Some? then h1[n.value := h1[n.value].(prev := p)] else h1;
    h2[x := h2[x].(prev := None, next := None)]
  }

  /** The header at `x` with its allocated flag set to `b`. */
  ghost function Flagged(h: map<nat, Header>, x: nat, b: bool): map<nat, Header>
    requires x in h
  {
    h[x := h[x].(isAllocated := b)]
  }

  /** The header at `x` with its data size set to `n`. */
  ghost function Resized(h: map<nat, Header>, x: nat, n: nat): map<nat, Header>
    requires x in h
  {
    h[x := h[x].(dataSize := n)]
  }

  /** `x` linked in front of the first entry `first`: it becomes the new
      head, with no predecessor. */
  ghost function Prepended(h: map<nat, Header>, x: nat, first: nat): map<nat, Header>
    requires x in h && first in h
  {
    var h1 := h[first := h[first].(prev := Some(x))];
    h1[x := h1[x].(prev := None, next := Some(first))]
  }

  /** Prepending keeps the list linked, with `x` as its new first entry, and
      adds `x`'s block at the front of the view. */
  lemma PrependedLinked(h: map<nat, Header>, head: Option<nat>, tail: Option<nat>, s: seq<nat>, x: nat)
    requires Linked(h, head, tail, s) && s != [] && x in h && x !in s
    ensures Linked(Prepended(h, x, s[0]), Some(x), tail, [x] + s)
    ensures View(Prepended(h, x, s[0]), [x] + s) == [Extent(x, h[x].dataSize)] + View(h, s)
  {
    var h2, r := Prepended(h, x, s[0]), [x] + s;
    forall i | 0 <= i < |r|
      ensures r[i] in h2
    {
    }
    forall i {:trigger h2[r[i]].prev} {:trigger h2[r[i]].next} | 0 <= i < |r|
      ensures h2[r[i]].prev == (if i == 0 then None else Some(r[i - 1]))
      ensures h2[r[i]].next == (if i == |r| - 1 then None else Some(r[i + 1]))
    {
      PrependedAt(h, head, tail, s, x, i);
    }
    DistinctPrepend(s, x);
    PrependedView(h, head, tail, s, x);
  }

  lemma DistinctPrepend(s: seq<nat>, x: nat)
    requires Distinct(s) && x !in s
    ensures Distinct([x] + s)
  {
    var r := [x] + s;
    forall i, j | 0 <= i < j < |r|
      ensures Apart(r, i, j)
    {
      if 0 < i {
        assert Apart(s, i - 1, j - 1);
      } else {
        assert r[j] == s[j - 1];
      }
    }
  }

  lemma PrependedAt(h: map<nat, Header>, head: Option<nat>, tail: Option<nat>, s: seq<nat>, x: nat, i: nat)
    requires Linked(h, head, tail, s) && s != [] && x in h && x !in s && i <= |s|
    ensures ([x] + s)[i] in Prepended(h, x, s[0])
    ensures Prepended(h, x, s[0])[([x] + s)[i]].prev == (if i == 0 then None else Some(([x] + s)[i - 1]))
    ensures Prepended(h, x, s[0])[([x] + s)[i]].next == (if i == |s| then None else Some(([x] + s)[i + 1]))
  {
    var r := [x] + s;
    if 1 < i {
      assert Apart(s, 0, i - 1);
      assert r[i] == s[i - 1] && r[i - 1] == s[i - 2] && (i < |s| ==> r[i + 1] == s[i]);
      assert h[s[i - 1]].prev == Some(s[i - 2]);
      assert h[s[i - 1]].next == (if i - 1 == |s| - 1 then None else Some(s[i]));
    } else if i == 1 {
      assert r[1] == s[0] && (1 < |s| ==> r[2] == s[1]);
      assert h[s[0]].next == (if |s| == 1 then None else Some(s[1]));
    } else {
      assert r[0] == x && r[1] == s[0];
    }
  }

  lemma PrependedView(h: map<nat, Header>, head: Option<nat>, tail: Option<nat>, s: seq<nat>, x: nat)
    requires Linked(h, head, tail, s) && s != [] && x in h && x !in s
    ensures InHeap(Prepended(h, x, s[0]), [x] + s)
    ensures View(Prepended(h, x, s[0]), [x] + s) == [Extent(x, h[x].dataSize)] + View(h, s)
  {
    var h2, r := Prepended(h, x, s[0]), [x] + s;
    assert InHeap(h2, r) by {
      forall i | 0 <= i < |r|
        ensures r[i] in h2
      {
      }
    }
    var v2, v := View(h2, r), View(h, s);
    assert |v2| == |[Extent(x, h[x].dataSize)] + v|;
    forall i | 0 <= i < |v2|
      ensures v2[i] == ([Extent(x, h[x].dataSize)] + v)[i]
    {
      if 0 < i {
        assert r[i] == s[i - 1];
      }
    }
  }

  /** What splicing changes: links only, and only those of `c`, `x` and `c`'s
      old successor. */
  lemma SplicedShape(h: map<nat, Header>, c: nat, x: nat)
    requires c in h && x in h && (h[c].next.Some? ==> h[c].next.value in h)
    ensures OnlyLinks(h, Spliced(h, c, x))
    ensures forall y | y in h && Untouched(y, x, Some(c), h[c].next) :: Spliced(h, c, x)[y] == h[y]
  {
  }

  /** What detaching changes: links only, and only those of `x` and its two
      neighbours. */
  lemma DetachedShape(h: map<nat, Header>, x: nat)
    requires x in h
    requires h[x].prev.Some? ==> h[x].prev.value in h
    requires h[x].next.Some? ==> h[x].next.value in h
    ensures OnlyLinks(h, Detached(h, x))
    ensures forall y | y in h && Untouched(y, x, h[x].prev, h[x].next) :: Detached(h, x)[y] == h[y]
    ensures Detached(h, x)[x] == h[x].(prev := None, next := None)
  {
  }

  /** Splicing a block in after entry `k - 1` inserts it into the list at `k`
      and touches no header off the list but the block itself. */
  lemma SplicedLinked(h: map<nat, Header>, head: Option<nat>, tail: Option<nat>, s: seq<nat>, k: nat, x: nat)
    requires Linked(h, head, tail, s)
    requires 0 < k <= |s| && x in h && x !in s
    ensures Linked(Spliced(h, s[k - 1], x), head, if k == |s| then Some(x) else tail, InsertAt(s, k, x))
    ensures OnlyLinks(h, Spliced(h, s[k - 1], x))
    ensures View(Spliced(h, s[k - 1], x), InsertAt(s, k, x)) == InsertAt(View(h, s), k, Extent(x, h[x].dataSize))
    ensures forall y | y in h && y !in s && y != x :: Spliced(h, s[k - 1], x)[y] == h[y]
  {
    var c := s[k - 1];
    assert h[c].next == if k == |s| then None else Some(s[k]);
    var h2 := Spliced(h, c, x);
    SplicedShape(h, c, x);
    assert k < |s| ==> Apart(s, k - 1, k);
    assert InsertRelinked(h, h2, s, k, x);
    LinkedInsert(h, h2, head, tail, s, k, x);
    ViewInsert(h, s, k, x);
    ViewFrame(h, h2, InsertAt(s, k, x));
    forall y | y in h && y !in s && y != x ensures h2[y] == h[y] {
      assert Untouched(y, x, Some(c), h[c].next);
    }
  }

  /** Detaching entry `k` erases it from the list, clears its links and
      touches no header off the list. */
  lemma DetachedLinked(h: map<nat, Header>, head: Option<nat>, tail: Option<nat>, s: seq<nat>, k: nat)
    requires Linked(h, head, tail, s) && k < |s|
    ensures Linked(Detached(h, s[k]), if k == 0 then h[s[k]].next else head,
                   if k == |s| - 1 then h[s[k]].prev else tail, Erase(s, k))
    ensures OnlyLinks(h, Detached(h, s[k]))
    ensures View(Detached(h, s[k]), Erase(s, k)) == Erase(View(h, s), k)
    ensures Detached(h, s[k])[s[k]] == h[s[k]].(prev := None, next := None)
    ensures forall y | y in h && y !in s :: Detached(h, s[k])[y] == h[y]
  {
    assert h[s[k]].prev == if k == 0 then None else Some(s[k - 1]);
    assert h[s[k]].next == if k == |s| - 1 then None else Some(s[k + 1]);
    assert 0 < k ==> Apart(s, k - 1, k);
    assert k < |s| - 1 ==> Apart(s, k, k + 1);
    assert 0 < k < |s| - 1 ==> Apart(s, k - 1, k + 1);
    var h2 := Detached(h, s[k]);
    DetachedShape(h, s[k]);
    assert EraseRelinked(h, h2, s, k);
    LinkedErase(h, h2, head, tail, s, k);
    ViewErase(h, s, k);
    ViewFrame(h, h2, Erase(s, k));
    forall y | y in h && y !in s ensures h2[y] == h[y] {
      assert Untouched(y, s[k], h[s[k]].prev, h[s[k]].next);
    }
  }

  /** The allocated flag is not part of the list. */
  lemma FlaggedLinked(h: map<nat, Header>, head: Option<nat>, tail: Option<nat>, s: seq<nat>, x: nat, b: bool)
    requires Linked(h, head, tail, s) && x in h
    ensures Linked(Flagged(h, x, b), head, tail, s)
    ensures View(Flagged(h, x, b), s) == View(h, s)
  {
    var h2 := Flagged(h, x, b);
    assert LinksKeptBut(h, h2, x, None, None);
    forall j | 0 <= j < |s|
      ensures h2[s[j]].prev == (if j == 0 then None else Some(s[j - 1]))
      ensures h2[s[j]].next == (if j == |s| - 1 then None else Some(s[j + 1]))
    {
      assert h[s[j]].prev == (if j == 0 then None else Some(s[j - 1]));
      assert h[s[j]].next == (if j == |s| - 1 then None else Some(s[j + 1]));
    }
    ViewFrame(h, h2, s);
  }

  /** A size change is not part of the list; the view changes in that entry only. */
  lemma ResizedLinked(h: map<nat, Header>, head: Option<nat>, tail: Option<nat>, s: seq<nat>, k: nat, n: nat)
    requires Linked(h, head, tail, s) && k < |s|
    ensures Linked(Resized(h, s[k], n), head, tail, s)
    ensures View(Resized(h, s[k], n), s) == View(h, s)[k := Extent(s[k], n)]
  {
    ResizedLinks(h, head, tail, s, k, n);
    ResizedView(h, s, k, n);
  }

  lemma ResizedLinks(h: map<nat, Header>, head: Option<nat>, tail: Option<nat>, s: seq<nat>, k: nat, n: nat)
    requires Linked(h, head, tail, s) && k < |s|
    ensures Linked(Resized(h, s[k], n), head, tail, s)
  {
    var h2 := Resized(h, s[k], n);
    forall j | 0 <= j < |s|
      ensures h2[s[j]].prev == (if j == 0 then None else Some(s[j - 1]))
      ensures h2[s[j]].next == (if j == |s| - 1 then None else Some(s[j + 1]))
    {
      assert h[s[j]].prev == (if j == 0 then None else Some(s[j - 1]));
      assert h[s[j]].next == (if j == |s| - 1 then None else Some(s[j + 1]));
    }
  }

  lemma ResizedView(h: map<nat, Header>, s: seq<nat>, k: nat, n: nat)
    requires InHeap(h, s) && Distinct(s) && k < |s|
    ensures View(Resized(h, s[k], n), s) == View(h, s)[k := Extent(s[k], n)]
  {
    var a, b := View(Resized(h, s[k], n), s), View(h, s)[k := Extent(s[k], n)];
    forall j | 0 <= j < |s| ensures a[j] == b[j] {
      if j < k {
        assert Apart(s, j, k);
      } else if k < j {
        assert Apart(s, k, j);
      }
    }
  }

  // ---------------------------------------------------------------------
  // Flags, positions and writes off the list

  /** Every entry but `z` is marked unallocated. */
  ghost predicate ClearBut(heap: map<nat, Header>, s: seq<nat>, z: Option<nat>)
    requires InHeap(heap, s)
  {
    forall i | 0 <= i < |s| && Some(s[i]) != z :: !heap[s[i]].isAllocated
  }

  /** Headers other than `x` keep their flags. */
  ghost predicate FlagsKeptBut(h1: map<nat, Header>, h2: map<nat, Header>, x: Option<nat>)
  {
    forall y {:trigger h1[y]} | y in h1 && Some(y) != x :: y in h2 && h2[y].isAllocated == h1[y].isAllocated
  }

  lemma ClearErase(h1: map<nat, Header>, h2: map<nat, Header>, s: seq<nat>, k: nat, z: Option<nat>)
    requires InHeap(h1, s) && Distinct(s) && k < |s| && ClearBut(h1, s, z)
    requires FlagsKeptBut(h1, h2, Some(s[k]))
    ensures InHeap(h2, Erase(s, k)) && ClearBut(h2, Erase(s, k), z)
  {
    var r := Erase(s, k);
    forall i | 0 <= i < |r| ensures r[i] in h2 && (Some(r[i]) != z ==> !h2[r[i]].isAllocated) {
      var hy := h1[r[i]];
      if i < k {
        assert r[i] == s[i] && Apart(s, i, k);
      } else {
        assert r[i] == s[i + 1] && Apart(s, k, i + 1);
      }
    }
  }

  lemma ClearInsert(h1: map<nat, Header>, h2: map<nat, Header>, s: seq<nat>, k: nat, x: nat, z: Option<nat>)
    requires InHeap(h1, s) && k <= |s| && x in h1 && ClearBut(h1, s, z)
    requires x in h2 && FlagsKeptBut(h1, h2, Some(x))
    requires z == None || !h2[x].isAllocated
    ensures InHeap(h2, InsertAt(s, k, x))
    ensures ClearBut(h2, InsertAt(s, k, x), if h2[x].isAllocated then Some(x) else z)
  {
    var r := InsertAt(s, k, x);
    forall i | 0 <= i < |r| ensures r[i] in h2 {
      assert r[i] == if i < k then s[i] else if i == k then x else s[i - 1];
      var hy := h1[r[i]];
    }
    forall i | 0 <= i < |r| && Some(r[i]) != (if h2[x].isAllocated then Some(x) else z)
      ensures !h2[r[i]].isAllocated
    {
      assert r[i] == if i < k then s[i] else if i == k then x else s[i - 1];
    }
  }

  lemma DistinctAt(s: seq<nat>, i: nat, j: nat)
    requires Distinct(s) && i < j < |s|
    ensures s[i] != s[j]
  {
    assert Apart(s, i, j);
  }

  /** The entry erased from a list without repeats is no longer on it. */
  lemma ErasedGone(s: seq<nat>, k: nat)
    requires Distinct(s) && k < |s|
    ensures s[k] !in Erase(s, k)
  {
    var r := Erase(s, k);
    forall i | 0 <= i < |r| ensures r[i] != s[k] {
      if i < k { DistinctAt(s, i, k); } else { DistinctAt(s, k, i + 1); }
    }
  }

  /** In a list without repeats, an entry's position is where it is found. */
  lemma {:induction false} IndexOfAt(s: seq<nat>, j: nat)
    requires Distinct(s) && j < |s|
    ensures IndexOf(s, s[j]) == j
  {
    var k := IndexOf(s, s[j]);
    if k != j {
      var lo, hi := if k < j then k else j, if k < j then j else k;
      DistinctAt(s, lo, hi);
      assert false;
    }
  }

  /** A linked list is the `next` chain from its head. */
  lemma LinkedChain(heap: map<nat, Header>, head: Option<nat>, tail: Option<nat>, s: seq<nat>)
    requires Linked(heap, head, tail, s)
    ensures IsChain(heap, head, s)
  {
  }

  /** Writing a header that is not on the list changes neither the list nor
      its view. */
  lemma OffListWrite(h: map<nat, Header>, head: Option<nat>, tail: Option<nat>, s: seq<nat>, a: nat, hd: Header)
    requires Linked(h, head, tail, s) && a !in s
    ensures Linked(h[a := hd], head, tail, s)
    ensures View(h[a := hd], s) == View(h, s)
  {
    var h2 := h[a := hd];
    forall j | 0 <= j < |s|
      ensures s[j] in h2 && h2[s[j]] == h[s[j]]
    {
      assert s[j] != a;
    }
    forall j | 0 <= j < |s|
      ensures h2[s[j]].prev == (if j == 0 then None else Some(s[j - 1]))
      ensures h2[s[j]].next == (if j == |s| - 1 then None else Some(s[j + 1]))
    {
      assert h[s[j]].prev == (if j == 0 then None else Some(s[j - 1]));
      assert h[s[j]].next == (if j == |s| - 1 then None else Some(s[j + 1]));
    }
    var v1, v2 := View(h, s), View(h2, s);
    forall j | 0 <= j < |s| ensures v1[j] == v2[j] {
    }
  }

  /** Flags kept everywhere but at `a` keep the list clear, with `w` as the
      one entry allowed to be marked. */
  lemma ClearKept(h1: map<nat, Header>, h2: map<nat, Header>, s: seq<nat>, z: Option<nat>, a: Option<nat>, w: Option<nat>)
    requires InHeap(h1, s) && ClearBut(h1, s, z) && FlagsKeptBut(h1, h2, a)
    requires z == None || z == w
    requires a == None || a == w || a.value !in s
    requires a.Some? ==> a.value in h2
    ensures InHeap(h2, s) && ClearBut(h2, s, w)
  {
    forall i | 0 <= i < |s| ensures s[i] in h2 && (Some(s[i]) != w ==> !h2[s[i]].isAllocated) {
      var hy := h1[s[i]];
    }
  }

  /** Marking `b` free leaves no allocated entry on a list whose only
      allowed allocated entry was `b`. */
  lemma ClearedFlag(h: map<nat, Header>, s: seq<nat>, b: nat, z: Option<nat>)
    requires InHeap(h, s) && b in h && (z == None || z == Some(b)) && ClearBut(h, s, z)
    ensures InHeap(Flagged(h, b, false), s) && ClearBut(Flagged(h, b, false), s, None)
  {
    var h2 := Flagged(h, b, false);
    forall i | 0 <= i < |s| ensures s[i] in h2 && !h2[s[i]].isAllocated {
    }
  }

  /** An exception for a header that is not on the list is no exception. */
  lemma ClearDrop(h: map<nat, Header>, s: seq<nat>, b: nat)
    requires InHeap(h, s) && ClearBut(h, s, Some(b)) && b !in s
    ensures ClearBut(h, s, None)
  {
  }

  // ---------------------------------------------------------------------
  // The three list primitives, each as one effect on memory

  /** removeFromFreeList on entry `k` of a non-empty list. */
  lemma Removed(h: map<nat, Header>, head: Option<nat>, tail: Option<nat>, s: seq<nat>, k: nat)
    requires Linked(h, head, tail, s) && k < |s|
    ensures var h2 := Flagged(Detached(h, s[k]), s[k], true);
            && Linked(h2, if k == 0 then h[s[k]].next else head,
                      if k == |s| - 1 then h[s[k]].prev else tail, Erase(s, k))
            && View(h2, Erase(s, k)) == Erase(View(h, s), k)
            && (forall y | y in h && y !in s :: y in h2 && h2[y] == h[y])
            && (forall z :: ClearBut(h, s, z) ==> ClearBut(h2, Erase(s, k), z))
  {
    RemovedLinks(h, head, tail, s, k);
    RemovedFlags(h, head, tail, s, k);
  }

  lemma RemovedLinks(h: map<nat, Header>, head: Option<nat>, tail: Option<nat>, s: seq<nat>, k: nat)
    requires Linked(h, head, tail, s) && k < |s|
    ensures var h2 := Flagged(Detached(h, s[k]), s[k], true);
            && Linked(h2, if k == 0 then h[s[k]].next else head,
                      if k == |s| - 1 then h[s[k]].prev else tail, Erase(s, k))
            && View(h2, Erase(s, k)) == Erase(View(h, s), k)
            && (forall y | y in h && y !in s :: y in h2 && h2[y] == h[y])
  {
    var h1 := Detached(h, s[k]);
    DetachedLinked(h, head, tail, s, k);
    var head1 := if k == 0 then h[s[k]].next else head;
    var tail1 := if k == |s| - 1 then h[s[k]].prev else tail;
    FlaggedLinked(h1, head1, tail1, Erase(s, k), s[k], true);
  }

  lemma RemovedFlags(h: map<nat, Header>, head: Option<nat>, tail: Option<nat>, s: seq<nat>, k: nat)
    requires Linked(h, head, tail, s) && k < |s|
    ensures var h2 := Flagged(Detached(h, s[k]), s[k], true);
            forall z :: ClearBut(h, s, z) ==> ClearBut(h2, Erase(s, k), z)
  {
    var h2 := Flagged(Detached(h, s[k]), s[k], true);
    forall z | ClearBut(h, s, z) ensures ClearBut(h2, Erase(s, k), z) {
      RemovedClear(h, head, tail, s, k, z);
    }
  }

  /** appendToFreeList of a header that is not on the list. */
  lemma Appended(h: map<nat, Header>, head: Option<nat>, tail: Option<nat>, s: seq<nat>, x: nat)
    requires Linked(h, head, tail, s) && x in h && x !in s
    requires s == [] ==> h[x].prev == None && h[x].next == None
    ensures var h2 := Flagged(if s == [] then h else Spliced(h, s[|s| - 1], x), x, false);
            && Linked(h2, if s == [] then Some(x) else head, Some(x), s + [x])
            && View(h2, s + [x]) == View(h, s) + [Extent(x, h[x].dataSize)]
            && (forall y | y in h && y !in s && y != x :: y in h2 && h2[y] == h[y])
            && (forall z :: ClearBut(h, s, z) ==> ClearBut(h2, s + [x], z))
  {
    var h1 := if s == [] then h else Spliced(h, s[|s| - 1], x);
    InsertAtEnd(s, x);
    if s == [] {
      LinkedSingle(h, x);
      assert View(h, [x])[0] == Extent(x, h[x].dataSize);
    } else {
      SplicedLinked(h, head, tail, s, |s|, x);
      InsertAtEnd(View(h, s), Extent(x, h[x].dataSize));
    }
    var head1 := if s == [] then Some(x) else head;
    FlaggedLinked(h1, head1, Some(x), s + [x], x, false);
    var h2 := Flagged(h1, x, false);
    forall z | ClearBut(h, s, z) ensures ClearBut(h2, s + [x], z) {
      ClearInsert(h, h2, s, |s|, x, z);
    }
  }

  /** insertInFrontOf with a non-null `curr` at entry `k - 1`: the header is
      linked in after it. */
  lemma Inserted(h: map<nat, Header>, head: Option<nat>, tail: Option<nat>, s: seq<nat>, k: nat, x: nat)
    requires Linked(h, head, tail, s) && 0 < k <= |s| && x in h && x !in s
    ensures var h2 := Spliced(h, s[k - 1], x);
            && Linked(h2, head, if k == |s| then Some(x) else tail, InsertAt(s, k, x))
            && View(h2, InsertAt(s, k, x)) == InsertAt(View(h, s), k, Extent(x, h[x].dataSize))
            && (forall y | y in h && y !in s && y != x :: y in h2 && h2[y] == h[y])
            && x in h2 && h2[x].isAllocated == h[x].isAllocated
            && (forall z :: ClearBut(h, s, z) && (z == None || !h[x].isAllocated) ==>
                  ClearBut(h2, InsertAt(s, k, x), if h[x].isAllocated then Some(x) else z))
  {
    var h2 := Spliced(h, s[k - 1], x);
    SplicedLinked(h, head, tail, s, k, x);
    forall z | ClearBut(h, s, z) && (z == None || !h[x].isAllocated)
      ensures ClearBut(h2, InsertAt(s, k, x), if h[x].isAllocated then Some(x) else z)
    {
      ClearInsert(h, h2, s, k, x, z);
    }
  }

  /** The list shape alone after appendToFreeList. */
  lemma AppendedLinked(h: map<nat, Header>, head: Option<nat>, tail: Option<nat>, s: seq<nat>, x: nat)
    requires Linked(h, head, tail, s) && x in h && x !in s
    requires s == [] ==> h[x].prev == None && h[x].next == None
    ensures Linked(Flagged(if s == [] then h else Spliced(h, s[|s| - 1], x), x, false),
                   if s == [] then Some(x) else head, Some(x), s + [x])
  {
    Appended(h, head, tail, s, x);
  }

  /** The list shape alone after removeFromFreeList. */
  lemma RemovedLinked(h: map<nat, Header>, head: Option<nat>, tail: Option<nat>, s: seq<nat>, k: nat)
    requires Linked(h, head, tail, s) && k < |s|
    ensures Linked(Flagged(Detached(h, s[k]), s[k], true), if k == 0 then h[s[k]].next else head,
                   if k == |s| - 1 then h[s[k]].prev else tail, Erase(s, k))
  {
    RemovedLinks(h, head, tail, s, k);
  }

  /** The list shape alone after insertInFrontOf with a non-null `curr`. */
  lemma InsertedLinked(h: map<nat, Header>, head: Option<nat>, tail: Option<nat>, s: seq<nat>, k: nat, x: nat)
    requires Linked(h, head, tail, s) && 0 < k <= |s| && x in h && x !in s
    ensures Linked(Spliced(h, s[k - 1], x), head, if k == |s| then Some(x) else tail, InsertAt(s, k, x))
  {
    SplicedLinked(h, head, tail, s, k, x);
  }

  /** The view alone after insertInFrontOf with a non-null `curr`. */
  lemma SplicedView(h: map<nat, Header>, head: Option<nat>, tail: Option<nat>, s: seq<nat>, k: nat, x: nat)
    requires Linked(h, head, tail, s) && 0 < k <= |s| && x in h && x !in s
    ensures InHeap(Spliced(h, s[k - 1], x), InsertAt(s, k, x))
    ensures View(Spliced(h, s[k - 1], x), InsertAt(s, k, x)) == InsertAt(View(h, s), k, Extent(x, h[x].dataSize))
  {
    SplicedLinked(h, head, tail, s, k, x);
  }

  /** The headers off the list alone after insertInFrontOf with a non-null
      `curr`. */
  lemma SplicedFrame(h: map<nat, Header>, head: Option<nat>, tail: Option<nat>, s: seq<nat>, k: nat, x: nat)
    requires Linked(h, head, tail, s) && 0 < k <= |s| && x in h && x !in s
    ensures forall y | y in h && y !in s && y != x :: y in Spliced(h, s[k - 1], x) && Spliced(h, s[k - 1], x)[y] == h[y]
  {
    SplicedLinked(h, head, tail, s, k, x);
  }

  /** The flags alone after insertInFrontOf with a non-null `curr`, for a
      free header linked in. */
  lemma SplicedClear(h: map<nat, Header>, head: Option<nat>, tail: Option<nat>, s: seq<nat>, k: nat, x: nat, z: Option<nat>)
    requires Linked(h, head, tail, s) && 0 < k <= |s| && x in h && x !in s
    requires !h[x].isAllocated && ClearBut(h, s, z)
    ensures InHeap(Spliced(h, s[k - 1], x), InsertAt(s, k, x))
    ensures ClearBut(Spliced(h, s[k - 1], x), InsertAt(s, k, x), z)
  {
    SplicedShape(h, s[k - 1], x);
    ClearInsert(h, Spliced(h, s[k - 1], x), s, k, x, z);
  }

  /** The view alone after removeFromFreeList. */
  lemma RemovedView(h: map<nat, Header>, head: Option<nat>, tail: Option<nat>, s: seq<nat>, k: nat)
    requires Linked(h, head, tail, s) && k < |s|
    ensures InHeap(Flagged(Detached(h, s[k]), s[k], true), Erase(s, k))
    ensures View(Flagged(Detached(h, s[k]), s[k], true), Erase(s, k)) == Erase(View(h, s), k)
  {
    RemovedLinks(h, head, tail, s, k);
  }

  /** The headers off the list alone after removeFromFreeList. */
  lemma RemovedFrame(h: map<nat, Header>, head: Option<nat>, tail: Option<nat>, s: seq<nat>, k: nat)
    requires Linked(h, head, tail, s) && k < |s|
    ensures forall y | y in h && y !in s :: y in Flagged(Detached(h, s[k]), s[k], true) && Flagged(Detached(h, s[k]), s[k], true)[y] == h[y]
  {
    RemovedLinks(h, head, tail, s, k);
  }

  /** The flags alone after removeFromFreeList. */
  lemma RemovedClear(h: map<nat, Header>, head: Option<nat>, tail: Option<nat>, s: seq<nat>, k: nat, z: Option<nat>)
    requires Linked(h, head, tail, s) && k < |s| && ClearBut(h, s, z)
    ensures InHeap(Flagged(Detached(h, s[k]), s[k], true), Erase(s, k))
    ensures ClearBut(Flagged(Detached(h, s[k]), s[k], true), Erase(s, k), z)
  {
    var h1 := Detached(h, s[k]);
    var h2 := Flagged(h1, s[k], true);
    assert h[s[k]].prev == if k == 0 then None else Some(s[k - 1]);
    assert h[s[k]].next == if k == |s| - 1 then None else Some(s[k + 1]);
    DetachedShape(h, s[k]);
    ClearErase(h, h2, s, k, z);
  }

  // ---------------------------------------------------------------------
  // Allocated headers off the list

  /** Every allocated header off the list `s` has null links: removeFromFreeList
      clears the links of the header it takes off, and a fresh header has
      none. */
  ghost predicate UnlinkedOff(h: map<nat, Header>, s: seq<nat>)
  {
    forall y {:trigger Unlinked(h, y)} | y in h && y !in s && h[y].isAllocated :: Unlinked(h, y)
  }

  /** The header at `y` has null links. */
  ghost predicate Unlinked(h: map<nat, Header>, y: nat)
    requires y in h
  {
    h[y].prev == None && h[y].next == None
  }

  /** Splicing a block into the list keeps every allocated header off it
      unlinked. */
  lemma SplicedOff(h: map<nat, Header>, head: Option<nat>, tail: Option<nat>, s: seq<nat>, k: nat, x: nat)
    requires Linked(h, head, tail, s) && 0 < k <= |s| && x in h && x !in s && UnlinkedOff(h, s)
    ensures UnlinkedOff(Spliced(h, s[k - 1], x), InsertAt(s, k, x))
  {
    var h2 := Spliced(h, s[k - 1], x);
    SplicedFrame(h, head, tail, s, k, x);
    forall y | y in h2 && y !in InsertAt(s, k, x) && h2[y].isAllocated
      ensures Unlinked(h2, y)
    {
      InsertAtHas(s, k, x, y);
      assert Unlinked(h, y);
    }
  }

  /** removeFromFreeList leaves the header it takes off allocated and
      unlinked, and every other header off the list as it was. */
  lemma RemovedOff(h: map<nat, Header>, head: Option<nat>, tail: Option<nat>, s: seq<nat>, k: nat)
    requires Linked(h, head, tail, s) && k < |s| && UnlinkedOff(h, s)
    ensures UnlinkedOff(Flagged(Detached(h, s[k]), s[k], true), Erase(s, k))
  {
    var h2 := Flagged(Detached(h, s[k]), s[k], true);
    assert h2[s[k]].prev == None && h2[s[k]].next == None;
    forall y | y in h2 && y !in Erase(s, k) && h2[y].isAllocated
      ensures Unlinked(h2, y)
    {
      if y !in s {
        RemovedFrame(h, head, tail, s, k);
        assert Unlinked(h, y);
      }
    }
  }

  /** appendToFreeList keeps every allocated header off the list unlinked. */
  lemma AppendedOff(h: map<nat, Header>, head: Option<nat>, tail: Option<nat>, s: seq<nat>, x: nat)
    requires Linked(h, head, tail, s) && x in h && x !in s && UnlinkedOff(h, s)
    ensures var h1 := if s == [] then h else Spliced(h, s[|s| - 1], x);
            x in h1 && UnlinkedOff(Flagged(h1, x, false), s + [x])
  {
    var h1 := if s == [] then h else Spliced(h, s[|s| - 1], x);
    if s != [] {
      SplicedOff(h, head, tail, s, |s|, x);
      InsertAtEnd(s, x);
      SplicedShape(h, s[|s| - 1], x);
    }
    var h2 := Flagged(h1, x, false);
    forall y | y in h2 && y !in s + [x] && h2[y].isAllocated
      ensures Unlinked(h2, y)
    {
      assert Unlinked(h1, y);
    }
  }

  /** Marking a header free, or changing a size, keeps every allocated header
      off the list unlinked. */
  lemma KeptOff(h: map<nat, Header>, s: seq<nat>, x: nat, n: nat)
    requires x in h && UnlinkedOff(h, s)
    ensures UnlinkedOff(Flagged(h, x, false), s)
    ensures UnlinkedOff(Resized(h, x, n), s)
  {
    forall y | y in h && y !in s && Flagged(h, x, false)[y].isAllocated
      ensures Unlinked(Flagged(h, x, false), y)
    {
      assert Unlinked(h, y);
    }
    forall y | y in h && y !in s && Resized(h, x, n)[y].isAllocated
      ensures Unlinked(Resized(h, x, n), y)
    {
      assert Unlinked(h, y);
    }
  }

  /** initBlockMeta writes a header with null links, so it keeps every
      allocated header off the list unlinked. */
  lemma BlankOff(h: map<nat, Header>, s: seq<nat>, x: nat, n: nat, b: bool)
    requires UnlinkedOff(h, s)
    ensures UnlinkedOff(h[x := Blank(n, b)], s)
  {
    forall y | y in h[x := Blank(n, b)] && y !in s && h[x := Blank(n, b)][y].isAllocated
      ensures Unlinked(h[x := Blank(n, b)], y)
    {
      if y != x {
        assert Unlinked(h, y);
      }
    }
  }
}
