/** The block header shared by the three allocator rewrites, and the two
    placement searches (first fit, best fit) stated over a chain of headers.

    Memory is an abstract address space: a map from the address of each
    header that has been written to that header.  A null pointer is None. */
module Blocks {

  datatype Option<T> = None | Some(value: T)

  /** sizeof(block_meta): a size_t, a bool and two pointers, so certainly more
      than one byte.  The exact value is left symbolic. */
  type HeaderBytes = n: nat | 1 < n witness 32
  const META_SIZE: HeaderBytes

  /** struct _block_meta / struct MemoryBlock */
  datatype Header = Header(dataSize: nat, isAllocated: bool, prev: Option<nat>, next: Option<nat>)

  /** The header that initBlockMeta / initializeMemoryBlock writes. */
  function Blank(dataSize: nat, isAllocated: bool): (h: Header)
  {
    Header(dataSize, isAllocated, None, None)
  }

  /** First address past a block whose header sits at `a`. */
  function End(a: nat, h: Header): (e: nat)
    ensures a < e
  {
    a + META_SIZE + h.dataSize
  }

  /** The pointer handed to the caller for the block whose header is at `b`:
      one whole header past it (`allocatedBlock + 1` on a `block_meta *`). */
  function DataPointer(b: nat): (p: nat)
    ensures META_SIZE <= p && HeaderOf(p) == b
  {
    b + META_SIZE
  }

  /** The header a free routine reads back from a caller's pointer
      (`(block_meta *) p - 1`). */
  function HeaderOf(p: nat): (b: nat)
    requires META_SIZE <= p
    ensures b < p
  {
    p - META_SIZE
  }

  /** `splitBlock(...) + 1` on the `void *` splitBlock returns: one byte
      past the header rather than one header past it. */
  function OneBytePast(b: nat): (p: nat)
    ensures p == b + 1
  {
    b + 1
  }

  /** Such a pointer never leads a free routine back to the block's header:
      either it lies below one header's width, or the header read back
      starts `META_SIZE - 1` bytes before the block. */
  lemma OneBytePastMisses(b: nat)
    ensures OneBytePast(b) < META_SIZE || HeaderOf(OneBytePast(b)) != b
    ensures META_SIZE <= OneBytePast(b) ==> HeaderOf(OneBytePast(b)) + META_SIZE - 1 == b
  {
  }

  ghost predicate Within(i: int, lo: int, hi: int)
  {
    lo <= i < hi
  }

  /** The bytes a block occupies, header included. */
  ghost function Range(a: nat, h: Header): (r: set<int>)
    ensures forall i :: i in r <==> a <= i < End(a, h)
  {
    set i: int | a <= i < End(a, h) && Within(i, a, End(a, h))
  }

  /** `s` without its entry at `k`. */
  ghost function Erase<T>(s: seq<T>, k: nat): (r: seq<T>)
    requires k < |s|
    ensures |r| == |s| - 1
    ensures forall i {:trigger r[i]} | 0 <= i < |r| :: r[i] == if i < k then s[i] else s[i + 1]
  {
    s[..k] + s[k + 1..]
  }

  /** `s` with `x` placed at position `k`. */
  ghost function InsertAt<T>(s: seq<T>, k: nat, x: T): (r: seq<T>)
    requires k <= |s|
    ensures |r| == |s| + 1
    ensures forall i {:trigger r[i]} | 0 <= i < |r| :: r[i] == if i < k then s[i] else if i == k then x else s[i - 1]
  {
    s[..k] + [x] + s[k..]
  }

  /** Inserting after position `k` and then erasing position `k` replaces
      entry `k`. */
  lemma EraseInserted<T>(s: seq<T>, k: nat, x: T)
    requires k < |s|
    ensures Erase(InsertAt(s, k + 1, x), k) == s[k := x]
  {
    var a, b := Erase(InsertAt(s, k + 1, x), k), s[k := x];
    assert |a| == |b|;
    forall i | 0 <= i < |a| ensures a[i] == b[i] {
    }
  }

  /** Inserting at the end is appending. */
  lemma InsertAtEnd<T>(s: seq<T>, x: T)
    ensures InsertAt(s, |s|, x) == s + [x]
  {
    var a := InsertAt(s, |s|, x);
    assert forall i | 0 <= i < |a| :: a[i] == (s + [x])[i];
  }

  /** What `InsertAt` holds: the old entries and the new one. */
  lemma InsertAtHas<T>(s: seq<T>, k: nat, x: T, y: T)
    requires k <= |s|
    ensures y in InsertAt(s, k, x) <==> y in s || y == x
  {
    var r := InsertAt(s, k, x);
    if y in s {
      var i :| 0 <= i < |s| && s[i] == y;
      assert r[if i < k then i else i + 1] == y;
    }
    assert r[k] == x;
  }

  /** What `Erase` holds: only old entries. */
  lemma EraseHas<T>(s: seq<T>, k: nat, y: T)
    requires k < |s| && y in Erase(s, k)
    ensures y in s
  {
    var r := Erase(s, k);
    var i :| 0 <= i < |r| && r[i] == y;
    assert s[if i < k then i else i + 1] == y;
  }

  /** `path` is the chain of headers reached from `first` by following `next`
      until a null link. */
  ghost predicate IsChain(heap: map<nat, Header>, first: Option<nat>, path: seq<nat>)
  {
    && (forall i | 0 <= i < |path| :: path[i] in heap)
    && first == (if path == [] then None else Some(path[0]))
    && (forall i {:trigger heap[path[i]].next} | 0 <= i < |path| ::
          heap[path[i]].next == (if i == |path| - 1 then None else Some(path[i + 1])))
  }

  /** What a scan asks of a header: a size condition, and optionally that the
      header is not marked allocated. */
  datatype Test =
    | AtLeast(size: nat, freeOnly: bool)
    | Exactly(size: nat, freeOnly: bool)
    | MoreThan(size: nat, freeOnly: bool)

  predicate Passes(h: Header, t: Test)
  {
    && (!t.freeOnly || !h.isAllocated)
    && match t
       case AtLeast(n, _) => h.dataSize >= n
       case Exactly(n, _) => h.dataSize == n
       case MoreThan(n, _) => h.dataSize > n
  }

  ghost predicate InHeap(heap: map<nat, Header>, path: seq<nat>)
  {
    forall i | 0 <= i < |path| :: path[i] in heap
  }

  /** Index of the first entry of `path` that passes `t`; |path| if none does. */
  ghost function FirstIndex(heap: map<nat, Header>, path: seq<nat>, t: Test): (k: nat)
    requires InHeap(heap, path)
    ensures k <= |path|
    ensures k < |path| ==> Passes(heap[path[k]], t)
    ensures forall j | 0 <= j < k :: !Passes(heap[path[j]], t)
  {
    if path == [] then 0
    else if Passes(heap[path[0]], t) then 0
    else 1 + FirstIndex(heap, path[1..], t)
  }

  /** Index of the earliest among the smallest entries that pass `t`; |path| if
      none passes. */
  ghost function MinIndex(heap: map<nat, Header>, path: seq<nat>, t: Test): (k: nat)
    requires InHeap(heap, path)
    ensures k <= |path|
    ensures k == |path| <==> forall j | 0 <= j < |path| :: !Passes(heap[path[j]], t)
    ensures k < |path| ==> Passes(heap[path[k]], t)
    ensures k < |path| ==> forall j | 0 <= j < |path| && Passes(heap[path[j]], t) ::
              heap[path[k]].dataSize <= heap[path[j]].dataSize
    ensures k < |path| ==> forall j | 0 <= j < k && Passes(heap[path[j]], t) ::
              heap[path[k]].dataSize < heap[path[j]].dataSize
  {
    if path == [] then 0
    else
      var rest := 1 + MinIndex(heap, path[1..], t);
      if Passes(heap[path[0]], t) && (rest == |path| || heap[path[0]].dataSize <= heap[path[rest]].dataSize)
      then 0
      else rest
  }

  /** Best fit: the first entry passing `exact` if there is one, otherwise the
      earliest smallest entry passing `larger`; |path| if there is neither. */
  ghost function BestIndex(heap: map<nat, Header>, path: seq<nat>, exact: Test, larger: Test): (k: nat)
    requires InHeap(heap, path)
    ensures k <= |path|
    ensures k == |path| <==> forall j | 0 <= j < |path| ::
              !Passes(heap[path[j]], exact) && !Passes(heap[path[j]], larger)
    ensures k < |path| && Passes(heap[path[k]], exact) ==>
              forall j | 0 <= j < k :: !Passes(heap[path[j]], exact)
    ensures (exists j | 0 <= j < |path| :: Passes(heap[path[j]], exact)) ==> Passes(heap[path[k]], exact)
    ensures k < |path| && !Passes(heap[path[k]], exact) ==>
              && Passes(heap[path[k]], larger)
              && (forall j | 0 <= j < |path| :: !Passes(heap[path[j]], exact))
              && (forall j | 0 <= j < |path| && Passes(heap[path[j]], larger) ::
                    heap[path[k]].dataSize <= heap[path[j]].dataSize)
              && (forall j | 0 <= j < k && Passes(heap[path[j]], larger) ::
                    heap[path[k]].dataSize < heap[path[j]].dataSize)
  {
    var e := FirstIndex(heap, path, exact);
    if e < |path| then e else MinIndex(heap, path, larger)
  }

  /** An index meeting FirstIndex's description is FirstIndex. */
  lemma FirstIndexIs(heap: map<nat, Header>, path: seq<nat>, t: Test, k: nat)
    requires InHeap(heap, path) && k <= |path|
    requires k < |path| ==> Passes(heap[path[k]], t)
    requires forall j | 0 <= j < k :: !Passes(heap[path[j]], t)
    ensures FirstIndex(heap, path, t) == k
  {
  }

  /** An index meeting MinIndex's description is MinIndex. */
  lemma MinIndexIs(heap: map<nat, Header>, path: seq<nat>, t: Test, k: nat)
    requires InHeap(heap, path) && k < |path| && Passes(heap[path[k]], t)
    requires forall j | 0 <= j < |path| && Passes(heap[path[j]], t) :: heap[path[k]].dataSize <= heap[path[j]].dataSize
    requires forall j | 0 <= j < k && Passes(heap[path[j]], t) :: heap[path[k]].dataSize < heap[path[j]].dataSize
    ensures MinIndex(heap, path, t) == k
  {
  }

  /** After looking at the first `i` entries, `best` (entry `bi`) is the
      earliest smallest of them that passes `t`, or None if none did. */
  ghost predicate BestSoFar(heap: map<nat, Header>, path: seq<nat>, t: Test, i: nat, best: Option<nat>, bi: nat)
    requires InHeap(heap, path) && i <= |path|
  {
    if best == None then forall j | 0 <= j < i :: !Passes(heap[path[j]], t)
    else
      && bi < i && best == Some(path[bi]) && Passes(heap[path[bi]], t)
      && (forall j | 0 <= j < i && Passes(heap[path[j]], t) :: heap[path[bi]].dataSize <= heap[path[j]].dataSize)
      && (forall j | 0 <= j < bi && Passes(heap[path[j]], t) :: heap[path[bi]].dataSize < heap[path[j]].dataSize)
  }

  /** findBestFit's update keeps `BestSoFar`: entry `i` replaces the best
      when it passes and is strictly smaller. */
  lemma BestStep(heap: map<nat, Header>, path: seq<nat>, t: Test, i: nat, best: Option<nat>, bi: nat)
    requires InHeap(heap, path) && i < |path| && BestSoFar(heap, path, t, i, best, bi)
    ensures var h := heap[path[i]];
            var better := Passes(h, t) && (best == None || heap[best.value].dataSize > h.dataSize);
            BestSoFar(heap, path, t, i + 1, if better then Some(path[i]) else best, if better then i else bi)
  {
  }

  // ---------------------------------------------------------------------
  // The scans

  /** findFirstFit: follow `next` from `first` and stop at the first header
      passing `t`. */
  method FindFirstFit(heap: map<nat, Header>, first: Option<nat>, t: Test, ghost path: seq<nat>)
    returns (r: Option<nat>)
    requires IsChain(heap, first, path)
    ensures var k := FirstIndex(heap, path, t);
            r == if k < |path| then Some(path[k]) else None
  {
    var curr := first;
    ghost var i := 0;
    while curr != None
      invariant 0 <= i <= |path|
      invariant curr == if i < |path| then Some(path[i]) else None
      invariant forall j | 0 <= j < i :: !Passes(heap[path[j]], t)
      decreases |path| - i
    {
      if Passes(heap[curr.value], t) {
        return curr;
      }
      curr := heap[curr.value].next;
      i := i + 1;
    }
    return curr;
  }

  /** findBestFit: follow `next` from `first`; stop at the first header
      passing `exact`, otherwise remember the earliest strictly smallest one
      passing `larger`. */
  method FindBestFit(heap: map<nat, Header>, first: Option<nat>, exact: Test, larger: Test, ghost path: seq<nat>)
    returns (r: Option<nat>)
    requires IsChain(heap, first, path)
    ensures var k := BestIndex(heap, path, exact, larger);
            r == if k < |path| then Some(path[k]) else None
  {
    var curr := first;
    var best: Option<nat> := None;
    ghost var i, bi := 0, 0;
    while curr != None
      invariant 0 <= i <= |path|
      invariant curr == if i < |path| then Some(path[i]) else None
      invariant forall j | 0 <= j < i :: !Passes(heap[path[j]], exact)
      invariant BestSoFar(heap, path, larger, i, best, bi)
      decreases |path| - i
    {
      var h := heap[curr.value];
      if Passes(h, exact) {
        FirstIndexIs(heap, path, exact, i);
        return curr;
      }
      BestStep(heap, path, larger, i, best, bi);
      if Passes(h, larger) {
        if best == None || heap[best.value].dataSize > h.dataSize {
          best := curr;
          bi := i;
        }
      }
      curr := h.next;
      i := i + 1;
    }
    FirstIndexIs(heap, path, exact, |path|);
    if best != None {
      MinIndexIs(heap, path, larger, bi);
    }
    return best;
  }
}
