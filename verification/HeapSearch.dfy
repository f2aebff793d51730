/** How complete the bitmap search is, and how many chunks an allocation can cost. */
module HeapSearch {
  import opened Layout
  import opened Tags
  import opened FreeLists
  import opened HeapModel
  import opened HeapRuns
  import opened HeapTheorems

  // ---------------------------------------------------------------- the search

  ghost predicate HasFree(h: Heap, size: int) {
    exists a :: IsFree(h.blocks, a) && h.blocks[a].size >= size
  }

  /** The block sizes for which looking at one list is as good as looking at the whole heap. */
  predicate Searchable(g: Guard, size: int) {
    g.ByIndex? || size <= 472
  }

  /** If some free block is large enough, the one list that is looked at holds such a block. */
  lemma CandidateExists(g: Guard, h: Heap, size: int, a: int) returns (b: int)
    requires Inv(g, h) && size >= HEADER && size % 8 == 0 && Searchable(g, size)
    requires IsFree(h.blocks, a) && h.blocks[a].size >= size
    ensures b in Candidates(h, size) && b in h.blocks && h.blocks[b].size >= size
  {
    var i := NextPopulated(h.lists, SizeToIndex(size));
    var j := Home(h.lists, a);
    assert j >= SizeToIndex(size);
    assert j >= i;
    b := if j == i then a else h.lists[i][0];
    assert InList(h.lists, i, b);
  }

  /** Bitmap search and first fit on a single list find a block whenever the heap has one. */
  lemma SearchComplete(g: Guard, h: Heap, size: int)
    requires Inv(g, h) && size >= HEADER && size % 8 == 0 && Searchable(g, size)
    ensures Fit(g, h, size) != NULL <==> HasFree(h, size)
  {
    FitFinds(g, h, size);
    if HasFree(h, size) {
      var a :| IsFree(h.blocks, a) && h.blocks[a].size >= size;
      var b := CandidateExists(g, h, size, a);
    }
  }

  /** A request whose size sum wraps is answered with a pointer whenever any block is free, although
      that block has no room for it. */
  lemma WrappedRequestIsAnswered(g: Guard, h: Heap, raw: nat, os: seq<Sbrk>)
    requires Inv(g, h) && raw < TWO_TO_THE_64 && raw + ALLOC_HEADER + 7 >= TWO_TO_THE_64
    requires exists a :: IsFree(h.blocks, a)
    ensures var o := Malloc(g, h, raw, os);
      o.block != NULL && o.os == os && o.block + ALLOC_HEADER + raw > RightOf(o.heap.blocks, o.block)
  {
    var a :| IsFree(h.blocks, a);
    FreeIsLarge(g, h, a);
    WrappedSize(raw);
    SearchComplete(g, h, HEADER);
    AllocationSafety(g, h, raw, os);
    FitFinds(g, h, HEADER);
    hide Inv, Fit, Take, Live, Disjoint, HeaderEnd, RequestSize;
  }

  lemma FreeIsLarge(g: Guard, h: Heap, a: int)
    requires Inv(g, h) && IsFree(h.blocks, a)
    ensures HasFree(h, HEADER)
  {
    assert Sized(h.blocks[a]);
  }

  /** So it is, for instance, by the initial heap. */
  lemma FreshHeapAnswersWrapped(g: Guard, base: int, raw: nat)
    requires base >= HEAP_BASE && base % 8 == 0
    requires raw < TWO_TO_THE_64 && raw + ALLOC_HEADER + 7 >= TWO_TO_THE_64
    ensures Inv(g, Init(base)) && Malloc(g, Init(base), raw, []).block != NULL
  {
    InitKeeps(g, base);
    assert IsFree(Init(base).blocks, base + ALLOC_HEADER);
    hide Inv, Init;
    WrappedRequestIsAnswered(g, Init(base), raw, []);
  }

  // ---------------------------------------------------------------- growth

  /** The block next to the last right fencepost. */
  function Tail(h: Heap): int
    requires h.last in h.blocks
  {
    LeftOf(h.blocks, h.last)
  }

  function TailRoom(h: Heap): int
    requires h.last in h.blocks
  {
    if IsFree(h.blocks, Tail(h)) then h.blocks[Tail(h)].size else 0
  }

  /** What growth by an adjacent chunk amounts to: a free tail grows over the fencepost pair and the
      chunk, and is moved if its list changes; otherwise they become a new free block. */
  lemma GrowAdjacent(g: Guard, h: Heap)
    requires Inv(g, h)
    ensures var bs, t, f := h.blocks, Tail(h), h.last; t in bs && t + bs[t].size == f
    ensures var bs, t, f := h.blocks, Tail(h), h.last;
      Grow(g, h, 0) ==
        if IsFree(bs, t) then
          var size := bs[t].size + ARENA;
          Heap((bs - {f})[t := bs[t].(size := size)][f + ARENA := Block(ALLOC_HEADER, size, RightFence)],
               Move(g, h.lists, t, size, bs[t].size), h.chunks, f + ARENA)
        else
          Heap(SwallowFence(bs, f), Insert(h.lists, f, ARENA), h.chunks, f + ARENA)
  {
    SwallowFenceTiled(h.blocks, h.last);
    assert JoinsLeft(h.blocks, h.last);
  }

  /** A chunk adjacent to the last one adds all its bytes to the free block at the end. */
  lemma GrowTail(g: Guard, h: Heap)
    requires Inv(g, h)
    ensures var h' := Grow(g, h, 0);
      && h'.last in h'.blocks && TailRoom(h') == TailRoom(h) + ARENA
      && Tail(h') == if IsFree(h.blocks, Tail(h)) then Tail(h) else h.last
  {
    GrowAdjacent(g, h);
  }

  lemma GrowHasRoom(g: Guard, h: Heap, words: nat, size: int)
    requires Inv(g, h) && size <= ARENA - 2 * ALLOC_HEADER
    ensures HasFree(Grow(g, h, words), size)
  {
    if words == 0 {
      GrowTail(g, h);
      assert IsFree(Grow(g, h, 0).blocks, Tail(Grow(g, h, 0)));
    } else {
      assert IsFree(Grow(g, h, words).blocks, h.last + ALLOC_HEADER + 8 * words + ALLOC_HEADER);
    }
  }

  /** Up to 472 bytes, a request costs at most one chunk, and it fails only if sbrk does. */
  lemma OneChunkIsEnough(g: Guard, h: Heap, size: int, os: seq<Sbrk>)
    requires Inv(g, h) && HEADER <= size <= 472 && size % 8 == 0
    ensures var o := Allocate(g, h, size, os);
      if HasFree(h, size) then o.block != NULL && o.os == os
      else if os != [] && os[0].Moved? then o.block != NULL && o.os == os[1..]
      else o.block == NULL && o.heap == h
  {
    SearchComplete(g, h, size);
    FitFinds(g, h, size);
    hide Inv, Fit, HasFree, Grow, Take;
    if !HasFree(h, size) && os != [] && os[0].Moved? {
      GrowKeeps(g, h, os[0].words);
      GrowHasRoom(g, h, os[0].words, size);
      SearchComplete(g, Grow(g, h, os[0].words), size);
      FitFinds(g, Grow(g, h, os[0].words), size);
    }
  }

  /** n answers of sbrk, each adjacent to the chunk before. */
  function Adjacent(n: nat): seq<Sbrk> {
    seq(n, i => Moved(0))
  }

  lemma AdjacentTail(n: nat)
    requires n > 0
    ensures Adjacent(n)[0] == Moved(0) && Adjacent(n)[1..] == Adjacent(n - 1)
  {}

  /** With the guard comparing list indices, n adjacent chunks are enough for any size that the free
      tail and n chunks together cover; in particular ceil(size / 1024) chunks always are. */
  lemma {:induction false} AdjacentChunksAreEnough(h: Heap, size: int, n: nat)
    requires Inv(ByIndex, h) && size >= HEADER && size % 8 == 0
    requires TailRoom(h) + ARENA * n >= size
    ensures Allocate(ByIndex, h, size, Adjacent(n)).block != NULL
    decreases n
  {
    SearchComplete(ByIndex, h, size);
    FitFinds(ByIndex, h, size);
    if Fit(ByIndex, h, size) == NULL {
      assert TailRoom(h) < size;
      AdjacentTail(n);
      GrowKeeps(ByIndex, h, 0);
      GrowTail(ByIndex, h);
      AdjacentChunksAreEnough(Grow(ByIndex, h, 0), size, n - 1);
    }
  }

  // ---------------------------------------------------------------- growth under the guard as coded

  /** Once the free tail has 472 bytes, further adjacent chunks change no list, and no block but the
      tail. */
  lemma GrowLargeTail(h: Heap)
    requires Inv(AsCoded, h) && TailRoom(h) >= 472
    ensures var h' := Grow(AsCoded, h, 0);
      && h'.last in h'.blocks && h'.lists == h.lists && Tail(h') == Tail(h)
      && TailRoom(h') == TailRoom(h) + ARENA
      && (forall a :: IsFree(h'.blocks, a) <==> IsFree(h.blocks, a))
      && (forall a :: IsFree(h.blocks, a) && a != Tail(h) ==> h'.blocks[a].size == h.blocks[a].size)
  {
    GrowAdjacent(AsCoded, h);
  }
}
