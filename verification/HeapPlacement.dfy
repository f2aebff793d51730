/** Exactly for which sizes a free block is always on the list for its size. */
module HeapPlacement {
  import opened Layout
  import opened Tags
  import opened FreeLists
  import opened HeapModel
  import opened HeapRuns
  import opened HeapSearch
  import opened HeapGrowth

  /** A reachable heap with one populated list, on which a is a block of this size. */
  ghost predicate Alone(h: Heap, i: int, a: int, size: int) {
    && Inv(AsCoded, h) && Reachable(AsCoded, h)
    && 0 <= i < N_LISTS && h.lists == OneOn(i, a) && IsFree(h.blocks, a) && h.blocks[a].size == size
  }

  /** The free block is on the list for its size. */
  predicate OnItsList(h: Heap, a: int)
    requires a in h.blocks && h.blocks[a].size >= 24
  {
    InList(h.lists, SizeToIndex(h.blocks[a].size), a)
  }

  lemma AloneOffItsList(h: Heap, i: int, a: int, size: int)
    requires Alone(h, i, a, size) && size >= 24 && i != SizeToIndex(size)
    ensures !OnItsList(h, a)
  {}

  // ---------------------------------------------------------------- the blocks of 472 and 480 bytes

  /** Taking from the right end of the only free block leaves it where it is, if neither size has a
      list below 56. */
  lemma TakeStays(h: Heap, i: int, a: int, size: int, t: int)
    requires Alone(h, i, a, size) && HEADER <= t < TWO_TO_THE_64 && t % 8 == 0 && SizeToIndex(t) <= i
    requires size - t >= 472
    ensures Legal(h, MallocOp(t - ALLOC_HEADER, []))
    ensures Alone(After(AsCoded, h, MallocOp(t - ALLOC_HEADER, [])), i, a, size - t)
  {
    hide Inv, Reachable, After, Fit, RequestSize, OneOn, Take, Tiled, SizeToIndex;
    RequestOf(t);
    FitOn(h, i, a, t);
    HeapIsAbove(h, a);
    MallocTakes(h, t - ALLOC_HEADER, a);
    var op := MallocOp(t - ALLOC_HEADER, []);
    TakeSplits(h, a, size, t);
    ReachableExtends(AsCoded, h, op);
  }

  lemma HeapIsAbove(h: Heap, a: int)
    requires Inv(AsCoded, h) && a in h.blocks
    ensures a != NULL && Tiled(h.blocks) && |h.lists| == N_LISTS
  {}

  lemma TakeSplits(h: Heap, a: int, size: int, t: int)
    requires Inv(AsCoded, h) && Tiled(h.blocks) && IsFree(h.blocks, a) && h.blocks[a].size == size && |h.lists| == N_LISTS
    requires HEADER <= t && t % 8 == 0 && size - t >= 472
    ensures Inv(AsCoded, Take(AsCoded, h, a, t))
    ensures var h' := Take(AsCoded, h, a, t);
      h'.lists == h.lists && IsFree(h'.blocks, a) && h'.blocks[a].size == size - t
  {
    TakeKeeps(AsCoded, h, a, t);
    Neighbours(h.blocks, a);
  }

  /** After one call of malloc the only free block has 472 or 480 bytes and is on list 58. */
  lemma FirstTakeIsOff(base: int, size: int) returns (h: Heap)
    requires base >= HEAP_BASE && base % 8 == 0 && (size == 472 || size == 480)
    ensures Alone(h, 58, base + 16, size)
  {
    InitIs(base);
    assert Runs(AsCoded, Init(base), [], Init(base));
    assert SizeToIndex(992 - size) <= 58;
    TakeStays(Init(base), 58, base + 16, 992, 992 - size);
    h := After(AsCoded, Init(base), MallocOp(992 - size - ALLOC_HEADER, []));
  }

  // ---------------------------------------------------------------- larger blocks on list 56

  /** The tail of the stuck heap grows by a chunk where it is. */
  lemma TailGrows(h: Heap, size: int) returns (h': Heap)
    requires h.last in h.blocks && Alone(h, 56, Tail(h), size) && size >= 472
    ensures h'.last in h'.blocks && Alone(h', 56, Tail(h'), size + ARENA)
  {
    hide Inv, Reachable, Grow, Fit, OneOn, Tail, TailRoom, IsFree;
    TailIs(h, size);
    GrowKeeps(AsCoded, h, 0);
    GrowLargeTail(h);
    h' := Grow(AsCoded, h, 0);
    TailIs(h', size + ARENA);
    NoFit(h, Tail(h));
    NoFit(h', Tail(h));
    TwoFailures(h, h');
    ReachableExtends(AsCoded, h, MallocOp(464, [Moved(0)]));
  }

  lemma TailIs(h: Heap, size: int)
    requires h.last in h.blocks && size > 0
    ensures IsFree(h.blocks, Tail(h)) && h.blocks[Tail(h)].size == size <==> TailRoom(h) == size
  {}

  /** A request for which neither the heap nor the heap grown by one chunk has a block. */
  lemma TwoFailures(h: Heap, h': Heap)
    requires Inv(AsCoded, h) && Inv(AsCoded, h') && h' == Grow(AsCoded, h, 0)
    requires Fit(AsCoded, h, 480) == NULL && Fit(AsCoded, h', 480) == NULL
    ensures Legal(h, MallocOp(464, [Moved(0)])) && After(AsCoded, h, MallocOp(464, [Moved(0)])) == h'
  {
    assert RequestSize(464) == 480;
    hide Inv, Grow, Fit, RequestSize;
    assert Allocate(AsCoded, h', 480, []).heap == h';
    assert Allocate(AsCoded, h, 480, [Moved(0)]).heap == h';
  }

  lemma NoFit(h: Heap, a: int)
    requires Inv(AsCoded, h) && h.lists == OneOn(56, a)
    ensures Fit(AsCoded, h, 480) == NULL
  {
    var j := NextPopulated(h.lists, SizeToIndex(480));
    assert SizeToIndex(480) == 57 && h.lists[j] == [];
  }

  lemma StuckIs(base: int)
    ensures var h := StuckHeap(base);
      && h.last in h.blocks && Tail(h) == base + 536 && h.lists == OneOn(56, base + 536)
      && IsFree(h.blocks, base + 536) && h.blocks[base + 536].size == 472
  {
    hide OneOn;
  }

  lemma StuckAlone(base: int)
    requires base >= HEAP_BASE && base % 8 == 0
    ensures var h := StuckHeap(base); h.last in h.blocks && Alone(h, 56, Tail(h), 472)
  {
    hide StuckHeap, Inv, Reachable, OneOn, Tail, IsFree;
    StuckIs(base);
    StuckIsReachable(base);
  }

  lemma {:induction false} TailGrown(base: int, n: nat) returns (h: Heap)
    requires base >= HEAP_BASE && base % 8 == 0
    ensures h.last in h.blocks && Alone(h, 56, Tail(h), 472 + ARENA * n)
    decreases n
  {
    hide Alone, Tail;
    if n == 0 {
      StuckAlone(base);
      h := StuckHeap(base);
    } else {
      var h1 := TailGrown(base, n - 1);
      h := TailGrows(h1, 472 + ARENA * (n - 1));
    }
  }

  /** Any smaller size from 472 bytes on can be left of it. */
  lemma {:induction false} Shrunk(h: Heap, a: int, size: int, to: int) returns (h': Heap)
    requires Alone(h, 56, a, size) && 472 <= to && size % 8 == 0 && to % 8 == 0 && (size == to || size - to >= HEADER)
    ensures Alone(h', 56, a, to)
    decreases size - to
  {
    hide Alone;
    if size == to {
      h' := h;
    } else {
      var t := if size - to <= 472 then size - to else 256;
      ShrinksTo(h, a, size, t);
      h' := Shrunk(After(AsCoded, h, MallocOp(t - ALLOC_HEADER, [])), a, size - t, to);
    }
  }

  lemma ShrinksTo(h: Heap, a: int, size: int, t: int)
    requires Alone(h, 56, a, size) && HEADER <= t <= 472 && t % 8 == 0 && size - t >= 472
    ensures Inv(AsCoded, h) && Legal(h, MallocOp(t - ALLOC_HEADER, []))
    ensures Alone(After(AsCoded, h, MallocOp(t - ALLOC_HEADER, [])), 56, a, size - t)
  {
    assert SizeToIndex(t) <= 56;
    TakeStays(h, 56, a, size, t);
  }

  // ---------------------------------------------------------------- over all runs

  /** The tail of the stuck heap after one more chunk: 1496 bytes on list 56, whose list is 58. */
  lemma StuckTailIsMisplaced(base: int) returns (h: Heap)
    requires base >= HEAP_BASE && base % 8 == 0
    ensures h.last in h.blocks && Alone(h, 56, Tail(h), 1496) && SizeToIndex(1496) == 58 && !OnItsList(h, Tail(h))
  {
    h := TailGrown(base, 1);
    AloneOffItsList(h, 56, Tail(h), 1496);
  }

  /** Every size from 472 on is the size of a misplaced block of some reachable heap. */
  lemma MisplacedBlock(size: int) returns (h: Heap, a: int)
    requires size >= 472 && size % 8 == 0
    ensures Reachable(AsCoded, h) && IsFree(h.blocks, a) && h.blocks[a].size == size && !OnItsList(h, a)
  {
    if size <= 480 {
      h := FirstTakeIsOff(HEAP_BASE, size);
      a := HEAP_BASE + 16;
      AloneOffItsList(h, 58, a, size);
    } else {
      var h1 := TailGrown(HEAP_BASE, size);
      a := Tail(h1);
      h := Shrunk(h1, a, 472 + ARENA * size, size);
      AloneOffItsList(h, 56, a, size);
    }
  }

  /** In all runs every free block of this size is on the list for its size, if and only if the size
      is below 472. */
  lemma PlacementIsExactBelow(size: int)
    requires size >= HEADER && size % 8 == 0
    ensures (forall h, a :: Reachable(AsCoded, h) && IsFree(h.blocks, a) && h.blocks[a].size == size ==> OnItsList(h, a))
            <==> size < 472
  {
    if size < 472 {
      forall h, a | Reachable(AsCoded, h) && IsFree(h.blocks, a) && h.blocks[a].size == size
        ensures OnItsList(h, a)
      {
        ReachableKeeps(AsCoded, h);
        assert InList(h.lists, Home(h.lists, a), a);
      }
    } else {
      var h, a := MisplacedBlock(size);
    }
  }

  /** With a guard that compares list indices it would be exact for all sizes. */
  lemma PlacementByIndex(h: Heap, a: int)
    requires Reachable(ByIndex, h) && IsFree(h.blocks, a)
    ensures h.blocks[a].size >= 24 && OnItsList(h, a)
  {
    ReachableKeeps(ByIndex, h);
    assert InList(h.lists, Home(h.lists, a), a);
  }
}
