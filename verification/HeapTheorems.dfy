/** What malloc and free guarantee their callers, over all heaps that runs can reach. */
module HeapTheorems {
  import opened Layout
  import opened Tags
  import opened FreeLists
  import opened HeapModel
  import opened HeapRuns

  // ---------------------------------------------------------------- live blocks

  /** The size of a block in use, and 0 for every other address. */
  function UsedSize(bs: Blocks, a: int): int {
    if IsUsed(bs, a) then bs[a].size else 0
  }

  /** The blocks handed out and not yet freed, with their sizes. */
  function Live(bs: Blocks): map<int, int> {
    map a | a in bs && bs[a].kind.Used? :: UsedSize(bs, a)
  }

  lemma CoalesceLive(g: Guard, h: Heap, a: int)
    requires Tiled(h.blocks) && IsFree(h.blocks, a) && |h.lists| == N_LISTS
    ensures Live(Coalesce(g, h, a).blocks) == Live(h.blocks)
    ensures Coalesce(g, h, a).last == h.last && Coalesce(g, h, a).chunks == h.chunks
  {
    var bs := h.blocks;
    Neighbours(bs, a);
    var l, r := LeftOf(bs, a), RightOf(bs, a);
    if IsFree(bs, l) {
      if IsFree(bs, r) {
        Neighbours(bs, r);
      }
    } else if IsFree(bs, r) {
      Neighbours(bs, r);
    }
  }

  /** free takes exactly the freed block out of the live blocks. */
  lemma ReleaseLive(g: Guard, h: Heap, a: int)
    requires Inv(g, h) && IsUsed(h.blocks, a)
    ensures Live(Release(g, h, a).blocks) == Live(h.blocks) - {a}
  {
    SetKindTiled(h.blocks, a, Free);
    CoalesceLive(g, h.(blocks := SetKind(h.blocks, a, Free)), a);
    assert Live(SetKind(h.blocks, a, Free)) == Live(h.blocks) - {a};
  }

  lemma TakeLive(g: Guard, h: Heap, a: int, size: int)
    requires Inv(g, h) && IsFree(h.blocks, a)
    requires HEADER <= size <= h.blocks[a].size && size % 8 == 0
    ensures var bs', b := Take(g, h, a, size).blocks, Taken(h, a, size);
      b !in Live(h.blocks) && b in bs' && bs'[b].size >= size && Live(bs') == Live(h.blocks)[b := bs'[b].size]
  {
    TakenIsUsed(g, h, a, size);
    Neighbours(h.blocks, a);
    if h.blocks[a].size >= size + HEADER {
      SplitTiled(h.blocks, a, size);
    }
  }

  lemma GrowLive(g: Guard, h: Heap, words: nat)
    requires Inv(g, h)
    ensures Live(Grow(g, h, words).blocks) == Live(h.blocks)
  {
    if words == 0 {
      SwallowFenceTiled(h.blocks, h.last);
      var mid := SwallowFence(h.blocks, h.last);
      CoalesceLive(g, h.(blocks := mid, last := h.last + ARENA), h.last);
      assert Live(mid) == Live(h.blocks);
    }
  }

  /** A failed allocation leaves the live blocks alone; a successful one adds exactly one, which was
      not live before and has the size asked for. */
  lemma {:induction false} AllocateLive(g: Guard, h: Heap, size: int, os: seq<Sbrk>)
    requires Inv(g, h) && size >= HEADER && size % 8 == 0
    ensures var o := Allocate(g, h, size, os);
      if o.block == NULL then Live(o.heap.blocks) == Live(h.blocks)
      else
        && o.block !in Live(h.blocks) && o.heap.blocks[o.block].size >= size
        && Live(o.heap.blocks) == Live(h.blocks)[o.block := o.heap.blocks[o.block].size]
    decreases |os|
  {
    FitFinds(g, h, size);
    var a := Fit(g, h, size);
    if a != NULL {
      TakeLive(g, h, a, size);
    } else if os != [] && os[0].Moved? {
      GrowKeeps(g, h, os[0].words);
      GrowLive(g, h, os[0].words);
      AllocateLive(g, Grow(g, h, os[0].words), size, os[1..]);
    }
  }

  /** Two byte ranges have no byte in common. */
  predicate Disjoint(lo: int, hi: int, lo': int, hi': int) {
    hi <= lo' || hi' <= lo
  }

  function HeaderEnd(bs: Blocks, b: int): int
    requires b in bs
  {
    b + if bs[b].kind.Free? then HEADER else ALLOC_HEADER
  }

  /** The bytes after the allocated header of a live block meet no header and no other block. */
  lemma PayloadApart(bs: Blocks, a: int)
    requires Tiled(bs) && IsUsed(bs, a)
    ensures forall b :: b in bs ==> Disjoint(a + ALLOC_HEADER, RightOf(bs, a), b, HeaderEnd(bs, b))
    ensures forall b :: b in bs && b != a ==> Disjoint(a, RightOf(bs, a), b, RightOf(bs, b))
  {
    forall b | b in bs && b != a ensures Disjoint(a, RightOf(bs, a), b, RightOf(bs, b)) {
      assert Apart(bs, b, a) && Apart(bs, a, b);
    }
  }

  /** The block handed out is at most a Header larger than asked for. */
  lemma {:induction false} AllocateTight(g: Guard, h: Heap, size: int, os: seq<Sbrk>)
    requires Inv(g, h) && size >= HEADER && size % 8 == 0
    ensures var o := Allocate(g, h, size, os);
      o.block != NULL ==> size <= o.heap.blocks[o.block].size < size + HEADER
    decreases |os|
  {
    FitFinds(g, h, size);
    hide Inv, Fit, Grow;
    var a := Fit(g, h, size);
    if a != NULL {
      TakeTight(g, h, a, size);
    } else if os != [] && os[0].Moved? {
      GrowKeeps(g, h, os[0].words);
      AllocateTight(g, Grow(g, h, os[0].words), size, os[1..]);
    }
  }

  lemma TakeTight(g: Guard, h: Heap, a: int, size: int)
    requires Inv(g, h) && IsFree(h.blocks, a)
    requires HEADER <= size <= h.blocks[a].size && size % 8 == 0
    ensures var bs, b := Take(g, h, a, size).blocks, Taken(h, a, size);
      b in bs && size <= bs[b].size < size + HEADER
  {
    TakenIsUsed(g, h, a, size);
    Neighbours(h.blocks, a);
  }

  /** A non-NULL result is aligned and one new live block; there is room for the request in it if and
      only if the size sum does not wrap, and then the payload meets neither a header of any block nor
      any other block. */
  lemma AllocationSafety(g: Guard, h: Heap, raw: nat, os: seq<Sbrk>)
    requires Inv(g, h) && raw < TWO_TO_THE_64
    ensures var o := Malloc(g, h, raw, os); var p := o.block + ALLOC_HEADER; var bs := o.heap.blocks;
      o.block != NULL ==>
        && raw > 0 && p % 8 == 0
        && Live(bs) == Live(h.blocks)[o.block := bs[o.block].size] && o.block !in Live(h.blocks)
        && (p + raw <= RightOf(bs, o.block) <==> raw + ALLOC_HEADER + 7 < TWO_TO_THE_64)
        && (raw + ALLOC_HEADER + 7 < TWO_TO_THE_64 ==>
              && (forall b :: b in bs ==> Disjoint(p, p + raw, b, HeaderEnd(bs, b)))
              && (forall b :: b in bs && b != o.block ==> Disjoint(p, p + raw, b, RightOf(bs, b))))
  {
    hide *;
    RequestSizeExact(raw);
    WrappedSize(raw);
    MallocIs(g, h, raw, os);
    if raw > 0 {
      var o := Allocate(g, h, RequestSize(raw), os);
      AllocateLive(g, h, RequestSize(raw), os);
      AllocateTight(g, h, RequestSize(raw), os);
      if o.block != NULL {
        UsedIsAligned(g, o.heap, o.block);
        if raw + ALLOC_HEADER + 7 < TWO_TO_THE_64 {
          UsedIsApart(g, o.heap, o.block, raw);
        }
      }
    }
  }

  lemma MallocIs(g: Guard, h: Heap, raw: nat, os: seq<Sbrk>)
    requires Inv(g, h)
    ensures raw == 0 ==> Malloc(g, h, raw, os).block == NULL
    ensures raw > 0 ==> Malloc(g, h, raw, os) == Allocate(g, h, RequestSize(raw), os)
  {
    hide Inv, Allocate;
  }

  /** A sum that wraps asks for a block of the least size. */
  lemma WrappedSize(raw: nat)
    requires raw < TWO_TO_THE_64
    ensures raw + ALLOC_HEADER + 7 >= TWO_TO_THE_64 ==> RequestSize(raw) == HEADER && raw + ALLOC_HEADER >= 2 * HEADER
  {
    if raw + ALLOC_HEADER + 7 >= TWO_TO_THE_64 {
      assert (raw + ALLOC_HEADER + 7) % TWO_TO_THE_64 == raw + ALLOC_HEADER + 7 - TWO_TO_THE_64;
    }
  }

  lemma UsedIsAligned(g: Guard, h: Heap, a: int)
    requires Inv(g, h) && IsUsed(h.blocks, a)
    ensures a in h.blocks && (a + ALLOC_HEADER) % 8 == 0 && RightOf(h.blocks, a) == a + h.blocks[a].size
  {}

  lemma UsedIsApart(g: Guard, h: Heap, a: int, raw: nat)
    requires Inv(g, h) && IsUsed(h.blocks, a) && h.blocks[a].size >= raw + ALLOC_HEADER
    ensures var p, bs := a + ALLOC_HEADER, h.blocks;
      && p % 8 == 0 && p + raw <= RightOf(bs, a)
      && (forall b :: b in bs ==> Disjoint(p, p + raw, b, HeaderEnd(bs, b)))
      && (forall b :: b in bs && b != a ==> Disjoint(p, p + raw, b, RightOf(bs, b)))
  {
    PayloadApart(h.blocks, a);
  }

  // ---------------------------------------------------------------- round trips

  lemma SplitThenMerge(bs: Blocks, a: int, size: int)
    requires Tiled(bs) && IsFree(bs, a) && HEADER <= size && size + HEADER <= bs[a].size && size % 8 == 0
    requires RightOf(bs, a) in bs && !IsFree(bs, RightOf(bs, a))
    ensures var b, r := a + bs[a].size - size, RightOf(bs, a);
      && b in Split(bs, a, size)
      && var mid := SetKind(Split(bs, a, size), b, Free);
      && a in mid && b in mid && r in mid && IsFree(mid, a) && !IsFree(mid, r)
      && LeftOf(mid, b) == a && RightOf(mid, b) == r && RightOf(mid, a) == b && Merge(mid, a) == bs
  {
    SplitTiled(bs, a, size);
    assert JoinsRight(bs, a);
  }

  /** Freeing at once what was just taken restores every block, whether it was split off or whole. */
  lemma TakeThenRelease(g: Guard, h: Heap, a: int, size: int)
    requires Inv(g, h) && IsFree(h.blocks, a)
    requires HEADER <= size <= h.blocks[a].size && size % 8 == 0
    ensures var h' := Take(g, h, a, size); var b := Taken(h, a, size);
      && Inv(g, h') && IsUsed(h'.blocks, b) && Release(g, h', b) == h.(lists := Release(g, h', b).lists)
  {
    TakeKeeps(g, h, a, size);
    TakenIsUsed(g, h, a, size);
    if h.blocks[a].size >= size + HEADER {
      PartThenRelease(g, h, a, size);
    } else {
      WholeThenRelease(g, h, a, size);
    }
  }

  /** What free makes of the blocks if the right neighbour is not free. */
  lemma ReleaseBlocks(g: Guard, h: Heap, a: int)
    requires Tiled(h.blocks) && IsUsed(h.blocks, a) && |h.lists| == N_LISTS
    requires !IsFree(h.blocks, RightOf(h.blocks, a))
    ensures LeftOf(h.blocks, a) in h.blocks
    ensures var mid, l, h' := SetKind(h.blocks, a, Free), LeftOf(h.blocks, a), Release(g, h, a);
      if !IsFree(h.blocks, l) then h' == h.(blocks := mid, lists := h'.lists)
      else RightOf(mid, l) == a && RightOf(mid, a) in mid && h' == h.(blocks := Merge(mid, l), lists := h'.lists)
  {
    Neighbours(h.blocks, a);
    SetKindTiled(h.blocks, a, Free);
    hide Move, Insert, Tiled;
  }

  lemma PartThenRelease(g: Guard, h: Heap, a: int, size: int)
    requires Inv(g, h) && IsFree(h.blocks, a)
    requires HEADER <= size && size + HEADER <= h.blocks[a].size && size % 8 == 0
    requires Inv(g, Take(g, h, a, size)) && IsUsed(Take(g, h, a, size).blocks, Taken(h, a, size))
    ensures var h', b := Take(g, h, a, size), Taken(h, a, size);
      Release(g, h', b) == h.(lists := Release(g, h', b).lists)
  {
    Neighbours(h.blocks, a);
    RightOfFreeIsNotFree(h.blocks, a, NULL);
    var h', b := Take(g, h, a, size), Taken(h, a, size);
    SplitThenMerge(h.blocks, a, size);
    assert Tiled(h'.blocks) && |h'.lists| == N_LISTS;
    hide Coalesce, Release, Move, Merge, Tiled, Coalesced, ListsAgree, Bounded;
    ReleaseBlocks(g, h', b);
  }

  lemma WholeThenRelease(g: Guard, h: Heap, a: int, size: int)
    requires Inv(g, h) && IsFree(h.blocks, a)
    requires HEADER <= size <= h.blocks[a].size < size + HEADER
    requires Inv(g, Take(g, h, a, size)) && IsUsed(Take(g, h, a, size).blocks, a)
    ensures var h' := Take(g, h, a, size);
      Release(g, h', a) == h.(lists := Release(g, h', a).lists)
  {
    Neighbours(h.blocks, a);
    RightOfFreeIsNotFree(h.blocks, a, NULL);
    LeftOfFreeIsNotFree(h.blocks, a, NULL);
    assert SetKind(SetKind(h.blocks, a, Used), a, Free) == h.blocks;
    var h' := Take(g, h, a, size);
    assert Tiled(h'.blocks) && |h'.lists| == N_LISTS;
    hide Coalesce, Release, Remove, Merge, Tiled, Coalesced, ListsAgree, Bounded;
    ReleaseBlocks(g, h', a);
  }

  /** malloc followed at once by free gives back the same blocks whenever no chunk was added. */
  lemma MallocThenFree(g: Guard, h: Heap, raw: nat, os: seq<Sbrk>)
    requires Inv(g, h) && Malloc(g, h, raw, os).block != NULL && Malloc(g, h, raw, os).os == os
    ensures var o := Malloc(g, h, raw, os);
      var h' := Release(g, o.heap, o.block);
      h'.blocks == h.blocks && h'.chunks == h.chunks && h'.last == h.last
  {
    var size := RequestSize(raw);
    hide Inv, Allocate, Take, Taken, Release, Fit, RequestSize, IsFree;
    AllocateAtOnce(g, h, size, os);
    TakeThenRelease(g, h, Fit(g, h, size), size);
  }

  /** An allocation that asks sbrk for nothing takes the block that the first search finds. */
  lemma AllocateAtOnce(g: Guard, h: Heap, size: int, os: seq<Sbrk>)
    requires Inv(g, h) && size >= HEADER && size % 8 == 0
    requires Allocate(g, h, size, os).block != NULL && Allocate(g, h, size, os).os == os
    ensures var a, o := Fit(g, h, size), Allocate(g, h, size, os);
      && IsFree(h.blocks, a) && h.blocks[a].size >= size
      && o.heap == Take(g, h, a, size) && o.block == Taken(h, a, size)
  {
    FitFinds(g, h, size);
    hide Fit, Take, Inv, Grow, Taken;
    if Fit(g, h, size) == NULL {
      GrowKeeps(g, h, os[0].words);
      AllocateConsumes(g, Grow(g, h, os[0].words), size, os[1..]);
    }
  }

  lemma {:induction false} AllocateConsumes(g: Guard, h: Heap, size: int, os: seq<Sbrk>)
    requires Inv(g, h) && size >= HEADER && size % 8 == 0
    ensures |Allocate(g, h, size, os).os| <= |os|
    decreases |os|
  {
    FitFinds(g, h, size);
    if Fit(g, h, size) == NULL && os != [] && os[0].Moved? {
      GrowKeeps(g, h, os[0].words);
      AllocateConsumes(g, Grow(g, h, os[0].words), size, os[1..]);
    }
  }

  // ---------------------------------------------------------------- everything freed

  predicate FillsRegion(bs: Blocks, a: int) {
    && a - ALLOC_HEADER in bs && bs[a - ALLOC_HEADER].kind.LeftFence?
    && a in bs && RightOf(bs, a) in bs && bs[RightOf(bs, a)].kind.RightFence?
  }

  /** With nothing live, each region is one free block between its fenceposts, and there is no other
      free block. */
  lemma NothingLiveIsOneBlockPerChunk(g: Guard, h: Heap)
    requires Inv(g, h) && Live(h.blocks) == map[]
    ensures forall a :: IsFree(h.blocks, a) ==> a - ALLOC_HEADER in h.chunks && FillsRegion(h.blocks, a)
    ensures forall c :: c in h.chunks ==> IsFree(h.blocks, c + ALLOC_HEADER)
  {
    var bs := h.blocks;
    forall a ensures !IsUsed(bs, a) {
      assert a !in Live(bs);
    }
    forall a | IsFree(bs, a)
      ensures a - ALLOC_HEADER in h.chunks && FillsRegion(bs, a)
    {
      Neighbours(bs, a);
      RightOfFreeIsNotFree(bs, a, NULL);
      LeftOfFreeIsNotFree(bs, a, NULL);
      assert !IsUsed(bs, LeftOf(bs, a)) && !IsUsed(bs, RightOf(bs, a));
    }
    forall c | c in h.chunks ensures IsFree(bs, c + ALLOC_HEADER) {
      assert JoinsRight(bs, c) && !IsUsed(bs, c + ALLOC_HEADER);
    }
  }
}
