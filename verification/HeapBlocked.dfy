/** A run of six calls into a heap in which no answers of sbrk at all satisfy a certain request. */
module HeapBlocked {
  import opened Layout
  import opened Tags
  import opened FreeLists
  import opened HeapModel
  import opened HeapRuns
  import opened HeapSearch
  import opened HeapGrowth

  /** A free block of 512 bytes on list i, and 480 bytes in use. */
  function TwoParts(base: int, i: int): Heap
    requires 0 <= i < N_LISTS
  {
    Heap(map[base := Block(16, 16, LeftFence),
             base + 16 := Block(512, 16, Free),
             base + 528 := Block(480, 512, Used),
             base + 1008 := Block(16, 480, RightFence)],
         OneOn(i, base + 16), [base], base + 1008)
  }

  /** The 512 bytes as blocks of 480 and 32 bytes, the second of which is in use. */
  function ThreeParts(base: int, k: Kind, lists: Lists): Heap {
    Heap(map[base := Block(16, 16, LeftFence),
             base + 16 := Block(480, 16, k),
             base + 496 := Block(32, 480, Used),
             base + 528 := Block(480, 32, Used),
             base + 1008 := Block(16, 480, RightFence)],
         lists, [base], base + 1008)
  }

  /** The 512 bytes as a free block of 472 bytes on list 57 and 40 bytes in use. */
  function BlockedHeap(base: int): Heap {
    Heap(map[base := Block(16, 16, LeftFence),
             base + 16 := Block(472, 16, Free),
             base + 488 := Block(40, 472, Used),
             base + 528 := Block(480, 40, Used),
             base + 1008 := Block(16, 480, RightFence)],
         OneOn(57, base + 16), [base], base + 1008)
  }

  /** The heap of the constructor: one free block of 992 bytes on list 58, between two fenceposts. */
  lemma InitialHeap(base: int)
    ensures Init(base) ==
            Heap(map[base := Block(16, 16, LeftFence),
                     base + 16 := Block(992, 16, Free),
                     base + 1008 := Block(16, 992, RightFence)],
                 OneOn(58, base + 16), [base], base + 1008)
  {
    FirstInsert(NoneOn(), base + 16, 992);
  }

  lemma Requests()
    ensures RequestSize(464) == 480 && RequestSize(16) == 32 && RequestSize(24) == 40
    ensures SizeToIndex(480) == 57 && SizeToIndex(32) == 1 && SizeToIndex(40) == 2
  {}

  /** A call of malloc that takes from the only free block. */
  lemma MallocStep(h: Heap, raw: nat, size: int, i: int, a: int)
    requires Inv(AsCoded, h) && RequestSize(raw) == size && raw > 0 && a >= HEAP_BASE
    requires 0 <= i < N_LISTS && h.lists == OneOn(i, a) && IsFree(h.blocks, a)
    requires HEADER <= size <= h.blocks[a].size && SizeToIndex(size) <= i
    ensures Tiled(h.blocks) && |h.lists| == N_LISTS
    ensures After(AsCoded, h, MallocOp(raw, [])) == Take(AsCoded, h, a, size)
  {
    FitOn(h, i, a, size);
    hide Fit, Take, RequestSize, After, OneOn;
    MallocTakes(h, raw, a);
  }

  /** A block split off the right end, when the rest stays on its list. */
  lemma TakesPart(h: Heap, a: int, size: int)
    requires Tiled(h.blocks) && IsFree(h.blocks, a) && |h.lists| == N_LISTS
    requires HEADER <= size && h.blocks[a].size - size >= 472
    ensures RightOf(h.blocks, a) in h.blocks
    ensures Take(AsCoded, h, a, size) == h.(blocks := Split(h.blocks, a, size))
  {
    Neighbours(h.blocks, a);
  }

  lemma FirstCall(base: int)
    requires base >= HEAP_BASE && base % 8 == 0
    ensures Inv(AsCoded, Init(base)) && After(AsCoded, Init(base), MallocOp(464, [])) == TwoParts(base, 58)
  {
    var h := Init(base);
    InitIs(base);
    Requests();
    FirstSplit(base);
    hide Inv, After, Take, Tiled, RequestSize, OneOn, Split, Init;
    MallocStep(h, 464, 480, 58, base + 16);
    TakesPart(h, base + 16, 480);
  }

  lemma FirstSplit(base: int)
    ensures var h := Init(base);
      && base + 16 in h.blocks && RightOf(h.blocks, base + 16) in h.blocks && h.chunks == [base] && h.last == base + 1008
      && Split(h.blocks, base + 16, 480) == TwoParts(base, 58).blocks
  {}

  lemma SecondCall(base: int)
    requires Inv(AsCoded, TwoParts(base, 58)) && base >= HEAP_BASE
    ensures After(AsCoded, TwoParts(base, 58), MallocOp(16, [])) == ThreeParts(base, Free, OneOn(58, base + 16))
  {
    var h := TwoParts(base, 58);
    Requests();
    SecondSplit(base, h.lists);
    hide Inv, After, Take, Tiled, RequestSize, OneOn, Split;
    MallocStep(h, 16, 32, 58, base + 16);
    TakesPart(h, base + 16, 32);
  }

  lemma SecondSplit(base: int, lists: Lists)
    ensures var bs := TwoParts(base, 58).blocks;
      && base + 16 in bs && RightOf(bs, base + 16) in bs
      && Split(bs, base + 16, 32) == ThreeParts(base, Free, lists).blocks
  {}

  lemma ThirdCall(base: int)
    requires Inv(AsCoded, ThreeParts(base, Free, OneOn(58, base + 16))) && base >= HEAP_BASE
    ensures After(AsCoded, ThreeParts(base, Free, OneOn(58, base + 16)), MallocOp(464, [])) ==
            ThreeParts(base, Used, NoneOn())
  {
    var h := ThreeParts(base, Free, OneOn(58, base + 16));
    Requests();
    hide Inv, After, Tiled, RequestSize, OneOn, NoneOn, Remove;
    MallocStep(h, 464, 480, 58, base + 16);
    LastRemove(58, base + 16);
    assert SetKind(h.blocks, base + 16, Used) == ThreeParts(base, Used, NoneOn()).blocks;
  }

  lemma FourthCall(base: int)
    requires Inv(AsCoded, ThreeParts(base, Used, NoneOn())) && base >= HEAP_BASE
    ensures Legal(ThreeParts(base, Used, NoneOn()), FreeOp(base + 32))
    ensures After(AsCoded, ThreeParts(base, Used, NoneOn()), FreeOp(base + 32)) ==
            ThreeParts(base, Free, OneOn(57, base + 16))
  {
    var h := ThreeParts(base, Used, NoneOn());
    ReleaseKeeps(AsCoded, h, base + 16);
    FirstInsert(NoneOn(), base + 16, 480);
    assert SetKind(h.blocks, base + 16, Free) == ThreeParts(base, Free, NoneOn()).blocks;
  }

  lemma FifthCall(base: int)
    requires Inv(AsCoded, ThreeParts(base, Free, OneOn(57, base + 16))) && base >= HEAP_BASE
    ensures Legal(ThreeParts(base, Free, OneOn(57, base + 16)), FreeOp(base + 512))
    ensures After(AsCoded, ThreeParts(base, Free, OneOn(57, base + 16)), FreeOp(base + 512)) == TwoParts(base, 57)
  {
    var h, x := ThreeParts(base, Free, OneOn(57, base + 16)), base + 496;
    ReleaseKeeps(AsCoded, h, x);
    FifthMerge(base, h.lists);
    assert Tiled(h.blocks) && |h.lists| == N_LISTS;
    hide Inv, Release, Merge, Tiled, OneOn;
    FreedIntoLeft(h, x);
  }

  lemma FifthMerge(base: int, lists: Lists)
    ensures var bs, x := ThreeParts(base, Free, lists).blocks, base + 496;
      && IsUsed(bs, x) && LeftOf(bs, x) == base + 16 && IsFree(bs, base + 16) && bs[base + 16].size == 480
      && RightOf(bs, x) in bs && !IsFree(bs, RightOf(bs, x)) && x in bs
      && var mid := SetKind(bs, x, Free);
      && RightOf(mid, base + 16) == x && RightOf(mid, x) in mid && Merge(mid, base + 16) == TwoParts(base, 57).blocks
  {}

  /** free of a block between a free one of at least 472 bytes and one in use. */
  lemma FreedIntoLeft(h: Heap, a: int)
    requires Tiled(h.blocks) && IsUsed(h.blocks, a) && |h.lists| == N_LISTS
    requires var l := LeftOf(h.blocks, a); IsFree(h.blocks, l) && h.blocks[l].size >= 472
    requires !IsFree(h.blocks, RightOf(h.blocks, a))
    ensures var mid, l := SetKind(h.blocks, a, Free), LeftOf(h.blocks, a);
      && RightOf(mid, l) == a && RightOf(mid, a) in mid
      && Release(AsCoded, h, a) == h.(blocks := Merge(mid, l))
  {
    Neighbours(h.blocks, a);
    SetKindTiled(h.blocks, a, Free);
    Neighbours(SetKind(h.blocks, a, Free), a);
    hide Tiled, Merge;
  }

  lemma SixthCall(base: int)
    requires Inv(AsCoded, TwoParts(base, 57)) && base >= HEAP_BASE
    ensures After(AsCoded, TwoParts(base, 57), MallocOp(24, [])) == BlockedHeap(base)
  {
    var h := TwoParts(base, 57);
    Requests();
    SixthSplit(base);
    hide Inv, After, Take, Tiled, RequestSize, OneOn, Split;
    MallocStep(h, 24, 40, 57, base + 16);
    TakesPart(h, base + 16, 40);
  }

  lemma SixthSplit(base: int)
    ensures var bs := TwoParts(base, 57).blocks;
      && base + 16 in bs && RightOf(bs, base + 16) in bs
      && Split(bs, base + 16, 40) == BlockedHeap(base).blocks
  {}

  lemma BlockedIsReachable(base: int)
    requires base >= HEAP_BASE && base % 8 == 0
    ensures Reachable(AsCoded, BlockedHeap(base)) && Inv(AsCoded, BlockedHeap(base))
  {
    hide Inv, Reachable, After, Legal, Init, TwoParts, ThreeParts, BlockedHeap, OneOn, NoneOn;
    FirstCall(base);
    InitIsReachable(base);
    Extends(Init(base), MallocOp(464, []));
    SecondCall(base);
    Extends(TwoParts(base, 58), MallocOp(16, []));
    ThirdCall(base);
    Extends(ThreeParts(base, Free, OneOn(58, base + 16)), MallocOp(464, []));
    FourthCall(base);
    Extends(ThreeParts(base, Used, NoneOn()), FreeOp(base + 32));
    FifthCall(base);
    Extends(ThreeParts(base, Free, OneOn(57, base + 16)), FreeOp(base + 512));
    SixthCall(base);
    Extends(TwoParts(base, 57), MallocOp(24, []));
  }

  lemma InitIsReachable(base: int)
    requires base >= HEAP_BASE && base % 8 == 0
    ensures Reachable(AsCoded, Init(base))
  {
    assert Runs(AsCoded, Init(base), [], Init(base));
  }

  lemma Extends(h: Heap, op: Op)
    requires Reachable(AsCoded, h) && Inv(AsCoded, h)
    requires op.MallocOp? || Legal(h, op)
    ensures Legal(h, op) && Reachable(AsCoded, After(AsCoded, h, op)) && Inv(AsCoded, After(AsCoded, h, op))
  {
    hide Inv, Reachable, After;
    ReachableExtends(AsCoded, h, op);
  }

  /** In a reachable heap a request for 464 bytes fails whatever sbrk answers, however often. */
  lemma BlockedNeverEnds(base: int, os: seq<Sbrk>)
    requires base >= HEAP_BASE && base % 8 == 0
    ensures Reachable(AsCoded, BlockedHeap(base)) && Inv(AsCoded, BlockedHeap(base))
    ensures Malloc(AsCoded, BlockedHeap(base), 464, os).block == NULL
  {
    var h := BlockedHeap(base);
    BlockedIsReachable(base);
    Requests();
    assert h.lists[BLOCKED_LIST] == [base + 16];
    FitFinds(AsCoded, h, BLOCKED_SIZE);
    BlockedCandidates(h);
    assert Tail(h) == base + 528;
    hide Inv, Allocate, Fit, RequestSize, Reachable, Candidates;
    BlockedFails(h, os);
  }

  /** Some answers of sbrk satisfy a request for a block of this size. */
  ghost predicate Satisfiable(h: Heap, size: int)
    requires size >= HEADER && size % 8 == 0
  {
    Inv(AsCoded, h) && exists os :: Allocate(AsCoded, h, size, os).block != NULL
  }

  /** In all runs every request can be satisfied, but for those that need a block of 480 bytes. */
  lemma SatisfiableInAllRunsExactly(size: int)
    requires size >= HEADER && size % 8 == 0
    ensures (forall h :: Reachable(AsCoded, h) ==> Satisfiable(h, size)) <==> size != BLOCKED_SIZE
  {
    if size != BLOCKED_SIZE {
      forall h | Reachable(AsCoded, h) ensures Satisfiable(h, size) {
        ReachableKeeps(AsCoded, h);
        SatisfiableExactly(h, size);
      }
    } else {
      BlockedIsReachable(HEAP_BASE);
      forall os ensures Allocate(AsCoded, BlockedHeap(HEAP_BASE), size, os).block == NULL {
        BlockedNeverEnds(HEAP_BASE, os);
        Requests();
      }
      assert !Satisfiable(BlockedHeap(HEAP_BASE), size);
    }
  }
}
