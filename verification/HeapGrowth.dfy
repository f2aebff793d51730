/** The growth loop of allocate_object with the guard of move_coalesced as the code has it: exactly
    when it ends, and the block sizes for which it always does. */
module HeapGrowth {
  import opened Layout
  import opened Tags
  import opened FreeLists
  import opened HeapModel
  import opened HeapRuns
  import opened HeapSearch

  ghost function Try(h: Heap, size: int, n: nat): Outcome
    requires Inv(AsCoded, h) && size >= HEADER && size % 8 == 0
  {
    Allocate(AsCoded, h, size, Adjacent(n))
  }

  ghost predicate TailIsSearched(h: Heap, size: int)
    requires Inv(AsCoded, h) && size >= HEADER
  {
    Tail(h) in Candidates(h, size)
  }

  /** If the list that is searched has nothing to offer and is not the one that holds the tail, any
      number of adjacent chunks goes to the tail and none to the request. */
  lemma {:induction false} TailNeverSearched(h: Heap, size: int, n: nat)
    requires Inv(AsCoded, h) && size >= HEADER && size % 8 == 0
    requires TailRoom(h) >= 472 && !TailIsSearched(h, size) && Fit(AsCoded, h, size) == NULL
    ensures var o := Try(h, size, n);
      && o.block == NULL && Fit(AsCoded, o.heap, size) == NULL
      && o.heap.last in o.heap.blocks && TailRoom(o.heap) == TailRoom(h) + ARENA * n
    decreases n
  {
    if n > 0 {
      AdjacentTail(n);
      GrowKeeps(AsCoded, h, 0);
      GrowLargeTail(h);
      FitFinds(AsCoded, h, size);
      var h' := Grow(AsCoded, h, 0);
      FitFinds(AsCoded, h', size);
      CandidatesAreFree(h, size);
      TailNeverSearched(h', size, n - 1);
    }
  }

  lemma CandidatesAreFree(h: Heap, size: int)
    requires Inv(AsCoded, h) && size >= HEADER
    ensures forall a :: a in Candidates(h, size) ==> IsFree(h.blocks, a)
  {
    var i := NextPopulated(h.lists, SizeToIndex(size));
    assert forall a :: a in Candidates(h, size) ==> InList(h.lists, i, a);
  }

  /** If the tail is on the list that is searched, enough adjacent chunks end the loop. */
  lemma {:induction false} TailSearched(h: Heap, size: int, n: nat)
    requires Inv(AsCoded, h) && size >= HEADER && size % 8 == 0
    requires TailRoom(h) >= 472 && TailIsSearched(h, size) && TailRoom(h) + ARENA * n >= size
    ensures Try(h, size, n).block != NULL
    decreases n
  {
    FitFinds(AsCoded, h, size);
    if Fit(AsCoded, h, size) == NULL {
      assert TailRoom(h) < size;
      AdjacentTail(n);
      GrowKeeps(AsCoded, h, 0);
      GrowLargeTail(h);
      TailSearched(Grow(AsCoded, h, 0), size, n - 1);
    }
  }

  lemma TryAtOnce(h: Heap, size: int)
    requires Inv(AsCoded, h) && size >= HEADER && size % 8 == 0
    ensures Try(h, size, 0).block != NULL <==> Fit(AsCoded, h, size) != NULL
  {
    FitFinds(AsCoded, h, size);
    hide Inv, Fit, Grow, Take;
    if Fit(AsCoded, h, size) != NULL {
      TakenIsUsed(AsCoded, h, Fit(AsCoded, h, size), size);
    }
  }

  /** The room behind an adjacent chunk, and behind as many more as the request has bytes. */
  lemma TailAfterChunk(h: Heap, size: int)
    requires Inv(AsCoded, h) && Inv(AsCoded, Grow(AsCoded, h, 0)) && size >= HEADER
    ensures var room := TailRoom(Grow(AsCoded, h, 0)); size > 0 && room >= 472 && room + ARENA * size >= size
  {
    GrowTail(AsCoded, h);
    hide Grow;
  }

  lemma TryLater(h: Heap, size: int, n: nat)
    requires Inv(AsCoded, h) && size >= HEADER && size % 8 == 0
    requires Fit(AsCoded, h, size) == NULL && n > 0
    ensures Inv(AsCoded, Grow(AsCoded, h, 0)) && Try(h, size, n) == Try(Grow(AsCoded, h, 0), size, n - 1)
  {
    hide Inv, Fit, Grow, Take;
    GrowKeeps(AsCoded, h, 0);
    AdjacentTail(n);
  }

  /** Exactly when adjacent chunks can satisfy a request: when the search succeeds at once or after
      one chunk, or when the tail is then on the list the search looks at. In every other state the
      loop goes on until sbrk fails. */
  lemma GrowthEndsExactly(h: Heap, size: int)
    requires Inv(AsCoded, h) && size >= HEADER && size % 8 == 0
    ensures Inv(AsCoded, Grow(AsCoded, h, 0))
    ensures (exists n: nat :: Try(h, size, n).block != NULL) <==>
              var h' := Grow(AsCoded, h, 0);
              || Fit(AsCoded, h, size) != NULL
              || Fit(AsCoded, h', size) != NULL
              || TailIsSearched(h', size)
  {
    hide *;
    GrowKeeps(AsCoded, h, 0);
    TailAfterChunk(h, size);
    TryAtOnce(h, size);
    var h' := Grow(AsCoded, h, 0);
    if Fit(AsCoded, h, size) != NULL {
      assert Try(h, size, 0).block != NULL;
    } else {
      forall n: nat | n > 0 ensures Try(h, size, n) == Try(h', size, n - 1) {
        TryLater(h, size, n);
      }
      TryAtOnce(h', size);
      if Fit(AsCoded, h', size) != NULL {
        assert Try(h, size, 1).block == Try(h', size, 0).block;
      } else if TailIsSearched(h', size) {
        TailSearched(h', size, size);
        assert Try(h, size, size + 1).block != NULL;
      } else {
        forall n: nat ensures Try(h, size, n).block == NULL {
          if n > 0 {
            TailNeverSearched(h', size, n - 1);
          }
        }
      }
    }
  }

  // ---------------------------------------------------------------- any answers of sbrk

  /** A chunk that is not adjacent goes to the last list: it ends the search if and only if there is
      room in it and no list from that of the request on is in front of it. */
  lemma ChunkApartExactly(h: Heap, size: int, words: nat)
    requires Inv(AsCoded, h) && size >= HEADER && size % 8 == 0 && words > 0 && Fit(AsCoded, h, size) == NULL
    ensures Inv(AsCoded, Grow(AsCoded, h, words))
    ensures Fit(AsCoded, Grow(AsCoded, h, words), size) != NULL <==>
            size <= ARENA - 2 * ALLOC_HEADER && forall i :: SizeToIndex(size) <= i < N_LISTS - 1 ==> h.lists[i] == []
  {
    var h', first := Grow(AsCoded, h, words), NextPopulated(h.lists, SizeToIndex(size));
    GrowKeeps(AsCoded, h, words);
    FitFinds(AsCoded, h, size);
    FitFinds(AsCoded, h', size);
    ApartLists(h, words);
    SameFirst(h.lists, h'.lists, SizeToIndex(size));
    CandidatesAreFree(h, size);
    if first == N_LISTS - 1 {
      var a := h.last + ALLOC_HEADER + 8 * words + ALLOC_HEADER;
      assert Candidates(h', size) == [a] + Candidates(h, size);
    }
  }

  /** What a chunk apart changes: the last list, and no block that was there. */
  lemma ApartLists(h: Heap, words: nat)
    requires Inv(AsCoded, h) && words > 0
    ensures var h', a := Grow(AsCoded, h, words), h.last + ALLOC_HEADER + 8 * words + ALLOC_HEADER;
      && |h'.lists| == N_LISTS && h'.lists == h.lists[N_LISTS - 1 := [a] + h.lists[N_LISTS - 1]]
      && h'.last in h'.blocks && Tail(h') == a && IsFree(h'.blocks, a) && a !in h.blocks
      && h'.blocks[a].size == ARENA - 2 * ALLOC_HEADER
      && (forall x :: IsFree(h.blocks, x) ==> IsFree(h'.blocks, x) && h'.blocks[x].size == h.blocks[x].size)
  {
    assert SizeToIndex(ARENA - 2 * ALLOC_HEADER) == N_LISTS - 1;
  }

  /** The first populated list is the same if no list in front of the last one changes. */
  lemma {:induction false} SameFirst(lists: Lists, lists': Lists, i: int)
    requires |lists| == |lists'| == N_LISTS && 0 <= i < N_LISTS
    requires forall k :: i <= k < N_LISTS - 1 ==> (lists[k] == [] <==> lists'[k] == [])
    ensures NextPopulated(lists', i) == NextPopulated(lists, i)
    decreases N_LISTS - i
  {
    if i < N_LISTS - 1 && lists[i] == [] {
      SameFirst(lists, lists', i + 1);
    }
  }

  /** The only block size above 472 bytes for which another list than the last one is looked at. */
  const BLOCKED_SIZE: int := 480
  const BLOCKED_LIST: int := 57

  /** A search for it finds nothing on its list, and the block that grows is not on it. */
  ghost predicate Blocked(h: Heap) {
    && Inv(AsCoded, h) && Fit(AsCoded, h, BLOCKED_SIZE) == NULL
    && h.lists[BLOCKED_LIST] != [] && h.last in h.blocks && Tail(h) !in h.lists[BLOCKED_LIST]
  }

  lemma BlockedCandidates(h: Heap)
    requires |h.lists| == N_LISTS && h.lists[BLOCKED_LIST] != []
    ensures Candidates(h, BLOCKED_SIZE) == h.lists[BLOCKED_LIST]
  {}

  /** What a chunk changes: neither that list, if the tail is not on it, nor a block of it. */
  lemma ChunkKeepsList(h: Heap, words: nat)
    requires Inv(AsCoded, h) && h.last in h.blocks && Tail(h) !in h.lists[BLOCKED_LIST]
    ensures var h', l := Grow(AsCoded, h, words), h.lists[BLOCKED_LIST];
      && |h'.lists| == N_LISTS && h'.lists[BLOCKED_LIST] == l && h'.last in h'.blocks && Tail(h') !in l
      && (forall x :: x in l ==> x in h.blocks && x in h'.blocks && h'.blocks[x].size == h.blocks[x].size)
  {
    assert forall x :: x in h.lists[BLOCKED_LIST] ==> InList(h.lists, BLOCKED_LIST, x);
    if words > 0 {
      ApartLists(h, words);
    } else {
      GrowAdjacent(AsCoded, h);
      GrowTail(AsCoded, h);
      AdjacentKeepsList(h);
    }
  }

  lemma AdjacentKeepsList(h: Heap)
    requires Inv(AsCoded, h) && h.last in h.blocks && Tail(h) !in h.lists[BLOCKED_LIST]
    ensures Grow(AsCoded, h, 0).lists[BLOCKED_LIST] == h.lists[BLOCKED_LIST]
  {
    GrowAdjacent(AsCoded, h);
    var t := Tail(h);
    if IsFree(h.blocks, t) && Moves(AsCoded, h.blocks[t].size + ARENA, h.blocks[t].size) {
      assert InList(h.lists, Home(h.lists, t), t);
    }
  }

  lemma BlockedStays(h: Heap, words: nat)
    requires Blocked(h)
    ensures Blocked(Grow(AsCoded, h, words))
  {
    var h' := Grow(AsCoded, h, words);
    GrowKeeps(AsCoded, h, words);
    ChunkKeepsList(h, words);
    FitFinds(AsCoded, h, BLOCKED_SIZE);
    FitFinds(AsCoded, h', BLOCKED_SIZE);
    BlockedCandidates(h);
    BlockedCandidates(h');
    hide Inv, Fit, Grow, Candidates;
  }

  /** Then no answers at all satisfy the request. */
  lemma {:induction false} BlockedFails(h: Heap, os: seq<Sbrk>)
    requires Blocked(h)
    ensures Allocate(AsCoded, h, BLOCKED_SIZE, os).block == NULL
    decreases |os|
  {
    FitFinds(AsCoded, h, BLOCKED_SIZE);
    hide Fit, Grow, Tail, Take;
    if os != [] && os[0].Moved? {
      BlockedStays(h, os[0].words);
      BlockedFails(Grow(AsCoded, h, os[0].words), os[1..]);
    }
  }

  /** A chunk apart and enough chunks adjacent to it satisfy every request that looks at the last list. */
  lemma ApartThenAdjacent(h: Heap, size: int)
    requires Inv(AsCoded, h) && size >= HEADER && size % 8 == 0 && Fit(AsCoded, h, size) == NULL
    requires NextPopulated(h.lists, SizeToIndex(size)) == N_LISTS - 1
    ensures Allocate(AsCoded, h, size, [Moved(1)] + Adjacent(size)).block != NULL
  {
    var h', os := Grow(AsCoded, h, 1), [Moved(1)] + Adjacent(size);
    GrowKeeps(AsCoded, h, 1);
    ApartLists(h, 1);
    SameFirst(h.lists, h'.lists, SizeToIndex(size));
    assert os[1..] == Adjacent(size);
    TailSearched(h', size, size);
    FitFinds(AsCoded, h, size);
    hide Inv, Fit, Grow;
  }

  lemma TailOnListFits(h: Heap, size: int)
    requires Inv(AsCoded, h) && size >= HEADER && size % 8 == 0 && Fit(AsCoded, h, size) == NULL
    requires h.last in h.blocks && Tail(h) in h.lists[BLOCKED_LIST] && size == BLOCKED_SIZE
    ensures Allocate(AsCoded, h, size, Adjacent(size)).block != NULL
  {
    assert InList(h.lists, BLOCKED_LIST, Tail(h));
    BlockedCandidates(h);
    TailSearched(h, size, size);
  }

  /** Exactly when some answers of sbrk satisfy a request: always for blocks of any size but 480 bytes;
      for these when the search succeeds at once, or nothing is on list 57, or the tail is. */
  lemma SatisfiableExactly(h: Heap, size: int)
    requires Inv(AsCoded, h) && size >= HEADER && size % 8 == 0
    ensures h.last in h.blocks
    ensures (exists os :: Allocate(AsCoded, h, size, os).block != NULL) <==>
              || size != BLOCKED_SIZE || Fit(AsCoded, h, size) != NULL
              || h.lists[BLOCKED_LIST] == [] || Tail(h) in h.lists[BLOCKED_LIST]
  {
    if Fit(AsCoded, h, size) != NULL {
      FitFinds(AsCoded, h, size);
      AllocatesAtOnce(h, size);
    } else if size <= 472 {
      SearchComplete(AsCoded, h, size);
      OneChunkIsEnough(AsCoded, h, size, [Moved(0)]);
    } else if size > BLOCKED_SIZE || h.lists[BLOCKED_LIST] == [] {
      ApartThenAdjacent(h, size);
    } else if Tail(h) in h.lists[BLOCKED_LIST] {
      TailOnListFits(h, size);
    } else {
      forall os ensures Allocate(AsCoded, h, size, os).block == NULL {
        BlockedFails(h, os);
      }
    }
  }

  lemma AllocatesAtOnce(h: Heap, size: int)
    requires Inv(AsCoded, h) && size >= HEADER && size % 8 == 0 && Fit(AsCoded, h, size) != NULL
    ensures Allocate(AsCoded, h, size, []).block != NULL
  {
    FitFinds(AsCoded, h, size);
    TakenIsUsed(AsCoded, h, Fit(AsCoded, h, size), size);
  }

  // ---------------------------------------------------------------- a run into a state without end

  function OneOn(i: int, a: int): Lists
    requires 0 <= i < N_LISTS
  {
    seq(N_LISTS, j => if j == i then [a] else [])
  }

  function NoneOn(): Lists {
    seq(N_LISTS, j => [])
  }

  lemma FirstInsert(lists: Lists, a: int, size: int)
    requires |lists| == N_LISTS && size >= 24 && forall i :: 0 <= i < N_LISTS ==> lists[i] == []
    ensures Insert(lists, a, size) == OneOn(SizeToIndex(size), a)
  {
    assert [a] + lists[SizeToIndex(size)] == [a];
  }

  lemma LastRemove(i: int, a: int)
    requires 0 <= i < N_LISTS
    ensures Remove(OneOn(i, a), a) == NoneOn()
  {
    assert InList(OneOn(i, a), i, a);
  }

  /** The first chunk after malloc(456): a block of 472 bytes was split off its right end. */
  function FirstHeap(base: int): Heap {
    Heap(map[base := Block(16, 16, LeftFence),
             base + 16 := Block(520, 16, Free),
             base + 536 := Block(472, 520, Used),
             base + 1008 := Block(16, 472, RightFence)],
         OneOn(58, base + 16), [base], base + 1008)
  }

  /** Then malloc(504) takes the remaining 520 bytes. */
  function SecondHeap(base: int): Heap {
    Heap(FirstHeap(base).blocks[base + 16 := Block(520, 16, Used)],
         NoneOn(), [base], base + 1008)
  }

  /** Then the first pointer is freed: the tail is a free block of 472 bytes on list 56. */
  function StuckHeap(base: int): Heap {
    Heap(SecondHeap(base).blocks[base + 536 := Block(472, 520, Free)],
         OneOn(56, base + 536), [base], base + 1008)
  }

  /** The search on lists of which only one has an entry. */
  lemma FitOn(h: Heap, i: int, a: int, size: int)
    requires Inv(AsCoded, h) && size >= HEADER && 0 <= i < N_LISTS && h.lists == OneOn(i, a)
    requires SizeToIndex(size) <= i && a in h.blocks && h.blocks[a].size >= size
    ensures Fit(AsCoded, h, size) == a
  {
    assert h.lists[i] == [a];
    var j := NextPopulated(h.lists, SizeToIndex(size));
    assert j == i;
  }

  /** One call of malloc whose first search finds a. */
  lemma MallocTakes(h: Heap, raw: nat, a: int)
    requires Inv(AsCoded, h) && raw > 0 && IsFree(h.blocks, a) && RequestSize(raw) <= h.blocks[a].size
    requires RequestSize(raw) >= HEADER && Fit(AsCoded, h, RequestSize(raw)) == a && a != NULL
    ensures After(AsCoded, h, MallocOp(raw, [])) == Take(AsCoded, h, a, RequestSize(raw))
  {
    hide Inv, Fit, Take, RequestSize;
  }

  lemma InitIs(base: int)
    requires base >= HEAP_BASE && base % 8 == 0
    ensures Inv(AsCoded, Init(base)) && Init(base).lists == OneOn(58, base + 16)
    ensures base + 16 in Init(base).blocks && Init(base).blocks[base + 16] == Block(992, 16, Free)
    ensures IsFree(Init(base).blocks, base + 16) && Tiled(Init(base).blocks)
  {
    InitKeeps(AsCoded, base);
    FirstInsert(NoneOn(), base + 16, ARENA - 2 * ALLOC_HEADER);
  }

  lemma FirstTake(base: int)
    requires base >= HEAP_BASE && base % 8 == 0 && Tiled(Init(base).blocks) && Init(base).lists == OneOn(58, base + 16)
    ensures Take(AsCoded, Init(base), base + 16, 472) == FirstHeap(base)
  {
    hide Tiled;
    var h := Init(base);
    Neighbours(h.blocks, base + 16);
    assert Split(h.blocks, base + 16, 472) == FirstHeap(base).blocks;
  }

  lemma FirstStep(base: int)
    requires base >= HEAP_BASE && base % 8 == 0
    ensures Inv(AsCoded, Init(base))
    ensures After(AsCoded, Init(base), MallocOp(456, [])) == FirstHeap(base)
  {
    var h := Init(base);
    InitIs(base);
    TwoRequests();
    hide *;
    FitOn(h, 58, base + 16, 472);
    MallocTakes(h, 456, base + 16);
    FirstTake(base);
  }

  lemma TwoRequests()
    ensures RequestSize(456) == 472 && SizeToIndex(472) == 56
    ensures RequestSize(504) == 520 && SizeToIndex(520) == 58
  {}

  lemma SecondTake(base: int)
    requires Tiled(FirstHeap(base).blocks)
    ensures Take(AsCoded, FirstHeap(base), base + 16, 520) == SecondHeap(base)
  {
    hide Tiled;
    LastRemove(58, base + 16);
    assert SetKind(FirstHeap(base).blocks, base + 16, Used) == SecondHeap(base).blocks;
  }

  lemma SecondStep(base: int)
    requires Inv(AsCoded, FirstHeap(base)) && base >= HEAP_BASE
    ensures After(AsCoded, FirstHeap(base), MallocOp(504, [])) == SecondHeap(base)
  {
    hide Tiled, Bounded, ListsAgree, Coalesced, Take, Fit, After, OneOn;
    FitOn(FirstHeap(base), 58, base + 16, 520);
    MallocTakes(FirstHeap(base), 504, base + 16);
    SecondTake(base);
  }

  lemma ThirdStep(base: int)
    requires Inv(AsCoded, SecondHeap(base)) && base >= HEAP_BASE
    ensures Legal(SecondHeap(base), FreeOp(base + 552))
    ensures After(AsCoded, SecondHeap(base), FreeOp(base + 552)) == StuckHeap(base)
  {
    var h := SecondHeap(base);
    ReleaseKeeps(AsCoded, h, base + 536);
    FirstInsert(NoneOn(), base + 536, 472);
    var h' := Release(AsCoded, h, base + 536);
    assert h'.lists == StuckHeap(base).lists;
    assert h'.blocks == StuckHeap(base).blocks;
  }

  /** Three calls lead from the initial heap to the stuck one. */
  lemma StuckIsReachable(base: int)
    requires base >= HEAP_BASE && base % 8 == 0
    ensures Reachable(AsCoded, StuckHeap(base)) && Inv(AsCoded, StuckHeap(base))
  {
    FirstStep(base);
    assert Runs(AsCoded, Init(base), [], Init(base));
    ReachableExtends(AsCoded, Init(base), MallocOp(456, []));
    SecondStep(base);
    ReachableExtends(AsCoded, FirstHeap(base), MallocOp(504, []));
    ThirdStep(base);
    ReachableExtends(AsCoded, SecondHeap(base), FreeOp(base + 552));
  }

  /** In the stuck heap no number of adjacent chunks satisfies a request for a block of more than
      472 bytes, although the free tail soon is larger than that. */
  lemma StuckNeverEnds(base: int, size: int, n: nat)
    requires Inv(AsCoded, StuckHeap(base)) && size > 472 && size % 8 == 0
    ensures var o := Try(StuckHeap(base), size, n);
      && o.block == NULL && Fit(AsCoded, o.heap, size) == NULL
      && (472 + ARENA * n >= size ==> HasFree(o.heap, size))
  {
    var h := StuckHeap(base);
    assert NextPopulated(h.lists, SizeToIndex(size)) == 58;
    TailNeverSearched(h, size, n);
    var h' := Try(h, size, n).heap;
    assert TailRoom(h') > 0 ==> IsFree(h'.blocks, Tail(h'));
  }

  // ---------------------------------------------------------------- what holds for which sizes

  /** One list is enough to look at, in every reachable heap, exactly up to 472 bytes. */
  lemma SearchCompleteExactly(size: int)
    requires HEADER <= size < TWO_TO_THE_64 && size % 8 == 0
    ensures (forall h :: Reachable(AsCoded, h) ==>
               Inv(AsCoded, h) && (Fit(AsCoded, h, size) != NULL <==> HasFree(h, size)))
            <==> size <= 472
  {
    forall h | Reachable(AsCoded, h)
      ensures Inv(AsCoded, h)
      ensures size <= 472 ==> (Fit(AsCoded, h, size) != NULL <==> HasFree(h, size))
    {
      ReachableKeeps(AsCoded, h);
      if size <= 472 {
        SearchComplete(AsCoded, h, size);
      }
    }
    if size > 472 {
      StuckIsReachable(HEAP_BASE);
      StuckNeverEnds(HEAP_BASE, size, size);
      ReachableAfterMalloc(StuckHeap(HEAP_BASE), size, size);
    }
  }

  lemma ReachableAfterMalloc(h: Heap, size: int, n: nat)
    requires Reachable(AsCoded, h) && Inv(AsCoded, h)
    requires HEADER <= size < TWO_TO_THE_64 && size % 8 == 0
    ensures Reachable(AsCoded, Try(h, size, n).heap)
  {
    RequestOf(size);
    hide *;
    var op := MallocOp(size - ALLOC_HEADER, Adjacent(n));
    AfterIsTry(h, size, n);
    ReachableExtends(AsCoded, h, op);
  }

  lemma RequestOf(size: int)
    requires HEADER <= size < TWO_TO_THE_64 && size % 8 == 0
    ensures RequestSize(size - ALLOC_HEADER) == size
  {
    assert (size + 7) % 8 == 7;
  }

  lemma AfterIsTry(h: Heap, size: int, n: nat)
    requires Inv(AsCoded, h) && size >= HEADER && size % 8 == 0 && RequestSize(size - ALLOC_HEADER) == size
    ensures var op := MallocOp(size - ALLOC_HEADER, Adjacent(n));
      Legal(h, op) && After(AsCoded, h, op) == Try(h, size, n).heap
  {
    hide Inv, Allocate, RequestSize, Adjacent;
  }

  lemma ReachableExtends(g: Guard, h: Heap, op: Op)
    requires Reachable(g, h) && Inv(g, h) && Legal(h, op)
    ensures Reachable(g, After(g, h, op))
  {
    var base, ops :| base >= HEAP_BASE && base % 8 == 0 && Runs(g, Init(base), ops, h);
    InitKeeps(g, base);
    RunExtends(g, Init(base), ops, h, op);
  }

  lemma {:induction false} RunExtends(g: Guard, h: Heap, ops: seq<Op>, h': Heap, op: Op)
    requires Inv(g, h) && Runs(g, h, ops, h')
    requires Inv(g, h') && Legal(h', op)
    ensures Runs(g, h, ops + [op], After(g, h', op))
    decreases |ops|
  {
    hide Inv, After, Legal;
    if ops == [] {
      assert Runs(g, After(g, h, op), [], After(g, h, op));
      assert (ops + [op])[1..] == [];
    } else {
      RunExtends(g, After(g, h, ops[0]), ops[1..], h', op);
      assert (ops + [op])[1..] == ops[1..] + [op];
    }
  }

  ghost predicate EnoughEverywhere(size: int, chunks: nat)
    requires size >= HEADER && size % 8 == 0
  {
    forall h :: Reachable(AsCoded, h) ==> Inv(AsCoded, h) && Try(h, size, chunks).block != NULL
  }

  /** A bounded number of chunks is always enough exactly up to 472 bytes, and then one is: for any
      larger size there is a reachable heap in which the loop takes chunk after chunk and fails. */
  lemma GrowthBoundedExactly(size: int)
    requires size >= HEADER && size % 8 == 0
    ensures (exists chunks: nat :: EnoughEverywhere(size, chunks)) <==> size <= 472
    ensures size <= 472 ==> EnoughEverywhere(size, 1)
  {
    if size <= 472 {
      forall h | Reachable(AsCoded, h)
        ensures Inv(AsCoded, h) && Try(h, size, 1).block != NULL
      {
        ReachableKeeps(AsCoded, h);
        OneChunkIsEnough(AsCoded, h, size, Adjacent(1));
      }
      assert EnoughEverywhere(size, 1);
    } else {
      StuckIsReachable(HEAP_BASE);
      forall chunks: nat ensures !EnoughEverywhere(size, chunks) {
        StuckNeverEnds(HEAP_BASE, size, chunks);
      }
    }
  }
}
