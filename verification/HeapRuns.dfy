/** Whole calls of malloc and free, runs of them, and what holds in every run. */
module HeapRuns {
  import opened Layout
  import opened Tags
  import opened FreeLists
  import opened HeapModel

  datatype Outcome = Outcome(heap: Heap, block: int, os: seq<Sbrk>)

  /** allocate_object from its first search on, for a block of `size` bytes: search, and as long as
      nothing is found grow by one chunk and search again, until sbrk fails. The answers of sbrk are
      read from `os`; an exhausted `os` is failure. */
  ghost function Allocate(g: Guard, h: Heap, size: int, os: seq<Sbrk>): (o: Outcome)
    requires Inv(g, h) && size >= HEADER && size % 8 == 0
    ensures Inv(g, o.heap)
    ensures o.block == NULL || IsUsed(o.heap.blocks, o.block)
    decreases |os|
  {
    FitFinds(g, h, size);
    var a := Fit(g, h, size);
    if a != NULL then
      TakeKeeps(g, h, a, size);
      TakenIsUsed(g, h, a, size);
      Outcome(Take(g, h, a, size), Taken(h, a, size), os)
    else if os == [] then Outcome(h, NULL, os)
    else
      match os[0]
      case Failed => Outcome(h, NULL, os[1..])
      case Moved(words) =>
        GrowKeeps(g, h, words);
        Allocate(g, Grow(g, h, words), size, os[1..])
  }

  /** my_malloc; NULL for a request of zero bytes. `block` is the header address. */
  ghost function Malloc(g: Guard, h: Heap, raw: nat, os: seq<Sbrk>): (o: Outcome)
    requires Inv(g, h)
    ensures Inv(g, o.heap)
    ensures o.block == NULL || IsUsed(o.heap.blocks, o.block)
  {
    if raw == 0 then Outcome(h, NULL, os)
    else Allocate(g, h, RequestSize(raw), os)
  }

  /** What MallocHeap's constructor sets up, if sbrk gives it a chunk at base. */
  function Init(base: int): Heap {
    Heap(AddChunk(map[], base),
         Insert(seq(N_LISTS, i => []), base + ALLOC_HEADER, ARENA - 2 * ALLOC_HEADER),
         [base],
         base + ARENA - ALLOC_HEADER)
  }

  lemma InitKeeps(g: Guard, base: int)
    requires base >= HEAP_BASE && base % 8 == 0
    ensures Inv(g, Init(base))
  {
    AddChunkTiled(map[], base);
    var bs, lists := AddChunk(map[], base), seq(N_LISTS, i => []);
    var a, size := base + ALLOC_HEADER, ARENA - 2 * ALLOC_HEADER;
    forall x ensures NoFreePair(bs, x) {}
    InsertMembers(lists, a, size);
    assert InList(Insert(lists, a, size), SizeToIndex(size), a);
  }

  lemma TakenIsUsed(g: Guard, h: Heap, a: int, size: int)
    requires Inv(g, h) && IsFree(h.blocks, a)
    requires HEADER <= size <= h.blocks[a].size && size % 8 == 0
    ensures var bs' := Take(g, h, a, size).blocks; var b := Taken(h, a, size);
      && IsUsed(bs', b) && bs'[b].size >= size && !IsUsed(h.blocks, b)
      && b >= a && b + bs'[b].size == RightOf(h.blocks, a)
  {
    Neighbours(h.blocks, a);
    if h.blocks[a].size >= size + HEADER {
      SplitTiled(h.blocks, a, size);
    }
  }

  // ---------------------------------------------------------------- runs

  datatype Op = MallocOp(raw: nat, os: seq<Sbrk>) | FreeOp(p: int)

  /** free accepts NULL and pointers that malloc returned and that are still live. */
  ghost predicate Legal(h: Heap, op: Op) {
    op.FreeOp? && op.p != NULL ==> IsUsed(h.blocks, op.p - ALLOC_HEADER)
  }

  ghost function After(g: Guard, h: Heap, op: Op): (r: Heap)
    requires Inv(g, h) && Legal(h, op)
    ensures Inv(g, r)
  {
    match op
    case MallocOp(raw, os) => Malloc(g, h, raw, os).heap
    case FreeOp(p) =>
      if p == NULL then h
      else
        ReleaseKeeps(g, h, p - ALLOC_HEADER);
        Release(g, h, p - ALLOC_HEADER)
  }

  /** h' is reached from h by a run of calls. */
  ghost predicate Runs(g: Guard, h: Heap, ops: seq<Op>, h': Heap)
    decreases |ops|
  {
    if ops == [] then h == h'
    else Inv(g, h) && Legal(h, ops[0]) && Runs(g, After(g, h, ops[0]), ops[1..], h')
  }

  ghost predicate Reachable(g: Guard, h: Heap) {
    exists base, ops :: base >= HEAP_BASE && base % 8 == 0 && Runs(g, Init(base), ops, h)
  }

  lemma {:induction false} RunKeeps(g: Guard, h: Heap, ops: seq<Op>, h': Heap)
    requires Inv(g, h) && Runs(g, h, ops, h')
    ensures Inv(g, h')
    decreases |ops|
  {
    if ops != [] {
      RunKeeps(g, After(g, h, ops[0]), ops[1..], h');
    }
  }

  /** In every state of every run, whatever sbrk does: the tags tile each region, the lists link
      exactly the free blocks, each once and where its size belongs, and no two free blocks are
      neighbours. */
  lemma ReachableKeeps(g: Guard, h: Heap)
    requires Reachable(g, h)
    ensures Inv(g, h)
  {
    var base, ops :| base >= HEAP_BASE && base % 8 == 0 && Runs(g, Init(base), ops, h);
    InitKeeps(g, base);
    RunKeeps(g, Init(base), ops, h);
  }
}
