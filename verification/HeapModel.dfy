/** malloc and free of snap_malloc as functions on a heap value: boundary tags, free lists,
    the recorded OS chunks and the last right fencepost. */
module HeapModel {
  import opened Layout
  import opened Tags
  import opened FreeLists

  datatype Heap = Heap(blocks: Blocks, lists: Lists, chunks: seq<int>, last: int)

  /** One answer of sbrk: it fails, or it returns the program break, which other code may have
      moved up by some words since the previous chunk. */
  datatype Sbrk = Failed | Moved(words: nat)

  // ---------------------------------------------------------------- the invariant

  /** Where a free block may be linked. The guard of move_coalesced leaves blocks that change size
      among 472 bytes and more where they are; comparing indices would place every block exactly. */
  predicate Placed(g: Guard, i: int, size: int) {
    if g.AsCoded? && size >= 472 then 56 <= i < N_LISTS
    else size >= 24 && i == SizeToIndex(size)
  }

  /** The lists link exactly the blocks tagged free, each once, except a free block `loose` that is
      about to be linked. */
  ghost predicate ListsAgree(g: Guard, bs: Blocks, lists: Lists, loose: int) {
    && |lists| == N_LISTS
    && Unique(lists)
    && (forall i, a :: InList(lists, i, a) ==> a != loose && IsFree(bs, a) && Placed(g, i, bs[a].size))
    && (forall a :: IsFree(bs, a) && a != loose ==> Listed(lists, a))
  }

  predicate NoFreePair(bs: Blocks, a: int) {
    IsFree(bs, a) ==> !IsFree(bs, RightOf(bs, a))
  }

  /** No two free blocks are neighbours, except around `loose`. */
  ghost predicate Coalesced(bs: Blocks, loose: int) {
    forall a {:trigger NoFreePair(bs, a)} ::
      a != loose && (a in bs ==> RightOf(bs, a) != loose) ==> NoFreePair(bs, a)
  }

  ghost predicate Bounded(h: Heap) {
    && h.last in h.blocks && h.blocks[h.last].kind.RightFence?
    && (forall a :: a in h.blocks ==> a <= h.last)
    && (forall a :: a in h.chunks <==> a in h.blocks && h.blocks[a].kind.LeftFence?)
  }

  ghost predicate InvBut(g: Guard, h: Heap, loose: int) {
    && Tiled(h.blocks)
    && Bounded(h)
    && ListsAgree(g, h.blocks, h.lists, loose)
    && Coalesced(h.blocks, loose)
  }

  ghost predicate Inv(g: Guard, h: Heap) {
    InvBut(g, h, NULL)
  }

  // ---------------------------------------------------------------- free

  /** free_list_deallocate: a block already marked free joins its free neighbours and the lists. */
  ghost function Coalesce(g: Guard, h: Heap, a: int): Heap
    requires Tiled(h.blocks) && IsFree(h.blocks, a) && |h.lists| == N_LISTS
  {
    var bs := h.blocks;
    Neighbours(bs, a);
    var l, r := LeftOf(bs, a), RightOf(bs, a);
    assert JoinsRight(bs, r);
    if !IsFree(bs, l) && !IsFree(bs, r) then
      h.(lists := Insert(h.lists, a, bs[a].size))
    else if IsFree(bs, l) && IsFree(bs, r) then
      assert JoinsRight(bs, a);
      h.(blocks := MergeThree(bs, l),
         lists := Move(g, Remove(h.lists, r), l, bs[l].size + bs[a].size + bs[r].size, bs[l].size))
    else if IsFree(bs, l) then
      h.(blocks := Merge(bs, l),
         lists := Move(g, h.lists, l, bs[l].size + bs[a].size, bs[l].size))
    else
      h.(blocks := Merge(bs, a),
         lists := Move(g, Replace(h.lists, r, a), a, bs[a].size + bs[r].size, bs[r].size))
  }

  /** The effect of free on the block of a live pointer. */
  ghost function Release(g: Guard, h: Heap, a: int): Heap
    requires Tiled(h.blocks) && IsUsed(h.blocks, a) && |h.lists| == N_LISTS
  {
    SetKindTiled(h.blocks, a, Free);
    Coalesce(g, h.(blocks := SetKind(h.blocks, a, Free)), a)
  }

  // ---------------------------------------------------------------- malloc

  /** The first block of l that is at least size, or NULL. */
  function FirstFit(bs: Blocks, l: seq<int>, size: int): int
    requires forall a :: a in l ==> a in bs
  {
    if l == [] then NULL
    else
      var a := l[0];
      assert a in l;
      if bs[a].size >= size then a else FirstFit(bs, l[1..], size)
  }

  /** The one list free_list_get_allocable looks at. */
  function Candidates(h: Heap, size: int): seq<int>
    requires |h.lists| == N_LISTS && size >= HEADER
  {
    h.lists[NextPopulated(h.lists, SizeToIndex(size))]
  }

  /** The block free_list_get_allocable chooses, or NULL. */
  ghost function Fit(g: Guard, h: Heap, size: int): int
    requires Inv(g, h) && size >= HEADER
  {
    assert forall a :: a in Candidates(h, size) ==> InList(h.lists, NextPopulated(h.lists, SizeToIndex(size)), a);
    FirstFit(h.blocks, Candidates(h, size), size)
  }

  /** The start of the block handed out when `a` was chosen. */
  function Taken(h: Heap, a: int, size: int): int
    requires a in h.blocks
  {
    if h.blocks[a].size >= size + HEADER then a + h.blocks[a].size - size else a
  }

  /** Takes size bytes off the right end of free block a, or all of it when the rest would be
      smaller than a Header. */
  ghost function Take(g: Guard, h: Heap, a: int, size: int): Heap
    requires Tiled(h.blocks) && IsFree(h.blocks, a) && |h.lists| == N_LISTS
    requires HEADER <= size <= h.blocks[a].size
  {
    var s := h.blocks[a].size;
    if s >= size + HEADER then
      Neighbours(h.blocks, a);
      h.(blocks := Split(h.blocks, a, size), lists := Move(g, h.lists, a, s - size, s))
    else
      h.(blocks := SetKind(h.blocks, a, Used), lists := Remove(h.lists, a))
  }

  /** allocate_object after a successful sbrk: a chunk at the break becomes part of the last region
      when the break has not moved, and a region of its own otherwise. */
  ghost function Grow(g: Guard, h: Heap, words: nat): Heap
    requires Inv(g, h)
  {
    var base := h.last + ALLOC_HEADER + 8 * words;
    if words == 0 then
      SwallowFenceTiled(h.blocks, h.last);
      Coalesce(g, h.(blocks := SwallowFence(h.blocks, h.last), last := h.last + ARENA), h.last)
    else
      Heap(AddChunk(h.blocks, base),
           Insert(h.lists, base + ALLOC_HEADER, ARENA - 2 * ALLOC_HEADER),
           h.chunks + [base],
           base + ARENA - ALLOC_HEADER)
  }

  // ---------------------------------------------------------------- every step keeps the invariant

  lemma InsertedIsPlaced(g: Guard, size: int)
    requires size >= HEADER && size % 8 == 0
    ensures Placed(g, SizeToIndex(size), size)
  {}

  /** A block that move_coalesced leaves alone is still placed well. */
  lemma UnmovedIsPlaced(g: Guard, i: int, size: int, oldSize: int)
    requires size >= HEADER && oldSize >= HEADER && size % 8 == 0 && oldSize % 8 == 0
    requires Placed(g, i, oldSize) && !Moves(g, size, oldSize)
    ensures Placed(g, i, size)
  {}

  /** move_coalesced repairs the lists after block a has changed from oldSize to its present size. */
  lemma MoveAgrees(g: Guard, bs: Blocks, lists: Lists, a: int, oldSize: int)
    requires |lists| == N_LISTS && Unique(lists) && NULL !in bs
    requires IsFree(bs, a) && Sized(bs[a]) && oldSize >= HEADER && oldSize % 8 == 0
    requires forall i, x :: InList(lists, i, x) ==>
               IsFree(bs, x) && Placed(g, i, if x == a then oldSize else bs[x].size)
    requires forall x :: IsFree(bs, x) ==> Listed(lists, x)
    ensures ListsAgree(g, bs, Move(g, lists, a, bs[a].size, oldSize), NULL)
  {
    var size := bs[a].size;
    if Moves(g, size, oldSize) {
      var mid := Remove(lists, a);
      RemoveMembers(lists, a);
      InsertMembers(mid, a, size);
      InsertedIsPlaced(g, size);
      var r := Insert(mid, a, size);
      forall x | IsFree(bs, x) ensures Listed(r, x) {
        if x == a {
          assert InList(r, SizeToIndex(size), a);
        } else {
          assert InList(mid, Home(lists, x), x) && InList(r, Home(lists, x), x);
        }
      }
    } else {
      UnmovedIsPlaced(g, Home(lists, a), size, oldSize);
    }
  }

  /** A block on the list for its old size is afterwards on the list for its new size: always if the
      guard compared list indices, and under the guard as coded if and only if one of the sizes is
      below 472 or the list is the same. */
  lemma MoveIsExact(g: Guard, lists: Lists, a: int, size: int, oldSize: int)
    requires size >= HEADER && oldSize >= HEADER && size % 8 == 0 && oldSize % 8 == 0
    requires |lists| == N_LISTS && Unique(lists) && InList(lists, SizeToIndex(oldSize), a)
    ensures InList(Move(g, lists, a, size, oldSize), SizeToIndex(size), a) <==>
            g.ByIndex? || size < 472 || oldSize < 472 || SizeToIndex(size) == SizeToIndex(oldSize)
  {
    if Moves(g, size, oldSize) {
      RemoveMembers(lists, a);
      InsertMembers(Remove(lists, a), a, size);
    } else {
      assert InList(lists, SizeToIndex(size), a) <==> SizeToIndex(size) == SizeToIndex(oldSize);
    }
  }

  lemma InsertKeeps(g: Guard, h: Heap, a: int)
    requires InvBut(g, h, a) && IsFree(h.blocks, a)
    requires !IsFree(h.blocks, LeftOf(h.blocks, a)) && !IsFree(h.blocks, RightOf(h.blocks, a))
    ensures Inv(g, h.(lists := Insert(h.lists, a, h.blocks[a].size)))
  {
    var bs, size := h.blocks, h.blocks[a].size;
    var r := Insert(h.lists, a, size);
    assert !Listed(h.lists, a);
    InsertMembers(h.lists, a, size);
    InsertedIsPlaced(g, size);
    forall x | IsFree(bs, x) ensures Listed(r, x) {
      if x == a {
        assert InList(r, SizeToIndex(size), a);
      } else {
        assert InList(r, Home(h.lists, x), x);
      }
    }
    forall x ensures NoFreePair(bs, x) {
      assert JoinsRight(bs, x);
    }
  }

  /** Merging a pair of which neither outer neighbour is free leaves no free pair, if the only free
      pairs were around `loose`, one of the two. */
  lemma MergeCoalesced(bs: Blocks, a: int, loose: int)
    requires Tiled(bs) && IsFree(bs, a) && IsFree(bs, RightOf(bs, a)) && Coalesced(bs, loose)
    requires loose == a || loose == RightOf(bs, a)
    requires !IsFree(bs, LeftOf(bs, a))
    requires RightOf(bs, RightOf(bs, a)) in bs && !IsFree(bs, RightOf(bs, RightOf(bs, a)))
    ensures Coalesced(Merge(bs, a), NULL)
  {
    var r, bs' := RightOf(bs, a), Merge(bs, a);
    Neighbours(bs, a);
    Neighbours(bs, r);
    forall x ensures NoFreePair(bs', x) {
      if IsFree(bs', x) && x != a {
        Neighbours(bs, x);
        assert NoFreePair(bs, x);
      }
    }
  }

  lemma MergeLeftKeeps(g: Guard, h: Heap, a: int)
    requires InvBut(g, h, a) && IsFree(h.blocks, a)
    requires IsFree(h.blocks, LeftOf(h.blocks, a)) && !IsFree(h.blocks, RightOf(h.blocks, a))
    ensures Inv(g, Coalesce(g, h, a))
  {
    var bs, l := h.blocks, LeftOf(h.blocks, a);
    Neighbours(bs, a);
    Neighbours(bs, l);
    MergeTiled(bs, l);
    LeftOfFreeIsNotFree(bs, l, a);
    MergeCoalesced(bs, l, a);
    MoveAgrees(g, Merge(bs, l), h.lists, l, bs[l].size);
  }

  lemma LeftOfFreeIsNotFree(bs: Blocks, a: int, loose: int)
    requires Tiled(bs) && Coalesced(bs, loose) && IsFree(bs, a)
    requires a != loose && LeftOf(bs, a) != loose
    ensures !IsFree(bs, LeftOf(bs, a))
  {
    Neighbours(bs, a);
    assert NoFreePair(bs, LeftOf(bs, a));
  }

  lemma RightOfFreeIsNotFree(bs: Blocks, a: int, loose: int)
    requires Tiled(bs) && Coalesced(bs, loose) && IsFree(bs, a)
    requires a != loose && RightOf(bs, a) != loose
    ensures !IsFree(bs, RightOf(bs, a))
  {
    assert NoFreePair(bs, a);
  }

  lemma MergeRightAgrees(g: Guard, h: Heap, a: int)
    requires Tiled(h.blocks) && ListsAgree(g, h.blocks, h.lists, a) && IsFree(h.blocks, a)
    requires !IsFree(h.blocks, LeftOf(h.blocks, a)) && IsFree(h.blocks, RightOf(h.blocks, a))
    ensures ListsAgree(g, Coalesce(g, h, a).blocks, Coalesce(g, h, a).lists, NULL)
  {
    var bs, r := h.blocks, RightOf(h.blocks, a);
    CoalesceRightIs(g, h, a);
    hide *;
    ReplacedAgrees(g, bs, Merge(bs, a), h.lists, a, r);
    MoveAgrees(g, Merge(bs, a), Replace(h.lists, r, a), a, bs[r].size);
  }

  lemma CoalesceRightIs(g: Guard, h: Heap, a: int)
    requires Tiled(h.blocks) && IsFree(h.blocks, a) && |h.lists| == N_LISTS
    requires !IsFree(h.blocks, LeftOf(h.blocks, a)) && IsFree(h.blocks, RightOf(h.blocks, a))
    ensures var bs, r := h.blocks, RightOf(h.blocks, a);
      && RightOf(bs, r) in bs && |Replace(h.lists, r, a)| == N_LISTS && r != a
      && bs[r].size >= HEADER && bs[r].size % 8 == 0
      && var bs' := Merge(bs, a);
      && IsFree(bs', a) && Sized(bs'[a]) && bs'[a].size >= HEADER && NULL !in bs'
      && bs'.Keys == bs.Keys - {r} && (forall x :: x in bs' ==> bs'[x].kind == bs[x].kind)
      && (forall x :: x in bs' && x != a ==> bs'[x].size == bs[x].size)
      && Coalesce(g, h, a) == h.(blocks := bs', lists := Move(g, Replace(h.lists, r, a), a, bs'[a].size, bs[r].size))
  {
    Neighbours(h.blocks, a);
    Neighbours(h.blocks, RightOf(h.blocks, a));
    hide Replace, Move;
    assert Sized(Merge(h.blocks, a)[a]);
  }

  /** The lists with a in the place of r, before move_coalesced sees to a. */
  lemma ReplacedAgrees(g: Guard, bs: Blocks, bs': Blocks, lists: Lists, a: int, r: int)
    requires ListsAgree(g, bs, lists, a) && IsFree(bs, r) && a in bs && a in bs' && bs'.Keys == bs.Keys - {r} && r != a
    requires bs[a].kind.Free? && forall x :: x in bs' ==> bs'[x].kind == bs[x].kind
    requires forall x :: x in bs' && x != a ==> bs'[x].size == bs[x].size
    ensures var mid := Replace(lists, r, a);
      && Unique(mid)
      && (forall i, x :: InList(mid, i, x) ==> IsFree(bs', x) && Placed(g, i, if x == a then bs[r].size else bs'[x].size))
      && (forall x :: IsFree(bs', x) ==> Listed(mid, x))
  {
    ReplaceMembers(lists, r, a);
    hide Replace, Placed;
    var mid := Replace(lists, r, a);
    forall x | IsFree(bs', x) ensures Listed(mid, x) {
      if x == a {
        assert InList(mid, Home(lists, r), a);
      } else {
        assert IsFree(bs, x) && InList(mid, Home(lists, x), x);
      }
    }
  }

  lemma MergeRightKeeps(g: Guard, h: Heap, a: int)
    requires InvBut(g, h, a) && IsFree(h.blocks, a)
    requires !IsFree(h.blocks, LeftOf(h.blocks, a)) && IsFree(h.blocks, RightOf(h.blocks, a))
    ensures Inv(g, Coalesce(g, h, a))
  {
    var bs, r := h.blocks, RightOf(h.blocks, a);
    Neighbours(bs, a);
    Neighbours(bs, r);
    MergeTiled(bs, a);
    RightOfFreeIsNotFree(bs, r, a);
    MergeCoalesced(bs, a, a);
    MergeRightAgrees(g, h, a);
  }

  lemma MergeThreeCoalesced(bs: Blocks, l: int, a: int)
    requires Tiled(bs) && IsFree(bs, l) && a == RightOf(bs, l) && IsFree(bs, a) && IsFree(bs, RightOf(bs, a))
    requires Coalesced(bs, a)
    ensures RightOf(bs, RightOf(bs, a)) in bs && Tiled(MergeThree(bs, l)) && Coalesced(MergeThree(bs, l), NULL)
  {
    var r := RightOf(bs, a);
    MergeThreeTiled(bs, l);
    Neighbours(bs, a);
    Neighbours(bs, l);
    LeftOfFreeIsNotFree(bs, l, a);
    RightOfFreeIsNotFree(bs, r, a);
    var mid := Merge(bs, l);
    forall x | x != l && (x in mid ==> RightOf(mid, x) != l) ensures NoFreePair(mid, x) {
      if IsFree(mid, x) {
        Neighbours(bs, x);
        assert NoFreePair(bs, x);
      }
    }
    MergeCoalesced(mid, l, l);
  }

  /** Merging three free blocks leaves the other free blocks alone. */
  lemma MergeThreeFree(bs: Blocks, l: int)
    requires Tiled(bs) && IsFree(bs, l) && IsFree(bs, RightOf(bs, l)) && IsFree(bs, RightOf(bs, RightOf(bs, l)))
    ensures var a := RightOf(bs, l); var r := RightOf(bs, a);
      && RightOf(bs, r) in bs
      && var bs' := MergeThree(bs, l);
      && bs'.Keys == bs.Keys - {a, r} && bs'[l] == bs[l].(size := bs[l].size + bs[a].size + bs[r].size)
      && (forall x :: x in bs' ==> bs'[x].kind == bs[x].kind)
      && (forall x :: x in bs' && x != l ==> bs'[x].size == bs[x].size)
  {
    var a := RightOf(bs, l);
    Neighbours(bs, a);
    Neighbours(bs, RightOf(bs, a));
  }

  lemma MergeBothAgrees(g: Guard, h: Heap, a: int)
    requires Tiled(h.blocks) && ListsAgree(g, h.blocks, h.lists, a) && IsFree(h.blocks, a)
    requires IsFree(h.blocks, LeftOf(h.blocks, a)) && IsFree(h.blocks, RightOf(h.blocks, a))
    ensures ListsAgree(g, Coalesce(g, h, a).blocks, Coalesce(g, h, a).lists, NULL)
  {
    var bs, l, r := h.blocks, LeftOf(h.blocks, a), RightOf(h.blocks, a);
    CoalesceBothIs(g, h, a);
    hide *;
    var bs', lists := MergeThree(bs, l), Remove(h.lists, r);
    RemovedAgrees(g, bs, bs', h.lists, l, a, r);
    MoveAgrees(g, bs', lists, l, bs[l].size);
  }

  lemma CoalesceBothIs(g: Guard, h: Heap, a: int)
    requires Tiled(h.blocks) && IsFree(h.blocks, a) && |h.lists| == N_LISTS
    requires IsFree(h.blocks, LeftOf(h.blocks, a)) && IsFree(h.blocks, RightOf(h.blocks, a))
    ensures var bs, l, r := h.blocks, LeftOf(h.blocks, a), RightOf(h.blocks, a);
      && RightOf(bs, l) == a && RightOf(bs, r) in bs && |Remove(h.lists, r)| == N_LISTS
      && bs[l].size >= HEADER && bs[l].size % 8 == 0
      && var bs' := MergeThree(bs, l);
      && l in bs' && IsFree(bs', l) && Sized(bs'[l]) && bs'[l].size >= HEADER && NULL !in bs'
      && bs'.Keys == bs.Keys - {a, r} && (forall x :: x in bs' ==> bs'[x].kind == bs[x].kind)
      && (forall x :: x in bs' && x != l ==> bs'[x].size == bs[x].size)
      && Coalesce(g, h, a) == h.(blocks := bs', lists := Move(g, Remove(h.lists, r), l, bs'[l].size, bs[l].size))
  {
    var bs, l := h.blocks, LeftOf(h.blocks, a);
    Neighbours(bs, a);
    Neighbours(bs, l);
    MergeThreeFree(bs, l);
    hide Remove, Move;
    assert Sized(MergeThree(bs, l)[l]);
  }

  /** The lists without r, before move_coalesced sees to l. */
  lemma RemovedAgrees(g: Guard, bs: Blocks, bs': Blocks, lists: Lists, l: int, a: int, r: int)
    requires ListsAgree(g, bs, lists, a) && l in bs && l in bs' && bs'.Keys == bs.Keys - {a, r}
    requires forall x :: x in bs' ==> bs'[x].kind == bs[x].kind
    requires forall x :: x in bs' && x != l ==> bs'[x].size == bs[x].size
    ensures var mid := Remove(lists, r);
      && Unique(mid)
      && (forall i, x :: InList(mid, i, x) ==> IsFree(bs', x) && Placed(g, i, if x == l then bs[l].size else bs'[x].size))
      && (forall x :: IsFree(bs', x) ==> Listed(mid, x))
  {
    RemoveMembers(lists, r);
    hide Remove, Placed;
    var mid := Remove(lists, r);
    forall x | IsFree(bs', x) ensures Listed(mid, x) {
      assert IsFree(bs, x) && InList(mid, Home(lists, x), x);
    }
  }

  lemma MergeBothKeeps(g: Guard, h: Heap, a: int)
    requires InvBut(g, h, a) && IsFree(h.blocks, a)
    requires IsFree(h.blocks, LeftOf(h.blocks, a)) && IsFree(h.blocks, RightOf(h.blocks, a))
    ensures Inv(g, Coalesce(g, h, a))
  {
    var bs, l, r := h.blocks, LeftOf(h.blocks, a), RightOf(h.blocks, a);
    Neighbours(bs, a);
    MergeThreeCoalesced(bs, l, a);
    MergeBothAgrees(g, h, a);
  }

  /** Linking a freed block back, with every combination of free neighbours, restores the invariant. */
  lemma CoalesceKeeps(g: Guard, h: Heap, a: int)
    requires InvBut(g, h, a) && IsFree(h.blocks, a)
    ensures Inv(g, Coalesce(g, h, a))
  {
    var l, r := IsFree(h.blocks, LeftOf(h.blocks, a)), IsFree(h.blocks, RightOf(h.blocks, a));
    if !l && !r {
      InsertKeeps(g, h, a);
    } else if l && r {
      MergeBothKeeps(g, h, a);
    } else if l {
      MergeLeftKeeps(g, h, a);
    } else {
      MergeRightKeeps(g, h, a);
    }
  }

  lemma ReleaseKeeps(g: Guard, h: Heap, a: int)
    requires Inv(g, h) && IsUsed(h.blocks, a)
    ensures Inv(g, Release(g, h, a))
  {
    SetKindTiled(h.blocks, a, Free);
    var bs' := SetKind(h.blocks, a, Free);
    forall x | x != a && (x in bs' ==> RightOf(bs', x) != a) ensures NoFreePair(bs', x) {
      assert NoFreePair(h.blocks, x);
    }
    CoalesceKeeps(g, h.(blocks := bs'), a);
  }

  lemma FirstFitFinds(bs: Blocks, l: seq<int>, size: int)
    requires forall a :: a in l ==> a in bs
    requires NULL !in bs
    ensures var a := FirstFit(bs, l, size);
      if a == NULL then forall b :: b in l ==> bs[b].size < size
      else a in l && bs[a].size >= size
  {}

  /** What is chosen is a free block that is large enough; NULL means the list looked at has none. */
  lemma FitFinds(g: Guard, h: Heap, size: int)
    requires Inv(g, h) && size >= HEADER
    ensures var a := Fit(g, h, size);
      if a == NULL then forall b :: b in Candidates(h, size) ==> b in h.blocks && h.blocks[b].size < size
      else a in Candidates(h, size) && IsFree(h.blocks, a) && h.blocks[a].size >= size
  {
    var i := NextPopulated(h.lists, SizeToIndex(size));
    assert forall b :: b in Candidates(h, size) ==> InList(h.lists, i, b);
    FirstFitFinds(h.blocks, Candidates(h, size), size);
  }

  lemma TakePartKeeps(g: Guard, h: Heap, a: int, size: int)
    requires Inv(g, h) && IsFree(h.blocks, a)
    requires HEADER <= size && size + HEADER <= h.blocks[a].size && size % 8 == 0
    ensures Inv(g, Take(g, h, a, size))
  {
    TakePartIs(g, h, a, size);
    hide *;
    PartAgrees(g, h.blocks, Split(h.blocks, a, size), h.lists, a);
    InvParts(g, Take(g, h, a, size));
  }

  lemma InvParts(g: Guard, h: Heap)
    requires Tiled(h.blocks) && Bounded(h) && ListsAgree(g, h.blocks, h.lists, NULL) && Coalesced(h.blocks, NULL)
    ensures Inv(g, h)
  {}

  lemma TakePartIs(g: Guard, h: Heap, a: int, size: int)
    requires Inv(g, h) && IsFree(h.blocks, a)
    requires HEADER <= size && size + HEADER <= h.blocks[a].size && size % 8 == 0
    ensures ListsAgree(g, h.blocks, h.lists, NULL) && Sized(h.blocks[a]) && RightOf(h.blocks, a) in h.blocks
    ensures var bs', h' := Split(h.blocks, a, size), Take(g, h, a, size);
      && NULL !in bs' && IsFree(bs', a) && Sized(bs'[a]) && (forall x :: IsFree(bs', x) <==> IsFree(h.blocks, x))
      && (forall x :: x in h.blocks && x in bs' && x != a ==> bs'[x].size == h.blocks[x].size)
      && h'.blocks == bs' && h'.lists == Move(g, h.lists, a, bs'[a].size, h.blocks[a].size)
      && Tiled(bs') && Bounded(h') && Coalesced(bs', NULL)
  {
    Neighbours(h.blocks, a);
    SplitTiled(h.blocks, a, size);
    SplitFree(h.blocks, a, size);
    hide Tiled, Coalesced, Move, ListsAgree;
  }

  /** move_coalesced after a split. */
  lemma PartAgrees(g: Guard, bs: Blocks, bs': Blocks, lists: Lists, a: int)
    requires ListsAgree(g, bs, lists, NULL) && IsFree(bs, a) && Sized(bs[a]) && NULL !in bs'
    requires IsFree(bs', a) && Sized(bs'[a]) && forall x :: IsFree(bs', x) <==> IsFree(bs, x)
    requires forall x :: x in bs && x in bs' && x != a ==> bs'[x].size == bs[x].size
    ensures ListsAgree(g, bs', Move(g, lists, a, bs'[a].size, bs[a].size), NULL)
  {
    hide Move, Placed, Unique;
    MoveAgrees(g, bs', lists, a, bs[a].size);
  }

  /** A split changes which blocks are free in no way, and the size of none but a. */
  lemma SplitFree(bs: Blocks, a: int, size: int)
    requires Tiled(bs) && Coalesced(bs, NULL) && IsFree(bs, a)
    requires HEADER <= size && size + HEADER <= bs[a].size && size % 8 == 0
    requires RightOf(bs, a) in bs && a + bs[a].size - size !in bs
    ensures var bs' := Split(bs, a, size);
      && (forall x :: IsFree(bs', x) <==> IsFree(bs, x))
      && (forall x :: x in bs ==> x in bs' && (x != a ==> bs'[x].size == bs[x].size) && bs'[x].kind == bs[x].kind)
      && (forall x :: x in bs' && !IsFree(bs', x) && !IsUsed(bs', x) ==> x in bs)
      && Sized(bs'[a]) && bs'[a].size == bs[a].size - size && NULL !in bs' && Coalesced(bs', NULL)
  {
    var bs' := Split(bs, a, size);
    assert NoFreePair(bs, a);
    forall x ensures NoFreePair(bs', x) {
      if IsFree(bs', x) && x != a {
        Neighbours(bs, x);
        assert NoFreePair(bs, x);
      }
    }
  }

  lemma TakeAllKeeps(g: Guard, h: Heap, a: int, size: int)
    requires Inv(g, h) && IsFree(h.blocks, a)
    requires HEADER <= size <= h.blocks[a].size < size + HEADER
    ensures Inv(g, Take(g, h, a, size))
  {
    var bs := h.blocks;
    SetKindTiled(bs, a, Used);
    var bs' := SetKind(bs, a, Used);
    forall x ensures NoFreePair(bs', x) {
      assert NoFreePair(bs, x);
    }
    RemoveMembers(h.lists, a);
    var lists := Remove(h.lists, a);
    forall x | IsFree(bs', x) ensures Listed(lists, x) {
      assert InList(lists, Home(h.lists, x), x);
    }
  }

  lemma TakeKeeps(g: Guard, h: Heap, a: int, size: int)
    requires Inv(g, h) && IsFree(h.blocks, a)
    requires HEADER <= size <= h.blocks[a].size && size % 8 == 0
    ensures Inv(g, Take(g, h, a, size))
  {
    if h.blocks[a].size >= size + HEADER {
      TakePartKeeps(g, h, a, size);
    } else {
      TakeAllKeeps(g, h, a, size);
    }
  }

  lemma GrowKeeps(g: Guard, h: Heap, words: nat)
    requires Inv(g, h)
    ensures Inv(g, Grow(g, h, words))
  {
    if words == 0 {
      SwallowKeeps(g, h);
    } else {
      AddChunkKeeps(g, h, words);
    }
  }

  lemma SwallowKeeps(g: Guard, h: Heap)
    requires Inv(g, h)
    ensures Inv(g, Grow(g, h, 0))
  {
    var bs, f := h.blocks, h.last;
    SwallowFenceTiled(bs, f);
    SwallowFits(g, h);
    hide Coalesce, Tiled, InvBut, SwallowFence;
    CoalesceKeeps(g, h.(blocks := SwallowFence(bs, f), last := f + ARENA), f);
  }

  /** All is in order but the swallowed fencepost pair, which is free and not linked yet. */
  lemma SwallowFits(g: Guard, h: Heap)
    requires Inv(g, h)
    ensures var mid := h.(blocks := SwallowFence(h.blocks, h.last), last := h.last + ARENA);
      InvBut(g, mid, h.last) && IsFree(mid.blocks, h.last)
  {
    var bs, f := h.blocks, h.last;
    SwallowFenceTiled(bs, f);
    hide Tiled;
    var bs' := SwallowFence(bs, f);
    forall x | x != f && (x in bs' ==> RightOf(bs', x) != f) ensures NoFreePair(bs', x) {
      assert NoFreePair(bs, x);
    }
    forall x | IsFree(bs', x) && x != f ensures Listed(h.lists, x) {
      assert IsFree(bs, x);
    }
  }

  lemma AddChunkAgrees(g: Guard, h: Heap, words: nat)
    requires Inv(g, h) && words > 0
    ensures ListsAgree(g, Grow(g, h, words).blocks, Grow(g, h, words).lists, NULL)
  {
    var bs, base := h.blocks, h.last + ALLOC_HEADER + 8 * words;
    var bs', a, size := AddChunk(bs, base), base + ALLOC_HEADER, ARENA - 2 * ALLOC_HEADER;
    assert !IsFree(bs, a) && !Listed(h.lists, a);
    InsertMembers(h.lists, a, size);
    var lists := Insert(h.lists, a, size);
    forall x | IsFree(bs', x) ensures Listed(lists, x) {
      if x == a {
        assert InList(lists, SizeToIndex(size), a);
      } else {
        assert IsFree(bs, x) && InList(lists, Home(h.lists, x), x);
      }
    }
  }

  lemma AddChunkKeeps(g: Guard, h: Heap, words: nat)
    requires Inv(g, h) && words > 0
    ensures Inv(g, Grow(g, h, words))
  {
    var bs, base := h.blocks, h.last + ALLOC_HEADER + 8 * words;
    forall x | x in bs ensures RightOf(bs, x) <= base {
      assert Apart(bs, x, h.last);
    }
    AddChunkTiled(bs, base);
    var bs' := AddChunk(bs, base);
    forall x ensures NoFreePair(bs', x) {
      assert NoFreePair(bs, x) && JoinsRight(bs, x);
    }
    AddChunkAgrees(g, h, words);
  }
}
