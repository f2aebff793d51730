/** MallocHeap of snap_malloc: headers and links updated in place in word memory. */
module MallocHeaps {
  import opened Layout
  import opened Tags
  import opened FreeLists
  import opened HeapModel
  import opened HeapRuns
  import opened HeapTheorems
  import opened Words
  import opened Representation

  class MallocHeap {
    var mem: Words                 // the memory the process owns, sentinels included
    var bitmap: seq<bool>          // freelist_bitmap
    var lastFencePost: int
    var osChunkList: seq<int>
    var os: seq<Sbrk>              // what sbrk is going to answer
    var programBreak: int          // the end of the last chunk from sbrk
    ghost var heap: Heap           // what the memory represents

    /** The lists in memory are heap.lists, and the bitmap says which are populated. */
    ghost predicate Links()
      reads this
    {
      && RingsIn(mem, heap.lists) && NodesApart(heap.lists)
      && |bitmap| == N_LISTS
      && (forall i :: 0 <= i < N_LISTS ==> (bitmap[i] <==> heap.lists[i] != []))
    }

    /** The memory is a representation of heap, but for the state bits of `pending`. */
    ghost predicate Rep(pending: int)
      reads this
    {
      && Links()
      && Tiled(heap.blocks) && TagsIn(mem, heap.blocks, pending) && Owned(mem, heap.blocks)
      && osChunkList == heap.chunks
    }

    ghost predicate Valid()
      reads this
    {
      && Rep(NULL) && Inv(AsCoded, heap)
      && lastFencePost == heap.last && programBreak == lastFencePost + ALLOC_HEADER
    }

    // ---------------------------------------------------------------- header fields

    function BlockSize(h: int): int
      requires h in mem
      reads this
    {
      SizeBits(mem[h])
    }

    function BlockState(h: int): int
      requires h in mem
      reads this
    {
      StateBits(mem[h])
    }

    /** set_block_size: size | (size_and_state & 3), for a size with clear low bits */
    method SetBlockSize(h: int, size: int)
      requires h in mem && size % 4 == 0
      modifies this`mem
      ensures mem == Put(old(mem), h, size + StateBits(old(mem[h])))
      ensures SizeBits(mem[h]) == size && StateBits(mem[h]) == StateBits(old(mem[h]))
    {
      mem := Put(mem, h, size + StateBits(mem[h]));
    }

    /** set_block_state */
    method SetBlockState(h: int, k: Kind)
      requires h in mem
      modifies this`mem
      ensures mem == Put(old(mem), h, SizeBits(old(mem[h])) + Code(k))
      ensures SizeBits(mem[h]) == SizeBits(old(mem[h])) && StateBits(mem[h]) == Code(k)
    {
      mem := Put(mem, h, SizeBits(mem[h]) + Code(k));
    }

    // ---------------------------------------------------------------- free lists

    /** get_next_set_bit */
    method GetNextSetBit(start: nat) returns (i: nat)
      requires Links() && start < N_LISTS
      ensures i == NextPopulated(heap.lists, start)
    {
      i := start;
      while i < N_LISTS - 1
        invariant start <= i < N_LISTS
        invariant NextPopulated(heap.lists, start) == NextPopulated(heap.lists, i)
      {
        if bitmap[i] {
          return;
        }
        i := i + 1;
      }
    }

    /** freelist_remove */
    method FreelistRemove(block: int)
      requires Links() && Listed(heap.lists, block)
      modifies this`mem, this`bitmap, this`heap
      ensures Links() && heap == old(heap).(lists := Remove(old(heap.lists), block))
      ensures SameButLinks(old(mem), mem, old(heap.lists))
    {
      ghost var lists, k := heap.lists, Home(heap.lists, block);
      ghost var p := Position(lists[k], block);
      NodeWords(mem, lists, k, p + 1);
      NodeWords(mem, lists, k, p);
      NodeWords(mem, lists, k, if p + 2 <= |lists[k]| then p + 2 else 0);
      RingOfOne(mem, lists, k, p);
      if mem[mem[block + NEXT] + NEXT] == block {
        var index := (mem[block + NEXT] - TABLE) / HEADER;
        bitmap := bitmap[index := false];
      }
      ghost var m := mem;
      mem := Put(mem, mem[block + PREV] + NEXT, mem[block + NEXT]);
      mem := Put(mem, mem[block + NEXT] + PREV, mem[block + PREV]);
      RemoveRings(m, mem, lists, block);
      heap := heap.(lists := Remove(lists, block));
    }

    /** freelist_insert */
    method FreelistInsert(block: int)
      requires Links() && FreshNode(heap.lists, block)
      requires block in mem && BlockSize(block) >= HEADER && block + NEXT in mem && block + PREV in mem
      modifies this`mem, this`bitmap, this`heap
      ensures Links() && heap == old(heap).(lists := Insert(old(heap.lists), block, old(BlockSize(block))))
      ensures SameButLinks(old(mem), mem, heap.lists)
    {
      var size := BlockSize(block);
      ghost var lists := heap.lists;
      var i := SizeToIndex(size);
      bitmap := bitmap[i := true];
      IndexFormulasAgree(size);
      var sentinel := TABLE + HEADER * SentinelIndex(size);
      NodeWords(mem, lists, i, 0);
      NodeWords(mem, lists, i, if lists[i] == [] then 0 else 1);
      InsertPopulates(lists, block, size);
      hide RingsIn, NodesApart, FreshNode, SizeBits, SizeToIndex, SentinelIndex, Insert;
      ghost var m := mem;
      FreelistInsertBetween(block, sentinel, mem[sentinel + NEXT]);
      InsertRings(m, mem, lists, block, size);
      heap := heap.(lists := Insert(lists, block, size));
    }

    /** freelist_insert_between */
    method FreelistInsertBetween(block: int, prev: int, next: int)
      requires block + NEXT in mem && block + PREV in mem && next + PREV in mem && prev + NEXT in mem
      modifies this`mem
      ensures mem == old(mem)[block + NEXT := next][block + PREV := prev][next + PREV := block][prev + NEXT := block]
    {
      mem := Put(mem, block + NEXT, next);
      mem := Put(mem, block + PREV, prev);
      mem := Put(mem, next + PREV, block);
      mem := Put(mem, prev + NEXT, block);
    }

    /** move_coalesced */
    method MoveCoalesced(block: int, oldSize: int, ghost pending: int)
      requires Rep(pending) && ListsFree(heap.blocks, heap.lists) && Listed(heap.lists, block) && oldSize >= HEADER
      modifies this`mem, this`bitmap, this`heap
      ensures Rep(pending) && block in old(heap.blocks) && old(heap.blocks[block]).size >= HEADER
      ensures heap == old(heap).(lists :=
                Move(AsCoded, old(heap.lists), block, old(heap.blocks[block]).size, oldSize))
      ensures PayloadsKept(old(mem), mem, Live(heap.blocks)) && SameButLinks(old(mem), mem, old(heap.lists))
    {
      ghost var m, bs, lists := mem, heap.blocks, heap.lists;
      assert IsFree(bs, block) && TagAt(m, bs, block, pending) by {
        assert InList(lists, Home(lists, block), block);
      }
      LinksApart(bs, lists);
      if BlockSize(block) / 8 != oldSize / 8 && (BlockSize(block) / 8 < N_LISTS || oldSize / 8 < N_LISTS) {
        Relink(block);
      }
      LinksFrame(m, mem, bs, lists, pending);
    }

    /** The two calls move_coalesced makes: remove and insert. */
    method Relink(block: int)
      requires Links() && Listed(heap.lists, block)
      requires block in mem && BlockSize(block) >= HEADER && !LinkWord(heap.lists, block)
      modifies this`mem, this`bitmap, this`heap
      ensures Links() && SameButLinks(old(mem), mem, old(heap.lists))
      ensures heap == old(heap).(lists :=
                Insert(Remove(old(heap.lists), block), block, old(BlockSize(block))))
    {
      ghost var lists := heap.lists;
      RemoveMembers(lists, block);
      NodeWords(mem, lists, Home(lists, block), Position(lists[Home(lists, block)], block) + 1);
      FreelistRemove(block);
      forall i, x | InList(heap.lists, i, x) ensures x != block && NodesClear(x, block) {
        assert InList(lists, i, x) && InList(lists, Home(lists, block), block);
      }
      InsertMembers(heap.lists, block, BlockSize(block));
      FreelistInsert(block);
    }

    // ---------------------------------------------------------------- free

    /** The word at block reads as the header of a free block. */
    ghost predicate StaleFree(block: int)
      reads this
    {
      block in mem && BlockState(block) == 0
    }

    /** The size updates of coalesce_left and coalesce_right. */
    method MergeSizes(block: int, right: int)
      requires Rep(NULL) && ListsFree(heap.blocks, heap.lists)
      requires IsFree(heap.blocks, block) && right == RightOf(heap.blocks, block) && IsFree(heap.blocks, right)
      modifies this`mem, this`heap
      ensures RightOf(old(heap.blocks), right) in old(heap.blocks)
      ensures Rep(NULL) && heap == old(heap).(blocks := Merge(old(heap.blocks), block))
      ensures PayloadsKept(old(mem), mem, Live(old(heap.blocks))) && Live(heap.blocks) == Live(old(heap.blocks))
      ensures StaleFree(right)
    {
      ghost var m, bs := mem, heap.blocks;
      UsedReads(m, bs, right);
      MergeReads(m, bs, block);
      MergeHolds(m, bs, heap.lists, block);
      var rightRight := right + BlockSize(right);
      SetBlockSize(block, BlockSize(block) + BlockSize(right));
      mem := Put(mem, rightRight + LEFT_SIZE, BlockSize(block));
      assert mem == MergeWords(m, block, bs[block].size + bs[right].size);
      heap := heap.(blocks := Merge(bs, block));
    }

    /** coalesce_left */
    method CoalesceLeft(left: int, block: int)
      requires Rep(NULL) && ListsAgree(AsCoded, heap.blocks, heap.lists, block) && IsFree(heap.blocks, block)
      requires left == LeftOf(heap.blocks, block) && IsFree(heap.blocks, left)
      requires !IsFree(heap.blocks, RightOf(heap.blocks, block))
      modifies this`mem, this`bitmap, this`heap
      ensures Rep(NULL) && heap == Coalesce(AsCoded, old(heap), block)
      ensures PayloadsKept(old(mem), mem, Live(old(heap.blocks))) && StaleFree(block)
    {
      Neighbours(heap.blocks, block);
      MergeReads(mem, heap.blocks, left);
      LinksApart(heap.blocks, heap.lists);
      var oldSize := BlockSize(left);
      MergeSizes(left, block);
      MoveCoalesced(left, oldSize, NULL);
    }

    /** The pointer swap of coalesce_right: block takes the place of right in its ring. */
    method SwapInRing(block: int, right: int)
      requires Links() && Listed(heap.lists, right) && FreshNode(heap.lists, block)
      requires block + NEXT in mem && block + PREV in mem
      modifies this`mem, this`heap
      ensures Links() && heap == old(heap).(lists := Replace(old(heap.lists), right, block))
      ensures SameButLinks(old(mem), mem, heap.lists)
    {
      ghost var m, lists := mem, heap.lists;
      assert !Listed(lists, block);
      assert InList(lists, Home(lists, right), right);
      ListedWords(m, lists, right);
      ReplaceRings(m, lists, right, block);
      ReplaceLinks(m, lists, right, block);
      ReplaceApart(lists, right, block);
      ReplaceKeepsPopulated(lists, right, block);
      SwapApart(lists, block, right);
      hide RingsIn, NodesApart, FreshNode, Listed, Replace, SameButLinks, SwapLinks;
      SwapPointers(block, right);
      heap := heap.(lists := Replace(lists, right, block));
    }

    /** Its four stores. */
    method SwapPointers(block: int, right: int)
      requires block + NEXT in mem && block + PREV in mem && right + NEXT in mem && right + PREV in mem
      requires mem[right + PREV] + NEXT in mem && mem[right + NEXT] + PREV in mem
      requires block + NEXT != right + PREV && mem[right + PREV] + NEXT != block + NEXT
      modifies this`mem
      ensures mem == SwapLinks(old(mem), right, block)
    {
      ghost var next, prev := mem[right + NEXT], mem[right + PREV];
      mem := Put(mem, block + NEXT, mem[right + NEXT]);
      mem := Put(mem, block + PREV, mem[right + PREV]);
      assert mem == old(mem)[block + NEXT := next][block + PREV := prev];
      mem := Put(mem, mem[block + PREV] + NEXT, block);
      mem := Put(mem, mem[block + NEXT] + PREV, block);
    }

    /** coalesce_right */
    method CoalesceRight(block: int, right: int)
      requires Rep(NULL) && ListsAgree(AsCoded, heap.blocks, heap.lists, block) && IsFree(heap.blocks, block)
      requires right == RightOf(heap.blocks, block)
      requires IsFree(heap.blocks, right) && !IsFree(heap.blocks, LeftOf(heap.blocks, block))
      modifies this`mem, this`bitmap, this`heap
      ensures Rep(NULL) && heap == Coalesce(AsCoded, old(heap), block)
      ensures PayloadsKept(old(mem), mem, Live(old(heap.blocks))) && StaleFree(block)
    {
      ghost var bs, lists := heap.blocks, heap.lists;
      MergeReads(mem, bs, block);
      CoalesceRightIs(AsCoded, heap, block);
      var oldSize := BlockSize(right);
      MergeSizes(block, right);
      SwapFacts(mem, bs, lists, block);
      hide Coalesce, Merge, Replace, Move, Tiled, PayloadsKept, Live;
      ghost var m1 := mem;
      SwapInRing(block, right);
      LinksFrame(m1, mem, heap.blocks, heap.lists, NULL);
      MoveCoalesced(block, oldSize, NULL);
      UsedReads(mem, heap.blocks, block);
    }

    /** The size updates of coalesce_both. */
    method MergeThreeSizes(left: int, block: int, right: int)
      requires Rep(NULL) && ListsFree(heap.blocks, heap.lists)
      requires IsFree(heap.blocks, left) && block == RightOf(heap.blocks, left) && IsFree(heap.blocks, block)
      requires right == RightOf(heap.blocks, block) && IsFree(heap.blocks, right)
      modifies this`mem, this`heap
      ensures RightOf(old(heap.blocks), right) in old(heap.blocks)
      ensures Rep(NULL) && heap == old(heap).(blocks := MergeThree(old(heap.blocks), left))
      ensures PayloadsKept(old(mem), mem, Live(old(heap.blocks))) && StaleFree(block)
    {
      ghost var m, bs := mem, heap.blocks;
      UsedReads(m, bs, block);
      assert StaleFree(block) && left < block < right < RightOf(bs, right);
      MergeThreeFacts(m, bs, heap.lists, left);
      hide Tiled, ListsFree, Live, PayloadsKept, MergeThree, TagsIn, Owned, RingsIn, NodesApart, IsFree, StateBits, SizeBits;
      var rightRight := right + BlockSize(right);
      SetBlockSize(left, BlockSize(left) + BlockSize(block) + BlockSize(right));
      mem := Put(mem, rightRight + LEFT_SIZE, BlockSize(left));
      assert mem == MergeWords(m, left, rightRight - left);
      heap := heap.(blocks := MergeThree(bs, left));
    }

    /** coalesce_both */
    method CoalesceBoth(left: int, block: int, right: int)
      requires Rep(NULL) && ListsAgree(AsCoded, heap.blocks, heap.lists, block) && IsFree(heap.blocks, block)
      requires left == LeftOf(heap.blocks, block) && right == RightOf(heap.blocks, block)
      requires IsFree(heap.blocks, left) && IsFree(heap.blocks, right)
      modifies this`mem, this`bitmap, this`heap
      ensures Rep(NULL) && heap == Coalesce(AsCoded, old(heap), block)
      ensures PayloadsKept(old(mem), mem, Live(old(heap.blocks))) && StaleFree(block)
    {
      ghost var bs, lists := heap.blocks, heap.lists;
      Neighbours(bs, block);
      TagReads(mem, bs, left);
      NoLinkWord(bs, lists, block, right);
      var oldSize := BlockSize(left);
      MergeThreeSizes(left, block, right);
      BothFacts(bs, lists, block);
      CoalesceBothIs(AsCoded, heap.(blocks := bs), block);
      CoalesceLive(AsCoded, old(heap), block);
      hide Coalesce, MergeThree, Remove, Move, Tiled, ListsFree, PayloadsKept, Live;
      ghost var m1 := mem;
      FreelistRemove(right);
      LinksFrameMerged(m1, mem, bs, heap.blocks, lists);
      MoveCoalesced(left, oldSize, NULL);
    }

    /** free_list_deallocate */
    method FreeListDeallocate(block: int)
      requires Rep(NULL) && ListsAgree(AsCoded, heap.blocks, heap.lists, block) && IsFree(heap.blocks, block)
      modifies this`mem, this`bitmap, this`heap
      ensures Rep(NULL) && heap == Coalesce(AsCoded, old(heap), block)
      ensures PayloadsKept(old(mem), mem, Live(old(heap.blocks))) && StaleFree(block)
    {
      ghost var m, bs := mem, heap.blocks;
      Neighbours(bs, block);
      TagReads(m, bs, block);
      var left := block - mem[block + LEFT_SIZE];
      var right := block + BlockSize(block);
      TagReads(m, bs, left);
      TagReads(m, bs, right);
      if BlockState(left) != 0 && BlockState(right) != 0 {
        InsertFacts(m, bs, heap.lists, block);
        FreelistInsert(block);
        InsertListsFree(bs, old(heap.lists), block);
        LinksFrame(m, mem, bs, heap.lists, NULL);
        UsedReads(mem, bs, block);
      } else if BlockState(left) == 0 && BlockState(right) == 0 {
        CoalesceBoth(left, block, right);
      } else if BlockState(left) == 0 {
        CoalesceLeft(left, block);
      } else if BlockState(right) == 0 {
        CoalesceRight(block, right);
      }
    }

    /** set_block_state on an inner block. */
    method MarkBlock(block: int, k: Kind)
      requires Rep(if k.Used? then block else NULL) && ListsFree(heap.blocks, heap.lists)
      requires IsInner(heap.blocks, block) && (k.Free? || k.Used?)
      modifies this`mem, this`heap
      ensures Rep(NULL) && heap == old(heap).(blocks := SetKind(old(heap.blocks), block, k))
      ensures PayloadsKept(old(mem), mem, Live(old(heap.blocks)))
    {
      ghost var m, bs := mem, heap.blocks;
      assert TagAt(m, bs, block, if k.Used? then block else NULL);
      SetBlockState(block, k);
      SetKindTiled(bs, block, k);
      KindWrite(m, mem, bs, heap.lists, block, k);
      heap := heap.(blocks := SetKind(bs, block, k));
    }

    /** The pointers that free can deal with: NULL, those of live blocks, and any whose header word says
        that the block is free, be it a free block or a stale header inside one. */
    ghost predicate Freeable(p: int)
      reads this
    {
      p == NULL || IsUsed(heap.blocks, p - ALLOC_HEADER)
      || StaleFree(p - ALLOC_HEADER)
    }

    /** Its last two calls, for a live block. */
    method FreeBlock(block: int)
      requires Valid() && IsUsed(heap.blocks, block)
      modifies this`mem, this`bitmap, this`heap
      ensures Valid() && heap == Release(AsCoded, old(heap), block)
      ensures PayloadsKept(old(mem), mem, Live(heap.blocks))
      ensures StaleFree(block) && !IsUsed(heap.blocks, block)
    {
      ReleaseFacts(heap, block);
      ghost var live, m := Live(heap.blocks), mem;
      MarkBlock(block, Free);
      ghost var m1 := mem;
      FreeListDeallocate(block);
      hide Release, Coalesce, Tiled, PayloadsKept, Live, IsUsed, TagsIn, Owned, Links;
      KeptAfterFree(m, m1, mem, live, block);
    }

    /** deallocate_object. Freeing what is already free stops the program, reported as `aborted`. */
    method DeallocateObject(p: int) returns (aborted: bool)
      requires Valid() && Freeable(p)
      modifies this`mem, this`bitmap, this`heap
      ensures aborted <==> p != NULL && !IsUsed(old(heap.blocks), p - ALLOC_HEADER)
      ensures p != NULL ==> StaleFree(p - ALLOC_HEADER) && !IsUsed(heap.blocks, p - ALLOC_HEADER)
      ensures aborted || p == NULL ==> mem == old(mem) && heap == old(heap) && bitmap == old(bitmap)
      ensures !aborted && p != NULL ==> heap == Release(AsCoded, old(heap), p - ALLOC_HEADER)
      ensures !aborted && p != NULL ==> PayloadsKept(old(mem), mem, Live(heap.blocks))
      ensures Valid()
    {
      if p == NULL {
        return false;
      }
      var block := p - ALLOC_HEADER;
      UsedReads(mem, heap.blocks, block);
      if BlockState(block) == 0 {
        return true;
      }
      FreeBlock(block);
      aborted := false;
    }

    // ---------------------------------------------------------------- malloc

    /** The header updates of split_block. */
    method SplitSizes(block: int, size: int) returns (ret: int)
      requires Rep(NULL) && ListsFree(heap.blocks, heap.lists) && IsFree(heap.blocks, block)
      requires HEADER <= size && size % 8 == 0 && size + HEADER <= heap.blocks[block].size
      modifies this`mem, this`heap
      ensures RightOf(old(heap.blocks), block) in old(heap.blocks)
      ensures ret == block + old(heap.blocks)[block].size - size && ret !in old(heap.blocks)
      ensures Rep(ret) && heap == old(heap).(blocks := Split(old(heap.blocks), block, size))
      ensures ListsFree(heap.blocks, heap.lists) && PayloadsKept(old(mem), mem, Live(old(heap.blocks)))
    {
      ghost var m, bs := mem, heap.blocks;
      SplitHolds(m, bs, heap.lists, block, size);
      DivisibleByFour(bs[block].size, size);
      ret := SplitTags(block, bs[block].size, size);
      heap := heap.(blocks := Split(bs, block, size));
    }

    /** The stores of split_block. */
    method SplitTags(block: int, ghost s: int, size: int) returns (ret: int)
      requires block in mem && BlockSize(block) == s && LEFT_SIZE < size < s - LEFT_SIZE
      requires (s - size) % 4 == 0 && size % 4 == 0
      requires block + s - size in mem && block + s - size + LEFT_SIZE in mem && block + s + LEFT_SIZE in mem
      modifies this`mem
      ensures ret == block + s - size && mem == SplitWords(old(mem), block, s, size)
    {
      hide SizeBits, StateBits;
      var remainder := block;
      var right := block + BlockSize(block);
      ret := block + BlockSize(block) - size;
      SetBlockSize(remainder, BlockSize(block) - size);
      SetBlockSize(ret, size);
      assert BlockSize(remainder) == s - size;
      mem := Put(mem, ret + LEFT_SIZE, BlockSize(remainder));
      assert BlockSize(ret) == size;
      mem := Put(mem, right + LEFT_SIZE, BlockSize(ret));
    }

    /** split_block */
    method SplitBlock(block: int, size: int) returns (ret: int)
      requires Rep(NULL) && ListsFree(heap.blocks, heap.lists) && Listed(heap.lists, block)
      requires IsFree(heap.blocks, block) && HEADER <= size && size % 8 == 0
      requires size + HEADER <= heap.blocks[block].size
      modifies this`mem, this`bitmap, this`heap
      ensures ret == Taken(old(heap), block, size)
      ensures Rep(ret) && heap == Take(AsCoded, old(heap), block, size)
      ensures PayloadsKept(old(mem), mem, Live(old(heap.blocks)))
    {
      TagReads(mem, heap.blocks, block);
      var oldSize := BlockSize(block);
      ret := SplitSizes(block, size);
      SplitLive(old(heap.blocks), block, size);
      ghost var m := mem;
      MoveCoalesced(block, oldSize, ret);
      PayloadsKeptTwice(old(mem), m, mem, Live(old(heap.blocks)), Live(heap.blocks));
    }

    /** The two ways free_list_get_allocable takes a block that is large enough. */
    method TakeBlock(cur: int, size: int) returns (h: int)
      requires Rep(NULL) && ListsFree(heap.blocks, heap.lists) && Listed(heap.lists, cur)
      requires IsFree(heap.blocks, cur) && HEADER <= size <= heap.blocks[cur].size && size % 8 == 0
      modifies this`mem, this`bitmap, this`heap
      ensures h == Taken(old(heap), cur, size)
      ensures Rep(h) && heap == Take(AsCoded, old(heap), cur, size)
      ensures PayloadsKept(old(mem), mem, Live(old(heap.blocks)))
    {
      ghost var m, bs, lists := mem, heap.blocks, heap.lists;
      TagReads(m, bs, cur);
      if BlockSize(cur) >= size + HEADER {
        h := SplitBlock(cur, size);
      } else {
        FreelistRemove(cur);
        TakeAllHolds(m, mem, bs, lists, cur);
        heap := heap.(blocks := SetKind(bs, cur, Used));
        h := cur;
      }
    }

    /** The loop of free_list_get_allocable: the first block of list i that is large enough, or the
        sentinel. */
    method FirstFitOn(i: nat, size: int) returns (cur: int)
      requires Rep(NULL) && i < N_LISTS
      requires forall a :: a in heap.lists[i] ==> a in heap.blocks
      ensures var a := FirstFit(heap.blocks, heap.lists[i], size); cur == if a == NULL then Sentinel(i) else a
    {
      var freelist := TABLE + HEADER * i;
      ghost var bs, l := heap.blocks, heap.lists[i];
      NodeWords(mem, heap.lists, i, 0);
      cur := mem[freelist + NEXT];
      ghost var p := 0;
      assert forall k :: 0 <= k < |l| ==> l[k] in l;
      while cur != freelist
        invariant 0 <= p <= |l| && cur == NodeAt(freelist, l, p + 1)
        invariant forall a :: a in l[p..] ==> a in bs
        invariant FirstFit(bs, l[p..], size) == FirstFit(bs, l, size)
        decreases |l| - p
      {
        assert cur == l[p] && cur in l;
        TagReads(mem, bs, cur);
        if BlockSize(cur) >= size {
          return;
        }
        NodeWords(mem, heap.lists, i, p + 1);
        cur := mem[cur + NEXT];
        assert l[p..][1..] == l[p + 1..];
        p := p + 1;
      }
    }

    /** free_list_get_allocable */
    method FreeListGetAllocable(size: int) returns (h: int)
      requires Valid() && size >= HEADER && size % 8 == 0
      modifies this`mem, this`bitmap, this`heap
      ensures Fit(AsCoded, old(heap), size) == NULL ==>
                h == NULL && heap == old(heap) && mem == old(mem) && bitmap == old(bitmap)
      ensures Fit(AsCoded, old(heap), size) != NULL ==>
                var a := Fit(AsCoded, old(heap), size);
                && IsFree(old(heap.blocks), a) && old(heap.blocks)[a].size >= size
                && h == Taken(old(heap), a, size) && Rep(h) && heap == Take(AsCoded, old(heap), a, size)
                && PayloadsKept(old(mem), mem, Live(old(heap.blocks)))
    {
      FitFinds(AsCoded, heap, size);
      var i := GetNextSetBit(SizeToIndex(size));
      assert forall a :: a in heap.lists[i] ==> InList(heap.lists, i, a);
      var cur := FirstFitOn(i, size);
      if cur == TABLE + HEADER * i {
        return NULL;
      }
      assert InList(heap.lists, i, cur);
      h := TakeBlock(cur, size);
    }

    // ---------------------------------------------------------------- memory from the OS

    /** sbrk: -1 for failure, or the break, after which `size` bytes of any contents are owned. */
    method Sbrk(size: nat) returns (base: int)
      modifies this`mem, this`os, this`programBreak
      ensures os == if old(os) == [] then [] else old(os)[1..]
      ensures old(os) == [] || old(os)[0].Failed? ==>
                base == -1 && mem == old(mem) && programBreak == old(programBreak)
      ensures old(os) != [] && old(os)[0].Moved? ==>
                && base == old(programBreak) + 8 * old(os)[0].words && programBreak == base + size
                && (forall w :: w in mem <==> w in old(mem) || (base <= w < base + size && w % 8 == 0))
                && (forall w :: w in old(mem) ==> mem[w] == old(mem[w]))
    {
      if os == [] || os[0].Failed? {
        os := if os == [] then [] else os[1..];
        return -1;
      }
      base := programBreak + 8 * os[0].words;
      var junk: map<int, int> := *;
      mem := (map w: int | base <= w < base + size && w % 8 == 0 :: if w in junk then junk[w] else 0) + mem;
      programBreak := base + size;
      os := os[1..];
    }

    /** initialize_fencepost */
    method InitializeFencepost(fp: int, leftSize: int)
      requires fp in mem && fp + LEFT_SIZE in mem
      modifies this`mem
      ensures mem == old(mem)[fp := ALLOC_HEADER + Code(LeftFence)][fp + LEFT_SIZE := leftSize]
    {
      SetBlockState(fp, LeftFence);
      SetBlockSize(fp, ALLOC_HEADER);
      mem := Put(mem, fp + LEFT_SIZE, leftSize);
    }

    /** insert_fenceposts, and the header of the block between them. */
    method InitializeChunk(base: int)
      requires forall w :: base <= w < base + ARENA && w % 8 == 0 ==> w in mem
      requires base % 8 == 0
      modifies this`mem
      ensures mem == ChunkWords(old(mem), base)
    {
      InitializeFencepost(base, ALLOC_HEADER);
      InitializeFencepost(base + ARENA - ALLOC_HEADER, ARENA - 2 * ALLOC_HEADER);
      var hdr := base + ALLOC_HEADER;
      SetBlockState(hdr, Free);
      SetBlockSize(hdr, ARENA - 2 * ALLOC_HEADER);
      mem := Put(mem, hdr + LEFT_SIZE, ALLOC_HEADER);
    }

    /** allocate_chunk for an arena: fenceposts around one free block. */
    method AllocateChunk() returns (hdr: int)
      requires Rep(NULL) && ListsFree(heap.blocks, heap.lists)
      requires forall a :: a in heap.blocks ==> RightOf(heap.blocks, a) <= programBreak
      requires programBreak >= HEAP_BASE && programBreak % 8 == 0
      modifies this`mem, this`os, this`programBreak
      ensures Rep(NULL) && os == if old(os) == [] then [] else old(os)[1..]
      ensures old(os) == [] || old(os)[0].Failed? ==>
                hdr == NULL && mem == old(mem) && programBreak == old(programBreak)
      ensures old(os) != [] && old(os)[0].Moved? ==>
                var base := old(programBreak) + 8 * old(os)[0].words;
                && hdr == base + ALLOC_HEADER && programBreak == base + ARENA
                && Holds(mem, AddChunk(heap.blocks, base), heap.lists)
                && PayloadsKept(old(mem), mem, Live(heap.blocks))
    {
      ghost var m := mem;
      var base := Sbrk(ARENA);
      if base == -1 {
        return NULL;
      }
      ghost var m1 := mem;
      InitializeChunk(base);
      hide Tiled, TagsIn, Owned, RingsIn, NodesApart, ListsFree, PayloadsKept, AddChunk, ChunkWords;
      ChunkHolds(m, m1, heap.blocks, heap.lists, base);
      hdr := base + ALLOC_HEADER;
    }

    /** allocate_object, when the new chunk is adjacent to the last one: the old right fencepost
        becomes the header of the whole new memory. */
    method SwallowFencePost(prevFencePost: int, newChunk: int)
      requires Rep(NULL) && Inv(AsCoded, heap) && prevFencePost == heap.last
      requires newChunk == prevFencePost + 2 * ALLOC_HEADER
      requires Holds(mem, AddChunk(heap.blocks, prevFencePost + ALLOC_HEADER), heap.lists)
      modifies this`mem, this`heap
      ensures Rep(NULL)
      ensures heap == old(heap).(blocks := SwallowFence(old(heap.blocks), prevFencePost), last := prevFencePost + ARENA)
      ensures PayloadsKept(old(mem), mem, Live(old(heap.blocks)))
    {
      ghost var m, bs := mem, heap.blocks;
      ghost var bs1 := AddChunk(bs, prevFencePost + ALLOC_HEADER);
      TagReads(m, bs1, prevFencePost);
      TagReads(m, bs1, newChunk);
      TagReads(m, bs1, prevFencePost + ARENA);
      var rfp := newChunk + BlockSize(newChunk);
      SetBlockSize(prevFencePost, BlockSize(newChunk) + 2 * ALLOC_HEADER);
      mem := Put(mem, rfp + LEFT_SIZE, BlockSize(prevFencePost));
      SetBlockState(prevFencePost, Free);
      assert mem == SwallowWords(m, prevFencePost);
      SwallowHolds(m, bs, heap.lists, prevFencePost);
      heap := heap.(blocks := SwallowFence(bs, prevFencePost), last := prevFencePost + ARENA);
    }

    /** One round of the growth loop of allocate_object, for a chunk that sbrk has given. */
    method AddNewChunk(newChunk: int, ghost words: nat)
      requires Rep(NULL) && Inv(AsCoded, heap) && lastFencePost == heap.last
      requires newChunk == heap.last + 2 * ALLOC_HEADER + 8 * words
      requires Holds(mem, AddChunk(heap.blocks, newChunk - ALLOC_HEADER), heap.lists)
      modifies this`mem, this`bitmap, this`heap, this`lastFencePost, this`osChunkList
      ensures heap == Grow(AsCoded, old(heap), words) && Rep(NULL) && Inv(AsCoded, heap)
      ensures lastFencePost == heap.last == newChunk + ARENA - 2 * ALLOC_HEADER
      ensures PayloadsKept(old(mem), mem, Live(old(heap.blocks))) && Live(heap.blocks) == Live(old(heap.blocks))
    {
      GrowKeeps(AsCoded, heap, words);
      GrowLive(AsCoded, heap, words);
      var prevFencePost := newChunk - 2 * ALLOC_HEADER;
      TagReads(mem, AddChunk(heap.blocks, newChunk - ALLOC_HEADER), newChunk);
      var rfp := newChunk + BlockSize(newChunk);
      if prevFencePost == lastFencePost {
        GrowRegion(newChunk);
      } else {
        AddRegion(newChunk, words);
      }
      lastFencePost := rfp;
    }

    /** The chunk becomes part of the last region. */
    method GrowRegion(newChunk: int)
      requires Rep(NULL) && Inv(AsCoded, heap) && newChunk == heap.last + 2 * ALLOC_HEADER
      requires Holds(mem, AddChunk(heap.blocks, newChunk - ALLOC_HEADER), heap.lists)
      modifies this`mem, this`bitmap, this`heap
      ensures heap == Grow(AsCoded, old(heap), 0) && Rep(NULL)
      ensures PayloadsKept(old(mem), mem, Live(old(heap.blocks)))
    {
      var prevFencePost := newChunk - 2 * ALLOC_HEADER;
      GrowSwallows(heap);
      SwallowFacts(heap);
      SwallowFencePost(prevFencePost, newChunk);
      hide Grow, Coalesce, SwallowFence, PayloadsKept, Live, Tiled, RingsIn, NodesApart, Inv;
      ghost var m := mem;
      FreeListDeallocate(prevFencePost);
      PayloadsKeptTwice(old(mem), m, mem, Live(old(heap.blocks)), Live(old(heap.blocks)));
    }

    /** The chunk becomes a region of its own. */
    method AddRegion(newChunk: int, ghost words: nat)
      requires Rep(NULL) && Inv(AsCoded, heap) && words > 0
      requires newChunk == heap.last + 2 * ALLOC_HEADER + 8 * words
      requires Holds(mem, AddChunk(heap.blocks, newChunk - ALLOC_HEADER), heap.lists)
      modifies this`mem, this`bitmap, this`heap, this`osChunkList
      ensures heap == Grow(AsCoded, old(heap), words) && Rep(NULL)
      ensures PayloadsKept(old(mem), mem, Live(heap.blocks))
    {
      ghost var bs := AddChunk(heap.blocks, newChunk - ALLOC_HEADER);
      NewChunkFacts(mem, heap, newChunk);
      LinkChunk(newChunk, bs);
      hide TagsIn, Owned, RingsIn, NodesApart, PayloadsKept, Live, Tiled, Insert, AddChunk, Inv;
      osChunkList := osChunkList + [newChunk - ALLOC_HEADER];
      heap := heap.(blocks := bs, chunks := heap.chunks + [newChunk - ALLOC_HEADER],
                    last := newChunk + ARENA - 2 * ALLOC_HEADER);
    }

    /** Links the free block of a chunk whose tags are in memory, but not yet in the heap. */
    method LinkChunk(block: int, ghost bs: Blocks)
      requires Links() && Holds(mem, bs, heap.lists)
      requires IsFree(bs, block) && bs[block].size == ARENA - 2 * ALLOC_HEADER
      requires FreshNode(heap.lists, block) && block + NEXT in mem && block + PREV in mem
      requires ListsFree(bs, Insert(heap.lists, block, ARENA - 2 * ALLOC_HEADER))
      modifies this`mem, this`bitmap, this`heap
      ensures Links() && heap == old(heap).(lists := Insert(old(heap.lists), block, ARENA - 2 * ALLOC_HEADER))
      ensures Tiled(bs) && TagsIn(mem, bs, NULL) && Owned(mem, bs) && PayloadsKept(old(mem), mem, Live(bs))
    {
      ghost var m := mem;
      TagReads(mem, bs, block);
      hide RingsIn, NodesApart, FreshNode, ListsFree, Insert, TagsIn, Tiled, Owned, SizeBits, Live;
      FreelistInsert(block);
      LinksFrame(m, mem, bs, heap.lists, NULL);
    }

    /** One round of the growth loop: a chunk from the OS made part of the heap, or false. */
    method GrowHeap() returns (ok: bool)
      requires Valid()
      modifies this
      ensures Valid() && os == if old(os) == [] then [] else old(os)[1..]
      ensures ok <==> old(os) != [] && old(os)[0].Moved?
      ensures heap == if ok then Grow(AsCoded, old(heap), old(os)[0].words) else old(heap)
      ensures Live(heap.blocks) == Live(old(heap.blocks))
      ensures PayloadsKept(old(mem), mem, Live(old(heap.blocks)))
    {
      ghost var m, words := mem, if os != [] && os[0].Moved? then os[0].words else 0;
      BreakIsEnd(heap);
      var newChunk := AllocateChunk();
      if newChunk == NULL {
        return false;
      }
      ghost var m1 := mem;
      AddNewChunk(newChunk, words);
      PayloadsKeptTwice(m, m1, mem, Live(old(heap.blocks)), Live(old(heap.blocks)));
      ok := true;
    }

    /** The search has ended with outcome o, with h as the block found. */
    ghost predicate Found(o: Outcome, h: int)
      reads this
    {
      && Rep(h) && lastFencePost == heap.last && programBreak == lastFencePost + ALLOC_HEADER
      && o == Outcome(heap, h, os)
    }

    /** Nothing has been found yet, and o is what the search will end with. */
    ghost predicate Searching(o: Outcome, size: int)
      reads this
    {
      && size >= HEADER && size % 8 == 0
      && Valid() && Fit(AsCoded, heap, size) == NULL && Allocate(AsCoded, heap, size, os) == o
    }

    /** The search of allocate_object, first or again. */
    method Search(size: int, ghost o: Outcome) returns (h: int)
      requires Valid() && size >= HEADER && size % 8 == 0 && Allocate(AsCoded, heap, size, os) == o
      modifies this`mem, this`bitmap, this`heap
      ensures if h == NULL then Searching(o, size) && heap == old(heap) else Found(o, h)
      ensures PayloadsKept(old(mem), mem, Live(old(heap.blocks)))
    {
      ghost var h0 := heap;
      FitFinds(AsCoded, h0, size);
      AllocateStep(h0, size, os);
      h := FreeListGetAllocable(size);
    }

    /** The body of the growth loop: sbrk, the new chunk made part of the heap, the search again. */
    method GrowAndSearch(size: int, ghost o: Outcome) returns (h: int, ok: bool)
      requires Searching(o, size)
      modifies this
      ensures !ok ==> h == NULL && Found(o, NULL) && Valid()
      ensures ok ==> if h == NULL then Searching(o, size) && |os| < |old(os)| else Found(o, h)
      ensures ok && h == NULL ==> Live(heap.blocks) == Live(old(heap.blocks))
      ensures PayloadsKept(old(mem), mem, Live(old(heap.blocks)))
    {
      ghost var live := Live(heap.blocks);
      AllocateStep(heap, size, os);
      ok := GrowHeap();
      ghost var m := mem;
      if !ok {
        return NULL, false;
      }
      h := Search(size, o);
      PayloadsKeptTwice(old(mem), m, mem, live, live);
    }

    /** allocate_object, for the block size of a non-empty request. */
    method AllocateObject(size: int) returns (h: int)
      requires Valid() && size >= HEADER && size % 8 == 0
      modifies this
      ensures Found(Allocate(AsCoded, old(heap), size, old(os)), h)
      ensures PayloadsKept(old(mem), mem, Live(old(heap.blocks)))
    {
      ghost var live, o := Live(heap.blocks), Allocate(AsCoded, heap, size, os);
      h := Search(size, o);
      while h == NULL
        invariant if h == NULL then Searching(o, size) && Live(heap.blocks) == live else Found(o, h)
        invariant PayloadsKept(old(mem), mem, live)
        decreases if h == NULL then 1 + |os| else 0
      {
        ghost var m := mem;
        var ok;
        h, ok := GrowAndSearch(size, o);
        PayloadsKeptTwice(old(mem), m, mem, live, live);
        if !ok {
          return;
        }
      }
    }

    // ---------------------------------------------------------------- the interface

    /** The sentinel loop of the constructor: every ring is empty. */
    method InitializeSentinels()
      requires forall w :: TABLE <= w < HEAP_BASE && w % 8 == 0 ==> w in mem
      modifies this`mem
      ensures mem.Keys == old(mem.Keys) && RingsIn(mem, NoBlocks().lists)
    {
      var i := 0;
      while i < N_LISTS
        invariant 0 <= i <= N_LISTS && mem.Keys == old(mem.Keys)
        invariant forall k :: 0 <= k < i ==> Linked(mem, Sentinel(k), Sentinel(k))
      {
        mem := Put(mem, Sentinel(i) + NEXT, Sentinel(i));
        mem := Put(mem, Sentinel(i) + PREV, Sentinel(i));
        i := i + 1;
      }
      forall k | 0 <= k < N_LISTS ensures Ring(mem, Sentinel(k), []) {
        assert Linked(mem, Sentinel(k), Sentinel(k));
      }
    }

    /** The first chunk becomes the only region, its free block the only listed one. */
    method InsertFirstChunk()
      requires Rep(NULL) && heap == NoBlocks()
      requires os != [] && os[0].Moved? && programBreak >= HEAP_BASE && programBreak % 8 == 0
      modifies this
      ensures Valid() && os == old(os)[1..]
      ensures heap == Init(old(programBreak) + 8 * old(os)[0].words)
    {
      var block := AllocateChunk();
      ghost var base := block - ALLOC_HEADER;
      ghost var bs := AddChunk(map[], base);
      InitKeeps(AsCoded, base);
      InitParts(base);
      FirstChunkFacts(mem, block);
      osChunkList := osChunkList + [block - ALLOC_HEADER];
      lastFencePost := block + BlockSize(block);
      hide TagsIn, Owned, RingsIn, NodesApart, PayloadsKept, Tiled, Insert, Inv, Init, Holds, ListsFree, FreshNode, Live;
      LinkChunk(block, bs);
      heap := Init(base);
    }

    /** MallocHeap(): empty rings, then the first chunk. The first sbrk must succeed, since the
        code does not look at its failure. */
    constructor (answers: seq<Sbrk>, brk: int)
      requires answers != [] && answers[0].Moved? && brk >= HEAP_BASE && brk % 8 == 0
      ensures Valid() && heap == Init(brk + 8 * answers[0].words) && os == answers[1..]
    {
      mem := map w: int | TABLE <= w < HEAP_BASE && w % 8 == 0 :: 0;
      bitmap := seq(N_LISTS, i => false);
      lastFencePost := NULL;
      osChunkList := [];
      os := answers;
      programBreak := brk;
      heap := NoBlocks();
      new;
      InitializeSentinels();
      NothingHolds(mem);
      hide *;
      InsertFirstChunk();
    }

    /** my_malloc */
    method MyMalloc(raw: nat) returns (p: int)
      requires Valid()
      modifies this
      ensures var o := Malloc(AsCoded, old(heap), raw, old(os));
        heap == o.heap && os == o.os && p == if o.block == NULL then NULL else o.block + ALLOC_HEADER
      ensures Valid() && PayloadsKept(old(mem), mem, Live(old(heap.blocks)))
    {
      if raw == 0 {
        return NULL;
      }
      var hdr := AllocateObject(RequestSize(raw));
      if hdr == NULL {
        return NULL;
      }
      ghost var m, bs := mem, heap.blocks;
      MarkBlock(hdr, Used);
      assert heap.blocks == bs;
      AllocateLive(AsCoded, old(heap), RequestSize(raw), old(os));
      PayloadsKeptTwice(old(mem), m, mem, Live(old(heap.blocks)), Live(bs));
      p := hdr + ALLOC_HEADER;
    }

    /** my_free */
    method MyFree(p: int) returns (aborted: bool)
      requires Valid() && Freeable(p)
      modifies this`mem, this`bitmap, this`heap
      ensures aborted <==> p != NULL && !IsUsed(old(heap.blocks), p - ALLOC_HEADER)
      ensures heap == if aborted || p == NULL then old(heap)
                      else Release(AsCoded, old(heap), p - ALLOC_HEADER)
      ensures Freeable(p) && (p != NULL ==> !IsUsed(heap.blocks, p - ALLOC_HEADER))
      ensures Valid() && PayloadsKept(old(mem), mem, Live(heap.blocks))
    {
      aborted := DeallocateObject(p);
    }

    /** A store by the owner of a live block into its payload, over the words that were next and
        prev. */
    method StorePayload(block: int, w: int, v: int)
      requires Valid() && IsUsed(heap.blocks, block) && w % 8 == 0
      requires block + ALLOC_HEADER <= w < RightOf(heap.blocks, block)
      modifies this`mem
      ensures Valid() && w in old(mem) && mem == old(mem)[w := v]
    {
      ghost var bs := heap.blocks;
      assert w in mem && block in Live(bs);
      LinksApart(bs, heap.lists);
      ghost var m := mem;
      mem := Put(mem, w, v);
      RingsFrame(m, mem, heap.lists);
      forall x ensures TagAt(mem, bs, x, NULL) {
        assert TagAt(m, bs, x, NULL);
        assert x in bs ==> Apart(bs, x, block) && Apart(bs, block, x);
      }
    }
  }

  /** The ring of a node has no other node exactly when the node is its own second successor. */
  lemma RingOfOne(m: Words, lists: Lists, i: int, p: int)
    requires RingsIn(m, lists) && NodesApart(lists) && 0 <= i < N_LISTS && 0 <= p < |lists[i]|
    ensures var x := lists[i][p];
      && x + NEXT in m && m[x + NEXT] + NEXT in m
      && (m[m[x + NEXT] + NEXT] == x <==> |lists[i]| == 1)
      && (|lists[i]| == 1 ==> m[x + NEXT] == Sentinel(i))
  {
    var s, l := Sentinel(i), lists[i];
    NodeWords(m, lists, i, p + 1);
    NodeWords(m, lists, i, if p + 2 <= |l| then p + 2 else 0);
    NodeIsListed(s, l, 1);
    assert InList(lists, i, l[p]);
  }

  /** The merged block can take the place of its right part in the lists. */
  lemma SwapFacts(m: Words, bs: Blocks, lists: Lists, a: int)
    requires Tiled(bs) && ListsAgree(AsCoded, bs, lists, a) && IsFree(bs, a) && IsFree(bs, RightOf(bs, a))
    requires RightOf(bs, RightOf(bs, a)) in bs && Tiled(Merge(bs, a)) && Owned(m, Merge(bs, a))
    ensures a + NEXT in m && a + PREV in m && FreshNode(lists, a) && Listed(lists, RightOf(bs, a))
    ensures var lists' := Replace(lists, RightOf(bs, a), a); ListsFree(Merge(bs, a), lists') && Listed(lists', a)
  {
    var bs', r := Merge(bs, a), RightOf(bs, a);
    OwnedAt(m, bs', a, NEXT);
    OwnedAt(m, bs', a, PREV);
    forall i, x | InList(lists, i, x) ensures x != a && NodesClear(x, a) {
      assert Apart(bs, x, a) && Apart(bs, a, x);
    }
    assert !Listed(lists, a);
    ReplaceMembers(lists, r, a);
    assert InList(Replace(lists, r, a), Home(lists, r), a);
  }

  lemma TagReads(m: Words, bs: Blocks, a: int)
    requires TagsIn(m, bs, NULL) && a in bs && a != NULL
    ensures a in m && a + LEFT_SIZE in m && SizeBits(m[a]) == bs[a].size && m[a + LEFT_SIZE] == bs[a].left
    ensures StateBits(m[a]) == Code(bs[a].kind)
  {
    assert TagAt(m, bs, a, NULL);
  }

  /** What the header words of three neighbours say before they are merged, and what the writes keep. */
  lemma MergeThreeFacts(m: Words, bs: Blocks, lists: Lists, l: int)
    requires Holds(m, bs, lists) && ListsFree(bs, lists)
    requires IsFree(bs, l) && IsFree(bs, RightOf(bs, l)) && IsFree(bs, RightOf(bs, RightOf(bs, l)))
    ensures var b := RightOf(bs, l); var r := RightOf(bs, b);
      && RightOf(bs, r) in bs && l in m && b in m && r in m && RightOf(bs, r) + LEFT_SIZE in m
      && SizeBits(m[l]) + SizeBits(m[b]) + SizeBits(m[r]) == RightOf(bs, r) - l
      && (SizeBits(m[l]) + SizeBits(m[b]) + SizeBits(m[r])) % 4 == 0 && r + SizeBits(m[r]) == RightOf(bs, r)
      && var m' := MergeWords(m, l, RightOf(bs, r) - l);
      && Holds(m', MergeThree(bs, l), lists) && PayloadsKept(m, m', Live(bs))
  {
    var b := RightOf(bs, l);
    MergeThreeTiled(bs, l);
    MergeReads(m, bs, l);
    MergeReads(m, bs, b);
    hide PayloadsKept, Live, MergeThree, RingsIn, Owned;
    assert Sized(bs[l]) && Sized(bs[b]) && Sized(bs[RightOf(bs, b)]);
    MergeThreeHolds(m, bs, lists, l);
  }

  lemma UsedReads(m: Words, bs: Blocks, a: int)
    requires TagsIn(m, bs, NULL) && Tiled(bs)
    ensures IsUsed(bs, a) ==> a in m && StateBits(m[a]) == Code(Used)
    ensures IsFree(bs, a) ==> a in m && StateBits(m[a]) == Code(Free)
  {
    assert TagAt(m, bs, a, NULL);
  }

  /** Every block, live or free, is one that free can deal with. */
  lemma InnerIsFreeable(mh: MallocHeap, a: int)
    requires mh.Valid() && IsInner(mh.heap.blocks, a)
    ensures mh.Freeable(a + ALLOC_HEADER)
  {
    UsedReads(mh.mem, mh.heap.blocks, a);
  }

  lemma SwapApart(lists: Lists, block: int, right: int)
    requires FreshNode(lists, block) && Listed(lists, right)
    ensures block + NEXT != right + PREV && right + NEXT != block + PREV && block != right
  {
    assert InList(lists, Home(lists, right), right);
  }

  /** The header word of a block is no link word, also when another one has been unlinked. */
  lemma NoLinkWord(bs: Blocks, lists: Lists, a: int, r: int)
    requires Tiled(bs) && ListsAgree(AsCoded, bs, lists, a) && IsFree(bs, a) && IsFree(bs, r)
    ensures !LinkWord(lists, a) && !LinkWord(Remove(lists, r), a)
  {
    RemoveMembers(lists, r);
    LinksApart(bs, lists);
    LinksApart(bs, Remove(lists, r));
  }

  lemma BothFacts(bs: Blocks, lists: Lists, a: int)
    requires Tiled(bs) && ListsAgree(AsCoded, bs, lists, a) && IsFree(bs, a)
    requires IsFree(bs, LeftOf(bs, a)) && IsFree(bs, RightOf(bs, a))
    requires RightOf(bs, LeftOf(bs, a)) == a && RightOf(bs, RightOf(bs, a)) in bs
    ensures var l, lists' := LeftOf(bs, a), Remove(lists, RightOf(bs, a)); var bs' := MergeThree(bs, l);
      ListsFree(bs', lists') && Listed(lists', l) && bs'.Keys <= bs.Keys
  {
    var l, r := LeftOf(bs, a), RightOf(bs, a);
    RemoveMembers(lists, r);
    Neighbours(bs, a);
    var bs', lists' := MergeThree(bs, l), Remove(lists, r);
    assert InList(lists', Home(lists, l), l);
    forall i, x | InList(lists', i, x) ensures IsFree(bs', x) {
      assert IsFree(bs, x) && x != r && x != a;
    }
    assert bs'.Keys <= bs.Keys;
  }

  lemma InsertFacts(m: Words, bs: Blocks, lists: Lists, a: int)
    requires Tiled(bs) && ListsAgree(AsCoded, bs, lists, a) && IsFree(bs, a) && Owned(m, bs)
    ensures FreshNode(lists, a) && a + NEXT in m && a + PREV in m
  {
    OwnedAt(m, bs, a, NEXT);
    OwnedAt(m, bs, a, PREV);
    forall i, x | InList(lists, i, x) ensures x != a && NodesClear(x, a) {
      assert Apart(bs, x, a) && Apart(bs, a, x);
    }
  }

  lemma InsertListsFree(bs: Blocks, lists: Lists, a: int)
    requires ListsAgree(AsCoded, bs, lists, a) && IsFree(bs, a) && bs[a].size >= HEADER
    ensures ListsFree(bs, Insert(lists, a, bs[a].size))
  {
    assert !Listed(lists, a);
    InsertMembers(lists, a, bs[a].size);
  }

  /** Writing the state bits of an inner block changes its kind and nothing else. */
  lemma KindWrite(m: Words, m': Words, bs: Blocks, lists: Lists, a: int, k: Kind)
    requires Tiled(bs) && ListsFree(bs, lists) && RingsIn(m, lists) && Owned(m, bs)
    requires IsInner(bs, a) && a in m && TagsIn(m, bs, if k.Used? then a else NULL)
    requires a in m' && m' == m[a := m'[a]] && SizeBits(m'[a]) == SizeBits(m[a]) && StateBits(m'[a]) == Code(k)
    ensures TagsIn(m', SetKind(bs, a, k), NULL) && Owned(m', SetKind(bs, a, k)) && RingsIn(m', lists)
    ensures PayloadsKept(m, m', Live(bs))
  {
    var bs' := SetKind(bs, a, k);
    forall x ensures TagAt(m', bs', x, NULL) {
      assert TagAt(m, bs, x, if k.Used? then a else NULL);
      if x in bs && x != a {
        TagsClear(bs, x, a);
      }
    }
    TagWritesFrame(m, m', bs, lists, a, a);
  }

  lemma KeptAfterFree(m: Words, m1: Words, m2: Words, live: map<int, int>, a: int)
    requires PayloadsKept(m, m1, live) && PayloadsKept(m1, m2, live - {a})
    ensures PayloadsKept(m, m2, live - {a})
  {}

  lemma ReleaseFacts(h: Heap, a: int)
    requires Inv(AsCoded, h) && IsUsed(h.blocks, a)
    ensures ListsFree(h.blocks, h.lists)
    ensures var bs' := SetKind(h.blocks, a, Free); Tiled(bs') && ListsAgree(AsCoded, bs', h.lists, a)
    ensures Inv(AsCoded, Release(AsCoded, h, a))
    ensures Live(Release(AsCoded, h, a).blocks) == Live(h.blocks) - {a}
    ensures Live(SetKind(h.blocks, a, Free)) == Live(h.blocks) - {a}
    ensures Release(AsCoded, h, a).last == h.last && !IsUsed(Release(AsCoded, h, a).blocks, a)
    ensures Release(AsCoded, h, a) == Coalesce(AsCoded, h.(blocks := SetKind(h.blocks, a, Free)), a)
    ensures IsFree(SetKind(h.blocks, a, Free), a) && IsInner(h.blocks, a)
  {
    SetKindTiled(h.blocks, a, Free);
    ReleaseKeeps(AsCoded, h, a);
    ReleaseLive(AsCoded, h, a);
    CoalesceLive(AsCoded, h.(blocks := SetKind(h.blocks, a, Free)), a);
  }

  /** Unlinking a whole block and calling it used leaves only its state bits to be written. */
  lemma TakeAllHolds(m: Words, m': Words, bs: Blocks, lists: Lists, a: int)
    requires Tiled(bs) && TagsIn(m, bs, NULL) && Owned(m, bs) && ListsFree(bs, lists) && IsFree(bs, a)
    requires SameButLinks(m, m', lists)
    ensures var bs' := SetKind(bs, a, Used); Tiled(bs') && TagsIn(m', bs', a) && Owned(m', bs')
    ensures PayloadsKept(m, m', Live(bs))
  {
    SetKindTiled(bs, a, Used);
    LinksFrame(m, m', bs, lists, NULL);
    var bs' := SetKind(bs, a, Used);
    forall x ensures TagAt(m', bs', x, a) {
      assert TagAt(m', bs, x, NULL);
      assert x in bs ==> x >= HEAP_BASE;
    }
    assert Owned(m', bs') by {
      forall b, w | b in bs' && b <= w < b + bs'[b].size && w % 8 == 0 ensures w in m' {
        assert b in bs && bs[b].size == bs'[b].size;
      }
    }
  }

  lemma InsertPopulates(lists: Lists, a: int, size: int)
    requires |lists| == N_LISTS && size >= 24
    ensures forall i :: 0 <= i < N_LISTS ==> (Insert(lists, a, size)[i] != [] <==> lists[i] != [] || i == SizeToIndex(size))
  {}

  lemma DivisibleByFour(s: int, t: int)
    requires s % 8 == 0 && t % 8 == 0
    ensures (s - t) % 4 == 0 && t % 4 == 0
  {
    assert s == 8 * (s / 8) && t == 8 * (t / 8);
    assert s - t == 4 * (2 * (s / 8) - 2 * (t / 8)) && t == 4 * (2 * (t / 8));
  }

  lemma GrowSwallows(h: Heap)
    requires Inv(AsCoded, h)
    ensures var mid := h.(blocks := SwallowFence(h.blocks, h.last), last := h.last + ARENA);
      && Tiled(mid.blocks) && IsFree(mid.blocks, h.last) && |h.lists| == N_LISTS
      && Grow(AsCoded, h, 0) == Coalesce(AsCoded, mid, h.last)
  {
    SwallowFenceTiled(h.blocks, h.last);
  }

  lemma SwallowFacts(h: Heap)
    requires Inv(AsCoded, h)
    ensures ListsAgree(AsCoded, SwallowFence(h.blocks, h.last), h.lists, h.last)
    ensures IsFree(SwallowFence(h.blocks, h.last), h.last)
    ensures Live(SwallowFence(h.blocks, h.last)) == Live(h.blocks)
  {
    forall x | IsFree(SwallowFence(h.blocks, h.last), x) && x != h.last ensures Listed(h.lists, x) {
      assert IsFree(h.blocks, x);
    }
  }

  lemma NewChunkFacts(m: Words, h: Heap, a: int)
    requires Inv(AsCoded, h) && a >= h.last + 2 * ALLOC_HEADER
    requires Tiled(AddChunk(h.blocks, a - ALLOC_HEADER)) && Owned(m, AddChunk(h.blocks, a - ALLOC_HEADER))
    ensures FreshNode(h.lists, a) && a + NEXT in m && a + PREV in m
    ensures ListsFree(AddChunk(h.blocks, a - ALLOC_HEADER), Insert(h.lists, a, ARENA - 2 * ALLOC_HEADER))
  {
    var bs' := AddChunk(h.blocks, a - ALLOC_HEADER);
    OwnedAt(m, bs', a, NEXT);
    OwnedAt(m, bs', a, PREV);
    forall i, x | InList(h.lists, i, x) ensures x != a && NodesClear(x, a) {
      assert Apart(bs', x, a) && Apart(bs', a, x);
    }
    assert !Listed(h.lists, a);
    InsertMembers(h.lists, a, ARENA - 2 * ALLOC_HEADER);
  }

  lemma BreakIsEnd(h: Heap)
    requires Inv(AsCoded, h)
    ensures ListsFree(h.blocks, h.lists)
    ensures h.last + ALLOC_HEADER >= HEAP_BASE && (h.last + ALLOC_HEADER) % 8 == 0
    ensures forall a :: a in h.blocks ==> RightOf(h.blocks, a) <= h.last + ALLOC_HEADER
  {
    forall a | a in h.blocks ensures RightOf(h.blocks, a) <= h.last + ALLOC_HEADER {
      assert Apart(h.blocks, a, h.last);
    }
  }

  /** One unfolding of Allocate. */
  lemma AllocateStep(h: Heap, size: int, os: seq<Sbrk>)
    requires Inv(AsCoded, h) && size >= HEADER && size % 8 == 0
    ensures var a := Fit(AsCoded, h, size);
      if a != NULL then
        && IsFree(h.blocks, a) && h.blocks[a].size >= size
        && Allocate(AsCoded, h, size, os) == Outcome(Take(AsCoded, h, a, size), Taken(h, a, size), os)
        && Taken(h, a, size) != NULL
      else if os != [] && os[0].Moved? then
        && Inv(AsCoded, Grow(AsCoded, h, os[0].words))
        && Allocate(AsCoded, h, size, os) == Allocate(AsCoded, Grow(AsCoded, h, os[0].words), size, os[1..])
      else
        Allocate(AsCoded, h, size, os) == Outcome(h, NULL, if os == [] then [] else os[1..])
  {
    FitFinds(AsCoded, h, size);
    if Fit(AsCoded, h, size) != NULL {
      TakenIsUsed(AsCoded, h, Fit(AsCoded, h, size), size);
    } else if os != [] && os[0].Moved? {
      GrowKeeps(AsCoded, h, os[0].words);
    }
  }

  /** The heap before the first chunk. */
  function NoBlocks(): Heap {
    Heap(map[], seq(N_LISTS, i => []), [], NULL)
  }

  /** Empty rings and no blocks. */
  lemma NothingHolds(m: Words)
    requires RingsIn(m, NoBlocks().lists)
    ensures NodesApart(NoBlocks().lists) && Tiled(NoBlocks().blocks) && Owned(m, NoBlocks().blocks)
    ensures TagsIn(m, NoBlocks().blocks, NULL) && forall i :: 0 <= i < N_LISTS ==> NoBlocks().lists[i] == []
  {}

  lemma InitParts(base: int)
    ensures var h, a := Init(base), base + ALLOC_HEADER;
      && h.blocks == AddChunk(NoBlocks().blocks, base) && h.chunks == [base] && h.last == base + ARENA - ALLOC_HEADER
      && h.lists == Insert(NoBlocks().lists, a, ARENA - 2 * ALLOC_HEADER)
      && IsFree(h.blocks, a) && h.blocks[a].size == ARENA - 2 * ALLOC_HEADER
  {}

  lemma FirstChunkFacts(m: Words, a: int)
    requires Holds(m, AddChunk(map[], a - ALLOC_HEADER), NoBlocks().lists)
    ensures a in m && SizeBits(m[a]) == ARENA - 2 * ALLOC_HEADER
    ensures FreshNode(NoBlocks().lists, a) && a + NEXT in m && a + PREV in m
  {
    var bs := AddChunk(map[], a - ALLOC_HEADER);
    assert a in bs;
    TagReads(m, bs, a);
    OwnedAt(m, bs, a, NEXT);
    OwnedAt(m, bs, a, PREV);
  }

  lemma ReplaceKeepsPopulated(lists: Lists, a: int, b: int)
    ensures forall i :: 0 <= i < |lists| ==> (Replace(lists, a, b)[i] != [] <==> lists[i] != [])
  {}
}
