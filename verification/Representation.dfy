/** How updates of header words in memory amount to updates of the blocks they represent, and that
    neither header nor link words are ever part of a live payload. */
module Representation {
  import opened Layout
  import opened Tags
  import opened FreeLists
  import opened HeapModel
  import opened HeapTheorems
  import opened Words

  /** The payload words of live blocks are as they were. */
  ghost predicate PayloadsKept(m: Words, m': Words, live: map<int, int>) {
    && m.Keys <= m'.Keys
    && forall a, w :: a in live && a + ALLOC_HEADER <= w < a + live[a] && w in m ==> m'[w] == m[w]
  }

  lemma PayloadsKeptTwice(m: Words, m1: Words, m2: Words, live: map<int, int>, live1: map<int, int>)
    requires PayloadsKept(m, m1, live) && PayloadsKept(m1, m2, live1)
    requires forall a :: a in live ==> a in live1 && live1[a] == live[a]
    ensures PayloadsKept(m, m2, live)
  {
    forall a, w | a in live && a + ALLOC_HEADER <= w < a + live[a] && w in m ensures m2[w] == m[w] {
      assert w in m1 && m1[w] == m[w];
    }
  }

  ghost predicate ListsFree(bs: Blocks, lists: Lists) {
    forall i, x :: InList(lists, i, x) ==> IsFree(bs, x)
  }

  lemma TagsClear(bs: Blocks, x: int, y: int)
    requires Tiled(bs) && x in bs && y in bs && x != y
    ensures x + ALLOC_HEADER <= y || y + ALLOC_HEADER <= x
    ensures x % 8 == 0 && y % 8 == 0
  {
    assert Apart(bs, x, y) && Apart(bs, y, x);
  }

  /** No next or prev field is a word of a header tag or of a live payload. */
  lemma LinksApart(bs: Blocks, lists: Lists)
    requires Tiled(bs) && ListsFree(bs, lists)
    ensures forall a :: a in bs ==> !LinkWord(lists, a) && !LinkWord(lists, a + LEFT_SIZE)
    ensures forall a, w :: a in Live(bs) && a + ALLOC_HEADER <= w < a + Live(bs)[a] ==> !LinkWord(lists, w)
  {
    forall a, w | a in bs && (w == a || w == a + LEFT_SIZE || (IsUsed(bs, a) && a <= w < RightOf(bs, a)))
      ensures !LinkWord(lists, w)
    {
      forall x | Listed(lists, x) ensures w != x + NEXT && w != x + PREV {
        assert IsFree(bs, x) by { var i := Home(lists, x); }
        assert Apart(bs, x, a) && Apart(bs, a, x);
      }
    }
    forall a, w | a in Live(bs) && a + ALLOC_HEADER <= w < a + Live(bs)[a] ensures !LinkWord(lists, w) {
      assert IsUsed(bs, a);
    }
  }

  lemma RingsFrame(m: Words, m': Words, lists: Lists)
    requires RingsIn(m, lists)
    requires forall w :: w in m && LinkWord(lists, w) ==> w in m' && m'[w] == m[w]
    ensures RingsIn(m', lists)
  {
    forall i | 0 <= i < N_LISTS ensures Ring(m', Sentinel(i), lists[i]) {
      forall x | x in lists[i] ensures RingFramed(m, m', x) {
        assert InList(lists, i, x);
        assert Listed(lists, x + NEXT - NEXT) && Listed(lists, x + PREV - PREV);
      }
      assert LinkWord(lists, Sentinel(i) + NEXT) && LinkWord(lists, Sentinel(i) + PREV);
      RingFrame(m, m', Sentinel(i), lists[i]);
    }
  }

  /** Changing links changes no tag, no ownership and no live payload. */
  lemma LinksFrame(m: Words, m': Words, bs: Blocks, lists: Lists, pending: int)
    requires Tiled(bs) && ListsFree(bs, lists) && TagsIn(m, bs, pending) && Owned(m, bs)
    requires SameButLinks(m, m', lists)
    ensures TagsIn(m', bs, pending) && Owned(m', bs) && PayloadsKept(m, m', Live(bs))
  {
    LinksApart(bs, lists);
    forall a ensures TagAt(m', bs, a, pending) {
      assert TagAt(m, bs, a, pending);
    }
  }

  // ---------------------------------------------------------------- header writes

  function SplitWords(m: Words, a: int, s: int, size: int): Words
    requires a in m && a + s - size in m && a + s - size + LEFT_SIZE in m && a + s + LEFT_SIZE in m
  {
    var ret := a + s - size;
    m[a := s - size + StateBits(m[a])]
     [ret := size + StateBits(m[ret])]
     [ret + LEFT_SIZE := s - size]
     [a + s + LEFT_SIZE := size]
  }

  lemma SizeWord(size: int, w: int)
    requires size % 8 == 0
    ensures SizeBits(size + StateBits(w)) == size && StateBits(size + StateBits(w)) == StateBits(w)
  {
    var q, r := size / 8, w % 4;
    assert size + r == 4 * (2 * q) + r && 0 <= r < 4;
    assert (size + r) / 4 == 2 * q;
  }

  lemma SplitTagAt(m: Words, bs: Blocks, a: int, size: int, x: int)
    requires Tiled(bs) && IsFree(bs, a) && HEADER <= size <= bs[a].size - HEADER && size % 8 == 0
    requires RightOf(bs, a) in bs && TagsIn(m, bs, NULL)
    requires Tiled(Split(bs, a, size)) && x in Split(bs, a, size)
    requires var ret := a + bs[a].size - size;
      ret !in bs && ret in m && ret + LEFT_SIZE in m && a in m && RightOf(bs, a) + LEFT_SIZE in m
    ensures TagAt(SplitWords(m, a, bs[a].size, size), Split(bs, a, size), x, a + bs[a].size - size)
  {
    var bs', ret, right := Split(bs, a, size), a + bs[a].size - size, RightOf(bs, a);
    var m' := SplitWords(m, a, bs[a].size, size);
    assert TagAt(m, bs, x, NULL);
    if x == a {
      TagsClear(bs', a, right);
      SizeWord(bs[a].size - size, m[a]);
      assert m'[a] == bs[a].size - size + StateBits(m[a]);
    } else if x == ret {
      TagsClear(bs', ret, right);
      SizeWord(size, m[ret]);
      assert m'[ret] == size + StateBits(m[ret]);
    } else {
      TagsClear(bs', x, a);
      TagsClear(bs', x, ret);
      assert m'[x] == m[x] by {
        if x != right { TagsClear(bs', x, right); }
      }
      assert m'[x + LEFT_SIZE] == bs'[x].left by {
        if x != right { TagsClear(bs', x, right); }
      }
    }
  }

  /** The header words split_block writes are owned, and its new block is not at a block yet. */
  lemma SplitWordsOwned(m: Words, bs: Blocks, a: int, size: int)
    requires Tiled(bs) && IsFree(bs, a) && HEADER <= size <= bs[a].size - HEADER && size % 8 == 0
    requires Owned(m, bs)
    ensures RightOf(bs, a) in bs && Tiled(Split(bs, a, size))
    ensures var ret := a + bs[a].size - size;
      ret !in bs && a in m && ret in m && ret + LEFT_SIZE in m && RightOf(bs, a) + LEFT_SIZE in m
  {
    Neighbours(bs, a);
    SplitTiled(bs, a, size);
    OwnedAt(m, bs, a, bs[a].size - size);
    OwnedAt(m, bs, a, bs[a].size - size + LEFT_SIZE);
    OwnedAt(m, bs, a, 0);
    OwnedAt(m, bs, RightOf(bs, a), LEFT_SIZE);
  }

  lemma OwnedAt(m: Words, bs: Blocks, a: int, off: int)
    requires Tiled(bs) && Owned(m, bs) && a in bs && 0 <= off < bs[a].size && off % 8 == 0
    ensures a + off in m
  {
    assert a % 8 == 0;
  }

  /** The four header writes of split_block. */
  lemma SplitTags(m: Words, bs: Blocks, a: int, size: int)
    requires Tiled(bs) && IsFree(bs, a) && HEADER <= size <= bs[a].size - HEADER && size % 8 == 0
    requires RightOf(bs, a) in bs && Tiled(Split(bs, a, size)) && TagsIn(m, bs, NULL)
    requires var ret := a + bs[a].size - size;
      ret !in bs && a in m && ret in m && ret + LEFT_SIZE in m && RightOf(bs, a) + LEFT_SIZE in m
    ensures TagsIn(SplitWords(m, a, bs[a].size, size), Split(bs, a, size), a + bs[a].size - size)
  {
    var m', bs', ret := SplitWords(m, a, bs[a].size, size), Split(bs, a, size), a + bs[a].size - size;
    forall x ensures TagAt(m', bs', x, ret) {
      if x in bs' {
        SplitTagAt(m, bs, a, size, x);
      }
    }
  }

  lemma SplitFrames(m: Words, bs: Blocks, lists: Lists, a: int, size: int)
    requires Tiled(bs) && IsFree(bs, a) && HEADER <= size <= bs[a].size - HEADER && size % 8 == 0
    requires Owned(m, bs) && RingsIn(m, lists) && ListsFree(bs, lists) && RightOf(bs, a) in bs
    requires var s := bs[a].size;
      a in m && a + s - size in m && a + s - size + LEFT_SIZE in m && a + s + LEFT_SIZE in m
    ensures var m' := SplitWords(m, a, bs[a].size, size);
      Owned(m', Split(bs, a, size)) && RingsIn(m', lists) && PayloadsKept(m, m', Live(bs))
  {
    var s := bs[a].size;
    var m', ret, right := SplitWords(m, a, s, size), a + s - size, a + s;
    LinksApart(bs, lists);
    forall w | w == ret || w == ret + LEFT_SIZE ensures !LinkWord(lists, w) {
      forall x | Listed(lists, x) ensures w != x + NEXT && w != x + PREV {
        assert IsFree(bs, x) by { var i := Home(lists, x); }
        assert Apart(bs, x, a) && Apart(bs, a, x);
      }
    }
    RingsFrame(m, m', lists);
    forall b, w | b in Live(bs) && b + ALLOC_HEADER <= w < b + Live(bs)[b] && w in m
      ensures m'[w] == m[w]
    {
      assert Apart(bs, a, b) && Apart(bs, b, a) && Apart(bs, right, b) && Apart(bs, b, right);
    }
    forall b, w | b in Split(bs, a, size) && b <= w < b + Split(bs, a, size)[b].size && w % 8 == 0
      ensures w in m'
    {
      assert b != ret ==> b in bs;
    }
  }

  function MergeWords(m: Words, a: int, size: int): Words
    requires a in m && a + size + LEFT_SIZE in m
  {
    m[a := size + StateBits(m[a])][a + size + LEFT_SIZE := size]
  }

  lemma MergeTagAt(m: Words, bs: Blocks, a: int, x: int)
    requires Tiled(bs) && IsFree(bs, a) && RightOf(bs, a) in bs && RightOf(bs, RightOf(bs, a)) in bs
    requires a < RightOf(bs, RightOf(bs, a)) && Tiled(Merge(bs, a)) && TagsIn(m, bs, NULL) && x in Merge(bs, a)
    ensures var size := bs[a].size + bs[RightOf(bs, a)].size;
      a in m && a + size + LEFT_SIZE in m && TagAt(MergeWords(m, a, size), Merge(bs, a), x, NULL)
  {
    var bs', rr := Merge(bs, a), RightOf(bs, RightOf(bs, a));
    var size := bs[a].size + bs[RightOf(bs, a)].size;
    assert TagAt(m, bs, a, NULL) && TagAt(m, bs, rr, NULL) && TagAt(m, bs, x, NULL);
    var m' := MergeWords(m, a, size);
    TagsClear(bs', a, rr);
    if x == a {
      assert size % 8 == 0 by { assert Sized(bs'[a]); }
      SizeWord(size, m[a]);
      assert m'[a] == size + StateBits(m[a]);
    } else {
      TagsClear(bs', x, a);
      assert m'[x] == m[x] by {
        if x != rr { TagsClear(bs', x, rr); }
      }
      assert m'[x + LEFT_SIZE] == bs'[x].left by {
        if x != rr { TagsClear(bs', x, rr); }
      }
    }
  }

  /** The two header writes of coalesce_left and coalesce_right. */
  lemma MergeTags(m: Words, bs: Blocks, a: int)
    requires Tiled(bs) && IsFree(bs, a) && IsFree(bs, RightOf(bs, a))
    requires TagsIn(m, bs, NULL) && Owned(m, bs)
    ensures RightOf(bs, RightOf(bs, a)) in bs && Tiled(Merge(bs, a))
    ensures var size := bs[a].size + bs[RightOf(bs, a)].size;
      && a in m && a + size + LEFT_SIZE in m
      && TagsIn(MergeWords(m, a, size), Merge(bs, a), NULL)
      && Owned(MergeWords(m, a, size), Merge(bs, a))
  {
    Neighbours(bs, a);
    Neighbours(bs, RightOf(bs, a));
    MergeTiled(bs, a);
    var size := bs[a].size + bs[RightOf(bs, a)].size;
    MergeTagAt(m, bs, a, a);
    var m', bs' := MergeWords(m, a, size), Merge(bs, a);
    forall x ensures TagAt(m', bs', x, NULL) {
      if x in Merge(bs, a) {
        MergeTagAt(m, bs, a, x);
      }
    }
    MergeOwned(m, bs, a);
  }

  lemma MergeOwned(m: Words, bs: Blocks, a: int)
    requires a in bs && RightOf(bs, a) in bs && RightOf(bs, RightOf(bs, a)) in bs && Owned(m, bs)
    ensures Owned(m, Merge(bs, a))
  {
    var bs' := Merge(bs, a);
    forall b, w | b in bs' && b <= w < b + bs'[b].size && w % 8 == 0 ensures w in m {
      assert b in bs && (w < RightOf(bs, b) || (b == a && RightOf(bs, a) <= w));
    }
  }

  /** Header tag writes change no ring and no live payload. */
  lemma TagWritesFrame(m: Words, m': Words, bs: Blocks, lists: Lists, a: int, b: int)
    requires Tiled(bs) && ListsFree(bs, lists) && RingsIn(m, lists) && a in bs && b in bs
    requires m'.Keys == m.Keys
    requires forall w :: w in m && w != a && w != b + LEFT_SIZE ==> m'[w] == m[w]
    ensures RingsIn(m', lists) && PayloadsKept(m, m', Live(bs))
  {
    LinksApart(bs, lists);
    RingsFrame(m, m', lists);
    forall c, w | c in Live(bs) && c + ALLOC_HEADER <= w < c + Live(bs)[c] && w in m
      ensures m'[w] == m[w]
    {
      assert Apart(bs, a, c) && Apart(bs, c, a) && Apart(bs, b, c) && Apart(bs, c, b);
    }
  }

  // ---------------------------------------------------------------- the merges of free, in memory

  /** The memory holds these blocks and these rings. */
  ghost predicate Holds(m: Words, bs: Blocks, lists: Lists) {
    Tiled(bs) && TagsIn(m, bs, NULL) && Owned(m, bs) && RingsIn(m, lists)
  }

  /** What the header words of two neighbours say before they are merged. */
  lemma MergeReads(m: Words, bs: Blocks, a: int)
    requires Tiled(bs) && TagsIn(m, bs, NULL) && IsFree(bs, a) && IsFree(bs, RightOf(bs, a))
    ensures var r := RightOf(bs, a);
      && RightOf(bs, r) in bs && a in m && r in m && RightOf(bs, r) + LEFT_SIZE in m
      && SizeBits(m[a]) == bs[a].size && SizeBits(m[r]) == bs[r].size && (bs[a].size + bs[r].size) % 4 == 0
  {
    var r := RightOf(bs, a);
    Neighbours(bs, r);
    assert TagAt(m, bs, a, NULL) && TagAt(m, bs, r, NULL) && TagAt(m, bs, RightOf(bs, r), NULL);
    assert Sized(bs[a]) && Sized(bs[r]);
  }

  lemma MergeLive(bs: Blocks, a: int)
    requires Tiled(bs) && IsFree(bs, a) && IsFree(bs, RightOf(bs, a)) && RightOf(bs, RightOf(bs, a)) in bs
    ensures Live(Merge(bs, a)) == Live(bs)
  {}

  /** Writing the sizes of a merge of free block a and its free right neighbour. */
  lemma MergeHolds(m: Words, bs: Blocks, lists: Lists, a: int)
    requires Holds(m, bs, lists) && ListsFree(bs, lists)
    requires IsFree(bs, a) && IsFree(bs, RightOf(bs, a)) && RightOf(bs, RightOf(bs, a)) in bs
    requires a in m && RightOf(bs, RightOf(bs, a)) + LEFT_SIZE in m
    ensures var m' := MergeWords(m, a, bs[a].size + bs[RightOf(bs, a)].size);
      Holds(m', Merge(bs, a), lists) && PayloadsKept(m, m', Live(bs)) && Live(Merge(bs, a)) == Live(bs)
  {
    MergeTags(m, bs, a);
    MergeLive(bs, a);
    var m' := MergeWords(m, a, bs[a].size + bs[RightOf(bs, a)].size);
    TagWritesFrame(m, m', bs, lists, a, RightOf(bs, RightOf(bs, a)));
  }

  lemma MergeThreeTagAt(m: Words, bs: Blocks, l: int, x: int)
    requires Tiled(bs) && IsFree(bs, l) && IsFree(bs, RightOf(bs, l)) && IsFree(bs, RightOf(bs, RightOf(bs, l)))
    requires RightOf(bs, RightOf(bs, RightOf(bs, l))) in bs && Tiled(MergeThree(bs, l))
    requires TagsIn(m, bs, NULL) && x in MergeThree(bs, l)
    ensures var rr := RightOf(bs, RightOf(bs, RightOf(bs, l)));
      l in m && rr + LEFT_SIZE in m && TagAt(MergeWords(m, l, rr - l), MergeThree(bs, l), x, NULL)
  {
    var bs', rr := MergeThree(bs, l), RightOf(bs, RightOf(bs, RightOf(bs, l)));
    var size := rr - l;
    assert TagAt(m, bs, l, NULL) && TagAt(m, bs, rr, NULL) && TagAt(m, bs, x, NULL);
    var m' := MergeWords(m, l, size);
    TagsClear(bs', l, rr);
    if x == l {
      assert size % 8 == 0 by { assert Sized(bs'[l]); }
      SizeWord(size, m[l]);
      assert m'[l] == size + StateBits(m[l]);
    } else {
      TagsClear(bs', x, l);
      assert m'[x] == m[x] by {
        if x != rr { TagsClear(bs', x, rr); }
      }
      assert m'[x + LEFT_SIZE] == bs'[x].left by {
        if x != rr { TagsClear(bs', x, rr); }
      }
    }
  }

  /** Writing the sizes of a merge of three free blocks, as coalesce_both does. */
  lemma MergeThreeHolds(m: Words, bs: Blocks, lists: Lists, l: int)
    requires Holds(m, bs, lists) && ListsFree(bs, lists) && l in m
    requires IsFree(bs, l) && IsFree(bs, RightOf(bs, l)) && IsFree(bs, RightOf(bs, RightOf(bs, l)))
    requires RightOf(bs, RightOf(bs, RightOf(bs, l))) in bs && Tiled(MergeThree(bs, l))
    ensures var rr := RightOf(bs, RightOf(bs, RightOf(bs, l)));
      && rr + LEFT_SIZE in m
      && Holds(MergeWords(m, l, rr - l), MergeThree(bs, l), lists)
      && PayloadsKept(m, MergeWords(m, l, rr - l), Live(bs))
  {
    var a := RightOf(bs, l);
    var r := RightOf(bs, a);
    var rr := RightOf(bs, r);
    assert TagAt(m, bs, rr, NULL);
    var m', bs' := MergeWords(m, l, rr - l), MergeThree(bs, l);
    forall x ensures TagAt(m', bs', x, NULL) {
      if x in bs' {
        MergeThreeTagAt(m, bs, l, x);
      }
    }
    forall b, w | b in bs' && b <= w < b + bs'[b].size && w % 8 == 0 ensures w in m {
      assert b in bs && (w < RightOf(bs, b) || b == l);
      if b == l {
        assert w < a || a <= w < RightOf(bs, a) || r <= w < RightOf(bs, r);
      }
    }
    TagWritesFrame(m, m', bs, lists, l, rr);
  }

  /** As LinksFrame, when the blocks have been merged since the lists were right. */
  lemma LinksFrameMerged(m: Words, m': Words, bs: Blocks, bs': Blocks, lists: Lists)
    requires Tiled(bs) && ListsFree(bs, lists) && bs'.Keys <= bs.Keys
    requires TagsIn(m, bs', NULL) && Owned(m, bs') && SameButLinks(m, m', lists)
    ensures TagsIn(m', bs', NULL) && Owned(m', bs') && PayloadsKept(m, m', Live(bs))
  {
    LinksApart(bs, lists);
    forall a ensures TagAt(m', bs', a, NULL) {
      assert TagAt(m, bs', a, NULL);
    }
  }

  // ---------------------------------------------------------------- the split of malloc, in memory

  /** The four header writes of split_block, up to the call of move_coalesced. */
  lemma SplitHolds(m: Words, bs: Blocks, lists: Lists, a: int, size: int)
    requires Holds(m, bs, lists) && ListsFree(bs, lists) && IsFree(bs, a)
    requires HEADER <= size <= bs[a].size - HEADER && size % 8 == 0
    ensures var s := bs[a].size; var ret := a + s - size;
      && a + s in bs && ret !in bs && a in m && ret in m && ret + LEFT_SIZE in m && a + s + LEFT_SIZE in m
      && SizeBits(m[a]) == s && s % 8 == 0
      && var m', bs' := SplitWords(m, a, s, size), Split(bs, a, size);
      && Tiled(bs') && TagsIn(m', bs', ret) && Owned(m', bs') && RingsIn(m', lists)
      && PayloadsKept(m, m', Live(bs)) && ListsFree(bs', lists)
  {
    SplitWordsOwned(m, bs, a, size);
    SplitTags(m, bs, a, size);
    SplitFrames(m, bs, lists, a, size);
    assert TagAt(m, bs, a, NULL) && Sized(bs[a]);
  }

  lemma SplitLive(bs: Blocks, a: int, size: int)
    requires IsFree(bs, a) && RightOf(bs, a) in bs && a + bs[a].size - size !in bs && 0 < size < bs[a].size
    ensures Live(Split(bs, a, size)) == Live(bs)[a + bs[a].size - size := size]
  {}

  // ---------------------------------------------------------------- new chunks, in memory

  /** The header writes of allocate_chunk for a chunk at base. */
  function ChunkWords(m: Words, base: int): Words {
    m[base := ALLOC_HEADER + Code(LeftFence)][base + LEFT_SIZE := ALLOC_HEADER]
     [base + ARENA - ALLOC_HEADER := ALLOC_HEADER + Code(RightFence)]
     [base + ARENA - ALLOC_HEADER + LEFT_SIZE := ARENA - 2 * ALLOC_HEADER]
     [base + ALLOC_HEADER := ARENA - 2 * ALLOC_HEADER]
     [base + ALLOC_HEADER + LEFT_SIZE := ALLOC_HEADER]
  }

  /** m1 is m extended by the words of a chunk at base. */
  ghost predicate Extended(m: Words, m1: Words, base: int) {
    && (forall w :: w in m1 <==> w in m || (base <= w < base + ARENA && w % 8 == 0))
    && (forall w :: w in m ==> m1[w] == m[w])
  }

  /** Nothing that existed before reaches into the new chunk. */
  lemma ChunkFrame(m: Words, m1: Words, bs: Blocks, lists: Lists, base: int)
    requires Holds(m, bs, lists) && ListsFree(bs, lists) && Extended(m, m1, base)
    requires base >= HEAP_BASE && forall a :: a in bs ==> RightOf(bs, a) <= base
    ensures Holds(ChunkWords(m1, base), bs, lists)
    ensures PayloadsKept(m, ChunkWords(m1, base), Live(bs))
  {
    var m' := ChunkWords(m1, base);
    assert forall w :: w in m && w < base ==> w in m' && m'[w] == m[w];
    forall a ensures TagAt(m', bs, a, NULL) {
      assert TagAt(m, bs, a, NULL);
      assert a in bs ==> a + ALLOC_HEADER <= base;
    }
    forall w | w in m && LinkWord(lists, w) ensures w < base {
      if Listed(lists, w - NEXT) {
        assert IsFree(bs, w - NEXT) by { var i := Home(lists, w - NEXT); }
      } else if Listed(lists, w - PREV) {
        assert IsFree(bs, w - PREV) by { var i := Home(lists, w - PREV); }
      }
    }
    RingsFrame(m, m', lists);
    forall a, w | a in Live(bs) && a + ALLOC_HEADER <= w < a + Live(bs)[a] && w in m ensures m'[w] == m[w] {
      assert RightOf(bs, a) <= base;
    }
  }

  lemma ChunkHolds(m: Words, m1: Words, bs: Blocks, lists: Lists, base: int)
    requires Holds(m, bs, lists) && ListsFree(bs, lists) && Extended(m, m1, base)
    requires base >= HEAP_BASE && base % 8 == 0 && forall a :: a in bs ==> RightOf(bs, a) <= base
    ensures Holds(ChunkWords(m1, base), bs, lists)
    ensures Holds(ChunkWords(m1, base), AddChunk(bs, base), lists)
    ensures PayloadsKept(m, ChunkWords(m1, base), Live(bs))
  {
    ChunkFrame(m, m1, bs, lists, base);
    AddChunkTiled(bs, base);
    ChunkTags(m1, bs, base);
    var m', bs' := ChunkWords(m1, base), AddChunk(bs, base);
    forall a, w | a in bs' && a <= w < a + bs'[a].size && w % 8 == 0 ensures w in m' {
      if a in bs {
        assert w in m;
      }
    }
  }

  lemma ChunkTags(m1: Words, bs: Blocks, base: int)
    requires TagsIn(ChunkWords(m1, base), bs, NULL)
    requires base >= HEAP_BASE && forall a :: a in bs ==> RightOf(bs, a) <= base && bs[a].size > 0
    ensures TagsIn(ChunkWords(m1, base), AddChunk(bs, base), NULL)
  {
    var m', bs' := ChunkWords(m1, base), AddChunk(bs, base);
    forall a ensures TagAt(m', bs', a, NULL) {
      assert TagAt(m', bs, a, NULL);
    }
  }

  /** The header writes that turn the fencepost at f and the chunk after it into one free block. */
  function SwallowWords(m: Words, f: int): Words {
    m[f := ARENA + Code(Free)][f + ARENA + LEFT_SIZE := ARENA]
  }

  lemma SwallowHolds(m: Words, bs: Blocks, lists: Lists, f: int)
    requires Holds(m, bs, lists) && ListsFree(bs, lists) && Holds(m, AddChunk(bs, f + ALLOC_HEADER), lists)
    requires f in bs && bs[f].kind.RightFence? && forall a :: a in bs ==> a <= f
    ensures Holds(SwallowWords(m, f), SwallowFence(bs, f), lists)
    ensures PayloadsKept(m, SwallowWords(m, f), Live(bs))
  {
    var bs1, bs', m' := AddChunk(bs, f + ALLOC_HEADER), SwallowFence(bs, f), SwallowWords(m, f);
    SwallowFenceTiled(bs, f);
    SwallowTags(m, bs, f);
    hide TagsIn, Tiled;
    SwallowOwned(m, bs, f);
    assert Live(bs1) == Live(bs);
    TagWritesFrame(m, m', bs1, lists, f, f + ARENA);
  }

  lemma SwallowTags(m: Words, bs: Blocks, f: int)
    requires f in bs && bs[f].kind.RightFence? && f >= HEAP_BASE && forall a :: a in bs ==> a <= f
    requires TagsIn(m, AddChunk(bs, f + ALLOC_HEADER), NULL) && Tiled(SwallowFence(bs, f))
    ensures f in m && f + ARENA + LEFT_SIZE in m && TagsIn(SwallowWords(m, f), SwallowFence(bs, f), NULL)
  {
    var bs1, bs', m' := AddChunk(bs, f + ALLOC_HEADER), SwallowFence(bs, f), SwallowWords(m, f);
    assert TagAt(m, bs1, f, NULL) && TagAt(m, bs1, f + ARENA, NULL);
    forall a ensures TagAt(m', bs', a, NULL) {
      assert TagAt(m, bs1, a, NULL);
      if a in bs' && a != f {
        TagsClear(bs', a, f);
      }
    }
  }

  lemma SwallowOwned(m: Words, bs: Blocks, f: int)
    requires f in bs && bs[f].kind.RightFence? && Sized(bs[f]) && Owned(m, AddChunk(bs, f + ALLOC_HEADER))
    requires forall a :: a in bs ==> a <= f
    ensures Owned(m, SwallowFence(bs, f))
  {
    var bs1, bs' := AddChunk(bs, f + ALLOC_HEADER), SwallowFence(bs, f);
    forall a, w | a in bs' && a <= w < a + bs'[a].size && w % 8 == 0 ensures w in m {
      if a == f {
        var b := if w < f + ALLOC_HEADER then f else if w < f + 2 * ALLOC_HEADER then f + ALLOC_HEADER
                 else f + 2 * ALLOC_HEADER;
        assert b in bs1 && b <= w < b + bs1[b].size;
      } else {
        assert a in bs1;
      }
    }
  }
}
