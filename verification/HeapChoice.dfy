/** Which block malloc takes: the first one that fits on the first populated list; and so the block that
    was freed last. */
module HeapChoice {
  import opened Layout
  import opened Tags
  import opened FreeLists
  import opened HeapModel
  import opened HeapRuns
  import opened HeapTheorems

  /** First fit: every block in front of the chosen one is too small. */
  lemma {:induction false} FirstFitIsFirst(bs: Blocks, l: seq<int>, size: int) returns (p: nat)
    requires NULL !in bs && (forall a :: a in l ==> a in bs) && FirstFit(bs, l, size) != NULL
    ensures p < |l| && l[p] == FirstFit(bs, l, size) && bs[l[p]].size >= size
    ensures forall q :: 0 <= q < p ==> bs[l[q]].size < size
    decreases |l|
  {
    if bs[l[0]].size >= size {
      p := 0;
    } else {
      p := FirstFitIsFirst(bs, l[1..], size);
      p := p + 1;
      forall q | 0 <= q < p ensures bs[l[q]].size < size {
        if q > 0 {
          assert l[q] == l[1..][q - 1];
        }
      }
    }
  }

  /** The list for a block size: one for every multiple of eight from 24 bytes on, and the last one for
      all sizes from 488 bytes on. */
  lemma ListsBySize(size: int)
    requires size >= 24 && size % 8 == 0
    ensures SizeToIndex(size) == if size < 488 then size / 8 - 3 else 58
  {}

  /** The block malloc chooses is on list j at position p: the lists between the one for the size and
      list j are empty, and so are too small the blocks of list j in front of it. */
  lemma FitIsFirst(g: Guard, h: Heap, size: int) returns (j: nat, p: nat)
    requires Inv(g, h) && size >= HEADER && size % 8 == 0 && Fit(g, h, size) != NULL
    ensures (if size < 488 then size / 8 - 3 else 58) <= j < 59 && |h.lists| == 59
    ensures forall k :: (if size < 488 then size / 8 - 3 else 58) <= k < j ==> h.lists[k] == []
    ensures p < |h.lists[j]| && h.lists[j][p] == Fit(g, h, size)
    ensures forall q :: 0 <= q <= p ==> h.lists[j][q] in h.blocks
    ensures forall q :: 0 <= q < p ==> h.blocks[h.lists[j][q]].size < size
  {
    ListsBySize(size);
    j := NextPopulated(h.lists, SizeToIndex(size));
    assert forall a :: a in h.lists[j] ==> InList(h.lists, j, a);
    p := FirstFitIsFirst(h.blocks, h.lists[j], size);
  }

  /** What free leaves at the front of its list, if the block has no free neighbour. */
  lemma FreedIsFirst(g: Guard, h: Heap, a: int)
    requires Inv(g, h) && IsUsed(h.blocks, a)
    requires !IsFree(h.blocks, LeftOf(h.blocks, a)) && !IsFree(h.blocks, RightOf(h.blocks, a))
    ensures Tiled(h.blocks) && |h.lists| == N_LISTS && h.blocks[a].size >= HEADER && h.blocks[a].size % 8 == 0
    ensures var h', i := Release(g, h, a), SizeToIndex(h.blocks[a].size);
      && h'.blocks == SetKind(h.blocks, a, Free) && h'.lists == h.lists[i := [a] + h.lists[i]]
  {
    Neighbours(h.blocks, a);
    SetKindTiled(h.blocks, a, Free);
    assert Sized(h.blocks[a]);
  }

  /** A block that is freed between blocks in use is the one chosen next for its size. */
  lemma FreedIsChosen(g: Guard, h: Heap, a: int)
    requires Inv(g, h) && IsUsed(h.blocks, a)
    requires !IsFree(h.blocks, LeftOf(h.blocks, a)) && !IsFree(h.blocks, RightOf(h.blocks, a))
    ensures h.blocks[a].size >= HEADER && Inv(g, Release(g, h, a)) && Fit(g, Release(g, h, a), h.blocks[a].size) == a
  {
    FreedIsFirst(g, h, a);
    ReleaseKeeps(g, h, a);
    var h', i := Release(g, h, a), SizeToIndex(h.blocks[a].size);
    hide Inv, Release;
    assert NextPopulated(h'.lists, i) == i;
  }

  /** malloc after free gives the same pointer back, without a call of sbrk, whatever else is free. */
  lemma FreedIsReused(g: Guard, h: Heap, a: int, raw: nat, os: seq<Sbrk>)
    requires Inv(g, h) && IsUsed(h.blocks, a) && raw > 0 && RequestSize(raw) == h.blocks[a].size
    requires !IsFree(h.blocks, LeftOf(h.blocks, a)) && !IsFree(h.blocks, RightOf(h.blocks, a))
    ensures Inv(g, Release(g, h, a))
    ensures var o := Malloc(g, Release(g, h, a), raw, os);
      o.block == a && o.os == os && o.heap.blocks == h.blocks
  {
    FreedIsChosen(g, h, a);
    FreedIsFirst(g, h, a);
    var h' := Release(g, h, a);
    FitFinds(g, h', RequestSize(raw));
    assert a != NULL;
    hide Inv, Release, Fit, RequestSize, Remove;
    assert SetKind(SetKind(h.blocks, a, Free), a, Used) == h.blocks;
  }

  // ---------------------------------------------------------------- the order of the lists

  /** coalesce_right changes one entry where it is, and nothing else. */
  lemma ReplaceInPlace(lists: Lists, a: int, b: int, i: int, p: int)
    requires Unique(lists) && 0 <= i < |lists| && 0 <= p < |lists[i]|
    ensures |Replace(lists, a, b)[i]| == |lists[i]|
    ensures Replace(lists, a, b)[i][p] == if lists[i][p] == a then b else lists[i][p]
  {
    assert lists[i][p] == a ==> InList(lists, i, a);
    if Listed(lists, a) {
      var k := Home(lists, a);
      var q := Position(lists[k], a);
      assert InList(lists, k, a) && NoDup(lists[k]);
      assert Replace(lists, a, b) == lists[k := lists[k][q := b]];
      assert lists[i][p] == a <==> i == k && p == q;
    }
  }

  /** Unlinking keeps the order of the others. */
  lemma RemoveInOrder(lists: Lists, a: int, i: int, front: seq<int>, back: seq<int>)
    requires Unique(lists) && 0 <= i < |lists| && lists[i] == front + [a] + back
    ensures Remove(lists, a) == lists[i := front + back]
  {
    assert lists[i][|front|] == a && InList(lists, i, a);
    var k := Home(lists, a);
    assert InList(lists, k, a) && k == i && NoDup(lists[i]);
    var p := Position(lists[i], a);
    assert p == |front|;
    assert lists[i][..p] == front && lists[i][p + 1..] == back;
  }
}
