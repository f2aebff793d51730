/** Regions: what lies between a recorded left fencepost and the right fencepost that ends it. */
module HeapRegions {
  import opened Layout
  import opened Tags
  import opened FreeLists
  import opened HeapModel
  import opened HeapRuns
  import opened HeapTheorems

  // ---------------------------------------------------------------- walks over boundary tags

  /** The blocks from a on to the next right fencepost, found by following sizes. */
  ghost function Walk(g: Guard, h: Heap, a: int): (w: seq<int>)
    requires Inv(g, h) && a in h.blocks
    ensures w != [] && w[0] == a
    decreases h.last - a
  {
    if h.blocks[a].kind.RightFence? then [a]
    else
      assert JoinsRight(h.blocks, a);
      [a] + Walk(g, h, RightOf(h.blocks, a))
  }

  /** The left fencepost found from a by following left sizes. */
  ghost function LeftEnd(g: Guard, h: Heap, a: int): (c: int)
    requires Inv(g, h) && a in h.blocks
    ensures c in h.chunks
    decreases a
  {
    if h.blocks[a].kind.LeftFence? then a
    else
      assert JoinsLeft(h.blocks, a) && a >= HEAP_BASE;
      LeftEnd(g, h, LeftOf(h.blocks, a))
  }

  /** The bytes that the blocks of a walk occupy. */
  function Bytes(bs: Blocks, w: seq<int>): int
    requires forall i :: 0 <= i < |w| ==> w[i] in bs
  {
    if w == [] then 0
    else
      bs[w[0]].size + Bytes(bs, w[1..])
  }

  /** Block a and its successor b on a walk. */
  predicate Adjoin(bs: Blocks, a: int, b: int) {
    a in bs && b in bs && b == RightOf(bs, a) && bs[b].left == bs[a].size && !bs[b].kind.LeftFence?
  }

  /** The blocks end at a right fencepost and have no other and no left fencepost behind the first
      block; each begins where the one before it ends, and knows its size. */
  predicate Path(bs: Blocks, w: seq<int>) {
    && w != []
    && (forall i :: 0 <= i < |w| ==> w[i] in bs)
    && (forall i :: 0 <= i < |w| ==> (bs[w[i]].kind.RightFence? <==> i == |w| - 1))
    && (forall i, j :: 0 <= i < |w| && j == i + 1 < |w| ==> Adjoin(bs, w[i], w[j]))
  }

  lemma PathGrows(bs: Blocks, a: int, w: seq<int>)
    requires Path(bs, w) && Adjoin(bs, a, w[0]) && !bs[a].kind.RightFence?
    ensures Path(bs, [a] + w)
  {
    var v := [a] + w;
    forall i, j | 0 <= i < |v| && j == i + 1 < |v| ensures Adjoin(bs, v[i], v[j]) {
      if i > 0 {
        assert v[i] == w[i - 1] && v[j] == w[i];
      }
    }
  }

  /** A walk is such a path. */
  lemma {:induction false} WalkTiles(g: Guard, h: Heap, a: int)
    requires Inv(g, h) && a in h.blocks
    ensures Path(h.blocks, Walk(g, h, a))
    decreases h.last - a
  {
    InvIsTiled(g, h);
    if !h.blocks[a].kind.RightFence? {
      assert JoinsRight(h.blocks, a);
      var next := RightOf(h.blocks, a);
      WalkTiles(g, h, next);
      PathGrows(h.blocks, a, Walk(g, h, next));
    }
  }

  /** The blocks of a walk occupy the whole range up to the end of the right fencepost. */
  lemma {:induction false} WalkFills(g: Guard, h: Heap, a: int)
    requires Inv(g, h) && a in h.blocks
    ensures var w := Walk(g, h, a);
      (forall i :: 0 <= i < |w| ==> w[i] in h.blocks) && a + Bytes(h.blocks, w) == RightOf(h.blocks, w[|w| - 1])
    decreases h.last - a
  {
    var w := Walk(g, h, a);
    if !h.blocks[a].kind.RightFence? {
      assert JoinsRight(h.blocks, a);
      WalkFills(g, h, RightOf(h.blocks, a));
      assert w[1..] == Walk(g, h, RightOf(h.blocks, a));
    } else {
      assert w[1..] == [];
    }
  }

  lemma InvIsTiled(g: Guard, h: Heap)
    requires Inv(g, h)
    ensures Tiled(h.blocks) && forall a :: a in h.blocks ==> a <= h.last
  {}

  /** A walk goes on over every block but a right fencepost. */
  lemma {:induction false} WalkGoesOn(g: Guard, h: Heap, c: int, b: int)
    requires Inv(g, h) && c in h.blocks && b in Walk(g, h, c)
    ensures b in h.blocks && (!h.blocks[b].kind.RightFence? ==> RightOf(h.blocks, b) in Walk(g, h, c))
    decreases h.last - c
  {
    if b != c {
      assert JoinsRight(h.blocks, c);
      WalkGoesOn(g, h, RightOf(h.blocks, c), b);
    } else if !h.blocks[c].kind.RightFence? {
      assert JoinsRight(h.blocks, c);
      assert Walk(g, h, c)[1] == RightOf(h.blocks, c);
    }
  }

  lemma {:induction false} LeftEndReaches(g: Guard, h: Heap, b: int)
    requires Inv(g, h) && b in h.blocks
    ensures b in Walk(g, h, LeftEnd(g, h, b))
    decreases b
  {
    if h.blocks[b].kind.LeftFence? {
      assert Walk(g, h, b)[0] == b;
    } else {
      assert JoinsLeft(h.blocks, b) && b >= HEAP_BASE;
      var l := LeftOf(h.blocks, b);
      LeftEndReaches(g, h, l);
      WalkGoesOn(g, h, LeftEnd(g, h, l), l);
    }
  }

  lemma {:induction false} WalkHasLeftEnd(g: Guard, h: Heap, c: int, b: int)
    requires Inv(g, h) && c in h.blocks && b in Walk(g, h, c)
    ensures b in h.blocks && LeftEnd(g, h, b) == LeftEnd(g, h, c)
    decreases h.last - c
  {
    if b != c {
      assert JoinsRight(h.blocks, c);
      WalkHasLeftEnd(g, h, RightOf(h.blocks, c), b);
    }
  }

  /** Every block lies in exactly one region: on the walk from one recorded left fencepost. */
  lemma EveryBlockIsInOneRegion(g: Guard, h: Heap, b: int, c: int)
    requires Inv(g, h) && b in h.blocks && c in h.chunks
    ensures LeftEnd(g, h, b) in h.chunks
    ensures b in Walk(g, h, c) <==> c == LeftEnd(g, h, b)
  {
    LeftEndReaches(g, h, b);
    if b in Walk(g, h, c) {
      WalkHasLeftEnd(g, h, c, b);
    }
  }

  // ---------------------------------------------------------------- everything freed, in any order

  /** The calls that free these blocks, in order. */
  function Frees(order: seq<int>): (ops: seq<Op>)
    ensures |ops| == |order|
  {
    seq(|order|, i requires 0 <= i < |order| => FreeOp(order[i] + ALLOC_HEADER))
  }

  /** Freeing all live blocks, in whatever order, is a legal run that ends with one free block in
      every region and no other free block. */
  lemma {:induction false} FreeAll(g: Guard, h: Heap, order: seq<int>) returns (h': Heap)
    requires Inv(g, h) && NoDup(order) && forall a :: a in order <==> a in Live(h.blocks)
    ensures Runs(g, h, Frees(order), h') && Inv(g, h') && h'.chunks == h.chunks && h'.last == h.last
    ensures AllFree(h')
    decreases |order|
  {
    hide Inv, Runs, Live, Frees, AllFree, NoDup, After, Legal, IsUsed;
    if order == [] {
      NoneLive(g, h);
      h' := h;
    } else {
      LiveIsUsed(g, h, order[0]);
      var h1 := FreeOne(g, h, order[0]);
      OthersStayLive(h.blocks, h1.blocks, order);
      h' := FreeAll(g, h1, order[1..]);
      FreesFirst(g, h, order, h1, h');
    }
  }

  /** One free block fills every region, and there is no other free block. */
  ghost predicate AllFree(h: Heap) {
    && (forall a :: IsFree(h.blocks, a) ==> a - ALLOC_HEADER in h.chunks)
    && (forall c :: c in h.chunks ==> IsFree(h.blocks, c + ALLOC_HEADER) && FillsRegion(h.blocks, c + ALLOC_HEADER))
  }

  lemma NoneLive(g: Guard, h: Heap)
    requires Inv(g, h) && forall a :: a !in Live(h.blocks)
    ensures Runs(g, h, Frees([]), h) && AllFree(h)
  {
    EmptyMap(Live(h.blocks));
    NothingLiveIsOneBlockPerChunk(g, h);
  }

  lemma EmptyMap(m: map<int, int>)
    requires forall a :: a !in m
    ensures m == map[]
  {
    var empty: map<int, int> := map[];
    assert forall a :: a in m <==> a in empty;
    assert m == empty;
  }

  lemma FreesFirst(g: Guard, h: Heap, order: seq<int>, h1: Heap, h': Heap)
    requires order != [] && Inv(g, h)
    requires Legal(h, FreeOp(order[0] + ALLOC_HEADER)) && h1 == After(g, h, FreeOp(order[0] + ALLOC_HEADER))
    requires Runs(g, h1, Frees(order[1..]), h')
    ensures Runs(g, h, Frees(order), h')
  {
    hide Inv, Legal, After;
    assert Frees(order)[0] == FreeOp(order[0] + ALLOC_HEADER);
    assert Frees(order)[1..] == Frees(order[1..]);
  }

  lemma LiveIsUsed(g: Guard, h: Heap, a: int)
    requires Inv(g, h) && a in Live(h.blocks)
    ensures IsUsed(h.blocks, a) && a >= HEAP_BASE
  {}

  lemma FreeOne(g: Guard, h: Heap, a: int) returns (h1: Heap)
    requires Inv(g, h) && IsUsed(h.blocks, a) && a >= HEAP_BASE
    ensures Legal(h, FreeOp(a + ALLOC_HEADER)) && h1 == After(g, h, FreeOp(a + ALLOC_HEADER)) && Inv(g, h1)
    ensures h1.chunks == h.chunks && h1.last == h.last && Live(h1.blocks) == Live(h.blocks) - {a}
  {
    ReleaseKeeps(g, h, a);
    ReleaseLive(g, h, a);
    SetKindTiled(h.blocks, a, Free);
    CoalesceLive(g, h.(blocks := SetKind(h.blocks, a, Free)), a);
    h1 := Release(g, h, a);
  }

  lemma OthersStayLive(bs: Blocks, bs': Blocks, order: seq<int>)
    requires NoDup(order) && order != [] && Live(bs') == Live(bs) - {order[0]}
    requires forall a :: a in order <==> a in Live(bs)
    ensures NoDup(order[1..]) && forall a :: a in order[1..] <==> a in Live(bs')
  {
    var a, rest := order[0], order[1..];
    assert order == [a] + rest;
    assert a !in rest;
  }
}
