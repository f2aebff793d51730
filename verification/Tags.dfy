/** Boundary tags: the heap as blocks that know their own size and their left neighbour's. */
module Tags {
  import opened Layout

  datatype Kind = Free | Used | LeftFence | RightFence

  datatype Block = Block(size: int, left: int, kind: Kind)

  type Blocks = map<int, Block>

  predicate Sized(b: Block) {
    match b.kind
    case LeftFence => b.size == ALLOC_HEADER
    case RightFence => b.size == ALLOC_HEADER && b.left >= HEADER
    case _ => b.size >= HEADER && b.size % 8 == 0
  }

  predicate JoinsRight(bs: Blocks, a: int) {
    a in bs && !bs[a].kind.RightFence? ==>
      var r := a + bs[a].size;
      r in bs && !bs[r].kind.LeftFence? && bs[r].left == bs[a].size
  }

  predicate JoinsLeft(bs: Blocks, a: int) {
    a in bs && !bs[a].kind.LeftFence? ==>
      var l := a - bs[a].left;
      l in bs && !bs[l].kind.RightFence? && bs[l].size == bs[a].left
  }

  predicate Apart(bs: Blocks, a: int, b: int) {
    a in bs && b in bs && a < b ==> a + bs[a].size <= b
  }

  /** The boundary tags are consistent: sizes are legal, every block but a right fencepost ends
      where its right neighbour starts, every left_size is the size of the left neighbour, and no
      two blocks overlap. */
  ghost predicate Tiled(bs: Blocks) {
    && (forall a :: a in bs ==> Sized(bs[a]) && a % 8 == 0 && a >= HEAP_BASE)
    && (forall a {:trigger JoinsRight(bs, a)} :: JoinsRight(bs, a))
    && (forall a {:trigger JoinsLeft(bs, a)} :: JoinsLeft(bs, a))
    && (forall a, b {:trigger Apart(bs, a, b)} :: Apart(bs, a, b))
  }

  predicate IsFree(bs: Blocks, a: int) {
    a in bs && bs[a].kind.Free?
  }

  predicate IsUsed(bs: Blocks, a: int) {
    a in bs && bs[a].kind.Used?
  }

  predicate IsInner(bs: Blocks, a: int) {
    IsFree(bs, a) || IsUsed(bs, a)
  }

  function RightOf(bs: Blocks, a: int): int
    requires a in bs
  {
    a + bs[a].size
  }

  function LeftOf(bs: Blocks, a: int): int
    requires a in bs
  {
    a - bs[a].left
  }

  /** The neighbours of an inner block are blocks. */
  lemma Neighbours(bs: Blocks, a: int)
    requires Tiled(bs) && IsInner(bs, a)
    ensures RightOf(bs, a) in bs && !bs[RightOf(bs, a)].kind.LeftFence?
    ensures LeftOf(bs, a) in bs && !bs[LeftOf(bs, a)].kind.RightFence?
    ensures bs[RightOf(bs, a)].left == bs[a].size && bs[LeftOf(bs, a)].size == bs[a].left
    ensures LeftOf(bs, a) < a < RightOf(bs, a)
  {
    assert JoinsRight(bs, a) && JoinsLeft(bs, a);
  }

  function SetKind(bs: Blocks, a: int, kind: Kind): Blocks
    requires a in bs
  {
    bs[a := bs[a].(kind := kind)]
  }

  /** split_block: the left part of a stays, its last size bytes become a block of their own. */
  function Split(bs: Blocks, a: int, size: int): Blocks
    requires a in bs && RightOf(bs, a) in bs
  {
    var rest := bs[a].size - size;
    var r := RightOf(bs, a);
    bs[a := bs[a].(size := rest)][a + rest := Block(size, rest, Used)][r := bs[r].(left := size)]
  }

  /** Block a swallows its right neighbour. */
  function Merge(bs: Blocks, a: int): Blocks
    requires a in bs && RightOf(bs, a) in bs && RightOf(bs, RightOf(bs, a)) in bs
  {
    var r := RightOf(bs, a);
    var rr := RightOf(bs, r);
    var size := bs[a].size + bs[r].size;
    (bs - {r})[a := bs[a].(size := size)][rr := bs[rr].(left := size)]
  }

  lemma SetKindTiled(bs: Blocks, a: int, kind: Kind)
    requires Tiled(bs) && IsInner(bs, a) && (kind.Free? || kind.Used?)
    ensures Tiled(SetKind(bs, a, kind))
  {
    var bs' := SetKind(bs, a, kind);
    forall x ensures JoinsRight(bs', x) { assert JoinsRight(bs, x); }
    forall x ensures JoinsLeft(bs', x) { assert JoinsLeft(bs, x); }
    forall x, y ensures Apart(bs', x, y) { assert Apart(bs, x, y); }
  }

  lemma SplitTiled(bs: Blocks, a: int, size: int)
    requires Tiled(bs) && IsInner(bs, a)
    requires HEADER <= size <= bs[a].size - HEADER && size % 8 == 0
    ensures RightOf(bs, a) in bs
    ensures Tiled(Split(bs, a, size))
    ensures a + bs[a].size - size !in bs
  {
    Neighbours(bs, a);
    var m := a + bs[a].size - size;
    assert m !in bs by { assert Apart(bs, a, m); }
    var bs' := Split(bs, a, size);
    SplitSized(bs, a, size);
    hide Split, Sized, JoinsRight, JoinsLeft, Apart;
    forall x ensures JoinsRight(bs', x) { SplitJoinsRight(bs, a, size, x); }
    forall x ensures JoinsLeft(bs', x) { SplitJoinsLeft(bs, a, size, x); }
    forall x, y ensures Apart(bs', x, y) { SplitApart(bs, a, size, x, y); }
  }

  lemma SplitSized(bs: Blocks, a: int, size: int)
    requires Tiled(bs) && IsInner(bs, a) && RightOf(bs, a) in bs && a + bs[a].size - size !in bs
    requires HEADER <= size <= bs[a].size - HEADER && size % 8 == 0
    ensures forall x :: x in Split(bs, a, size) ==> Sized(Split(bs, a, size)[x]) && x % 8 == 0 && x >= HEAP_BASE
  {
    Neighbours(bs, a);
    MultiplesOfEight(bs[a].size, size);
    MultiplesOfEight(a, bs[a].size - size);
    hide JoinsRight, JoinsLeft, Apart;
  }

  lemma SplitJoinsRight(bs: Blocks, a: int, size: int, x: int)
    requires Tiled(bs) && IsInner(bs, a) && RightOf(bs, a) in bs && a + bs[a].size - size !in bs
    requires HEADER <= size <= bs[a].size - HEADER && size % 8 == 0
    ensures JoinsRight(Split(bs, a, size), x)
  {
    Neighbours(bs, a);
    if x != a && x != a + bs[a].size - size {
      assert JoinsRight(bs, x) && Apart(bs, x, a) && Apart(bs, a, x);
    }
  }

  lemma SplitJoinsLeft(bs: Blocks, a: int, size: int, x: int)
    requires Tiled(bs) && IsInner(bs, a) && RightOf(bs, a) in bs && a + bs[a].size - size !in bs
    requires HEADER <= size <= bs[a].size - HEADER && size % 8 == 0
    ensures JoinsLeft(Split(bs, a, size), x)
  {
    Neighbours(bs, a);
    var bs', m := Split(bs, a, size), a + bs[a].size - size;
    if x == m {
      assert LeftOf(bs', x) == a;
    } else if x == RightOf(bs, a) {
      assert LeftOf(bs', x) == m;
    } else {
      assert JoinsLeft(bs, x);
    }
  }

  lemma SplitApart(bs: Blocks, a: int, size: int, x: int, y: int)
    requires Tiled(bs) && IsInner(bs, a) && RightOf(bs, a) in bs && a + bs[a].size - size !in bs
    requires HEADER <= size <= bs[a].size - HEADER && size % 8 == 0
    ensures Apart(Split(bs, a, size), x, y)
  {
    var m := a + bs[a].size - size;
    if x == m {
      assert Apart(bs, a, y);
    } else if y == m {
      assert Apart(bs, a, x) && Apart(bs, x, a);
    } else {
      assert Apart(bs, x, y);
    }
  }

  lemma MergeTiled(bs: Blocks, a: int)
    requires Tiled(bs) && IsInner(bs, a)
    requires RightOf(bs, a) in bs && IsInner(bs, RightOf(bs, a))
    ensures RightOf(bs, RightOf(bs, a)) in bs
    ensures Tiled(Merge(bs, a))
  {
    var r := RightOf(bs, a);
    Neighbours(bs, a);
    Neighbours(bs, r);
    var bs' := Merge(bs, a);
    assert forall x :: x in bs' ==> Sized(bs'[x]) && x % 8 == 0 && x >= HEAP_BASE;
    hide Merge, Sized, JoinsRight, JoinsLeft, Apart;
    forall x ensures JoinsRight(bs', x) { MergeJoinsRight(bs, a, x); }
    forall x ensures JoinsLeft(bs', x) { MergeJoinsLeft(bs, a, x); }
    forall x, y ensures Apart(bs', x, y) { MergeApart(bs, a, x, y); }
  }

  lemma MergeJoinsRight(bs: Blocks, a: int, x: int)
    requires Tiled(bs) && IsInner(bs, a) && RightOf(bs, a) in bs && IsInner(bs, RightOf(bs, a))
    ensures RightOf(bs, RightOf(bs, a)) in bs && JoinsRight(Merge(bs, a), x)
  {
    var r := RightOf(bs, a);
    Neighbours(bs, a);
    Neighbours(bs, r);
    if x != a {
      assert JoinsRight(bs, x) && Apart(bs, x, r) && Apart(bs, a, x);
    }
  }

  lemma MergeJoinsLeft(bs: Blocks, a: int, x: int)
    requires Tiled(bs) && IsInner(bs, a) && RightOf(bs, a) in bs && IsInner(bs, RightOf(bs, a))
    ensures RightOf(bs, RightOf(bs, a)) in bs && JoinsLeft(Merge(bs, a), x)
  {
    var r := RightOf(bs, a);
    Neighbours(bs, a);
    Neighbours(bs, r);
    if x != a && x != RightOf(bs, r) {
      assert JoinsLeft(bs, x) && Apart(bs, x, r) && Apart(bs, r, x);
    } else {
      assert JoinsLeft(bs, x);
    }
  }

  lemma MergeApart(bs: Blocks, a: int, x: int, y: int)
    requires Tiled(bs) && IsInner(bs, a) && RightOf(bs, a) in bs && IsInner(bs, RightOf(bs, a))
    ensures RightOf(bs, RightOf(bs, a)) in bs && Apart(Merge(bs, a), x, y)
  {
    var r := RightOf(bs, a);
    Neighbours(bs, r);
    assert Apart(bs, x, y) && Apart(bs, r, y);
  }

  /** Block l swallows the two blocks to its right. */
  function MergeThree(bs: Blocks, l: int): Blocks
    requires l in bs && RightOf(bs, l) in bs && RightOf(bs, RightOf(bs, l)) in bs
    requires RightOf(bs, RightOf(bs, RightOf(bs, l))) in bs
  {
    var a := RightOf(bs, l);
    var r := RightOf(bs, a);
    var rr := RightOf(bs, r);
    var size := bs[l].size + bs[a].size + bs[r].size;
    (bs - {a, r})[l := bs[l].(size := size)][rr := bs[rr].(left := size)]
  }

  /** It does the same as swallowing one after the other. */
  lemma MergeThreeTiled(bs: Blocks, l: int)
    requires Tiled(bs) && IsInner(bs, l)
    requires IsInner(bs, RightOf(bs, l)) && IsInner(bs, RightOf(bs, RightOf(bs, l)))
    ensures var a := RightOf(bs, l); var r := RightOf(bs, a);
      && RightOf(bs, r) in bs && Tiled(Merge(bs, l))
      && RightOf(Merge(bs, l), l) == r && IsInner(Merge(bs, l), l) && r in Merge(bs, l)
      && RightOf(Merge(bs, l), r) == RightOf(bs, r) && RightOf(bs, r) in Merge(bs, l)
    ensures MergeThree(bs, l) == Merge(Merge(bs, l), l) && Tiled(MergeThree(bs, l))
  {
    var a := RightOf(bs, l);
    var r := RightOf(bs, a);
    Neighbours(bs, l);
    Neighbours(bs, a);
    Neighbours(bs, r);
    MergeTiled(bs, l);
    MergeTiled(Merge(bs, l), l);
  }

  /** allocate_object, when the new chunk is adjacent: the fencepost pair between the chunks
      becomes the header of one free block. */
  function SwallowFence(bs: Blocks, f: int): Blocks
    requires f in bs
  {
    bs[f := bs[f].(size := ARENA, kind := Free)][f + ARENA := Block(ALLOC_HEADER, ARENA, RightFence)]
  }

  lemma SwallowFenceTiled(bs: Blocks, f: int)
    requires Tiled(bs) && f in bs && bs[f].kind.RightFence? && forall a :: a in bs ==> a <= f
    ensures Tiled(SwallowFence(bs, f))
  {
    var bs' := SwallowFence(bs, f);
    forall x ensures JoinsRight(bs', x) { assert JoinsRight(bs, x); }
    forall x ensures JoinsLeft(bs', x) { assert JoinsLeft(bs, x); }
    forall x, y ensures Apart(bs', x, y) { assert Apart(bs, x, y) && Apart(bs, x, f); }
  }

  /** allocate_chunk: a left fencepost, one free block and a right fencepost. */
  function AddChunk(bs: Blocks, base: int): Blocks {
    bs[base := Block(ALLOC_HEADER, ALLOC_HEADER, LeftFence)]
      [base + ALLOC_HEADER := Block(ARENA - 2 * ALLOC_HEADER, ALLOC_HEADER, Free)]
      [base + ARENA - ALLOC_HEADER := Block(ALLOC_HEADER, ARENA - 2 * ALLOC_HEADER, RightFence)]
  }

  lemma AddChunkTiled(bs: Blocks, base: int)
    requires Tiled(bs) && base % 8 == 0 && base >= HEAP_BASE
    requires forall a :: a in bs ==> a + bs[a].size <= base
    ensures Tiled(AddChunk(bs, base))
  {
    var bs' := AddChunk(bs, base);
    forall x ensures JoinsRight(bs', x) { assert JoinsRight(bs, x); }
    forall x ensures JoinsLeft(bs', x) { assert JoinsLeft(bs, x); }
    forall x, y ensures Apart(bs', x, y) { assert Apart(bs, x, y); }
  }
}
