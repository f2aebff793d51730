/** Memory as addressed 64-bit words, and how headers and free lists lie in it. A free block's
    `next` and `prev` share their words with the payload of an allocated block. */
module Words {
  import opened Layout
  import opened Tags
  import opened FreeLists

  /** The words the process owns, by byte address. */
  type Words = map<int, int>

  /** A store; storing outside owned memory is not possible. */
  function Put(m: Words, a: int, v: int): (r: Words)
    requires a in m
    ensures r.Keys == m.Keys
  {
    m[a := v]
  }

  // ---------------------------------------------------------------- headers

  const LEFT_SIZE: int := 8
  const NEXT: int := 16
  const PREV: int := 24

  /** get_block_size masks the two low bits off size_and_state, get_block_state keeps them. */
  function SizeBits(w: int): int { w - w % 4 }

  function StateBits(w: int): int { w % 4 }

  function Code(k: Kind): int {
    match k
    case Free => 0
    case Used => 1
    case LeftFence => 2
    case RightFence => 2
  }

  /** The header words of block a say what bs says; the state bits of `pending` are left open. */
  predicate TagAt(m: Words, bs: Blocks, a: int, pending: int) {
    a in bs ==>
      && a in m && a + LEFT_SIZE in m
      && SizeBits(m[a]) == bs[a].size && m[a + LEFT_SIZE] == bs[a].left
      && (a != pending ==> StateBits(m[a]) == Code(bs[a].kind))
  }

  ghost predicate TagsIn(m: Words, bs: Blocks, pending: int) {
    forall a {:trigger TagAt(m, bs, a, pending)} :: TagAt(m, bs, a, pending)
  }

  /** Every word of every block is owned. */
  ghost predicate Owned(m: Words, bs: Blocks) {
    forall a, w :: a in bs && a <= w < a + bs[a].size && w % 8 == 0 ==> w in m
  }

  // ---------------------------------------------------------------- rings

  function Sentinel(i: int): int { TABLE + HEADER * i }

  /** The nodes of a ring: the sentinel, then the list, then the sentinel again. */
  function NodeAt(s: int, l: seq<int>, p: int): int {
    if 1 <= p <= |l| then l[p - 1] else s
  }

  predicate Linked(m: Words, x: int, y: int) {
    x + NEXT in m && m[x + NEXT] == y && y + PREV in m && m[y + PREV] == x
  }

  predicate LinkAt(m: Words, s: int, l: seq<int>, p: int) {
    0 <= p <= |l| ==> Linked(m, NodeAt(s, l, p), NodeAt(s, l, p + 1))
  }

  /** Following next from s passes the elements of l in order and comes back to s; prev is inverse. */
  ghost predicate Ring(m: Words, s: int, l: seq<int>) {
    forall p {:trigger LinkAt(m, s, l, p)} :: LinkAt(m, s, l, p)
  }

  ghost predicate RingsIn(m: Words, lists: Lists) {
    |lists| == N_LISTS && forall i :: 0 <= i < N_LISTS ==> Ring(m, Sentinel(i), lists[i])
  }

  predicate NodesClear(x: int, y: int) {
    x == y || x + HEADER <= y || y + HEADER <= x
  }

  /** Listed nodes are Headers that overlap neither each other nor the sentinels. */
  ghost predicate NodesApart(lists: Lists) {
    && Unique(lists)
    && (forall i, x :: InList(lists, i, x) ==> x >= HEAP_BASE)
    && (forall i, j, x, y :: InList(lists, i, x) && InList(lists, j, y) ==> NodesClear(x, y))
  }

  /** w is a next or prev field of a sentinel or a listed block. */
  ghost predicate LinkWord(lists: Lists, w: int) {
    || w < HEAP_BASE
    || Listed(lists, w - NEXT) || Listed(lists, w - PREV)
  }

  /** Nothing but next and prev fields differs. */
  ghost predicate SameButLinks(m: Words, m': Words, lists: Lists) {
    m'.Keys == m.Keys && forall w :: w in m && !LinkWord(lists, w) ==> m'[w] == m[w]
  }

  predicate RingFramed(m: Words, m': Words, x: int) {
    && (x + NEXT in m ==> x + NEXT in m' && m'[x + NEXT] == m[x + NEXT])
    && (x + PREV in m ==> x + PREV in m' && m'[x + PREV] == m[x + PREV])
  }

  lemma RingFrame(m: Words, m': Words, s: int, l: seq<int>)
    requires Ring(m, s, l) && RingFramed(m, m', s) && forall x :: x in l ==> RingFramed(m, m', x)
    ensures Ring(m', s, l)
  {
    forall p ensures LinkAt(m', s, l, p) {
      assert LinkAt(m, s, l, p);
      if 0 <= p <= |l| {
        assert RingFramed(m, m', NodeAt(s, l, p)) && RingFramed(m, m', NodeAt(s, l, p + 1));
      }
    }
  }

  /** What the ring lemmas need of a list and its sentinel. */
  ghost predicate GoodRing(m: Words, s: int, l: seq<int>) {
    && Ring(m, s, l) && NoDup(l)
    && TABLE <= s && s + HEADER <= HEAP_BASE
    && (forall x :: x in l ==> x >= HEAP_BASE)
    && (forall x, y :: x in l && y in l ==> NodesClear(x, y))
  }

  /** A header apart from all nodes of l. */
  ghost predicate NewNode(l: seq<int>, a: int) {
    a >= HEAP_BASE && forall x :: x in l ==> x != a && NodesClear(x, a)
  }

  lemma NodeIsListed(s: int, l: seq<int>, p: int)
    requires 0 <= p <= |l| + 1
    ensures if 1 <= p <= |l| then NodeAt(s, l, p) in l else NodeAt(s, l, p) == s
  {}

  /** freelist_insert_between right after the sentinel. */
  lemma RingInsert(m: Words, m': Words, s: int, l: seq<int>, a: int)
    requires GoodRing(m, s, l) && NewNode(l, a)
    requires a + NEXT in m && a + PREV in m && s + NEXT in m
    requires var f := m[s + NEXT];
      f + PREV in m && m' == m[a + NEXT := f][a + PREV := s][f + PREV := a][s + NEXT := a]
    ensures Ring(m', s, [a] + l)
  {
    var f, r := m[s + NEXT], [a] + l;
    assert LinkAt(m, s, l, 0);
    assert f == NodeAt(s, l, 1);
    NodeIsListed(s, l, 1);
    forall p ensures LinkAt(m', s, r, p) {
      if p == 0 {
        assert Linked(m', s, a);
      } else if p == 1 {
        assert NodeAt(s, r, 2) == f;
        assert Linked(m', a, f);
      } else if 2 <= p <= |r| {
        var x, y := NodeAt(s, l, p - 1), NodeAt(s, l, p);
        NodeIsListed(s, l, p - 1);
        NodeIsListed(s, l, p);
        assert LinkAt(m, s, l, p - 1);
        assert x == NodeAt(s, r, p) && y == NodeAt(s, r, p + 1);
        assert Linked(m', x, y);
      }
    }
  }

  /** freelist_remove of the node at position p of the list. */
  lemma RingRemove(m: Words, m': Words, s: int, l: seq<int>, p: int)
    requires GoodRing(m, s, l) && 0 <= p < |l|
    requires l[p] + NEXT in m && l[p] + PREV in m
    requires var next, prev := m[l[p] + NEXT], m[l[p] + PREV];
      m' == m[prev + NEXT := next][next + PREV := prev]
    ensures Ring(m', s, l[..p] + l[p + 1..])
  {
    var next, prev := m[l[p] + NEXT], m[l[p] + PREV];
    assert LinkAt(m, s, l, p) && LinkAt(m, s, l, p + 1);
    assert prev == NodeAt(s, l, p) && next == NodeAt(s, l, p + 2);
    NodeIsListed(s, l, p);
    NodeIsListed(s, l, p + 2);
    var r := l[..p] + l[p + 1..];
    forall q ensures LinkAt(m', s, r, q) {
      if q == p {
        assert NodeAt(s, r, q) == prev && NodeAt(s, r, q + 1) == next;
        assert Linked(m', prev, next);
      } else if 0 <= q <= |r| {
        var k := if q < p then q else q + 1;
        var x, y := NodeAt(s, l, k), NodeAt(s, l, k + 1);
        NodeIsListed(s, l, k);
        NodeIsListed(s, l, k + 1);
        assert LinkAt(m, s, l, k);
        assert NodeAt(s, r, q) == x && NodeAt(s, r, q + 1) == y;
        assert Linked(m', x, y);
      }
    }
  }

  /** The pointer swap of coalesce_right: b takes the place of the node at position p. */
  lemma RingReplace(m: Words, m': Words, s: int, l: seq<int>, p: int, b: int)
    requires GoodRing(m, s, l) && 0 <= p < |l| && b >= HEAP_BASE
    requires forall x :: x in l && x != l[p] ==> x != b && NodesClear(x, b)
    requires l[p] + NEXT in m && l[p] + PREV in m
    requires var next, prev := m[l[p] + NEXT], m[l[p] + PREV];
      m' == m[b + NEXT := next][b + PREV := prev][prev + NEXT := b][next + PREV := b]
    ensures Ring(m', s, l[p := b])
  {
    var next, prev := m[l[p] + NEXT], m[l[p] + PREV];
    assert LinkAt(m, s, l, p) && LinkAt(m, s, l, p + 1);
    assert prev == NodeAt(s, l, p) && next == NodeAt(s, l, p + 2);
    NodeIsListed(s, l, p);
    NodeIsListed(s, l, p + 2);
    var r := l[p := b];
    forall q ensures LinkAt(m', s, r, q) {
      if q == p {
        assert NodeAt(s, r, q) == prev && NodeAt(s, r, q + 1) == b;
        assert Linked(m', prev, b);
      } else if q == p + 1 {
        assert NodeAt(s, r, q) == b && NodeAt(s, r, q + 1) == next;
        assert Linked(m', b, next);
      } else if 0 <= q <= |r| {
        var x, y := NodeAt(s, l, q), NodeAt(s, l, q + 1);
        NodeIsListed(s, l, q);
        NodeIsListed(s, l, q + 1);
        assert LinkAt(m, s, l, q);
        assert NodeAt(s, r, q) == x && NodeAt(s, r, q + 1) == y;
        assert Linked(m', x, y);
      }
    }
  }

  // ---------------------------------------------------------------- all rings at once

  /** A header apart from all listed nodes. */
  ghost predicate FreshNode(lists: Lists, a: int) {
    a >= HEAP_BASE && forall i, x :: InList(lists, i, x) ==> x != a && NodesClear(x, a)
  }

  lemma GoodRingAt(m: Words, lists: Lists, i: int)
    requires RingsIn(m, lists) && NodesApart(lists) && 0 <= i < N_LISTS
    ensures GoodRing(m, Sentinel(i), lists[i])
  {
    forall x, y | x in lists[i] && y in lists[i] ensures NodesClear(x, y) && x >= HEAP_BASE {
      assert InList(lists, i, x) && InList(lists, i, y);
    }
  }

  /** The words of a ring are owned, and next and prev of a node are its neighbours in the ring. */
  lemma NodeWords(m: Words, lists: Lists, i: int, p: int)
    requires RingsIn(m, lists) && 0 <= i < N_LISTS && 0 <= p <= |lists[i]|
    ensures var s, l := Sentinel(i), lists[i]; var x := NodeAt(s, l, p);
      && x + NEXT in m && m[x + NEXT] == NodeAt(s, l, p + 1)
      && x + PREV in m && m[x + PREV] == NodeAt(s, l, if p == 0 then |l| else p - 1)
  {
    var s, l := Sentinel(i), lists[i];
    assert LinkAt(m, s, l, p) && LinkAt(m, s, l, if p == 0 then |l| else p - 1);
  }

  lemma OtherRings(m: Words, m': Words, lists: Lists, lists': Lists, k: int)
    requires RingsIn(m, lists) && 0 <= k < N_LISTS && |lists'| == N_LISTS && lists' == lists[k := lists'[k]]
    requires Ring(m', Sentinel(k), lists'[k])
    requires forall i :: 0 <= i < N_LISTS && i != k ==> RingFramed(m, m', Sentinel(i))
    requires forall i, x :: InList(lists, i, x) && i != k ==> RingFramed(m, m', x)
    ensures RingsIn(m', lists')
  {
    forall i | 0 <= i < N_LISTS ensures Ring(m', Sentinel(i), lists'[i]) {
      if i != k {
        forall x | x in lists[i] ensures RingFramed(m, m', x) {
          assert InList(lists, i, x);
        }
        RingFrame(m, m', Sentinel(i), lists[i]);
      }
    }
  }

  lemma InsertApart(lists: Lists, a: int, size: int)
    requires |lists| == N_LISTS && size >= 24 && NodesApart(lists) && FreshNode(lists, a)
    ensures NodesApart(Insert(lists, a, size))
  {
    assert !Listed(lists, a);
    InsertMembers(lists, a, size);
  }

  lemma InsertRings(m: Words, m': Words, lists: Lists, a: int, size: int)
    requires RingsIn(m, lists) && NodesApart(lists) && FreshNode(lists, a) && size >= 24
    requires a + NEXT in m && a + PREV in m
    requires Sentinel(SizeToIndex(size)) + NEXT in m && m[Sentinel(SizeToIndex(size)) + NEXT] + PREV in m
    requires var s := Sentinel(SizeToIndex(size)); var f := m[s + NEXT];
      m' == m[a + NEXT := f][a + PREV := s][f + PREV := a][s + NEXT := a]
    ensures RingsIn(m', Insert(lists, a, size)) && NodesApart(Insert(lists, a, size))
    ensures SameButLinks(m, m', Insert(lists, a, size))
  {
    var k := SizeToIndex(size);
    var s, l := Sentinel(k), lists[k];
    var f := m[s + NEXT];
    GoodRingAt(m, lists, k);
    NodeWords(m, lists, k, 0);
    NodeIsListed(s, l, 1);
    assert f == s || InList(lists, k, f);
    forall x | x in l ensures x != a && NodesClear(x, a) {
      assert InList(lists, k, x);
    }
    RingInsert(m, m', s, l, a);
    OtherRings(m, m', lists, Insert(lists, a, size), k);
    InsertApart(lists, a, size);
    InsertMembers(lists, a, size);
    assert InList(Insert(lists, a, size), k, a);
  }

  lemma RemoveApart(lists: Lists, a: int)
    requires NodesApart(lists)
    ensures NodesApart(Remove(lists, a))
  {
    RemoveMembers(lists, a);
  }

  lemma RemoveRings(m: Words, m': Words, lists: Lists, a: int)
    requires RingsIn(m, lists) && NodesApart(lists) && Listed(lists, a)
    requires a + NEXT in m && a + PREV in m
    requires m[a + PREV] + NEXT in m && m[a + NEXT] + PREV in m
    requires m' == m[m[a + PREV] + NEXT := m[a + NEXT]][m[a + NEXT] + PREV := m[a + PREV]]
    ensures RingsIn(m', Remove(lists, a)) && NodesApart(Remove(lists, a))
    ensures SameButLinks(m, m', lists)
  {
    var k := Home(lists, a);
    var s, l := Sentinel(k), lists[k];
    var p := Position(l, a);
    GoodRingAt(m, lists, k);
    NodeWords(m, lists, k, p + 1);
    NodeIsListed(s, l, p);
    NodeIsListed(s, l, p + 2);
    var next, prev := m[a + NEXT], m[a + PREV];
    assert (next == s || InList(lists, k, next)) && (prev == s || InList(lists, k, prev));
    RingRemove(m, m', s, l, p);
    OtherRings(m, m', lists, Remove(lists, a), k);
    RemoveApart(lists, a);
  }

  /** The memory after the pointer swap of coalesce_right. */
  function SwapLinks(m: Words, a: int, b: int): (r: Words)
    requires a + NEXT in m && a + PREV in m && b + NEXT in m && b + PREV in m
    requires m[a + PREV] + NEXT in m && m[a + NEXT] + PREV in m
    ensures r.Keys == m.Keys
  {
    m[b + NEXT := m[a + NEXT]][b + PREV := m[a + PREV]][m[a + PREV] + NEXT := b][m[a + NEXT] + PREV := b]
  }

  /** The links of a listed node are owned and lead to other nodes of its ring. */
  lemma ListedWords(m: Words, lists: Lists, a: int)
    requires RingsIn(m, lists) && NodesApart(lists) && Listed(lists, a)
    ensures a + NEXT in m && a + PREV in m && m[a + PREV] + NEXT in m && m[a + NEXT] + PREV in m
    ensures m[a + NEXT] != a && (m[a + NEXT] == Sentinel(Home(lists, a)) || InList(lists, Home(lists, a), m[a + NEXT]))
    ensures m[a + PREV] != a && (m[a + PREV] == Sentinel(Home(lists, a)) || InList(lists, Home(lists, a), m[a + PREV]))
  {
    var k := Home(lists, a);
    var s, l := Sentinel(k), lists[k];
    var p := Position(l, a);
    GoodRingAt(m, lists, k);
    NodeWords(m, lists, k, p + 1);
    NodeWords(m, lists, k, p);
    NodeWords(m, lists, k, if p + 2 <= |l| then p + 2 else 0);
    NodeIsListed(s, l, p);
    NodeIsListed(s, l, p + 2);
  }

  lemma ReplaceRings(m: Words, lists: Lists, a: int, b: int)
    requires RingsIn(m, lists) && NodesApart(lists) && Listed(lists, a) && b >= HEAP_BASE && !Listed(lists, b)
    requires forall i, x :: InList(lists, i, x) && x != a ==> x != b && NodesClear(x, b)
    requires a + NEXT in m && a + PREV in m && b + NEXT in m && b + PREV in m
    requires m[a + PREV] + NEXT in m && m[a + NEXT] + PREV in m
    ensures RingsIn(SwapLinks(m, a, b), Replace(lists, a, b))
  {
    var k := Home(lists, a);
    var s, l := Sentinel(k), lists[k];
    var p := Position(l, a);
    GoodRingAt(m, lists, k);
    ListedWords(m, lists, a);
    forall x | x in l && x != a ensures x != b && NodesClear(x, b) {
      assert InList(lists, k, x);
    }
    RingReplace(m, SwapLinks(m, a, b), s, l, p, b);
    OtherRings(m, SwapLinks(m, a, b), lists, Replace(lists, a, b), k);
  }

  lemma ReplaceLinks(m: Words, lists: Lists, a: int, b: int)
    requires RingsIn(m, lists) && NodesApart(lists) && Listed(lists, a) && b >= HEAP_BASE && !Listed(lists, b)
    requires a + NEXT in m && a + PREV in m && b + NEXT in m && b + PREV in m
    requires m[a + PREV] + NEXT in m && m[a + NEXT] + PREV in m
    ensures SameButLinks(m, SwapLinks(m, a, b), Replace(lists, a, b))
  {
    var k, lists' := Home(lists, a), Replace(lists, a, b);
    var next, prev := m[a + NEXT], m[a + PREV];
    ListedWords(m, lists, a);
    ReplaceMembers(lists, a, b);
    assert InList(lists, k, a) && InList(lists', k, b);
    assert next >= HEAP_BASE ==> InList(lists', k, next);
    assert prev >= HEAP_BASE ==> InList(lists', k, prev);
  }

  lemma ReplaceApart(lists: Lists, a: int, b: int)
    requires NodesApart(lists) && Listed(lists, a) && b >= HEAP_BASE && !Listed(lists, b)
    requires forall i, x :: InList(lists, i, x) && x != a ==> x != b && NodesClear(x, b)
    ensures NodesApart(Replace(lists, a, b))
  {
    ReplaceMembers(lists, a, b);
  }
}
