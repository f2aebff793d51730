/** The 59 segregated free lists as sequences of block addresses, front first. */
module FreeLists {
  import opened Layout

  type Lists = seq<seq<int>>

  /** The guard of move_coalesced: as the code has it, or comparing list indices instead. */
  datatype Guard = AsCoded | ByIndex

  predicate Moves(g: Guard, size: int, oldSize: int)
    requires size >= 24 && oldSize >= 24
  {
    match g
    case AsCoded => size / 8 != oldSize / 8 && (size / 8 < N_LISTS || oldSize / 8 < N_LISTS)
    case ByIndex => SizeToIndex(size) != SizeToIndex(oldSize)
  }

  predicate InList(lists: Lists, i: int, a: int) {
    0 <= i < |lists| && a in lists[i]
  }

  ghost predicate Listed(lists: Lists, a: int) {
    exists i :: InList(lists, i, a)
  }

  ghost predicate NoDup(l: seq<int>) {
    forall p, q :: 0 <= p < q < |l| ==> l[p] != l[q]
  }

  /** No block is linked twice, whether on one list or on two. */
  ghost predicate Unique(lists: Lists) {
    && (forall i :: 0 <= i < |lists| ==> NoDup(lists[i]))
    && (forall i, j, a :: InList(lists, i, a) && InList(lists, j, a) ==> i == j)
  }

  ghost function Position(l: seq<int>, a: int): (p: int)
    requires a in l
    ensures 0 <= p < |l| && l[p] == a
  {
    var p :| 0 <= p < |l| && l[p] == a;
    p
  }

  ghost function Home(lists: Lists, a: int): (i: int)
    requires Listed(lists, a)
    ensures InList(lists, i, a)
  {
    var i :| InList(lists, i, a);
    i
  }

  /** freelist_insert puts a block at the front of the list for its size. */
  function Insert(lists: Lists, a: int, size: int): (r: Lists)
    requires |lists| == N_LISTS && size >= 24
    ensures |r| == N_LISTS
  {
    var i := SizeToIndex(size);
    lists[i := [a] + lists[i]]
  }

  /** freelist_remove unlinks a block from whatever list it is on. */
  ghost function Remove(lists: Lists, a: int): (r: Lists)
    ensures |r| == |lists|
  {
    if Listed(lists, a) then
      var i := Home(lists, a);
      var p := Position(lists[i], a);
      lists[i := lists[i][..p] + lists[i][p + 1..]]
    else lists
  }

  /** coalesce_right lets the merged block b take the list position of its right part a. */
  ghost function Replace(lists: Lists, a: int, b: int): (r: Lists)
    ensures |r| == |lists|
  {
    if Listed(lists, a) then
      var i := Home(lists, a);
      var p := Position(lists[i], a);
      lists[i := lists[i][p := b]]
    else lists
  }

  /** move_coalesced */
  ghost function Move(g: Guard, lists: Lists, a: int, size: int, oldSize: int): (r: Lists)
    requires |lists| == N_LISTS && size >= 24 && oldSize >= 24
    ensures |r| == N_LISTS
  {
    if Moves(g, size, oldSize) then Insert(Remove(lists, a), a, size) else lists
  }

  /** get_next_set_bit, read off the lists: the first populated list from i on, or the last one. */
  function NextPopulated(lists: Lists, i: int): (j: int)
    requires |lists| == N_LISTS && 0 <= i < N_LISTS
    ensures i <= j < N_LISTS
    ensures j == N_LISTS - 1 || lists[j] != []
    ensures forall k :: i <= k < j ==> lists[k] == []
    decreases N_LISTS - i
  {
    if i < N_LISTS - 1 && lists[i] == [] then NextPopulated(lists, i + 1) else i
  }

  // ---------------------------------------------------------------- what the updates do to membership

  lemma InsertMembers(lists: Lists, a: int, size: int)
    requires |lists| == N_LISTS && size >= 24 && Unique(lists) && !Listed(lists, a)
    ensures var r := Insert(lists, a, size);
      && Unique(r)
      && forall i, b :: InList(r, i, b) <==> InList(lists, i, b) || (i == SizeToIndex(size) && b == a)
  {
    var r := Insert(lists, a, size);
    var k := SizeToIndex(size);
    assert !InList(lists, k, a);
    forall i, b
      ensures InList(r, i, b) <==> InList(lists, i, b) || (i == k && b == a)
    {
      if i == k {
        assert r[k] == [a] + lists[k];
      }
    }
    forall i | 0 <= i < |r| ensures NoDup(r[i]) {
      assert NoDup(lists[i]);
    }
  }

  lemma RemoveMembers(lists: Lists, a: int)
    requires Unique(lists)
    ensures var r := Remove(lists, a);
      && Unique(r) && !Listed(r, a)
      && forall i, b :: InList(r, i, b) <==> InList(lists, i, b) && b != a
  {
    if Listed(lists, a) {
      var r := Remove(lists, a);
      var k := Home(lists, a);
      var l := lists[k];
      var p := Position(l, a);
      assert r[k] == l[..p] + l[p + 1..];
      assert NoDup(l);
      forall i, b
        ensures InList(r, i, b) <==> InList(lists, i, b) && b != a
      {
        if i == k && b in l && b != a {
          var q := Position(l, b);
          assert r[k][if q < p then q else q - 1] == b;
        }
        assert InList(lists, i, a) ==> i == k;
      }
      forall i | 0 <= i < |r| ensures NoDup(r[i]) {
        assert NoDup(lists[i]);
      }
    } else {
      forall i, b | InList(lists, i, b) ensures b != a {}
    }
  }

  lemma ReplaceMembers(lists: Lists, a: int, b: int)
    requires Unique(lists) && Listed(lists, a) && !Listed(lists, b)
    ensures var r := Replace(lists, a, b);
      && Unique(r) && !Listed(r, a)
      && forall i, c :: InList(r, i, c) <==> (InList(lists, i, c) && c != a) || (InList(lists, i, a) && c == b)
  {
    var r := Replace(lists, a, b);
    var k := Home(lists, a);
    var l := lists[k];
    var p := Position(l, a);
    assert r[k] == l[p := b] && r[k][p] == b;
    assert NoDup(l) && !InList(lists, k, b);
    forall i, c
      ensures InList(r, i, c) <==> (InList(lists, i, c) && c != a) || (InList(lists, i, a) && c == b)
    {
      if i == k && c in l && c != a {
        assert r[k][Position(l, c)] == c;
      }
      assert InList(lists, i, a) <==> i == k;
    }
    forall i | 0 <= i < |r| ensures NoDup(r[i]) {
      assert NoDup(lists[i]);
    }
    assert !InList(lists, k, b) && a != b;
    forall i ensures !InList(r, i, a) {}
    forall i, j, c | InList(r, i, c) && InList(r, j, c) ensures i == j {
      if c == b {
        assert !InList(lists, i, b) && !InList(lists, j, b);
      }
    }
  }
}
