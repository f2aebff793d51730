/** The words of a valid heap in memory: where headers and links are, in plain offsets. */
module MemoryWords {
  import opened Layout
  import opened Tags
  import opened FreeLists
  import opened HeapModel
  import opened Words
  import opened Representation
  import opened MallocHeaps

  /** The first word of a header is the size plus the state, 0 for a free block, 1 for an allocated one
      and 2 for a fencepost; the second is the size of the left neighbour. */
  lemma HeaderWords(mh: MallocHeap, a: int)
    requires mh.Valid() && a in mh.heap.blocks
    ensures a in mh.mem && a + 8 in mh.mem
    ensures var b := mh.heap.blocks[a];
      && mh.mem[a] == b.size + (if b.kind.Free? then 0 else if b.kind.Used? then 1 else 2)
      && mh.mem[a + 8] == b.left && b.size % 8 == 0
  {
    assert a != NULL;
    assert TagAt(mh.mem, mh.heap.blocks, a, NULL);
    assert Sized(mh.heap.blocks[a]);
  }

  /** The third word of a listed block is the next one of its list, and the fourth the one before; both
      ends lead to the sentinel of the list, which lie in a table of 32 bytes each. */
  lemma LinkWords(mh: MallocHeap, i: nat, p: nat)
    requires mh.Valid() && i < 59
    ensures |mh.heap.lists| == 59
    ensures p < |mh.heap.lists[i]| ==>
      var l, sentinel := mh.heap.lists[i], 64 + 32 * i;
      && l[p] + 16 in mh.mem && l[p] + 24 in mh.mem
      && mh.mem[l[p] + 16] == (if p + 1 < |l| then l[p + 1] else sentinel)
      && mh.mem[l[p] + 24] == (if p > 0 then l[p - 1] else sentinel)
  {
    var l, s := mh.heap.lists[i], Sentinel(i);
    assert Ring(mh.mem, s, l);
    if p < |l| {
      assert LinkAt(mh.mem, s, l, p) && LinkAt(mh.mem, s, l, p + 1);
    }
  }

  /** The sentinel leads to the front and to the back of its list, and to itself if the list is empty. */
  lemma SentinelWords(mh: MallocHeap, i: nat)
    requires mh.Valid() && i < 59
    ensures |mh.heap.lists| == 59
    ensures var l, sentinel := mh.heap.lists[i], 64 + 32 * i;
      && sentinel + 16 in mh.mem && sentinel + 24 in mh.mem
      && mh.mem[sentinel + 16] == (if l != [] then l[0] else sentinel)
      && mh.mem[sentinel + 24] == (if l != [] then l[|l| - 1] else sentinel)
      && (mh.bitmap[i] <==> l != [])
  {
    var l, s := mh.heap.lists[i], Sentinel(i);
    assert Ring(mh.mem, s, l);
    assert LinkAt(mh.mem, s, l, 0) && LinkAt(mh.mem, s, l, |l|);
  }
}
