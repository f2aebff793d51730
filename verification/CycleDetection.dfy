/** detect_cycles: Floyd's two pointers, started from each sentinel, on memory that may be corrupt. */
module CycleDetection {
  import opened Layout
  import opened FreeLists
  import opened Words

  predicate Leads(m: Words, nodes: set<int>, x: int) {
    x in nodes ==> x + NEXT in m && m[x + NEXT] in nodes
  }

  /** Every node of nodes has a next field that leads to a node of nodes. */
  ghost predicate Closed(m: Words, nodes: set<int>) {
    NULL !in nodes && forall x {:trigger Leads(m, nodes, x)} :: Leads(m, nodes, x)
  }

  /** k times next. */
  ghost function Iter(m: Words, nodes: set<int>, x: int, k: nat): (y: int)
    requires Closed(m, nodes) && x in nodes
    ensures y in nodes
  {
    if k == 0 then x
    else
      var y := Iter(m, nodes, x, k - 1);
      assert Leads(m, nodes, y);
      m[y + NEXT]
  }

  /** Following next from x comes back to x. */
  ghost predicate OnCycle(m: Words, nodes: set<int>, x: int)
    requires Closed(m, nodes) && x in nodes
  {
    exists k: nat :: k > 0 && Iter(m, nodes, x, k) == x
  }

  lemma {:induction false} IterAdds(m: Words, nodes: set<int>, x: int, j: nat, k: nat)
    requires Closed(m, nodes) && x in nodes
    ensures Iter(m, nodes, x, j + k) == Iter(m, nodes, Iter(m, nodes, x, j), k)
    decreases k
  {
    if k > 0 {
      IterAdds(m, nodes, x, j, k - 1);
    }
  }

  lemma {:induction false} IterPeriod(m: Words, nodes: set<int>, x: int, n: nat, q: nat)
    requires Closed(m, nodes) && x in nodes && Iter(m, nodes, x, n) == x
    ensures Iter(m, nodes, x, q * n) == x
    decreases q
  {
    if q > 0 {
      IterPeriod(m, nodes, x, n, q - 1);
      IterAdds(m, nodes, x, n, (q - 1) * n);
      assert n + (q - 1) * n == q * n;
    }
  }

  /** From any node the walk runs into a cycle: after a steps it has period b. */
  lemma FindPeriod(m: Words, nodes: set<int>, x: int) returns (a: nat, b: nat)
    requires Closed(m, nodes) && x in nodes
    ensures b > 0 && Iter(m, nodes, x, a + b) == Iter(m, nodes, x, a)
  {
    var step: map<int, nat>, k := map[], 0;
    while Iter(m, nodes, x, k) !in step
      invariant step.Keys <= nodes
      invariant forall y :: y in step ==> step[y] < k && Iter(m, nodes, x, step[y]) == y
      decreases nodes - step.Keys
    {
      assert Iter(m, nodes, x, k) in nodes - step.Keys;
      step := step[Iter(m, nodes, x, k) := k];
      k := k + 1;
    }
    a := step[Iter(m, nodes, x, k)];
    b := k - a;
  }

  /** The pointers meet at the latest after a multiple of the period that lies on the cycle. */
  lemma MeetingPoint(m: Words, nodes: set<int>, x: int) returns (t: nat)
    requires Closed(m, nodes) && x in nodes
    ensures t > 0 && Iter(m, nodes, x, t) == Iter(m, nodes, x, 2 * t)
  {
    var a, b := FindPeriod(m, nodes, x);
    t := (a + 1) * b;
    var y := Iter(m, nodes, x, a);
    IterAdds(m, nodes, x, a, b);
    IterPeriod(m, nodes, y, b, a + 1);
    assert t >= a + 1 by { assert (a + 1) * b >= (a + 1) * 1; }
    var z := Iter(m, nodes, x, t);
    IterAdds(m, nodes, x, a, t - a);
    IterAdds(m, nodes, y, t - a, t);
    IterAdds(m, nodes, y, t, t - a);
    IterAdds(m, nodes, x, t, t);
  }

  /** On a walk that comes back to x the pointers can only meet at x. */
  lemma MeetingIsAtStart(m: Words, nodes: set<int>, x: int, t: nat, home: nat)
    requires Closed(m, nodes) && x in nodes && t <= home && Iter(m, nodes, x, home) == x
    requires Iter(m, nodes, x, t) == Iter(m, nodes, x, 2 * t)
    ensures Iter(m, nodes, x, t) == x
  {
    hide *;
    IterAdds(m, nodes, x, t, home - t);
    IterAdds(m, nodes, x, 2 * t, home - t);
    IterAdds(m, nodes, x, home, t);
  }

  /** A meeting away from x shows that the walk never comes back to x. */
  lemma MeetingExcludesReturn(m: Words, nodes: set<int>, x: int, t: nat)
    requires Closed(m, nodes) && x in nodes
    requires Iter(m, nodes, x, t) == Iter(m, nodes, x, 2 * t) != x
    ensures !OnCycle(m, nodes, x)
  {
    if OnCycle(m, nodes, x) {
      var n: nat :| n > 0 && Iter(m, nodes, x, n) == x;
      IterPeriod(m, nodes, x, n, t);
      assert t * n >= t by { assert t * n >= t * 1; }
      MeetingIsAtStart(m, nodes, x, t, t * n);
    }
  }

  /** The walk from one sentinel. */
  method Chase(m: Words, freelist: int, ghost nodes: set<int>) returns (r: int)
    requires Closed(m, nodes) && freelist in nodes
    ensures r == NULL <==> OnCycle(m, nodes, freelist)
    ensures r != NULL ==> r in nodes && OnCycle(m, nodes, r)
    ensures r != NULL ==> exists k: nat :: Iter(m, nodes, freelist, k) == r
  {
    ghost var meet := MeetingPoint(m, nodes, freelist);
    ghost var t := 1;
    assert Leads(m, nodes, freelist);
    assert Iter(m, nodes, freelist, 1) == m[Iter(m, nodes, freelist, 0) + NEXT];
    assert Leads(m, nodes, Iter(m, nodes, freelist, 1));
    var slow := m[freelist + NEXT];
    var fast := m[m[freelist + NEXT] + NEXT];
    while fast != freelist
      invariant 1 <= t <= meet
      invariant slow == Iter(m, nodes, freelist, t) && fast == Iter(m, nodes, freelist, 2 * t)
      decreases meet - t
    {
      if slow == fast {
        MeetingExcludesReturn(m, nodes, freelist, t);
        IterAdds(m, nodes, freelist, t, t);
        return slow;
      }
      assert Leads(m, nodes, slow) && Leads(m, nodes, fast) && Leads(m, nodes, m[fast + NEXT]);
      assert Iter(m, nodes, freelist, 2 * t + 1) == m[fast + NEXT];
      slow, fast := m[slow + NEXT], m[m[fast + NEXT] + NEXT];
      t := t + 1;
    }
    return NULL;
  }

  /** detect_cycles: NULL exactly if the walk from every sentinel comes back to it, even though the
      fast pointer may step over it; otherwise a node on a cycle that misses some sentinel. */
  method DetectCycles(m: Words, ghost nodes: set<int>) returns (r: int)
    requires Closed(m, nodes) && forall i :: 0 <= i < N_LISTS ==> Sentinel(i) in nodes
    ensures r == NULL <==> forall i :: 0 <= i < N_LISTS ==> OnCycle(m, nodes, Sentinel(i))
    ensures r != NULL ==> r in nodes && OnCycle(m, nodes, r)
  {
    var i := 0;
    while i < N_LISTS
      invariant 0 <= i <= N_LISTS
      invariant forall k :: 0 <= k < i ==> OnCycle(m, nodes, Sentinel(k))
    {
      assert Sentinel(i) in nodes;
      r := Chase(m, TABLE + HEADER * i, nodes);
      if r != NULL {
        assert !OnCycle(m, nodes, Sentinel(i));
        return;
      }
      i := i + 1;
    }
    return NULL;
  }

  // ---------------------------------------------------------------- on a sound heap

  ghost predicate IsNode(lists: Lists, x: int) {
    Listed(lists, x) || exists i :: 0 <= i < N_LISTS && x == Sentinel(i)
  }

  /** The sentinels and the listed blocks. */
  ghost function Nodes(m: Words, lists: Lists): (nodes: set<int>)
    ensures forall x :: x in nodes <==> x + NEXT in m && IsNode(lists, x)
  {
    var words := set w | w in m.Keys && IsNode(lists, w - NEXT);
    var nodes := set w | w in words :: w - NEXT;
    assert forall x :: x in nodes <==> x + NEXT in words by {
      forall x | x + NEXT in words ensures x in nodes {
        assert (x + NEXT) - NEXT == x;
      }
    }
    nodes
  }

  lemma RingNode(m: Words, lists: Lists, i: int, p: int)
    requires RingsIn(m, lists) && NodesApart(lists) && 0 <= i < N_LISTS && 0 <= p <= |lists[i]| + 1
    ensures var x := NodeAt(Sentinel(i), lists[i], p); x in Nodes(m, lists) && x != NULL
  {
    var s, l := Sentinel(i), lists[i];
    NodeIsListed(s, l, p);
    NodeWords(m, lists, i, if p <= |l| then p else 0);
    if 1 <= p <= |l| {
      assert InList(lists, i, l[p - 1]);
    }
  }

  lemma NodeOf(m: Words, lists: Lists, x: int) returns (i: int, p: int)
    requires RingsIn(m, lists) && IsNode(lists, x)
    ensures 0 <= i < N_LISTS && 0 <= p <= |lists[i]| && x == NodeAt(Sentinel(i), lists[i], p)
  {
    if Listed(lists, x) {
      i := Home(lists, x);
      p := Position(lists[i], x) + 1;
    } else {
      i :| 0 <= i < N_LISTS && x == Sentinel(i);
      p := 0;
    }
  }

  lemma NodesClosed(m: Words, lists: Lists)
    requires RingsIn(m, lists) && NodesApart(lists)
    ensures Closed(m, Nodes(m, lists))
  {
    var nodes := Nodes(m, lists);
    forall x ensures Leads(m, nodes, x) && (x in nodes ==> x != NULL) {
      if x in nodes {
        var i, p := NodeOf(m, lists, x);
        NodeWords(m, lists, i, p);
        RingNode(m, lists, i, p);
        RingNode(m, lists, i, p + 1);
      }
    }
  }

  lemma {:induction false} RingIter(m: Words, lists: Lists, nodes: set<int>, i: int, k: nat)
    requires RingsIn(m, lists) && 0 <= i < N_LISTS && k <= |lists[i]| + 1
    requires Closed(m, nodes) && Sentinel(i) in nodes
    ensures Iter(m, nodes, Sentinel(i), k) == NodeAt(Sentinel(i), lists[i], k)
    decreases k
  {
    if k > 0 {
      RingIter(m, lists, nodes, i, k - 1);
      NodeWords(m, lists, i, k - 1);
    }
  }

  /** On rings as malloc and free keep them, detect_cycles may be called and returns NULL. */
  lemma SoundRingsReturn(m: Words, lists: Lists)
    requires RingsIn(m, lists) && NodesApart(lists)
    ensures Closed(m, Nodes(m, lists))
    ensures forall i :: 0 <= i < N_LISTS ==>
              Sentinel(i) in Nodes(m, lists) && OnCycle(m, Nodes(m, lists), Sentinel(i))
  {
    NodesClosed(m, lists);
    var nodes := Nodes(m, lists);
    forall i | 0 <= i < N_LISTS ensures Sentinel(i) in nodes && OnCycle(m, nodes, Sentinel(i)) {
      RingNode(m, lists, i, 0);
      RingIter(m, lists, nodes, i, |lists[i]| + 1);
    }
  }
}
