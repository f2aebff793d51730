/** Where the code for each instruction lies in the output, and that every label is unique. */
module Labels {
  import opened Bytecode
  import opened X86
  import opened CodeGen

  /** The pass that stands at p comes to q. */
  ghost predicate Visits(code: seq<Byte>, p: Pass, q: Pass)
    decreases |code| - p.k
  {
    p == q || (p.k < |code| && Poppable(code, p) && Visits(code, Next(code, p), q))
  }

  /** What the pass has emitted between p and q. */
  ghost function Before(code: seq<Byte>, ml: nat, p: Pass, q: Pass): seq<Instr>
    requires Visits(code, p, q)
    decreases |code| - p.k
  {
    if p == q then []
    else [Label(Offset(p.k))] + Emit(code, ml, p) + Before(code, ml, Next(code, p), q)
  }

  ghost function Index(code: seq<Byte>, ml: nat, p: Pass, q: Pass): nat
    requires Visits(code, p, q)
  {
    |Before(code, ml, p, q)|
  }

  lemma {:induction false} VisitsLater(code: seq<Byte>, p: Pass, q: Pass)
    requires Visits(code, p, q)
    ensures p == q || (p.k < q.k && p.cmps <= q.cmps)
    decreases |code| - p.k
  {
    if p != q {
      VisitsLater(code, Next(code, p), q);
    }
  }

  lemma {:induction false} VisitsNext(code: seq<Byte>, p: Pass, q: Pass)
    requires Visits(code, p, q) && q.k < |code| && Poppable(code, q)
    ensures Visits(code, p, Next(code, q))
    decreases |code| - p.k
  {
    if p != q {
      VisitsNext(code, Next(code, p), q);
    }
  }

  lemma NextLater(code: seq<Byte>, p: Pass)
    requires Poppable(code, p)
    ensures Complete(code, p.k) && Next(code, p).k > p.k
    ensures Next(code, p).cmps == if Decode(code, p.k).Lcmp? then p.cmps + 1 else p.cmps
  {}

  /** The output splits where the pass comes to q. */
  lemma {:induction false} GenSplits(code: seq<Byte>, ml: nat, p: Pass, q: Pass)
    requires Walkable(code, p) && Visits(code, p, q)
    ensures Walkable(code, q) && Gen(code, ml, p) == Before(code, ml, p, q) + Gen(code, ml, q)
    decreases |code| - p.k
  {
    hide Emit, Next, Decode, Length;
    if p != q {
      NextLater(code, p);
      GenSplits(code, ml, Next(code, p), q);
    }
  }

  /** The label and the code of the instruction at q follow what was emitted before. */
  lemma BlockAt(code: seq<Byte>, ml: nat, p: Pass, q: Pass)
    requires Walkable(code, p) && Visits(code, p, q) && q.k < |code|
    ensures Poppable(code, q) && Visits(code, p, Next(code, q))
    ensures var b := [Label(Offset(q.k))] + Emit(code, ml, q);
      && HasAt(Gen(code, ml, p), Index(code, ml, p, q), b)
      && Index(code, ml, p, Next(code, q)) == Index(code, ml, p, q) + |b|
  {
    hide Emit, Next, Decode, Length, Before;
    GenSplits(code, ml, p, q);
    VisitsNext(code, p, q);
    BeforeNext(code, ml, p, q);
    var b, rest := [Label(Offset(q.k))] + Emit(code, ml, q), Gen(code, ml, Next(code, q));
    assert Gen(code, ml, p) == Before(code, ml, p, q) + (b + rest);
  }

  lemma {:induction false} BeforeNext(code: seq<Byte>, ml: nat, p: Pass, q: Pass)
    requires Visits(code, p, q) && q.k < |code| && Poppable(code, q) && Visits(code, p, Next(code, q))
    ensures Index(code, ml, p, Next(code, q)) == Index(code, ml, p, q) + 1 + |Emit(code, ml, q)|
    decreases |code| - p.k
  {
    hide Emit;
    VisitsLater(code, p, q);
    if p != q {
      BeforeNext(code, ml, Next(code, p), q);
    } else {
      assert Before(code, ml, Next(code, p), Next(code, q)) == [];
    }
  }

  /** The output from p on, instruction by instruction: the label, the code of the instruction at p,
      and the rest. */
  lemma GenAt(code: seq<Byte>, ml: nat, p: Pass, j: nat)
    requires Walkable(code, p) && j < |Gen(code, ml, p)|
    ensures p.k < |code| && Poppable(code, p) && Walkable(code, Next(code, p))
    ensures var g, e, rest := Gen(code, ml, p), Emit(code, ml, p), Gen(code, ml, Next(code, p));
      && |g| == 1 + |e| + |rest|
      && g[j] == if j == 0 then Label(Offset(p.k)) else if j - 1 < |e| then e[j - 1] else rest[j - 1 - |e|]
  {
    hide Emit, Decode, Next, Length;
  }

  lemma IndexNext(code: seq<Byte>, ml: nat, p: Pass, q: Pass)
    requires Visits(code, p, q)
    ensures p == q ==> Index(code, ml, p, q) == 0
    ensures p != q ==>
      && p.k < |code| && Poppable(code, p) && Visits(code, Next(code, p), q)
      && Index(code, ml, p, q) == 1 + |Emit(code, ml, p)| + Index(code, ml, Next(code, p), q)
  {
    hide Emit, Next, Poppable;
  }

  // ---------------------------------------------------------------- offset labels

  predicate NoLabels(b: seq<Instr>) {
    forall i :: 0 <= i < |b| ==> !b[i].Label?
  }

  /** Only the code of an lcmp has labels. */
  lemma NoLabelsButLcmp(i: Insn, target: Name, ml: nat, p: Pass)
    requires p.top >= Pops(i) && !i.Lcmp?
    ensures NoLabels(CodeFor(i, target, ml, p))
  {
    match i {
      case Bin(op) =>
      case _ =>
    }
  }

  /** The only labels inside the code of an instruction are the three of an lcmp, with a number of
      its own. */
  lemma EmitLabels(code: seq<Byte>, ml: nat, p: Pass, j: nat)
    requires Poppable(code, p) && j < |Emit(code, ml, p)| && Emit(code, ml, p)[j].Label?
    ensures Decode(code, p.k).Lcmp? && !Emit(code, ml, p)[j].l.Offset? && Emit(code, ml, p)[j].l.c == p.cmps + 1
  {
    if Decode(code, p.k).Lcmp? {
      EmitLcmp(code, ml, p);
      hide Emit, Decode;
      LcmpLabels(ml, p, j, Emit(code, ml, p));
    } else {
      hide Decode, CodeFor;
      NoLabelsButLcmp(Decode(code, p.k), TargetName(code, p.k), ml, p);
    }
  }

  lemma EmitLcmp(code: seq<Byte>, ml: nat, p: Pass)
    requires Poppable(code, p) && Decode(code, p.k).Lcmp?
    ensures p.top >= 2
    ensures Emit(code, ml, p) == Pop(ml, p.top) + Pop(ml, p.top - 1) + LcmpBlock(p) + Push(ml, p.top - 2)
  {}

  lemma LcmpLabels(ml: nat, p: Pass, j: nat, e: seq<Instr>)
    requires p.top >= 2 && j < |e| && e[j].Label?
    requires e == Pop(ml, p.top) + Pop(ml, p.top - 1) + LcmpBlock(p) + Push(ml, p.top - 2)
    ensures !e[j].l.Offset? && e[j].l.c == p.cmps + 1
    ensures var o := |Pop(ml, p.top)| + |Pop(ml, p.top - 1)|;
      j == o + match e[j].l case Eq(_) => 2 case Ne(_) => 5 case _ => 7
  {
    var o := |Pop(ml, p.top)| + |Pop(ml, p.top - 1)|;
    assert forall x :: 0 <= x < |e| && (x < o || x >= o + 8) ==> !e[x].Label?;
    assert e[j] == LcmpBlock(p)[j - o];
  }

  lemma {:induction false} LabelsLater(code: seq<Byte>, ml: nat, p: Pass, j: nat)
    requires Walkable(code, p) && j < |Gen(code, ml, p)| && Gen(code, ml, p)[j].Label?
    ensures match Gen(code, ml, p)[j].l
            case Offset(k) => k >= p.k
            case Ne(c) => c > p.cmps
            case Eq(c) => c > p.cmps
            case End(c) => c > p.cmps
    decreases |code| - p.k
  {
    hide *;
    GenAt(code, ml, p, j);
    NextLater(code, p);
    if j > 0 {
      var e := Emit(code, ml, p);
      if j - 1 < |e| {
        EmitLabels(code, ml, p, j - 1);
      } else {
        LabelsLater(code, ml, Next(code, p), j - 1 - |e|);
      }
    }
  }

  /** offset_k occurs once in the output, in front of the code for the instruction at k. */
  lemma {:induction false} OffsetIsUnique(code: seq<Byte>, ml: nat, p: Pass, q: Pass, j: nat)
    requires Walkable(code, p) && Visits(code, p, q) && q.k < |code|
    requires j < |Gen(code, ml, p)| && Gen(code, ml, p)[j] == Label(Offset(q.k))
    ensures j == Index(code, ml, p, q)
    decreases |code| - p.k
  {
    hide *;
    GenAt(code, ml, p, j);
    NextLater(code, p);
    IndexNext(code, ml, p, q);
    VisitsLater(code, p, q);
    var e := Emit(code, ml, p);
    if 0 < j <= |e| {
      EmitLabels(code, ml, p, j - 1);
    } else if j > 0 {
      var n := Next(code, p);
      LabelsLater(code, ml, n, j - 1 - |e|);
      if p == q {
        assert false;
      }
      OffsetIsUnique(code, ml, n, q, j - 1 - |e|);
    }
  }

  /** A jump to offset_k goes to the code for the instruction at k. */
  lemma FindOffset(code: seq<Byte>, ml: nat, p: Pass, q: Pass)
    requires Walkable(code, p) && Visits(code, p, q) && q.k < |code|
    ensures var g := Gen(code, ml, p);
      Labelled(g, Offset(q.k)) && Find(g, Offset(q.k)) == Index(code, ml, p, q)
  {
    hide Emit, Next, Decode, Length, Before, Walkable, Gen, Visits;
    BlockAt(code, ml, p, q);
    var g, i := Gen(code, ml, p), Index(code, ml, p, q);
    assert g[i] == g[i..i + 1 + |Emit(code, ml, q)|][0] == Label(Offset(q.k));
    OffsetIsUnique(code, ml, p, q, Find(g, Offset(q.k)));
  }

  // ---------------------------------------------------------------- the labels of an lcmp

  /** A label of the lcmp at q occurs once. */
  lemma {:induction false} LcmpLabelIsUnique(code: seq<Byte>, ml: nat, p: Pass, q: Pass, j: nat)
    requires Walkable(code, p) && Visits(code, p, q) && q.k < |code| && Poppable(code, q) && Decode(code, q.k).Lcmp?
    requires var g := Gen(code, ml, p); j < |g| && g[j].Label? && !g[j].l.Offset? && g[j].l.c == q.cmps + 1
    ensures var i := Index(code, ml, p, q); var l := Gen(code, ml, p)[j].l;
      j == i + 1 + |Pop(ml, q.top)| + |Pop(ml, q.top - 1)| + match l case Eq(_) => 2 case Ne(_) => 5 case _ => 7
    decreases |code| - p.k
  {
    hide *;
    GenAt(code, ml, p, j);
    NextLater(code, p);
    IndexNext(code, ml, p, q);
    var e, n := Emit(code, ml, p), Next(code, p);
    if j - 1 < |e| {
      EmitLabels(code, ml, p, j - 1);
      if p != q {
        VisitsLater(code, n, q);
        assert false;
      }
      EmitLcmp(code, ml, p);
      LcmpLabels(ml, p, j - 1, e);
    } else {
      LabelsLater(code, ml, n, j - 1 - |e|);
      if p == q {
        assert false;
      }
      LcmpLabelIsUnique(code, ml, n, q, j - 1 - |e|);
    }
  }
}
