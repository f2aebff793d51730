/** Beyond depth five the generated code goes wrong: exactly when, for the methods that push constants
    and store the last one. */
module DeepStacks {
  import opened Bytecode
  import opened X86
  import opened CodeGen
  import opened Window
  import opened Labels
  import opened Simulation
  import opened Correctness

  /** iconst_m1 to iconst_5 for each value, then istore_0 and return. */
  function Pushing(vs: seq<int>): (code: seq<Byte>)
    requires forall i :: 0 <= i < |vs| ==> -1 <= vs[i] <= 5
    ensures |code| == |vs| + 2
  {
    seq(|vs|, i requires 0 <= i < |vs| => (vs[i] + 3) as Byte) + [59, 177]
  }

  predicate Pushable(vs: seq<int>) {
    vs != [] && forall i :: 0 <= i < |vs| ==> -1 <= vs[i] <= 5
  }

  /** The instructions of such a method. */
  lemma Instructions(vs: seq<int>, k: nat)
    requires Pushable(vs) && k < |vs| + 2
    ensures var code := Pushing(vs);
      && Length(code[k]) == 1 && Complete(code, k)
      && Decode(code, k) == if k < |vs| then Const(vs[k]) else if k == |vs| then Store(0) else Return
  {}

  /** Where the pass stands in front of offset k. */
  function PassAt(vs: seq<int>, cmps: nat, k: nat): Pass
    requires vs != []
  {
    Pass(k, if k <= |vs| then k else |vs| - 1, cmps)
  }

  lemma PassNext(vs: seq<int>, cmps: nat, k: nat)
    requires Pushable(vs) && k < |vs| + 2
    ensures Poppable(Pushing(vs), PassAt(vs, cmps, k))
    ensures Next(Pushing(vs), PassAt(vs, cmps, k)) == PassAt(vs, cmps, k + 1)
  {
    Instructions(vs, k);
    hide Decode, Length, Pushing;
  }

  lemma {:induction false} PassWalks(vs: seq<int>, cmps: nat, k: nat)
    requires Pushable(vs) && k <= |vs| + 2
    ensures Walkable(Pushing(vs), PassAt(vs, cmps, k))
    decreases |vs| + 2 - k
  {
    if k < |vs| + 2 {
      hide Poppable, Next, Pushing;
      PassNext(vs, cmps, k);
      PassWalks(vs, cmps, k + 1);
    }
  }

  // ---------------------------------------------------------------- the bytecode

  lemma {:induction false} RunPushes(vs: seq<int>, locals: seq<int>, k: nat)
    requires Pushable(vs) && |locals| > 0 && k <= |vs|
    ensures Run(Pushing(vs), Specified, State(k, vs[..k], locals), |vs| + 2 - k) ==
            Finished(locals[0 := vs[|vs| - 1]])
    decreases |vs| - k
  {
    var code, s := Pushing(vs), State(k, vs[..k], locals);
    Instructions(vs, k);
    if k < |vs| {
      hide Decode, Length, Pushing;
      assert vs[..k] + [vs[k]] == vs[..k + 1];
      assert Step(code, Specified, s) == Running(State(k + 1, vs[..k + 1], locals));
      RunPushes(vs, locals, k + 1);
    } else {
      Instructions(vs, k + 1);
      hide Decode, Length, Pushing;
      assert vs[..k] == vs;
      var t := State(k + 1, vs[..k - 1], locals[0 := vs[k - 1]]);
      assert Step(code, Specified, s) == Running(t);
      assert Step(code, Specified, t) == Finished(t.locals);
      assert Run(code, Specified, t, 1) == Finished(t.locals);
    }
  }

  // ---------------------------------------------------------------- the generated code

  /** One push, at any depth. */
  lemma PushStep(vs: seq<int>, ml: nat, cmps: nat, locals: seq<int>, k: nat, m: Machine)
    returns (n: nat, m': Machine)
    requires Pushable(vs) && k < |vs|
    requires Sim(Pushing(vs), ml, PassAt(vs, cmps, 0), PassAt(vs, cmps, k), State(k, vs[..k], locals), m)
    ensures Walkable(Pushing(vs), PassAt(vs, cmps, 0)) && Reaches(Gen(Pushing(vs), ml, PassAt(vs, cmps, 0)), m, n, m')
    ensures Sim(Pushing(vs), ml, PassAt(vs, cmps, 0), PassAt(vs, cmps, k + 1), State(k + 1, vs[..k + 1], locals), m')
  {
    var code, start, q := Pushing(vs), PassAt(vs, cmps, 0), PassAt(vs, cmps, k);
    PassWalks(vs, cmps, 0);
    PassNext(vs, cmps, k);
    Instructions(vs, k);
    BlockAt(code, ml, start, q);
    var i := MovImm(vs[k], RegAt(k));
    var e := [i] + Push(ml, k);
    assert Emit(code, ml, q) == e;
    hide Decode, Length, Pushing, Emit, Rep, Exec, ExecAll, Safe, Index, Gen, Walkable, Visits;
    ExecMov(m, vs[k], RegAt(k));
    PushKeeps(ml, m, vs[..k], locals, i, vs[k]);
    assert vs[..k] + [vs[k]] == vs[..k + 1];
    RunLabelled(Gen(code, ml, start), m, Offset(k), e);
    n, m' := 1 + |e|, ExecAll(m, e).(pc := m.pc + 1 + |e|);
    RepIgnoresRest(ml, ExecAll(m, e), m', vs[..k + 1], locals);
  }

  lemma {:induction false} PushAll(vs: seq<int>, ml: nat, cmps: nat, locals: seq<int>, k: nat, m: Machine)
    returns (n: nat, m': Machine)
    requires Pushable(vs) && k <= |vs|
    requires Sim(Pushing(vs), ml, PassAt(vs, cmps, 0), PassAt(vs, cmps, k), State(k, vs[..k], locals), m)
    ensures Walkable(Pushing(vs), PassAt(vs, cmps, 0)) && Reaches(Gen(Pushing(vs), ml, PassAt(vs, cmps, 0)), m, n, m')
    ensures Sim(Pushing(vs), ml, PassAt(vs, cmps, 0), PassAt(vs, cmps, |vs|), State(|vs|, vs, locals), m')
    decreases |vs| - k
  {
    hide Sim, Reaches, Gen, Walkable;
    PassWalks(vs, cmps, 0);
    if k == |vs| {
      assert vs[..k] == vs;
      n, m' := 0, m;
      NothingRun(Pushing(vs), Specified, State(0, [], []), Gen(Pushing(vs), ml, PassAt(vs, cmps, 0)), m);
    } else {
      var n1, m1 := PushStep(vs, ml, cmps, locals, k, m);
      var n2, m2 := PushAll(vs, ml, cmps, locals, k + 1, m1);
      ReachesFurther(Gen(Pushing(vs), ml, PassAt(vs, cmps, 0)), m, n1, m1, n2, m2);
      n, m' := n1 + n2, m2;
    }
  }

  /** What the generated istore_0 stores: the value on top up to depth five, and the one five positions
      further down beyond. */
  function StoredValue(vs: seq<int>): int
    requires vs != []
  {
    if |vs| <= WINDOW then vs[|vs| - 1] else vs[|vs| - 1 - WINDOW]
  }

  /** The code of the store. */
  lemma StoreBlock(ml: nat, m: Machine, vs: seq<int>, locals: seq<int>)
    requires vs != [] && Rep(ml, m, vs, locals)
    ensures var e := Pop(ml, |vs|) + [StoreSlot(RegAt(|vs| - 1), LOCAL_VARS)];
      && Straight(e) && Safe(m, e) && Slot(ExecAll(m, e), LOCAL_VARS) == StoredValue(vs)
  {
    var pop, store := Pop(ml, |vs|), StoreSlot(RegAt(|vs| - 1), LOCAL_VARS);
    ReadAfterPop(ml, m, vs, locals);
    ExecOne(ExecAll(m, pop), store);
    ExecAppend(m, pop, [store]);
  }

  /** The generated code of such a method comes to its return with that value in local variable 0. */
  lemma PushingRuns(vs: seq<int>, ml: nat, cmps: nat, locals: seq<int>, m: Machine)
    returns (n: nat, m': Machine)
    requires Pushable(vs) && |locals| > 0 && m.pc == 0 && Rep(ml, m, [], locals)
    ensures Walkable(Pushing(vs), Pass(0, 0, cmps))
    ensures var g := Gen(Pushing(vs), ml, Pass(0, 0, cmps));
      && Reaches(g, m, n, m') && m'.pc < |g| && g[m'.pc] == Ret && Slot(m', LOCAL_VARS) == StoredValue(vs)
  {
    hide Sim, Reaches, Gen, Walkable, Rep, Slot, StoredValue, PassAt, Pushing;
    var code, start := Pushing(vs), PassAt(vs, cmps, 0);
    StartsEmpty(vs, ml, cmps, locals, m);
    var n1, m1 := PushAll(vs, ml, cmps, locals, 0, m);
    var n2, m2 := TailRuns(vs, ml, cmps, locals, m1);
    ReachesFurther(Gen(code, ml, start), m, n1, m1, n2, m2);
    n, m' := n1 + n2, m2;
  }

  lemma StartsEmpty(vs: seq<int>, ml: nat, cmps: nat, locals: seq<int>, m: Machine)
    requires Pushable(vs) && m.pc == 0 && Rep(ml, m, [], locals)
    ensures PassAt(vs, cmps, 0) == Pass(0, 0, cmps)
    ensures Sim(Pushing(vs), ml, PassAt(vs, cmps, 0), PassAt(vs, cmps, 0), State(0, vs[..0], locals), m)
  {
    assert vs[..0] == [];
    SimStarts(Pushing(vs), ml, PassAt(vs, cmps, 0), State(0, [], locals), m);
  }

  /** The code behind the pushes. */
  lemma TailCode(vs: seq<int>, ml: nat, cmps: nat) returns (i: nat)
    requires Pushable(vs) && Visits(Pushing(vs), PassAt(vs, cmps, 0), PassAt(vs, cmps, |vs|))
    ensures Walkable(Pushing(vs), PassAt(vs, cmps, 0))
    ensures i == Index(Pushing(vs), ml, PassAt(vs, cmps, 0), PassAt(vs, cmps, |vs|))
    ensures var g, d := Gen(Pushing(vs), ml, PassAt(vs, cmps, 0)), |vs|;
      var e := Pop(ml, d) + [StoreSlot(RegAt(d - 1), LOCAL_VARS)];
      && HasAt(g, i, [Label(Offset(d))] + e)
      && HasAt(g, i + 1 + |e|, [Label(Offset(d + 1))] + [Ret])
  {
    var code, start, d := Pushing(vs), PassAt(vs, cmps, 0), |vs|;
    PassWalks(vs, cmps, 0);
    PassNext(vs, cmps, d);
    PassNext(vs, cmps, d + 1);
    Instructions(vs, d);
    Instructions(vs, d + 1);
    hide Decode, Length, Pushing, Index, Gen, Walkable, Visits, HasAt, Pop, Next;
    assert Emit(code, ml, PassAt(vs, cmps, d)) == Pop(ml, d) + [StoreSlot(RegAt(d - 1), LOCAL_VARS)];
    assert Emit(code, ml, PassAt(vs, cmps, d + 1)) == [Ret];
    hide Emit;
    BlockAt(code, ml, start, PassAt(vs, cmps, d));
    BlockAt(code, ml, start, PassAt(vs, cmps, d + 1));
    i := Index(code, ml, start, PassAt(vs, cmps, d));
  }

  /** The store and the return. */
  lemma TailRuns(vs: seq<int>, ml: nat, cmps: nat, locals: seq<int>, m: Machine)
    returns (n: nat, m': Machine)
    requires Pushable(vs) && |locals| > 0
    requires Sim(Pushing(vs), ml, PassAt(vs, cmps, 0), PassAt(vs, cmps, |vs|), State(|vs|, vs, locals), m)
    ensures Walkable(Pushing(vs), PassAt(vs, cmps, 0))
    ensures var g := Gen(Pushing(vs), ml, PassAt(vs, cmps, 0));
      && Reaches(g, m, n, m') && m'.pc < |g| && g[m'.pc] == Ret && Slot(m', LOCAL_VARS) == StoredValue(vs)
  {
    var i := TailCode(vs, ml, cmps);
    hide Rep, Index, Gen, Walkable, Visits, Reaches, HasAt, Pop, Pushing, StoredValue, PassAt, Slot;
    n, m' := StoreThenReturn(Gen(Pushing(vs), ml, PassAt(vs, cmps, 0)), ml, m, vs, locals);
  }

  lemma StoreThenReturn(g: seq<Instr>, ml: nat, m: Machine, vs: seq<int>, locals: seq<int>)
    returns (n: nat, m': Machine)
    requires vs != [] && Rep(ml, m, vs, locals)
    requires var d := |vs|; var e := Pop(ml, d) + [StoreSlot(RegAt(d - 1), LOCAL_VARS)];
      HasAt(g, m.pc, [Label(Offset(d))] + e) && HasAt(g, m.pc + 1 + |e|, [Label(Offset(d + 1))] + [Ret])
    ensures Reaches(g, m, n, m') && m'.pc < |g| && g[m'.pc] == Ret && Slot(m', LOCAL_VARS) == StoredValue(vs)
  {
    var d := |vs|;
    var e := Pop(ml, d) + [StoreSlot(RegAt(d - 1), LOCAL_VARS)];
    StoreBlock(ml, m, vs, locals);
    hide Rep, Exec, ExecAll, Safe, Reaches, HasAt, Pop, StoredValue, Straight;
    RunLabelled(g, m, Offset(d), e);
    var m2 := ExecAll(m, e).(pc := m.pc + 1 + |e|);
    ReturnRuns(g, m2, d + 1);
    m' := m2.(pc := m2.pc + 1);
    ReachesFurther(g, m, 1 + |e|, m2, 1, m');
    n := 2 + |e|;
  }

  lemma ReturnRuns(g: seq<Instr>, m: Machine, k: int)
    requires HasAt(g, m.pc, [Label(Offset(k))] + [Ret])
    ensures var m' := m.(pc := m.pc + 1); Reaches(g, m, 1, m') && m'.pc < |g| && g[m'.pc] == Ret
  {
    HasParts(g, m.pc, [Label(Offset(k))], [Ret]);
    HasOne(g, m.pc + 1, Ret);
    assert [Label(Offset(k))] + [] == [Label(Offset(k))];
    RunLabelled(g, m, Offset(k), []);
  }

  /** A method that pushes constants and stores the last one returns the right local variable if and
      only if it pushes at most five, or the last is equal to the one five positions before it. */
  lemma PushingIsRightExactly(vs: seq<int>, ml: nat, cmps: nat, locals: seq<int>, m: Machine)
    returns (n: nat, m': Machine)
    requires Pushable(vs) && |locals| > 0 && m.pc == 0 && Rep(ml, m, [], locals)
    ensures Run(Pushing(vs), Specified, State(0, [], locals), |vs| + 2) == Finished(locals[0 := vs[|vs| - 1]])
    ensures Walkable(Pushing(vs), Pass(0, 0, cmps))
    ensures var g := Gen(Pushing(vs), ml, Pass(0, 0, cmps));
      Reaches(g, m, n, m') && m'.pc < |g| && g[m'.pc] == Ret
    ensures Slot(m', LOCAL_VARS) == vs[|vs| - 1] <==>
            |vs| <= WINDOW || vs[|vs| - 1] == vs[|vs| - 1 - WINDOW]
  {
    hide Rep, Gen, Walkable, Reaches, Pushing, Run, Slot;
    RunPushes(vs, locals, 0);
    assert vs[..0] == [];
    PassWalks(vs, cmps, 0);
    n, m' := PushingRuns(vs, ml, cmps, locals, m);
  }

  /** iconst_1, five times iconst_0, istore_0 and return: 0 is stored in the bytecode and 1 in the
      generated code. */
  lemma SixDeepGoesWrong(ml: nat, cmps: nat, locals: seq<int>, m: Machine)
    returns (n: nat, m': Machine)
    requires |locals| > 0 && m.pc == 0 && Rep(ml, m, [], locals)
    ensures var vs := [1, 0, 0, 0, 0, 0]; var code := Pushing(vs);
      && Run(code, Specified, State(0, [], locals), 8) == Finished(locals[0 := 0])
      && Walkable(code, Pass(0, 0, cmps))
      && Reaches(Gen(code, ml, Pass(0, 0, cmps)), m, n, m') && m'.pc < |Gen(code, ml, Pass(0, 0, cmps))|
      && Gen(code, ml, Pass(0, 0, cmps))[m'.pc] == Ret && Slot(m', LOCAL_VARS) == 1
  {
    var vs := [1, 0, 0, 0, 0, 0];
    hide Rep, Gen, Walkable, Reaches, Pushing, Run, Slot;
    RunPushes(vs, locals, 0);
    assert vs[..0] == [];
    PassWalks(vs, cmps, 0);
    n, m' := PushingRuns(vs, ml, cmps, locals, m);
  }
}
