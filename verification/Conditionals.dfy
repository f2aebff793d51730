/** The code of x ? a : b leaves its value at another depth on each of its two ways. The generator goes
    through the code in linear order and knows one depth only: exactly when the value is right. */
module Conditionals {
  import opened Bytecode
  import opened X86
  import opened CodeGen
  import opened Window
  import opened Labels
  import opened Correctness

  predicate Constants(a: int, b: int) { -1 <= a <= 5 && -1 <= b <= 5 }

  /** iload_1, ifeq to 8, iconst a, goto 9; 8: iconst b; 9: istore_0, return. */
  function Choice(a: int, b: int): (code: seq<Byte>)
    requires Constants(a, b)
    ensures |code| == 11
  {
    [27, 153, 0, 7, a + 3, 167, 0, 4, b + 3, 59, 177]
  }

  function InsnAt(a: int, b: int, k: nat): Insn {
    if k == 0 then Load(1)
    else if k == 1 then IfZero(Cond.Eq, 8)
    else if k == 4 then Const(a)
    else if k == 5 then Goto(9)
    else if k == 8 then Const(b)
    else if k == 9 then Store(0)
    else Return
  }

  predicate IsStart(k: nat) { k in {0, 1, 4, 5, 8, 9, 10} }

  lemma Instructions(a: int, b: int, k: nat)
    requires Constants(a, b) && IsStart(k)
    ensures var code := Choice(a, b);
      && Complete(code, k) && Decode(code, k) == InsnAt(a, b, k)
      && Length(code[k]) == (if k in {1, 5} then 3 else 1)
      && (k in {1, 5} ==> TargetName(code, k) == Offset(if k == 1 then 8 else 9))
  {}

  // ---------------------------------------------------------------- the bytecode

  /** It stores a if local variable 1 is not zero, and b if it is. */
  lemma BytecodeChooses(a: int, b: int, locals: seq<int>)
    requires Constants(a, b) && |locals| > 1
    ensures var taken := locals[1] == 0;
      Run(Choice(a, b), Specified, State(0, [], locals), if taken then 5 else 6) ==
      Finished(locals[0 := if taken then b else a])
  {
    var code, x, s := Choice(a, b), locals[1], State(0, [], locals);
    Loads(a, b, locals);
    Tests(a, b, locals, x);
    StoreReturns(a, b, locals, if x == 0 then b else a);
    if x == 0 {
      Pushes(a, b, locals, 8);
      hide Step, Run, Choice;
      RunThree(code, s, State(1, [x], locals), State(8, [], locals), State(9, [b], locals), 2);
    } else {
      Pushes(a, b, locals, 4);
      Jumps(a, b, locals);
      hide Step, Run, Choice;
      RunThree(code, s, State(1, [x], locals), State(4, [], locals), State(5, [a], locals), 3);
      RunOne(code, State(5, [a], locals), State(9, [a], locals), 2);
    }
  }

  lemma Loads(a: int, b: int, locals: seq<int>)
    requires Constants(a, b) && |locals| > 1
    ensures Step(Choice(a, b), Specified, State(0, [], locals)) == Running(State(1, [locals[1]], locals))
  {
    Instructions(a, b, 0);
    hide Decode, Length, Choice;
  }

  lemma Tests(a: int, b: int, locals: seq<int>, x: int)
    requires Constants(a, b)
    ensures Step(Choice(a, b), Specified, State(1, [x], locals)) == Running(State(if x == 0 then 8 else 4, [], locals))
  {
    Instructions(a, b, 1);
    hide Decode, Length, Choice;
    assert [x][..0] == [];
  }

  lemma Pushes(a: int, b: int, locals: seq<int>, k: nat)
    requires Constants(a, b) && k in {4, 8}
    ensures Step(Choice(a, b), Specified, State(k, [], locals)) ==
            Running(State(k + 1, [if k == 4 then a else b], locals))
  {
    Instructions(a, b, k);
    hide Decode, Length, Choice;
  }

  lemma Jumps(a: int, b: int, locals: seq<int>)
    requires Constants(a, b)
    ensures Step(Choice(a, b), Specified, State(5, [a], locals)) == Running(State(9, [a], locals))
  {
    Instructions(a, b, 5);
    hide Decode, Length, Choice;
  }

  lemma RunOne(code: seq<Byte>, s: State, s1: State, n: nat)
    requires Step(code, Specified, s) == Running(s1)
    ensures Run(code, Specified, s, n + 1) == Run(code, Specified, s1, n)
  {}

  lemma RunThree(code: seq<Byte>, s: State, s1: State, s2: State, s3: State, n: nat)
    requires Step(code, Specified, s) == Running(s1) && Step(code, Specified, s1) == Running(s2)
    requires Step(code, Specified, s2) == Running(s3)
    ensures Run(code, Specified, s, n + 3) == Run(code, Specified, s3, n)
  {
    hide Step;
    assert Run(code, Specified, s1, n + 2) == Run(code, Specified, s2, n + 1);
  }

  lemma StoreReturns(a: int, b: int, locals: seq<int>, v: int)
    requires Constants(a, b) && |locals| > 1
    ensures Run(Choice(a, b), Specified, State(9, [v], locals), 2) == Finished(locals[0 := v])
  {
    var code := Choice(a, b);
    Instructions(a, b, 9);
    Instructions(a, b, 10);
    hide Decode, Length, Choice;
    assert [v][..0] == [];
    assert Step(code, Specified, State(9, [v], locals)) == Running(State(10, [], locals[0 := v]));
    assert Step(code, Specified, State(10, [], locals[0 := v])) == Finished(locals[0 := v]);
  }

  // ---------------------------------------------------------------- the generated code

  /** Where the pass stands in front of offset k: one too deep from offset 8 on. */
  function PassAt(cmps: nat, k: nat): Pass {
    Pass(k, if k in {0, 4} then 0 else if k == 9 then 2 else 1, cmps)
  }

  function After(k: nat): nat { if k in {1, 5} then k + 3 else k + 1 }

  lemma PassNext(a: int, b: int, ml: nat, cmps: nat, k: nat)
    requires Constants(a, b) && IsStart(k)
    ensures var code, p := Choice(a, b), PassAt(cmps, k);
      && Poppable(code, p) && Next(code, p) == PassAt(cmps, After(k))
      && Emit(code, ml, p) == Code(a, b, k)
  {
    Instructions(a, b, k);
    hide Decode, Length, TargetName, Choice;
  }

  function Code(a: int, b: int, k: nat): seq<Instr> {
    if k == 0 then [LoadSlot(LOCAL_VARS + 1, RegAt(0))]
    else if k == 1 then [CmpImm(0, RegAt(0)), Jcc(Cond.Eq, Offset(8))]
    else if k == 4 then [MovImm(a, RegAt(0))]
    else if k == 5 then [Jmp(Offset(9))]
    else if k == 8 then [MovImm(b, RegAt(1))]
    else if k == 9 then [StoreSlot(RegAt(1), LOCAL_VARS)]
    else [Ret]
  }

  /** The code from offset k on. */
  function CodeFrom(a: int, b: int, k: nat): seq<Instr>
    decreases 11 - k
  {
    if k >= 11 then [] else [Label(Offset(k))] + Code(a, b, k) + CodeFrom(a, b, After(k))
  }

  lemma {:induction false} GenIs(a: int, b: int, ml: nat, cmps: nat, k: nat)
    requires Constants(a, b) && (IsStart(k) || k == 11)
    ensures Walkable(Choice(a, b), PassAt(cmps, k))
    ensures Gen(Choice(a, b), ml, PassAt(cmps, k)) == CodeFrom(a, b, k)
    decreases 11 - k
  {
    if k < 11 {
      PassNext(a, b, ml, cmps, k);
      hide Poppable, Next, Emit, Choice, Code;
      GenIs(a, b, ml, cmps, After(k));
    }
  }

  predicate Listed(g: seq<Instr>, a: int, b: int) {
    && |g| == 15
    && g[0] == Label(Offset(0)) && g[1] == LoadSlot(LOCAL_VARS + 1, RegAt(0))
    && g[2] == Label(Offset(1)) && g[3] == CmpImm(0, RegAt(0)) && g[4] == Jcc(Cond.Eq, Offset(8))
    && g[5] == Label(Offset(4)) && g[6] == MovImm(a, RegAt(0))
    && g[7] == Label(Offset(5)) && g[8] == Jmp(Offset(9))
    && g[9] == Label(Offset(8)) && g[10] == MovImm(b, RegAt(1))
    && g[11] == Label(Offset(9)) && g[12] == StoreSlot(RegAt(1), LOCAL_VARS)
    && g[13] == Label(Offset(10)) && g[14] == Ret
  }

  lemma CodeIsListed(a: int, b: int)
    ensures Listed(CodeFrom(a, b, 0), a, b)
  {
    FromFive(a, b);
    hide RegAt;
    var rest := CodeFrom(a, b, 5);
    assert CodeFrom(a, b, 4) == [Label(Offset(4))] + [MovImm(a, RegAt(0))] + rest;
    assert CodeFrom(a, b, 1) == [Label(Offset(1))] + [CmpImm(0, RegAt(0)), Jcc(Cond.Eq, Offset(8))] + CodeFrom(a, b, 4);
    assert CodeFrom(a, b, 0) == [Label(Offset(0))] + [LoadSlot(LOCAL_VARS + 1, RegAt(0))] + CodeFrom(a, b, 1);
    hide CodeFrom;
    assert CodeFrom(a, b, 0)[7..] == rest;
  }

  lemma FromFive(a: int, b: int)
    ensures CodeFrom(a, b, 5) ==
            [Label(Offset(5)), Jmp(Offset(9)), Label(Offset(8)), MovImm(b, RegAt(1)), Label(Offset(9)),
             StoreSlot(RegAt(1), LOCAL_VARS), Label(Offset(10)), Ret]
  {
    hide RegAt;
    assert CodeFrom(a, b, 11) == [];
    assert CodeFrom(a, b, 10) == [Label(Offset(10))] + [Ret] + CodeFrom(a, b, 11);
    assert CodeFrom(a, b, 9) == [Label(Offset(9))] + [StoreSlot(RegAt(1), LOCAL_VARS)] + CodeFrom(a, b, 10);
    assert CodeFrom(a, b, 8) == [Label(Offset(8))] + [MovImm(b, RegAt(1))] + CodeFrom(a, b, 9);
    assert CodeFrom(a, b, 5) == [Label(Offset(5))] + [Jmp(Offset(9))] + CodeFrom(a, b, 8);
  }

  // ---------------------------------------------------------------- its run

  /** A label and an instruction behind it. */
  lemma TwoSteps(g: seq<Instr>, m: Machine, l: Name, i: Instr)
    requires m.pc + 1 < |g| && g[m.pc] == Label(l) && g[m.pc + 1] == i && !IsJump(i) && !Traps(m, i)
    ensures Reaches(g, m, 2, Exec(m, i).(pc := m.pc + 2))
  {
    assert g[m.pc..m.pc + 2] == [Label(l)] + [i];
    ExecOne(m, i);
    hide Exec, Traps, Reaches;
    RunLabelled(g, m, l, [i]);
  }

  lemma LabelStep(g: seq<Instr>, m: Machine, l: Name)
    requires m.pc < |g| && g[m.pc] == Label(l)
    ensures Reaches(g, m, 1, m.(pc := m.pc + 1))
  {
    assert HasAt(g, m.pc, [Label(l)]) by { assert g[m.pc..m.pc + 1] == [Label(l)]; }
    assert [Label(l)] + [] == [Label(l)];
    hide *;
    RunLabel(g, m, l);
  }

  lemma Targets(g: seq<Instr>, a: int, b: int)
    requires Listed(g, a, b)
    ensures Labelled(g, Offset(8)) && Find(g, Offset(8)) == 9
    ensures Labelled(g, Offset(9)) && Find(g, Offset(9)) == 11
  {
    assert g[9] == Label(Offset(8)) && g[11] == Label(Offset(9));
    var i, j := Find(g, Offset(8)), Find(g, Offset(9));
    assert g[i] == Label(Offset(8)) && g[j] == Label(Offset(9));
  }

  /** Up to and including the conditional jump. */
  lemma HeadRuns(g: seq<Instr>, a: int, b: int, m: Machine, x: int) returns (m': Machine)
    requires Listed(g, a, b) && m.pc == 0 && |m.win| == WINDOW && Slot(m, LOCAL_VARS + 1) == x
    ensures Reaches(g, m, 5, m') && m'.pc == if x == 0 then 9 else 5
    ensures m'.win == m.win[0 := x] && m'.frame == m.frame
  {
    Targets(g, a, b);
    hide Reaches, Labelled, Find;
    TwoSteps(g, m, Offset(0), g[1]);
    var m1 := m.(win := m.win[0 := x], pc := 2);
    TwoSteps(g, m1, Offset(1), g[3]);
    var m2 := m1.(flags := (x, 0), pc := 4);
    JumpTo(g, m2, 9);
    m' := m2.(pc := if x == 0 then 9 else 5);
    ReachesFurther(g, m, 2, m1, 2, m2);
    ReachesFurther(g, m, 4, m2, 1, m');
  }

  /** The way on which a is chosen: it goes to the first register. */
  lemma NotTakenRuns(g: seq<Instr>, a: int, b: int, m: Machine) returns (m': Machine)
    requires Listed(g, a, b) && m.pc == 5 && |m.win| == WINDOW
    ensures Reaches(g, m, 4, m') && m'.pc == 11 && m'.win == m.win[0 := a] && m'.frame == m.frame
  {
    Targets(g, a, b);
    hide Reaches, Labelled, Find;
    TwoSteps(g, m, Offset(4), g[6]);
    var m1 := m.(win := m.win[0 := a], pc := 7);
    LabelStep(g, m1, Offset(5));
    var m2 := m1.(pc := 8);
    JumpTo(g, m2, 11);
    m' := m2.(pc := 11);
    ReachesFurther(g, m, 2, m1, 1, m2);
    ReachesFurther(g, m, 3, m2, 1, m');
  }

  /** The other one: b goes to the second. */
  lemma TakenRuns(g: seq<Instr>, a: int, b: int, m: Machine) returns (m': Machine)
    requires Listed(g, a, b) && m.pc == 9 && |m.win| == WINDOW
    ensures Reaches(g, m, 2, m') && m'.pc == 11 && m'.win == m.win[1 := b] && m'.frame == m.frame
  {
    hide Reaches;
    TwoSteps(g, m, Offset(8), g[10]);
    m' := m.(win := m.win[1 := b], pc := 11);
  }

  /** The store takes the second register on both ways. */
  lemma StoreRuns(g: seq<Instr>, a: int, b: int, m: Machine) returns (m': Machine)
    requires Listed(g, a, b) && m.pc == 11 && |m.win| == WINDOW
    ensures Reaches(g, m, 3, m') && m'.pc == 14 && Slot(m', LOCAL_VARS) == m.win[1]
  {
    hide Reaches;
    TwoSteps(g, m, Offset(9), g[12]);
    var m1 := m.(frame := m.frame[LOCAL_VARS := m.win[1]], pc := 13);
    LabelStep(g, m1, Offset(10));
    m' := m1.(pc := 14);
    ReachesFurther(g, m, 2, m1, 1, m');
  }

  lemma ListedRuns(g: seq<Instr>, a: int, b: int, m: Machine, x: int) returns (n: nat, m': Machine)
    requires Listed(g, a, b) && m.pc == 0 && |m.win| == WINDOW && Slot(m, LOCAL_VARS + 1) == x
    ensures Reaches(g, m, n, m') && m'.pc < |g| && g[m'.pc] == Ret
    ensures Slot(m', LOCAL_VARS) == if x == 0 then b else m.win[1]
  {
    hide Reaches, Slot;
    var m1 := HeadRuns(g, a, b, m, x);
    var m2, k := m1, 2;
    if x == 0 {
      m2 := TakenRuns(g, a, b, m1);
    } else {
      m2 := NotTakenRuns(g, a, b, m1);
      k := 4;
    }
    m' := StoreRuns(g, a, b, m2);
    ReachesFurther(g, m, 5, m1, k, m2);
    ReachesFurther(g, m, 5 + k, m2, 3, m');
    n := 5 + k + 3;
  }

  /** x ? a : b, for the value x of local variable 1, is stored right if and only if x is zero, or a
      happens to be in the second register from before. */
  lemma ChoiceIsRightExactly(a: int, b: int, ml: nat, cmps: nat, locals: seq<int>, m: Machine)
    returns (n: nat, m': Machine)
    requires Constants(a, b) && |locals| > 1 && m.pc == 0 && Rep(ml, m, [], locals)
    ensures var x := locals[1]; var right := if x == 0 then b else a;
      && Run(Choice(a, b), Specified, State(0, [], locals), if x == 0 then 5 else 6) == Finished(locals[0 := right])
      && (Slot(m', LOCAL_VARS) == right <==> x == 0 || Get(m, RegAt(1)) == a)
    ensures Walkable(Choice(a, b), Pass(0, 0, cmps))
    ensures var g := Gen(Choice(a, b), ml, Pass(0, 0, cmps));
      Reaches(g, m, n, m') && m'.pc < |g| && g[m'.pc] == Ret
  {
    BytecodeChooses(a, b, locals);
    GenIs(a, b, ml, cmps, 0);
    CodeIsListed(a, b);
    hide Run, Gen, Walkable, Choice, Listed, Reaches, CodeFrom;
    n, m' := ListedRuns(CodeFrom(a, b, 0), a, b, m, locals[1]);
  }

  /** The condition it does not meet: the branch lands at another depth than the pass has there. */
  lemma ChoiceIsNotAcceptable(a: int, b: int, cmps: nat)
    requires Constants(a, b)
    ensures !Acceptable(Choice(a, b), Pass(0, 0, cmps))
  {
    var code, start := Choice(a, b), Pass(0, 0, cmps);
    if Acceptable(code, start) {
      PassesBranch(a, b, cmps);
      assert Checked(code, start, PassAt(cmps, 1));
      Instructions(a, b, 1);
      PassNext(a, b, 0, cmps, 1);
      hide Choice, Decode, Length, Visits, Acceptable, Walkable;
      var q :| Visits(code, start, q) && q.k == 8 && q.top == 0;
      MeetsEight(a, b, cmps, q);
    }
  }

  /** The pass comes to the branch. */
  lemma PassesBranch(a: int, b: int, cmps: nat)
    requires Constants(a, b)
    ensures Visits(Choice(a, b), Pass(0, 0, cmps), PassAt(cmps, 1))
  {
    PassNext(a, b, 0, cmps, 0);
    hide Choice, Poppable, Next;
    assert Visits(Choice(a, b), PassAt(cmps, 1), PassAt(cmps, 1));
  }

  /** It comes to offset 8 with a depth of one only. */
  lemma MeetsEight(a: int, b: int, cmps: nat, q: Pass)
    requires Constants(a, b) && Visits(Choice(a, b), Pass(0, 0, cmps), q) && q.k == 8
    ensures q == PassAt(cmps, 8)
  {
    hide Visits, Choice;
    VisitsAfter(a, b, cmps, 0, q);
    VisitsAfter(a, b, cmps, 1, q);
    VisitsAfter(a, b, cmps, 4, q);
    VisitsAfter(a, b, cmps, 5, q);
    VisitsLater(Choice(a, b), PassAt(cmps, 8), q);
  }

  lemma VisitsAfter(a: int, b: int, cmps: nat, k: nat, q: Pass)
    requires Constants(a, b) && IsStart(k) && Visits(Choice(a, b), PassAt(cmps, k), q) && q.k != k
    ensures Visits(Choice(a, b), PassAt(cmps, After(k)), q)
  {
    PassNext(a, b, 0, cmps, k);
    hide Choice, Poppable, Next, Emit;
  }

  lemma {:induction false} VisitsLater(code: seq<Byte>, p: Pass, q: Pass)
    requires Visits(code, p, q)
    ensures q == p || q.k > p.k
    decreases |code| - p.k
  {
    hide Decode, Length;
    if p != q {
      VisitsLater(code, Next(code, p), q);
    }
  }
}
