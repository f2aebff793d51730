/** Every run of the bytecode is simulated, step by step, by the generated code. */
module Correctness {
  import opened Bytecode
  import opened X86
  import opened CodeGen
  import opened Window
  import opened Labels
  import opened Simulation

  // ---------------------------------------------------------------- the simulation relation

  /** Machine m stands in front of the code for the instruction at q and represents state s. */
  ghost predicate Sim(code: seq<Byte>, ml: nat, start: Pass, q: Pass, s: State, m: Machine) {
    && Visits(code, start, q) && q.k == s.pc && q.top == |s.stack|
    && m.pc == Index(code, ml, start, q) && Rep(ml, m, s.stack, s.locals)
  }

  predicate IsBranch(i: Insn) { i.IfZero? || i.IfCmp? || i.Goto? }

  /** Offset t is an instruction that the linear pass meets with this depth. */
  ghost predicate Lands(code: seq<Byte>, start: Pass, t: int, depth: nat) {
    exists q :: Visits(code, start, q) && q.k == t && q.k < |code| && q.top == depth
  }

  /** The instruction at q stays within the window, and the depth at its branch target is the one the
      linear pass has there. */
  ghost predicate Checked(code: seq<Byte>, start: Pass, q: Pass) {
    && Shallow(code, q)
    && (IsBranch(Decode(code, q.k)) ==> Lands(code, start, Decode(code, q.k).target, Next(code, q).top))
  }

  /** What the code must satisfy: it is walkable, its length is legal, and every instruction checks. */
  ghost predicate Acceptable(code: seq<Byte>, start: Pass) {
    && |code| < TWO_TO_THE_16 && Walkable(code, start)
    && forall q :: Visits(code, start, q) && q.k < |code| ==> Checked(code, start, q)
  }

  /** Only the window and the frame represent. */
  lemma RepIgnoresRest(ml: nat, m: Machine, m': Machine, stack: seq<int>, locals: seq<int>)
    requires Rep(ml, m, stack, locals) && m'.win == m.win && m'.frame == m.frame
    ensures Rep(ml, m', stack, locals)
  {
    forall q ensures InReg(m', stack, q) { assert InReg(m, stack, q); }
    forall q ensures InSlot(ml, m', stack, q) { assert InSlot(ml, m, stack, q); }
  }

  // ---------------------------------------------------------------- one instruction

  /** A label and straight-line code run to the end of the code. */
  lemma RunLabelled(g: seq<Instr>, m: Machine, l: Name, e: seq<Instr>)
    requires HasAt(g, m.pc, [Label(l)] + e) && Straight(e) && Safe(m, e)
    ensures Reaches(g, m, 1 + |e|, ExecAll(m, e).(pc := m.pc + 1 + |e|))
  {
    var b := [Label(l)] + e;
    assert b[1..] == e && Exec(m, b[0]) == m;
    ExecCons(m, b);
    assert Straight(b);
    RunBlock(g, m, b);
  }

  lemma SimStraight(code: seq<Byte>, ml: nat, start: Pass, q: Pass, s: State, m: Machine)
    returns (n: nat, m': Machine)
    requires Walkable(code, start) && Sim(code, ml, start, q, s, m) && q.k < |code|
    requires Shallow(code, q) && IsStraight(Decode(code, q.k))
    requires Step(code, Generated, s).Running? && DivFits(code, s)
    ensures n > 0 && Reaches(Gen(code, ml, start), m, n, m')
    ensures Poppable(code, q) && Sim(code, ml, start, Next(code, q), Step(code, Generated, s).s, m')
  {
    hide Emit, Step, Rep, Exec, ExecAll, Safe;
    BlockAt(code, ml, start, q);
    EmitStraight(code, ml, q, s, m, Generated);
    var e := Emit(code, ml, q);
    RunLabelled(Gen(code, ml, start), m, Offset(q.k), e);
    n := 1 + |e|;
    var t := Step(code, Generated, s).s;
    m' := ExecAll(m, e).(pc := m.pc + 1 + |e|);
    RepIgnoresRest(ml, ExecAll(m, e), m', t.stack, t.locals);
  }

  lemma HasOne(g: seq<Instr>, i: nat, x: Instr)
    requires HasAt(g, i, [x])
    ensures i < |g| && g[i] == x
  {
    assert g[i] == g[i..i + 1][0];
  }

  lemma HasParts(g: seq<Instr>, i: nat, a: seq<Instr>, b: seq<Instr>)
    requires HasAt(g, i, a + b)
    ensures HasAt(g, i, a) && HasAt(g, i + |a|, b)
  {
    assert g[i..i + |a|] == g[i..i + |a + b|][..|a|] == a;
    assert g[i + |a|..i + |a| + |b|] == g[i..i + |a + b|][|a|..] == b;
  }

  // ---------------------------------------------------------------- branches

  lemma WrappedSum16(u: int, k: int)
    requires 0 <= u < TWO_TO_THE_16 && 0 <= k + Signed(u, 0x8000) < TWO_TO_THE_16 && 0 <= k < TWO_TO_THE_16
    ensures (u + k) % TWO_TO_THE_16 == k + Signed(u, 0x8000)
  {
    if u + k >= TWO_TO_THE_16 {
      assert u + k == TWO_TO_THE_16 + (u + k - TWO_TO_THE_16);
    }
  }

  lemma WrappedSum32(u: int, k: int)
    requires 0 <= u < TWO_TO_THE_32 && 0 <= k + Signed(u, 0x8000_0000) < TWO_TO_THE_16 && 0 <= k < TWO_TO_THE_16
    ensures (u + k) % TWO_TO_THE_32 == k + Signed(u, 0x8000_0000)
  {
    if u + k >= TWO_TO_THE_32 {
      assert u + k == TWO_TO_THE_32 + (u + k - TWO_TO_THE_32);
    }
  }

  /** The wrapped sum in a jump is the offset of its target, for every target inside the code. */
  lemma BranchNameIsTarget(code: seq<Byte>, k: nat)
    requires Complete(code, k) && IsBranch(Decode(code, k)) && 0 <= Decode(code, k).target < |code| < TWO_TO_THE_16
    ensures code[k] != 200 ==> k + 3 <= |code| && BranchName(code, k) == Offset(Decode(code, k).target)
    ensures code[k] == 200 ==> k + 5 <= |code| && WideBranchName(code, k) == Offset(Decode(code, k).target)
  {
    hide Signed;
    if code[k] != 200 {
      WrappedSum16(U2(code, k + 1), k);
    } else {
      WrappedSum32(U4(code, k + 1), k);
    }
  }

  /** The comparison in front of a branch. */
  function Compare(i: Insn, top: nat): seq<Instr>
    requires IsBranch(i) && top >= Pops(i)
  {
    match i
    case IfZero(_, _) => [CmpImm(0, RegAt(top - 1))]
    case IfCmp(_, _) => [CmpReg(RegAt(top - 1), RegAt(top - 2))]
    case _ => []
  }

  function Jump(i: Insn): Instr
    requires IsBranch(i)
  {
    match i
    case IfZero(c, t) => Jcc(c, Offset(t))
    case IfCmp(c, t) => Jcc(c, Offset(t))
    case Goto(t) => Jmp(Offset(t))
  }

  lemma BranchCode(code: seq<Byte>, ml: nat, q: Pass)
    requires Shallow(code, q) && IsBranch(Decode(code, q.k))
    requires 0 <= Decode(code, q.k).target < |code| < TWO_TO_THE_16
    ensures var i := Decode(code, q.k); Emit(code, ml, q) == Compare(i, q.top) + [Jump(i)]
  {
    var i := Decode(code, q.k);
    BranchNameIsTarget(code, q.k);
    if q.top >= 1 { ShallowPop(ml, q.top); }
    if q.top >= 2 { ShallowPop(ml, q.top - 1); }
    match i
    case IfZero(c, t) => assert Emit(code, ml, q) == [] + (Compare(i, q.top) + [Jump(i)]);
    case IfCmp(c, t) => assert Emit(code, ml, q) == [] + [] + (Compare(i, q.top) + [Jump(i)]);
    case Goto(t) => assert [] + [Jump(i)] == [Jump(i)];
  }

  /** The comparison sets the flags to the operands and leaves the rest of the stack represented. */
  lemma RunCompare(ml: nat, m: Machine, s: State, i: Insn)
    requires IsBranch(i) && Pops(i) <= |s.stack| <= WINDOW && Rep(ml, m, s.stack, s.locals)
    ensures var c := Compare(i, |s.stack|); var d := |s.stack|;
      && Straight(c) && Safe(m, c)
      && Rep(ml, ExecAll(m, c), s.stack[..d - Pops(i)], s.locals)
      && (i.IfZero? ==> ExecAll(m, c).flags == (s.stack[d - 1], 0))
      && (i.IfCmp? ==> ExecAll(m, c).flags == (s.stack[d - 2], s.stack[d - 1]))
  {
    var d := |s.stack|;
    match i
    case IfZero(_, _) =>
      Operand(ml, m, s.stack, s.locals, d - 1);
      Shorter(ml, m, s.stack, s.locals);
      ExecOne(m, CmpImm(0, RegAt(d - 1)));
      RepIgnoresRest(ml, m, m.(flags := (s.stack[d - 1], 0)), s.stack[..d - 1], s.locals);
    case IfCmp(_, _) =>
      Operand(ml, m, s.stack, s.locals, d - 1);
      Operand(ml, m, s.stack, s.locals, d - 2);
      Shorter(ml, m, s.stack, s.locals);
      Shorter(ml, m, s.stack[..d - 1], s.locals);
      assert s.stack[..d - 1][..d - 2] == s.stack[..d - 2];
      ExecOne(m, CmpReg(RegAt(d - 1), RegAt(d - 2)));
      RepIgnoresRest(ml, m, m.(flags := (s.stack[d - 2], s.stack[d - 1])), s.stack[..d - 2], s.locals);
    case Goto(_) =>
      assert s.stack[..d] == s.stack;
  }

  predicate Taken(i: Insn, s: State)
    requires IsBranch(i) && Pops(i) <= |s.stack|
  {
    match i
    case IfZero(c, _) => Holds(c, s.stack[|s.stack| - 1], 0)
    case IfCmp(c, _) => Holds(c, s.stack[|s.stack| - 2], s.stack[|s.stack| - 1])
    case _ => true
  }

  lemma StepBranch(code: seq<Byte>, r: LcmpRule, s: State)
    requires Step(code, r, s).Running? && IsBranch(Decode(code, s.pc))
    ensures var i := Decode(code, s.pc);
      && Pops(i) <= |s.stack|
      && Step(code, r, s).s == State(if Taken(i, s) then i.target else s.pc + Length(code[s.pc]),
                                     s.stack[..|s.stack| - Pops(i)], s.locals)
  {
    assert s.stack[..|s.stack|] == s.stack;
  }

  /** The code of a branch up to its jump. */
  lemma RunToJump(code: seq<Byte>, ml: nat, start: Pass, q: Pass, s: State, m: Machine) returns (m1: Machine)
    requires Walkable(code, start) && Sim(code, ml, start, q, s, m) && q.k < |code| < TWO_TO_THE_16
    requires Shallow(code, q) && IsBranch(Decode(code, q.k)) && 0 <= Decode(code, q.k).target < |code|
    ensures var i, g, d := Decode(code, q.k), Gen(code, ml, start), |s.stack|;
      && Pops(i) <= d && Visits(code, start, Next(code, q))
      && Reaches(g, m, 1 + |Compare(i, d)|, m1)
      && m1.pc < |g| && g[m1.pc] == Jump(i) && m1.pc + 1 == Index(code, ml, start, Next(code, q))
      && Rep(ml, m1, s.stack[..d - Pops(i)], s.locals)
      && (i.IfZero? ==> m1.flags == (s.stack[d - 1], 0))
      && (i.IfCmp? ==> m1.flags == (s.stack[d - 2], s.stack[d - 1]))
  {
    hide Emit, Rep, Exec, ExecAll, Safe, Compare, Index, Gen, Straight, Step, Decode, Walkable, Jump, HasAt, Reaches;
    var i, g, d := Decode(code, q.k), Gen(code, ml, start), |s.stack|;
    BlockAt(code, ml, start, q);
    BranchCode(code, ml, q);
    RunCompare(ml, m, s, i);
    var c := Compare(i, q.top);
    RunToLast(g, m, Offset(q.k), c, Jump(i));
    m1 := ExecAll(m, c).(pc := m.pc + 1 + |c|);
    RepIgnoresRest(ml, ExecAll(m, c), m1, s.stack[..d - Pops(i)], s.locals);
  }

  /** A label and straight-line code run to the jump behind them. */
  lemma RunToLast(g: seq<Instr>, m: Machine, l: Name, c: seq<Instr>, jump: Instr)
    requires HasAt(g, m.pc, [Label(l)] + (c + [jump])) && Straight(c) && Safe(m, c)
    ensures var pc := m.pc + 1 + |c|;
      Reaches(g, m, 1 + |c|, ExecAll(m, c).(pc := pc)) && pc < |g| && g[pc] == jump
  {
    hide *;
    assert [Label(l)] + (c + [jump]) == ([Label(l)] + c) + [jump];
    HasParts(g, m.pc, [Label(l)] + c, [jump]);
    RunLabelled(g, m, l, c);
    HasOne(g, m.pc + 1 + |c|, jump);
  }

  /** Where the branch at q lands. */
  lemma Landing(code: seq<Byte>, ml: nat, start: Pass, q: Pass) returns (land: Pass)
    requires Acceptable(code, start) && Visits(code, start, q) && q.k < |code|
    requires Complete(code, q.k) && IsBranch(Decode(code, q.k))
    ensures Shallow(code, q) && 0 <= Decode(code, q.k).target < |code|
    ensures var t, g := Decode(code, q.k).target, Gen(code, ml, start);
      && Visits(code, start, land) && land.k == t && land.top == Next(code, q).top
      && Labelled(g, Offset(t)) && Find(g, Offset(t)) == Index(code, ml, start, land)
  {
    assert Checked(code, start, q);
    hide Emit, Gen;
    land :| Visits(code, start, land) && land.k == Decode(code, q.k).target && land.k < |code|
            && land.top == Next(code, q).top;
    FindOffset(code, ml, start, land);
  }

  lemma SimBranch(code: seq<Byte>, ml: nat, start: Pass, q: Pass, s: State, m: Machine)
    returns (n: nat, q': Pass, m': Machine)
    requires Acceptable(code, start) && Sim(code, ml, start, q, s, m) && q.k < |code|
    requires Complete(code, q.k) && IsBranch(Decode(code, q.k)) && Step(code, Generated, s).Running?
    ensures n > 0 && Reaches(Gen(code, ml, start), m, n, m')
    ensures Sim(code, ml, start, q', Step(code, Generated, s).s, m')
  {
    hide Emit, Step, Rep, Compare, Gen, Walkable, Decode, Index, Find, Labelled, Reaches, Checked;
    var i, g, d := Decode(code, q.k), Gen(code, ml, start), |s.stack|;
    StepBranch(code, Generated, s);
    var land := Landing(code, ml, start, q);
    var m1 := RunToJump(code, ml, start, q, s, m);
    var dest := Index(code, ml, start, land);
    JumpStep(g, m1, i, s, dest);
    q' := if Taken(i, s) then land else Next(code, q);
    m' := m1.(pc := if Taken(i, s) then dest else m1.pc + 1);
    RepIgnoresRest(ml, m1, m', s.stack[..d - Pops(i)], s.locals);
    n := 1 + |Compare(i, d)| + 1;
    ReachesFurther(g, m, 1 + |Compare(i, d)|, m1, 1, m');
  }

  lemma JumpIsInert(m: Machine, i: Instr)
    requires i.Jmp? || i.Jcc?
    ensures !Traps(m, i) && Exec(m, i) == m
  {}

  /** A jump goes to its label if it is taken and to the next instruction otherwise. */
  lemma JumpTo(g: seq<Instr>, m: Machine, dest: nat)
    requires m.pc < |g| && (g[m.pc].Jmp? || g[m.pc].Jcc?)
    requires Labelled(g, g[m.pc].l) && Find(g, g[m.pc].l) == dest
    ensures var i := g[m.pc];
      Reaches(g, m, 1, m.(pc := if i.Jmp? || Holds(i.c, m.flags.0, m.flags.1) then dest else m.pc + 1))
  {
    hide Holds, Exec, Traps, Find, Labelled;
    var i := g[m.pc];
    JumpIsInert(m, i);
    var m' := m.(pc := if i.Jmp? || Holds(i.c, m.flags.0, m.flags.1) then dest else m.pc + 1);
    assert CanStep(g, m) && Step1(g, m) == m';
    assert Reaches(g, m', 0, m');
  }

  /** The jump goes to the target's code exactly if the branch is taken. */
  lemma JumpStep(g: seq<Instr>, m: Machine, i: Insn, s: State, dest: nat)
    requires IsBranch(i) && Pops(i) <= |s.stack| && m.pc < |g| && g[m.pc] == Jump(i)
    requires i.target >= 0 && Labelled(g, Offset(i.target)) && Find(g, Offset(i.target)) == dest
    requires i.IfZero? ==> m.flags == (s.stack[|s.stack| - 1], 0)
    requires i.IfCmp? ==> m.flags == (s.stack[|s.stack| - 2], s.stack[|s.stack| - 1])
    ensures Reaches(g, m, 1, m.(pc := if Taken(i, s) then dest else m.pc + 1))
  {
    hide Labelled, Find, Holds, Reaches;
    JumpTo(g, m, dest);
  }

  // ---------------------------------------------------------------- lcmp

  lemma ShallowLcmp(code: seq<Byte>, ml: nat, q: Pass)
    requires Shallow(code, q) && Decode(code, q.k).Lcmp?
    ensures Poppable(code, q) && q.top >= 2
    ensures Pop(ml, q.top) == [] && Pop(ml, q.top - 1) == []
    ensures Emit(code, ml, q) == LcmpBlock(q) && |LcmpBlock(q)| == 8
  {
    EmitLcmp(code, ml, q);
    ShallowPop(ml, q.top);
    ShallowPop(ml, q.top - 1);
    ShallowPush(ml, q.top - 2);
    assert [] + [] + LcmpBlock(q) + [] == LcmpBlock(q);
  }

  lemma HasElement(g: seq<Instr>, i: nat, b: seq<Instr>, j: nat)
    requires HasAt(g, i, b) && j < |b|
    ensures i + j < |g| && g[i + j] == b[j]
  {
    assert g[i..i + |b|][j] == g[i + j];
  }

  lemma LcmpLabelAt(g: seq<Instr>, i: nat, q: Pass, l: Name, j: nat)
    requires q.top >= 2 && HasAt(g, i, [Label(Offset(q.k))] + LcmpBlock(q))
    requires (j == 5 && l == Name.Ne(q.cmps + 1)) || (j == 7 && l == End(q.cmps + 1))
    ensures i + 1 + j < |g| && g[i + 1 + j] == Label(l) && Labelled(g, l)
  {
    var b := [Label(Offset(q.k))] + LcmpBlock(q);
    assert b[1 + j] == LcmpBlock(q)[j] == Label(l);
    hide HasAt, LcmpBlock;
    HasElement(g, i, b, 1 + j);
  }

  /** A label of the lcmp at q is where its block has it. */
  lemma LcmpFind(code: seq<Byte>, ml: nat, start: Pass, q: Pass, l: Name, j: nat)
    requires Walkable(code, start) && Visits(code, start, q) && q.k < |code|
    requires Shallow(code, q) && Decode(code, q.k).Lcmp?
    requires HasAt(Gen(code, ml, start), Index(code, ml, start, q), [Label(Offset(q.k))] + LcmpBlock(q))
    requires (j == 5 && l == Name.Ne(q.cmps + 1)) || (j == 7 && l == End(q.cmps + 1))
    ensures var g := Gen(code, ml, start);
      Labelled(g, l) && Find(g, l) == Index(code, ml, start, q) + 1 + j
  {
    hide *;
    ShallowLcmp(code, ml, q);
    var g, i := Gen(code, ml, start), Index(code, ml, start, q);
    LcmpLabelAt(g, i, q, l, j);
    LcmpLabelIsUnique(code, ml, start, q, Find(g, l));
  }

  /** Where the parts of an lcmp lie, and that its jumps go to its own labels. */
  lemma LcmpLayout(code: seq<Byte>, ml: nat, start: Pass, q: Pass)
    requires Walkable(code, start) && Visits(code, start, q) && q.k < |code|
    requires Shallow(code, q) && Decode(code, q.k).Lcmp?
    ensures var g, i, c := Gen(code, ml, start), Index(code, ml, start, q), q.cmps + 1;
      && HasAt(g, i, [Label(Offset(q.k))] + LcmpBlock(q))
      && Visits(code, start, Next(code, q)) && Index(code, ml, start, Next(code, q)) == i + 9
      && Labelled(g, Name.Ne(c)) && Find(g, Name.Ne(c)) == i + 6
      && Labelled(g, End(c)) && Find(g, End(c)) == i + 8
  {
    hide *;
    BlockAt(code, ml, start, q);
    ShallowLcmp(code, ml, q);
    LcmpFind(code, ml, start, q, Name.Ne(q.cmps + 1), 5);
    LcmpFind(code, ml, start, q, End(q.cmps + 1), 7);
  }

  lemma HasSlice(g: seq<Instr>, i: nat, b: seq<Instr>, lo: nat, hi: nat)
    requires HasAt(g, i, b) && lo <= hi <= |b|
    ensures HasAt(g, i + lo, b[lo..hi])
  {
    assert b == b[..lo] + (b[lo..hi] + b[hi..]);
    HasParts(g, i, b[..lo], b[lo..hi] + b[hi..]);
    HasParts(g, i + lo, b[lo..hi], b[hi..]);
  }

  /** The four labelled parts of the code of lcmp. */
  lemma LcmpParts(g: seq<Instr>, i: nat, q: Pass)
    requires q.top >= 2 && HasAt(g, i, [Label(Offset(q.k))] + LcmpBlock(q))
    ensures var arg1, arg2, c := RegAt(q.top - 1), RegAt(q.top - 2), q.cmps + 1;
      && HasAt(g, i, [Label(Offset(q.k))] + ([CmpReg(arg1, arg2)] + [Jcc(Cond.Ne, Name.Ne(c))]))
      && HasAt(g, i + 3, [Label(Name.Eq(c))] + ([MovImm(0, arg2)] + [Jmp(End(c))]))
      && HasAt(g, i + 6, [Label(Name.Ne(c))] + [MovImm(1, arg2)])
      && HasAt(g, i + 8, [Label(End(c))] + [])
  {
    var arg1, arg2, c := RegAt(q.top - 1), RegAt(q.top - 2), q.cmps + 1;
    var b := [Label(Offset(q.k))] + LcmpBlock(q);
    hide HasAt, RegAt;
    HasSlice(g, i, b, 0, 3);
    assert b[0..3] == [Label(Offset(q.k))] + ([CmpReg(arg1, arg2)] + [Jcc(Cond.Ne, Name.Ne(c))]);
    HasSlice(g, i, b, 3, 6);
    assert b[3..6] == [Label(Name.Eq(c))] + ([MovImm(0, arg2)] + [Jmp(End(c))]);
    HasSlice(g, i, b, 6, 8);
    assert b[6..8] == [Label(Name.Ne(c))] + [MovImm(1, arg2)];
    HasSlice(g, i, b, 8, 9);
    assert b[8..9] == [Label(End(c))] + [];
  }

  /** The code of lcmp up to and including its conditional jump. */
  lemma LcmpHead(g: seq<Instr>, m: Machine, q: Pass)
    requires q.top >= 2 && HasAt(g, m.pc, [Label(Offset(q.k))] + LcmpBlock(q))
    requires Labelled(g, Name.Ne(q.cmps + 1)) && Find(g, Name.Ne(q.cmps + 1)) == m.pc + 6
    ensures var x, y := Get(m, RegAt(q.top - 2)), Get(m, RegAt(q.top - 1));
      Reaches(g, m, 3, m.(flags := (x, y), pc := if x == y then m.pc + 3 else m.pc + 6))
  {
    var m1 := LcmpCompares(g, m, q);
    JumpTo(g, m1, m.pc + 6);
    hide Reaches;
    ReachesFurther(g, m, 2, m1, 1, m1.(pc := if m1.flags.0 == m1.flags.1 then m.pc + 3 else m.pc + 6));
  }

  lemma LcmpCompares(g: seq<Instr>, m: Machine, q: Pass) returns (m1: Machine)
    requires q.top >= 2 && HasAt(g, m.pc, [Label(Offset(q.k))] + LcmpBlock(q))
    ensures m1 == m.(flags := (Get(m, RegAt(q.top - 2)), Get(m, RegAt(q.top - 1))), pc := m.pc + 2)
    ensures Reaches(g, m, 2, m1) && m1.pc < |g| && g[m1.pc] == Jcc(Cond.Ne, Name.Ne(q.cmps + 1))
  {
    hide *;
    var arg1, arg2 := RegAt(q.top - 1), RegAt(q.top - 2);
    LcmpParts(g, m.pc, q);
    CompareSets(m, arg1, arg2);
    RunToLast(g, m, Offset(q.k), [CmpReg(arg1, arg2)], Jcc(Cond.Ne, Name.Ne(q.cmps + 1)));
    m1 := m.(flags := (Get(m, arg2), Get(m, arg1)), pc := m.pc + 2);
  }

  lemma CompareSets(m: Machine, src: Reg, dst: Reg)
    ensures var b := [CmpReg(src, dst)];
      Straight(b) && Safe(m, b) && ExecAll(m, b) == m.(flags := (Get(m, dst), Get(m, src)))
  {
    ExecOne(m, CmpReg(src, dst));
  }

  lemma MoveSets(m: Machine, v: int, dst: Reg)
    ensures var b := [MovImm(v, dst)]; Straight(b) && Safe(m, b) && ExecAll(m, b) == Set(m, dst, v)
  {
    ExecOne(m, MovImm(v, dst));
  }

  /** The code of lcmp ends behind itself with 0 in the result register for equal operands and 1
      otherwise, and changes nothing else but the flags. */
  lemma RunLcmp(g: seq<Instr>, m: Machine, q: Pass) returns (n: nat)
    requires q.top >= 2 && HasAt(g, m.pc, [Label(Offset(q.k))] + LcmpBlock(q))
    requires var c := q.cmps + 1;
      && Labelled(g, Name.Ne(c)) && Find(g, Name.Ne(c)) == m.pc + 6
      && Labelled(g, End(c)) && Find(g, End(c)) == m.pc + 8
    ensures var arg1, arg2 := RegAt(q.top - 1), RegAt(q.top - 2);
      var x, y := Get(m, arg2), Get(m, arg1);
      n > 0 && Reaches(g, m, n, Set(m.(flags := (x, y)), arg2, if x == y then 0 else 1).(pc := m.pc + 9))
  {
    hide HasAt, Labelled, Find, Reaches, LcmpBlock;
    var arg1, arg2 := RegAt(q.top - 1), RegAt(q.top - 2);
    var x, y := Get(m, arg2), Get(m, arg1);
    LcmpHead(g, m, q);
    var m1 := m.(flags := (x, y), pc := if x == y then m.pc + 3 else m.pc + 6);
    var k := LcmpTail(g, m1, q, m.pc, x == y);
    n := 3 + k;
    var m2 := Set(m1, arg2, if x == y then 0 else 1).(pc := m.pc + 9);
    ReachesFurther(g, m, 3, m1, k, m2);
    assert m2 == Set(m.(flags := (x, y)), arg2, if x == y then 0 else 1).(pc := m.pc + 9);
  }

  /** The two ways from the jump of an lcmp to its end. */
  lemma LcmpTail(g: seq<Instr>, m: Machine, q: Pass, i: nat, equal: bool) returns (n: nat)
    requires q.top >= 2 && HasAt(g, i, [Label(Offset(q.k))] + LcmpBlock(q))
    requires Labelled(g, End(q.cmps + 1)) && Find(g, End(q.cmps + 1)) == i + 8
    requires m.pc == if equal then i + 3 else i + 6
    ensures Reaches(g, m, n, Set(m, RegAt(q.top - 2), if equal then 0 else 1).(pc := i + 9))
  {
    hide *;
    var arg2, c := RegAt(q.top - 2), q.cmps + 1;
    var v := if equal then 0 else 1;
    var m1 := Set(m, arg2, v).(pc := m.pc + 2);
    MoveSets(m, v, arg2);
    LcmpParts(g, i, q);
    if equal {
      RunToLast(g, m, Name.Eq(c), [MovImm(0, arg2)], Jmp(End(c)));
      JumpTo(g, m1, i + 8);
      RunLabel(g, m1.(pc := i + 8), End(c));
      ReachesFurther(g, m, 2, m1, 1, m1.(pc := i + 8));
      ReachesFurther(g, m, 3, m1.(pc := i + 8), 1, m1.(pc := i + 9));
      n := 4;
    } else {
      RunLabelled(g, m, Name.Ne(c), [MovImm(1, arg2)]);
      RunLabel(g, m1, End(c));
      ReachesFurther(g, m, 2, m1, 1, m1.(pc := i + 9));
      n := 3;
    }
  }

  lemma RunLabel(g: seq<Instr>, m: Machine, l: Name)
    requires HasAt(g, m.pc, [Label(l)] + [])
    ensures Reaches(g, m, 1, m.(pc := m.pc + 1))
  {
    RunLabelled(g, m, l, []);
  }

  /** The result of lcmp on the represented stack. */
  lemma LcmpResultKept(ml: nat, m: Machine, stack: seq<int>, locals: seq<int>, pc: nat)
    requires Rep(ml, m, stack, locals) && 2 <= |stack| <= WINDOW
    ensures var d := |stack|; var x, y := Get(m, RegAt(d - 2)), Get(m, RegAt(d - 1));
      var v := if x == y then 0 else 1;
      && x == stack[d - 2] && y == stack[d - 1]
      && Rep(ml, Set(m.(flags := (x, y)), RegAt(d - 2), v).(pc := pc), stack[..d - 2] + [v], locals)
  {
    var d := |stack|;
    Operand(ml, m, stack, locals, d - 1);
    Operand(ml, m, stack, locals, d - 2);
    var v := if stack[d - 2] == stack[d - 1] then 0 else 1;
    var m' := Set(m.(flags := (stack[d - 2], stack[d - 1])), RegAt(d - 2), v).(pc := pc);
    TopReplaced(ml, m, m', stack, locals, v);
  }

  lemma SimLcmp(code: seq<Byte>, ml: nat, start: Pass, q: Pass, s: State, m: Machine)
    returns (n: nat, m': Machine)
    requires Walkable(code, start) && Sim(code, ml, start, q, s, m) && q.k < |code|
    requires Shallow(code, q) && Decode(code, q.k).Lcmp?
    ensures n > 0 && Reaches(Gen(code, ml, start), m, n, m')
    ensures Step(code, Generated, s).Running?
    ensures Sim(code, ml, start, Next(code, q), Step(code, Generated, s).s, m')
  {
    hide Gen, Index, Emit, Walkable, Rep, LcmpBlock, Find, Labelled, HasAt, Reaches, Decode, Length, Get, Set;
    var d, g := |s.stack|, Gen(code, ml, start);
    LcmpLayout(code, ml, start, q);
    n := RunLcmp(g, m, q);
    LcmpResultKept(ml, m, s.stack, s.locals, m.pc + 9);
    var x, y := s.stack[d - 2], s.stack[d - 1];
    m' := Set(m.(flags := (x, y)), RegAt(d - 2), if x == y then 0 else 1).(pc := m.pc + 9);
  }

  // ---------------------------------------------------------------- whole runs

  /** One instruction of any supported kind: the generated code gets from its code to the code of
      the next instruction, which represents the next state. */
  lemma SimStep(code: seq<Byte>, ml: nat, start: Pass, q: Pass, s: State, m: Machine)
    returns (n: nat, q': Pass, m': Machine)
    requires Acceptable(code, start) && Sim(code, ml, start, q, s, m)
    requires Step(code, Generated, s).Running? && DivFits(code, s)
    ensures n > 0 && Reaches(Gen(code, ml, start), m, n, m')
    ensures Sim(code, ml, start, q', Step(code, Generated, s).s, m')
  {
    assert Checked(code, start, q);
    if IsStraight(Decode(code, q.k)) {
      n, m' := SimStraight(code, ml, start, q, s, m);
      q' := Next(code, q);
    } else if IsBranch(Decode(code, q.k)) {
      n, q', m' := SimBranch(code, ml, start, q, s, m);
    } else {
      assert Decode(code, q.k).Lcmp?;
      n, m' := SimLcmp(code, ml, start, q, s, m);
      q' := Next(code, q);
    }
  }

  /** No division of the run traps. */
  ghost predicate DivisionsFit(code: seq<Byte>, r: LcmpRule, s: State, n: nat)
    decreases n
  {
    n > 0 ==> DivFits(code, s) && (Step(code, r, s).Running? ==> DivisionsFit(code, r, Step(code, r, s).s, n - 1))
  }

  lemma RunUnrolls(code: seq<Byte>, r: LcmpRule, s: State, n: nat)
    requires n > 0 && Run(code, r, s, n).Running?
    ensures Step(code, r, s).Running? && Run(code, r, Step(code, r, s).s, n - 1) == Run(code, r, s, n)
  {}

  lemma DivisionsUnroll(code: seq<Byte>, r: LcmpRule, s: State, n: nat)
    requires n > 0 && DivisionsFit(code, r, s, n) && Step(code, r, s).Running?
    ensures DivFits(code, s) && DivisionsFit(code, r, Step(code, r, s).s, n - 1)
  {}

  /** A run that returns is a run of one instruction less, followed by a return. */
  lemma {:induction false} RunReturns(code: seq<Byte>, r: LcmpRule, s: State, n: nat)
    requires Run(code, r, s, n).Finished?
    ensures n > 0 && Run(code, r, s, n - 1).Running?
    ensures Step(code, r, Run(code, r, s, n - 1).s) == Run(code, r, s, n)
    decreases n
  {
    if n > 1 {
      RunReturns(code, r, Step(code, r, s).s, n - 1);
    }
  }

  lemma NothingRun(code: seq<Byte>, r: LcmpRule, s: State, g: seq<Instr>, m: Machine)
    ensures Run(code, r, s, 0) == Running(s) && Reaches(g, m, 0, m)
  {}

  lemma AcceptableWalks(code: seq<Byte>, start: Pass)
    requires Acceptable(code, start)
    ensures Walkable(code, start)
  {}

  /** After any number of instructions the generated code has reached a machine that represents the
      state of the bytecode. */
  lemma {:induction false} SimRun(code: seq<Byte>, ml: nat, start: Pass, q: Pass, s: State, m: Machine, n: nat)
    returns (k: nat, q': Pass, m': Machine)
    requires Acceptable(code, start) && Sim(code, ml, start, q, s, m)
    requires Run(code, Generated, s, n).Running? && DivisionsFit(code, Generated, s, n)
    ensures k >= n && Reaches(Gen(code, ml, start), m, k, m')
    ensures Sim(code, ml, start, q', Run(code, Generated, s, n).s, m')
    decreases n
  {
    hide *;
    AcceptableWalks(code, start);
    if n == 0 {
      k, q', m' := 0, q, m;
      NothingRun(code, Generated, s, Gen(code, ml, start), m);
    } else {
      RunUnrolls(code, Generated, s, n);
      DivisionsUnroll(code, Generated, s, n);
      var k1, q1, m1 := SimStep(code, ml, start, q, s, m);
      var k2, q2, m2 := SimRun(code, ml, start, q1, Step(code, Generated, s).s, m1, n - 1);
      ReachesFurther(Gen(code, ml, start), m, k1, m1, k2, m2);
      k, q', m' := k1 + k2, q2, m2;
    }
  }

  /** Where the bytecode returns, so does the generated code, with the same locals in its frame. */
  lemma SimReturn(code: seq<Byte>, ml: nat, start: Pass, q: Pass, s: State, m: Machine)
    requires Acceptable(code, start) && Sim(code, ml, start, q, s, m) && Step(code, Generated, s).Finished?
    ensures var g, m' := Gen(code, ml, start), m.(pc := m.pc + 1);
      && Reaches(g, m, 1, m') && m'.pc < |g| && g[m'.pc] == Ret
      && Step(code, Generated, s).locals == s.locals
      && forall i :: 0 <= i < |s.locals| ==> Slot(m', LOCAL_VARS + i) == s.locals[i]
  {
    ReturnCode(code, ml, start, q, s);
    hide *;
    BlockAt(code, ml, start, q);
    RunToReturn(Gen(code, ml, start), m, q.k, s.locals, ml, s.stack);
  }

  lemma ReturnCode(code: seq<Byte>, ml: nat, start: Pass, q: Pass, s: State)
    requires Acceptable(code, start) && Visits(code, start, q) && q.k == s.pc
    requires Step(code, Generated, s).Finished?
    ensures Walkable(code, start) && q.k < |code| && Poppable(code, q) && Emit(code, ml, q) == [Ret]
    ensures Step(code, Generated, s).locals == s.locals
  {
    assert Checked(code, start, q);
    assert Decode(code, q.k).Return?;
  }

  lemma RunToReturn(g: seq<Instr>, m: Machine, k: int, locals: seq<int>, ml: nat, stack: seq<int>)
    requires HasAt(g, m.pc, [Label(Offset(k))] + [Ret]) && Rep(ml, m, stack, locals)
    ensures var m' := m.(pc := m.pc + 1);
      && Reaches(g, m, 1, m') && m'.pc < |g| && g[m'.pc] == Ret
      && forall i :: 0 <= i < |locals| ==> Slot(m', LOCAL_VARS + i) == locals[i]
  {
    HasParts(g, m.pc, [Label(Offset(k))], [Ret]);
    HasOne(g, m.pc + 1, Ret);
    assert [Label(Offset(k))] + [] == [Label(Offset(k))];
    RunLabelled(g, m, Offset(k), []);
  }

  // ---------------------------------------------------------------- lcmp as specified

  /** Offset k is an ifeq or ifne. */
  predicate IsTest(code: seq<Byte>, k: nat) {
    k < |code| && code[k] in {153, 154}
  }

  /** If the instruction is an lcmp, its operands are in order or its result is tested for zero. */
  predicate LcmpFits(code: seq<Byte>, s: State) {
    var d := |s.stack|;
    Complete(code, s.pc) && Decode(code, s.pc).Lcmp? && d >= 2 ==> s.stack[d - 2] >= s.stack[d - 1] || IsTest(code, s.pc + 1)
  }

  /** That holds at every instruction of the specified run. */
  ghost predicate LcmpsFit(code: seq<Byte>, s: State, n: nat)
    decreases n
  {
    n > 0 ==>
      LcmpFits(code, s) && (Step(code, Specified, s).Running? ==> LcmpsFit(code, Step(code, Specified, s).s, n - 1))
  }

  /** Every lcmp that the pass meets feeds an ifeq or ifne. */
  ghost predicate LcmpIsTested(code: seq<Byte>, start: Pass) {
    forall q :: Visits(code, start, q) && Complete(code, q.k) && Decode(code, q.k).Lcmp? ==> IsTest(code, q.k + 1)
  }

  /** The result the generated lcmp leaves is the specified one exactly for operands in order. */
  lemma LcmpAgreesExactly(x: int, y: int)
    ensures LcmpResult(Generated, x, y) == LcmpResult(Specified, x, y) <==> x >= y
    ensures LcmpResult(Generated, x, y) == 0 <==> LcmpResult(Specified, x, y) == 0
  {}

  /** The states are equal, but for a non-zero value on top in front of ifeq or ifne. */
  predicate Alike(code: seq<Byte>, s: State, t: State) {
    && s.pc == t.pc && s.locals == t.locals && |s.stack| == |t.stack|
    && (s.stack == t.stack
        || (IsTest(code, s.pc) && s.stack != []
            && s.stack[..|s.stack| - 1] == t.stack[..|s.stack| - 1]
            && (s.stack[|s.stack| - 1] == 0 <==> t.stack[|s.stack| - 1] == 0)))
  }

  lemma OnlyLcmpDiffers(code: seq<Byte>, s: State)
    requires Complete(code, s.pc) ==> !Decode(code, s.pc).Lcmp?
    ensures Step(code, Specified, s) == Step(code, Generated, s)
  {}

  lemma LcmpAlike(code: seq<Byte>, s: State)
    requires LcmpFits(code, s) && Complete(code, s.pc) && Decode(code, s.pc).Lcmp?
    requires Step(code, Specified, s).Running?
    ensures Step(code, Generated, s).Running?
    ensures Alike(code, Step(code, Specified, s).s, Step(code, Generated, s).s)
  {
    assert code[s.pc] == 148;
  }

  lemma TestDecodes(code: seq<Byte>, k: nat)
    requires Complete(code, k) && code[k] in {153, 154}
    ensures Decode(code, k).IfZero? && Decode(code, k).c in {Cond.Eq, Cond.Ne}
  {}

  lemma TestAlike(code: seq<Byte>, s: State, t: State)
    requires Alike(code, s, t) && s.stack != t.stack && Step(code, Specified, s).Running?
    ensures DivFits(code, t) && Step(code, Generated, t) == Step(code, Specified, s)
  {
    TestDecodes(code, s.pc);
    hide Decode, Length, Goes;
  }

  lemma AlikeStep(code: seq<Byte>, s: State, t: State)
    requires LcmpFits(code, s) && Alike(code, s, t) && Step(code, Specified, s).Running?
    ensures Step(code, Generated, t).Running?
    ensures Alike(code, Step(code, Specified, s).s, Step(code, Generated, t).s)
    ensures DivFits(code, s) ==> DivFits(code, t)
  {
    if s.stack != t.stack {
      TestAlike(code, s, t);
    } else {
      assert s == t;
      hide Step, LcmpFits, DivFits;
      if Complete(code, s.pc) && Decode(code, s.pc).Lcmp? {
        LcmpAlike(code, s);
      } else {
        OnlyLcmpDiffers(code, s);
      }
    }
  }

  /** As long as every lcmp has operands in order or is tested, the specified run and the run with the generated lcmp differ
      only in the sign of values that are about to be tested for zero. */
  lemma {:induction false} AlikeRun(code: seq<Byte>, s: State, t: State, n: nat)
    requires LcmpsFit(code, s, n) && Alike(code, s, t)
    requires Run(code, Specified, s, n).Running? && DivisionsFit(code, Specified, s, n)
    ensures Run(code, Generated, t, n).Running? && DivisionsFit(code, Generated, t, n)
    ensures Alike(code, Run(code, Specified, s, n).s, Run(code, Generated, t, n).s)
    decreases n
  {
    hide Step, DivFits, LcmpFits, Alike;
    if n > 0 {
      RunUnrolls(code, Specified, s, n);
      AlikeStep(code, s, t);
      var s1, t1 := Step(code, Specified, s).s, Step(code, Generated, t).s;
      AlikeRun(code, s1, t1, n - 1);
    }
  }

  // ---------------------------------------------------------------- the whole method

  /** If the specified bytecode machine returns from a method, the generated code, entered at its
      start with the arguments in its frame, comes to its return with the same locals. The pass may
      have begun with a depth that earlier methods left behind. */
  lemma MethodIsSimulated(code: seq<Byte>, ml: nat, start: Pass, locals: seq<int>, m: Machine, n: nat)
    returns (k: nat, m': Machine)
    requires Acceptable(code, start) && start.k == 0 && start.top < WINDOW
    requires m.pc == 0 && Rep(ml, m, [], locals)
    requires Run(code, Specified, State(0, [], locals), n).Finished?
    requires DivisionsFit(code, Specified, State(0, [], locals), n) && LcmpsFit(code, State(0, [], locals), n)
    ensures var g := Gen(code, ml, start); var result := Run(code, Specified, State(0, [], locals), n).locals;
      && Reaches(g, m, k, m') && m'.pc < |g| && g[m'.pc] == Ret
      && forall i :: 0 <= i < |result| ==> Slot(m', LOCAL_VARS + i) == result[i]
  {
    LeftBehind(ml, m, locals, start.top);
    hide *;
    var below, s := m.win[..start.top], State(0, [], locals);
    RunAbove(code, Specified, s, below, n);
    LcmpsAbove(code, s, below, n);
    AboveNothing(below, 0, locals);
    k, m' := RunIsSimulated(code, ml, start, Above(below, s), m, n);
  }

  /** The same from any state that the machine represents. */
  lemma RunIsSimulated(code: seq<Byte>, ml: nat, start: Pass, s: State, m: Machine, n: nat)
    returns (k: nat, m': Machine)
    requires Acceptable(code, start)
    requires start.k == s.pc && start.top == |s.stack| && m.pc == 0 && Rep(ml, m, s.stack, s.locals)
    requires Run(code, Specified, s, n).Finished? && DivisionsFit(code, Specified, s, n) && LcmpsFit(code, s, n)
    ensures var g := Gen(code, ml, start); var result := Run(code, Specified, s, n).locals;
      && Reaches(g, m, k, m') && m'.pc < |g| && g[m'.pc] == Ret
      && forall i :: 0 <= i < |result| ==> Slot(m', LOCAL_VARS + i) == result[i]
  {
    hide *;
    var t := ReturnsAlike(code, s, n);
    AcceptableWalks(code, start);
    SimStarts(code, ml, start, s, m);
    var k1, q, m1 := SimRun(code, ml, start, start, s, m, n - 1);
    SimReturn(code, ml, start, q, t, m1);
    k, m' := k1 + 1, m1.(pc := m1.pc + 1);
    ReachesFurther(Gen(code, ml, start), m, k1, m1, 1, m');
  }

  /** What registers hold on entry can be taken for a stack of fewer than five values. */
  lemma LeftBehind(ml: nat, m: Machine, locals: seq<int>, top: nat)
    requires Rep(ml, m, [], locals) && top < WINDOW
    ensures |m.win| == WINDOW && Rep(ml, m, m.win[..top], locals)
  {
    var below := m.win[..top];
    forall q ensures InReg(m, below, q) {}
    forall q ensures InSlot(ml, m, below, q) {}
  }

  // ---------------------------------------------------------------- values below the stack

  /** The state with further values below its stack. */
  function Above(below: seq<int>, s: State): State { s.(stack := below + s.stack) }

  lemma AboveNothing(below: seq<int>, pc: nat, locals: seq<int>)
    ensures Above(below, State(pc, [], locals)) == State(pc, below, locals)
  {
    assert below + [] == below;
  }

  function Raised(below: seq<int>, o: Outcome): Outcome {
    if o.Running? then Running(Above(below, o.s)) else o
  }

  lemma AbovePush(below: seq<int>, stack: seq<int>, v: int)
    ensures below + stack + [v] == below + (stack + [v])
  {}

  /** The upper k values are those of the stack, and what is left without them is above the same values. */
  lemma AbovePop(below: seq<int>, stack: seq<int>, k: nat)
    requires 0 < k <= |stack|
    ensures var t := below + stack; var d, e := |stack| - k, |t| - k;
      t[..e] == below + stack[..d] && t[e] == stack[d] && t[|t| - 1] == stack[|stack| - 1]
  {}

  /** An instruction that finds its operands does not see what is below them. */
  lemma PerformAbove(i: Insn, next: nat, r: LcmpRule, s: State, below: seq<int>)
    requires !Perform(i, next, r, s).Stuck?
    ensures Perform(i, next, r, Above(below, s)) == Raised(below, Perform(i, next, r, s))
  {
    if i.Const? || i.Load? || i.Goto? || i.Return? {
      PerformsAboveNone(i, next, r, s, below);
    } else if i.Store? || i.Dup? || i.Neg? || i.IfZero? {
      PerformsAboveOne(i, next, r, s, below);
    } else {
      PerformsAboveTwo(i, next, r, s, below);
    }
  }

  lemma PerformsAboveNone(i: Insn, next: nat, r: LcmpRule, s: State, below: seq<int>)
    requires !Perform(i, next, r, s).Stuck? && (i.Const? || i.Load? || i.Goto? || i.Return?)
    ensures Perform(i, next, r, Above(below, s)) == Raised(below, Perform(i, next, r, s))
  {
    if i.Const? || i.Load? {
      AbovePush(below, s.stack, if i.Const? then i.v else s.locals[i.n]);
    }
  }

  lemma PerformsAboveOne(i: Insn, next: nat, r: LcmpRule, s: State, below: seq<int>)
    requires !Perform(i, next, r, s).Stuck? && (i.Store? || i.Dup? || i.Neg? || i.IfZero?)
    ensures Perform(i, next, r, Above(below, s)) == Raised(below, Perform(i, next, r, s))
  {
    hide Holds, Wrap;
    var d := |s.stack|;
    AbovePop(below, s.stack, 1);
    if i.Dup? {
      AbovePush(below, s.stack, s.stack[d - 1]);
    } else if i.Neg? {
      AbovePush(below, s.stack[..d - 1], Wrap(-s.stack[d - 1]));
    }
  }

  lemma PerformsAboveTwo(i: Insn, next: nat, r: LcmpRule, s: State, below: seq<int>)
    requires !Perform(i, next, r, s).Stuck? && (i.Bin? || i.Lcmp? || i.IfCmp?)
    ensures Perform(i, next, r, Above(below, s)) == Raised(below, Perform(i, next, r, s))
  {
    hide Apply, LcmpResult, Holds;
    var d := |s.stack|;
    AbovePop(below, s.stack, 2);
    if i.Bin? {
      AbovePush(below, s.stack[..d - 2], Apply(i.op, s.stack[d - 2], s.stack[d - 1]));
    } else if i.Lcmp? {
      AbovePush(below, s.stack[..d - 2], LcmpResult(r, s.stack[d - 2], s.stack[d - 1]));
    }
  }

  lemma FitsAbove(i: Insn, next: nat, r: LcmpRule, s: State, below: seq<int>)
    requires InsnFits(i, s) && !Perform(i, next, r, s).Stuck?
    ensures InsnFits(i, Above(below, s))
  {
    hide Quotient, Fits;
  }

  lemma StepAbove(code: seq<Byte>, r: LcmpRule, s: State, below: seq<int>)
    requires !Step(code, r, s).Stuck?
    ensures Step(code, r, Above(below, s)) == Raised(below, Step(code, r, s))
    ensures DivFits(code, s) ==> DivFits(code, Above(below, s))
  {
    hide Perform, Decode, Length, InsnFits;
    PerformAbove(Decode(code, s.pc), s.pc + Length(code[s.pc]), r, s, below);
    if DivFits(code, s) {
      FitsAbove(Decode(code, s.pc), s.pc + Length(code[s.pc]), r, s, below);
    }
  }

  /** A run that returns does so above any values. */
  lemma {:induction false} RunAbove(code: seq<Byte>, r: LcmpRule, s: State, below: seq<int>, n: nat)
    requires Run(code, r, s, n).Finished? && DivisionsFit(code, r, s, n)
    ensures Run(code, r, Above(below, s), n) == Run(code, r, s, n) && DivisionsFit(code, r, Above(below, s), n)
    decreases n
  {
    hide Step, DivFits, Above;
    StepAbove(code, r, s, below);
    if Step(code, r, s).Running? {
      RunAbove(code, r, Step(code, r, s).s, below, n - 1);
    }
  }

  lemma LcmpAbove(code: seq<Byte>, s: State, below: seq<int>)
    requires LcmpFits(code, s) && !Step(code, Specified, s).Stuck?
    ensures LcmpFits(code, Above(below, s))
  {
    hide Length, IsTest;
    if |s.stack| >= 2 {
      AbovePop(below, s.stack, 2);
    }
  }

  lemma {:induction false} LcmpsAbove(code: seq<Byte>, s: State, below: seq<int>, n: nat)
    requires Run(code, Specified, s, n).Finished? && LcmpsFit(code, s, n)
    ensures LcmpsFit(code, Above(below, s), n)
    decreases n
  {
    hide Step, LcmpFits, Above;
    StepAbove(code, Specified, s, below);
    LcmpAbove(code, s, below);
    if Step(code, Specified, s).Running? {
      LcmpsAbove(code, Step(code, Specified, s).s, below, n - 1);
    }
  }

  /** The machine in front of the method represents its first state. */
  lemma SimStarts(code: seq<Byte>, ml: nat, start: Pass, s: State, m: Machine)
    requires start.k == s.pc && start.top == |s.stack| && m.pc == 0 && Rep(ml, m, s.stack, s.locals)
    ensures Sim(code, ml, start, start, s, m)
  {}

  /** A specified run that returns corresponds to a run with the generated lcmp that comes to a
      state from which it returns with the same locals. */
  lemma ReturnsAlike(code: seq<Byte>, s: State, n: nat) returns (t: State)
    requires Run(code, Specified, s, n).Finished? && DivisionsFit(code, Specified, s, n) && LcmpsFit(code, s, n)
    ensures n > 0 && Run(code, Generated, s, n - 1) == Running(t) && DivisionsFit(code, Generated, s, n - 1)
    ensures Step(code, Generated, t) == Run(code, Specified, s, n)
  {
    RunReturns(code, Specified, s, n);
    DivisionsFitShorter(code, Specified, s, n);
    LcmpsFitShorter(code, s, n);
    AlikeSelf(code, s);
    hide *;
    AlikeRun(code, s, s, n - 1);
    t := Run(code, Generated, s, n - 1).s;
    ReturnAlike(code, Run(code, Specified, s, n - 1).s, t);
  }

  lemma AlikeSelf(code: seq<Byte>, s: State)
    ensures Alike(code, s, s)
  {}

  lemma ReturnAlike(code: seq<Byte>, s: State, t: State)
    requires Alike(code, s, t) && Step(code, Specified, s).Finished?
    ensures Step(code, Generated, t) == Step(code, Specified, s)
  {}

  lemma {:induction false} DivisionsFitShorter(code: seq<Byte>, r: LcmpRule, s: State, n: nat)
    requires n > 0 && DivisionsFit(code, r, s, n)
    ensures DivisionsFit(code, r, s, n - 1)
    decreases n
  {
    if n > 1 && Step(code, r, s).Running? {
      DivisionsFitShorter(code, r, Step(code, r, s).s, n - 1);
    }
  }

  lemma {:induction false} LcmpsFitShorter(code: seq<Byte>, s: State, n: nat)
    requires n > 0 && LcmpsFit(code, s, n)
    ensures LcmpsFit(code, s, n - 1)
    decreases n
  {
    if n > 1 && Step(code, Specified, s).Running? {
      LcmpsFitShorter(code, Step(code, Specified, s).s, n - 1);
    }
  }

  // ---------------------------------------------------------------- a condition on the code alone

  /** What an instruction that is not a branch does to pc and depth. */
  lemma NextDepth(i: Insn, next: nat, r: LcmpRule, s: State)
    requires !IsBranch(i) && Perform(i, next, r, s).Running?
    ensures var t := Perform(i, next, r, s).s;
      Pops(i) <= |s.stack| && t.pc == next && |t.stack| == |s.stack| - Pops(i) + Pushes(i)
  {}

  /** Every instruction of the bytecode goes from one the pass meets to another one, at the depth it
      has there above what earlier methods left behind. */
  lemma StepVisits(code: seq<Byte>, start: Pass, q: Pass, r: LcmpRule, s: State, base: nat) returns (q': Pass)
    requires Acceptable(code, start) && Visits(code, start, q) && q.k == s.pc && q.top == base + |s.stack|
    requires Step(code, r, s).Running?
    ensures var t := Step(code, r, s).s; Visits(code, start, q') && q'.k == t.pc && q'.top == base + |t.stack|
  {
    hide *;
    VisitedIsChecked(code, start, q, r, s);
    VisitsNext(code, start, q);
    var i := Decode(code, q.k);
    if IsBranch(i) {
      q' := BranchVisits(code, start, q, r, s);
    } else {
      NextDepth(i, s.pc + Length(code[s.pc]), r, s);
      q' := Next(code, q);
      NextIs(code, q);
    }
  }

  lemma VisitedIsChecked(code: seq<Byte>, start: Pass, q: Pass, r: LcmpRule, s: State)
    requires Acceptable(code, start) && Visits(code, start, q) && q.k == s.pc && Step(code, r, s).Running?
    ensures Complete(code, q.k) && q.k < |code| && Poppable(code, q) && Checked(code, start, q)
    ensures Step(code, r, s) == Perform(Decode(code, s.pc), s.pc + Length(code[s.pc]), r, s)
  {
    assert Checked(code, start, q);
  }

  lemma NextIs(code: seq<Byte>, q: Pass)
    requires Poppable(code, q)
    ensures Complete(code, q.k) && q.top >= Pops(Decode(code, q.k))
    ensures var i := Decode(code, q.k);
      Next(code, q).k == q.k + Length(code[q.k]) && Next(code, q).top == q.top - Pops(i) + Pushes(i)
    ensures var i := Decode(code, q.k); IsBranch(i) ==> Pushes(i) == 0
  {
    hide Decode, Length, Pops;
  }

  lemma BranchVisits(code: seq<Byte>, start: Pass, q: Pass, r: LcmpRule, s: State) returns (q': Pass)
    requires q.k < |code| && Poppable(code, q) && Visits(code, start, Next(code, q)) && Checked(code, start, q)
    requires q.k == s.pc && Step(code, r, s).Running? && IsBranch(Decode(code, q.k))
    ensures var t := Step(code, r, s).s;
      Visits(code, start, q') && q'.k == t.pc && q'.top == q.top - |s.stack| + |t.stack|
  {
    NextIs(code, q);
    StepBranch(code, r, s);
    hide Decode, Length, Step, Taken, Visits, Poppable, Pops, Next, Shallow;
    var i := Decode(code, q.k);
    if Taken(i, s) {
      q' :| Visits(code, start, q') && q'.k == i.target && q'.k < |code| && q'.top == Next(code, q).top;
    } else {
      q' := Next(code, q);
    }
  }

  /** If every lcmp that the pass meets is tested, every run satisfies what its simulation needs. */
  lemma {:induction false} TestedRunsFit(code: seq<Byte>, start: Pass, q: Pass, s: State, base: nat, n: nat)
    requires Acceptable(code, start) && LcmpIsTested(code, start)
    requires Visits(code, start, q) && q.k == s.pc && q.top == base + |s.stack|
    ensures LcmpsFit(code, s, n)
    decreases n
  {
    hide Step, Acceptable, Visits, Decode, IsTest;
    if n > 0 && Step(code, Specified, s).Running? {
      var q' := StepVisits(code, start, q, Specified, s, base);
      TestedRunsFit(code, start, q', Step(code, Specified, s).s, base, n - 1);
    }
  }

  /** In particular from the start of the method. */
  lemma TestedMethodFits(code: seq<Byte>, start: Pass, locals: seq<int>, n: nat)
    requires Acceptable(code, start) && LcmpIsTested(code, start) && start.k == 0
    ensures LcmpsFit(code, State(0, [], locals), n)
  {
    hide Acceptable, LcmpIsTested, LcmpsFit;
    TestedRunsFit(code, start, start, State(0, [], locals), start.top, n);
  }
}
