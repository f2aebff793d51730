/** Running the generated code simulates the bytecode. */
module Simulation {
  import opened Bytecode
  import opened X86
  import opened CodeGen
  import opened Window
  import opened Labels

  // ---------------------------------------------------------------- straight-line instructions

  /** Up to depth five nothing is reloaded by a pop. */
  lemma ShallowPop(ml: nat, d: nat)
    requires 1 <= d <= WINDOW
    ensures Pop(ml, d) == []
  {}

  lemma ShallowPush(ml: nat, d: nat)
    requires d + 1 < WINDOW
    ensures Push(ml, d) == []
  {}

  /** The operands of an instruction are in their registers. */
  lemma Operand(ml: nat, m: Machine, stack: seq<int>, locals: seq<int>, q: nat)
    requires Rep(ml, m, stack, locals) && |stack| <= WINDOW && q < |stack|
    ensures Get(m, RegAt(q)) == stack[q] && RegAt(q) == Win(q)
  {
    assert InReg(m, stack, q);
  }

  lemma Shorter(ml: nat, m: Machine, stack: seq<int>, locals: seq<int>)
    requires Rep(ml, m, stack, locals) && 1 <= |stack| <= WINDOW
    ensures Rep(ml, m, stack[..|stack| - 1], locals)
  {
    PopKeeps(ml, m, stack, locals);
    ShallowPop(ml, |stack|);
  }

  /** Two operands replaced by v: their registers may change, the others and the frame may not. */
  lemma TopReplaced(ml: nat, m: Machine, m': Machine, stack: seq<int>, locals: seq<int>, v: int)
    requires Rep(ml, m, stack, locals) && 2 <= |stack| <= WINDOW
    requires |m'.win| == WINDOW && m'.frame == m.frame && m'.win[|stack| - 2] == v
    requires forall r :: 0 <= r < |stack| - 2 ==> m'.win[r] == m.win[r]
    ensures Rep(ml, m', stack[..|stack| - 2] + [v], locals)
  {
    var s1 := stack[..|stack| - 2] + [v];
    forall q ensures InReg(m', s1, q) {
      assert InReg(m, stack, q);
    }
    forall q ensures InSlot(ml, m', s1, q) {}
  }

  lemma StoreKeeps(ml: nat, m: Machine, stack: seq<int>, locals: seq<int>, n: nat)
    requires Rep(ml, m, stack, locals) && 1 <= |stack| <= WINDOW && n < |locals|
    ensures var d := |stack|;
      Rep(ml, Exec(m, StoreSlot(RegAt(d - 1), LOCAL_VARS + n)), stack[..d - 1], locals[n := stack[d - 1]])
  {
    var d := |stack|;
    var m1, s1 := Exec(m, StoreSlot(RegAt(d - 1), LOCAL_VARS + n)), stack[..d - 1];
    Operand(ml, m, stack, locals, d - 1);
    forall q ensures InReg(m1, s1, q) {
      assert InReg(m, stack, q);
    }
    forall q ensures InSlot(ml, m1, s1, q) {}
  }

  lemma FitsWraps(x: int)
    requires Fits(x)
    ensures Wrap(x) == x
  {
    if x >= 0 {
      assert x % Bytecode.TWO_TO_THE_64 == x;
    } else {
      assert x % Bytecode.TWO_TO_THE_64 == x + Bytecode.TWO_TO_THE_64;
    }
  }

  /** The five instructions of ldiv. */
  lemma DivBlock(ml: nat, m: Machine, stack: seq<int>, locals: seq<int>)
    requires Rep(ml, m, stack, locals) && 2 <= |stack| <= WINDOW
    requires var y := stack[|stack| - 1]; y != 0 && Fits(Quotient(stack[|stack| - 2], y))
    ensures var d := |stack|; var arg1, arg2 := RegAt(d - 1), RegAt(d - 2);
      var b := [MovReg(arg2, Rax), Cqto, Idiv(arg1), MovReg(Rax, arg1), MovReg(Rax, arg2)];
      && Safe(m, b)
      && Rep(ml, ExecAll(m, b), stack[..d - 2] + [Apply(Div, stack[d - 2], stack[d - 1])], locals)
  {
    var d := |stack|;
    var x, y, arg1, arg2 := stack[d - 2], stack[d - 1], RegAt(d - 1), RegAt(d - 2);
    var b := [MovReg(arg2, Rax), Cqto, Idiv(arg1), MovReg(Rax, arg1), MovReg(Rax, arg2)];
    Operand(ml, m, stack, locals, d - 1);
    Operand(ml, m, stack, locals, d - 2);
    FitsWraps(Quotient(x, y));
    var m1 := Exec(m, b[0]);
    var m2 := Exec(m1, b[1]);
    var m3 := Exec(m2, b[2]);
    var m4 := Exec(m3, b[3]);
    var m5 := Exec(m4, b[4]);
    TopReplaced(ml, m, m5, stack, locals, Quotient(x, y));
    ExecFive(m, m1, m2, m3, m4, b);
  }

  lemma ExecFive(m: Machine, m1: Machine, m2: Machine, m3: Machine, m4: Machine, b: seq<Instr>)
    requires |b| == 5
    requires !Traps(m, b[0]) && m1 == Exec(m, b[0]) && !Traps(m1, b[1]) && m2 == Exec(m1, b[1])
    requires !Traps(m2, b[2]) && m3 == Exec(m2, b[2]) && !Traps(m3, b[3]) && m4 == Exec(m3, b[3])
    requires !Traps(m4, b[4])
    ensures Safe(m, b) && ExecAll(m, b) == Exec(m4, b[4])
  {
    ExecOne(m4, b[4]);
    assert b[4..] == [b[4]];
    ExecCons(m3, b[3..]);
    ExecCons(m2, b[2..]);
    ExecCons(m1, b[1..]);
    ExecCons(m, b);
  }

  lemma ExecCons(m: Machine, b: seq<Instr>)
    requires b != [] && !Traps(m, b[0]) && Safe(Exec(m, b[0]), b[1..])
    ensures Safe(m, b) && ExecAll(m, b) == ExecAll(Exec(m, b[0]), b[1..])
  {}

  lemma BinBlock(ml: nat, m: Machine, stack: seq<int>, locals: seq<int>, op: BinOp)
    requires Rep(ml, m, stack, locals) && 2 <= |stack| <= WINDOW && !op.Div?
    ensures var d := |stack|; var arg1, arg2 := RegAt(d - 1), RegAt(d - 2);
      var b := [Arith(op, arg1, arg2)] + if op.Or? then [MovReg(arg2, arg1)] else [];
      && Safe(m, b)
      && Rep(ml, ExecAll(m, b), stack[..d - 2] + [Apply(op, stack[d - 2], stack[d - 1])], locals)
  {
    var d := |stack|;
    var arg1, arg2 := RegAt(d - 1), RegAt(d - 2);
    Operand(ml, m, stack, locals, d - 1);
    Operand(ml, m, stack, locals, d - 2);
    var v := Apply(op, stack[d - 2], stack[d - 1]);
    var m1 := Set(m, arg2, v);
    ExecOne(m, Arith(op, arg1, arg2));
    if op.Or? {
      ExecOne(m1, MovReg(arg2, arg1));
      ExecAppend(m, [Arith(op, arg1, arg2)], [MovReg(arg2, arg1)]);
      TopReplaced(ml, m, Set(m1, arg1, v), stack, locals, v);
    } else {
      assert [Arith(op, arg1, arg2)] + [] == [Arith(op, arg1, arg2)];
      TopReplaced(ml, m, m1, stack, locals, v);
    }
  }

  predicate IsStraight(i: Insn) {
    i.Const? || i.Load? || i.Store? || i.Dup? || i.Bin? || i.Neg?
  }

  /** idivq does not trap: the quotient fits. Only the division of the least value by -1 does not. */
  predicate InsnFits(i: Insn, s: State) {
    i == Bin(Div) && |s.stack| >= 2 && s.stack[|s.stack| - 1] != 0
    ==> Fits(Quotient(s.stack[|s.stack| - 2], s.stack[|s.stack| - 1]))
  }

  predicate DivFits(code: seq<Byte>, s: State) {
    Complete(code, s.pc) ==> InsnFits(Decode(code, s.pc), s)
  }

  lemma HalvedAtLeast(a: nat, b: nat)
    requires b >= 2
    ensures 2 * (a / b) <= a
  {
    var q := a / b;
    assert a == b * q + a % b;
    assert b * q >= 2 * q;
  }

  lemma DivFitsUnlessLeastByMinusOne(x: int, y: int)
    requires Fits(x) && Fits(y) && y != 0
    ensures Fits(Quotient(x, y)) <==> !(x == -TWO_TO_THE_63 && y == -1)
  {
    if Abs(y) >= 2 {
      HalvedAtLeast(Abs(x), Abs(y));
    } else {
      assert Abs(x) / 1 == Abs(x);
    }
  }

  /** The stack and the depth stay within the window across the instruction at p. */
  predicate Shallow(code: seq<Byte>, p: Pass) {
    Poppable(code, p) && p.top <= WINDOW && Next(code, p).top <= WINDOW
  }

  /** The code of a straight-line instruction does to the represented state what the instruction
      does. */
  lemma EmitStraight(code: seq<Byte>, ml: nat, p: Pass, s: State, m: Machine, r: LcmpRule)
    requires Shallow(code, p) && IsStraight(Decode(code, p.k)) && p.k == s.pc && p.top == |s.stack|
    requires Rep(ml, m, s.stack, s.locals) && Step(code, r, s).Running? && DivFits(code, s)
    ensures var e, t := Emit(code, ml, p), Step(code, r, s).s;
      && Straight(e) && Safe(m, e) && Rep(ml, ExecAll(m, e), t.stack, t.locals)
      && t.pc == Next(code, p).k && |t.stack| == Next(code, p).top
  {
    hide Rep, ExecAll, Safe, Straight, Decode, Length, CodeFor, Perform, InsnFits, TargetName;
    CodeStraight(Decode(code, p.k), TargetName(code, p.k), ml, p, s, m, r, p.k + Length(code[p.k]));
  }

  /** The code e, run from m, comes to a machine that represents t. */
  ghost predicate Does(e: seq<Instr>, m: Machine, t: State, ml: nat) {
    Straight(e) && Safe(m, e) && Rep(ml, ExecAll(m, e), t.stack, t.locals)
  }

  lemma PerformMoves(i: Insn, next: nat, r: LcmpRule, s: State)
    requires IsStraight(i) && Perform(i, next, r, s).Running? && Pops(i) <= |s.stack|
    ensures Perform(i, next, r, s).s.pc == next && |Perform(i, next, r, s).s.stack| == |s.stack| - Pops(i) + Pushes(i)
  {}

  lemma CodeStraight(i: Insn, target: Name, ml: nat, p: Pass, s: State, m: Machine, r: LcmpRule, next: nat)
    requires Pops(i) <= p.top <= WINDOW && p.top - Pops(i) + Pushes(i) <= WINDOW && p.top == |s.stack|
    requires Rep(ml, m, s.stack, s.locals) && Perform(i, next, r, s).Running?
    requires IsStraight(i) && InsnFits(i, s)
    ensures Does(CodeFor(i, target, ml, p), m, Perform(i, next, r, s).s, ml)
    ensures Perform(i, next, r, s).s.pc == next && |Perform(i, next, r, s).s.stack| == p.top - Pops(i) + Pushes(i)
  {
    hide Does, CodeFor, Perform, Rep, InsnFits;
    PerformMoves(i, next, r, s);
    match i
    case Const(v) => CodeConst(v, target, ml, p, s, m, r, next);
    case Load(n) => CodeLoad(n, target, ml, p, s, m, r, next);
    case Store(n) => CodeStore(n, target, ml, p, s, m, r, next);
    case Dup => CodeDup(target, ml, p, s, m, r, next);
    case Neg => CodeNeg(target, ml, p, s, m, r, next);
    case Bin(op) => CodeBin(op, target, ml, p, s, m, r, next);
    case _ =>
  }

  lemma CodeConst(v: int, target: Name, ml: nat, p: Pass, s: State, m: Machine, r: LcmpRule, next: nat)
    requires Pops(Const(v)) <= p.top <= WINDOW && p.top - Pops(Const(v)) + Pushes(Const(v)) <= WINDOW && p.top == |s.stack|
    requires Rep(ml, m, s.stack, s.locals) && Perform(Const(v), next, r, s).Running?
    ensures Does(CodeFor(Const(v), target, ml, p), m, Perform(Const(v), next, r, s).s, ml)
  {
    hide Rep, Exec, ExecAll, Safe;
    ExecMov(m, v, RegAt(p.top));
    PushKeeps(ml, m, s.stack, s.locals, MovImm(v, RegAt(p.top)), v);
  }

  lemma CodeLoad(n: nat, target: Name, ml: nat, p: Pass, s: State, m: Machine, r: LcmpRule, next: nat)
    requires Pops(Load(n)) <= p.top <= WINDOW && p.top - Pops(Load(n)) + Pushes(Load(n)) <= WINDOW && p.top == |s.stack|
    requires Rep(ml, m, s.stack, s.locals) && Perform(Load(n), next, r, s).Running?
    ensures Does(CodeFor(Load(n), target, ml, p), m, Perform(Load(n), next, r, s).s, ml)
  {
    hide Rep, Exec, ExecAll, Safe;
    ExecLoad(ml, m, s, n, RegAt(p.top));
    PushKeeps(ml, m, s.stack, s.locals, LoadSlot(LOCAL_VARS + n, RegAt(p.top)), s.locals[n]);
  }

  lemma CodeStore(n: nat, target: Name, ml: nat, p: Pass, s: State, m: Machine, r: LcmpRule, next: nat)
    requires Pops(Store(n)) <= p.top <= WINDOW && p.top - Pops(Store(n)) + Pushes(Store(n)) <= WINDOW && p.top == |s.stack|
    requires Rep(ml, m, s.stack, s.locals) && Perform(Store(n), next, r, s).Running?
    ensures Does(CodeFor(Store(n), target, ml, p), m, Perform(Store(n), next, r, s).s, ml)
  {
    hide Rep, Exec, ExecAll, Safe;
    var store := StoreSlot(RegAt(p.top - 1), LOCAL_VARS + n);
    ShallowPop(ml, p.top);
    StoreKeeps(ml, m, s.stack, s.locals, n);
    assert CodeFor(Store(n), target, ml, p) == [store];
    StoreTraps(m, store);
    ExecOne(m, store);
  }

  lemma CodeDup(target: Name, ml: nat, p: Pass, s: State, m: Machine, r: LcmpRule, next: nat)
    requires Pops(Dup) <= p.top <= WINDOW && p.top - Pops(Dup) + Pushes(Dup) <= WINDOW && p.top == |s.stack|
    requires Rep(ml, m, s.stack, s.locals) && Perform(Dup, next, r, s).Running?
    ensures Does(CodeFor(Dup, target, ml, p), m, Perform(Dup, next, r, s).s, ml)
  {
    hide Rep, Exec, ExecAll, Safe;
    var d := p.top;
    ShallowPop(ml, d);
    ShallowPush(ml, d - 1);
    ExecDup(ml, m, s, RegAt(d - 1), RegAt(d));
    assert CodeFor(Dup, target, ml, p) == [MovReg(RegAt(d - 1), RegAt(d))] + Push(ml, d);
    PushKeeps(ml, m, s.stack, s.locals, MovReg(RegAt(d - 1), RegAt(d)), s.stack[d - 1]);
  }

  lemma CodeNeg(target: Name, ml: nat, p: Pass, s: State, m: Machine, r: LcmpRule, next: nat)
    requires Pops(Neg) <= p.top <= WINDOW && p.top - Pops(Neg) + Pushes(Neg) <= WINDOW && p.top == |s.stack|
    requires Rep(ml, m, s.stack, s.locals) && Perform(Neg, next, r, s).Running?
    ensures Does(CodeFor(Neg, target, ml, p), m, Perform(Neg, next, r, s).s, ml)
  {
    hide Rep, Exec, ExecAll, Safe;
    var d := p.top;
    ShallowPop(ml, d);
    Shorter(ml, m, s.stack, s.locals);
    ExecNeg(ml, m, s, RegAt(d - 1));
    assert CodeFor(Neg, target, ml, p) == [NegReg(RegAt(d - 1))] + Push(ml, d - 1);
    PushKeeps(ml, m, s.stack[..d - 1], s.locals, NegReg(RegAt(d - 1)), Wrap(-s.stack[d - 1]));
  }

  lemma CodeBin(op: BinOp, target: Name, ml: nat, p: Pass, s: State, m: Machine, r: LcmpRule, next: nat)
    requires Pops(Bin(op)) <= p.top <= WINDOW && p.top - Pops(Bin(op)) + Pushes(Bin(op)) <= WINDOW && p.top == |s.stack|
    requires Rep(ml, m, s.stack, s.locals) && Perform(Bin(op), next, r, s).Running?
    requires InsnFits(Bin(op), s)
    ensures Does(CodeFor(Bin(op), target, ml, p), m, Perform(Bin(op), next, r, s).s, ml)
  {
    ShallowBin(op, target, ml, p);
    hide Rep, Apply, Exec, ExecAll, Safe, CodeFor, Quotient, Fits, BinCode, Straight;
    BinRuns(op, ml, m, s.stack, s.locals);
  }

  /** What is emitted for a binary operation in the window. */
  function BinCode(top: nat, op: BinOp): seq<Instr>
    requires top >= 2
  {
    var arg1, arg2 := RegAt(top - 1), RegAt(top - 2);
    if op.Div? then [MovReg(arg2, Rax), Cqto, Idiv(arg1), MovReg(Rax, arg1), MovReg(Rax, arg2)]
    else [Arith(op, arg1, arg2)] + if op.Or? then [MovReg(arg2, arg1)] else []
  }

  lemma BinRuns(op: BinOp, ml: nat, m: Machine, stack: seq<int>, locals: seq<int>)
    requires Rep(ml, m, stack, locals) && 2 <= |stack| <= WINDOW
    requires var y := stack[|stack| - 1]; op.Div? ==> y != 0 && Fits(Quotient(stack[|stack| - 2], y))
    ensures var d := |stack|; var b := BinCode(d, op);
      && Straight(b) && Safe(m, b)
      && Rep(ml, ExecAll(m, b), stack[..d - 2] + [Apply(op, stack[d - 2], stack[d - 1])], locals)
  {
    hide Rep, Apply, Exec, ExecAll, Safe, Quotient, Fits, RegAt;
    if op.Div? {
      DivBlock(ml, m, stack, locals);
    } else {
      BinBlock(ml, m, stack, locals, op);
    }
  }

  lemma ShallowBin(op: BinOp, target: Name, ml: nat, p: Pass)
    requires 2 <= p.top <= WINDOW
    ensures CodeFor(Bin(op), target, ml, p) == BinCode(p.top, op)
  {
    ShallowPop(ml, p.top);
    ShallowPop(ml, p.top - 1);
    ShallowPush(ml, p.top - 2);
    assert CodeFor(Bin(op), target, ml, p) == [] + [] + [] + BinCode(p.top, op) + [];
  }

  lemma StoreTraps(m: Machine, i: Instr)
    requires i.StoreSlot?
    ensures !Traps(m, i) && Straight([i])
  {}

  lemma ExecMov(m: Machine, v: int, r: Reg)
    ensures Exec(m, MovImm(v, r)) == Set(m, r, v)
  {}

  lemma ExecLoad(ml: nat, m: Machine, s: State, n: nat, r: Reg)
    requires Rep(ml, m, s.stack, s.locals) && n < |s.locals|
    ensures Exec(m, LoadSlot(LOCAL_VARS + n, r)) == Set(m, r, s.locals[n])
  {}

  lemma ExecDup(ml: nat, m: Machine, s: State, from: Reg, to: Reg)
    requires Rep(ml, m, s.stack, s.locals) && 1 <= |s.stack| <= WINDOW && from == RegAt(|s.stack| - 1)
    ensures Exec(m, MovReg(from, to)) == Set(m, to, s.stack[|s.stack| - 1])
  {
    Operand(ml, m, s.stack, s.locals, |s.stack| - 1);
  }

  lemma ExecNeg(ml: nat, m: Machine, s: State, r: Reg)
    requires Rep(ml, m, s.stack, s.locals) && 1 <= |s.stack| <= WINDOW && r == RegAt(|s.stack| - 1)
    ensures Exec(m, NegReg(r)) == Set(m, r, Wrap(-s.stack[|s.stack| - 1]))
  {
    Operand(ml, m, s.stack, s.locals, |s.stack| - 1);
  }
}
