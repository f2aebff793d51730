/** What the emitted instructions do, in plain arithmetic. Operands are in the order of the AT&T syntax
    that the generator prints: source first. */
module MachineLaws {
  import opened Bytecode
  import opened X86
  import opened Section65

  /** The registers that are not dst, the frame, the flags and the counter are the same. */
  predicate OnlySets(m: Machine, m': Machine, dst: Reg, w: int) {
    && Get(m', dst) == w && |m'.win| == |m.win|
    && (forall i :: 0 <= i < |m.win| && dst != Win(i) ==> m'.win[i] == m.win[i])
    && (dst != Rax ==> m'.rax == m.rax && m'.extended == m.extended)
    && m'.frame == m.frame && m'.flags == m.flags && m'.pc == m.pc
  }

  predicate IsRegister(m: Machine, r: Reg) { r == Rax || (r.Win? && r.i < |m.win|) }

  /** movq of a number, between registers, from and to the frame. */
  lemma MoveLaws(m: Machine, src: Reg, dst: Reg, v: int, slot: int)
    requires IsRegister(m, src) && IsRegister(m, dst)
    ensures OnlySets(m, Exec(m, MovImm(v, dst)), dst, v)
    ensures OnlySets(m, Exec(m, MovReg(src, dst)), dst, Get(m, src))
    ensures OnlySets(m, Exec(m, LoadSlot(slot, dst)), dst, if slot in m.frame then m.frame[slot] else 0)
    ensures Exec(m, StoreSlot(src, slot)) == m.(frame := m.frame[slot := Get(m, src)])
  {}

  /** addq, subq, imulq and negq. */
  lemma ArithmeticLaws(m: Machine, src: Reg, dst: Reg) returns (add: int, sub: int, mul: int, neg: int)
    requires IsRegister(m, src) && IsRegister(m, dst)
    ensures OnlySets(m, Exec(m, Arith(Add, src, dst)), dst, add) && IsValueOf(add, Get(m, dst) + Get(m, src))
    ensures OnlySets(m, Exec(m, Arith(Sub, src, dst)), dst, sub) && IsValueOf(sub, Get(m, dst) - Get(m, src))
    ensures OnlySets(m, Exec(m, Arith(Mul, src, dst)), dst, mul) && IsValueOf(mul, Get(m, dst) * Get(m, src))
    ensures OnlySets(m, Exec(m, NegReg(dst)), dst, neg) && IsValueOf(neg, -Get(m, dst))
  {
    var x, y := Get(m, dst), Get(m, src);
    add, sub, mul, neg := Wrap(x + y), Wrap(x - y), Wrap(x * y), Wrap(-x);
    WrapIsValue(x + y);
    WrapIsValue(x - y);
    WrapIsValue(x * y);
    WrapIsValue(-x);
    hide Wrap, IsValueOf;
  }

  lemma ArithSets(m: Machine, op: BinOp, src: Reg, dst: Reg)
    requires IsRegister(m, src) && IsRegister(m, dst) && !op.Div?
    ensures OnlySets(m, Exec(m, Arith(op, src, dst)), dst, Apply(op, Get(m, dst), Get(m, src)))
  {
    hide Apply;
  }

  /** andq, orq and xorq. */
  lemma LogicLaws(m: Machine, src: Reg, dst: Reg) returns (and: int, or: int, xor: int)
    requires IsRegister(m, src) && IsRegister(m, dst)
    ensures OnlySets(m, Exec(m, Arith(And, src, dst)), dst, and) && IsAnd(and, Get(m, dst), Get(m, src))
    ensures OnlySets(m, Exec(m, Arith(Or, src, dst)), dst, or) && IsOr(or, Get(m, dst), Get(m, src))
    ensures OnlySets(m, Exec(m, Arith(Xor, src, dst)), dst, xor) && IsXor(xor, Get(m, dst), Get(m, src))
  {
    assert forall op: BinOp :: !Traps(m, Arith(op, src, dst));
    hide *;
    var x, y := Get(m, dst), Get(m, src);
    and, or, xor := Apply(And, x, y), Apply(Or, x, y), Apply(Xor, x, y);
    AndPattern(x, y);
    OrPattern(x, y);
    XorPattern(x, y);
    ArithSets(m, And, src, dst);
    ArithSets(m, Or, src, dst);
    ArithSets(m, Xor, src, dst);
  }

  lemma OneQuotient(p: int, q: int, x: int, y: int)
    requires y != 0 && IsQuotient(p, x, y) && IsQuotient(q, x, y)
    ensures p == q
  {
    var d := q - p;
    assert (x - y * p) - (x - y * q) == y * d;
    NoMultiple(y, d);
  }

  lemma NoMultiple(y: int, d: int)
    requires y != 0
    ensures (y > 0 ==> (d >= 1 ==> y * d >= y) && (d <= -1 ==> y * d <= -y))
    ensures (y < 0 ==> (d >= 1 ==> y * d <= y) && (d <= -1 ==> y * d >= -y))
  {}

  ghost predicate HasQuotient(x: int, y: int) {
    y != 0 && exists q :: IsQuotient(q, x, y) && -0x8000_0000_0000_0000 <= q < 0x8000_0000_0000_0000
  }

  lemma HasQuotientExactly(x: int, y: int)
    ensures HasQuotient(x, y) <==> y != 0 && Fits(Quotient(x, y))
  {
    if y != 0 {
      QuotientIs(x, y);
      hide IsQuotient, Quotient;
      if q :| IsQuotient(q, x, y) && -0x8000_0000_0000_0000 <= q < 0x8000_0000_0000_0000 {
        OneQuotient(q, Quotient(x, y), x, y);
      }
    }
  }

  /** cqto and idivq: it traps without a sign extension or a 64-bit quotient. */
  lemma DivideLaws(m: Machine, src: Reg)
    ensures Exec(m, Cqto) == m.(extended := true)
    ensures Traps(m, Idiv(src)) <==> !m.extended || !HasQuotient(m.rax, Get(m, src))
    ensures !Traps(m, Idiv(src)) ==>
      var q := Exec(m, Idiv(src)).rax;
      IsQuotient(q, m.rax, Get(m, src)) && Exec(m, Idiv(src)) == m.(rax := q, extended := false)
  {
    HasQuotientExactly(m.rax, Get(m, src));
    if Get(m, src) != 0 {
      QuotientIs(m.rax, Get(m, src));
    }
    hide IsQuotient, HasQuotient, Quotient;
  }

  /** cmpq, which compares the destination with the source. */
  lemma CompareLaws(m: Machine, src: Reg, dst: Reg, v: int)
    ensures Exec(m, CmpReg(src, dst)) == m.(flags := (Get(m, dst), Get(m, src)))
    ensures Exec(m, CmpImm(v, dst)) == m.(flags := (Get(m, dst), v))
  {}

  ghost predicate JumpsIf(p: seq<Instr>, m: Machine, l: Name, condition: bool)
    requires Labelled(p, l)
  {
    CanStep(p, m) && Step1(p, m) == m.(pc := if condition then Find(p, l) else m.pc + 1)
  }

  /** je, jne, jl, jge, jg, jle and jmp. */
  lemma JumpLaws(p: seq<Instr>, m: Machine, l: Name)
    requires m.pc < |p| && Labelled(p, l)
    ensures var x, y := m.flags.0, m.flags.1;
      && (p[m.pc] == Jcc(Cond.Eq, l) ==> JumpsIf(p, m, l, x == y))
      && (p[m.pc] == Jcc(Cond.Ne, l) ==> JumpsIf(p, m, l, x != y))
      && (p[m.pc] == Jcc(Lt, l) ==> JumpsIf(p, m, l, x < y))
      && (p[m.pc] == Jcc(Ge, l) ==> JumpsIf(p, m, l, x >= y))
      && (p[m.pc] == Jcc(Gt, l) ==> JumpsIf(p, m, l, x > y))
      && (p[m.pc] == Jcc(Le, l) ==> JumpsIf(p, m, l, x <= y))
      && (p[m.pc] == Jmp(l) ==> JumpsIf(p, m, l, true))
  {
    hide Labelled, Find;
  }
}
