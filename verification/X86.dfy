/** The part of x86-64 that the code generator emits, as instructions on 64-bit registers and frame
    slots; slot i is the word at -8*i(%rbp). */
module X86 {
  import opened Bytecode

  /** The five callee-saved registers rbx, r12..r15 that hold the top of the Java stack, and rax. */
  datatype Reg = Win(i: nat) | Rax

  const WINDOW: nat := 5

  /** offset_k starts the code of the instruction at k; the other three are local to an lcmp. */
  datatype Name = Offset(k: int) | Ne(c: nat) | Eq(c: nat) | End(c: nat)

  datatype Instr =
    | Label(l: Name)
    | MovImm(v: int, dst: Reg)
    | MovReg(src: Reg, dst: Reg)
    | LoadSlot(slot: int, dst: Reg)
    | StoreSlot(src: Reg, slot: int)
    | Arith(op: BinOp, src: Reg, dst: Reg)    // dst := dst op src
    | NegReg(dst: Reg)
    | Cqto                                    // sign-extend rax into rdx
    | Idiv(src: Reg)                          // rax := rdx:rax / src
    | CmpReg(src: Reg, dst: Reg)              // flags of dst - src
    | CmpImm(v: int, dst: Reg)
    | Jmp(l: Name)
    | Jcc(c: Cond, l: Name)
    | Ret                                     // restore the registers and return

  /** flags holds the operands of the last comparison, the left one first; `extended` says that rdx
      holds the sign of rax. */
  datatype Machine = Machine(
    pc: nat, win: seq<int>, rax: int, extended: bool, frame: map<int, int>, flags: (int, int))

  function Get(m: Machine, r: Reg): int {
    match r
    case Win(i) => if i < |m.win| then m.win[i] else 0
    case Rax => m.rax
  }

  function Set(m: Machine, r: Reg, v: int): Machine {
    match r
    case Win(i) => if i < |m.win| then m.(win := m.win[i := v]) else m
    case Rax => m.(rax := v, extended := false)
  }

  function Slot(m: Machine, i: int): int { if i in m.frame then m.frame[i] else 0 }

  predicate IsJump(i: Instr) { i.Jmp? || i.Jcc? || i.Ret? }

  /** idivq needs rdx:rax set up by cqto, a divisor and a quotient that fits. */
  predicate Traps(m: Machine, i: Instr) {
    i.Idiv? && (!m.extended || Get(m, i.src) == 0 || !Fits(Quotient(m.rax, Get(m, i.src))))
  }

  /** An instruction that is not a jump, but for the program counter. */
  function Exec(m: Machine, i: Instr): Machine
    requires !Traps(m, i)
  {
    match i
    case MovImm(v, dst) => Set(m, dst, v)
    case MovReg(src, dst) => Set(m, dst, Get(m, src))
    case LoadSlot(slot, dst) => Set(m, dst, Slot(m, slot))
    case StoreSlot(src, slot) => m.(frame := m.frame[slot := Get(m, src)])
    case Arith(op, src, dst) => if op.Div? then m else Set(m, dst, Apply(op, Get(m, dst), Get(m, src)))
    case NegReg(dst) => Set(m, dst, Wrap(-Get(m, dst)))
    case Cqto => m.(extended := true)
    case Idiv(src) => m.(rax := Quotient(m.rax, Get(m, src)), extended := false)
    case CmpReg(src, dst) => m.(flags := (Get(m, dst), Get(m, src)))
    case CmpImm(v, dst) => m.(flags := (Get(m, dst), v))
    case _ => m
  }

  ghost predicate Labelled(p: seq<Instr>, l: Name) {
    exists j :: 0 <= j < |p| && p[j] == Label(l)
  }

  /** Where a label is. */
  ghost function Find(p: seq<Instr>, l: Name): (j: nat)
    requires Labelled(p, l)
    ensures j < |p| && p[j] == Label(l)
  {
    var j :| 0 <= j < |p| && p[j] == Label(l);
    j
  }

  ghost predicate CanStep(p: seq<Instr>, m: Machine) {
    && m.pc < |p| && !p[m.pc].Ret? && !Traps(m, p[m.pc])
    && (p[m.pc].Jmp? || p[m.pc].Jcc? ==> Labelled(p, p[m.pc].l))
  }

  ghost function Step1(p: seq<Instr>, m: Machine): Machine
    requires CanStep(p, m)
  {
    var i := p[m.pc];
    if i.Jmp? || (i.Jcc? && Holds(i.c, m.flags.0, m.flags.1)) then m.(pc := Find(p, i.l))
    else Exec(m, i).(pc := m.pc + 1)
  }

  /** m' is reached from m in n instructions. */
  ghost predicate Reaches(p: seq<Instr>, m: Machine, n: nat, m': Machine)
    decreases n
  {
    if n == 0 then m == m' else CanStep(p, m) && Reaches(p, Step1(p, m), n - 1, m')
  }

  lemma {:induction false} ReachesFurther(p: seq<Instr>, m: Machine, n: nat, m1: Machine, k: nat, m2: Machine)
    requires Reaches(p, m, n, m1) && Reaches(p, m1, k, m2)
    ensures Reaches(p, m, n + k, m2)
    decreases n
  {
    if n > 0 {
      ReachesFurther(p, Step1(p, m), n - 1, m1, k, m2);
    }
  }

  // ---------------------------------------------------------------- straight-line code

  predicate Straight(b: seq<Instr>) {
    forall i :: i in b ==> !IsJump(i)
  }

  predicate Safe(m: Machine, b: seq<Instr>)
    decreases |b|
  {
    b == [] || (!Traps(m, b[0]) && Safe(Exec(m, b[0]), b[1..]))
  }

  function ExecAll(m: Machine, b: seq<Instr>): Machine
    requires Safe(m, b)
    decreases |b|
  {
    if b == [] then m else ExecAll(Exec(m, b[0]), b[1..])
  }

  lemma ExecOne(m: Machine, i: Instr)
    requires !Traps(m, i)
    ensures Safe(m, [i]) && ExecAll(m, [i]) == Exec(m, i)
  {
    assert [i][1..] == [];
  }

  lemma {:induction false} ExecKeepsPc(m: Machine, b: seq<Instr>)
    requires Safe(m, b)
    ensures ExecAll(m, b).pc == m.pc
    decreases |b|
  {
    if b != [] {
      ExecKeepsPc(Exec(m, b[0]), b[1..]);
    }
  }

  lemma ExecOneIgnoresPc(m: Machine, i: Instr, pc: nat)
    requires !Traps(m, i)
    ensures !Traps(m.(pc := pc), i) && Exec(m.(pc := pc), i) == Exec(m, i).(pc := pc)
  {
    hide Apply, Quotient, Wrap, Fits;
  }

  lemma {:induction false} ExecIgnoresPc(m: Machine, b: seq<Instr>, pc: nat)
    requires Safe(m, b)
    ensures Safe(m.(pc := pc), b) && ExecAll(m.(pc := pc), b) == ExecAll(m, b).(pc := pc)
    decreases |b|
  {
    if b != [] {
      ExecOneIgnoresPc(m, b[0], pc);
      ExecIgnoresPc(Exec(m, b[0]), b[1..], pc);
    }
  }

  lemma {:induction false} ExecAppend(m: Machine, a: seq<Instr>, b: seq<Instr>)
    requires Safe(m, a) && Safe(ExecAll(m, a), b)
    ensures Safe(m, a + b) && ExecAll(m, a + b) == ExecAll(ExecAll(m, a), b)
    decreases |a|
  {
    if a == [] {
      assert a + b == b;
    } else {
      ExecAppend(Exec(m, a[0]), a[1..], b);
      assert (a + b)[1..] == a[1..] + b;
    }
  }

  predicate HasAt(p: seq<Instr>, pc: nat, b: seq<Instr>) {
    pc + |b| <= |p| && p[pc..pc + |b|] == b
  }

  /** A block without jumps that does not trap runs to its end. */
  lemma {:induction false} RunBlock(p: seq<Instr>, m: Machine, b: seq<Instr>)
    requires HasAt(p, m.pc, b) && Straight(b) && Safe(m, b)
    ensures Reaches(p, m, |b|, ExecAll(m, b).(pc := m.pc + |b|))
    decreases |b|
  {
    if b == [] {
    } else {
      assert p[m.pc] == p[m.pc..m.pc + |b|][0] == b[0] && b[0] in b;
      var m1 := Exec(m, b[0]).(pc := m.pc + 1);
      assert CanStep(p, m) && Step1(p, m) == m1;
      assert p[m.pc + 1..m.pc + |b|] == p[m.pc..m.pc + |b|][1..] == b[1..];
      ExecKeepsPc(Exec(m, b[0]), b[1..]);
      ExecIgnoresPc(Exec(m, b[0]), b[1..], m.pc + 1);
      RunBlock(p, m1, b[1..]);
    }
  }
}
