/** The integer and long subset of JVM bytecode and its meaning on a machine whose operand stack and
    locals hold one 64-bit value per slot (JVM Specification, section 6.5, with int promoted to
    long as the code generator does). */
module Bytecode {
  const TWO_TO_THE_63: int := 0x8000_0000_0000_0000
  const TWO_TO_THE_64: int := 0x1_0000_0000_0000_0000
  const TWO_TO_THE_32: int := 0x1_0000_0000
  const TWO_TO_THE_16: int := 0x1_0000

  type Byte = b: int | 0 <= b < 256

  // ---------------------------------------------------------------- operands

  function U2(code: seq<Byte>, p: nat): int
    requires p + 2 <= |code|
  {
    256 * (code[p] as int) + code[p + 1] as int
  }

  function U4(code: seq<Byte>, p: nat): int
    requires p + 4 <= |code|
  {
    TWO_TO_THE_16 * U2(code, p) + U2(code, p + 2)
  }

  /** The signed value of an n-bit pattern, for 2 * half == 2^n. */
  function Signed(u: int, half: int): int { if u < half then u else u - 2 * half }

  function S2(code: seq<Byte>, p: nat): int
    requires p + 2 <= |code|
  {
    Signed(U2(code, p), 0x8000)
  }

  function S4(code: seq<Byte>, p: nat): int
    requires p + 4 <= |code|
  {
    Signed(U4(code, p), 0x8000_0000)
  }

  // ---------------------------------------------------------------- 64-bit arithmetic

  /** The 64-bit two's complement value congruent to x. */
  function Wrap(x: int): int { Signed(x % TWO_TO_THE_64, TWO_TO_THE_63) }

  predicate Fits(x: int) { -TWO_TO_THE_63 <= x < TWO_TO_THE_63 }

  function Bits(x: int): bv64 { (x % TWO_TO_THE_64) as bv64 }

  /** Division that truncates toward zero. */
  function Quotient(x: int, y: int): int
    requires y != 0
  {
    if (x >= 0) == (y > 0) then Abs(x) / Abs(y) else -(Abs(x) / Abs(y))
  }

  function Abs(x: int): nat { if x < 0 then -x else x }

  datatype BinOp = Add | Sub | Mul | And | Or | Xor | Div

  function Apply(op: BinOp, x: int, y: int): int
    requires op.Div? ==> y != 0
  {
    match op
    case Add => Wrap(x + y)
    case Sub => Wrap(x - y)
    case Mul => Wrap(x * y)
    case And => Wrap((Bits(x) & Bits(y)) as int)
    case Or => Wrap((Bits(x) | Bits(y)) as int)
    case Xor => Wrap((Bits(x) ^ Bits(y)) as int)
    case Div => Wrap(Quotient(x, y))
  }

  datatype Cond = Eq | Ne | Lt | Ge | Gt | Le

  predicate Holds(c: Cond, x: int, y: int) {
    match c
    case Eq => x == y
    case Ne => x != y
    case Lt => x < y
    case Ge => x >= y
    case Gt => x > y
    case Le => x <= y
  }

  /** The six comparisons, in opcode order from ifeq and from if_icmpeq. */
  function CondOf(offset: int): Cond
    requires 0 <= offset < 6
  {
    [Eq, Ne, Lt, Ge, Gt, Le][offset]
  }

  // ---------------------------------------------------------------- instructions

  /** Instructions, with branch targets as absolute offsets. */
  datatype Insn =
    | Const(v: int)
    | Load(n: nat)
    | Store(n: nat)
    | Dup
    | Bin(op: BinOp)
    | Neg
    | Lcmp
    | IfZero(c: Cond, target: int)
    | IfCmp(c: Cond, target: int)
    | Goto(target: int)
    | Return
    | NotImplemented   // for which the generator emits nothing
    | Unsupported      // for which it emits code that is not modelled

  /** The bytes that have an entry in the tables of bytecodes, those of class files and those that the
      virtual machine these tables come from uses internally. */
  const NUMBER_OF_CODES: int := 239

  /** The length of an instruction: that of its format, 0 for the instructions of variable length. */
  function Length(op: Byte): nat {
    if op >= NUMBER_OF_CODES then 0
    else if op in {16, 18, 21, 22, 23, 24, 25, 54, 55, 56, 57, 58, 169, 188, 224, 230, 237} then 2
    else if op in {17, 19, 20, 132, 187, 189, 192, 193, 198, 199, 226, 227, 231} || 153 <= op <= 168
            || 178 <= op <= 184 || 203 <= op <= 219 || 233 <= op <= 235 then 3
    else if op in {197, 221, 222, 223, 225} then 4
    else if op in {185, 186, 200, 201} then 5
    else if op in {170, 171, 196, 202, 228, 229} then 0
    else 1
  }

  /** The bytes outside the modelled subset for which the generator emits code: floating-point
      constants, loads, stores and arithmetic, ldc, array access, ishl, ishr, iushr, iinc, the
      switches, getstatic, putstatic, invokevirtual, newarray and arraylength. */
  predicate EmitsOtherCode(op: Byte) {
    || 11 <= op <= 15 || 18 <= op <= 20 || op == 24 || 38 <= op <= 41 || 46 <= op <= 49 || 51 <= op <= 53
    || op == 57 || 71 <= op <= 74 || 79 <= op <= 82 || 84 <= op <= 86
    || op in {99, 103, 107, 111, 119, 120, 122, 124, 132, 170, 171, 178, 179, 182, 188, 190}
    || op >= NUMBER_OF_CODES
  }

  predicate Complete(code: seq<Byte>, k: nat) {
    k < |code| && Length(code[k]) > 0 && k + Length(code[k]) <= |code|
  }

  function Decode(code: seq<Byte>, k: nat): Insn
    requires Complete(code, k)
  {
    var op: int := code[k];
    if 2 <= op <= 8 then Const(op - 3)
    else if 9 <= op <= 10 then Const(op - 9)
    else if op == 16 then Const(Signed(code[k + 1], 128))
    else if op == 17 then Const(S2(code, k + 1))
    else if op in {21, 22, 25} then Load(code[k + 1])
    else if 26 <= op <= 29 then Load(op - 26)
    else if 30 <= op <= 33 then Load(op - 30)
    else if 42 <= op <= 45 then Load(op - 42)
    else if op in {54, 55, 58} then Store(code[k + 1])
    else if 59 <= op <= 62 then Store(op - 59)
    else if 63 <= op <= 66 then Store(op - 63)
    else if 75 <= op <= 78 then Store(op - 75)
    else if op == 89 then Dup
    else if op in {96, 97} then Bin(Add)
    else if op in {100, 101} then Bin(Sub)
    else if op in {104, 105} then Bin(Mul)
    else if op == 109 then Bin(Div)
    else if op == 116 then Neg
    else if op in {126, 127} then Bin(And)
    else if op in {128, 129} then Bin(Or)
    else if op in {130, 131} then Bin(Xor)
    else if op == 148 then Lcmp
    else if 153 <= op <= 158 then IfZero(CondOf(op - 153), k + S2(code, k + 1))
    else if 159 <= op <= 164 then IfCmp(CondOf(op - 159), k + S2(code, k + 1))
    else if op == 167 then Goto(k + S2(code, k + 1))
    else if op == 200 then Goto(k + S4(code, k + 1))
    else if op == 177 then Return
    else if EmitsOtherCode(op) then Unsupported
    else NotImplemented
  }

  // ---------------------------------------------------------------- the machine

  datatype State = State(pc: nat, stack: seq<int>, locals: seq<int>)

  /** What lcmp leaves on the stack: the specification has -1, 0 or 1; the generated code has 0 or 1. */
  datatype LcmpRule = Specified | Generated

  function LcmpResult(r: LcmpRule, x: int, y: int): int {
    if x == y then 0 else if r.Specified? && x < y then -1 else 1
  }

  datatype Outcome = Running(s: State) | Finished(locals: seq<int>) | Stuck

  function Goes(s: State, target: int): Outcome {
    if target >= 0 then Running(s.(pc := target)) else Stuck
  }

  /** What an instruction does to the state; next is the offset of the one behind it. Stuck is an
      exception, a missing operand or an unsupported instruction. */
  function Perform(i: Insn, next: nat, r: LcmpRule, s: State): Outcome {
    var d := |s.stack|;
    match i
    case Const(v) => Running(s.(pc := next, stack := s.stack + [v]))
    case Load(n) =>
      if n < |s.locals| then Running(s.(pc := next, stack := s.stack + [s.locals[n]])) else Stuck
    case Store(n) =>
      if n < |s.locals| && d >= 1 then
        Running(State(next, s.stack[..d - 1], s.locals[n := s.stack[d - 1]]))
      else Stuck
    case Dup => if d >= 1 then Running(s.(pc := next, stack := s.stack + [s.stack[d - 1]])) else Stuck
    case Bin(op) =>
      if d >= 2 && (op.Div? ==> s.stack[d - 1] != 0) then
        Running(s.(pc := next, stack := s.stack[..d - 2] + [Apply(op, s.stack[d - 2], s.stack[d - 1])]))
      else Stuck
    case Neg =>
      if d >= 1 then Running(s.(pc := next, stack := s.stack[..d - 1] + [Wrap(-s.stack[d - 1])])) else Stuck
    case Lcmp =>
      if d >= 2 then
        Running(s.(pc := next, stack := s.stack[..d - 2] + [LcmpResult(r, s.stack[d - 2], s.stack[d - 1])]))
      else Stuck
    case IfZero(c, target) =>
      if d >= 1 then
        var t := s.(stack := s.stack[..d - 1]);
        if Holds(c, s.stack[d - 1], 0) then Goes(t, target) else Running(t.(pc := next))
      else Stuck
    case IfCmp(c, target) =>
      if d >= 2 then
        var t := s.(stack := s.stack[..d - 2]);
        if Holds(c, s.stack[d - 2], s.stack[d - 1]) then Goes(t, target) else Running(t.(pc := next))
      else Stuck
    case Goto(target) => Goes(s, target)
    case Return => Finished(s.locals)
    case NotImplemented => Stuck
    case Unsupported => Stuck
  }

  /** One instruction. */
  function Step(code: seq<Byte>, r: LcmpRule, s: State): Outcome {
    if Complete(code, s.pc) then Perform(Decode(code, s.pc), s.pc + Length(code[s.pc]), r, s) else Stuck
  }

  /** n instructions. */
  function Run(code: seq<Byte>, r: LcmpRule, s: State, n: nat): Outcome
    decreases n
  {
    if n == 0 then Running(s)
    else
      match Step(code, r, s)
      case Running(t) => Run(code, r, t, n - 1)
      case o => if n == 1 then o else Stuck
  }
}
