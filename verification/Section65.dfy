/** The bytecode machine follows section 6.5 of the JVM Specification, opcode by opcode. The laws speak of
    opcode numbers, bytes and integers only, so that they say which instruction an opcode is; int values
    are kept in 64 bits, as the generator keeps them. */
module Section65 {
  import opened Bytecode

  /** The instruction at pc is this opcode with its operand bytes. */
  predicate Has(code: seq<Byte>, pc: nat, opcodes: set<int>, length: nat) {
    pc + length <= |code| && length > 0 && code[pc] as int in opcodes
  }

  /** w is the 64-bit value congruent to x. */
  predicate IsValueOf(w: int, x: int) {
    -0x8000_0000_0000_0000 <= w < 0x8000_0000_0000_0000 && (x - w) % 0x1_0000_0000_0000_0000 == 0
  }

  /** The signed number of two and of four bytes. */
  function TwoBytes(code: seq<Byte>, p: nat): int
    requires p + 2 <= |code|
  {
    var u := 256 * (code[p] as int) + code[p + 1] as int;
    if code[p] >= 128 then u - 65536 else u
  }

  function FourBytes(code: seq<Byte>, p: nat): int
    requires p + 4 <= |code|
  {
    var u := 16777216 * (code[p] as int) + 65536 * (code[p + 1] as int) + 256 * (code[p + 2] as int) + code[p + 3] as int;
    if code[p] >= 128 then u - 4294967296 else u
  }

  predicate Leaves(code: seq<Byte>, r: LcmpRule, s: State, length: nat, stack: seq<int>) {
    Step(code, r, s) == Running(State(s.pc + length, stack, s.locals))
  }

  // ---------------------------------------------------------------- constants, loads and stores

  lemma ConstantLaws(code: seq<Byte>, r: LcmpRule, s: State)
    ensures Has(code, s.pc, {2}, 1) ==> Leaves(code, r, s, 1, s.stack + [-1])                // iconst_m1
    ensures Has(code, s.pc, {3, 9}, 1) ==> Leaves(code, r, s, 1, s.stack + [0])              // iconst_0, lconst_0
    ensures Has(code, s.pc, {4, 10}, 1) ==> Leaves(code, r, s, 1, s.stack + [1])             // iconst_1, lconst_1
    ensures Has(code, s.pc, {5}, 1) ==> Leaves(code, r, s, 1, s.stack + [2])
    ensures Has(code, s.pc, {6}, 1) ==> Leaves(code, r, s, 1, s.stack + [3])
    ensures Has(code, s.pc, {7}, 1) ==> Leaves(code, r, s, 1, s.stack + [4])
    ensures Has(code, s.pc, {8}, 1) ==> Leaves(code, r, s, 1, s.stack + [5])                 // iconst_5
    ensures Has(code, s.pc, {16}, 2) ==>                                                     // bipush
      var b: int := code[s.pc + 1]; Leaves(code, r, s, 2, s.stack + [if b >= 128 then b - 256 else b])
    ensures Has(code, s.pc, {17}, 3) ==> Leaves(code, r, s, 3, s.stack + [TwoBytes(code, s.pc + 1)])   // sipush
  {}

  /** The local variable with this index is pushed, if there is one. */
  predicate Loads(code: seq<Byte>, r: LcmpRule, s: State, length: nat, n: nat) {
    if n < |s.locals| then Leaves(code, r, s, length, s.stack + [s.locals[n]]) else Step(code, r, s) == Stuck
  }

  lemma LoadLaws(code: seq<Byte>, r: LcmpRule, s: State)
    ensures Has(code, s.pc, {21, 22, 25}, 2) ==> Loads(code, r, s, 2, code[s.pc + 1])        // iload, lload, aload
    ensures Has(code, s.pc, {26, 30, 42}, 1) ==> Loads(code, r, s, 1, 0)                     // iload_0, lload_0, aload_0
    ensures Has(code, s.pc, {27, 31, 43}, 1) ==> Loads(code, r, s, 1, 1)
    ensures Has(code, s.pc, {28, 32, 44}, 1) ==> Loads(code, r, s, 1, 2)
    ensures Has(code, s.pc, {29, 33, 45}, 1) ==> Loads(code, r, s, 1, 3)
  {}

  /** The top is popped into the local variable with this index, if there are such. */
  predicate Stores(code: seq<Byte>, r: LcmpRule, s: State, length: nat, n: nat) {
    var d := |s.stack|;
    if n < |s.locals| && d >= 1
    then Step(code, r, s) == Running(State(s.pc + length, s.stack[..d - 1], s.locals[n := s.stack[d - 1]]))
    else Step(code, r, s) == Stuck
  }

  lemma StoreLaws(code: seq<Byte>, r: LcmpRule, s: State)
    ensures Has(code, s.pc, {54, 55, 58}, 2) ==> Stores(code, r, s, 2, code[s.pc + 1])       // istore, lstore, astore
    ensures Has(code, s.pc, {59, 63, 75}, 1) ==> Stores(code, r, s, 1, 0)                    // istore_0, lstore_0, astore_0
    ensures Has(code, s.pc, {60, 64, 76}, 1) ==> Stores(code, r, s, 1, 1)
    ensures Has(code, s.pc, {61, 65, 77}, 1) ==> Stores(code, r, s, 1, 2)
    ensures Has(code, s.pc, {62, 66, 78}, 1) ==> Stores(code, r, s, 1, 3)
  {}

  // ---------------------------------------------------------------- arithmetic

  lemma WrapIsValue(x: int)
    ensures IsValueOf(Wrap(x), x)
  {}

  /** Two operands are replaced by one value. */
  predicate Combines(code: seq<Byte>, r: LcmpRule, s: State, w: int) {
    |s.stack| >= 2 && Leaves(code, r, s, 1, s.stack[..|s.stack| - 2] + [w])
  }

  /** The value on top after the instruction. */
  function NewTop(code: seq<Byte>, r: LcmpRule, s: State): int {
    match Step(code, r, s)
    case Running(t) => if t.stack == [] then 0 else t.stack[|t.stack| - 1]
    case _ => 0
  }

  lemma SumLaws(code: seq<Byte>, r: LcmpRule, s: State)
    requires |s.stack| >= 2
    ensures var d := |s.stack|; var x, y, w := s.stack[d - 2], s.stack[d - 1], NewTop(code, r, s);
      && (Has(code, s.pc, {96, 97}, 1) ==> Combines(code, r, s, w) && IsValueOf(w, x + y))    // iadd, ladd
      && (Has(code, s.pc, {100, 101}, 1) ==> Combines(code, r, s, w) && IsValueOf(w, x - y))  // isub, lsub
      && (Has(code, s.pc, {104, 105}, 1) ==> Combines(code, r, s, w) && IsValueOf(w, x * y))  // imul, lmul
  {
    var x, y := s.stack[|s.stack| - 2], s.stack[|s.stack| - 1];
    WrapIsValue(x + y);
    WrapIsValue(x - y);
    WrapIsValue(x * y);
    hide Wrap, IsValueOf;
  }

  lemma NegationLaw(code: seq<Byte>, r: LcmpRule, s: State)
    requires |s.stack| >= 1 && Has(code, s.pc, {116}, 1)                                     // ineg
    ensures var d, w := |s.stack|, NewTop(code, r, s);
      Leaves(code, r, s, 1, s.stack[..d - 1] + [w]) && IsValueOf(w, -s.stack[d - 1])
  {
    WrapIsValue(-s.stack[|s.stack| - 1]);
    hide Wrap, IsValueOf;
  }

  /** The quotient is truncated: the remainder is smaller than the divisor and not of the opposite sign of
      the dividend. */
  predicate IsQuotient(q: int, x: int, y: int) {
    var rest := x - y * q;
    && (y > 0 ==> -y < rest < y) && (y < 0 ==> y < rest < -y)
    && (rest > 0 ==> x > 0) && (rest < 0 ==> x < 0)
  }

  lemma SignedProducts(b: int, n: int)
    ensures b * -n == -(b * n) && -b * n == -(b * n) && -b * -n == b * n
  {}

  /** Division of absolute values, with the signs put back. */
  lemma SignedQuotients(a: int, b: int, n: int, p: int, rest: int)
    requires p == b * n && a == p + rest && 0 <= rest < b && p >= 0 && (a == 0 ==> n == 0)
    ensures IsQuotient(n, a, b) && IsQuotient(-n, -a, b) && IsQuotient(-n, a, -b) && IsQuotient(n, -a, -b)
    ensures a == 0 ==> IsQuotient(-n, a, b) && IsQuotient(n, a, -b)
  {
    SignedProducts(b, n);
  }

  lemma DivMod(a: int, b: int, n: int)
    requires a >= 0 && b > 0 && n == a / b
    ensures 0 <= a - b * n < b && b * n >= 0 && (a == 0 ==> n == 0)
  {
    assert a == b * n + a % b;
  }

  lemma QuotientIs(x: int, y: int)
    requires y != 0
    ensures IsQuotient(Quotient(x, y), x, y)
  {
    var a: int, b: int := Abs(x), Abs(y);
    var n: int := a / b;
    DivMod(a, b, n);
    SignedQuotients(a, b, n, b * n, a - b * n);
    hide IsQuotient;
    assert Quotient(x, y) == if (x >= 0) == (y > 0) then n else -n;
  }

  lemma DivisionLaw(code: seq<Byte>, r: LcmpRule, s: State)
    requires |s.stack| >= 2 && Has(code, s.pc, {109}, 1)                                     // ldiv
    ensures var d := |s.stack|; var x, y, w := s.stack[d - 2], s.stack[d - 1], NewTop(code, r, s);
      if y == 0 then Step(code, r, s) == Stuck
      else Combines(code, r, s, w) && exists q :: IsQuotient(q, x, y) && IsValueOf(w, q)
  {
    var x, y := s.stack[|s.stack| - 2], s.stack[|s.stack| - 1];
    if y != 0 {
      QuotientIs(x, y);
      WrapIsValue(Quotient(x, y));
      hide Wrap, IsValueOf, Quotient, IsQuotient;
      assert NewTop(code, r, s) == Wrap(Quotient(x, y));
    }
  }

  /** The 64 bits of the two's complement of x. */
  function Pattern(x: int): bv64 { (x % 0x1_0000_0000_0000_0000) as bv64 }

  lemma WrapModulo(u: int)
    requires 0 <= u < 0x1_0000_0000_0000_0000
    ensures Wrap(u) % 0x1_0000_0000_0000_0000 == u
  {}

  lemma PatternOfWrap(b: bv64)
    ensures Pattern(Wrap(b as int)) == b
  {
    hide Wrap;
    WrapModulo(b as int);
  }

  predicate IsAnd(w: int, x: int, y: int) { Pattern(w) == Pattern(x) & Pattern(y) }

  predicate IsOr(w: int, x: int, y: int) { Pattern(w) == Pattern(x) | Pattern(y) }

  predicate IsXor(w: int, x: int, y: int) { Pattern(w) == Pattern(x) ^ Pattern(y) }

  /** Each bit of the new value is that operator on the bits of the operands. */
  lemma BitLaws(code: seq<Byte>, r: LcmpRule, s: State)
    requires |s.stack| >= 2
    ensures var d := |s.stack|; var x, y, w := s.stack[d - 2], s.stack[d - 1], NewTop(code, r, s);
      && (Has(code, s.pc, {126, 127}, 1) ==> Combines(code, r, s, w) && IsAnd(w, x, y))      // iand, land
      && (Has(code, s.pc, {128, 129}, 1) ==> Combines(code, r, s, w) && IsOr(w, x, y))       // ior, lor
      && (Has(code, s.pc, {130, 131}, 1) ==> Combines(code, r, s, w) && IsXor(w, x, y))      // ixor, lxor
  {
    hide *;
    var x, y := s.stack[|s.stack| - 2], s.stack[|s.stack| - 1];
    OperatorsDecode(code, s.pc);
    AndPattern(x, y);
    OrPattern(x, y);
    XorPattern(x, y);
    if Has(code, s.pc, {126, 127}, 1) { BinSteps(code, r, s, And); }
    if Has(code, s.pc, {128, 129}, 1) { BinSteps(code, r, s, Or); }
    if Has(code, s.pc, {130, 131}, 1) { BinSteps(code, r, s, Xor); }
  }

  lemma OperatorsDecode(code: seq<Byte>, pc: nat)
    ensures Has(code, pc, {126, 127}, 1) ==> Complete(code, pc) && Length(code[pc]) == 1 && Decode(code, pc) == Bin(And)
    ensures Has(code, pc, {128, 129}, 1) ==> Complete(code, pc) && Length(code[pc]) == 1 && Decode(code, pc) == Bin(Or)
    ensures Has(code, pc, {130, 131}, 1) ==> Complete(code, pc) && Length(code[pc]) == 1 && Decode(code, pc) == Bin(Xor)
  {}

  lemma BinSteps(code: seq<Byte>, r: LcmpRule, s: State, op: BinOp)
    requires |s.stack| >= 2 && op in {And, Or, Xor}
    requires Complete(code, s.pc) && Length(code[s.pc]) == 1 && Decode(code, s.pc) == Bin(op)
    ensures var d, w := |s.stack|, NewTop(code, r, s);
      Combines(code, r, s, w) && w == Apply(op, s.stack[d - 2], s.stack[d - 1])
  {
    hide Decode, Length, Apply;
  }

  lemma BitsIs(x: int)
    ensures Bits(x) == Pattern(x)
  {}

  lemma AndPattern(x: int, y: int)
    ensures IsAnd(Apply(And, x, y), x, y)
  {
    BitsIs(x);
    BitsIs(y);
    PatternOfWrap(Bits(x) & Bits(y));
    hide Pattern, Wrap, Bits;
  }

  lemma OrPattern(x: int, y: int)
    ensures IsOr(Apply(Or, x, y), x, y)
  {
    BitsIs(x);
    BitsIs(y);
    PatternOfWrap(Bits(x) | Bits(y));
    hide Pattern, Wrap, Bits;
  }

  lemma XorPattern(x: int, y: int)
    ensures IsXor(Apply(Xor, x, y), x, y)
  {
    BitsIs(x);
    BitsIs(y);
    PatternOfWrap(Bits(x) ^ Bits(y));
    hide Pattern, Wrap, Bits;
  }

  lemma DupLaw(code: seq<Byte>, r: LcmpRule, s: State)
    requires |s.stack| >= 1 && Has(code, s.pc, {89}, 1)                                      // dup
    ensures Leaves(code, r, s, 1, s.stack + [s.stack[|s.stack| - 1]])
  {}

  lemma LcmpLaw(code: seq<Byte>, s: State)
    requires |s.stack| >= 2 && Has(code, s.pc, {148}, 1)                                     // lcmp
    ensures var x, y := s.stack[|s.stack| - 2], s.stack[|s.stack| - 1];
      Combines(code, Specified, s, if x > y then 1 else if x == y then 0 else -1)
  {}

  lemma ReturnLaw(code: seq<Byte>, r: LcmpRule, s: State)
    requires Has(code, s.pc, {177}, 1)                                                       // return
    ensures Step(code, r, s) == Finished(s.locals)
  {}

  /** What finds too few operands is stuck. */
  lemma TooFewOperands(code: seq<Byte>, r: LcmpRule, s: State)
    ensures |s.stack| < 1 && Has(code, s.pc, {89, 116}, 1) ==> Step(code, r, s) == Stuck
    ensures |s.stack| < 1 && Has(code, s.pc, {153, 154, 155, 156, 157, 158}, 3) ==> Step(code, r, s) == Stuck
    ensures |s.stack| < 2 && Has(code, s.pc, {159, 160, 161, 162, 163, 164}, 3) ==> Step(code, r, s) == Stuck
    ensures |s.stack| < 2 && Has(code, s.pc, {96, 97, 100, 101, 104, 105, 109, 126, 127, 128, 129, 130, 131, 148}, 1) ==>
      Step(code, r, s) == Stuck
  {}

  // ---------------------------------------------------------------- branches

  /** Without k operands: to pc plus the offset if the condition holds, and else behind the instruction. */
  predicate Branches(code: seq<Byte>, r: LcmpRule, s: State, k: nat, condition: bool) {
    && |s.stack| >= k && s.pc + 3 <= |code|
    && var target := s.pc + TwoBytes(code, s.pc + 1);
    && var rest := s.stack[..|s.stack| - k];
    && Step(code, r, s) ==
       if !condition then Running(State(s.pc + 3, rest, s.locals))
       else if target >= 0 then Running(State(target, rest, s.locals)) else Stuck
  }

  lemma ZeroBranchLaws(code: seq<Byte>, r: LcmpRule, s: State)
    requires |s.stack| >= 1
    ensures var x := s.stack[|s.stack| - 1];
      && (Has(code, s.pc, {153}, 3) ==> Branches(code, r, s, 1, x == 0))    // ifeq
      && (Has(code, s.pc, {154}, 3) ==> Branches(code, r, s, 1, x != 0))    // ifne
      && (Has(code, s.pc, {155}, 3) ==> Branches(code, r, s, 1, x < 0))     // iflt
      && (Has(code, s.pc, {156}, 3) ==> Branches(code, r, s, 1, x >= 0))    // ifge
      && (Has(code, s.pc, {157}, 3) ==> Branches(code, r, s, 1, x > 0))     // ifgt
      && (Has(code, s.pc, {158}, 3) ==> Branches(code, r, s, 1, x <= 0))    // ifle
  {}

  lemma CompareBranchLaws(code: seq<Byte>, r: LcmpRule, s: State)
    requires |s.stack| >= 2
    ensures var x, y := s.stack[|s.stack| - 2], s.stack[|s.stack| - 1];
      && (Has(code, s.pc, {159}, 3) ==> Branches(code, r, s, 2, x == y))    // if_icmpeq
      && (Has(code, s.pc, {160}, 3) ==> Branches(code, r, s, 2, x != y))    // if_icmpne
      && (Has(code, s.pc, {161}, 3) ==> Branches(code, r, s, 2, x < y))     // if_icmplt
      && (Has(code, s.pc, {162}, 3) ==> Branches(code, r, s, 2, x >= y))    // if_icmpge
      && (Has(code, s.pc, {163}, 3) ==> Branches(code, r, s, 2, x > y))     // if_icmpgt
      && (Has(code, s.pc, {164}, 3) ==> Branches(code, r, s, 2, x <= y))    // if_icmple
  {}

  lemma GotoLaws(code: seq<Byte>, r: LcmpRule, s: State)
    ensures Has(code, s.pc, {167}, 3) ==> Branches(code, r, s, 0, true)   // goto
    ensures Has(code, s.pc, {200}, 5) ==>                                                    // goto_w
      var target := s.pc + FourBytes(code, s.pc + 1);
      Step(code, r, s) == if target >= 0 then Running(State(target, s.stack, s.locals)) else Stuck
  {
    assert s.stack[..|s.stack|] == s.stack;
  }
}
