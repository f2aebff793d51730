/** What the generator emits, opcode by opcode, where the virtual stack is so deep that every pop reloads
    and every push spills; and where the frame has what. */
module EmissionLaws {
  import opened Bytecode
  import opened X86
  import opened CodeGen
  import opened Section65

  /** Behind the six argument registers and the five saved ones lie the local variables, and behind those
      the spilled values. */
  lemma FrameLayout(maxLocals: nat, n: nat)
    ensures LOCAL_VARS + n == 11 + n && JavaStack(maxLocals) == 11 + maxLocals
  {}

  /** The first push that spills is the one to depth five, and the first pop that reloads the one from
      depth six. */
  lemma FirstSpill(ml: nat, top: nat)
    ensures top <= 3 ==> Push(ml, top) == []
    ensures top == 4 ==> Push(ml, top) == [StoreSlot(Win(0), 11 + ml + 5)]
    ensures 1 <= top <= 5 ==> Pop(ml, top) == []
    ensures top == 6 ==> Pop(ml, top) == [LoadSlot(11 + ml + 5, Win(0))]
  {}

  /** The register of a depth, and the slot it is spilled to and reloaded from. */
  function R(d: nat): Reg { Win(d % 5) }

  function Spill(ml: nat, d: nat): Instr { StoreSlot(R(d), 11 + ml + d) }

  function Reload(ml: nat, d: nat): Instr { LoadSlot(11 + ml + d, R(d)) }

  lemma DeepPushAndPop(ml: nat, top: nat)
    requires top >= 6
    ensures Push(ml, top) == [Spill(ml, top + 1)] && Pop(ml, top) == [Reload(ml, top - 1)]
    ensures RegAt(top) == R(top)
  {}

  ghost predicate Emits(code: seq<Byte>, ml: nat, p: Pass, instructions: seq<Instr>) {
    Poppable(code, p) && Emit(code, ml, p) == instructions
  }

  /** Constants, loads and stores. */
  lemma MoveEmission(code: seq<Byte>, ml: nat, p: Pass)
    requires p.top >= 7
    ensures var d := p.top;
      && (Has(code, p.k, {2}, 1) ==> Emits(code, ml, p, [MovImm(-1, R(d)), Spill(ml, d + 1)]))
      && (Has(code, p.k, {3, 9}, 1) ==> Emits(code, ml, p, [MovImm(0, R(d)), Spill(ml, d + 1)]))
      && (Has(code, p.k, {4, 10}, 1) ==> Emits(code, ml, p, [MovImm(1, R(d)), Spill(ml, d + 1)]))
      && (Has(code, p.k, {8}, 1) ==> Emits(code, ml, p, [MovImm(5, R(d)), Spill(ml, d + 1)]))
      && (Has(code, p.k, {17}, 3) ==> Emits(code, ml, p, [MovImm(TwoBytes(code, p.k + 1), R(d)), Spill(ml, d + 1)]))
      && (Has(code, p.k, {21, 22, 25}, 2) ==> Emits(code, ml, p, [LoadSlot(11 + (code[p.k + 1] as int), R(d)), Spill(ml, d + 1)]))
      && (Has(code, p.k, {27, 31, 43}, 1) ==> Emits(code, ml, p, [LoadSlot(12, R(d)), Spill(ml, d + 1)]))
      && (Has(code, p.k, {54, 55, 58}, 2) ==>
            Emits(code, ml, p, [Reload(ml, d - 1), StoreSlot(R(d - 1), 11 + (code[p.k + 1] as int))]))
      && (Has(code, p.k, {60, 64, 76}, 1) ==> Emits(code, ml, p, [Reload(ml, d - 1), StoreSlot(R(d - 1), 12)]))
  {
    DeepPushAndPop(ml, p.top);
    DeepPushAndPop(ml, p.top - 1);
    hide Push, Pop, RegAt, R;
  }

  /** dup pops, pushes, copies and pushes. */
  lemma DupEmission(code: seq<Byte>, ml: nat, p: Pass)
    requires p.top >= 7 && Has(code, p.k, {89}, 1)
    ensures var d := p.top;
      Emits(code, ml, p, [Reload(ml, d - 1), Spill(ml, d), MovReg(R(d - 1), R(d)), Spill(ml, d + 1)])
  {
    DeepPushAndPop(ml, p.top);
    DeepPushAndPop(ml, p.top - 1);
    hide Push, Pop, RegAt, R;
  }

  /** Both operands are reloaded; then the result is spilled in front of the addition, subtraction or
      multiplication, */
  lemma ArithmeticEmission(code: seq<Byte>, ml: nat, p: Pass)
    requires p.top >= 8
    ensures var d := p.top; var pops := [Reload(ml, d - 1), Reload(ml, d - 2)]; var x, y := R(d - 2), R(d - 1);
      && (Has(code, p.k, {96, 97}, 1) ==> Emits(code, ml, p, pops + [Spill(ml, d - 1), Arith(Add, y, x)]))
      && (Has(code, p.k, {100, 101}, 1) ==> Emits(code, ml, p, pops + [Spill(ml, d - 1), Arith(Sub, y, x)]))
      && (Has(code, p.k, {104, 105}, 1) ==> Emits(code, ml, p, pops + [Spill(ml, d - 1), Arith(Mul, y, x)]))
  {
    DeepPushAndPop(ml, p.top);
    DeepPushAndPop(ml, p.top - 1);
    DeepPushAndPop(ml, p.top - 2);
    hide Push, Pop, RegAt, R;
  }

  /** and behind the bitwise operations. */
  lemma LogicEmission(code: seq<Byte>, ml: nat, p: Pass)
    requires p.top >= 8
    ensures var d := p.top; var pops := [Reload(ml, d - 1), Reload(ml, d - 2)]; var x, y := R(d - 2), R(d - 1);
      && (Has(code, p.k, {126, 127}, 1) ==> Emits(code, ml, p, pops + [Arith(And, y, x), Spill(ml, d - 1)]))
      && (Has(code, p.k, {128, 129}, 1) ==>
            Emits(code, ml, p, pops + [Arith(Or, y, x), MovReg(x, y), Spill(ml, d - 1)]))
      && (Has(code, p.k, {130, 131}, 1) ==> Emits(code, ml, p, pops + [Arith(Xor, y, x), Spill(ml, d - 1)]))
  {
    DeepPushAndPop(ml, p.top);
    DeepPushAndPop(ml, p.top - 1);
    DeepPushAndPop(ml, p.top - 2);
    hide Push, Pop, RegAt, R;
  }

  lemma DivideAndNegateEmission(code: seq<Byte>, ml: nat, p: Pass)
    requires p.top >= 8
    ensures var d := p.top; var pops := [Reload(ml, d - 1), Reload(ml, d - 2)]; var x, y := R(d - 2), R(d - 1);
      && (Has(code, p.k, {109}, 1) ==>
            Emits(code, ml, p, pops + [Spill(ml, d - 1), MovReg(x, Rax), Cqto, Idiv(y), MovReg(Rax, y), MovReg(Rax, x)]))
      && (Has(code, p.k, {116}, 1) ==> Emits(code, ml, p, [Reload(ml, d - 1), NegReg(y), Spill(ml, d)]))
  {
    DeepPushAndPop(ml, p.top);
    DeepPushAndPop(ml, p.top - 1);
    DeepPushAndPop(ml, p.top - 2);
    hide Push, Pop, RegAt, R;
  }

  /** lcmp, with its three labels numbered by the comparisons so far. */
  lemma CompareEmission(code: seq<Byte>, ml: nat, p: Pass)
    requires p.top >= 8 && Has(code, p.k, {148}, 1)
    ensures var d, c := p.top, p.cmps + 1; var x, y := R(d - 2), R(d - 1);
      Emits(code, ml, p, [Reload(ml, d - 1), Reload(ml, d - 2), CmpReg(y, x), Jcc(Cond.Ne, Name.Ne(c)),
                          Label(Name.Eq(c)), MovImm(0, x), Jmp(End(c)),
                          Label(Name.Ne(c)), MovImm(1, x), Label(End(c)), Spill(ml, d - 1)])
  {
    DeepPushAndPop(ml, p.top);
    DeepPushAndPop(ml, p.top - 1);
    DeepPushAndPop(ml, p.top - 2);
    hide Push, Pop, RegAt, R;
  }

  /** The label that a branch with a two-byte offset names: that of the offset plus the position, as far as
      this is a position in the code. */
  predicate Names(code: seq<Byte>, k: nat, l: Name)
    requires k + 3 <= |code|
  {
    var target := k + TwoBytes(code, k + 1);
    0 <= target < 65536 ==> l == Offset(target)
  }

  lemma TargetIsNamed(code: seq<Byte>, k: nat)
    requires k + 3 <= |code| && k < 65536
    ensures Names(code, k, BranchName(code, k))
  {
    var u := 256 * (code[k + 1] as int) + code[k + 2] as int;
    assert U2(code, k + 1) == u;
    if u + k >= 65536 {
      assert (u + k) % 65536 == u + k - 65536;
    }
  }

  ghost predicate BranchesWith(code: seq<Byte>, ml: nat, p: Pass, comparison: seq<Instr>, c: Cond) {
    && Poppable(code, p) && p.k + 3 <= |code| && |Emit(code, ml, p)| == |comparison| + 1
    && Emit(code, ml, p)[..|comparison|] == comparison
    && var jump := Emit(code, ml, p)[|comparison|]; jump.Jcc? && jump.c == c && Names(code, p.k, jump.l)
  }

  /** ifeq is je, ifne jne, iflt jl, ifge jge, ifgt jg and ifle jle, behind a comparison with zero. */
  lemma ZeroBranchEmission(code: seq<Byte>, ml: nat, p: Pass)
    requires p.top >= 7 && p.k < 65536
    ensures var d := p.top; var c := [Reload(ml, d - 1), CmpImm(0, R(d - 1))];
      && (Has(code, p.k, {153}, 3) ==> BranchesWith(code, ml, p, c, Cond.Eq))
      && (Has(code, p.k, {154}, 3) ==> BranchesWith(code, ml, p, c, Cond.Ne))
      && (Has(code, p.k, {155}, 3) ==> BranchesWith(code, ml, p, c, Lt))
      && (Has(code, p.k, {156}, 3) ==> BranchesWith(code, ml, p, c, Ge))
      && (Has(code, p.k, {157}, 3) ==> BranchesWith(code, ml, p, c, Gt))
      && (Has(code, p.k, {158}, 3) ==> BranchesWith(code, ml, p, c, Le))
  {
    DeepPushAndPop(ml, p.top);
    DeepPushAndPop(ml, p.top - 1);
    hide Push, Pop, RegAt, R, Names, BranchName;
    if p.k + 3 <= |code| {
      TargetIsNamed(code, p.k);
    }
  }

  /** The same behind a comparison of two operands. */
  lemma CompareBranchEmission(code: seq<Byte>, ml: nat, p: Pass)
    requires p.top >= 8 && p.k < 65536
    ensures var d := p.top; var c := [Reload(ml, d - 1), Reload(ml, d - 2), CmpReg(R(d - 1), R(d - 2))];
      && (Has(code, p.k, {159}, 3) ==> BranchesWith(code, ml, p, c, Cond.Eq))
      && (Has(code, p.k, {160}, 3) ==> BranchesWith(code, ml, p, c, Cond.Ne))
      && (Has(code, p.k, {161}, 3) ==> BranchesWith(code, ml, p, c, Lt))
      && (Has(code, p.k, {162}, 3) ==> BranchesWith(code, ml, p, c, Ge))
      && (Has(code, p.k, {163}, 3) ==> BranchesWith(code, ml, p, c, Gt))
      && (Has(code, p.k, {164}, 3) ==> BranchesWith(code, ml, p, c, Le))
  {
    DeepPushAndPop(ml, p.top);
    DeepPushAndPop(ml, p.top - 1);
    DeepPushAndPop(ml, p.top - 2);
    hide Push, Pop, RegAt, R, Names, BranchName;
    if p.k + 3 <= |code| {
      TargetIsNamed(code, p.k);
    }
  }

  // ---------------------------------------------------------------- other opcodes

  predicate EmitsNothing(code: seq<Byte>, k: nat)
    requires Complete(code, k)
  {
    Decode(code, k) == NotImplemented
  }

  predicate EmitsUnmodelled(code: seq<Byte>, k: nat)
    requires Complete(code, k)
  {
    Decode(code, k) == Unsupported
  }

  /** The opcodes of the modelled subset. */
  predicate IsModelled(op: Byte) {
    || 2 <= op <= 10 || op in {16, 17, 21, 22, 25, 54, 55, 58, 89, 109, 116, 148, 167, 177, 200}
    || 26 <= op <= 33 || 42 <= op <= 45 || 59 <= op <= 66 || 75 <= op <= 78
    || op in {96, 97, 100, 101, 104, 105} || 126 <= op <= 131 || 153 <= op <= 164
  }

  lemma KindByOpcode(code: seq<Byte>, k: nat)
    requires Complete(code, k)
    ensures EmitsNothing(code, k) <==> !IsModelled(code[k]) && !EmitsOtherCode(code[k])
    ensures EmitsUnmodelled(code, k) <==> !IsModelled(code[k]) && EmitsOtherCode(code[k])
  {
    hide EmitsOtherCode, CondOf, S2, S4, Signed;
  }

  /** The opcodes for which nothing is emitted, and those for which code is emitted that is not modelled,
      among the constants, loads and stores; */
  lemma LoadStoreOpcodes(code: seq<Byte>, k: nat)
    requires Complete(code, k) && 0 <= code[k] <= 66
    ensures EmitsNothing(code, k) <==> (code[k] as int in
            {0, 1, 23, 34, 35, 36, 37, 50, 56})
    ensures EmitsUnmodelled(code, k) <==> (code[k] as int in
            {11, 12, 13, 14, 15, 18, 19, 20, 24, 38, 39, 40, 41, 46, 47, 48, 49, 51, 52, 53, 57})
  {
    KindByOpcode(code, k);
    hide EmitsNothing, EmitsUnmodelled;
  }

  /** among the array stores and stack instructions; */
  lemma StackOpcodes(code: seq<Byte>, k: nat)
    requires Complete(code, k) && 67 <= code[k] <= 95
    ensures EmitsNothing(code, k) <==> (code[k] as int in
            {67, 68, 69, 70, 83, 87, 88, 90, 91, 92, 93, 94, 95})
    ensures EmitsUnmodelled(code, k) <==> (code[k] as int in
            {71, 72, 73, 74, 79, 80, 81, 82, 84, 85, 86})
  {
    KindByOpcode(code, k);
    hide EmitsNothing, EmitsUnmodelled;
  }

  /** among the arithmetic and logic instructions; */
  lemma ArithmeticOpcodes(code: seq<Byte>, k: nat)
    requires Complete(code, k) && 96 <= code[k] <= 132
    ensures EmitsNothing(code, k) <==> (code[k] as int in
            {98, 102, 106, 108, 110, 112, 113, 114, 115, 117, 118, 121, 123, 125})
    ensures EmitsUnmodelled(code, k) <==> (code[k] as int in
            {99, 103, 107, 111, 119, 120, 122, 124, 132})
  {
    KindByOpcode(code, k);
    hide EmitsNothing, EmitsUnmodelled;
  }

  /** among the conversions, comparisons and branches; */
  lemma BranchOpcodes(code: seq<Byte>, k: nat)
    requires Complete(code, k) && 133 <= code[k] <= 168
    ensures EmitsNothing(code, k) <==> (code[k] as int in
            {133, 134, 135, 136, 137, 138, 139, 140, 141, 142, 143, 144, 145, 146, 147, 149, 150, 151, 152,
             165, 166, 168})
    ensures !EmitsUnmodelled(code, k)
  {
    KindByOpcode(code, k);
    hide EmitsNothing, EmitsUnmodelled;
  }

  /** and among the returns, calls and object instructions. */
  lemma ObjectOpcodes(code: seq<Byte>, k: nat)
    requires Complete(code, k) && 169 <= code[k] <= 201
    ensures EmitsNothing(code, k) <==> (code[k] as int in
            {169, 172, 173, 174, 175, 176, 180, 181, 183, 184, 185, 186, 187, 189, 191, 192, 193, 194, 195,
             197, 198, 199, 201})
    ensures EmitsUnmodelled(code, k) <==> (code[k] as int in
            {178, 179, 182, 188, 190})
  {
    KindByOpcode(code, k);
    hide EmitsNothing, EmitsUnmodelled;
  }
}
