/** ByteCodeGen_X86_64: one linear pass that keeps the Java stack in a rotating window of registers. */
module CodeGen {
  import opened Bytecode
  import opened X86

  const MAX_ARGUMENT_REGS: int := 6
  const LOCAL_VARS: int := MAX_ARGUMENT_REGS + WINDOW     // _stackFrameLocalVars

  /** _stackFRameJavaStack */
  function JavaStack(maxLocals: nat): int { LOCAL_VARS + maxLocals }

  function RegAt(top: nat): Reg { Win(top % WINDOW) }

  // ---------------------------------------------------------------- what is emitted

  /** pushVirtualStack, when _top is top before. */
  function Push(maxLocals: nat, top: nat): seq<Instr> {
    if top + 1 >= WINDOW then [StoreSlot(RegAt(top + 1), JavaStack(maxLocals) + top + 1)] else []
  }

  /** popVirtualStack, when _top is top before. */
  function Pop(maxLocals: nat, top: nat): seq<Instr>
    requires top >= 1
  {
    if top - 1 >= WINDOW then [LoadSlot(JavaStack(maxLocals) + top - 1, RegAt(top - 1))] else []
  }

  /** What the pass has reached: the instruction offset, _top and cmpcount. */
  datatype Pass = Pass(k: nat, top: nat, cmps: nat)

  /** How many operands the code for an instruction pops. */
  function Pops(i: Insn): nat {
    match i
    case Store(_) => 1
    case Dup => 1
    case Bin(_) => 2
    case Neg => 1
    case Lcmp => 2
    case IfZero(_, _) => 1
    case IfCmp(_, _) => 2
    case _ => 0
  }

  function Pushes(i: Insn): nat {
    match i
    case Const(_) => 1
    case Load(_) => 1
    case Dup => 2
    case Bin(_) => 1
    case Neg => 1
    case Lcmp => 1
    case _ => 0
  }

  /** The instruction at p is complete, what is emitted for it is modelled, and its operands are on
      the virtual stack. */
  predicate Poppable(code: seq<Byte>, p: Pass) {
    Complete(code, p.k) && !Decode(code, p.k).Unsupported? && p.top >= Pops(Decode(code, p.k))
  }

  function Next(code: seq<Byte>, p: Pass): Pass
    requires Poppable(code, p)
  {
    var i := Decode(code, p.k);
    Pass(p.k + Length(code[p.k]), p.top - Pops(i) + Pushes(i), p.cmps + if i.Lcmp? then 1 else 0)
  }

  /** The 16-bit sum that names a branch target. */
  function BranchName(code: seq<Byte>, k: nat): Name
    requires k + 3 <= |code|
  {
    Offset((U2(code, k + 1) + k) % TWO_TO_THE_16)
  }

  function WideBranchName(code: seq<Byte>, k: nat): Name
    requires k + 5 <= |code|
  {
    Offset((U4(code, k + 1) + k) % TWO_TO_THE_32)
  }

  /** The comparison of lcmp: 0 for equal operands, 1 otherwise. */
  function LcmpBlock(p: Pass): seq<Instr>
    requires p.top >= 2
  {
    var arg1, arg2, c := RegAt(p.top - 1), RegAt(p.top - 2), p.cmps + 1;
    [CmpReg(arg1, arg2), Jcc(Cond.Ne, Name.Ne(c)),
     Label(Name.Eq(c)), MovImm(0, arg2), Jmp(End(c)),
     Label(Name.Ne(c)), MovImm(1, arg2), Label(End(c))]
  }

  /** The label an instruction would jump to. */
  function TargetName(code: seq<Byte>, k: nat): Name
    requires Complete(code, k)
  {
    if code[k] == 200 then WideBranchName(code, k)
    else if Length(code[k]) == 3 then BranchName(code, k)
    else Offset(k)
  }

  /** The code for an instruction, in the order in which codeGenOne emits it. */
  function CodeFor(i: Insn, target: Name, ml: nat, p: Pass): seq<Instr>
    requires p.top >= Pops(i)
  {
    var r := RegAt(p.top);
    match i
    case Const(v) => [MovImm(v, r)] + Push(ml, p.top)
    case Load(n) => [LoadSlot(LOCAL_VARS + n, r)] + Push(ml, p.top)
    case Store(n) => Pop(ml, p.top) + [StoreSlot(RegAt(p.top - 1), LOCAL_VARS + n)]
    case Dup =>
      Pop(ml, p.top) + Push(ml, p.top - 1) + [MovReg(RegAt(p.top - 1), r)] + Push(ml, p.top)
    case Bin(op) =>
      var arg1, arg2 := RegAt(p.top - 1), RegAt(p.top - 2);
      var pops := Pop(ml, p.top) + Pop(ml, p.top - 1);
      (match op
       case Div =>
         pops + Push(ml, p.top - 2) +
         [MovReg(arg2, Rax), Cqto, Idiv(arg1), MovReg(Rax, arg1), MovReg(Rax, arg2)]
       case And => pops + [Arith(op, arg1, arg2)] + Push(ml, p.top - 2)
       case Or => pops + [Arith(op, arg1, arg2), MovReg(arg2, arg1)] + Push(ml, p.top - 2)
       case Xor => pops + [Arith(op, arg1, arg2)] + Push(ml, p.top - 2)
       case _ => pops + Push(ml, p.top - 2) + [Arith(op, arg1, arg2)])
    case Neg => Pop(ml, p.top) + [NegReg(RegAt(p.top - 1))] + Push(ml, p.top - 1)
    case Lcmp =>
      Pop(ml, p.top) + Pop(ml, p.top - 1) + LcmpBlock(p) + Push(ml, p.top - 2)
    case IfZero(c, _) => Pop(ml, p.top) + [CmpImm(0, RegAt(p.top - 1)), Jcc(c, target)]
    case IfCmp(c, _) =>
      Pop(ml, p.top) + Pop(ml, p.top - 1) + [CmpReg(RegAt(p.top - 1), RegAt(p.top - 2)), Jcc(c, target)]
    case Goto(_) => [Jmp(target)]
    case Return => [Ret]
    case NotImplemented => []
    case Unsupported => []
  }

  /** What codeGenOne emits for the instruction at p. */
  function Emit(code: seq<Byte>, maxLocals: nat, p: Pass): seq<Instr>
    requires Poppable(code, p)
  {
    CodeFor(Decode(code, p.k), TargetName(code, p.k), maxLocals, p)
  }

  /** The pass can walk over the code: every instruction it meets has a positive length, is complete
      and finds its operands in the virtual stack. */
  ghost predicate Walkable(code: seq<Byte>, p: Pass)
    decreases |code| - p.k
  {
    p.k < |code| ==> Poppable(code, p) && Walkable(code, Next(code, p))
  }

  /** Every instruction that the walk meets from offset k on has a positive length, so that the walk
      goes on. */
  ghost predicate Advances(code: seq<Byte>, k: nat)
    decreases |code| - k
  {
    k < |code| ==> Length(code[k]) > 0 && Advances(code, k + Length(code[k]))
  }

  /** Every instruction that the pass meets, as long as it goes on, is one it can emit code for. */
  ghost predicate Supplied(code: seq<Byte>, p: Pass)
    decreases |code| - p.k
  {
    p.k < |code| && Length(code[p.k]) > 0 ==> Poppable(code, p) && Supplied(code, Next(code, p))
  }

  lemma {:induction false} WalkableExactly(code: seq<Byte>, p: Pass)
    ensures Walkable(code, p) <==> Advances(code, p.k) && Supplied(code, p)
    decreases |code| - p.k
  {
    hide Decode, Length;
    if p.k < |code| && Poppable(code, p) {
      WalkableExactly(code, Next(code, p));
    }
  }

  /** The output of the pass from p on. */
  function Gen(code: seq<Byte>, maxLocals: nat, p: Pass): seq<Instr>
    requires Walkable(code, p)
    decreases |code| - p.k
  {
    if p.k >= |code| then []
    else [Label(Offset(p.k))] + Emit(code, maxLocals, p) + Gen(code, maxLocals, Next(code, p))
  }

  // ---------------------------------------------------------------- switches

  /** A 32-bit signed result, as int arithmetic leaves it. */
  function Int32(x: int): int { Signed(x % TWO_TO_THE_32, 0x8000_0000) }

  /** Where the operands of a switch at k begin. */
  function Operands(k: nat): nat { k + 1 + (3 - k % 4) }

  /** numRows, computed in 32 bits. */
  function Rows(code: seq<Byte>, k: nat): int
    requires Operands(k) + 12 <= |code|
  {
    Int32(S4(code, Operands(k) + 8) - S4(code, Operands(k) + 4) + 1)
  }

  predicate TableReadable(code: seq<Byte>, k: nat) {
    Operands(k) + 12 <= |code| && Operands(k) + 12 + 4 * Rows(code, k) <= |code|
  }

  predicate PairsReadable(code: seq<Byte>, k: nat) {
    Operands(k) + 8 <= |code| && Operands(k) + 8 + 8 * S4(code, Operands(k) + 4) <= |code|
  }

  /** A compared value and the offset that is jumped to. */
  datatype Case = Case(value: int, target: int)

  function TableCase(code: seq<Byte>, k: nat, i: nat): Case
    requires TableReadable(code, k) && i < Rows(code, k)
  {
    Case(Int32(S4(code, Operands(k) + 4) + i), Int32(k + S4(code, Operands(k) + 12 + 4 * i)))
  }

  function TableCases(code: seq<Byte>, k: nat, n: nat): seq<Case>
    requires TableReadable(code, k) && (n == 0 || n <= Rows(code, k))
  {
    seq(n, i requires 0 <= i < n => TableCase(code, k, i))
  }

  function PairCase(code: seq<Byte>, k: nat, i: nat): Case
    requires PairsReadable(code, k) && i < S4(code, Operands(k) + 4)
  {
    Case(S4(code, Operands(k) + 8 + 8 * i), Int32(k + S4(code, Operands(k) + 12 + 8 * i)))
  }

  function PairCases(code: seq<Byte>, k: nat, n: nat): seq<Case>
    requires PairsReadable(code, k) && (n == 0 || n <= S4(code, Operands(k) + 4))
  {
    seq(n, i requires 0 <= i < n => PairCase(code, k, i))
  }

  function Nat(x: int): nat { if x < 0 then 0 else x }

  /** One comparison and one conditional jump for every case, in order. */
  function Comparisons(cases: seq<Case>, r: Reg): seq<Instr> {
    if cases == [] then []
    else [CmpImm(cases[0].value, r), Jcc(Cond.Eq, Offset(cases[0].target))] + Comparisons(cases[1..], r)
  }

  /** Where the pass ends. */
  function Final(code: seq<Byte>, p: Pass): Pass
    requires Walkable(code, p)
    decreases |code| - p.k
  {
    if p.k >= |code| then p else Final(code, Next(code, p))
  }

  lemma {:induction false} ComparisonsGrow(cases: seq<Case>, c: Case, r: Reg)
    ensures Comparisons(cases + [c], r) ==
            Comparisons(cases, r) + [CmpImm(c.value, r)] + [Jcc(Cond.Eq, Offset(c.target))]
  {
    if cases == [] {
      assert (cases + [c])[1..] == [];
    } else {
      assert (cases + [c])[1..] == cases[1..] + [c];
      ComparisonsGrow(cases[1..], c, r);
    }
  }

  /** The code for a switch: the comparisons, and the jump to the default. */
  function SwitchCode(maxLocals: nat, top: nat, cases: seq<Case>, default: int): seq<Instr>
    requires top >= 1
  {
    Pop(maxLocals, top) + Comparisons(cases, RegAt(top - 1)) + [Jmp(Offset(default))]
  }

  lemma Chain(a: seq<Instr>, b: seq<Instr>, c: seq<Instr>, d: seq<Instr>)
    ensures a + b + c + d == a + (b + c + d)
  {}

  // ---------------------------------------------------------------- the pass itself

  class ByteCodeGen {
    const code: seq<Byte>
    const maxLocals: nat
    var top: nat               // _top
    var cmpcount: nat
    var out: seq<Instr>        // _codeStrStream

    constructor (code: seq<Byte>, maxLocals: nat, cmpcount: nat)
      ensures this.code == code && this.maxLocals == maxLocals
      ensures top == 0 && this.cmpcount == cmpcount && out == []
    {
      this.code := code;
      this.maxLocals := maxLocals;
      top := 0;
      this.cmpcount := cmpcount;
      out := [];
    }

    function GetReg(): Reg
      reads this
    {
      RegAt(top)
    }

    method Append(i: Instr)
      modifies this`out
      ensures out == old(out) + [i]
    {
      out := out + [i];
    }

    method AppendAll(block: seq<Instr>)
      modifies this`out
      ensures out == old(out) + block
    {
      out := out + block;
    }

    /** pushVirtualStack */
    method PushVirtualStack()
      modifies this`out, this`top
      ensures top == old(top) + 1 && out == old(out) + Push(maxLocals, old(top))
    {
      top := top + 1;
      if top >= WINDOW {
        Append(StoreSlot(GetReg(), JavaStack(maxLocals) + top));
      }
    }

    /** popVirtualStack */
    method PopVirtualStack()
      requires top >= 1
      modifies this`out, this`top
      ensures top == old(top) - 1 && out == old(out) + Pop(maxLocals, old(top))
    {
      top := top - 1;
      if top >= WINDOW {
        Append(LoadSlot(JavaStack(maxLocals) + top, GetReg()));
      }
    }

    /** The pass stands at offset k. */
    function At(k: nat): Pass
      reads this
    {
      Pass(k, top, cmpcount)
    }

    /** movq of a constant, then a push: iconst, lconst, bipush, sipush. */
    method GenConst(k: nat)
      requires Complete(code, k) && (2 <= code[k] <= 10 || 16 <= code[k] <= 17)
      modifies this`out, this`top
      ensures out == old(out) + Emit(code, maxLocals, old(At(k))) && At(k).top == Next(code, old(At(k))).top
    {
      var op: int := code[k];
      var val;
      if op <= 8 {
        val := op - 3;
      } else if op <= 10 {
        val := op - 9;
      } else if op == 16 {
        val := Signed(code[k + 1], 128);
      } else {
        val := S2(code, k + 1);
      }
      Append(MovImm(val, GetReg()));
      PushVirtualStack();
    }

    /** iload, lload, aload, with the local in the operand or in the opcode. */
    method GenLoad(k: nat)
      requires Complete(code, k)
      requires code[k] in {21, 22, 25} || 26 <= code[k] <= 33 || 42 <= code[k] <= 45
      modifies this`out, this`top
      ensures out == old(out) + Emit(code, maxLocals, old(At(k))) && At(k).top == Next(code, old(At(k))).top
    {
      var op: int := code[k];
      var localvar: int;
      if op <= 25 {
        localvar := code[k + 1];
      } else if 30 <= op <= 33 {
        localvar := op - 30;
      } else {
        var base := if op >= 42 then 42 else 26;
        localvar := op - base;
      }
      Append(LoadSlot(LOCAL_VARS + localvar, GetReg()));
      PushVirtualStack();
    }

    /** istore, lstore, astore. */
    method GenStore(k: nat)
      requires Poppable(code, At(k))
      requires code[k] in {54, 55, 58} || 59 <= code[k] <= 66 || 75 <= code[k] <= 78
      modifies this`out, this`top
      ensures out == old(out) + Emit(code, maxLocals, old(At(k))) && At(k).top == Next(code, old(At(k))).top
    {
      hide Push, Pop;
      var op: int := code[k];
      PopVirtualStack();
      var localvar: int;
      if op <= 58 {
        localvar := code[k + 1];
      } else if 63 <= op <= 66 {
        localvar := op - 63;
      } else {
        var base := if op >= 75 then 75 else 59;
        localvar := op - base;
      }
      Append(StoreSlot(GetReg(), LOCAL_VARS + localvar));
    }

    /** dup */
    method GenDup(k: nat)
      requires Poppable(code, At(k)) && code[k] == 89
      modifies this`out, this`top
      ensures out == old(out) + Emit(code, maxLocals, old(At(k))) && At(k).top == Next(code, old(At(k))).top
    {
      hide Push, Pop;
      PopVirtualStack();
      var arg := GetReg();
      PushVirtualStack();
      Append(MovReg(arg, GetReg()));
      PushVirtualStack();
    }

    /** iadd, ladd, isub, lsub, imul, lmul, whose push comes before the operation. */
    method GenArith(k: nat)
      requires Poppable(code, At(k)) && code[k] in {96, 97, 100, 101, 104, 105}
      modifies this`out, this`top
      ensures out == old(out) + Emit(code, maxLocals, old(At(k))) && At(k).top == Next(code, old(At(k))).top
    {
      hide Push, Pop;
      PopVirtualStack();
      var arg1 := GetReg();
      PopVirtualStack();
      var arg2 := GetReg();
      PushVirtualStack();
      var op := if code[k] <= 97 then Add else if code[k] <= 101 then Sub else Mul;
      assert Decode(code, k) == Bin(op);
      Append(Arith(op, arg1, arg2));
    }

    /** ldiv */
    method GenDiv(k: nat)
      requires Poppable(code, At(k)) && code[k] == 109
      modifies this`out, this`top
      ensures out == old(out) + Emit(code, maxLocals, old(At(k))) && At(k).top == Next(code, old(At(k))).top
    {
      hide Push, Pop;
      PopVirtualStack();
      var arg1 := GetReg();
      PopVirtualStack();
      var arg2 := GetReg();
      PushVirtualStack();
      AppendAll([MovReg(arg2, Rax), Cqto, Idiv(arg1), MovReg(Rax, arg1), MovReg(Rax, arg2)]);
    }

    /** iand, land, ior, lor, ixor, lxor, whose push comes after the operation. */
    method GenLogic(k: nat)
      requires Poppable(code, At(k)) && 126 <= code[k] <= 131
      modifies this`out, this`top
      ensures out == old(out) + Emit(code, maxLocals, old(At(k))) && At(k).top == Next(code, old(At(k))).top
    {
      hide Push, Pop;
      PopVirtualStack();
      var arg1 := GetReg();
      PopVirtualStack();
      var arg2 := GetReg();
      if code[k] <= 127 {
        Append(Arith(And, arg1, arg2));
      } else if code[k] <= 129 {
        Append(Arith(Or, arg1, arg2));
        Append(MovReg(arg2, arg1));
      } else {
        Append(Arith(Xor, arg1, arg2));
      }
      PushVirtualStack();
    }

    /** ineg */
    method GenNeg(k: nat)
      requires Poppable(code, At(k)) && code[k] == 116
      modifies this`out, this`top
      ensures out == old(out) + Emit(code, maxLocals, old(At(k))) && At(k).top == Next(code, old(At(k))).top
    {
      hide Push, Pop;
      PopVirtualStack();
      Append(NegReg(GetReg()));
      PushVirtualStack();
    }

    /** lcmp */
    method GenLcmp(k: nat)
      requires Poppable(code, At(k)) && code[k] == 148
      modifies this`out, this`top, this`cmpcount
      ensures out == old(out) + Emit(code, maxLocals, old(At(k)))
      ensures top == Next(code, old(At(k))).top && cmpcount == Next(code, old(At(k))).cmps
    {
      hide Push, Pop;
      cmpcount := cmpcount + 1;
      PopVirtualStack();
      var arg1 := GetReg();
      PopVirtualStack();
      var arg2 := GetReg();
      AppendAll([CmpReg(arg1, arg2), Jcc(Cond.Ne, Name.Ne(cmpcount)),
                 Label(Name.Eq(cmpcount)), MovImm(0, arg2), Jmp(End(cmpcount)),
                 Label(Name.Ne(cmpcount)), MovImm(1, arg2), Label(End(cmpcount))]);
      PushVirtualStack();
    }

    /** ifeq ... ifle and if_icmpeq ... if_icmple */
    method GenIf(k: nat)
      requires Poppable(code, At(k)) && 153 <= code[k] <= 164
      modifies this`out, this`top
      ensures out == old(out) + Emit(code, maxLocals, old(At(k))) && At(k).top == Next(code, old(At(k))).top
    {
      hide Push, Pop;
      var op: int := code[k];
      var cmpToZero := op < 159;
      var cond := CondOf(op - if cmpToZero then 153 else 159);
      var arg := (U2(code, k + 1) + k) % TWO_TO_THE_16;
      PopVirtualStack();
      var reg1 := GetReg();
      if cmpToZero {
        Append(CmpImm(0, reg1));
      } else {
        PopVirtualStack();
        Append(CmpReg(reg1, GetReg()));
      }
      Append(Jcc(cond, Offset(arg)));
    }

    /** tableswitch */
    method GenTableswitch(k: nat)
      requires top >= 1 && TableReadable(code, k)
      modifies this`out, this`top
      ensures top == old(top) - 1
      ensures out == old(out) + SwitchCode(maxLocals, old(top), TableCases(code, k, Nat(Rows(code, k))),
                                           Int32(k + S4(code, Operands(k))))
    {
      hide Pop, S4, Int32;
      var padBytes := 3 - k % 4;
      var defaultOffset := S4(code, k + padBytes + 1);
      var lowValue := S4(code, k + padBytes + 5);
      var highValue := S4(code, k + padBytes + 9);
      var numRows := Int32(highValue - lowValue + 1);
      PopVirtualStack();
      ghost var popped := out;
      var reg := GetReg();
      var i: nat := 0;
      assert Comparisons(TableCases(code, k, 0), reg) == [];
      while i < numRows
        invariant i <= Nat(numRows)
        invariant top == old(top) - 1 && out == popped + Comparisons(TableCases(code, k, i), reg)
      {
        var jumpOffset := S4(code, k + padBytes + 13 + 4 * i);
        Append(CmpImm(Int32(lowValue + i), reg));
        Append(Jcc(Cond.Eq, Offset(Int32(k + jumpOffset))));
        ComparisonsGrow(TableCases(code, k, i), TableCase(code, k, i), reg);
        assert TableCases(code, k, i + 1) == TableCases(code, k, i) + [TableCase(code, k, i)];
        i := i + 1;
      }
      Append(Jmp(Offset(Int32(k + defaultOffset))));
    }

    /** lookupswitch */
    method GenLookupswitch(k: nat)
      requires top >= 1 && PairsReadable(code, k)
      modifies this`out, this`top
      ensures top == old(top) - 1
      ensures out == old(out) + SwitchCode(maxLocals, old(top), PairCases(code, k, Nat(S4(code, Operands(k) + 4))),
                                           Int32(k + S4(code, Operands(k))))
    {
      hide Pop, S4, Int32;
      var padBytes := 3 - k % 4;
      var nPairs := S4(code, k + padBytes + 5);
      var defaultOffset := S4(code, k + padBytes + 1);
      PopVirtualStack();
      ghost var popped := out;
      var reg := GetReg();
      var i: nat := 0;
      assert Comparisons(PairCases(code, k, 0), reg) == [];
      while i < nPairs
        invariant i <= Nat(nPairs)
        invariant top == old(top) - 1 && out == popped + Comparisons(PairCases(code, k, i), reg)
      {
        var caseNumber := S4(code, k + padBytes + 9 + 8 * i);
        var jumpOffset := S4(code, k + padBytes + 13 + 8 * i);
        Append(CmpImm(caseNumber, reg));
        Append(Jcc(Cond.Eq, Offset(Int32(k + jumpOffset))));
        ComparisonsGrow(PairCases(code, k, i), PairCase(code, k, i), reg);
        assert PairCases(code, k, i + 1) == PairCases(code, k, i) + [PairCase(code, k, i)];
        i := i + 1;
      }
      Append(Jmp(Offset(Int32(k + defaultOffset))));
    }

    /** codeGenOne; what is not implemented emits no instruction. */
    method CodeGenOne(k: nat)
      requires Poppable(code, At(k))
      modifies this`out, this`top, this`cmpcount
      ensures out == old(out) + Emit(code, maxLocals, old(At(k)))
      ensures top == Next(code, old(At(k))).top && cmpcount == Next(code, old(At(k))).cmps
    {
      var op: int := code[k];
      if 2 <= op <= 10 || 16 <= op <= 17 {
        GenConst(k);
      } else if op in {21, 22, 25} || 26 <= op <= 33 || 42 <= op <= 45 {
        GenLoad(k);
      } else if op in {54, 55, 58} || 59 <= op <= 66 || 75 <= op <= 78 {
        GenStore(k);
      } else if op == 89 {
        GenDup(k);
      } else if op in {96, 97, 100, 101, 104, 105} {
        GenArith(k);
      } else if op == 109 {
        GenDiv(k);
      } else if op == 116 {
        GenNeg(k);
      } else if 126 <= op <= 131 {
        GenLogic(k);
      } else if op == 148 {
        GenLcmp(k);
      } else if 153 <= op <= 164 {
        GenIf(k);
      } else if op == 167 {
        Append(Jmp(Offset((U2(code, k + 1) + k) % TWO_TO_THE_16)));
      } else if op == 200 {
        Append(Jmp(Offset((U4(code, k + 1) + k) % TWO_TO_THE_32)));
      } else if op == 177 {
        Append(Ret);
      }
    }

    /** The loop of codeGen over the code of one method. */
    method GenMethod()
      requires Advances(code, 0) && Supplied(code, At(0))
      modifies this`out, this`top, this`cmpcount
      ensures Walkable(code, old(At(0))) && out == old(out) + Gen(code, maxLocals, old(At(0)))
      ensures At(|code|) == Final(code, old(At(0)))
    {
      WalkableExactly(code, At(0));
      var k: nat := 0;
      while k < |code|
        invariant k <= |code| && Walkable(code, At(k)) && Final(code, At(k)) == Final(code, old(At(0)))
        invariant out + Gen(code, maxLocals, At(k)) == old(out) + Gen(code, maxLocals, old(At(0)))
        decreases |code| - k
      {
        ghost var before, p := out, At(k);
        Append(Label(Offset(k)));
        CodeGenOne(k);
        k := k + Length(code[k]);
        assert At(k) == Next(code, p);
        Chain(before, [Label(Offset(p.k))], Emit(code, maxLocals, p), Gen(code, maxLocals, At(k)));
      }
    }
  }
}
