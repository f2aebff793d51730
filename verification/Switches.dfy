/** tableswitch and lookupswitch: the chain of comparisons jumps where the table of section 6.5 of the
    JVM Specification sends the value. */
module Switches {
  import opened Bytecode
  import opened X86
  import opened CodeGen
  import opened Window
  import opened Correctness

  /** The operands begin at the next multiple of four, after zero to three bytes of padding. */
  lemma OperandsAligned(k: nat)
    ensures Operands(k) % 4 == 0 && k < Operands(k) <= k + 4
    ensures forall j :: k < j < Operands(k) ==> j % 4 != 0
  {}

  // ---------------------------------------------------------------- the tables

  /** A tableswitch whose table lies inside the code and whose targets do too. */
  predicate IsTable(code: seq<Byte>, k: nat) {
    && |code| < TWO_TO_THE_16 && Operands(k) + 12 <= |code|
    && var o := Operands(k); var low, high := S4(code, o + 4), S4(code, o + 8);
    && low <= high && o + 12 + 4 * (high - low + 1) <= |code|
    && 0 <= k + S4(code, o) < |code|
    && forall i :: 0 <= i <= high - low ==> 0 <= k + S4(code, o + 12 + 4 * i) < |code|
  }

  /** Where tableswitch goes with the value v. */
  function TableTarget(code: seq<Byte>, k: nat, v: int): int
    requires IsTable(code, k)
  {
    var o := Operands(k);
    var low, high := S4(code, o + 4), S4(code, o + 8);
    if low <= v <= high then k + S4(code, o + 12 + 4 * (v - low)) else k + S4(code, o)
  }

  /** The match of pair i of a lookupswitch, and where its offset leads. */
  function Match(code: seq<Byte>, k: nat, i: nat): int
    requires Operands(k) + 16 + 8 * i <= |code|
  {
    S4(code, Operands(k) + 8 + 8 * i)
  }

  function Paired(code: seq<Byte>, k: nat, i: nat): int
    requires Operands(k) + 16 + 8 * i <= |code|
  {
    k + S4(code, Operands(k) + 12 + 8 * i)
  }

  /** A lookupswitch whose pairs lie inside the code, sorted by match, with targets inside it. */
  predicate IsLookup(code: seq<Byte>, k: nat) {
    && |code| < TWO_TO_THE_16 && Operands(k) + 8 <= |code|
    && var n := S4(code, Operands(k) + 4);
    && n >= 0 && Operands(k) + 8 + 8 * n <= |code|
    && 0 <= k + S4(code, Operands(k)) < |code|
    && (forall i, j :: 0 <= i < j < n ==> Match(code, k, i) < Match(code, k, j))
    && forall i :: 0 <= i < n ==> 0 <= Paired(code, k, i) < |code|
  }

  /** Pair i is the one for v. */
  predicate Selects(code: seq<Byte>, k: nat, v: int, i: nat)
    requires IsLookup(code, k) && i < S4(code, Operands(k) + 4)
  {
    Match(code, k, i) == v
  }

  /** lookupswitch with the value v goes to t: where the offset paired with v leads, or the default if
      no pair has v. */
  ghost predicate LookupGoes(code: seq<Byte>, k: nat, v: int, t: int)
    requires IsLookup(code, k)
  {
    var n := S4(code, Operands(k) + 4);
    if exists i :: 0 <= i < n && Selects(code, k, v, i)
    then exists i :: 0 <= i < n && Selects(code, k, v, i) && t == Paired(code, k, i)
    else t == k + S4(code, Operands(k))
  }

  /** The pairs are sorted, so there is one such t. */
  lemma LookupGoesOnce(code: seq<Byte>, k: nat, v: int, t: int, u: int)
    requires IsLookup(code, k) && LookupGoes(code, k, v, t) && LookupGoes(code, k, v, u)
    ensures t == u
  {}

  // ---------------------------------------------------------------- the chain of comparisons

  /** The target of the first case with value v. */
  function First(cases: seq<Case>, default: int, v: int): int {
    if cases == [] then default
    else if cases[0].value == v then cases[0].target
    else First(cases[1..], default, v)
  }

  lemma {:induction false} FirstIs(cases: seq<Case>, default: int, v: int)
    ensures (forall c :: c in cases ==> c.value != v) ==> First(cases, default, v) == default
    ensures (exists c :: c in cases && c.value == v) ==> Case(v, First(cases, default, v)) in cases
  {
    if cases != [] {
      FirstIs(cases[1..], default, v);
    }
  }

  ghost predicate CasesLabelled(p: seq<Instr>, cases: seq<Case>) {
    forall c :: c in cases ==> Labelled(p, Offset(c.target))
  }

  lemma CompareImm(p: seq<Instr>, m: Machine, v: int, r: Reg)
    requires HasAt(p, m.pc, [CmpImm(v, r)])
    ensures Reaches(p, m, 1, m.(flags := (Get(m, r), v), pc := m.pc + 1))
  {
    ExecOne(m, CmpImm(v, r));
    RunBlock(p, m, [CmpImm(v, r)]);
  }

  lemma TailCode(cases: seq<Case>, r: Reg, rest: seq<Instr>)
    requires cases != []
    ensures Comparisons(cases, r) + rest ==
            [CmpImm(cases[0].value, r)] + ([Jcc(Cond.Eq, Offset(cases[0].target))] + (Comparisons(cases[1..], r) + rest))
  {}

  /** The chain jumps to the target of the first case that has the value of the register. */
  lemma {:induction false} RunChain(p: seq<Instr>, m: Machine, cases: seq<Case>, default: int, r: Reg)
    returns (n: nat, m': Machine)
    requires HasAt(p, m.pc, Comparisons(cases, r) + [Jmp(Offset(default))])
    requires CasesLabelled(p, cases) && Labelled(p, Offset(default))
    ensures Labelled(p, Offset(First(cases, default, Get(m, r))))
    ensures n > 0 && Reaches(p, m, n, m')
    ensures m' == m.(pc := Find(p, Offset(First(cases, default, Get(m, r)))), flags := m'.flags)
    decreases |cases|
  {
    hide HasAt, Reaches, Find, Labelled;
    if cases == [] {
      assert [] + [Jmp(Offset(default))] == [Jmp(Offset(default))];
      HasOne(p, m.pc, Jmp(Offset(default)));
      n, m' := 1, m.(pc := Find(p, Offset(default)));
      JumpTo(p, m, m'.pc);
    } else {
      var c, rest := cases[0], Comparisons(cases[1..], r) + [Jmp(Offset(default))];
      var jump := Jcc(Cond.Eq, Offset(c.target));
      TailCode(cases, r, [Jmp(Offset(default))]);
      HasParts(p, m.pc, [CmpImm(c.value, r)], [jump] + rest);
      HasParts(p, m.pc + 1, [jump], rest);
      CompareImm(p, m, c.value, r);
      HasOne(p, m.pc + 1, jump);
      var v := Get(m, r);
      var m1 := m.(flags := (v, c.value), pc := m.pc + 1);
      var dest := Find(p, Offset(c.target));
      JumpTo(p, m1, dest);
      var m2 := m1.(pc := if v == c.value then dest else m.pc + 2);
      ReachesFurther(p, m, 1, m1, 1, m2);
      n, m' := 2, m2;
      if v != c.value {
        assert CasesLabelled(p, cases[1..]);
        assert Get(m2, r) == v;
        var k, m3 := RunChain(p, m2, cases[1..], default, r);
        ReachesFurther(p, m, 2, m2, k, m3);
        n, m' := 2 + k, m3;
      }
    }
  }

  /** The value a switch compares: the popped one up to depth five, and the one five positions
      further down beyond. */
  function Compared(stack: seq<int>): int
    requires stack != []
  {
    if |stack| <= WINDOW then stack[|stack| - 1] else stack[|stack| - 1 - WINDOW]
  }

  /** The code of a switch runs to the label of the first case that has the compared value, and
      represents the popped stack there. */
  lemma RunSwitch(ml: nat, p: seq<Instr>, m: Machine, stack: seq<int>, locals: seq<int>, cases: seq<Case>, default: int)
    returns (n: nat, m': Machine)
    requires stack != [] && Rep(ml, m, stack, locals)
    requires HasAt(p, m.pc, SwitchCode(ml, |stack|, cases, default))
    requires CasesLabelled(p, cases) && Labelled(p, Offset(default))
    ensures var l := Offset(First(cases, default, Compared(stack)));
      n > 0 && Reaches(p, m, n, m') && Labelled(p, l) && m'.pc == Find(p, l)
    ensures Rep(ml, m', stack[..|stack| - 1], locals)
  {
    hide HasAt, Reaches, Find, Labelled, CasesLabelled, Rep, Comparisons, First;
    var d := |stack|;
    var pop, chain := Pop(ml, d), Comparisons(cases, RegAt(d - 1)) + [Jmp(Offset(default))];
    assert SwitchCode(ml, d, cases, default) == pop + chain;
    HasParts(p, m.pc, pop, chain);
    PopKeeps(ml, m, stack, locals);
    ReadAfterPop(ml, m, stack, locals);
    RunBlock(p, m, pop);
    var m1 := ExecAll(m, pop).(pc := m.pc + |pop|);
    RepIgnoresRest(ml, ExecAll(m, pop), m1, stack[..d - 1], locals);
    assert Get(m1, RegAt(d - 1)) == Compared(stack);
    var k, m2 := RunChain(p, m1, cases, default, RegAt(d - 1));
    n, m' := |pop| + k, m2;
    ReachesFurther(p, m, |pop|, m1, k, m2);
    RepIgnoresRest(ml, m1, m2, stack[..d - 1], locals);
  }

  // ---------------------------------------------------------------- table semantics

  lemma SmallInt32(x: int)
    requires -0x8000_0000 <= x < 0x8000_0000
    ensures Int32(x) == x
  {
    if x < 0 {
      assert x % TWO_TO_THE_32 == x + TWO_TO_THE_32;
    }
  }

  /** The 32-bit row count and sums do not wrap for a table inside the code. */
  lemma TableIsReadable(code: seq<Byte>, k: nat)
    requires IsTable(code, k)
    ensures TableReadable(code, k)
    ensures Rows(code, k) == S4(code, Operands(k) + 8) - S4(code, Operands(k) + 4) + 1
    ensures Int32(k + S4(code, Operands(k))) == k + S4(code, Operands(k))
    ensures forall i :: 0 <= i < Rows(code, k) ==>
      TableCase(code, k, i) == Case(S4(code, Operands(k) + 4) + i, k + S4(code, Operands(k) + 12 + 4 * i))
  {
    var o := Operands(k);
    var low, high := S4(code, o + 4), S4(code, o + 8);
    SmallInt32(high - low + 1);
    SmallInt32(k + S4(code, o));
    forall i | 0 <= i < Rows(code, k)
      ensures TableCase(code, k, i) == Case(low + i, k + S4(code, o + 12 + 4 * i))
    {
      SmallInt32(low + i);
      SmallInt32(k + S4(code, o + 12 + 4 * i));
    }
  }

  lemma {:induction false} FirstOfConsecutive(cases: seq<Case>, default: int, v: int, low: int)
    requires forall i :: 0 <= i < |cases| ==> cases[i].value == low + i
    ensures First(cases, default, v) == if low <= v < low + |cases| then cases[v - low].target else default
  {
    if cases != [] {
      FirstOfConsecutive(cases[1..], default, v, low + 1);
    }
  }

  /** The first case with value v of the emitted table is the row that section 6.5 selects. */
  lemma TableSelects(code: seq<Byte>, k: nat, v: int)
    requires IsTable(code, k) && TableReadable(code, k)
    ensures First(TableCases(code, k, Nat(Rows(code, k))), Int32(k + S4(code, Operands(k))), v) == TableTarget(code, k, v)
  {
    TableIsReadable(code, k);
    hide S4, Int32, First, Operands, Rows, TableCase;
    var low := S4(code, Operands(k) + 4);
    var cases, default := TableCases(code, k, Nat(Rows(code, k))), Int32(k + S4(code, Operands(k)));
    FirstOfConsecutive(cases, default, v, low);
  }

  /** tableswitch: the emitted code goes to the label of the offset the table has for the compared
      value, or of the default. */
  lemma TableswitchJumps(code: seq<Byte>, ml: nat, k: nat, p: seq<Instr>, m: Machine, stack: seq<int>, locals: seq<int>)
    returns (n: nat, m': Machine)
    requires IsTable(code, k) && TableReadable(code, k) && stack != [] && Rep(ml, m, stack, locals)
    requires HasAt(p, m.pc, SwitchCode(ml, |stack|, TableCases(code, k, Nat(Rows(code, k))), Int32(k + S4(code, Operands(k)))))
    requires CasesLabelled(p, TableCases(code, k, Nat(Rows(code, k)))) && Labelled(p, Offset(k + S4(code, Operands(k))))
    ensures n > 0 && Reaches(p, m, n, m')
    ensures var l := Offset(TableTarget(code, k, Compared(stack))); Labelled(p, l) && m'.pc == Find(p, l)
    ensures Rep(ml, m', stack[..|stack| - 1], locals)
  {
    TableIsReadable(code, k);
    TableSelects(code, k, Compared(stack));
    var cases, default := TableCases(code, k, Nat(Rows(code, k))), Int32(k + S4(code, Operands(k)));
    hide Rep, HasAt, Reaches, Find, Labelled, First, SwitchCode, S4, Int32;
    n, m' := RunSwitch(ml, p, m, stack, locals, cases, default);
  }

  // ---------------------------------------------------------------- lookup semantics

  lemma PairsAreReadable(code: seq<Byte>, k: nat)
    requires IsLookup(code, k)
    ensures PairsReadable(code, k)
    ensures Int32(k + S4(code, Operands(k))) == k + S4(code, Operands(k))
    ensures forall i :: 0 <= i < S4(code, Operands(k) + 4) ==>
      PairCase(code, k, i) == Case(Match(code, k, i), Paired(code, k, i))
  {
    hide S4;
    SmallInt32(k + S4(code, Operands(k)));
    forall i | 0 <= i < S4(code, Operands(k) + 4)
      ensures PairCase(code, k, i) == Case(Match(code, k, i), Paired(code, k, i))
    {
      SmallInt32(Paired(code, k, i));
    }
  }

  /** The first case with value v of the emitted pairs is the pair that section 6.5 selects. */
  lemma LookupSelects(code: seq<Byte>, k: nat, v: int)
    requires IsLookup(code, k) && PairsReadable(code, k)
    ensures LookupGoes(code, k, v,
      First(PairCases(code, k, Nat(S4(code, Operands(k) + 4))), Int32(k + S4(code, Operands(k))), v))
  {
    PairsAreReadable(code, k);
    hide S4, Int32, First, Operands, PairCase, Match, Paired;
    var n := S4(code, Operands(k) + 4);
    var cases, default := PairCases(code, k, Nat(n)), Int32(k + S4(code, Operands(k)));
    FirstIs(cases, default, v);
    if i :| 0 <= i < n && Selects(code, k, v, i) {
      assert cases[i] in cases && cases[i].value == v;
      var j :| 0 <= j < |cases| && cases[j] == Case(v, First(cases, default, v));
      assert Selects(code, k, v, j);
    } else {
      forall c | c in cases ensures c.value != v {
        var j :| 0 <= j < |cases| && cases[j] == c;
        assert !Selects(code, k, v, j);
      }
    }
  }

  lemma LookupFirst(code: seq<Byte>, k: nat, v: int, t: int)
    requires IsLookup(code, k) && PairsReadable(code, k) && LookupGoes(code, k, v, t)
    ensures Int32(k + S4(code, Operands(k))) == k + S4(code, Operands(k))
    ensures First(PairCases(code, k, Nat(S4(code, Operands(k) + 4))), Int32(k + S4(code, Operands(k))), v) == t
  {
    PairsAreReadable(code, k);
    LookupSelects(code, k, v);
    var cases, default := PairCases(code, k, Nat(S4(code, Operands(k) + 4))), Int32(k + S4(code, Operands(k)));
    hide First, S4, Int32, LookupGoes, Operands, PairCase;
    LookupGoesOnce(code, k, v, t, First(cases, default, v));
  }

  /** lookupswitch: the emitted code goes to the label of the offset t that section 6.5 gives for the
      compared value, the paired one or the default. */
  lemma LookupswitchJumps(code: seq<Byte>, ml: nat, k: nat, p: seq<Instr>, m: Machine, stack: seq<int>, locals: seq<int>,
                          t: int)
    returns (n: nat, m': Machine)
    requires IsLookup(code, k) && PairsReadable(code, k) && stack != [] && Rep(ml, m, stack, locals)
    requires HasAt(p, m.pc, SwitchCode(ml, |stack|, PairCases(code, k, Nat(S4(code, Operands(k) + 4))),
                                       Int32(k + S4(code, Operands(k)))))
    requires CasesLabelled(p, PairCases(code, k, Nat(S4(code, Operands(k) + 4))))
    requires Labelled(p, Offset(k + S4(code, Operands(k))))
    requires LookupGoes(code, k, Compared(stack), t)
    ensures n > 0 && Reaches(p, m, n, m')
    ensures Labelled(p, Offset(t)) && m'.pc == Find(p, Offset(t))
    ensures Rep(ml, m', stack[..|stack| - 1], locals)
  {
    var cases, default := PairCases(code, k, Nat(S4(code, Operands(k) + 4))), Int32(k + S4(code, Operands(k)));
    hide *;
    LookupFirst(code, k, Compared(stack), t);
    n, m' := RunSwitch(ml, p, m, stack, locals, cases, default);
  }

  /** For every value there is such an offset, and only one. */
  lemma LookupGoesSomewhere(code: seq<Byte>, k: nat, v: int) returns (t: int)
    requires IsLookup(code, k)
    ensures forall u :: LookupGoes(code, k, v, u) <==> u == t
  {
    PairsAreReadable(code, k);
    LookupSelects(code, k, v);
    t := First(PairCases(code, k, Nat(S4(code, Operands(k) + 4))), Int32(k + S4(code, Operands(k))), v);
    hide LookupGoes, First, PairCases, S4, Int32, Operands;
    forall u | LookupGoes(code, k, v, u) ensures u == t {
      LookupGoesOnce(code, k, v, t, u);
    }
  }
}
