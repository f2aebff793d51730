/** The tables of the switches in bytes, as section 6.5 of the JVM Specification lays them out, and the
    instructions emitted for them. */
module SwitchLaws {
  import opened Bytecode
  import opened X86
  import opened CodeGen
  import opened Section65
  import opened EmissionLaws
  import opened Switches

  /** The first multiple of four behind the opcode. */
  predicate IsPadded(k: nat, o: nat) { o % 4 == 0 && k < o <= k + 4 }

  lemma FourBytesAre(code: seq<Byte>, p: nat)
    requires p + 4 <= |code|
    ensures S4(code, p) == FourBytes(code, p)
  {}

  lemma PaddedOperands(k: nat, o: nat)
    requires IsPadded(k, o)
    ensures Operands(k) == o
  {}

  /** tableswitch: default, low, high, and an offset for each value from low to high. */
  lemma TableLaw(code: seq<Byte>, k: nat, o: nat, v: int)
    requires IsPadded(k, o) && IsTable(code, k)
    ensures o + 12 <= |code|
    ensures var low, high := FourBytes(code, o + 4), FourBytes(code, o + 8);
      && low <= high && o + 12 + 4 * (high - low + 1) <= |code|
      && TableTarget(code, k, v) ==
         k + if low <= v <= high then FourBytes(code, o + 12 + 4 * (v - low)) else FourBytes(code, o)
  {
    PaddedOperands(k, o);
    FourBytesAre(code, o);
    FourBytesAre(code, o + 4);
    FourBytesAre(code, o + 8);
    hide S4, FourBytes, Operands;
    var low, high := S4(code, o + 4), S4(code, o + 8);
    if low <= v <= high {
      FourBytesAre(code, o + 12 + 4 * (v - low));
    }
  }

  /** Pair i of the table at o has this match. */
  predicate HasMatch(code: seq<Byte>, o: nat, v: int, i: nat)
    requires o + 16 + 8 * i <= |code|
  {
    FourBytes(code, o + 8 + 8 * i) == v
  }

  /** lookupswitch: default, the number of pairs, and pairs of a match and an offset. */
  lemma LookupLaw(code: seq<Byte>, k: nat, o: nat, v: int, t: int)
    requires IsPadded(k, o) && IsLookup(code, k)
    ensures o + 8 <= |code|
    ensures var n := FourBytes(code, o + 4);
      && n >= 0 && o + 8 + 8 * n <= |code|
      && (LookupGoes(code, k, v, t) <==>
          || (exists i :: 0 <= i < n && HasMatch(code, o, v, i) && t == k + FourBytes(code, o + 12 + 8 * i))
          || ((forall i :: 0 <= i < n ==> !HasMatch(code, o, v, i)) && t == k + FourBytes(code, o)))
  {
    PaddedOperands(k, o);
    FourBytesAre(code, o);
    FourBytesAre(code, o + 4);
    var n := S4(code, o + 4);
    forall i | 0 <= i < n
      ensures Selects(code, k, v, i) <==> HasMatch(code, o, v, i)
      ensures Paired(code, k, i) == k + FourBytes(code, o + 12 + 8 * i)
    {
      FourBytesAre(code, o + 8 + 8 * i);
      FourBytesAre(code, o + 12 + 8 * i);
    }
    hide S4, FourBytes, Operands, Selects, HasMatch, Paired;
  }

  /** What is emitted for two cases: a pop, a comparison and je for each in order, and jmp. */
  lemma TwoCases(ml: nat, top: nat, a: Case, b: Case, default: int)
    requires top >= 7
    ensures var r := R(top - 1);
      SwitchCode(ml, top, [a, b], default) ==
      [Reload(ml, top - 1),
       CmpImm(a.value, r), Jcc(Cond.Eq, Offset(a.target)),
       CmpImm(b.value, r), Jcc(Cond.Eq, Offset(b.target)),
       Jmp(Offset(default))]
  {
    DeepPushAndPop(ml, top);
    DeepPushAndPop(ml, top - 1);
    hide Pop, RegAt, R;
    var none: seq<Case> := [];
    assert [a, b][1..] == [b] && [b][1..] == none;
    assert Comparisons([b], R(top - 1)) == [CmpImm(b.value, R(top - 1)), Jcc(Cond.Eq, Offset(b.target))] + [];
  }
}
