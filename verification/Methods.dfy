/** The methods of a class, generated one after the other: the source sets _top once, so the pass over
    a method begins with the depth that the methods before it have left behind. */
module Methods {
  import opened Bytecode
  import opened X86
  import opened CodeGen
  import opened Window
  import opened Correctness

  datatype Method = Method(code: seq<Byte>, maxLocals: nat)

  /** Where the pass over the next method begins if the pass over this one ends at p. */
  function Resumed(p: Pass): Pass { Pass(0, p.top, p.cmps) }

  /** The pass comes through every method, begun at the depth it is met with. */
  ghost predicate InSequence(ms: seq<Method>, p: Pass)
    decreases |ms|
  {
    ms != [] ==> p.k == 0 && Walkable(ms[0].code, p) && InSequence(ms[1..], Resumed(Final(ms[0].code, p)))
  }

  /** Where the pass over method i begins. */
  ghost function Start(ms: seq<Method>, p: Pass, i: nat): (q: Pass)
    requires InSequence(ms, p) && i < |ms|
    ensures Walkable(ms[i].code, q) && q.k == 0
    decreases |ms|
  {
    if i == 0 then p else Start(ms[1..], Resumed(Final(ms[0].code, p)), i - 1)
  }

  /** Each method of a class generated in sequence is simulated if it is acceptable from the depth it
      is met with. */
  lemma ClassIsSimulated(ms: seq<Method>, p: Pass, i: nat, locals: seq<int>, m: Machine, n: nat)
    returns (k: nat, m': Machine)
    requires InSequence(ms, p) && i < |ms| && m.pc == 0 && Rep(ms[i].maxLocals, m, [], locals)
    requires Acceptable(ms[i].code, Start(ms, p, i)) && Start(ms, p, i).top < WINDOW
    requires Run(ms[i].code, Specified, State(0, [], locals), n).Finished?
    requires DivisionsFit(ms[i].code, Specified, State(0, [], locals), n)
    requires LcmpsFit(ms[i].code, State(0, [], locals), n)
    ensures var g := Gen(ms[i].code, ms[i].maxLocals, Start(ms, p, i));
      var result := Run(ms[i].code, Specified, State(0, [], locals), n).locals;
      && Reaches(g, m, k, m') && m'.pc < |g| && g[m'.pc] == Ret
      && forall j :: 0 <= j < |result| ==> Slot(m', LOCAL_VARS + j) == result[j]
  {
    k, m' := MethodIsSimulated(ms[i].code, ms[i].maxLocals, Start(ms, p, i), locals, m, n);
  }

  // ---------------------------------------------------------------- depths left behind

  /** The depth at which the pass over a method ends if it begins at zero. */
  function LeftOver(code: seq<Byte>): nat
    requires Walkable(code, Pass(0, 0, 0))
  {
    Final(code, Pass(0, 0, 0)).top
  }

  /** Beginning deeper, the pass ends deeper by as much. */
  lemma {:induction false} FinalShifts(code: seq<Byte>, k: nat, top: nat, cmps: nat, more: nat, cmps': nat)
    requires Walkable(code, Pass(k, top, cmps))
    ensures var q := Pass(k, top + more, cmps');
      Walkable(code, q) && Final(code, q).top == Final(code, Pass(k, top, cmps)).top + more
    decreases |code| - k
  {
    hide Decode, Length;
    if k < |code| {
      var n := Next(code, Pass(k, top, cmps));
      var n' := Next(code, Pass(k, top + more, cmps'));
      FinalShifts(code, n.k, n.top, n.cmps, more, n'.cmps);
    }
  }

  /** What the first i methods leave behind together. */
  function LeftBefore(ms: seq<Method>, i: nat): nat
    requires i <= |ms| && forall j :: 0 <= j < |ms| ==> Walkable(ms[j].code, Pass(0, 0, 0))
  {
    if i == 0 then 0 else LeftBefore(ms, i - 1) + LeftOver(ms[i - 1].code)
  }

  lemma {:induction false} LeftBeforeTail(ms: seq<Method>, i: nat)
    requires 0 < i <= |ms| && forall j :: 0 <= j < |ms| ==> Walkable(ms[j].code, Pass(0, 0, 0))
    ensures LeftBefore(ms, i) == LeftOver(ms[0].code) + LeftBefore(ms[1..], i - 1)
  {
    if i > 1 {
      LeftBeforeTail(ms, i - 1);
    }
  }

  /** A method is met with the sum of the depths that the methods before it leave behind; with zero if
      they all end with an empty virtual stack. */
  lemma {:induction false} StartIsWhatIsLeft(ms: seq<Method>, p: Pass, i: nat)
    requires InSequence(ms, p) && i < |ms| && forall j :: 0 <= j < |ms| ==> Walkable(ms[j].code, Pass(0, 0, 0))
    ensures Start(ms, p, i).top == p.top + LeftBefore(ms, i)
    decreases |ms|
  {
    hide Walkable, Final;
    if i > 0 {
      FinalShifts(ms[0].code, 0, 0, 0, p.top, p.cmps);
      StartIsWhatIsLeft(ms[1..], Resumed(Final(ms[0].code, p)), i - 1);
      LeftBeforeTail(ms, i);
    }
  }
}
