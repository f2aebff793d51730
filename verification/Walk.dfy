/** The walk of codeGen over the code of a method: exactly when it comes to an end. */
module Walk {
  import opened Bytecode
  import opened CodeGen
  import opened Switches

  /** Where the walk stands after n rounds from offset k. */
  function After(code: seq<Byte>, k: nat, n: nat): nat
    decreases n
  {
    if n == 0 || k >= |code| then k else After(code, k + Length(code[k]), n - 1)
  }

  /** The walk from k leaves the code. */
  ghost predicate Ends(code: seq<Byte>, k: nat) {
    exists n: nat :: After(code, k, n) >= |code|
  }

  /** The instruction at offset k, if there is one, has a positive length. */
  predicate Moves(code: seq<Byte>, k: nat) {
    k < |code| ==> Length(code[k]) > 0
  }

  lemma {:induction false} AdvancesEnds(code: seq<Byte>, k: nat) returns (n: nat)
    requires Advances(code, k)
    ensures After(code, k, n) >= |code|
    ensures forall i: nat :: Moves(code, After(code, k, i))
    decreases |code| - k
  {
    hide Length;
    if k >= |code| {
      n := 0;
    } else {
      var m := AdvancesEnds(code, k + Length(code[k]));
      n := m + 1;
      forall i: nat ensures Moves(code, After(code, k, i)) {
        if i > 0 {
          assert After(code, k, i) == After(code, k + Length(code[k]), i - 1);
        }
      }
    }
  }

  lemma {:induction false} Stays(code: seq<Byte>, k: nat, n: nat)
    requires k < |code| && Length(code[k]) == 0
    ensures After(code, k, n) == k
    decreases n
  {
    if n > 0 {
      Stays(code, k, n - 1);
    }
  }

  /** Otherwise the walk comes to an instruction of length 0 and stays there. */
  lemma {:induction false} NeverEnds(code: seq<Byte>, k: nat) returns (m: nat)
    requires !Advances(code, k)
    ensures !Moves(code, After(code, k, m))
    ensures forall n: nat :: After(code, k, n) < |code|
    decreases |code| - k
  {
    hide Length;
    if Length(code[k]) == 0 {
      m := 0;
      forall n: nat ensures After(code, k, n) < |code| {
        Stays(code, k, n);
      }
    } else {
      var next := k + Length(code[k]);
      var i := NeverEnds(code, next);
      m := i + 1;
      forall n: nat ensures After(code, k, n) < |code| {
        if n > 0 {
          assert After(code, k, n) == After(code, next, n - 1);
        }
      }
    }
  }

  /** The walk leaves the code if and only if every instruction start that it meets has a positive
      length. */
  lemma WalkEndsExactly(code: seq<Byte>)
    ensures Ends(code, 0) <==> forall n: nat :: Moves(code, After(code, 0, n))
    ensures Ends(code, 0) <==> Advances(code, 0)
  {
    hide Length;
    if Advances(code, 0) {
      var n := AdvancesEnds(code, 0);
    } else {
      var m := NeverEnds(code, 0);
    }
  }

  /** iload_0, a tableswitch with one row, and return. */
  const SWITCHING: seq<Byte> :=
    [26, 170, 0, 0, 0, 0, 0, 19, 0, 0, 0, 0, 0, 0, 0, 0, 0, 0, 0, 19, 177]

  lemma SwitchIsTable()
    ensures IsTable(SWITCHING, 1)
  {
    var code := SWITCHING;
    assert |code| == 21 && Operands(1) == 4;
    assert U2(code, 4) == 0 && U2(code, 6) == 19;
    assert U2(code, 8) == 0 && U2(code, 10) == 0 && U2(code, 12) == 0 && U2(code, 14) == 0;
    assert U2(code, 16) == 0 && U2(code, 18) == 19;
    hide U2;
    assert S4(code, 4) == 19 && S4(code, 8) == 0 && S4(code, 12) == 0 && S4(code, 16) == 19;
  }

  /** The switch lies in the code as section 6.5 wants it, and the walk never leaves it. */
  lemma SwitchNeverEnds()
    ensures IsTable(SWITCHING, 1) && After(SWITCHING, 0, 1) == 1 && !Ends(SWITCHING, 0)
  {
    SwitchIsTable();
    hide IsTable;
    assert |SWITCHING| == 21 && SWITCHING[0] == 26 && SWITCHING[1] == 170;
    assert After(SWITCHING, 0, 1) == After(SWITCHING, 1, 0);
    assert !Advances(SWITCHING, 1) && !Advances(SWITCHING, 0);
    var m := NeverEnds(SWITCHING, 0);
  }
}
