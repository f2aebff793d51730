/** The register window as a representation of the Java stack, at any depth. */
module Window {
  import opened Bytecode
  import opened X86
  import opened CodeGen

  /** Position q of a stack is in its register if it is one of the top five. */
  predicate InReg(m: Machine, stack: seq<int>, q: int) {
    0 <= q < |stack| <= q + WINDOW ==> Get(m, RegAt(q)) == stack[q]
  }

  /** It is in its spill slot as soon as five more positions would use its register. */
  predicate InSlot(maxLocals: nat, m: Machine, stack: seq<int>, q: int) {
    0 <= q <= |stack| - WINDOW ==> Slot(m, JavaStack(maxLocals) + q + WINDOW) == stack[q]
  }

  ghost predicate Rep(maxLocals: nat, m: Machine, stack: seq<int>, locals: seq<int>) {
    && |m.win| == WINDOW && |locals| <= maxLocals
    && (forall q {:trigger InReg(m, stack, q)} :: InReg(m, stack, q))
    && (forall q {:trigger InSlot(maxLocals, m, stack, q)} :: InSlot(maxLocals, m, stack, q))
    && (forall n :: 0 <= n < |locals| ==> Slot(m, LOCAL_VARS + n) == locals[n])
  }

  /** Positions whose registers coincide are a multiple of five apart. */
  lemma SameReg(p: nat, q: nat)
    requires p % WINDOW == q % WINDOW && p < q
    ensures q >= p + WINDOW
  {}

  /** An instruction that writes v to the next register, and then pushVirtualStack, represent the
      longer stack. */
  lemma PushKeeps(maxLocals: nat, m: Machine, stack: seq<int>, locals: seq<int>, i: Instr, v: int)
    requires Rep(maxLocals, m, stack, locals)
    requires !Traps(m, i) && Exec(m, i) == Set(m, RegAt(|stack|), v)
    ensures var b := [i] + Push(maxLocals, |stack|);
      Safe(m, b) && Rep(maxLocals, ExecAll(m, b), stack + [v], locals)
  {
    var d := |stack|;
    var push := Push(maxLocals, d);
    var m1 := Set(m, RegAt(d), v);
    WriteKeeps(maxLocals, m, stack, locals, v);
    forall q ensures InSlot(maxLocals, m1, stack, q) {
      assert InSlot(maxLocals, m, stack, q);
    }
    SpillKeeps(maxLocals, m1, stack, locals, v);
    ExecOne(m, i);
    ExecAppend(m, [i], push);
  }

  /** Overwriting the register of the next position: the position it held has been spilled. */
  lemma WriteKeeps(maxLocals: nat, m: Machine, stack: seq<int>, locals: seq<int>, v: int)
    requires Rep(maxLocals, m, stack, locals)
    ensures var m1 := Set(m, RegAt(|stack|), v);
      && |m1.win| == WINDOW && m1.frame == m.frame
      && forall q {:trigger InReg(m1, stack + [v], q)} :: InReg(m1, stack + [v], q)
  {
    var d := |stack|;
    var m1, s1 := Set(m, RegAt(d), v), stack + [v];
    forall q ensures InReg(m1, s1, q) {
      assert InReg(m, stack, q);
      if 0 <= q < d < q + WINDOW && q % WINDOW == d % WINDOW {
        SameReg(q, d);
      }
    }
  }

  /** The store of pushVirtualStack saves the position whose register is used next. */
  lemma SpillKeeps(maxLocals: nat, m1: Machine, stack: seq<int>, locals: seq<int>, v: int)
    requires |m1.win| == WINDOW && |locals| <= maxLocals
    requires forall q {:trigger InReg(m1, stack + [v], q)} :: InReg(m1, stack + [v], q)
    requires forall q {:trigger InSlot(maxLocals, m1, stack, q)} :: InSlot(maxLocals, m1, stack, q)
    requires forall n :: 0 <= n < |locals| ==> Slot(m1, LOCAL_VARS + n) == locals[n]
    ensures var b := Push(maxLocals, |stack|);
      Safe(m1, b) && Rep(maxLocals, ExecAll(m1, b), stack + [v], locals)
  {
    var d, s1 := |stack|, stack + [v];
    var b := Push(maxLocals, d);
    if b != [] { ExecOne(m1, b[0]); }
    var m2 := ExecAll(m1, b);
    assert d + 1 >= WINDOW ==> InReg(m1, s1, d + 1 - WINDOW) && (d + 1 - WINDOW) % WINDOW == (d + 1) % WINDOW;
    forall q ensures InReg(m2, s1, q) {
      assert InReg(m1, s1, q);
    }
    forall q ensures InSlot(maxLocals, m2, s1, q) {
      assert InSlot(maxLocals, m1, stack, q);
    }
  }

  /** popVirtualStack represents the shorter stack: the position that comes back into the window is
      reloaded. */
  lemma PopKeeps(maxLocals: nat, m: Machine, stack: seq<int>, locals: seq<int>)
    requires Rep(maxLocals, m, stack, locals) && stack != []
    ensures var b := Pop(maxLocals, |stack|);
      Safe(m, b) && Rep(maxLocals, ExecAll(m, b), stack[..|stack| - 1], locals)
  {
    var d, s1 := |stack|, stack[..|stack| - 1];
    var b := Pop(maxLocals, d);
    if b != [] { ExecOne(m, b[0]); }
    var m1 := ExecAll(m, b);
    if d - 1 >= WINDOW {
      assert InSlot(maxLocals, m, stack, d - 1 - WINDOW);
      assert (d - 1) % WINDOW == (d - 1 - WINDOW) % WINDOW;
    }
    forall q ensures InReg(m1, s1, q) {
      assert InReg(m, stack, q);
      if 0 <= q < d - 1 <= q + WINDOW && q % WINDOW == (d - 1) % WINDOW {
        SameReg(q, d - 1);
      }
    }
    forall q ensures InSlot(maxLocals, m1, s1, q) {
      assert InSlot(maxLocals, m, stack, q);
    }
  }

  /** The register read after popVirtualStack holds the popped value up to depth five; beyond, the
      reload has already replaced it by the value five positions further down. */
  lemma ReadAfterPop(maxLocals: nat, m: Machine, stack: seq<int>, locals: seq<int>)
    requires Rep(maxLocals, m, stack, locals) && stack != []
    ensures var d := |stack|; var b := Pop(maxLocals, d);
      && Safe(m, b)
      && Get(ExecAll(m, b), RegAt(d - 1)) == if d <= WINDOW then stack[d - 1] else stack[d - 1 - WINDOW]
    ensures var d := |stack|;
      Get(ExecAll(m, Pop(maxLocals, d)), RegAt(d - 1)) == stack[d - 1]
      <==> d <= WINDOW || stack[d - 1] == stack[d - 1 - WINDOW]
  {
    var d := |stack|;
    assert InReg(m, stack, d - 1);
    if d - 1 >= WINDOW {
      assert InSlot(maxLocals, m, stack, d - 1 - WINDOW);
    }
  }
}
