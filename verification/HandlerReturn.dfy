/**
 Entering a handler and returning from it (libdcpu-vm/vm.c, libdcpu-vm/dcpuops.c).
 */
module HandlerReturn {
  import opened Words
  import opened Dcpu
  import opened Machine
  import opened InterruptSafety

  /** Reading an operand other than POP leaves the stack, the memory and the skip flag alone. */
  lemma {:induction false} ReadingKeepsStack(s: State, code: Word, pos: Position)
    ensures var t := Resolve(s, code, pos).0;
            && t.ram == s.ram && t.skip == s.skip && t.registers == s.registers
            && (code != PUSH_POP || s.skip ==> t.sp == s.sp)
            && (code == PUSH_POP && pos == PosA && !s.skip ==> t.sp == Wrap(s.sp + 1))
  {
  }

  lemma {:induction false} PassOverKeepsStack(s: State)
    requires s.skip
    ensures var t := PassOver(s).0;
            t.sp == s.sp && t.ram == s.ram && t.registers == s.registers && t.ia == s.ia && t.skip
  {
    var (t, inst) := Consume(s);
    ReadingKeepsStack(t, GetA(inst), PosA);
    ReadingKeepsStack(Resolve(t, GetA(inst), PosA).0, GetB(inst), PosB);
    PassOverApart(s);
  }

  ghost predicate SameStack(s: State, t: State) {
    t.sp == s.sp && t.ram == s.ram && t.registers == s.registers && t.ia == s.ia
  }

  /** The loop over a skipped chain leaves the stack alone. */
  lemma {:induction false} ChainKeepsStack(s: State, n: nat)
    requires s.skip
    ensures PassChain(s, n).Some? ==> SameStack(s, PassChain(s, n).value)
    decreases n
  {
    if n > 0 {
      PassOverKeepsStack(s);
      ChainKeepsStack(PassOver(s).0, n - 1);
    }
  }

  /** The state `t` in which the handler starts: A and PC are on the stack. */
  ghost predicate Entered(s: State, m: Word, t: State) {
    && t.sp == Wrap(s.sp - 2) && t.ram[t.sp] == s.registers[A] && t.ram[Wrap(t.sp + 1)] == s.pc
    && t.pc == s.ia && t.registers == s.registers[A := m] && t.queueing && !t.skip
  }

  lemma {:induction false} DispatchSaves(s: State, m: Word, t: State, es: seq<Event>)
    requires !s.queueing && s.ia != 0 && Interrupt(s, m) == Some((t, es))
    ensures Entered(s, m, t)
  {
    if s.skip {
      ChainKeepsStack(s, 0x10000);
      DispatchEnters(s, m, PassChain(s, 0x10000).value);
    } else {
      DispatchEnters(s, m, s);
    }
  }

  lemma {:induction false} DispatchEnters(s: State, m: Word, t: State)
    requires SameStack(s, t)
    ensures Entered(s, m, Dispatch(t, s.pc, m))
  {
  }

  /** The handler has kept the stack balanced and left the two saved words alone. */
  ghost predicate Balanced(entered: State, t: State) {
    && t.sp == entered.sp && !t.skip
    && t.ram[t.sp] == entered.ram[entered.sp] && t.ram[Wrap(t.sp + 1)] == entered.ram[Wrap(entered.sp + 1)]
  }

  /** The state `r` after RFI, in terms of the stack before it. */
  ghost predicate Returned(t: State, r: State, offset: nat) {
    && r.pc == t.ram[Wrap(t.sp + offset + 1)] && r.registers[A] == t.ram[Wrap(t.sp + offset)]
    && r.sp == Wrap(t.sp + offset + 2)
    && !r.queueing && !r.skip
  }

  lemma {:induction false} Returns(t: State, a: Word)
    requires !t.skip
    ensures Returned(t, ReturnFromInterrupt(t, a).0, if a == PUSH_POP then 1 else 0)
  {
    ReadingKeepsStack(t, a, PosA);
    var u := Resolve(t, a, PosA).0;
    PopWraps(t.sp);
    assert ReturnFromInterrupt(t, a).0.registers[A] == u.ram[u.sp];
  }

  lemma {:induction false} PopWraps(sp: Word)
    ensures Wrap(Wrap(sp + 1) + 1) == Wrap(sp + 2) && Wrap(Wrap(sp + 1) + 2) == Wrap(sp + 3)
  {
  }

  lemma {:induction false} Restores(s: State, m: Word, entered: State, t: State, r: State)
    requires Entered(s, m, entered) && Balanced(entered, t) && Returned(t, r, 0)
    ensures r.pc == s.pc && r.registers[A] == s.registers[A] && r.sp == s.sp && !r.queueing && !r.skip
  {
    StackWraps(s.sp);
  }

  lemma {:induction false} StackWraps(sp: Word)
    ensures Wrap(Wrap(sp - 2) + 2) == sp
  {
  }

  lemma {:induction false} Misses(s: State, m: Word, entered: State, t: State, r: State)
    requires Entered(s, m, entered) && Balanced(entered, t) && Returned(t, r, 1)
    ensures r.registers[A] == s.pc && r.sp != s.sp
  {
  }

  /** The machine goes on where it was before the interrupt, with delivery on. */
  ghost predicate Resumed(s: State, r: State) {
    r.pc == s.pc && r.registers[A] == s.registers[A] && r.sp == s.sp && !r.queueing && r.skip == s.skip
  }

  /**
   A return from interrupt undoes the dispatch: after any handler that keeps the stack balanced and leaves
   the two saved words alone, RFI restores PC, A, SP, the skip flag and delivery if and only if the machine
   was not skipping when the interrupt came and the operand of RFI is not POP. A machine that was skipping
   comes back to the program counter from before the skip with the flag lost.
   */
  lemma {:induction false} ReturnUndoesDispatch(s: State, m: Word, entered: State, es: seq<Event>, t: State, a: Word)
    requires !s.queueing && s.ia != 0 && Interrupt(s, m) == Some((entered, es)) && Balanced(entered, t)
    ensures Resumed(s, ReturnFromInterrupt(t, a).0) <==> !s.skip && a != PUSH_POP
    ensures a != PUSH_POP ==> Resumed(s.(skip := false), ReturnFromInterrupt(t, a).0)
  {
    var r := ReturnFromInterrupt(t, a).0;
    DispatchSaves(s, m, entered, es);
    Returns(t, a);
    if a == PUSH_POP { Misses(s, m, entered, t, r); } else { Restores(s, m, entered, t, r); }
  }

  /** With POP as its operand, RFI takes the wrong words from the stack. */
  lemma {:induction false} ReturnWithPop(s: State, m: Word, entered: State, es: seq<Event>, t: State)
    requires !s.queueing && s.ia != 0 && Interrupt(s, m) == Some((entered, es)) && Balanced(entered, t)
    ensures var r := ReturnFromInterrupt(t, PUSH_POP).0;
            r.registers[A] == s.pc && r.sp != s.sp
  {
    DispatchSaves(s, m, entered, es);
    Returns(t, PUSH_POP);
    Misses(s, m, entered, t, ReturnFromInterrupt(t, PUSH_POP).0);
  }
}
