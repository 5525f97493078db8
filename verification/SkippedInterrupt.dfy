/**
 INT does not look at the skip flag (libdcpu-vm/dcpuops.c): what it does in a chain that should be skipped.
 */
module SkippedInterrupt {
  import opened Words
  import opened Dcpu
  import opened Machine
  import opened Skipping
  import opened SkipLoop
  import opened HandlerReturn

  /** The loop of `vm_interrupt`, started at `pc`, meets nothing but conditions. */
  ghost predicate Endless(ram: Ram, pc: Word) {
    forall k: nat :: !Stops(ram, pc, k)
  }

  lemma {:induction false} LoopHangsIff(s: State)
    requires s.skip
    ensures PassChain(s, 0x10000).None? <==> Endless(s.ram, s.pc)
  {
    if PassChain(s, 0x10000).Some? {
      var k := EndedAt(s, 0x10000);
    }
    if k: nat :| Stops(s.ram, s.pc, k) {
      var m := StopsEarly(s.ram, s.pc, k);
      EndsBy(s, 0x10000, m);
    }
  }

  /** What an INT behind a failed condition does to the machine `s`, leaving it as `t`. */
  ghost predicate IntTakesEffect(s: State, size: nat, m: Word, t: State, es: seq<Event>) {
    if s.queueing && |s.queue| >= INTERRUPT_MAX then
      es == [Overflowed(m)] && t.halted && Passed(s, t.(halted := s.halted), size, true)
    else if s.queueing then
      es == [Queued(m)] && t.queue == s.queue + [m] && Passed(s, t.(queue := s.queue), size, true)
    else if s.ia == 0 then
      es == [Ignored(m)] && Passed(s, t, size, true)
    else
      es == [Dispatched(m)] && Entered(s.(pc := Wrap(s.pc + size)), m, t)
  }

  /** The outcome; the machine hangs if and only if the INT is dispatched and only conditions follow. */
  ghost predicate IntOutcome(s: State, size: nat, m: Word, r: Option<(State, seq<Event>)>) {
    && (r.None? <==> !s.queueing && s.ia != 0 && Endless(s.ram, Wrap(s.pc + size)))
    && (r.Some? ==> IntTakesEffect(s, size, m, r.value.0, r.value.1))
  }

  lemma {:induction false} DispatchHangsIff(u: State, m: Word)
    requires u.skip && !u.queueing && u.ia != 0
    ensures Interrupt(u, m).None? <==> Endless(u.ram, u.pc)
    ensures Interrupt(u, m).Some? ==>
              Interrupt(u, m).value.1 == [Dispatched(m)] && Entered(u, m, Interrupt(u, m).value.0)
  {
    LoopHangsIff(u);
    if Interrupt(u, m).Some? {
      var (t, es) := Interrupt(u, m).value;
      DispatchSaves(u, m, t, es);
    }
  }

  lemma {:induction false} DispatchedOutcome(s: State, u: State, size: nat, m: Word, r: Option<(State, seq<Event>)>)
    requires !s.queueing && s.ia != 0 && u == s.(pc := Wrap(s.pc + size), sleep := u.sleep)
    requires r.None? <==> Endless(u.ram, u.pc)
    requires r.Some? ==> r.value.1 == [Dispatched(m)] && Entered(u, m, r.value.0)
    ensures IntOutcome(s, size, m, r)
  {
  }

  lemma {:induction false} DispatchedWhileSkipping(s: State, u: State, size: nat, m: Word,
          r: Option<(State, seq<Event>)>)
    requires s.skip && !s.queueing && s.ia != 0 && u == s.(pc := Wrap(s.pc + size), sleep := u.sleep)
    requires Interrupt(u, m) == r
    ensures IntOutcome(s, size, m, r)
  {
    assert IntOutcome(s, size, m, r) by {
      DispatchHangsIff(u, m);
      DispatchedOutcome(s, u, size, m, r);
    }
  }

  lemma {:induction false} UndispatchedWhileSkipping(s: State, u: State, size: nat, m: Word,
          r: Option<(State, seq<Event>)>)
    requires s.skip && !s.halted && (s.queueing || s.ia == 0) && u == s.(pc := Wrap(s.pc + size), sleep := u.sleep)
    requires Interrupt(u, m) == r
    ensures IntOutcome(s, size, m, r)
  {
  }

  lemma {:induction false} RaisedWhileSkipping(s: State, u: State, size: nat, m: Word, r: Option<(State, seq<Event>)>)
    requires s.skip && !s.halted && u == s.(pc := Wrap(s.pc + size), sleep := u.sleep)
    requires Interrupt(u, m) == r
    ensures IntOutcome(s, size, m, r)
  {
    assert IntOutcome(s, size, m, r) by {
      if s.queueing || s.ia == 0 {
        UndispatchedWhileSkipping(s, u, size, m, r);
      } else {
        DispatchedWhileSkipping(s, u, size, m, r);
      }
    }
  }

  lemma {:induction false} SteppedByWords(s: State, cycles: nat) returns (size: nat, u: State)
    ensures u == Stepped(s, cycles) && size == Size(s.ram[s.pc]) && u == s.(pc := Wrap(s.pc + size), sleep := u.sleep)
  {
    size, u := Size(s.ram[s.pc]), Stepped(s, cycles);
  }

  lemma {:induction false} IntRaises(s: State, inst: Word) returns (u: State, size: nat, m: Word)
    requires s.skip && s.ram[s.pc] == inst && IsInt(inst)
    ensures size == Size(inst) && m == IntMessage(s) && Execute(s) == Interrupt(u, m)
    ensures u == s.(pc := Wrap(s.pc + size), sleep := u.sleep)
  {
    m := IntMessage(s);
    size, u := SteppedByWords(s, NextWords(GetA(inst)) + 3);
    IntResolves(s, inst);
  }

  /**
   INT is not skipped: its message is queued, halts the machine, is ignored or is dispatched just as if the
   machine were not skipping. Unless it is dispatched, the flag stays set and the chain goes on behind it; if
   it is, the address behind the INT is saved.
   */
  lemma {:induction false} IntIsNotSkipped(s: State, inst: Word, r: Option<(State, seq<Event>)>)
    requires s.skip && !s.halted && s.ram[s.pc] == inst && IsInt(inst) && Execute(s) == r
    ensures IntOutcome(s, Size(inst), IntMessage(s), r)
  {
    var u, size, m := IntRaises(s, inst);
    RaisedWhileSkipping(s, u, size, m, r);
  }
}
