/**
 A failed condition skips one chain of instructions (libdcpu-vm/dcpuops.c, libdcpu-vm/vm.c): any number of
 further conditions and one other instruction.
 */
module Skipping {
  import opened Words
  import opened Dcpu
  import opened Machine

  // ----- Operands while skipping -----

  function Advance(s: State, n: nat, cycles: nat): State {
    Sleep(s.(pc := Wrap(s.pc + n)), cycles)
  }

  function NextWords(code: Word): nat {
    if UsesNext(code) then 1 else 0
  }

  lemma {:induction false} ResolveSkipping(s: State, code: Word, pos: Position)
    requires s.skip && code < 64
    ensures Resolve(s, code, pos).0 == Advance(s, NextWords(code), NextWords(code))
  {
  }

  /** A store to a literal does not consume the literal. */
  lemma {:induction false} GetStoreSkipping(s: State, code: Word, pos: Position)
    requires s.skip && code < 64
    ensures GetStore(s, code, pos).0 == Advance(s, if code == NXT_LIT then 0 else NextWords(code), 0)
  {
  }

  lemma {:induction false} AdvanceTwice(s: State, n: nat, c: nat, m: nat, d: nat)
    ensures Advance(Advance(s, n, c), m, d) == Advance(s, n + m, c + d)
  {
    WrapTwice(s.pc + n, m);
    WrapTwice(s.sleep + c, d);
  }

  lemma {:induction false} WrapTwice(x: nat, y: nat)
    ensures Wrap(Wrap(x) + y) == Wrap(x + y)
  {
    assert (x % WORD_COUNT + y) % WORD_COUNT == (x + y) % WORD_COUNT;
  }

  // ----- One skipped instruction -----

  predicate IsSpecial(nbop: Word) {
    nbop == NBOP_JSR || NBOP_INT <= nbop <= NBOP_IAQ || NBOP_HWN <= nbop <= NBOP_HWI
  }

  /** Instructions that the skip flag applies to: valid ones other than INT. */
  predicate Skippable(inst: Word) {
    var op := GetOp(inst);
    if op == OP_NONBASIC then IsSpecial(GetB(inst)) && GetB(inst) != NBOP_INT
    else IsArithmetic(op) || IsBranch(op) || op == OP_STI || op == OP_STD
  }

  /** The instruction names a literal as its destination. */
  predicate StoresToLiteral(inst: Word) {
    var op := GetOp(inst);
    if op == OP_NONBASIC then (GetB(inst) == NBOP_IAG || GetB(inst) == NBOP_HWN) && GetA(inst) == NXT_LIT
    else !IsBranch(op) && GetB(inst) == NXT_LIT
  }

  /** How far a skipped instruction moves the program counter. */
  function SkippedSize(inst: Word): nat {
    if StoresToLiteral(inst) then Size(inst) - 1 else Size(inst)
  }

  /** Nothing but the program counter, the cycle count and the skip flag has changed. */
  ghost predicate Passed(s: State, t: State, n: nat, skip: bool) {
    t == s.(pc := Wrap(s.pc + n), sleep := t.sleep, skip := skip)
  }

  function StoreWords(code: Word): nat {
    if code == NXT_LIT then 0 else NextWords(code)
  }

  lemma {:induction false} StoreSkipped(s: State, b: Word, a: Word)
    requires s.skip && b < 64 && a < 64
    ensures GetStore(Resolve(s, a, PosA).0, b, PosB).0 == Advance(s, NextWords(a) + StoreWords(b), NextWords(a))
  {
    ResolveSkipping(s, a, PosA);
    GetStoreSkipping(Resolve(s, a, PosA).0, b, PosB);
    AdvanceTwice(s, NextWords(a), NextWords(a), StoreWords(b), 0);
  }

  lemma {:induction false} ArithmeticSkipped(s: State, op: Word, b: Word, a: Word)
    requires s.skip && b < 64 && a < 64
    ensures Passed(s, Arithmetic(s, op, b, a), NextWords(a) + StoreWords(b), false)
  {
    StoreSkipped(s, b, a);
  }

  lemma {:induction false} StepSkipped(s: State, step: int, b: Word, a: Word)
    requires s.skip && b < 64 && a < 64
    ensures Passed(s, StoreAndStep(s, step, b, a), NextWords(a) + StoreWords(b), false)
  {
    StoreSkipped(s, b, a);
  }

  lemma {:induction false} BranchSkipped(s: State, op: Word, b: Word, a: Word)
    requires s.skip && b < 64 && a < 64
    ensures Passed(s, Branch(s, op, b, a), NextWords(a) + NextWords(b), true)
  {
    ResolveSkipping(s, a, PosA);
    ResolveSkipping(Resolve(s, a, PosA).0, b, PosB);
    AdvanceTwice(s, NextWords(a), NextWords(a), NextWords(b), NextWords(b));
  }

  lemma {:induction false} PassedFetched(s: State, t: State, n: nat, skip: bool)
    requires Passed(Consume(s).0, t, n, skip)
    ensures Passed(s, t, n + 1, skip)
  {
    WrapTwice(s.pc + 1, n);
  }

  lemma {:induction false} StoreSpecialSkipped(s: State, a: Word, cycles: nat, value: Word)
    requires s.skip && a < 64
    ensures Passed(s, StoreSpecial(s, a, cycles, value), StoreWords(a), false)
  {
    GetStoreSkipping(s, a, PosA);
  }

  lemma {:induction false} ReadSpecialSkipped(s: State, a: Word)
    requires s.skip && a < 64
    ensures Passed(s, JumpSubroutine(s, a), NextWords(a), false) && Passed(s, SetHandler(s, a), NextWords(a), false)
    ensures ReturnFromInterrupt(s, a).1 == [] && Passed(s, ReturnFromInterrupt(s, a).0, NextWords(a), false)
    ensures SetQueueing(s, a).1 == [] && Passed(s, SetQueueing(s, a).0, NextWords(a), false)
    ensures Passed(s, QueryHardware(s, a), NextWords(a), false) &&
            Passed(s, HardwareInterrupt(s, a), NextWords(a), false)
  {
    ResolveSkipping(s, a, PosA);
  }

  lemma {:induction false} SpecialSkipped(s: State, nbop: Word, a: Word)
    requires s.skip && a < 64 && IsSpecial(nbop) && nbop != NBOP_INT
    ensures var r := Special(s, nbop, a);
            && r.Some? && r.value.1 == []
            && Passed(s, r.value.0, if nbop == NBOP_IAG || nbop == NBOP_HWN then StoreWords(a) else NextWords(a), false)
  {
    if nbop == NBOP_IAG {
      StoreSpecialSkipped(s, a, 0, s.ia);
    } else if nbop == NBOP_HWN {
      StoreSpecialSkipped(s, a, 1, Wrap(|s.devices|));
    } else {
      ReadSpecialSkipped(s, a);
    }
  }

  lemma {:induction false} BasicSkipped(s: State, inst: Word)
    requires s.skip && s.ram[s.pc] == inst && Skippable(inst) && GetOp(inst) != OP_NONBASIC
    ensures var r := Execute(s);
            r.Some? && r.value.1 == [] && Passed(s, r.value.0, SkippedSize(inst), IsBranch(GetOp(inst)))
  {
    var t, op, b, a := Consume(s).0, GetOp(inst), GetB(inst), GetA(inst);
    var u := DispatchedSkipped(t, op, b, a);
    BasicExecutes(s, t, op, b, a, u);
    PassedFetched(s, u, NextWords(a) + if IsBranch(op) then NextWords(b) else StoreWords(b), IsBranch(op));
  }

  lemma {:induction false} BasicExecutes(s: State, t: State, op: Word, b: Word, a: Word, u: State)
    requires t == Consume(s).0 && op == GetOp(s.ram[s.pc]) && b == GetB(s.ram[s.pc]) && a == GetA(s.ram[s.pc])
    requires IsArithmetic(op) || IsBranch(op) || op == OP_STI || op == OP_STD
    requires u == if IsArithmetic(op) then Arithmetic(t, op, b, a) else if IsBranch(op) then Branch(t, op, b, a)
                  else StoreAndStep(t, if op == OP_STI then 1 else -1, b, a)
    ensures Execute(s) == Some((u, []))
  {
  }

  /** The operation of a basic instruction. */
  lemma {:induction false} DispatchedSkipped(t: State, op: Word, b: Word, a: Word) returns (u: State)
    requires t.skip && b < 64 && a < 64 && (IsArithmetic(op) || IsBranch(op) || op == OP_STI || op == OP_STD)
    ensures u == if IsArithmetic(op) then Arithmetic(t, op, b, a) else if IsBranch(op) then Branch(t, op, b, a)
                 else StoreAndStep(t, if op == OP_STI then 1 else -1, b, a)
    ensures Passed(t, u, NextWords(a) + if IsBranch(op) then NextWords(b) else StoreWords(b), IsBranch(op))
  {
    if IsArithmetic(op) {
      u := Arithmetic(t, op, b, a);
      ArithmeticSkipped(t, op, b, a);
    } else if IsBranch(op) {
      u := Branch(t, op, b, a);
      BranchSkipped(t, op, b, a);
    } else {
      u := StoreAndStep(t, if op == OP_STI then 1 else -1, b, a);
      StepSkipped(t, if op == OP_STI then 1 else -1, b, a);
    }
  }

  /** A skipped instruction changes nothing but the program counter and, if it is no condition, the skip flag. */
  lemma {:induction false} ExecuteSkipped(s: State, inst: Word)
    requires s.skip && s.ram[s.pc] == inst && Skippable(inst)
    ensures var r := Execute(s);
            r.Some? && r.value.1 == [] && Passed(s, r.value.0, SkippedSize(inst), IsBranch(GetOp(inst)))
  {
    if GetOp(inst) == OP_NONBASIC {
      var t, b, a := Consume(s).0, GetB(inst), GetA(inst);
      var n := if b == NBOP_IAG || b == NBOP_HWN then StoreWords(a) else NextWords(a);
      SpecialSkipped(t, b, a);
      PassedFetched(s, Special(t, b, a).value.0, n, false);
    } else {
      BasicSkipped(s, inst);
    }
  }

  predicate IsInt(inst: Word) {
    GetOp(inst) == OP_NONBASIC && GetB(inst) == NBOP_INT
  }

  /** An instruction that is neither skippable nor INT is invalid: it halts the machine even while skipping. */
  lemma {:induction false} InvalidHalts(s: State, inst: Word)
    requires s.ram[s.pc] == inst && !Skippable(inst) && !IsInt(inst)
    ensures Execute(s) == Some((Consume(s).0.(halted := true), []))
  {
  }

  /** The message that INT sends. */
  function IntMessage(s: State): Word {
    Resolve(Consume(s).0, GetA(s.ram[s.pc]), PosA).1
  }

  /** The machine behind a skipped instruction that has only been decoded. */
  function Stepped(s: State, cycles: nat): State {
    Advance(s, Size(s.ram[s.pc]), cycles)
  }

  lemma {:induction false} IntResolves(s: State, inst: Word)
    requires s.skip && s.ram[s.pc] == inst && IsInt(inst)
    ensures Execute(s) == Interrupt(Stepped(s, NextWords(GetA(inst)) + 3), IntMessage(s))
  {
    var t := Consume(s).0;
    IntExecutes(s, inst, t, Resolve(t, GetA(inst), PosA).0);
    IntSteps(s, inst, t, Resolve(t, GetA(inst), PosA).0);
  }

  lemma {:induction false} IntExecutes(s: State, inst: Word, t: State, u: State)
    requires s.ram[s.pc] == inst && IsInt(inst) && t == Consume(s).0 && u == Resolve(t, GetA(inst), PosA).0
    ensures Execute(s) == Interrupt(Sleep(u, 3), IntMessage(s))
  {
  }

  lemma {:induction false} IntSteps(s: State, inst: Word, t: State, u: State)
    requires s.skip && s.ram[s.pc] == inst && IsInt(inst) && t == Consume(s).0 && u == Resolve(t, GetA(inst), PosA).0
    ensures Sleep(u, 3) == Stepped(s, NextWords(GetA(inst)) + 3)
  {
    ResolveSkipping(t, GetA(inst), PosA);
    AdvanceTwice(s, 1, 0, NextWords(GetA(inst)), NextWords(GetA(inst)));
    AdvanceTwice(s, Size(inst), NextWords(GetA(inst)), 0, 3);
  }

  /** INT is never passed over: it clears no skip flag unless it is dispatched, and then the handler is entered. */
  lemma {:induction false} IntIsNotPassed(s: State, inst: Word)
    requires s.skip && !s.halted && s.ram[s.pc] == inst && IsInt(inst) && Execute(s).Some?
    ensures !Passed(s, Execute(s).value.0, Size(inst), false)
  {
    IntResolves(s, inst);
  }

  /**
   Exactly when a skipped instruction is passed, by its whole length, with the skip flag kept by a condition
   and cleared by any other instruction: if and only if the flag applies to it and it does not name a
   literal as its destination.
   */
  lemma {:induction false} PassedWhole(s: State, inst: Word)
    requires s.skip && !s.halted && s.ram[s.pc] == inst
    ensures Execute(s).Some? && Passed(s, Execute(s).value.0, Size(inst), IsBranch(GetOp(inst))) <==>
            Skippable(inst) && !StoresToLiteral(inst)
  {
    if Skippable(inst) {
      ExecuteSkipped(s, inst);
    } else if IsInt(inst) {
      if Execute(s).Some? { IntIsNotPassed(s, inst); }
    } else {
      InvalidHalts(s, inst);
    }
  }

  // ----- The chain -----

  /** The address behind the first `k` instructions from `pc` on. */
  function Behind(ram: Ram, pc: Word, k: nat): Word {
    if k == 0 then pc
    else
      var before := Behind(ram, pc, k - 1);
      Wrap(before + Size(ram[before]))
  }

  /** `k` conditions, and then one other instruction that can be skipped whole. */
  ghost predicate Chain(ram: Ram, pc: Word, k: nat) {
    && (forall i :: 0 <= i < k ==> IsBranch(GetOp(ram[Behind(ram, pc, i)])))
    && var last := ram[Behind(ram, pc, k)];
       !IsBranch(GetOp(last)) && Skippable(last) && !StoresToLiteral(last)
  }

  /** No queued message is about to be dispatched. */
  predicate Undisturbed(s: State) {
    !s.halted && (s.queueing || s.queue == [])
  }

  /** `n` calls of `vm_cycle`. */
  function Cycles(s: State, n: nat): Option<State> {
    if n == 0 then Some(s)
    else match Cycles(s, n - 1)
         case None => None
         case Some(t) =>
           match Cycle(t)
           case None => None
           case Some((u, _)) => Some(u)
  }

  /** Cycles spent asleep change nothing else. */
  lemma {:induction false} Idle(s: State, n: nat)
    requires n <= s.sleep
    ensures Cycles(s, n) == Some(s.(sleep := s.sleep - n))
  {
    if n > 0 {
      Idle(s, n - 1);
      IdleOnce(s.(sleep := s.sleep - (n - 1)));
    }
  }

  lemma {:induction false} IdleOnce(s: State)
    requires s.sleep > 0
    ensures Cycle(s) == Some((s.(sleep := s.sleep - 1), []))
  {
  }

  lemma {:induction false} CyclesAdd(s: State, n: nat, m: nat)
    ensures Cycles(s, n + m) == match Cycles(s, n) case None => None case Some(t) => Cycles(t, m)
  {
    if m > 0 { CyclesAdd(s, n, m - 1); }
  }

  lemma {:induction false} CycleExecutes(s: State, t: State)
    requires s.sleep == 0 && Undisturbed(s) && Execute(s) == Some((t, []))
    ensures Cycle(s) == Some((t, []))
  {
    var none: seq<Event> := [];
    assert TakeMessage(s) == Some((s, none)) && none + none == none;
  }

  lemma {:induction false} OneCycle(s: State, t: State)
    requires Cycle(s) == Some((t, []))
    ensures Cycles(s, 1) == Some(t)
  {
    assert Cycles(s, 0) == Some(s);
  }

  /** An instruction executed, and then slept off. */
  lemma {:induction false} ExecuteAndIdle(s: State, t: State) returns (n: nat)
    requires Cycle(s) == Some((t, []))
    ensures n > 0 && Cycles(s, n) == Some(t.(sleep := 0))
  {
    OneCycle(s, t);
    Idle(t, t.sleep);
    CyclesAdd(s, 1, t.sleep);
    n := 1 + t.sleep;
  }

  /** One instruction and the cycles it sleeps. */
  lemma {:induction false} SkipOne(s: State, inst: Word) returns (n: nat)
    requires s.skip && s.sleep == 0 && Undisturbed(s) && s.ram[s.pc] == inst && Skippable(inst) &&
             !StoresToLiteral(inst)
    ensures n > 0 && Cycles(s, n) == Some(s.(pc := Wrap(s.pc + Size(inst)), skip := IsBranch(GetOp(inst))))
  {
    ExecuteSkipped(s, inst);
    CycleExecutes(s, Execute(s).value.0);
    n := ExecuteAndIdle(s, Execute(s).value.0);
  }

  /** One more instruction of the chain. */
  lemma {:induction false} SkipNext(s: State, k: nat, n: nat) returns (m: nat)
    requires s.skip && s.sleep == 0 && Undisturbed(s) && Cycles(s, n) == Some(s.(pc := Behind(s.ram, s.pc, k)))
    requires var inst := s.ram[Behind(s.ram, s.pc, k)]; Skippable(inst) && !StoresToLiteral(inst)
    ensures Cycles(s, m) == Some(s.(pc := Behind(s.ram, s.pc, k + 1),
                                    skip := IsBranch(GetOp(s.ram[Behind(s.ram, s.pc, k)]))))
  {
    var at := Behind(s.ram, s.pc, k);
    var t := s.(pc := at);
    var d := SkipOne(t, s.ram[at]);
    CyclesAdd(s, n, d);
    m := n + d;
  }

  lemma {:induction false} SkipConditions(s: State, k: nat) returns (n: nat)
    requires s.skip && s.sleep == 0 && Undisturbed(s)
    requires forall i :: 0 <= i < k ==> IsBranch(GetOp(s.ram[Behind(s.ram, s.pc, i)]))
    ensures Cycles(s, n) == Some(s.(pc := Behind(s.ram, s.pc, k)))
  {
    n := 0;
    for i := 0 to k
      invariant Cycles(s, n) == Some(s.(pc := Behind(s.ram, s.pc, i)))
    {
      BranchesAreSkippable(s.ram[Behind(s.ram, s.pc, i)]);
      n := SkipNext(s, i, n);
    }
  }

  lemma {:induction false} BranchesAreSkippable(inst: Word)
    requires IsBranch(GetOp(inst))
    ensures Skippable(inst) && !StoresToLiteral(inst)
  {
  }

  /**
   From a failed condition, exactly one chain is passed: after some cycles the program counter is behind
   all `k` further conditions and the instruction that ends the chain, the skip flag is clear, and every
   register, memory word, SP, EX, IA and the interrupt queue is as before.
   */
  lemma {:induction false} SkipPassesOneChain(s: State, k: nat) returns (n: nat)
    requires s.skip && s.sleep == 0 && Undisturbed(s) && Chain(s.ram, s.pc, k)
    ensures Cycles(s, n) == Some(s.(pc := Behind(s.ram, s.pc, k + 1), skip := false))
  {
    n := SkipConditions(s, k);
    n := SkipNext(s, k, n);
  }
}
