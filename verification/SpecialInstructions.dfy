/**
 The special instructions of the DCPU-16, and STI and STD, executed without being skipped (libdcpu-vm/dcpuops.c), and
 what an interrupt does to a machine that is not skipping (libdcpu-vm/vm.c).
 */
module SpecialInstructions {
  import opened Words
  import opened Dcpu
  import opened Machine
  import opened Operands
  import opened Instructions
  import Skipping
  import CarryStep

  /** At PC stands a special instruction with the operand `m`, and it is not skipped. */
  ghost predicate StandsSpecial(s: State, nbop: Word, m: Mode) {
    && !s.skip && nbop < 32 && IsMode(m, PosA) && s.ram[s.pc] == Create(0, nbop, CodeOf(m))
    && NextIsThere(Fetched(s), m)
  }

  lemma {:induction false} DecodesSpecial(s: State, nbop: Word, m: Mode)
    requires StandsSpecial(s, nbop, m)
    ensures GetOp(s.ram[s.pc]) == 0 && GetB(s.ram[s.pc]) == nbop && GetA(s.ram[s.pc]) == CodeOf(m)
  {
    CodesFit(m, PosA);
    FieldsOfCreate(0, nbop, CodeOf(m));
  }

  lemma {:induction false} RunsSpecial(s: State, nbop: Word, m: Mode)
    requires StandsSpecial(s, nbop, m)
    ensures Execute(s) == Special(Fetched(s), nbop, CodeOf(m))
    ensures Resolve(Fetched(s), CodeOf(m), PosA) == (SourceRead(s, m), SourceValue(s, m))
    ensures SourceRead(s, m).skip == false
  {
    DecodesSpecial(s, nbop, m);
    ExecutesSpecial(s);
    Reads(Fetched(s), m, PosA);
    PastKeeps(Fetched(s), m, PosA);
  }

  lemma {:induction false} ExecutesSpecial(s: State)
    requires GetOp(s.ram[s.pc]) == 0
    ensures Execute(s) == Special(Fetched(s), GetB(s.ram[s.pc]), GetA(s.ram[s.pc]))
  {
  }

  // ----- Subroutines -----

  /** The machine after JSR: PC has been pushed. */
  function Called(t: State, target: Word): State {
    t.(sp := Wrap(t.sp - 1), ram := t.ram[Wrap(t.sp - 1) := t.pc], pc := target, sleep := Wrap(t.sleep + 2))
  }

  /** JSR pushes the address behind itself and jumps, for three cycles. */
  lemma {:induction false} CallingPushes(s: State, m: Mode)
    requires StandsSpecial(s, NBOP_JSR, m)
    ensures Execute(s) == Some((Called(SourceRead(s, m), SourceValue(s, m)), []))
  {
    RunsSpecial(s, NBOP_JSR, m);
    Jumps(Fetched(s), CodeOf(m), SourceRead(s, m), SourceValue(s, m));
  }

  lemma {:induction false} Jumps(s: State, a: Word, t: State, w: Word)
    requires Resolve(s, a, PosA) == (t, w) && !t.skip
    ensures Special(s, NBOP_JSR, a) == Some((Called(t, w), []))
  {
  }

  /** The subroutine has left the return address where JSR put it, and SP points to it. */
  ghost predicate Balanced(called: State, t: State) {
    t.sp == called.sp && t.ram[t.sp] == called.ram[called.sp]
  }

  lemma {:induction false} JumpsBack(t: State, u: State)
    requires Stands(t, OP_SET, OfPc, Stack) && Execute(t) == Some((u, []))
    ensures u == t.(pc := t.ram[t.sp], sp := Wrap(t.sp + 1))
  {
    SetValue(t, OfPc, Stack, u);
    PcPopped(t);
  }

  lemma {:induction false} PcPopped(t: State)
    ensures Written(SourceRead(t, Stack), OfPc, PosB, SourceValue(t, Stack)) ==
            t.(pc := t.ram[t.sp], sp := Wrap(t.sp + 1))
  {
  }

  /**
   JSR, any balanced subroutine and SET PC, POP: execution goes on behind the JSR, with the stack pointer from
   before the call.
   */
  lemma {:induction false} SubroutineReturns(s: State, m: Mode, called: State, t: State, u: State)
    requires StandsSpecial(s, NBOP_JSR, m) && Execute(s) == Some((called, []))
    requires Balanced(called, t) && Stands(t, OP_SET, OfPc, Stack) && Execute(t) == Some((u, []))
    ensures called.pc == SourceValue(s, m)
    ensures u == t.(pc := Wrap(s.pc + if HasNext(m) then 2 else 1), sp := SourceRead(s, m).sp)
  {
    CallingPushes(s, m);
    JumpsBack(t, u);
    ReturnsTo(SourceRead(s, m), SourceValue(s, m), t);
    ReturnAddress(s, m);
  }

  lemma {:induction false} ReturnsTo(s: State, target: Word, t: State)
    requires Balanced(Called(s, target), t)
    ensures t.ram[t.sp] == s.pc && Wrap(t.sp + 1) == s.sp
  {
    SpReturns(s.sp);
  }

  lemma {:induction false} ReturnAddress(s: State, m: Mode)
    ensures SourceRead(s, m).pc == Wrap(s.pc + if HasNext(m) then 2 else 1)
  {
    Skipping.WrapTwice(s.pc + 1, 1);
  }

  lemma {:induction false} SpReturns(sp: Word)
    ensures Wrap(Wrap(sp - 1) + 1) == sp
  {
  }

  // ----- STI and STD -----

  /** I and J moved by one. */
  function Stepped(s: State, step: int): State {
    s.(registers := s.registers[6 := Wrap(s.registers[6] + step)][7 := Wrap(s.registers[7] + step)])
  }

  /** STI and STD are SET, and then both index registers move, also if one of them has just been set. */
  lemma {:induction false} SetAndStep(s: State, op: Word, dst: Mode, src: Mode)
    requires Stands(s, op, dst, src) && (op == OP_STI || op == OP_STD)
    ensures Execute(s) == Some((Stepped(Written(SourceRead(s, src), dst, PosB, SourceValue(s, src)),
                                        if op == OP_STI then 1 else -1), []))
  {
    var u, w := SourceRead(s, src), SourceValue(s, src);
    Decodes(s, op, dst, src);
    OperandsFound(s, op, dst, src, u);
    PastKeeps(u, dst, PosB);
    PlaceIsWritten(u, dst, PosB, w);
    StepIs(Fetched(s), if op == OP_STI then 1 else -1, dst, src, u, w);
  }

  lemma {:induction false} StepIs(t: State, step: int, dst: Mode, src: Mode, u: State, w: Word)
    requires IsMode(dst, PosB) && IsMode(src, PosA) && Resolve(t, CodeOf(src), PosA) == (u, w)
    requires GetStore(u, CodeOf(dst), PosB) == (if dst.Literal? then u else Past(u, dst, PosB), PlaceOf(u, dst, PosB))
    requires !u.skip && Past(u, dst, PosB).skip == u.skip
    requires Store(if dst.Literal? then u else Past(u, dst, PosB), PlaceOf(u, dst, PosB), w) == Written(u, dst, PosB, w)
    ensures StoreAndStep(t, step, CodeOf(dst), CodeOf(src)) == Stepped(Written(u, dst, PosB, w), step)
  {
  }

  // ----- Interrupt handling -----

  lemma {:induction false} StoresSpecial(s: State, nbop: Word, m: Mode, cycles: nat, w: Word)
    requires StandsSpecial(s, nbop, m)
    ensures StoreSpecial(Fetched(s), CodeOf(m), cycles, w) == Sleep(Written(Fetched(s), m, PosA, w), cycles)
  {
    var t := Fetched(s);
    Finds(t, m, PosA);
    PlaceIsWritten(t, m, PosA, w);
    PastKeeps(t, m, PosA);
    var v := if m.Literal? then t else Past(t, m, PosA);
    CarryStep.StoreSleeps(v, PlaceOf(t, m, PosA), w, Sleep(v, cycles).sleep);
  }

  /** What IAS sets as the handler, IAG gives back later. */
  lemma {:induction false} HandlerIsGivenBack(s: State, src: Mode, t: State, u: State, dst: Mode)
    requires StandsSpecial(s, NBOP_IAS, src) && Execute(s) == Some((t, []))
    requires StandsSpecial(u, NBOP_IAG, dst) && u.ia == t.ia
    ensures t == SourceRead(s, src).(ia := SourceValue(s, src))
    ensures Execute(u) == Some((Written(Fetched(u), dst, PosA, SourceValue(s, src)), []))
  {
    RunsSpecial(s, NBOP_IAS, src);
    RunsSpecial(u, NBOP_IAG, dst);
    StoresSpecial(u, NBOP_IAG, dst, 0, u.ia);
    SleepsNot(Written(Fetched(u), dst, PosA, u.ia));
  }

  lemma {:induction false} SleepsNot(s: State)
    ensures Sleep(s, 0) == s
  {
  }

  /** The machine after RFI: A and PC popped, messages delivered from now on. */
  function Resumed(s: State): State {
    s.(registers := s.registers[0 := s.ram[s.sp]], pc := s.ram[Wrap(s.sp + 1)], sp := Wrap(s.sp + 2),
       queueing := false, sleep := Wrap(s.sleep + 2))
  }

  /** RFI reads its operand, then resumes, for three cycles. */
  lemma {:induction false} ReturningPops(s: State, m: Mode)
    requires StandsSpecial(s, NBOP_RFI, m)
    ensures Execute(s) == Some((Resumed(SourceRead(s, m)), [Enabled]))
  {
    RunsSpecial(s, NBOP_RFI, m);
    Resumes(Fetched(s), CodeOf(m), SourceRead(s, m), SourceValue(s, m));
  }

  lemma {:induction false} Resumes(s: State, a: Word, t: State, w: Word)
    requires Resolve(s, a, PosA) == (t, w) && !t.skip
    ensures Special(s, NBOP_RFI, a) == Some((Resumed(t), [Enabled]))
  {
  }

  /** Interrupts are queued from now on, or not any more. */
  function Masked(s: State, on: bool): (State, seq<Event>) {
    (s.(queueing := on, sleep := Wrap(s.sleep + 1)), [if on then Disabled else Enabled])
  }

  /** IAQ turns queueing off for zero and on for everything else, for two cycles. */
  lemma {:induction false} QueueingIsSet(s: State, m: Mode)
    requires StandsSpecial(s, NBOP_IAQ, m)
    ensures Execute(s) == Some(Masked(SourceRead(s, m), SourceValue(s, m) != 0))
  {
    RunsSpecial(s, NBOP_IAQ, m);
    Masks(Fetched(s), CodeOf(m), SourceRead(s, m), SourceValue(s, m));
  }

  lemma {:induction false} Masks(s: State, a: Word, t: State, w: Word)
    requires Resolve(s, a, PosA) == (t, w) && !t.skip
    ensures Special(s, NBOP_IAQ, a) == Some(Masked(t, w != 0))
  {
  }

  /** An interrupt while messages are queued: the message becomes the last one, and a 256th halts the machine. */
  lemma {:induction false} InterruptIsQueued(s: State, message: Word)
    requires s.queueing
    ensures Interrupt(s, message).Some?
    ensures Interrupt(s, message).value.0 ==
            if |s.queue| < 255 then s.(queue := s.queue + [message]) else s.(halted := true)
  {
  }

  /**
   An interrupt while messages are delivered: ignored if there is no handler; otherwise PC and then A are pushed, A is
   the message, PC the handler, and further messages are queued.
   */
  lemma {:induction false} InterruptIsDelivered(s: State, message: Word)
    requires !s.queueing && !s.skip
    ensures Interrupt(s, message).Some?
    ensures var t := Interrupt(s, message).value.0; if s.ia == 0 then t == s else Entered(s, message, t)
  {
    if s.ia != 0 { HandlerIsEntered(s, message, Interrupt(s, message).value.0); }
  }

  /** The handler has just been entered. */
  ghost predicate Entered(s: State, message: Word, t: State) {
    && t == s.(registers := s.registers[0 := message], ram := t.ram, sp := Wrap(s.sp - 2), pc := s.ia, queueing := true)
    && t.ram == s.ram[Wrap(s.sp - 1) := s.pc][Wrap(s.sp - 2) := s.registers[0]]
  }

  lemma {:induction false} HandlerIsEntered(s: State, message: Word, t: State)
    requires t == Dispatch(s, s.pc, message) && !s.skip
    ensures Entered(s, message, t)
  {
    SpTwice(s.sp);
  }

  lemma {:induction false} SpTwice(sp: Word)
    ensures Wrap(Wrap(sp - 1) - 1) == Wrap(sp - 2)
  {
  }

  /** INT is an interrupt with its operand as the message, for four cycles. */
  lemma {:induction false} IntRaises(s: State, m: Mode)
    requires StandsSpecial(s, NBOP_INT, m)
    ensures Execute(s) == Interrupt(Sleep(SourceRead(s, m), 3), SourceValue(s, m))
  {
    RunsSpecial(s, NBOP_INT, m);
  }

  // ----- Cycles -----

  /** A cycle that the last instruction or interrupt still costs. */
  lemma {:induction false} AsleepOnlyWaits(s: State)
    requires s.sleep > 0
    ensures Cycle(s) == Some((s.(sleep := s.sleep - 1), []))
  {
  }

  /** Without a message to deliver, a cycle executes one instruction, unless the machine is halted. */
  lemma {:induction false} AwakeExecutes(s: State)
    requires s.sleep == 0 && (s.queueing || s.queue == [])
    ensures if s.halted then Cycle(s) == Some((s, [])) else Cycle(s) == Execute(s)
  {
    if !s.halted && Execute(s).Some? { assert [] + Execute(s).value.1 == Execute(s).value.1; }
  }

  /** The state that a cycle ends in is that of the instruction executed in the state `t`. */
  ghost predicate EndsAs(r: Option<(State, seq<Event>)>, t: State) {
    r.Some? == Execute(t).Some? && (r.Some? ==> r.value.0 == Execute(t).value.0)
  }

  /** The oldest message is delivered first, and the first instruction of the handler executed in the same cycle. */
  lemma {:induction false} OldestIsDelivered(s: State, message: Word, rest: seq<Word>) returns (t: State)
    requires s.sleep == 0 && !s.queueing && !s.skip && !s.halted && s.ia != 0 && s.queue == [message] + rest
    ensures Entered(s.(queue := rest), message, t) && EndsAs(Cycle(s), t)
  {
    var u := s.(queue := rest);
    t := Dispatch(u, u.pc, message);
    HandlerIsEntered(u, message, t);
    assert s.queue[1..] == rest;
    assert TakeMessage(s) == Some((t, [Left(message)] + [Dispatched(message)]));
  }

  // ----- Hardware -----

  /** HWN stores the number of devices, for two cycles. */
  lemma {:induction false} DevicesAreCounted(s: State, m: Mode)
    requires StandsSpecial(s, NBOP_HWN, m) && |s.devices| < 0x10000
    ensures Execute(s) == Some((Sleep(Written(Fetched(s), m, PosA, |s.devices|), 1), []))
  {
    RunsSpecial(s, NBOP_HWN, m);
    StoresSpecial(s, NBOP_HWN, m, 1, |s.devices|);
  }

  /** The registers A to Y hold the two numbers of a device, the low words first, and its version. */
  predicate Identifies(r: Registers, d: Device) {
    Long(r[0], r[1]) == d.id && r[2] == d.version && Long(r[3], r[4]) == d.manufacturer
  }

  function Long(low: int, high: int): int {
    low + 0x10000 * high
  }

  lemma {:induction false} LongOfWords(x: Machine.Long)
    ensures Long(Wrap(x), Wrap(x / 0x10000)) == x
  {
  }

  /** HWQ tells in the registers A, B, C, X and Y which device it is; they stay as they are if there is none. */
  lemma {:induction false} DeviceIsQueried(s: State, m: Mode, t: State)
    requires StandsSpecial(s, NBOP_HWQ, m) && Execute(s) == Some((t, []))
    ensures var u := SourceRead(s, m); t == u.(registers := t.registers, sleep := Wrap(u.sleep + 3))
    ensures var i := SourceValue(s, m);
            if i < |s.devices| then Identifies(t.registers, s.devices[i]) else t.registers == s.registers
    ensures t.registers[5..] == s.registers[5..]
  {
    RunsSpecial(s, NBOP_HWQ, m);
    PastKeeps(Fetched(s), m, PosA);
    Queries(Fetched(s), CodeOf(m), SourceRead(s, m), SourceValue(s, m), QueryHardware(Fetched(s), CodeOf(m)));
  }

  lemma {:induction false} Queries(s: State, a: Word, u: State, i: Word, t: State)
    requires Resolve(s, a, PosA) == (u, i) && !u.skip && t == QueryHardware(s, a)
    ensures t == u.(registers := t.registers, sleep := Wrap(u.sleep + 3))
    ensures if i < |u.devices| then Identifies(t.registers, u.devices[i]) else t.registers == u.registers
    ensures t.registers[5..] == u.registers[5..]
  {
    if i < |u.devices| {
      LongOfWords(u.devices[i].id);
      LongOfWords(u.devices[i].manufacturer);
    }
  }

  /** HWI costs four cycles; what the device does is not part of the instruction. */
  lemma {:induction false} DeviceIsCalled(s: State, m: Mode)
    requires StandsSpecial(s, NBOP_HWI, m)
    ensures Execute(s) == Some((Sleep(SourceRead(s, m), 3), []))
  {
    RunsSpecial(s, NBOP_HWI, m);
    Calls(Fetched(s), CodeOf(m), SourceRead(s, m), SourceValue(s, m));
  }

  lemma {:induction false} Calls(s: State, a: Word, t: State, w: Word)
    requires Resolve(s, a, PosA) == (t, w) && !t.skip
    ensures Special(s, NBOP_HWI, a) == Some((Sleep(t, 3), []))
  {
  }

  // ----- Invalid instructions -----

  /** Opcodes that `vm_cycle` knows. */
  predicate IsKnown(op: Word, nbop: Word) {
    if op == 0 then nbop in {0x01, 0x08, 0x09, 0x0A, 0x0B, 0x0C, 0x10, 0x11, 0x12}
    else op <= 0x17 || op in {0x1A, 0x1B, 0x1E, 0x1F}
  }

  /** An unknown opcode halts the machine behind the instruction word. */
  lemma {:induction false} UnknownHalts(s: State)
    requires !IsKnown(GetOp(s.ram[s.pc]), GetB(s.ram[s.pc]))
    ensures Execute(s) == Some((s.(pc := Wrap(s.pc + 1), halted := true), []))
  {
  }
}
