/**
 The DCPU-16 virtual machine (libdcpu-vm/vm.c, libdcpu-vm/dcpuops.c) as a function from state to state.
 Devices and hooks act between cycles; here a hardware interrupt only costs cycles.
 */
module Machine {
  import opened Words
  import opened Dcpu
  import opened Bits

  type Ram = r: seq<Word> | |r| == 0x10000 witness seq(0x10000, _ => 0)
  type Registers = r: seq<Word> | |r| == 8 witness seq(8, _ => 0)

  type Long = x: int | 0 <= x < 0x1_0000_0000

  datatype Device = Device(id: Long, version: Word, manufacturer: Long)

  datatype State = State(
    registers: Registers, ram: Ram, pc: Word, sp: Word, ex: Word, ia: Word, dummy: Word, skip: bool,
    queueing: bool, queue: seq<Word>, sleep: Word, halted: bool, devices: seq<Device>)

  const INTERRUPT_MAX := 255

  const A := 0
  const B := 1
  const C := 2
  const X := 3
  const Y := 4
  const I := 6
  const J := 7

  /** Which operand field is being read. */
  datatype Position = PosA | PosB

  /** A place an operand can be stored to. */
  datatype Place = Register(r: nat) | Memory(a: Word) | TheSp | ThePc | TheEx | Nowhere

  function Sleep(s: State, cycles: nat): State {
    s.(sleep := Wrap(s.sleep + cycles))
  }

  /** `vm_consume_word` */
  function Consume(s: State): (State, Word) {
    (s.(pc := Wrap(s.pc + 1)), s.ram[s.pc])
  }

  /** The stack cell an operand of that position denotes, and the new stack pointer. */
  function Stack(s: State, pos: Position): (State, Word) {
    match pos
    case PosA => (s.(sp := Wrap(s.sp + 1)), s.sp)
    case PosB => (s.(sp := Wrap(s.sp - 1)), Wrap(s.sp - 1))
  }

  /** `vm_resolve_value` */
  function Resolve(s: State, code: Word, pos: Position): (State, Word) {
    if code <= REG_J then (s, s.registers[code])
    else if code <= VAL_J then (s, s.ram[s.registers[code - VAL_A]])
    else if code <= NXT_VAL_J then
      var (t, w) := Consume(Sleep(s, 1));
      (t, s.ram[Wrap(s.registers[code - NXT_VAL_A] + w)])
    else if code == PUSH_POP then
      if s.skip then (s, s.dummy)
      else
        var (t, a) := Stack(s, pos);
        (t, s.ram[a])
    else if code == PEEK then (s, s.ram[s.sp])
    else if code == PICK then
      var (t, w) := Consume(Sleep(s, 1));
      (t, s.ram[Wrap(s.sp + w)])
    else if code == SP then (s, s.sp)
    else if code == PC then (s, s.pc)
    else if code == EX then (s, s.ex)
    else if code == NXT then
      var (t, w) := Consume(Sleep(s, 1));
      (t, s.ram[w])
    else if code == NXT_LIT then Consume(Sleep(s, 1))
    else (s, ShortLiteral(code))
  }

  /** `vm_internal_get_store`; while skipping, nothing is stored to. */
  function GetStore(s: State, code: Word, pos: Position): (State, Place) {
    if s.skip then
      if IsIndexed(code) || code == NXT || code == PICK then (Consume(s).0, Nowhere) else (s, Nowhere)
    else if code <= REG_J then (s, Register(code))
    else if code <= VAL_J then (s, Memory(s.registers[code - VAL_A]))
    else if code <= NXT_VAL_J then
      var (t, w) := Consume(Sleep(s, 1));
      (t, Memory(Wrap(s.registers[code - NXT_VAL_A] + w)))
    else if code == PUSH_POP then
      var (t, a) := Stack(s, pos);
      (t, Memory(a))
    else if code == PEEK then (s, Memory(s.sp))
    else if code == PICK then
      var (t, w) := Consume(Sleep(s, 1));
      (t, Memory(Wrap(s.sp + w)))
    else if code == SP then (s, TheSp)
    else if code == PC then (s, ThePc)
    else if code == EX then (s, TheEx)
    else if code == NXT then
      var (t, w) := Consume(Sleep(s, 1));
      (t, Memory(w))
    else (s, Nowhere)
  }

  function Load(s: State, p: Place): Word {
    match p
    case Register(r) => if r < 8 then s.registers[r] else s.dummy
    case Memory(a) => s.ram[a]
    case TheSp => s.sp
    case ThePc => s.pc
    case TheEx => s.ex
    case Nowhere => s.dummy
  }

  function Store(s: State, p: Place, w: Word): State {
    match p
    case Register(r) => if r < 8 then s.(registers := s.registers[r := w]) else s.(dummy := w)
    case Memory(a) => s.(ram := s.ram[a := w])
    case TheSp => s.(sp := w)
    case ThePc => s.(pc := w)
    case TheEx => s.(ex := w)
    case Nowhere => s.(dummy := w)
  }

  // ----- Arithmetic -----

  function Signed(w: Word): int {
    if w < 0x8000 then w else w - 0x10000
  }

  /** Division of C: the quotient is rounded towards zero. */
  function Quotient(x: int, y: int): int
    requires y != 0
  {
    if x >= 0 then x / y else -((-x) / y)
  }

  function Remainder(x: int, y: int): int
    requires y != 0
  {
    x - y * Quotient(x, y)
  }

  function Int32(x: int): int {
    var m := x % 0x1_0000_0000;
    if m < 0x8000_0000 then m else m - 0x1_0000_0000
  }

  function Unsigned64(x: int): (r: nat)
    ensures x != 0 && -0x8000 <= x < 0x8000 ==> r != 0
  {
    x % 0x1_0000_0000_0000_0000
  }

  /** EX after an addition or subtraction with the exact result `x`. */
  function Flow(x: int): Word {
    if x < 0 then 0xFFFF else if x > 0xFFFF then 0x0001 else 0x0000
  }

  const OP_SET: Word := 0x01
  const OP_ADD: Word := 0x02
  const OP_SUB: Word := 0x03
  const OP_MUL: Word := 0x04
  const OP_MLI: Word := 0x05
  const OP_DIV: Word := 0x06
  const OP_DVI: Word := 0x07
  const OP_MOD: Word := 0x08
  const OP_MDI: Word := 0x09
  const OP_AND: Word := 0x0A
  const OP_BOR: Word := 0x0B
  const OP_XOR: Word := 0x0C
  const OP_SHR: Word := 0x0D
  const OP_ASR: Word := 0x0E
  const OP_SHL: Word := 0x0F
  const OP_IFB: Word := 0x10
  const OP_IFU: Word := 0x17
  const OP_ADX: Word := 0x1A
  const OP_SBX: Word := 0x1B
  const OP_STI: Word := 0x1E
  const OP_STD: Word := 0x1F

  /** Opcodes that compute a value from both operands and store it. */
  predicate IsArithmetic(op: Word) {
    OP_SET <= op <= OP_SHL || op == OP_ADX || op == OP_SBX
  }

  predicate IsBranch(op: Word) {
    OP_IFB <= op <= OP_IFU
  }

  /** The signed division of DVI; EX comes from an unsigned 64-bit division. */
  function DivideSigned(b: Word, a: Word): (Word, Word) {
    if a == 0 then (0, 0)
    else
      var x, y := Signed(b), Signed(a);
      (Wrap(Quotient(x, y)), Wrap(Unsigned64(Unsigned64(x) * 0x10000) / Unsigned64(y)))
  }

  function ModuloSigned(b: Word, a: Word): Word {
    if a == 0 then 0
    else
      var r := Remainder(Signed(b), a);
      Wrap(if r < 0 then r + a else r)
  }

  /** The shifts, for shift amounts modulo 32. */
  function Shift(op: Word, b: Word, a: Word): (Word, Word) {
    var n := Pow2(a % 32);
    if op == OP_SHR then (Wrap(b / n), Wrap(Int32(b * 0x10000) / n))
    else if op == OP_ASR then (Wrap(Signed(b) / n), Wrap(Signed(b) * 0x10000 / n))
    else (Wrap(b * n), Wrap(Int32(b * n) / 0x10000))
  }

  function Logic(op: Word, b: Word, a: Word): Word {
    Bitwise(if op == OP_AND then AndGate else if op == OP_BOR then OrGate else XorGate, b, a)
  }

  /** The value stored, and the new EX where the operation sets it. */
  function Compute(op: Word, b: Word, a: Word, ex: Word): (Word, Option<Word>) {
    if op == OP_SET then (a, None)
    else if op == OP_ADD then (Wrap(b + a), Some(Flow(b + a)))
    else if op == OP_SUB then (Wrap(b - a), Some(Flow(b - a)))
    else if op == OP_MUL then (Wrap(b * a), Some(Wrap(b * a / 0x10000)))
    else if op == OP_MLI then (Wrap(Signed(b) * Signed(a)), Some(Wrap(Signed(b) * Signed(a) / 0x10000)))
    else if op == OP_DIV then if a == 0 then (0, Some(0)) else (Wrap(b / a), Some(Wrap(b * 0x10000 / a)))
    else if op == OP_DVI then (DivideSigned(b, a).0, Some(DivideSigned(b, a).1))
    else if op == OP_MOD then (if a == 0 then 0 else Wrap(b % a), None)
    else if op == OP_MDI then (ModuloSigned(b, a), None)
    else if OP_AND <= op <= OP_XOR then (Logic(op, b, a), None)
    else if OP_SHR <= op <= OP_SHL then (Shift(op, b, a).0, Some(Shift(op, b, a).1))
    else if op == OP_ADX then (Wrap(b + a + ex), Some(Flow(b + a + Signed(ex))))
    else if op == OP_SBX then (Wrap(b - a + ex), Some(Flow(b - a + Signed(ex))))
    else (b, None)
  }

  /** The cycles an opcode costs beyond the first. */
  function ExtraCycles(op: Word): nat {
    if op == OP_ADD || op == OP_SUB || op == OP_MUL || op == OP_MLI then 1
    else if OP_DIV <= op <= OP_MDI || op == OP_ADX || op == OP_SBX then 2
    else 0
  }

  /** The result written, then EX. */
  function Finish(s: State, p: Place, value: Word, ex: Option<Word>): State {
    var t := Store(s, p, value);
    if ex.Some? then t.(ex := ex.value) else t
  }

  function Unskip(s: State): State {
    s.(skip := false)
  }

  /** The operation itself, on operands already found. */
  function Operate(s: State, op: Word, p: Place, a: Word): State {
    var (value, ex) := Compute(op, Load(s, p), a, s.ex);
    Finish(s, p, value, ex)
  }

  /** SET, the arithmetic, logic and shift instructions, ADX and SBX. */
  function Arithmetic(s: State, op: Word, b: Word, a: Word): State {
    var (t, valA) := Resolve(s, a, PosA);
    var (u, p) := GetStore(t, b, PosB);
    var v := Sleep(u, ExtraCycles(op));
    if v.skip then Unskip(v) else Operate(v, op, p, valA)
  }

  /** Whether a branch instruction lets the next instruction run. */
  function Holds(op: Word, b: Word, a: Word): bool {
    if op == 0x10 then Bitwise(AndGate, b, a) != 0
    else if op == 0x11 then Bitwise(AndGate, b, a) == 0
    else if op == 0x12 then b == a
    else if op == 0x13 then b != a
    else if op == 0x14 then b > a
    else if op == 0x15 then Signed(b) > Signed(a)
    else if op == 0x16 then b < a
    else Signed(b) < Signed(a)
  }

  /** IFB to IFU; while skipping they keep skipping. */
  function Branch(s: State, op: Word, b: Word, a: Word): State {
    var (t, valA) := Resolve(s, a, PosA);
    var (u, valB) := Resolve(t, b, PosB);
    if u.skip then u else u.(skip := !Holds(op, valB, valA))
  }

  /** STI and STD */
  function StoreAndStep(s: State, step: int, b: Word, a: Word): State {
    var (t, valA) := Resolve(s, a, PosA);
    var (u, p) := GetStore(t, b, PosB);
    if u.skip then Unskip(u)
    else
      var v := Store(u, p, valA);
      v.(registers := v.registers[I := Wrap(v.registers[I] + step)][J := Wrap(v.registers[J] + step)])
  }

  function Push(s: State, w: Word): State {
    s.(sp := Wrap(s.sp - 1), ram := s.ram[Wrap(s.sp - 1) := w])
  }

  // ----- Interrupts -----

  /** What an interrupt did; the queue and the handler are observed through this. */
  datatype Event =
    | Queued(message: Word) | Left(message: Word) | Overflowed(message: Word)
    | Ignored(message: Word) | Dispatched(message: Word) | Enabled | Disabled

  /** One turn of the loop that looks for the end of a skipped chain: the operands are read and dropped. */
  function PassOver(s: State): (State, bool) {
    var (t, inst) := Consume(s);
    var u := Resolve(t, GetA(inst), PosA).0;
    var v := Resolve(u, GetB(inst), PosB).0;
    (Sleep(v, 1), IsBranch(GetOp(inst)))
  }

  /** The loop, for at most `n` turns; none if it goes on. */
  function PassChain(s: State, n: nat): Option<State>
    decreases n
  {
    if n == 0 then None
    else
      var (t, more) := PassOver(s);
      if more then PassChain(t, n - 1) else Some(t)
  }

  lemma {:induction false} ChainTurn(s: State, n: nat, t: State, more: bool)
    requires n > 0 && PassOver(s) == (t, more)
    ensures PassChain(s, n) == if more then PassChain(t, n - 1) else Some(t)
  {
  }

  /** The handler is entered: the program counter from before a skipped chain is saved. */
  function Dispatch(s: State, pc: Word, message: Word): State {
    var t := Push(Push(Unskip(s), pc), s.registers[A]);
    t.(registers := t.registers[A := message], pc := t.ia, queueing := true)
  }

  /** `vm_interrupt`; none if the loop over a skipped chain never ends. */
  function Interrupt(s: State, message: Word): Option<(State, seq<Event>)> {
    if s.queueing then
      if |s.queue| >= INTERRUPT_MAX then Some((s.(halted := true), [Overflowed(message)]))
      else Some((s.(queue := s.queue + [message]), [Queued(message)]))
    else if s.ia == 0 then Some((s, [Ignored(message)]))
    else if s.skip then
      match PassChain(s, 0x10000)
      case None => None
      case Some(t) => Some((Dispatch(t, s.pc, message), [Dispatched(message)]))
    else Some((Dispatch(s, s.pc, message), [Dispatched(message)]))
  }

  // ----- Special instructions -----

  const NBOP_JSR: Word := 0x01
  const NBOP_INT: Word := 0x08
  const NBOP_IAG: Word := 0x09
  const NBOP_IAS: Word := 0x0A
  const NBOP_RFI: Word := 0x0B
  const NBOP_IAQ: Word := 0x0C
  const NBOP_HWN: Word := 0x10
  const NBOP_HWQ: Word := 0x11
  const NBOP_HWI: Word := 0x12

  function JumpSubroutine(s: State, a: Word): State {
    var (t, valA) := Resolve(s, a, PosA);
    var u := Sleep(t, 2);
    if u.skip then Unskip(u) else Push(u, u.pc).(pc := valA)
  }

  /** INT does not look at the skip flag. */
  function SoftwareInterrupt(s: State, a: Word): Option<(State, seq<Event>)> {
    var (t, valA) := Resolve(s, a, PosA);
    Interrupt(Sleep(t, 3), valA)
  }

  /** IAG and HWN */
  function StoreSpecial(s: State, a: Word, cycles: nat, value: Word): State {
    var (t, p) := GetStore(s, a, PosA);
    var u := Sleep(t, cycles);
    if u.skip then Unskip(u) else Store(u, p, value)
  }

  function SetHandler(s: State, a: Word): State {
    var (t, valA) := Resolve(s, a, PosA);
    if t.skip then Unskip(t) else t.(ia := valA)
  }

  function ReturnFromInterrupt(s: State, a: Word): (State, seq<Event>) {
    var t := Sleep(Resolve(s, a, PosA).0, 2);
    if t.skip then (Unskip(t), [])
    else
      (t.(registers := t.registers[A := t.ram[t.sp]], pc := t.ram[Wrap(t.sp + 1)], sp := Wrap(t.sp + 2),
          queueing := false),
       [Enabled])
  }

  function SetQueueing(s: State, a: Word): (State, seq<Event>) {
    var (t, valA) := Resolve(s, a, PosA);
    var u := Sleep(t, 1);
    if u.skip then (Unskip(u), [])
    else (u.(queueing := valA != 0), [if valA == 0 then Enabled else Disabled])
  }

  function QueryHardware(s: State, a: Word): State {
    var (t, valA) := Resolve(s, a, PosA);
    var u := Sleep(t, 3);
    if u.skip then Unskip(u)
    else if valA < |u.devices| then
      var d := u.devices[valA];
      u.(registers := u.registers[A := Wrap(d.id)][B := Wrap(d.id / 0x10000)][C := d.version]
                                 [X := Wrap(d.manufacturer)][Y := Wrap(d.manufacturer / 0x10000)])
    else u
  }

  function HardwareInterrupt(s: State, a: Word): State {
    Unskip(Sleep(Resolve(s, a, PosA).0, 3))
  }

  function Special(s: State, nbop: Word, a: Word): Option<(State, seq<Event>)> {
    if nbop == NBOP_JSR then Some((JumpSubroutine(s, a), []))
    else if nbop == NBOP_INT then SoftwareInterrupt(s, a)
    else if nbop == NBOP_IAG then Some((StoreSpecial(s, a, 0, s.ia), []))
    else if nbop == NBOP_IAS then Some((SetHandler(s, a), []))
    else if nbop == NBOP_RFI then Some(ReturnFromInterrupt(s, a))
    else if nbop == NBOP_IAQ then Some(SetQueueing(s, a))
    else if nbop == NBOP_HWN then Some((StoreSpecial(s, a, 1, Wrap(|s.devices|)), []))
    else if nbop == NBOP_HWQ then Some((QueryHardware(s, a), []))
    else if nbop == NBOP_HWI then Some((HardwareInterrupt(s, a), []))
    else Some((s.(halted := true), []))
  }

  /** The instruction part of `vm_cycle`: fetch, decode and execute. */
  function Execute(s: State): Option<(State, seq<Event>)> {
    var (t, inst) := Consume(s);
    var op, b, a := GetOp(inst), GetB(inst), GetA(inst);
    if IsArithmetic(op) then Some((Arithmetic(t, op, b, a), []))
    else if IsBranch(op) then Some((Branch(t, op, b, a), []))
    else if op == OP_STI then Some((StoreAndStep(t, 1, b, a), []))
    else if op == OP_STD then Some((StoreAndStep(t, -1, b, a), []))
    else if op == OP_NONBASIC then Special(t, b, a)
    else Some((t.(halted := true), []))
  }

  /** The first queued message leaves the queue, if the queue is off. */
  function TakeMessage(s: State): Option<(State, seq<Event>)> {
    if !s.queueing && |s.queue| > 0 then
      match Interrupt(s.(queue := s.queue[1..]), s.queue[0])
      case None => None
      case Some((t, es)) => Some((t, [Left(s.queue[0])] + es))
    else Some((s, []))
  }

  /** `vm_cycle`; none if the machine hangs. */
  function Cycle(s: State): Option<(State, seq<Event>)> {
    if s.sleep > 0 then Some((s.(sleep := s.sleep - 1), []))
    else
      match TakeMessage(s)
      case None => None
      case Some((t, es)) =>
        if t.halted then Some((t, es))
        else
          match Execute(t)
          case None => None
          case Some((u, fs)) => Some((u, es + fs))
  }
}
