/**
 The virtual machine in place (libdcpu-vm/vm.c, libdcpu-vm/dcpuops.c): every method is specified by the
 function of the same step in the module Machine.
 */
module Vm {
  import opened Words
  import opened Dcpu
  import opened Machine

  class VirtualMachine {
    const ram: array<Word>
    const registers: array<Word>
    const irq: array<Word>
    const devices: seq<Device>
    var pc: Word
    var sp: Word
    var ex: Word
    var ia: Word
    var dummy: Word
    var skip: bool
    var queueInterrupts: bool
    var irqCount: nat
    var sleepCycles: Word
    var halted: bool

    ghost predicate Valid()
      reads this
    {
      && ram.Length == 0x10000 && registers.Length == 8 && irq.Length == 256 && irqCount <= INTERRUPT_MAX
      && ram != registers && ram != irq && registers != irq
    }

    ghost function Value(): State
      requires Valid()
      reads this, ram, registers, irq
    {
      State(registers[..], ram[..], pc, sp, ex, ia, dummy, skip, queueInterrupts, irq[..irqCount], sleepCycles, halted,
            devices)
    }

    /** `vm_reset` with memory */
    constructor (devices: seq<Device>)
      ensures Valid() && fresh(ram) && fresh(registers) && fresh(irq)
      ensures Value() == State(seq(8, _ => 0), seq(0x10000, _ => 0), 0, 0, 0, 0, 0, false, false, [], 0, false, devices)
    {
      ram := new Word[0x10000](_ => 0);
      registers := new Word[8](_ => 0);
      irq := new Word[256](_ => 0);
      this.devices := devices;
      pc, sp, ex, ia, dummy := 0, 0, 0, 0, 0;
      skip, queueInterrupts, irqCount, sleepCycles, halted := false, false, 0, 0, false;
      new;
      assert ram[..] == seq(0x10000, _ => 0) && registers[..] == seq(8, _ => 0) && irq[..0] == [];
    }

    method ConsumeWord() returns (w: Word)
      requires Valid()
      modifies this`pc
      ensures Valid() && (Value(), w) == Consume(old(Value()))
    {
      w := ram[pc];
      pc := Wrap(pc + 1);
    }

    method AddCycles(cycles: nat)
      requires Valid()
      modifies this`sleepCycles
      ensures Valid() && Value() == Sleep(old(Value()), cycles)
    {
      sleepCycles := Wrap(sleepCycles + cycles);
    }

    /** The stack cell that PUSH or POP denotes. */
    method StackCell(pos: Position) returns (a: Word)
      requires Valid()
      modifies this`sp
      ensures Valid() && (Value(), a) == Stack(old(Value()), pos)
    {
      match pos
      case PosA =>
        a := sp;
        sp := Wrap(sp + 1);
      case PosB =>
        sp := Wrap(sp - 1);
        a := sp;
    }

    /** `vm_resolve_value` */
    method ResolveValue(code: Word, pos: Position) returns (w: Word)
      requires Valid()
      modifies this`pc, this`sp, this`sleepCycles
      ensures Valid() && (Value(), w) == Resolve(old(Value()), code, pos)
    {
      if code <= REG_J {
        w := registers[code];
      } else if code <= VAL_J {
        w := ram[registers[code - VAL_A]];
      } else if code <= NXT_VAL_J {
        AddCycles(1);
        var n: Word := ConsumeWord();
        w := ram[Wrap(registers[code - NXT_VAL_A] + n)];
      } else if code == PUSH_POP {
        if skip { return dummy; }
        var a := StackCell(pos);
        w := ram[a];
      } else if code == PEEK {
        w := ram[sp];
      } else if code == PICK {
        AddCycles(1);
        var n: Word := ConsumeWord();
        w := ram[Wrap(sp + n)];
      } else if code == SP {
        w := sp;
      } else if code == PC {
        w := pc;
      } else if code == EX {
        w := ex;
      } else if code == NXT {
        AddCycles(1);
        var n: Word := ConsumeWord();
        w := ram[n];
      } else if code == NXT_LIT {
        AddCycles(1);
        w := ConsumeWord();
      } else {
        w := ShortLiteral(code);
      }
    }

    /** `vm_internal_get_store` */
    method FindStore(code: Word, pos: Position) returns (p: Place)
      requires Valid()
      modifies this`pc, this`sp, this`sleepCycles
      ensures Valid() && (Value(), p) == GetStore(old(Value()), code, pos)
    {
      if skip {
        if IsIndexed(code) || code == NXT || code == PICK {
          var n: Word := ConsumeWord();
        }
        return Nowhere;
      }
      if code <= REG_J {
        p := Register(code);
      } else if code <= VAL_J {
        p := Memory(registers[code - VAL_A]);
      } else if code <= NXT_VAL_J {
        AddCycles(1);
        var n: Word := ConsumeWord();
        p := Memory(Wrap(registers[code - NXT_VAL_A] + n));
      } else if code == PUSH_POP {
        var a := StackCell(pos);
        p := Memory(a);
      } else if code == PEEK {
        p := Memory(sp);
      } else if code == PICK {
        AddCycles(1);
        var n: Word := ConsumeWord();
        p := Memory(Wrap(sp + n));
      } else if code == SP {
        p := TheSp;
      } else if code == PC {
        p := ThePc;
      } else if code == EX {
        p := TheEx;
      } else if code == NXT {
        AddCycles(1);
        var n: Word := ConsumeWord();
        p := Memory(n);
      } else {
        p := Nowhere;
      }
    }

    method Fetch(p: Place) returns (w: Word)
      requires Valid()
      ensures w == Load(Value(), p)
    {
      match p
      case Register(r) => w := if r < 8 then registers[r] else dummy;
      case Memory(a) => w := ram[a];
      case TheSp => w := sp;
      case ThePc => w := pc;
      case TheEx => w := ex;
      case Nowhere => w := dummy;
    }

    method WriteTo(p: Place, w: Word)
      requires Valid()
      modifies this, ram, registers
      ensures Valid() && Value() == Store(old(Value()), p, w)
    {
      match p
      case Register(r) =>
        if r < 8 { registers[r] := w; } else { dummy := w; }
      case Memory(a) => ram[a] := w;
      case TheSp => sp := w;
      case ThePc => pc := w;
      case TheEx => ex := w;
      case Nowhere => dummy := w;
    }

    // ----- Instructions -----

    method Op(op: Word, p: Place, a: Word)
      requires Valid()
      modifies this, ram, registers
      ensures Valid() && Value() == Operate(old(Value()), op, p, a)
    {
      var b := Fetch(p);
      var (value, flow) := Compute(op, b, a, ex);
      WriteTo(p, value);
      if flow.Some? { ex := flow.value; }
    }

    /** `vm_op_set` to `vm_op_shl`, `vm_op_adx` and `vm_op_sbx` */
    method OpArithmetic(op: Word, b: Word, a: Word)
      requires Valid()
      modifies this, ram, registers
      ensures Valid() && Value() == Arithmetic(old(Value()), op, b, a)
    {
      var valA := ResolveValue(a, PosA);
      var store := FindStore(b, PosB);
      AddCycles(ExtraCycles(op));
      if skip {
        skip := false;
        return;
      }
      Op(op, store, valA);
    }

    /** `vm_op_ifb` to `vm_op_ifu` */
    method OpBranch(op: Word, b: Word, a: Word)
      requires Valid()
      modifies this
      ensures Valid() && Value() == Branch(old(Value()), op, b, a)
    {
      var valA := ResolveValue(a, PosA);
      var valB := ResolveValue(b, PosB);
      if !skip { skip := !Holds(op, valB, valA); }
    }

    /** `vm_op_sti` and `vm_op_std` */
    method OpStep(step: int, b: Word, a: Word)
      requires Valid()
      modifies this, ram, registers
      ensures Valid() && Value() == StoreAndStep(old(Value()), step, b, a)
    {
      var valA := ResolveValue(a, PosA);
      var store := FindStore(b, PosB);
      if skip {
        skip := false;
        return;
      }
      WriteTo(store, valA);
      registers[I] := Wrap(registers[I] + step);
      registers[J] := Wrap(registers[J] + step);
    }

    method PushWord(w: Word)
      requires Valid()
      modifies this`sp, ram
      ensures Valid() && Value() == Push(old(Value()), w)
    {
      sp := Wrap(sp - 1);
      ram[sp] := w;
    }

    method OpJsr(a: Word)
      requires Valid()
      modifies this, ram
      ensures Valid() && Value() == JumpSubroutine(old(Value()), a)
    {
      var valA := ResolveValue(a, PosA);
      AddCycles(2);
      if skip {
        skip := false;
        return;
      }
      PushWord(pc);
      pc := valA;
    }

    /** `vm_op_iag` and `vm_op_hwn` */
    method OpStoreSpecial(a: Word, cycles: nat, value: Word)
      requires Valid()
      modifies this, ram, registers
      ensures Valid() && Value() == StoreSpecial(old(Value()), a, cycles, value)
    {
      var store := FindStore(a, PosA);
      AddCycles(cycles);
      if skip {
        skip := false;
        return;
      }
      WriteTo(store, value);
    }

    method OpIas(a: Word)
      requires Valid()
      modifies this
      ensures Valid() && Value() == SetHandler(old(Value()), a)
    {
      var valA := ResolveValue(a, PosA);
      if skip {
        skip := false;
        return;
      }
      ia := valA;
    }

    method OpRfi(a: Word)
      requires Valid()
      modifies this, registers
      ensures Valid() && Value() == ReturnFromInterrupt(old(Value()), a).0
    {
      var valA := ResolveValue(a, PosA);
      AddCycles(2);
      if skip {
        skip := false;
        return;
      }
      registers[A] := ram[sp];
      sp := Wrap(sp + 1);
      pc := ram[sp];
      sp := Wrap(sp + 1);
      queueInterrupts := false;
    }

    method OpIaq(a: Word)
      requires Valid()
      modifies this
      ensures Valid() && Value() == SetQueueing(old(Value()), a).0
    {
      var valA := ResolveValue(a, PosA);
      AddCycles(1);
      if skip {
        skip := false;
        return;
      }
      queueInterrupts := valA != 0;
    }

    method OpHwq(a: Word)
      requires Valid()
      modifies this, registers
      ensures Valid() && Value() == QueryHardware(old(Value()), a)
    {
      var valA := ResolveValue(a, PosA);
      AddCycles(3);
      if skip {
        skip := false;
        return;
      }
      if valA < |devices| {
        var d := devices[valA];
        registers[A] := Wrap(d.id);
        registers[B] := Wrap(d.id / 0x10000);
        registers[C] := d.version;
        registers[X] := Wrap(d.manufacturer);
        registers[Y] := Wrap(d.manufacturer / 0x10000);
      }
    }

    method OpHwi(a: Word)
      requires Valid()
      modifies this
      ensures Valid() && Value() == HardwareInterrupt(old(Value()), a)
    {
      var valA := ResolveValue(a, PosA);
      AddCycles(3);
      skip := false;
    }

    // ----- Interrupts -----

    /** One turn of the loop over a skipped chain. */
    method PassInstruction() returns (more: bool)
      requires Valid()
      modifies this`pc, this`sp, this`sleepCycles
      ensures Valid() && (Value(), more) == PassOver(old(Value()))
    {
      var inst := ConsumeWord();
      var valA := ResolveValue(GetA(inst), PosA);
      var valB := ResolveValue(GetB(inst), PosB);
      AddCycles(1);
      more := IsBranch(GetOp(inst));
    }

    /** The loop over a skipped chain; false if it does not end. */
    method PassSkipped() returns (ok: bool)
      requires Valid()
      modifies this`pc, this`sp, this`sleepCycles
      ensures Valid()
      ensures var r := PassChain(old(Value()), 0x10000);
              ok == r.Some? && (ok ==> Value() == r.value)
    {
      for n := 0x10000 downto 0
        invariant Valid() && PassChain(old(Value()), 0x10000) == PassChain(Value(), n)
      {
        ghost var s := Value();
        var more := PassInstruction();
        ChainTurn(s, n + 1, Value(), more);
        if !more { return true; }
      }
      ok := false;
    }

    method EnterHandler(from: Word, message: Word)
      requires Valid()
      modifies this, ram, registers
      ensures Valid() && Value() == Dispatch(old(Value()), from, message)
    {
      skip := false;
      PushWord(from);
      PushWord(registers[A]);
      registers[A] := message;
      pc := ia;
      queueInterrupts := true;
    }

    /** `vm_interrupt`; false if it does not return. */
    method RaiseInterrupt(message: Word) returns (ok: bool)
      requires Valid()
      modifies this, ram, registers, irq
      ensures Valid()
      ensures var r := Interrupt(old(Value()), message);
              ok == r.Some? && (ok ==> Value() == r.value.0)
    {
      ok := true;
      if queueInterrupts {
        if irqCount >= INTERRUPT_MAX {
          halted := true;
        } else {
          irq[irqCount] := message;
          irqCount := irqCount + 1;
        }
      } else if ia != 0 {
        var from := pc;
        if skip {
          ok := PassSkipped();
          if !ok { return; }
        }
        EnterHandler(from, message);
      }
    }

    method OpInt(a: Word) returns (ok: bool)
      requires Valid()
      modifies this, ram, registers, irq
      ensures Valid()
      ensures var r := SoftwareInterrupt(old(Value()), a);
              ok == r.Some? && (ok ==> Value() == r.value.0)
    {
      var valA := ResolveValue(a, PosA);
      AddCycles(3);
      ok := RaiseInterrupt(valA);
    }

    // ----- The cycle -----

    method OpSpecial(nbop: Word, a: Word) returns (ok: bool)
      requires Valid()
      modifies this, ram, registers, irq
      ensures Valid()
      ensures var r := Special(old(Value()), nbop, a);
              ok == r.Some? && (ok ==> Value() == r.value.0)
    {
      ok := true;
      if nbop == NBOP_JSR {
        OpJsr(a);
      } else if nbop == NBOP_INT {
        ok := OpInt(a);
      } else if nbop == NBOP_IAG {
        OpStoreSpecial(a, 0, ia);
      } else if nbop == NBOP_IAS {
        OpIas(a);
      } else if nbop == NBOP_RFI {
        OpRfi(a);
      } else if nbop == NBOP_IAQ {
        OpIaq(a);
      } else if nbop == NBOP_HWN {
        OpStoreSpecial(a, 1, Wrap(|devices|));
      } else if nbop == NBOP_HWQ {
        OpHwq(a);
      } else if nbop == NBOP_HWI {
        OpHwi(a);
      } else {
        halted := true;
      }
    }

    method ExecuteInstruction() returns (ok: bool)
      requires Valid()
      modifies this, ram, registers, irq
      ensures Valid()
      ensures var r := Execute(old(Value()));
              ok == r.Some? && (ok ==> Value() == r.value.0)
    {
      ok := true;
      var inst := ConsumeWord();
      var op, b, a := GetOp(inst), GetB(inst), GetA(inst);
      if IsArithmetic(op) {
        OpArithmetic(op, b, a);
      } else if IsBranch(op) {
        OpBranch(op, b, a);
      } else if op == OP_STI {
        OpStep(1, b, a);
      } else if op == OP_STD {
        OpStep(-1, b, a);
      } else if op == OP_NONBASIC {
        ok := OpSpecial(b, a);
      } else {
        halted := true;
      }
    }

    /** The first message leaves the queue and the others move up. */
    method ShiftQueue() returns (message: Word)
      requires Valid() && irqCount > 0
      modifies this`irqCount, irq
      ensures Valid() && message == old(irq[0])
      ensures Value() == old(Value()).(queue := old(Value()).queue[1..])
    {
      message := irq[0];
      ghost var before := irq[..];
      forall i | 0 <= i < INTERRUPT_MAX {
        irq[i] := irq[i + 1];
      }
      irq[INTERRUPT_MAX] := 0;
      irqCount := irqCount - 1;
      assert irq[..irqCount] == before[1..irqCount + 1] == before[..irqCount + 1][1..];
    }

    /** A message is taken from the queue if the queue is off. */
    method DeliverMessage() returns (ok: bool)
      requires Valid()
      modifies this, ram, registers, irq
      ensures Valid()
      ensures var r := TakeMessage(old(Value()));
              ok == r.Some? && (ok ==> Value() == r.value.0)
    {
      ok := true;
      if !queueInterrupts && irqCount > 0 {
        var message := ShiftQueue();
        ok := RaiseInterrupt(message);
      }
    }

    /** `vm_cycle`; false if it does not return. */
    method DoCycle() returns (ok: bool)
      requires Valid()
      modifies this, ram, registers, irq
      ensures Valid()
      ensures var r := Cycle(old(Value()));
              ok == r.Some? && (ok ==> Value() == r.value.0)
    {
      ok := true;
      if sleepCycles > 0 {
        sleepCycles := sleepCycles - 1;
        return;
      }
      ok := DeliverMessage();
      if !ok || halted { return; }
      ok := ExecuteInstruction();
    }
  }
}
