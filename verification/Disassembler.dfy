/**
 Emission and disassembly in place (libdcpu-ci-asm/assem.c, libdcpu-vm/dcpudis.c).
 */
module Disassembler {
  import opened Words
  import opened Dcpu
  import opened Expressions
  import opened Assembly
  import opened Assembler
  import opened Machine
  import opened Encoding
  import opened Vm
  import Skipping

  /** `process_line`; false when the assembler halts. */
  method ProcessLine(out: OutputList, line: Line) returns (ok: bool)
    modifies out`items
    ensures ok == !Halts(line) && (ok ==> out.items == old(out.items) + Emit(line))
  {
    ok := true;
    match line
    case LabelLine(n) => out.Emit(Definition(n));
    case InstructionLine(x) =>
      match x {
        case Basic(op, p, q) =>
          out.Emit(Opcode(op, CodeOf(p), CodeOf(q)));
          ProcessOperand(out, q);
          ProcessOperand(out, p);
        case NonBasic(nbop, p) =>
          out.Emit(Opcode(OP_NONBASIC, nbop, CodeOf(p)));
          ProcessOperand(out, p);
      }
    case DirectiveLine(d) => out.Emit(d);
    case DataLine(data) => ok := ProcessData(out, data);
    case BoundaryLine =>
      for i := 0 to 16
        invariant out.items == old(out.items) + Zeros(i)
      {
        out.Emit(Raw(0));
      }
  }

  /** The parameters of DAT. */
  method ProcessData(out: OutputList, data: seq<Datum>) returns (ok: bool)
    modifies out`items
    ensures ok == forall i :: 0 <= i < |data| ==> IsDatum(data[i])
    ensures ok ==> out.items == old(out.items) + DataItems(data, |data|)
  {
    ghost var done: seq<Item> := [];
    for i := 0 to |data|
      invariant out.items == old(out.items) + done && done == DataItems(data, i)
      invariant forall j :: 0 <= j < i ==> IsDatum(data[j])
    {
      ok := ProcessDatum(out, data[i]);
      if !ok { return; }
      Regroup(old(out.items), done, DatumItems(data[i]));
      done := done + DatumItems(data[i]);
    }
    ok := true;
  }

  method ProcessDatum(out: OutputList, d: Datum) returns (ok: bool)
    modifies out`items
    ensures ok == IsDatum(d) && (ok ==> out.items == old(out.items) + DatumItems(d))
  {
    ok := true;
    match d
    case Text(s) => ProcessText(out, s);
    case Parameter(p) =>
      if Operand(p).None? { return false; }
      ProcessOperand(out, p);
  }

  method ProcessText(out: OutputList, text: string)
    modifies out`items
    ensures out.items == old(out.items) + Characters(text)
  {
    for i := 0 to |text|
      invariant out.items == old(out.items) + Characters(text)[..i]
    {
      out.Emit(Raw(text[i] as int % 256));
    }
  }

  method ProcessOperand(out: OutputList, p: Parameter)
    modifies out`items
    ensures out.items == old(out.items) + OperandItems(p)
  {
    var e := Operand(p);
    if e.Some? { out.Emit(Value(e.value)); }
  }

  /** Between the two states `n` words have been read, one cycle each, and no memory touched. */
  ghost predicate Moved(s: State, t: State, n: nat) {
    t == s.(pc := Wrap(s.pc + n), sp := t.sp, sleep := Wrap(s.sleep + n))
  }

  lemma {:induction false} ReadingMoves(s: State, code: Word, pos: Position)
    requires code < 64
    ensures Moved(s, Resolve(s, code, pos).0, Skipping.NextWords(code))
  {
  }

  lemma {:induction false} SumsWrap(x: Word, n: nat, m: nat)
    requires n <= 1 && m <= 1
    ensures Wrap(Wrap(x + n) + m) == Wrap(x + n + m)
    ensures Wrap(x + n + m) == x <==> n + m == 0
  {
  }

  lemma {:induction false} MovedTwice(s: State, t: State, u: State, n: nat, m: nat)
    requires Moved(s, t, n) && Moved(t, u, m) && n <= 1 && m <= 1
    ensures Moved(s, u, n + m)
  {
    SumsWrap(s.pc, n, m);
    SumsWrap(s.sleep, n, m);
  }

  /** The operands a and b read behind an instruction word; a special instruction has no b. */
  function ReadBoth(s: State, inst: Word): (State, Word, Word) {
    var (t, a) := Resolve(s, GetA(inst), PosA);
    if GetOp(inst) == OP_NONBASIC then (t, a, 0)
    else
      var (u, b) := Resolve(t, GetB(inst), PosB);
      (u, a, b)
  }

  lemma {:induction false} ReadingBothMoves(s: State, inst: Word)
    ensures Moved(s, ReadBoth(s, inst).0, Size(inst) - 1)
  {
    var t := Resolve(s, GetA(inst), PosA).0;
    ReadingMoves(s, GetA(inst), PosA);
    if GetOp(inst) != OP_NONBASIC {
      ReadingMoves(t, GetB(inst), PosB);
      MovedTwice(s, t, Resolve(t, GetB(inst), PosB).0, Skipping.NextWords(GetA(inst)), Skipping.NextWords(GetB(inst)));
    }
  }

  lemma {:induction false} DistanceMoved(pos: Word, n: nat)
    requires n <= 2
    ensures Wrap(Wrap(Wrap(pos + 1) + n) - pos) == 1 + n
  {
  }

  /** The operands of the instruction at `pos`, read from there. */
  function Look(s: State, pos: Word): (State, Word, Word) {
    ReadBoth(s.(pc := Wrap(pos + 1)), s.ram[pos])
  }

  /** The machine after a disassembly: the cycles of the operands read are not taken back. */
  function Disturbed(s: State, pos: Word): State {
    s.(sleep := Wrap(s.sleep + (Size(s.ram[pos]) - 1)))
  }

  lemma {:induction false} LookPutBack(s: State, pos: Word)
    ensures var t := Look(s, pos).0;
            Wrap(t.pc - pos) == Size(s.ram[pos]) && t.(pc := s.pc, sp := s.sp) == Disturbed(s, pos)
  {
    var t, n := LookMoves(s, pos);
    MovedFrom(s, pos, t, n);
  }

  lemma {:induction false} LookMoves(s: State, pos: Word) returns (t: State, n: nat)
    ensures t == Look(s, pos).0 && n == Size(s.ram[pos]) - 1 && Moved(s.(pc := Wrap(pos + 1)), t, n)
  {
    t, n := Look(s, pos).0, Size(s.ram[pos]) - 1;
    ReadingBothMoves(s.(pc := Wrap(pos + 1)), s.ram[pos]);
  }

  lemma {:induction false} MovedFrom(s: State, pos: Word, t: State, n: nat)
    requires Moved(s.(pc := Wrap(pos + 1)), t, n) && n <= 2
    ensures Wrap(t.pc - pos) == n + 1 && t.(pc := s.pc, sp := s.sp) == s.(sleep := Wrap(s.sleep + n))
  {
    DistanceMoved(pos, n);
  }

  method ReadOperands(vm: VirtualMachine, pos: Word) returns (inst: Word, a: Word, b: Word)
    requires vm.Valid()
    modifies vm`pc, vm`sp, vm`sleepCycles
    ensures vm.Valid() && inst == vm.ram[pos] && (vm.Value(), a, b) == Look(old(vm.Value()), pos)
  {
    vm.pc := pos;
    inst := vm.ConsumeWord();
    a := vm.ResolveValue(GetA(inst), PosA);
    b := 0;
    if GetOp(inst) != OP_NONBASIC {
      b := vm.ResolveValue(GetB(inst), PosB);
    }
  }

  /** Resolves the operands of the instruction at `pos` to find its size; all but the cycle count is put back. */
  method Measure(vm: VirtualMachine, pos: Word) returns (inst: Word, size: nat, a: Word, b: Word)
    requires vm.Valid()
    modifies vm`pc, vm`sp, vm`sleepCycles
    ensures vm.Valid() && vm.Value() == Disturbed(old(vm.Value()), pos)
    ensures inst == vm.ram[pos] && size == Size(inst)
    ensures a == Look(old(vm.Value()), pos).1 && b == Look(old(vm.Value()), pos).2
  {
    var pcStore, spStore := vm.pc, vm.sp;
    LookPutBack(vm.Value(), pos);
    inst, a, b := ReadOperands(vm, pos);
    size := Wrap(vm.pc - pos);
    vm.pc, vm.sp := pcStore, spStore;
  }

  /**
   `vm_disassemble`: the fields, and the values of the operands; the machine is left as it was exactly if the
   instruction has no next word.
   */
  method Disassemble(vm: VirtualMachine, pos: Word) returns (d: Decoded, a: Word, b: Word)
    requires vm.Valid() && pos + Size(vm.ram[pos]) <= 0x10000
    modifies vm`pc, vm`sp, vm`sleepCycles
    ensures vm.Valid() && vm.Value() == Disturbed(old(vm.Value()), pos)
    ensures vm.Value() == old(vm.Value()) <==> Size(vm.ram[pos]) == 1
    ensures d == Disassembled(vm.ram[..], pos)
    ensures a == Look(old(vm.Value()), pos).1 && b == Look(old(vm.Value()), pos).2
  {
    var inst, size: nat;
    inst, size, a, b := Measure(vm, pos);
    var nextA, nextB := None, None;
    if size >= 3 {
      nextA, nextB := Some(vm.ram[pos + 1]), Some(vm.ram[pos + 2]);
    } else if size >= 2 {
      if UsesNext(GetA(inst)) { nextA := Some(vm.ram[pos + 1]); } else { nextB := Some(vm.ram[pos + 1]); }
    }
    SumsWrap(old(vm.sleepCycles), if size >= 2 then 1 else 0, if size == 3 then 1 else 0);
    d := Decoded(GetOp(inst), GetA(inst), GetB(inst), size, nextA, nextB);
  }
}
