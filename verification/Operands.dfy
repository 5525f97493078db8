/**
 The operand forms of the DCPU-16 in terms of registers and memory, and what the instructions of
 libdcpu-vm/dcpuops.c do with them when the machine is not skipping.
 */
module Operands {
  import opened Words
  import opened Dcpu
  import opened Machine

  /** An operand as a programmer writes it; `r` is a register, `n` the next word. */
  datatype Mode =
    | Reg(r: nat) | AtReg(r: nat) | AtRegPlus(r: nat, n: Word)
    | Stack | Peek | Pick(n: Word)
    | OfSp | OfPc | OfEx
    | At(n: Word) | Literal(n: Word) | Small(n: Word)

  /** Only the operand a can be a small literal, from -1 to 30. */
  predicate IsMode(m: Mode, pos: Position) {
    match m
    case Reg(r) => r < 8
    case AtReg(r) => r < 8
    case AtRegPlus(r, _) => r < 8
    case Small(n) => pos == PosA && (n == 0xFFFF || n <= 30)
    case _ => true
  }

  function CodeOf(m: Mode): Word
    requires IsMode(m, PosA)
  {
    match m
    case Reg(r) => r
    case AtReg(r) => 0x08 + r
    case AtRegPlus(r, _) => 0x10 + r
    case Stack => 0x18
    case Peek => 0x19
    case Pick(_) => 0x1A
    case OfSp => 0x1B
    case OfPc => 0x1C
    case OfEx => 0x1D
    case At(_) => 0x1E
    case Literal(_) => 0x1F
    case Small(n) => if n == 0xFFFF then 0x20 else 0x21 + n
  }

  predicate HasNext(m: Mode) {
    m.AtRegPlus? || m.Pick? || m.At? || m.Literal?
  }

  /** The next word, if there is one, is at PC. */
  predicate NextIsThere(s: State, m: Mode) {
    HasNext(m) ==> s.ram[s.pc] == m.n
  }

  /** The value an operand has while PC is behind the instruction word. */
  function ValueOf(s: State, m: Mode, pos: Position): Word
    requires IsMode(m, PosA)
  {
    match m
    case Reg(r) => s.registers[r]
    case AtReg(r) => s.ram[s.registers[r]]
    case AtRegPlus(r, n) => s.ram[Wrap(s.registers[r] + n)]
    case Stack => if pos == PosA then s.ram[s.sp] else s.ram[Wrap(s.sp - 1)]
    case Peek => s.ram[s.sp]
    case Pick(n) => s.ram[Wrap(s.sp + n)]
    case OfSp => s.sp
    case OfPc => s.pc
    case OfEx => s.ex
    case At(n) => s.ram[n]
    case Literal(n) => n
    case Small(n) => n
  }

  /** The machine behind the operand: a next word costs a cycle, POP and PUSH move the stack pointer. */
  function Past(s: State, m: Mode, pos: Position): State {
    if HasNext(m) then s.(pc := Wrap(s.pc + 1), sleep := Wrap(s.sleep + 1))
    else if m == Stack then s.(sp := Wrap(if pos == PosA then s.sp + 1 else s.sp - 1))
    else s
  }

  /** Writing to an operand. A literal is not even read, and the word is lost. */
  function Written(s: State, m: Mode, pos: Position, w: Word): State
    requires IsMode(m, pos)
  {
    var t := Past(s, m, pos);
    match m
    case Reg(r) => t.(registers := s.registers[r := w])
    case AtReg(r) => t.(ram := s.ram[s.registers[r] := w])
    case AtRegPlus(r, n) => t.(ram := s.ram[Wrap(s.registers[r] + n) := w])
    case Stack => t.(ram := s.ram[(if pos == PosA then s.sp else Wrap(s.sp - 1)) := w])
    case Peek => t.(ram := s.ram[s.sp := w])
    case Pick(n) => t.(ram := s.ram[Wrap(s.sp + n) := w])
    case OfSp => t.(sp := w)
    case OfPc => t.(pc := w)
    case OfEx => t.(ex := w)
    case At(n) => t.(ram := s.ram[n := w])
    case _ => s.(dummy := w)
  }

  /** Every operand code is one of the forms. */
  lemma {:induction false} EveryCode(code: Word, n: Word) returns (m: Mode)
    requires code < 64
    ensures IsMode(m, PosA) && CodeOf(m) == code && (HasNext(m) ==> m.n == n) && (code < 32 ==> IsMode(m, PosB))
  {
    m := if code < 8 then Reg(code)
    else if code < 0x10 then AtReg(code - 0x08)
    else if code < 0x18 then AtRegPlus(code - 0x10, n)
    else if code == 0x18 then Stack
    else if code == 0x19 then Peek
    else if code == 0x1A then Pick(n)
    else if code == 0x1B then OfSp
    else if code == 0x1C then OfPc
    else if code == 0x1D then OfEx
    else if code == 0x1E then At(n)
    else if code == 0x1F then Literal(n)
    else Small(if code == 0x20 then 0xFFFF else code - 0x21);
  }

  /** Reading an operand gives the value of its form. */
  lemma {:induction false} Reads(s: State, m: Mode, pos: Position)
    requires IsMode(m, PosA) && NextIsThere(s, m) && !s.skip
    ensures Resolve(s, CodeOf(m), pos) == (Past(s, m, pos), ValueOf(s, m, pos))
  {
  }

  /** The place that an operand denotes. */
  function PlaceOf(s: State, m: Mode, pos: Position): Place
    requires IsMode(m, PosA)
  {
    match m
    case Reg(r) => Register(r)
    case AtReg(r) => Memory(s.registers[r])
    case AtRegPlus(r, n) => Memory(Wrap(s.registers[r] + n))
    case Stack => Memory(if pos == PosA then s.sp else Wrap(s.sp - 1))
    case Peek => Memory(s.sp)
    case Pick(n) => Memory(Wrap(s.sp + n))
    case OfSp => TheSp
    case OfPc => ThePc
    case OfEx => TheEx
    case At(n) => Memory(n)
    case _ => Nowhere
  }

  lemma {:induction false} Finds(s: State, m: Mode, pos: Position)
    requires IsMode(m, pos) && NextIsThere(s, m) && !s.skip
    ensures GetStore(s, CodeOf(m), pos) == (if m.Literal? then s else Past(s, m, pos), PlaceOf(s, m, pos))
  {
  }

  lemma {:induction false} PlaceIsWritten(s: State, m: Mode, pos: Position, w: Word)
    requires IsMode(m, pos)
    ensures Store(if m.Literal? then s else Past(s, m, pos), PlaceOf(s, m, pos), w) == Written(s, m, pos, w)
  {
  }

  lemma {:induction false} PlaceIsRead(s: State, m: Mode, pos: Position)
    requires IsMode(m, pos) && !m.Literal? && !m.Small?
    ensures Load(Past(s, m, pos), PlaceOf(s, m, pos)) == ValueOf(s, m, pos)
  {
  }

  /** Storing to the place that is found for an operand is writing to its form. */
  lemma {:induction false} Writes(s: State, m: Mode, pos: Position, w: Word)
    requires IsMode(m, pos) && NextIsThere(s, m) && !s.skip
    ensures var (t, p) := GetStore(s, CodeOf(m), pos); Store(t, p, w) == Written(s, m, pos, w)
  {
    Finds(s, m, pos);
    PlaceIsWritten(s, m, pos, w);
  }

  /** The word at the place found for an operand is the one that reading the operand gives. */
  lemma {:induction false} PlaceHoldsValue(s: State, m: Mode, pos: Position)
    requires IsMode(m, pos) && NextIsThere(s, m) && !s.skip && !m.Literal? && !m.Small?
    ensures var (t, p) := GetStore(s, CodeOf(m), pos); t == Past(s, m, pos) && Load(t, p) == ValueOf(s, m, pos)
  {
    Finds(s, m, pos);
    PlaceIsRead(s, m, pos);
  }

  /** Concretely for every code: reading agrees with the place, and both leave the machine in one state. */
  lemma {:induction false} ReadingAgrees(s: State, code: Word, pos: Position)
    requires code < NXT_LIT && !s.skip
    ensures var (t, p) := GetStore(s, code, pos); Resolve(s, code, pos) == (t, Load(t, p))
  {
    var m := EveryCode(code, s.ram[s.pc]);
    Reads(s, m, pos);
    PlaceHoldsValue(s, m, pos);
  }
}
