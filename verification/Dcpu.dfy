/**
 Instruction words of the DCPU-16 (libdcpu/dcpu.h): six bits of operand a, five bits of operand b, five
 bits of opcode. The bit-field macros are written as division and remainder.
 */
module Dcpu {
  import opened Words

  const REG_J: Word := 0x07
  const VAL_A: Word := 0x08
  const VAL_J: Word := 0x0F
  const NXT_VAL_A: Word := 0x10
  const NXT_VAL_J: Word := 0x17
  const PUSH_POP: Word := 0x18
  const PEEK: Word := 0x19
  const PICK: Word := 0x1A
  const SP: Word := 0x1B
  const PC: Word := 0x1C
  const EX: Word := 0x1D
  const NXT: Word := 0x1E
  const NXT_LIT: Word := 0x1F

  const OP_NONBASIC: Word := 0x00

  function Create(op: Word, b: Word, a: Word): Word {
    a % 64 * 1024 + b % 32 * 32 + op % 32
  }

  function GetA(inst: Word): (a: Word)
    ensures a < 64
  {
    inst / 1024
  }

  function GetB(inst: Word): (b: Word)
    ensures b < 32
  {
    inst / 32 % 32
  }

  function GetOp(inst: Word): (op: Word)
    ensures op < 32
  {
    inst % 32
  }

  /** The fields and the word determine each other. */
  lemma {:induction false} FieldsOfCreate(op: Word, b: Word, a: Word)
    requires op < 32 && b < 32 && a < 64
    ensures GetOp(Create(op, b, a)) == op && GetB(Create(op, b, a)) == b && GetA(Create(op, b, a)) == a
  {
    var inst := Create(op, b, a);
    assert a % 64 == a && b % 32 == b && op % 32 == op;
    assert inst == 1024 * a + (32 * b + op) && 0 <= 32 * b + op < 1024;
    assert inst == 32 * (32 * a + b) + op;
    assert inst / 32 == 32 * a + b;
  }

  lemma {:induction false} CreateOfFields(inst: Word)
    ensures Create(GetOp(inst), GetB(inst), GetA(inst)) == inst
  {
    assert inst == 32 * (inst / 32) + inst % 32 && inst / 32 == 32 * (inst / 1024) + inst / 32 % 32;
  }

  /** From the low end: five bits of opcode, five bits of operand b, six bits of operand a. */
  lemma {:induction false} FieldsIff(inst: Word, op: Word, b: Word, a: Word)
    requires op < 32 && b < 32 && a < 64
    ensures GetOp(inst) == op && GetB(inst) == b && GetA(inst) == a <==> inst == op + 32 * b + 1024 * a
  {
    CreateIs(op, b, a);
    FieldsOfCreate(op, b, a);
    if GetOp(inst) == op && GetB(inst) == b && GetA(inst) == a { CreateOfFields(inst); }
  }

  lemma {:induction false} CreateIs(op: Word, b: Word, a: Word)
    requires op < 32 && b < 32 && a < 64
    ensures Create(op, b, a) == op + 32 * b + 1024 * a
  {
  }

  predicate IsIndexed(code: Word) {
    NXT_VAL_A <= code <= NXT_VAL_J
  }

  /** The operand code is followed by a word. */
  predicate UsesNext(code: Word) {
    IsIndexed(code) || code == PICK || code == NXT || code == NXT_LIT
  }

  /** The words an instruction takes; a non-basic one has its opcode in the b field. */
  function Size(inst: Word): (n: nat)
    ensures 1 <= n <= 3
  {
    1 + (if UsesNext(GetA(inst)) then 1 else 0) +
    if GetOp(inst) != OP_NONBASIC && UsesNext(GetB(inst)) then 1 else 0
  }

  /** The value of an operand code of 0x20 and above. */
  function ShortLiteral(code: Word): Word {
    Wrap(code - 0x21)
  }
}
