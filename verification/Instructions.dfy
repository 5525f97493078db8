/**
 Whole instructions of the DCPU-16, executed (libdcpu-vm/dcpuops.c): which words they read, what they write where,
 and what they cost.
 */
module Instructions {
  import opened Words
  import opened Dcpu
  import opened Machine
  import opened Operands
  import opened ArithmeticLaws
  import Skipping
  import CarryStep

  /** The machine when the instruction word has been read. */
  function Fetched(s: State): State {
    s.(pc := Wrap(s.pc + 1))
  }

  /** The operand a is read first, then b. */
  function SourceRead(s: State, src: Mode): State {
    Past(Fetched(s), src, PosA)
  }

  /** At PC stands an instruction with the opcode `op` and the operands `dst` and `src`, and it is not skipped. */
  ghost predicate Stands(s: State, op: Word, dst: Mode, src: Mode) {
    && !s.skip && op < 32 && IsMode(dst, PosB) && IsMode(src, PosA)
    && s.ram[s.pc] == Create(op, CodeOf(dst), CodeOf(src))
    && NextIsThere(Fetched(s), src) && NextIsThere(SourceRead(s, src), dst)
  }

  /** The value of the operand a. */
  function SourceValue(s: State, src: Mode): Word
    requires IsMode(src, PosA)
  {
    ValueOf(Fetched(s), src, PosA)
  }

  /** The value of the operand b; a literal to be stored to is not read. */
  function TargetValue(s: State, dst: Mode, src: Mode): Word
    requires IsMode(dst, PosB)
  {
    if dst.Literal? then s.dummy else ValueOf(SourceRead(s, src), dst, PosB)
  }

  lemma {:induction false} CodesFit(m: Mode, pos: Position)
    requires IsMode(m, pos)
    ensures CodeOf(m) < 64 && (pos == PosB ==> CodeOf(m) < 32)
  {
  }

  lemma {:induction false} Decodes(s: State, op: Word, dst: Mode, src: Mode)
    requires Stands(s, op, dst, src)
    ensures GetOp(s.ram[s.pc]) == op && GetB(s.ram[s.pc]) == CodeOf(dst) && GetA(s.ram[s.pc]) == CodeOf(src)
  {
    CodesFit(dst, PosB);
    CodesFit(src, PosA);
    FieldsOfCreate(op, CodeOf(dst), CodeOf(src));
  }

  lemma {:induction false} PastKeeps(s: State, m: Mode, pos: Position)
    ensures Past(s, m, pos) == s.(pc := Past(s, m, pos).pc, sp := Past(s, m, pos).sp, sleep := Past(s, m, pos).sleep)
  {
  }

  /** What is found for the operands of an instruction at PC. */
  lemma {:induction false} OperandsFound(s: State, op: Word, dst: Mode, src: Mode, u: State)
    requires Stands(s, op, dst, src) && u == SourceRead(s, src)
    ensures Resolve(Fetched(s), CodeOf(src), PosA) == (u, SourceValue(s, src))
    ensures GetStore(u, CodeOf(dst), PosB) == (if dst.Literal? then u else Past(u, dst, PosB), PlaceOf(u, dst, PosB))
    ensures !u.skip && u.ex == s.ex && u.dummy == s.dummy && u.ram == s.ram && u.registers == s.registers
  {
    Reads(Fetched(s), src, PosA);
    PastKeeps(Fetched(s), src, PosA);
    Finds(u, dst, PosB);
  }

  // ----- SET, arithmetic, logic and shifts -----

  /** The cycles of an instruction, apart from one for every next word. */
  function Cost(op: Word): nat {
    if op in {OP_ADD, OP_SUB, OP_MUL, OP_MLI} then 2
    else if op in {OP_DIV, OP_DVI, OP_MOD, OP_MDI, OP_ADX, OP_SBX} then 3
    else 1
  }

  /** The machine with the result of an instruction. */
  function Computed(w: State, op: Word, excess: Word): State {
    w.(sleep := Wrap(w.sleep + (Cost(op) - 1)), ex := if SetsEx(op) then excess else w.ex)
  }

  lemma {:induction false} Loaded(u: State, dst: Mode, dummy: Word)
    requires IsMode(dst, PosB) && dummy == u.dummy
    ensures Load(if dst.Literal? then u else Past(u, dst, PosB), PlaceOf(u, dst, PosB)) ==
            if dst.Literal? then dummy else ValueOf(u, dst, PosB)
  {
    if !dst.Literal? { PlaceIsRead(u, dst, PosB); }
  }

  /** The operation on operands already found. */
  lemma {:induction false} Operates(v: State, op: Word, p: Place, b: Word, a: Word, w: State)
    requires IsArithmetic(op) && !v.skip && Load(v, p) == b && w == Store(v, p, Result(op, b, a, v.ex))
    ensures Operate(Sleep(v, ExtraCycles(op)), op, p, a) == Computed(w, op, Excess(op, b, a, v.ex))
  {
    var sleep := Sleep(v, ExtraCycles(op)).sleep;
    CarryStep.LoadSleeps(v, p, sleep);
    CarryStep.StoreSleeps(v, p, Result(op, b, a, v.ex), sleep);
    ExIsSet(op, b, a, v.ex);
  }

  /**
   Any instruction that computes a value: operand a is read, then b, the result is written to b, EX is set where
   the operation sets it, and the cycles are added.
   */
  lemma {:induction false} ComputingRuns(s: State, op: Word, dst: Mode, src: Mode, b: Word, a: Word)
    requires Stands(s, op, dst, src) && IsArithmetic(op)
    requires a == SourceValue(s, src) && b == TargetValue(s, dst, src)
    ensures Execute(s) ==
            Some((Computed(Written(SourceRead(s, src), dst, PosB, Result(op, b, a, s.ex)), op, Excess(op, b, a, s.ex)),
                  []))
  {
    var u := SourceRead(s, src);
    var v, p := if dst.Literal? then u else Past(u, dst, PosB), PlaceOf(u, dst, PosB);
    Decodes(s, op, dst, src);
    OperandsFound(s, op, dst, src, u);
    PastKeeps(u, dst, PosB);
    Loaded(u, dst, s.dummy);
    PlaceIsWritten(u, dst, PosB, Result(op, b, a, s.ex));
    Operates(v, op, p, b, a, Written(u, dst, PosB, Result(op, b, a, s.ex)));
    ArithmeticIs(Fetched(s), op, dst, src, u, v, p, a);
  }

  lemma {:induction false} ArithmeticIs(t: State, op: Word, dst: Mode, src: Mode, u: State, v: State, p: Place, a: Word)
    requires IsMode(dst, PosB) && IsMode(src, PosA) && Resolve(t, CodeOf(src), PosA) == (u, a)
    requires GetStore(u, CodeOf(dst), PosB) == (v, p) && !v.skip
    ensures Arithmetic(t, op, CodeOf(dst), CodeOf(src)) == Operate(Sleep(v, ExtraCycles(op)), op, p, a)
  {
  }

  lemma {:induction false} SetIsWriting(w: State, excess: Word)
    ensures Computed(w, OP_SET, excess) == w
  {
  }

  /** SET copies the operand a, whatever its form, to the operand b, whatever its form. */
  lemma {:induction false} SetMoves(s: State, dst: Mode, src: Mode)
    requires Stands(s, OP_SET, dst, src)
    ensures Execute(s) == Some((Written(SourceRead(s, src), dst, PosB, SourceValue(s, src)), []))
  {
    var b, a := TargetValue(s, dst, src), SourceValue(s, src);
    ComputingRuns(s, OP_SET, dst, src, b, a);
    Setting(b, a, s.ex);
    SetIsWriting(Written(SourceRead(s, src), dst, PosB, a), Excess(OP_SET, b, a, s.ex));
  }

  lemma {:induction false} SetValue(s: State, dst: Mode, src: Mode, t: State)
    requires Stands(s, OP_SET, dst, src) && Execute(s) == Some((t, []))
    ensures t == Written(SourceRead(s, src), dst, PosB, SourceValue(s, src))
  {
    SetMoves(s, dst, src);
  }

  lemma {:induction false} RegisterWritten(s: State, r: nat, src: Mode, w: Word, t: State)
    requires r < 8 && IsMode(src, PosA) && t == Written(SourceRead(s, src), Reg(r), PosB, w)
    ensures t == s.(registers := s.registers[r := w], pc := t.pc, sp := t.sp, sleep := t.sleep)
    ensures t.pc == Wrap(s.pc + if HasNext(src) then 2 else 1)
    ensures t.sp == if src == Stack then Wrap(s.sp + 1) else s.sp
  {
    PastKeeps(Fetched(s), src, PosA);
    Skipping.WrapTwice(s.pc + 1, 1);
  }

  /** A register set from memory or from anywhere else; nothing but the registers, PC, SP and the cycles changes. */
  lemma {:induction false} RegisterIsSet(s: State, r: nat, src: Mode, t: State)
    requires Stands(s, OP_SET, Reg(r), src) && Execute(s) == Some((t, []))
    ensures t == s.(registers := s.registers[r := SourceValue(s, src)], pc := t.pc, sp := t.sp, sleep := t.sleep)
    ensures t.pc == Wrap(s.pc + if HasNext(src) then 2 else 1)
    ensures t.sp == if src == Stack then Wrap(s.sp + 1) else s.sp
  {
    SetValue(s, Reg(r), src, t);
    RegisterWritten(s, r, src, SourceValue(s, src), t);
  }

  lemma {:induction false} Popped(s: State, w: Word, t: State)
    requires t == Written(s, Stack, PosB, w)
    ensures SourceRead(t, Stack) == Fetched(t).(sp := s.sp) && SourceValue(t, Stack) == w
  {
    assert Wrap(Wrap(s.sp - 1) + 1) == s.sp;
  }

  /** What is pushed is popped: SET PUSH, src and SET dst, POP make dst the value of src, with SP as before. */
  lemma {:induction false} PushThenPop(s: State, src: Mode, t: State, dst: Mode, u: State)
    requires Stands(s, OP_SET, Stack, src) && Execute(s) == Some((t, []))
    requires Stands(t, OP_SET, dst, Stack) && Execute(t) == Some((u, []))
    ensures u == Written(Fetched(t).(sp := SourceRead(s, src).sp), dst, PosB, SourceValue(s, src))
  {
    SetValue(s, Stack, src, t);
    SetValue(t, dst, Stack, u);
    Popped(SourceRead(s, src), SourceValue(s, src), t);
  }
}
