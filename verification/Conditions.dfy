/**
 IFB to IFU (libdcpu-vm/dcpuops.c): which conditions hold, and what is skipped if they do not.
 */
module Conditions {
  import opened Words
  import opened Bits
  import opened Dcpu
  import opened Machine
  import opened Operands
  import opened Instructions
  import ArithmeticLaws
  import Skipping

  const IFB: Word := 0x10
  const IFC: Word := 0x11
  const IFE: Word := 0x12
  const IFN: Word := 0x13
  const IFG: Word := 0x14
  const IFA: Word := 0x15
  const IFL: Word := 0x16
  const IFU: Word := 0x17

  /** The order of signed words is the order of words moved by half their range. */
  function Moved(w: Word): Word {
    Wrap(w + 0x8000)
  }

  /** What the conditions ask of the operands b and a. */
  ghost predicate Asks(op: Word, b: Word, a: Word) {
    && (op == IFB ==> Share(b, a, 16)) && (op == IFC ==> !Share(b, a, 16))
    && (op == IFE ==> b == a) && (op == IFN ==> b != a)
    && (op == IFG ==> b > a) && (op == IFL ==> b < a)
    && (op == IFA ==> Moved(b) > Moved(a)) && (op == IFU ==> Moved(b) < Moved(a))
  }

  lemma {:induction false} MovedOrder(b: Word, a: Word)
    ensures Signed(b) > Signed(a) <==> Moved(b) > Moved(a)
  {
  }

  lemma {:induction false} BitsAsAsked(op: Word, b: Word, a: Word)
    requires op == IFB || op == IFC
    ensures Holds(op, b, a) <==> Asks(op, b, a)
  {
    ShareIff(b, a);
  }

  lemma {:induction false} HoldsAsAsked(op: Word, b: Word, a: Word)
    requires IsBranch(op)
    ensures Holds(op, b, a) <==> Asks(op, b, a)
  {
    if op == IFB || op == IFC {
      BitsAsAsked(op, b, a);
    } else {
      MovedOrder(b, a);
      MovedOrder(a, b);
    }
  }

  lemma {:induction false} BranchIs(t: State, op: Word, dst: Mode, src: Mode, u: State, v: State, b: Word, a: Word)
    requires IsMode(dst, PosB) && IsMode(src, PosA) && Resolve(t, CodeOf(src), PosA) == (u, a)
    requires Resolve(u, CodeOf(dst), PosB) == (v, b) && !v.skip && IsBranch(op)
    ensures Branch(t, op, CodeOf(dst), CodeOf(src)) == v.(skip := !Asks(op, b, a))
  {
    HoldsAsAsked(op, b, a);
  }

  lemma {:induction false} ExecutesBranch(s: State, op: Word, dst: Mode, src: Mode)
    requires Stands(s, op, dst, src) && IsBranch(op)
    ensures Execute(s) == Some((Branch(Fetched(s), op, CodeOf(dst), CodeOf(src)), []))
  {
    Decodes(s, op, dst, src);
  }

  /** The machine behind a condition. */
  function Decided(s: State, dst: Mode, src: Mode): State {
    Past(SourceRead(s, src), dst, PosB)
  }

  /** The value of the operand b of a condition. */
  function TestedValue(s: State, dst: Mode, src: Mode): Word
    requires IsMode(dst, PosB)
  {
    ValueOf(SourceRead(s, src), dst, PosB)
  }

  /** A condition reads its operands and clears or sets the skip flag; nothing else changes. */
  lemma {:induction false} ConditionRuns(s: State, op: Word, dst: Mode, src: Mode, t: State)
    requires Stands(s, op, dst, src) && IsBranch(op) && t == Decided(s, dst, src)
    ensures Execute(s) ==
            Some((t.(skip := !Asks(op, TestedValue(s, dst, src), SourceValue(s, src))), []))
  {
    var u, b, a := SourceRead(s, src), TestedValue(s, dst, src), SourceValue(s, src);
    ExecutesBranch(s, op, dst, src);
    OperandsFound(s, op, dst, src, u);
    Reads(u, dst, PosB);
    PastKeeps(u, dst, PosB);
    BranchIs(Fetched(s), op, dst, src, u, t, b, a);
  }

  /** The next instruction runs. */
  predicate LetsRun(s: State) {
    Execute(s).Some? && !Execute(s).value.0.skip
  }

  /** Two instructions find the same values. */
  ghost predicate SameValues(s: State, t: State, dst: Mode, src: Mode) {
    && IsMode(dst, PosB) && IsMode(src, PosA)
    && TestedValue(s, dst, src) == TestedValue(t, dst, src) && SourceValue(s, src) == SourceValue(t, src)
  }

  lemma {:induction false} LetsRunIff(s: State, op: Word, dst: Mode, src: Mode)
    requires Stands(s, op, dst, src) && IsBranch(op)
    ensures LetsRun(s) <==> Asks(op, TestedValue(s, dst, src), SourceValue(s, src))
  {
    ConditionRuns(s, op, dst, src, Decided(s, dst, src));
  }

  /** Of IFE, IFG and IFL on the same values exactly one lets the next instruction run. */
  lemma {:induction false} ExactlyOneRuns(s: State, t: State, u: State, dst: Mode, src: Mode)
    requires Stands(s, IFE, dst, src) && Stands(t, IFG, dst, src) && Stands(u, IFL, dst, src)
    requires SameValues(s, t, dst, src) && SameValues(s, u, dst, src)
    ensures LetsRun(s) || LetsRun(t) || LetsRun(u)
    ensures !(LetsRun(s) && LetsRun(t)) && !(LetsRun(s) && LetsRun(u)) && !(LetsRun(t) && LetsRun(u))
  {
    LetsRunIff(s, IFE, dst, src);
    LetsRunIff(t, IFG, dst, src);
    LetsRunIff(u, IFL, dst, src);
  }

  /** IFN is the opposite of IFE, and IFC of IFB. */
  lemma {:induction false} OppositesRun(s: State, op: Word, t: State, opposite: Word, dst: Mode, src: Mode)
    requires Stands(s, op, dst, src) && Stands(t, opposite, dst, src) && SameValues(s, t, dst, src)
    requires (op == IFE && opposite == IFN) || (op == IFB && opposite == IFC)
    ensures LetsRun(s) <==> !LetsRun(t)
  {
    LetsRunIff(s, op, dst, src);
    LetsRunIff(t, opposite, dst, src);
  }

  /** IFL lets the next instruction run if and only if SUB of the same values leaves a borrow in EX. */
  lemma {:induction false} LessIsBorrow(s: State, t: State, dst: Mode, src: Mode)
    requires Stands(s, IFL, dst, src) && Stands(t, OP_SUB, dst, src) && !dst.Literal? && SameValues(s, t, dst, src)
    ensures Execute(t).Some? && (LetsRun(s) <==> Execute(t).value.0.ex == 0xFFFF)
  {
    var b, a := TargetValue(t, dst, src), SourceValue(t, src);
    LetsRunIff(s, IFL, dst, src);
    ComputingRuns(t, OP_SUB, dst, src, b, a);
    ArithmeticLaws.Subtracting(b, a, t.ex);
  }

  /** The signed orders: the opposite signs count, or else the words. */
  lemma {:induction false} SignedOrder(b: Word, a: Word)
    ensures Moved(b) > Moved(a) <==> if b < 0x8000 <= a then true else if a < 0x8000 <= b then false else b > a
  {
  }

  // ----- What is skipped -----

  /** A condition and the cycles it sleeps. */
  lemma {:induction false} ConditionTakes(s: State, op: Word, dst: Mode, src: Mode, t: State, runs: bool)
    returns (n: nat)
    requires Stands(s, op, dst, src) && IsBranch(op) && s.sleep == 0 && Skipping.Undisturbed(s)
    requires t == Decided(s, dst, src) && runs == Asks(op, TestedValue(s, dst, src), SourceValue(s, src))
    ensures n > 0 && Skipping.Cycles(s, n) == Some(t.(skip := !runs, sleep := 0))
  {
    ConditionRuns(s, op, dst, src, t);
    Skipping.CycleExecutes(s, t.(skip := !runs));
    n := Skipping.ExecuteAndIdle(s, t.(skip := !runs));
  }

  /** A condition that holds skips nothing: the machine is at the next instruction. */
  lemma {:induction false} TrueSkipsNothing(s: State, op: Word, dst: Mode, src: Mode) returns (n: nat)
    requires Stands(s, op, dst, src) && IsBranch(op) && s.sleep == 0 && Skipping.Undisturbed(s)
    requires Asks(op, TestedValue(s, dst, src), SourceValue(s, src))
    ensures n > 0 && Skipping.Cycles(s, n) == Some(Decided(s, dst, src).(skip := false, sleep := 0))
  {
    n := ConditionTakes(s, op, dst, src, Decided(s, dst, src), true);
  }

  lemma {:induction false} DecidedKeeps(s: State, dst: Mode, src: Mode, t: State)
    requires t == Decided(s, dst, src)
    ensures t.ram == s.ram && t.halted == s.halted && t.queueing == s.queueing && t.queue == s.queue
  {
    PastKeeps(Fetched(s), src, PosA);
    PastKeeps(SourceRead(s, src), dst, PosB);
  }

  /** A condition that does not hold skips one chain: further conditions and one other instruction. */
  lemma {:induction false} FalseSkipsOneChain(s: State, op: Word, dst: Mode, src: Mode, t: State, k: nat)
    returns (n: nat)
    requires Stands(s, op, dst, src) && IsBranch(op) && s.sleep == 0 && Skipping.Undisturbed(s)
    requires !Asks(op, TestedValue(s, dst, src), SourceValue(s, src))
    requires t == Decided(s, dst, src) && Skipping.Chain(s.ram, t.pc, k)
    ensures Skipping.Cycles(s, n) ==
            Some(t.(pc := Skipping.Behind(s.ram, t.pc, k + 1), skip := false, sleep := 0))
  {
    var m := ConditionTakes(s, op, dst, src, t, false);
    DecidedKeeps(s, dst, src, t);
    n := ThenSkips(s, m, t.(skip := true, sleep := 0), k);
  }

  lemma {:induction false} ThenSkips(s: State, m: nat, u: State, k: nat) returns (n: nat)
    requires Skipping.Cycles(s, m) == Some(u) && u.skip && u.sleep == 0 && Skipping.Undisturbed(u)
    requires Skipping.Chain(u.ram, u.pc, k)
    ensures Skipping.Cycles(s, n) == Some(u.(pc := Skipping.Behind(u.ram, u.pc, k + 1), skip := false))
  {
    var d := Skipping.SkipPassesOneChain(u, k);
    Skipping.CyclesAdd(s, m, d);
    n := m + d;
  }
}
