/**
 One step of a sequence of ADD, ADX, SUB and SBX instructions (libdcpu-vm/dcpuops.c): what it reads, and what it
 stores where.
 */
module CarryStep {
  import opened Words
  import opened Dcpu
  import opened Machine
  import opened Skipping

  /** The instruction at PC, taken as one of ADD, ADX, SUB and SBX, is executed and its cycles are slept off. */
  function OneOp(s: State): State {
    var (t, inst) := Consume(s);
    Arithmetic(t, GetOp(inst), GetB(inst), GetA(inst)).(sleep := 0)
  }

  /** What the instruction at PC reads as its operand a. */
  function SourceAt(s: State): Word {
    Resolve(Consume(s).0, GetA(s.ram[s.pc]), PosA).1
  }

  /** The machine when the operands of the instruction at PC have been found. */
  function Found(s: State): State {
    GetStore(Resolve(Consume(s).0, GetA(s.ram[s.pc]), PosA).0, GetB(s.ram[s.pc]), PosB).0
  }

  /** What the instruction at PC stores to. */
  function PlaceAt(s: State): Place {
    GetStore(Resolve(Consume(s).0, GetA(s.ram[s.pc]), PosA).0, GetB(s.ram[s.pc]), PosB).1
  }

  /** A place that holds a word of its own: not EX, which takes the carry, nor PC, nor a literal. */
  predicate IsStore(p: Place) {
    p != TheEx && p != ThePc && p != Nowhere && (p.Register? ==> p.r < 8)
  }

  predicate MovesStack(inst: Word) {
    GetA(inst) == PUSH_POP || GetB(inst) == PUSH_POP
  }

  /** Between the two states the operands of the instruction `inst` have been found. */
  ghost predicate OperandsFound(s: State, inst: Word, u: State) {
    u == s.(pc := Wrap(s.pc + Size(inst)), sp := u.sp, sleep := u.sleep) && (!MovesStack(inst) ==> u.sp == s.sp)
  }

  lemma {:induction false} ReadingFinds(s: State, code: Word, pos: Position)
    requires code < 64
    ensures var t := Resolve(s, code, pos).0;
            t == s.(pc := Wrap(s.pc + NextWords(code)), sp := t.sp, sleep := t.sleep) &&
                (code != PUSH_POP ==> t.sp == s.sp)
  {
  }

  lemma {:induction false} StoringFinds(s: State, code: Word)
    requires code < 32 && !s.skip && GetStore(s, code, PosB).1 != Nowhere
    ensures var t := GetStore(s, code, PosB).0;
            t == s.(pc := Wrap(s.pc + NextWords(code)), sp := t.sp, sleep := t.sleep) &&
                (code != PUSH_POP ==> t.sp == s.sp)
  {
  }

  lemma {:induction false} InstFinds(s: State, inst: Word)
    requires s.ram[s.pc] == inst && !s.skip && GetOp(inst) != OP_NONBASIC && PlaceAt(s) != Nowhere
    ensures OperandsFound(s, inst, Found(s))
  {
    var t := Consume(s).0;
    ReadingFinds(t, GetA(inst), PosA);
    var u := Resolve(t, GetA(inst), PosA).0;
    StoringFinds(u, GetB(inst));
    FoundInTurn(s, t, u, Found(s), NextWords(GetA(inst)), NextWords(GetB(inst)));
  }

  /** The program counter moves on three times. */
  lemma {:induction false} FoundInTurn(s: State, t: State, u: State, v: State, n: nat, m: nat)
    requires t == s.(pc := Wrap(s.pc + 1), sleep := t.sleep)
    requires u == t.(pc := Wrap(t.pc + n), sp := u.sp, sleep := u.sleep)
    requires v == u.(pc := Wrap(u.pc + m), sp := v.sp, sleep := v.sleep)
    ensures v == s.(pc := Wrap(s.pc + 1 + n + m), sp := v.sp, sleep := v.sleep)
  {
    WrapTwice(s.pc + 1, n);
    WrapTwice(s.pc + 1 + n, m);
  }

  lemma {:induction false} StoreSleeps(s: State, p: Place, value: Word, sleep: Word)
    ensures Store(s.(sleep := sleep), p, value) == Store(s, p, value).(sleep := sleep)
  {
  }

  lemma {:induction false} FinishSleeps(s: State, p: Place, value: Word, ex: Option<Word>, sleep: Word)
    ensures Finish(s.(sleep := sleep), p, value, ex) == Finish(s, p, value, ex).(sleep := sleep)
  {
    StoreSleeps(s, p, value, sleep);
  }

  lemma {:induction false} OperateFinishes(s: State, op: Word, p: Place, a: Word, value: Word, ex: Word)
    requires Compute(op, Load(s, p), a, s.ex) == (value, Some(ex))
    ensures Operate(s, op, p, a) == Finish(s, p, value, Some(ex))
  {
  }

  lemma {:induction false} LoadSleeps(s: State, p: Place, sleep: Word)
    ensures Load(s.(sleep := sleep), p) == Load(s, p)
  {
  }

  lemma {:induction false} ArithmeticStores(s: State, op: Word, b: Word, a: Word, u: State, p: Place, value: Word,
          ex: Word)
    requires GetStore(Resolve(s, a, PosA).0, b, PosB) == (u, p) && !u.skip
    requires Compute(op, Load(u, p), Resolve(s, a, PosA).1, u.ex) == (value, Some(ex))
    ensures Arithmetic(s, op, b, a).(sleep := 0) == Finish(u, p, value, Some(ex)).(sleep := 0)
  {
    var v := Sleep(u, ExtraCycles(op));
    LoadSleeps(u, p, v.sleep);
    OperateFinishes(v, op, p, Resolve(s, a, PosA).1, value, ex);
    FinishSleeps(u, p, value, Some(ex), v.sleep);
  }

  /** One instruction: the operands are found, then the result and EX are written. */
  lemma {:induction false} OneOpStores(s: State, inst: Word, value: Word, ex: Word)
    requires s.ram[s.pc] == inst && !Found(s).skip
    requires Compute(GetOp(inst), Load(Found(s), PlaceAt(s)), SourceAt(s), Found(s).ex) == (value, Some(ex))
    ensures OneOp(s) == Finish(Found(s), PlaceAt(s), value, Some(ex)).(sleep := 0)
  {
    ArithmeticStores(Consume(s).0, GetOp(inst), GetB(inst), GetA(inst), Found(s), PlaceAt(s), value, ex);
  }

  lemma {:induction false} ExecuteIsOneOp(s: State)
    requires IsArithmetic(GetOp(s.ram[s.pc]))
    ensures var r := Execute(s); r.Some? && r.value.1 == [] && r.value.0.(sleep := 0) == OneOp(s)
  {
  }

  lemma {:induction false} CyclesRun(s: State) returns (n: nat)
    requires s.sleep == 0 && Undisturbed(s) && IsArithmetic(GetOp(s.ram[s.pc]))
    ensures Cycles(s, n) == Some(OneOp(s))
  {
    ExecuteIsOneOp(s);
    CycleExecutes(s, Execute(s).value.0);
    n := ExecuteAndIdle(s, Execute(s).value.0);
  }

  /** The instruction at PC can be executed and computes `value` and the carry `ex`. */
  ghost predicate Computes(t: State, value: Word, ex: Word) {
    var inst, p := t.ram[t.pc], PlaceAt(t);
    && !t.skip && GetOp(inst) != OP_NONBASIC && IsStore(p) && (p == TheSp ==> !MovesStack(inst))
    && Compute(GetOp(inst), Load(t, p), SourceAt(t), t.ex) == (value, Some(ex))
  }

  lemma {:induction false} FoundLoads(t: State, inst: Word, u: State, q: Place)
    requires OperandsFound(t, inst, u) && IsStore(q) && (q == TheSp ==> !MovesStack(inst))
    ensures Load(u, q) == Load(t, q)
  {
  }

  lemma {:induction false} StepFinishes(t: State, value: Word, ex: Word)
    requires Computes(t, value, ex)
    ensures OperandsFound(t, t.ram[t.pc], Found(t))
    ensures OneOp(t) == Finish(Found(t), PlaceAt(t), value, Some(ex)).(sleep := 0)
  {
    InstFinds(t, t.ram[t.pc]);
    FoundLoads(t, t.ram[t.pc], Found(t), PlaceAt(t));
    OneOpStores(t, t.ram[t.pc], value, ex);
  }

  /** A write to one place is seen there and nowhere else. */
  lemma {:induction false} FinishLoads(s: State, p: Place, value: Word, ex: Option<Word>, q: Place)
    requires IsStore(p) && IsStore(q)
    ensures Load(Finish(s, p, value, ex), q) == if q == p then value else Load(s, q)
  {
  }

  lemma {:induction false} StepLoads(t: State, value: Word, ex: Word, q: Place)
    requires Computes(t, value, ex) && IsStore(q) && (q == TheSp ==> !MovesStack(t.ram[t.pc]))
    ensures Load(OneOp(t), q) == if q == PlaceAt(t) then value else Load(t, q)
  {
    StepFinishes(t, value, ex);
    FoundLoads(t, t.ram[t.pc], Found(t), q);
    FinishLoads(Found(t), PlaceAt(t), value, Some(ex), q);
    LoadSleeps(Finish(Found(t), PlaceAt(t), value, Some(ex)), q, 0);
  }

  /** What a step does to the rest of the machine. */
  ghost predicate Wrote(t: State, t': State, p: Place) {
    && t'.pc == Wrap(t.pc + Size(t.ram[t.pc])) && !t'.skip && t'.sleep == 0
    && t'.halted == t.halted && t'.queueing == t.queueing && t'.queue == t.queue
    && forall a: Word :: p != Memory(a) ==> t'.ram[a] == t.ram[a]
  }

  lemma {:induction false} FinishSteps(t: State, u: State, p: Place, value: Word, ex: Word)
    requires OperandsFound(t, t.ram[t.pc], u) && IsStore(p) && !t.skip
    ensures var t' := Finish(u, p, value, Some(ex)).(sleep := 0); Wrote(t, t', p) && t'.ex == ex
  {
  }

  lemma {:induction false} StepKeepsRest(t: State, value: Word, ex: Word)
    requires Computes(t, value, ex)
    ensures Wrote(t, OneOp(t), PlaceAt(t)) && OneOp(t).ex == ex
  {
    StepFinishes(t, value, ex);
    FinishSteps(t, Found(t), PlaceAt(t), value, ex);
  }

  /** Opcodes that set EX to the carry or the borrow. */
  predicate Carries(op: Word) {
    op == OP_ADD || op == OP_SUB || op == OP_ADX || op == OP_SBX
  }

  lemma {:induction false} CarryingComputes(op: Word, b: Word, a: Word, ex: Word)
    requires Carries(op)
    ensures IsArithmetic(op) && op != OP_NONBASIC && Compute(op, b, a, ex).1.Some?
  {
  }

  /** From `t` to `t'` an instruction has stored `value` to the place `p` and `ex` to EX. */
  ghost predicate StepTo(t: State, t': State, p: Place, value: Word, ex: Word, movesStack: bool) {
    && IsStore(p) && Wrote(t, t', p) && t'.ex == ex
    && forall q :: IsStore(q) && (q == TheSp ==> !movesStack) ==> Load(t', q) == if q == p then value else Load(t, q)
  }

  lemma {:induction false} StepIsTo(t: State, value: Word, ex: Word)
    requires Computes(t, value, ex)
    ensures StepTo(t, OneOp(t), PlaceAt(t), value, ex, MovesStack(t.ram[t.pc]))
  {
    StepKeepsRest(t, value, ex);
    forall q | IsStore(q) && (q == TheSp ==> !MovesStack(t.ram[t.pc]))
      ensures Load(OneOp(t), q) == if q == PlaceAt(t) then value else Load(t, q)
    {
      StepLoads(t, value, ex, q);
    }
  }

  /** The instruction at PC is executed and its cycles are slept off. */
  ghost predicate Executed(t: State, t': State) {
    Execute(t).Some? && t' == Execute(t).value.0.(sleep := 0)
  }

  /** Any instruction with the opcode `op` that reads `a` and has a proper place to store to. */
  lemma {:induction false} OneStep(t: State, t': State, op: Word) returns (value: Word, ex: Word, cycles: nat)
    requires !t.skip && t.sleep == 0 && Undisturbed(t) && GetOp(t.ram[t.pc]) == op && Carries(op) && Executed(t, t')
    requires IsStore(PlaceAt(t)) && (PlaceAt(t) == TheSp ==> !MovesStack(t.ram[t.pc]))
    ensures Cycles(t, cycles) == Some(t') && StepTo(t, t', PlaceAt(t), value, ex, MovesStack(t.ram[t.pc]))
    ensures Compute(op, Load(t, PlaceAt(t)), SourceAt(t), t.ex) == (value, Some(ex))
  {
    CarryingComputes(op, Load(t, PlaceAt(t)), SourceAt(t), t.ex);
    var r := Compute(op, Load(t, PlaceAt(t)), SourceAt(t), t.ex);
    value, ex := r.0, r.1.value;
    ExecuteIsOneOp(t);
    StepIsTo(t, value, ex);
    cycles := CyclesRun(t);
  }

  lemma {:induction false} StepToLess(t: State, t': State, p: Place, value: Word, ex: Word, movesStack: bool,
          excluded: bool)
    requires StepTo(t, t', p, value, ex, movesStack) && (movesStack ==> excluded)
    ensures StepTo(t, t', p, value, ex, excluded)
  {
  }
}
