/**
 Addition and subtraction of numbers of several words with ADD, ADX, SUB and SBX (libdcpu-vm/dcpuops.c): a run
 of the machine over a sequence of such instructions in memory.
 */
module MultiPrecision {
  import opened Words
  import opened Dcpu
  import opened Machine
  import opened Skipping
  import opened CarryStep

  // ----- Programs -----

  /** The address holds a word of the first `n` instructions from `pc` on. */
  ghost predicate InCode(ram: Ram, pc: Word, n: nat, a: Word) {
    exists k :: 0 <= k < n && InInst(ram, pc, k, a)
  }

  ghost predicate InInst(ram: Ram, pc: Word, k: nat, a: Word) {
    Wrap(a - Behind(ram, pc, k)) < Size(ram[Behind(ram, pc, k)])
  }

  function OpOf(first: Word, next: Word, k: nat): Word {
    if k == 0 then first else next
  }

  ghost predicate Different(places: seq<Place>) {
    forall i, j :: 0 <= i < j < |places| ==> places[i] != places[j]
  }

  /** Instruction `k` stores to a word of its own outside the code, and to SP only if no operand is PUSH or POP. */
  ghost predicate Fits(s: State, places: seq<Place>, first: Word, next: Word, k: nat)
    requires k < |places|
  {
    var inst, p := s.ram[Behind(s.ram, s.pc, k)], places[k];
    && GetOp(inst) == OpOf(first, next, k) && IsStore(p)
    && (p.Memory? ==> !InCode(s.ram, s.pc, |places|, p.a))
    && (MovesStack(inst) ==> TheSp !in places)
  }

  /**
   From PC on memory holds an instruction with the opcode `first` and others with `next`, which store to these
   places, all different.
   */
  ghost predicate Program(s: State, places: seq<Place>, first: Word, next: Word) {
    && !s.skip && s.sleep == 0 && Undisturbed(s) && Different(places)
    && forall k :: 0 <= k < |places| ==> Fits(s, places, first, next, k)
  }

  // ----- Runs -----

  /** Step `k` executes the instruction at PC, which reads `sources[k]` and stores to `places[k]`. */
  ghost predicate ExecutedAt(ts: seq<State>, places: seq<Place>, sources: seq<Word>, k: nat)
    requires k < |places| == |sources| && |ts| == |places| + 1
  {
    Executed(ts[k], ts[k + 1]) && PlaceAt(ts[k]) == places[k] && SourceAt(ts[k]) == sources[k]
  }

  /** The machine goes through the states `ts`; each operand is read when its instruction is executed. */
  ghost predicate Execution(ts: seq<State>, places: seq<Place>, sources: seq<Word>) {
    && |places| == |sources| && |ts| == |places| + 1
    && forall k :: 0 <= k < |places| ==> ExecutedAt(ts, places, sources, k)
  }

  /** After `k` instructions of the program: behind them, with the code intact. */
  ghost predicate Intact(s: State, n: nat, k: nat, t: State) {
    && t.pc == Behind(s.ram, s.pc, k) && !t.skip && t.sleep == 0 && Undisturbed(t)
    && forall a: Word {:trigger InCode(s.ram, s.pc, n, a)} :: InCode(s.ram, s.pc, n, a) ==> t.ram[a] == s.ram[a]
  }

  lemma {:induction false} InstIsCode(ram: Ram, pc: Word, n: nat, k: nat)
    requires k < n
    ensures InCode(ram, pc, n, Behind(ram, pc, k))
  {
    assert InInst(ram, pc, k, Behind(ram, pc, k));
  }

  lemma {:induction false} IntactStep(s: State, n: nat, k: nat, t: State, t': State, p: Place)
    requires k < n && Intact(s, n, k, t) && (p.Memory? ==> !InCode(s.ram, s.pc, n, p.a)) && Wrote(t, t', p)
    ensures Intact(s, n, k + 1, t')
  {
    InstIsCode(s.ram, s.pc, n, k);
    forall a: Word | InCode(s.ram, s.pc, n, a) ensures t'.ram[a] == s.ram[a] {
      assert p != Memory(a);
    }
  }

  /** Step `k`, seen from what it computes. */
  ghost predicate StepOf(ts: seq<State>, places: seq<Place>, sources: seq<Word>, first: Word, next: Word, k: nat)
    requires k < |places| == |sources| && |ts| == |places| + 1
  {
    var r := Compute(OpOf(first, next, k), Load(ts[k], places[k]), sources[k], ts[k].ex);
    r.1.Some? && StepTo(ts[k], ts[k + 1], places[k], r.0, r.1.value, TheSp !in places)
  }

  lemma {:induction false} ProgramStep(ts: seq<State>, places: seq<Place>, sources: seq<Word>, first: Word, next: Word,
          k: nat)
    returns (cycles: nat)
    requires Execution(ts, places, sources) && k < |places| && Intact(ts[0], |places|, k, ts[k])
    requires Fits(ts[0], places, first, next, k) && Carries(first) && Carries(next)
    ensures Intact(ts[0], |places|, k + 1, ts[k + 1]) && Cycles(ts[k], cycles) == Some(ts[k + 1])
    ensures StepOf(ts, places, sources, first, next, k)
  {
    var s, t, t' := ts[0], ts[k], ts[k + 1];
    assert ExecutedAt(ts, places, sources, k);
    InstIsCode(s.ram, s.pc, |places|, k);
    assert t.ram[t.pc] == s.ram[Behind(s.ram, s.pc, k)];
    assert places[k] in places;
    var value, ex;
    value, ex, cycles := OneStep(t, t', OpOf(first, next, k));
    StepToLess(t, t', places[k], value, ex, MovesStack(t.ram[t.pc]), TheSp !in places);
    IntactStep(s, |places|, k, t, t', places[k]);
  }

  ghost predicate RunOf(ts: seq<State>, places: seq<Place>, sources: seq<Word>, first: Word, next: Word) {
    && |places| == |sources| && |ts| == |places| + 1 && Different(places)
    && (forall i :: 0 <= i < |places| ==> IsStore(places[i]))
    && forall k :: 0 <= k < |places| ==> StepOf(ts, places, sources, first, next, k)
  }

  lemma {:induction false} CyclesOn(s: State, n: nat, t: State, m: nat, u: State) returns (sum: nat)
    requires Cycles(s, n) == Some(t) && Cycles(t, m) == Some(u)
    ensures Cycles(s, sum) == Some(u)
  {
    CyclesAdd(s, n, m);
    sum := n + m;
  }

  /** The first `k` instructions leave the program as it was. */
  lemma {:induction false} ProgramIntact(ts: seq<State>, places: seq<Place>, sources: seq<Word>, first: Word,
          next: Word, k: nat)
    requires Execution(ts, places, sources) && Program(ts[0], places, first, next) && Carries(first) && Carries(next)
    requires k <= |places|
    ensures Intact(ts[0], |places|, k, ts[k])
  {
    for i := 0 to k
      invariant Intact(ts[0], |places|, i, ts[i])
    {
      assert Fits(ts[0], places, first, next, i);
      var c := ProgramStep(ts, places, sources, first, next, i);
    }
  }

  lemma {:induction false} ProgramStepAt(ts: seq<State>, places: seq<Place>, sources: seq<Word>, first: Word,
          next: Word, k: nat)
    returns (cycles: nat)
    requires Execution(ts, places, sources) && Program(ts[0], places, first, next) && Carries(first) && Carries(next)
    requires k < |places|
    ensures StepOf(ts, places, sources, first, next, k) && Cycles(ts[k], cycles) == Some(ts[k + 1])
  {
    ProgramIntact(ts, places, sources, first, next, k);
    assert Fits(ts[0], places, first, next, k);
    cycles := ProgramStep(ts, places, sources, first, next, k);
  }

  /** The first `k` instructions take some cycles. */
  lemma {:induction false} ProgramRuns(ts: seq<State>, places: seq<Place>, sources: seq<Word>, first: Word, next: Word,
          k: nat)
    returns (cycles: nat)
    requires Execution(ts, places, sources) && Program(ts[0], places, first, next) && Carries(first) && Carries(next)
    requires k <= |places|
    ensures Cycles(ts[0], cycles) == Some(ts[k])
  {
    cycles := 0;
    for i := 0 to k
      invariant Cycles(ts[0], cycles) == Some(ts[i])
    {
      var c := ProgramStepAt(ts, places, sources, first, next, i);
      cycles := CyclesOn(ts[0], cycles, ts[i], c, ts[i + 1]);
    }
  }

  lemma {:induction false} ProgramIsRun(ts: seq<State>, places: seq<Place>, sources: seq<Word>, first: Word, next: Word)
    returns (cycles: nat)
    requires Execution(ts, places, sources) && Program(ts[0], places, first, next) && Carries(first) && Carries(next)
    ensures RunOf(ts, places, sources, first, next)
    ensures Cycles(ts[0], cycles) == Some(ts[|places|]) && ts[|places|].pc == Behind(ts[0].ram, ts[0].pc, |places|)
  {
    cycles := ProgramRuns(ts, places, sources, first, next, |places|);
    ProgramIntact(ts, places, sources, first, next, |places|);
    forall i | 0 <= i < |places| ensures IsStore(places[i]) && StepOf(ts, places, sources, first, next, i) {
      assert Fits(ts[0], places, first, next, i);
      var c := ProgramStepAt(ts, places, sources, first, next, i);
    }
  }

  /** `w` times 0x10000 to the power `n`. */
  function Term(w: nat, n: nat): nat {
    if n == 0 then w else 0x10000 * Term(w, n - 1)
  }

  /** The number whose words, lowest first, these are. */
  function Number(limbs: seq<Word>): nat {
    if limbs == [] then 0 else Number(limbs[..|limbs| - 1]) + Term(limbs[|limbs| - 1], |limbs| - 1)
  }

  // ----- What the places hold -----

  function Loads(s: State, places: seq<Place>): (r: seq<Word>)
    ensures |r| == |places| && forall i :: 0 <= i < |r| ==> r[i] == Load(s, places[i])
  {
    seq(|places|, i requires 0 <= i < |places| => Load(s, places[i]))
  }

  /** Places that are yet to be stored to are as in the beginning. */
  lemma {:induction false} PlacesKept(ts: seq<State>, places: seq<Place>, sources: seq<Word>, first: Word, next: Word,
          k: nat, i: nat)
    requires RunOf(ts, places, sources, first, next) && k <= i < |places|
    ensures Load(ts[k], places[i]) == Load(ts[0], places[i])
  {
    if k > 0 {
      PlacesKept(ts, places, sources, first, next, k - 1, i);
      assert StepOf(ts, places, sources, first, next, k - 1);
      assert places[i] in places && places[k - 1] != places[i];
    }
  }

  /** One instruction writes its place and leaves the finished ones alone. */
  lemma {:induction false} PlacesGrow(ts: seq<State>, places: seq<Place>, sources: seq<Word>, first: Word, next: Word,
          k: nat)
    returns (value: Word, ex: Word)
    requires RunOf(ts, places, sources, first, next) && k < |places|
    ensures Compute(OpOf(first, next, k), Load(ts[0], places[k]), sources[k], ts[k].ex) == (value, Some(ex))
    ensures Loads(ts[k + 1], places[..k + 1]) == Loads(ts[k], places[..k]) + [value] && ts[k + 1].ex == ex
  {
    PlacesKept(ts, places, sources, first, next, k, k);
    assert StepOf(ts, places, sources, first, next, k);
    var r := Compute(OpOf(first, next, k), Load(ts[k], places[k]), sources[k], ts[k].ex);
    value, ex := r.0, r.1.value;
    forall i | 0 <= i < k + 1 ensures Loads(ts[k + 1], places[..k + 1])[i] == (Loads(ts[k], places[..k]) + [value])[i] {
      assert places[i] in places && (i < k ==> places[i] != places[k]);
    }
  }

  lemma {:induction false} LoadsGrow(s: State, places: seq<Place>, sources: seq<Word>, k: nat)
    requires k < |places| == |sources|
    ensures Loads(s, places[..k + 1]) == Loads(s, places[..k]) + [Load(s, places[k])]
    ensures sources[..k + 1] == sources[..k] + [sources[k]]
  {
  }

  lemma {:induction false} NumberAppend(limbs: seq<Word>, w: Word)
    ensures Number(limbs + [w]) == Number(limbs) + Term(w, |limbs|)
  {
    assert (limbs + [w])[..|limbs|] == limbs;
  }

  /** One column of an addition. */
  lemma {:induction false} AddColumn(b: Word, a: Word, carry: nat, n: nat)
    requires carry <= 1
    ensures Flow(b + a + carry) <= 1
    ensures Term(Wrap(b + a + carry), n) + Term(Flow(b + a + carry), n + 1) == Term(b, n) + Term(a, n) + Term(carry, n)
  {
    if n > 0 { AddColumn(b, a, carry, n - 1); }
  }

  /** The sum of the first `k` words so far, and its carry. */
  ghost predicate Summed(bs: seq<Word>, as_: seq<Word>, sums: seq<Word>, carry: nat) {
    && carry <= 1 && |bs| == |as_| == |sums|
    && Number(sums) + Term(carry, |sums|) == Number(bs) + Number(as_)
  }

  lemma {:induction false} SumGrows(bs: seq<Word>, as_: seq<Word>, sums: seq<Word>, carry: nat, b: Word, a: Word)
    requires Summed(bs, as_, sums, carry)
    ensures Summed(bs + [b], as_ + [a], sums + [Wrap(b + a + carry)], Flow(b + a + carry))
  {
    AddColumn(b, a, carry, |sums|);
    NumberAppend(sums, Wrap(b + a + carry));
    NumberAppend(bs, b);
    NumberAppend(as_, a);
  }

  /** The carry that instruction `k` takes in. */
  function CarryIn(t: State, k: nat): Word {
    if k == 0 then 0 else t.ex
  }

  lemma {:induction false} AddComputes(b: Word, a: Word, ex: Word, carry: Word, k: nat)
    requires carry == (if k == 0 then 0 else ex) && carry <= 1
    ensures Compute(if k == 0 then OP_ADD else OP_ADX, b, a, ex) == (Wrap(b + a + carry), Some(Flow(b + a + carry)))
  {
  }

  /** The first `k` places hold the sum of what they held and of the operands read. */
  ghost predicate SumHeld(ts: seq<State>, places: seq<Place>, sources: seq<Word>, k: nat)
    requires k < |ts| && k <= |places| == |sources|
  {
    Summed(Loads(ts[0], places[..k]), sources[..k], Loads(ts[k], places[..k]), CarryIn(ts[k], k))
  }

  lemma {:induction false} SumHeldGrows(ts: seq<State>, places: seq<Place>, sources: seq<Word>, k: nat, b: Word,
          a: Word)
    requires k < |places| == |sources| && |ts| == |places| + 1 && SumHeld(ts, places, sources, k)
    requires b == Load(ts[0], places[k]) && a == sources[k]
    requires Loads(ts[k + 1], places[..k + 1]) == Loads(ts[k], places[..k]) + [Wrap(b + a + CarryIn(ts[k], k))]
    requires ts[k + 1].ex == Flow(b + a + CarryIn(ts[k], k))
    ensures SumHeld(ts, places, sources, k + 1)
  {
    SumGrows(Loads(ts[0], places[..k]), sources[..k], Loads(ts[k], places[..k]), CarryIn(ts[k], k), b, a);
    LoadsGrow(ts[0], places, sources, k);
  }

  lemma {:induction false} AddStep(ts: seq<State>, places: seq<Place>, sources: seq<Word>, k: nat)
    requires RunOf(ts, places, sources, OP_ADD, OP_ADX) && k < |places| && SumHeld(ts, places, sources, k)
    ensures SumHeld(ts, places, sources, k + 1)
  {
    var b, a, carry := Load(ts[0], places[k]), sources[k], CarryIn(ts[k], k);
    var value, ex := PlacesGrow(ts, places, sources, OP_ADD, OP_ADX, k);
    AddComputes(b, a, ts[k].ex, carry, k);
    SumHeldGrows(ts, places, sources, k, b, a);
  }

  lemma {:induction false} RunAdds(ts: seq<State>, places: seq<Place>, sources: seq<Word>)
    requires RunOf(ts, places, sources, OP_ADD, OP_ADX)
    ensures SumHeld(ts, places, sources, |places|)
  {
    for k := 0 to |places|
      invariant SumHeld(ts, places, sources, k)
    {
      AddStep(ts, places, sources, k);
    }
  }

  /** The places of `t` hold the sum of what they held in `s` and of the numbers read, and EX the carry. */
  ghost predicate HoldsSum(s: State, places: seq<Place>, sources: seq<Word>, t: State) {
    && |places| == |sources| && t.ex <= 1
    && Number(Loads(t, places)) + Term(t.ex, |places|) == Number(Loads(s, places)) + Number(sources)
  }

  /**
   ADD followed by ADX adds numbers of any number of words: some cycles later the machine is behind the `n`
   instructions, their places hold the sum modulo 0x10000 to the power `n` of what they held and of the
   operands read on the way, and EX is the carry out of the last word.
   */
  lemma {:induction false} AddingWords(ts: seq<State>, places: seq<Place>, sources: seq<Word>) returns (cycles: nat)
    requires Execution(ts, places, sources) && Program(ts[0], places, OP_ADD, OP_ADX) && |places| > 0
    ensures Cycles(ts[0], cycles) == Some(ts[|places|]) && ts[|places|].pc == Behind(ts[0].ram, ts[0].pc, |places|)
    ensures HoldsSum(ts[0], places, sources, ts[|places|])
  {
    cycles := ProgramIsRun(ts, places, sources, OP_ADD, OP_ADX);
    RunAdds(ts, places, sources);
    assert places[..|places|] == places && sources[..|places|] == sources;
  }

  function Borrow(ex: Word): int {
    if ex == 0 then 0 else 1
  }

  /** One column of a subtraction. */
  lemma {:induction false} SubtractColumn(b: Word, a: Word, ex: Word, n: nat)
    requires ex == 0 || ex == 0xFFFF
    ensures Flow(b - a + Signed(ex)) == 0 || Flow(b - a + Signed(ex)) == 0xFFFF
    ensures Term(Wrap(b - a + ex), n) + Term(a, n) + Term(Borrow(ex), n) ==
            Term(b, n) + Term(Borrow(Flow(b - a + Signed(ex))), n + 1)
  {
    if n > 0 { SubtractColumn(b, a, ex, n - 1); }
  }

  /** The difference of the first `k` words so far, and its borrow. */
  ghost predicate Subtracted(bs: seq<Word>, as_: seq<Word>, diffs: seq<Word>, ex: Word) {
    && (ex == 0 || ex == 0xFFFF) && |bs| == |as_| == |diffs|
    && Number(diffs) + Number(as_) == Number(bs) + Term(Borrow(ex), |diffs|)
  }

  lemma {:induction false} DifferenceGrows(bs: seq<Word>, as_: seq<Word>, diffs: seq<Word>, ex: Word, b: Word, a: Word)
    requires Subtracted(bs, as_, diffs, ex)
    ensures Subtracted(bs + [b], as_ + [a], diffs + [Wrap(b - a + ex)], Flow(b - a + Signed(ex)))
  {
    SubtractColumn(b, a, ex, |diffs|);
    NumberAppend(diffs, Wrap(b - a + ex));
    NumberAppend(bs, b);
    NumberAppend(as_, a);
  }

  lemma {:induction false} SubtractComputes(b: Word, a: Word, ex: Word, taken: Word, k: nat)
    requires taken == if k == 0 then 0 else ex
    ensures Compute(if k == 0 then OP_SUB else OP_SBX, b, a, ex) ==
            (Wrap(b - a + taken), Some(Flow(b - a + Signed(taken))))
  {
  }

  /** The first `k` places hold the difference of what they held and of the operands read. */
  ghost predicate DifferenceHeld(ts: seq<State>, places: seq<Place>, sources: seq<Word>, k: nat)
    requires k < |ts| && k <= |places| == |sources|
  {
    Subtracted(Loads(ts[0], places[..k]), sources[..k], Loads(ts[k], places[..k]), CarryIn(ts[k], k))
  }

  lemma {:induction false} SubtractStep(ts: seq<State>, places: seq<Place>, sources: seq<Word>, k: nat)
    requires RunOf(ts, places, sources, OP_SUB, OP_SBX) && k < |places| && DifferenceHeld(ts, places, sources, k)
    ensures DifferenceHeld(ts, places, sources, k + 1)
  {
    var b, a, ex := Load(ts[0], places[k]), sources[k], CarryIn(ts[k], k);
    var value, flow := PlacesGrow(ts, places, sources, OP_SUB, OP_SBX, k);
    SubtractComputes(b, a, ts[k].ex, ex, k);
    DifferenceGrows(Loads(ts[0], places[..k]), sources[..k], Loads(ts[k], places[..k]), ex, b, a);
    LoadsGrow(ts[0], places, sources, k);
  }

  lemma {:induction false} RunSubtracts(ts: seq<State>, places: seq<Place>, sources: seq<Word>)
    requires RunOf(ts, places, sources, OP_SUB, OP_SBX)
    ensures DifferenceHeld(ts, places, sources, |places|)
  {
    for k := 0 to |places|
      invariant DifferenceHeld(ts, places, sources, k)
    {
      SubtractStep(ts, places, sources, k);
    }
  }

  /** The places of `t` hold the difference of what they held in `s` and the numbers read, and EX the borrow. */
  ghost predicate HoldsDifference(s: State, places: seq<Place>, sources: seq<Word>, t: State) {
    && |places| == |sources| && (t.ex == 0 || t.ex == 0xFFFF)
    && Number(Loads(t, places)) + Number(sources) == Number(Loads(s, places)) + Term(Borrow(t.ex), |places|)
  }

  /** SUB followed by SBX subtracts in the same way; EX is 0xFFFF exactly if the last word borrows. */
  lemma {:induction false} SubtractingWords(ts: seq<State>, places: seq<Place>, sources: seq<Word>)
    returns (cycles: nat)
    requires Execution(ts, places, sources) && Program(ts[0], places, OP_SUB, OP_SBX) && |places| > 0
    ensures Cycles(ts[0], cycles) == Some(ts[|places|]) && ts[|places|].pc == Behind(ts[0].ram, ts[0].pc, |places|)
    ensures HoldsDifference(ts[0], places, sources, ts[|places|])
  {
    cycles := ProgramIsRun(ts, places, sources, OP_SUB, OP_SBX);
    RunSubtracts(ts, places, sources);
    assert places[..|places|] == places && sources[..|places|] == sources;
  }
}
