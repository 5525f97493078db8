/**
 Numbers of several words in memory, added and subtracted by instructions with absolute addresses.
 */
module MultiPrecisionMemory {
  import opened Words
  import opened Dcpu
  import opened Machine
  import opened Skipping
  import opened CarryStep
  import opened MultiPrecision

  /** Both operands are [next word]. */
  predicate IsAbsolute(inst: Word, op: Word) {
    GetOp(inst) == op && GetA(inst) == NXT && GetB(inst) == NXT
  }

  /** Instruction `k` reads and writes the words `k` of the two numbers: op [dst + k], [src + k]. */
  predicate OnWords(s: State, first: Word, next: Word, dst: nat, src: nat, k: nat) {
    var at := s.pc + 3 * k;
    && at + 3 <= 0x10000 && IsAbsolute(s.ram[at], OpOf(first, next, k))
    && s.ram[at + 1] == src + k && s.ram[at + 2] == dst + k
  }

  /**
   The instructions for numbers of `n` words stand at PC. The result does not overlap the instructions, and no
   word of the other number is overwritten before it is read.
   */
  ghost predicate WordProgram(s: State, n: nat, first: Word, next: Word, dst: nat, src: nat) {
    && !s.skip && s.sleep == 0 && Undisturbed(s) && Carries(first) && Carries(next)
    && dst + n <= 0x10000 && src + n <= 0x10000 && !(src < dst < src + n)
    && (dst + n <= s.pc || s.pc + 3 * n <= dst)
    && forall k :: 0 <= k < n ==> OnWords(s, first, next, dst, src, k)
  }

  function WordPlaces(dst: nat, n: nat): (r: seq<Place>)
    requires dst + n <= 0x10000
    ensures |r| == n && forall k :: 0 <= k < n ==> r[k] == Memory(dst + k)
  {
    seq(n, k requires 0 <= k < n => Memory(dst + k))
  }

  lemma {:induction false} AbsoluteSize(inst: Word, op: Word)
    requires IsAbsolute(inst, op) && Carries(op)
    ensures Size(inst) == 3 && !MovesStack(inst)
  {
  }

  /** Where instruction `k` stands, given that all before it take three words. */
  lemma {:induction false} WordBehind(s: State, n: nat, first: Word, next: Word, dst: nat, src: nat, k: nat)
    requires WordProgram(s, n, first, next, dst, src) && k <= n
    ensures Behind(s.ram, s.pc, k) == Wrap(s.pc + 3 * k)
  {
    if k > 0 {
      WordBehind(s, n, first, next, dst, src, k - 1);
      assert OnWords(s, first, next, dst, src, k - 1);
      AbsoluteSize(s.ram[s.pc + 3 * (k - 1)], OpOf(first, next, k - 1));
    }
  }

  lemma {:induction false} WordInCode(s: State, n: nat, first: Word, next: Word, dst: nat, src: nat, k: nat, j: nat)
    requires WordProgram(s, n, first, next, dst, src) && k < n && j < 3
    ensures s.pc + 3 * k + j < 0x10000 && InCode(s.ram, s.pc, n, s.pc + 3 * k + j)
  {
    WordBehind(s, n, first, next, dst, src, k);
    assert OnWords(s, first, next, dst, src, k);
    AbsoluteSize(s.ram[s.pc + 3 * k], OpOf(first, next, k));
    assert InInst(s.ram, s.pc, k, s.pc + 3 * k + j);
  }

  lemma {:induction false} OutsideInst(a: Word, at: Word)
    requires a < at || at + 3 <= a
    requires at + 3 <= 0x10000
    ensures Wrap(a - at) >= 3
  {
  }

  lemma {:induction false} ResultIsNoCode(s: State, n: nat, first: Word, next: Word, dst: nat, src: nat, i: nat)
    requires WordProgram(s, n, first, next, dst, src) && i < n
    ensures !InCode(s.ram, s.pc, n, dst + i)
  {
    var a: Word := dst + i;
    if k :| 0 <= k < n && InInst(s.ram, s.pc, k, a) {
      WordBehind(s, n, first, next, dst, src, k);
      assert OnWords(s, first, next, dst, src, k);
      AbsoluteSize(s.ram[s.pc + 3 * k], OpOf(first, next, k));
      OutsideInst(a, s.pc + 3 * k);
    }
  }

  lemma {:induction false} WordsFit(s: State, n: nat, first: Word, next: Word, dst: nat, src: nat)
    requires WordProgram(s, n, first, next, dst, src)
    ensures Program(s, WordPlaces(dst, n), first, next)
  {
    var places := WordPlaces(dst, n);
    forall k | 0 <= k < n ensures Fits(s, places, first, next, k) {
      WordBehind(s, n, first, next, dst, src, k);
      assert OnWords(s, first, next, dst, src, k);
      AbsoluteSize(s.ram[s.pc + 3 * k], OpOf(first, next, k));
      ResultIsNoCode(s, n, first, next, dst, src, k);
    }
  }

  /** What an instruction with two absolute addresses reads and where it stores. */
  lemma {:induction false} AbsoluteOperands(t: State, op: Word)
    requires IsAbsolute(t.ram[t.pc], op) && Carries(op) && !t.skip && t.pc + 3 <= 0x10000
    ensures SourceAt(t) == t.ram[t.ram[t.pc + 1]] && PlaceAt(t) == Memory(t.ram[t.pc + 2])
  {
  }

  /** After `k` instructions only the first `k` words of the result have changed. */
  ghost predicate WordsDone(s: State, n: nat, dst: nat, k: nat, t: State) {
    Intact(s, n, k, t) && forall a: Word :: !(dst <= a < dst + k) ==> t.ram[a] == s.ram[a]
  }

  /** The instruction is still there when its turn comes. */
  lemma {:induction false} WordCode(s: State, n: nat, first: Word, next: Word, dst: nat, src: nat, k: nat, t: State)
    requires WordProgram(s, n, first, next, dst, src) && k < n && Intact(s, n, k, t)
    ensures t.pc == s.pc + 3 * k && t.pc + 3 <= 0x10000 && IsAbsolute(t.ram[t.pc], OpOf(first, next, k))
    ensures t.ram[t.pc + 1] == src + k && t.ram[t.pc + 2] == dst + k
  {
    assert OnWords(s, first, next, dst, src, k);
    WordBehind(s, n, first, next, dst, src, k);
    WordInCode(s, n, first, next, dst, src, k, 0);
    WordInCode(s, n, first, next, dst, src, k, 1);
    WordInCode(s, n, first, next, dst, src, k, 2);
  }

  lemma {:induction false} WordReads(s: State, n: nat, first: Word, next: Word, dst: nat, src: nat, k: nat, t: State)
    requires WordProgram(s, n, first, next, dst, src) && k < n && WordsDone(s, n, dst, k, t)
    ensures GetOp(t.ram[t.pc]) == OpOf(first, next, k) && !MovesStack(t.ram[t.pc])
    ensures PlaceAt(t) == Memory(dst + k) && SourceAt(t) == s.ram[src + k]
  {
    WordCode(s, n, first, next, dst, src, k, t);
    AbsoluteSize(t.ram[t.pc], OpOf(first, next, k));
    AbsoluteOperands(t, OpOf(first, next, k));
  }

  lemma {:induction false} Steps(t: State, op: Word) returns (t': State)
    requires GetOp(t.ram[t.pc]) == op && Carries(op)
    ensures Executed(t, t')
  {
    CarryingComputes(op, 0, 0, 0);
    ExecuteIsOneOp(t);
    t' := OneOp(t);
  }

  lemma {:induction false} WordStep(s: State, n: nat, first: Word, next: Word, dst: nat, src: nat, k: nat, t: State,
          t': State)
    requires WordProgram(s, n, first, next, dst, src) && k < n && WordsDone(s, n, dst, k, t) && Executed(t, t')
    ensures WordsDone(s, n, dst, k + 1, t')
    ensures PlaceAt(t) == Memory(dst + k) && SourceAt(t) == s.ram[src + k]
  {
    WordReads(s, n, first, next, dst, src, k, t);
    WordWritten(t, t', OpOf(first, next, k), Memory(dst + k));
    ResultIsNoCode(s, n, first, next, dst, src, k);
    WordsDoneStep(s, n, dst, k, t, t', dst + k);
  }

  lemma {:induction false} WordsDoneStep(s: State, n: nat, dst: nat, k: nat, t: State, t': State, a: Word)
    requires k < n && WordsDone(s, n, dst, k, t) && Wrote(t, t', Memory(a)) && a == dst + k
    requires !InCode(s.ram, s.pc, n, a)
    ensures WordsDone(s, n, dst, k + 1, t')
  {
    IntactStep(s, n, k, t, t', Memory(a));
    OnlyWritten(s.ram, dst, k, t, t');
  }

  lemma {:induction false} WordWritten(t: State, t': State, op: Word, p: Place)
    requires Executed(t, t') && GetOp(t.ram[t.pc]) == op && Carries(op) && PlaceAt(t) == p && p.Memory?
    requires !t.skip && t.sleep == 0 && Undisturbed(t)
    ensures Wrote(t, t', p)
  {
    var value, ex, cycles := OneStep(t, t', op);
  }

  lemma {:induction false} OnlyWritten(ram: Ram, dst: nat, k: nat, t: State, t': State)
    requires dst + k < 0x10000 && Wrote(t, t', Memory(dst + k))
    requires forall a: Word :: !(dst <= a < dst + k) ==> t.ram[a] == ram[a]
    ensures forall a: Word :: !(dst <= a < dst + k + 1) ==> t'.ram[a] == ram[a]
  {
  }

  /** The states of a run, the first `k` steps of which are known. */
  ghost predicate WordRun(s: State, n: nat, dst: nat, src: nat, k: nat, ts: seq<State>)
    requires k <= n && src + n <= 0x10000 && dst + n <= 0x10000
  {
    |ts| == k + 1 && ts[0] == s && WordsDone(s, n, dst, k, ts[k]) && WordSteps(s, dst, src, k, ts)
  }

  ghost predicate WordSteps(s: State, dst: nat, src: nat, k: nat, ts: seq<State>)
    requires src + k <= 0x10000 && dst + k <= 0x10000 && k < |ts|
  {
    forall i :: 0 <= i < k ==> WordStepAt(s, dst, src, ts, i)
  }

  ghost predicate WordStepAt(s: State, dst: nat, src: nat, ts: seq<State>, i: nat)
    requires i + 1 < |ts| && src + i < 0x10000 && dst + i < 0x10000
  {
    WordExecuted(s, dst, src, i, ts[i], ts[i + 1])
  }

  /** Instruction `i` has been executed. */
  ghost predicate WordExecuted(s: State, dst: nat, src: nat, i: nat, t: State, t': State)
    requires src + i < 0x10000 && dst + i < 0x10000
  {
    Executed(t, t') && PlaceAt(t) == Memory(dst + i) && SourceAt(t) == s.ram[src + i]
  }

  lemma {:induction false} SameStep(s: State, dst: nat, src: nat, ts: seq<State>, us: seq<State>, i: nat)
    requires i + 1 < |ts| && i + 1 < |us| && ts[i] == us[i] && ts[i + 1] == us[i + 1]
    requires src + i < 0x10000 && dst + i < 0x10000 && WordStepAt(s, dst, src, ts, i)
    ensures WordStepAt(s, dst, src, us, i)
  {
  }

  lemma {:induction false} LastStep(s: State, dst: nat, src: nat, us: seq<State>, k: nat, t: State, t': State)
    requires k + 1 < |us| && us[k] == t && us[k + 1] == t' && src + k < 0x10000 && dst + k < 0x10000
    requires WordExecuted(s, dst, src, k, t, t')
    ensures WordStepAt(s, dst, src, us, k)
  {
  }

  lemma {:induction false} StepsGrow(s: State, dst: nat, src: nat, k: nat, m: nat, ts: seq<State>, us: seq<State>,
          t: State, t': State)
    requires m == k + 1 == |ts| && us == ts + [t'] && t == ts[k] && src + m <= 0x10000 && dst + m <= 0x10000
    requires WordSteps(s, dst, src, k, ts) && WordExecuted(s, dst, src, k, t, t')
    ensures WordSteps(s, dst, src, m, us)
  {
    forall i | 0 <= i < m ensures WordStepAt(s, dst, src, us, i) {
      if i < k {
        assert WordStepAt(s, dst, src, ts, i);
        SameStep(s, dst, src, ts, us, i);
      } else {
        LastStep(s, dst, src, us, k, t, t');
      }
    }
  }

  lemma {:induction false} WordRunOn(s: State, n: nat, dst: nat, src: nat, m: nat, us: seq<State>, t': State)
    requires m <= n && src + n <= 0x10000 && dst + n <= 0x10000 && |us| == m + 1 && us[0] == s && us[m] == t'
    requires WordSteps(s, dst, src, m, us) && WordsDone(s, n, dst, m, t')
    ensures WordRun(s, n, dst, src, m, us)
  {
  }

  lemma {:induction false} WordRunGrows(s: State, n: nat, first: Word, next: Word, dst: nat, src: nat, k: nat, m: nat,
          ts: seq<State>)
    returns (us: seq<State>)
    requires WordProgram(s, n, first, next, dst, src) && k < n && m == k + 1 && WordRun(s, n, dst, src, k, ts)
    ensures WordRun(s, n, dst, src, m, us)
  {
    WordReads(s, n, first, next, dst, src, k, ts[k]);
    var t' := Steps(ts[k], OpOf(first, next, k));
    WordStep(s, n, first, next, dst, src, k, ts[k], t');
    us := ts + [t'];
    StepsGrow(s, dst, src, k, m, ts, us, ts[k], t');
    WordRunOn(s, n, dst, src, m, us, t');
  }

  lemma {:induction false} WordRuns(s: State, n: nat, first: Word, next: Word, dst: nat, src: nat)
    returns (ts: seq<State>)
    requires WordProgram(s, n, first, next, dst, src)
    ensures WordRun(s, n, dst, src, n, ts)
    ensures Execution(ts, WordPlaces(dst, n), s.ram[src..src + n]) && Program(s, WordPlaces(dst, n), first, next)
  {
    ts := [s];
    for k := 0 to n
      invariant WordRun(s, n, dst, src, k, ts)
    {
      ts := WordRunGrows(s, n, first, next, dst, src, k, k + 1, ts);
    }
    var places, sources := WordPlaces(dst, n), s.ram[src..src + n];
    forall k | 0 <= k < n ensures ExecutedAt(ts, places, sources, k) {
      assert WordStepAt(s, dst, src, ts, k);
    }
    WordsFit(s, n, first, next, dst, src);
  }

  lemma {:induction false} WordLoads(s: State, dst: nat, n: nat)
    requires dst + n <= 0x10000
    ensures Loads(s, WordPlaces(dst, n)) == s.ram[dst..dst + n]
  {
  }

  /** Behind the instructions, with nothing but the result changed in memory. */
  ghost predicate Finished(s: State, n: nat, dst: nat, t: State) {
    t.pc == Wrap(s.pc + 3 * n) && forall a: Word :: !(dst <= a < dst + n) ==> t.ram[a] == s.ram[a]
  }

  /**
   Adding two numbers of `n` words in memory with ADD [dst], [src] and ADX [dst + k], [src + k]: the result is
   the sum modulo 0x10000 to the power `n`, EX is the carry, and no other word has changed.
   */
  lemma {:induction false} AddingInMemory(s: State, n: nat, dst: nat, src: nat) returns (cycles: nat, t: State)
    requires WordProgram(s, n, OP_ADD, OP_ADX, dst, src) && n > 0
    ensures Cycles(s, cycles) == Some(t) && Finished(s, n, dst, t) && t.ex <= 1
    ensures Number(t.ram[dst..dst + n]) + Term(t.ex, n) == Number(s.ram[dst..dst + n]) + Number(s.ram[src..src + n])
  {
    var ts := WordRuns(s, n, OP_ADD, OP_ADX, dst, src);
    cycles := AddingWords(ts, WordPlaces(dst, n), s.ram[src..src + n]);
    t := ts[n];
    WordLoads(s, dst, n);
    WordLoads(t, dst, n);
    WordBehind(s, n, OP_ADD, OP_ADX, dst, src, n);
  }

  /** Subtracting in the same way; EX is 0xFFFF exactly if the first number is the smaller one. */
  lemma {:induction false} SubtractingInMemory(s: State, n: nat, dst: nat, src: nat) returns (cycles: nat, t: State)
    requires WordProgram(s, n, OP_SUB, OP_SBX, dst, src) && n > 0
    ensures Cycles(s, cycles) == Some(t) && Finished(s, n, dst, t) && (t.ex == 0 || t.ex == 0xFFFF)
    ensures Number(t.ram[dst..dst + n]) + Number(s.ram[src..src + n]) ==
            Number(s.ram[dst..dst + n]) + Term(Borrow(t.ex), n)
    ensures t.ex == 0xFFFF <==> Number(s.ram[dst..dst + n]) < Number(s.ram[src..src + n])
  {
    var ts := WordRuns(s, n, OP_SUB, OP_SBX, dst, src);
    cycles := SubtractingWords(ts, WordPlaces(dst, n), s.ram[src..src + n]);
    t := ts[n];
    WordLoads(s, dst, n);
    WordLoads(t, dst, n);
    WordBehind(s, n, OP_SUB, OP_SBX, dst, src, n);
    NumberBounded(t.ram[dst..dst + n]);
    TermOfZero(n);
  }

  lemma {:induction false} TermOfZero(n: nat)
    ensures Term(0, n) == 0
  {
    if n > 0 { TermOfZero(n - 1); }
  }

  lemma {:induction false} TermGrows(w: Word, n: nat)
    ensures Term(1, n) + Term(w, n) <= Term(1, n + 1)
  {
    if n > 0 { TermGrows(w, n - 1); }
  }

  lemma {:induction false} NumberBounded(limbs: seq<Word>)
    ensures Number(limbs) < Term(1, |limbs|)
  {
    if limbs != [] {
      NumberBounded(limbs[..|limbs| - 1]);
      TermGrows(limbs[|limbs| - 1], |limbs| - 1);
    }
  }
}
