/**
 The loop of `vm_interrupt` over a skipped chain (libdcpu-vm/vm.c) has no bound of its own. It either ends
 within 0x10000 turns or not at all, which is how the module Machine decides whether it ends.
 */
module SkipLoop {
  import opened Words
  import opened Dcpu
  import opened Machine
  import opened Skipping

  predicate GoesOn(ram: Ram, pc: Word) {
    IsBranch(GetOp(ram[pc]))
  }

  /** Where one turn of the loop leaves the program counter: both operand fields are read. */
  function Turn(ram: Ram, pc: Word): Word {
    Wrap(pc + 1 + NextWords(GetA(ram[pc])) + NextWords(GetB(ram[pc])))
  }

  function TurnsFrom(ram: Ram, pc: Word, k: nat): Word {
    if k == 0 then pc else Turn(ram, TurnsFrom(ram, pc, k - 1))
  }

  /** The words of one turn, each of which costs a cycle. */
  function TurnSize(inst: Word): nat {
    1 + NextWords(GetA(inst)) + NextWords(GetB(inst))
  }

  /** One turn changes nothing but the program counter and the cycle count. */
  lemma {:induction false} TurnAdvances(s: State)
    requires s.skip
    ensures PassOver(s).0 == Advance(s, TurnSize(s.ram[s.pc]), TurnSize(s.ram[s.pc]))
  {
    var (t, inst) := Consume(s);
    var u := Resolve(t, GetA(inst), PosA).0;
    var v := Resolve(u, GetB(inst), PosB).0;
    ResolveSkipping(t, GetA(inst), PosA);
    ResolveSkipping(u, GetB(inst), PosB);
    AdvanceTwice(s, 1, 0, NextWords(GetA(inst)), NextWords(GetA(inst)));
    AdvanceTwice(s, 1 + NextWords(GetA(inst)), NextWords(GetA(inst)), NextWords(GetB(inst)), NextWords(GetB(inst)));
    AdvanceTwice(s, TurnSize(inst), TurnSize(inst) - 1, 0, 1);
    SleepsLess(s);
  }

  lemma {:induction false} SleepsLess(s: State)
    ensures Advance(s, 1, 0) == Consume(s).0
  {
  }

  lemma {:induction false} PassOverTurns(s: State)
    requires s.skip
    ensures var (t, more) := PassOver(s);
            t.skip && t.ram == s.ram && t.pc == Turn(s.ram, s.pc) && more == GoesOn(s.ram, s.pc)
  {
    var (t, inst) := Consume(s);
    ResolveSkipping(t, GetA(inst), PosA);
    var u := Resolve(t, GetA(inst), PosA).0;
    ResolveSkipping(u, GetB(inst), PosB);
    WrapTwice(s.pc + 1, NextWords(GetA(inst)));
    WrapTwice(s.pc + 1 + NextWords(GetA(inst)), NextWords(GetB(inst)));
  }

  lemma {:induction false} TurnsShift(ram: Ram, pc: Word, k: nat)
    ensures TurnsFrom(ram, Turn(ram, pc), k) == TurnsFrom(ram, pc, k + 1)
  {
    if k > 0 { TurnsShift(ram, pc, k - 1); }
  }

  ghost predicate Stops(ram: Ram, pc: Word, k: nat) {
    !GoesOn(ram, TurnsFrom(ram, pc, k))
  }

  /** The loop ends within `n` turns. */
  ghost predicate EndsIn(ram: Ram, pc: Word, n: nat)
    decreases n
  {
    n > 0 && (GoesOn(ram, pc) ==> EndsIn(ram, Turn(ram, pc), n - 1))
  }

  lemma {:induction false} StopsLater(ram: Ram, pc: Word, k: nat, m: nat)
    requires k == m + 1 && Stops(ram, pc, k)
    ensures Stops(ram, Turn(ram, pc), m)
  {
    TurnsShift(ram, pc, m);
  }

  lemma {:induction false} StopsNow(ram: Ram, pc: Word)
    requires Stops(ram, pc, 0)
    ensures !GoesOn(ram, pc)
  {
  }

  lemma {:induction false} EndsInBy(ram: Ram, pc: Word, n: nat, k: nat)
    requires k < n && Stops(ram, pc, k)
    ensures EndsIn(ram, pc, n)
    decreases n
  {
    if k == 0 {
      StopsNow(ram, pc);
    } else {
      StopsLater(ram, pc, k, k - 1);
      EndsInBy(ram, Turn(ram, pc), n - 1, k - 1);
    }
  }

  lemma {:induction false} StopsBefore(ram: Ram, pc: Word, k: nat, m: nat)
    requires k == m + 1 && Stops(ram, Turn(ram, pc), m)
    ensures Stops(ram, pc, k)
  {
    TurnsShift(ram, pc, m);
  }

  lemma {:induction false} EndedIn(ram: Ram, pc: Word, n: nat) returns (k: nat)
    requires EndsIn(ram, pc, n)
    ensures k < n && Stops(ram, pc, k)
    decreases n
  {
    k := 0;
    if GoesOn(ram, pc) {
      var m := EndedIn(ram, Turn(ram, pc), n - 1);
      k := m + 1;
      StopsBefore(ram, pc, k, m);
    }
  }

  lemma {:induction false} ChainGoesOn(s: State, n: nat)
    requires s.skip && !EndsIn(s.ram, s.pc, n)
    ensures PassChain(s, n) == None
    decreases n
  {
    if n > 0 {
      PassOverTurns(s);
      var (t, more) := PassOver(s);
      ChainTurn(s, n, t, more);
      ChainGoesOn(t, n - 1);
    }
  }

  lemma {:induction false} ChainEnds(s: State, n: nat)
    requires s.skip && EndsIn(s.ram, s.pc, n)
    ensures PassChain(s, n) != None
    decreases n
  {
    PassOverTurns(s);
    var (t, more) := PassOver(s);
    ChainTurn(s, n, t, more);
    if more { ChainEnds(t, n - 1); }
  }

  /** A loop that ends has met an instruction that is no condition. */
  lemma {:induction false} EndedAt(s: State, n: nat) returns (k: nat)
    requires s.skip && PassChain(s, n).Some?
    ensures k < n && Stops(s.ram, s.pc, k)
  {
    if !EndsIn(s.ram, s.pc, n) { ChainGoesOn(s, n); }
    k := EndedIn(s.ram, s.pc, n);
  }

  /** A loop ends by the first instruction that is no condition. */
  lemma {:induction false} EndsBy(s: State, n: nat, k: nat)
    requires s.skip && k < n && Stops(s.ram, s.pc, k)
    ensures PassChain(s, n).Some?
  {
    EndsInBy(s.ram, s.pc, n, k);
    ChainEnds(s, n);
  }

  // ----- Pigeonholes -----

  ghost predicate AllDifferent(s: seq<nat>) {
    forall i, j :: 0 <= i < j < |s| ==> s[i] != s[j]
  }

  lemma {:induction false} DifferentAreFew(s: seq<nat>, n: nat)
    requires AllDifferent(s) && forall i :: 0 <= i < |s| ==> s[i] < n
    ensures |s| <= n
  {
    if s != [] {
      assert s[0] < n;
      if i :| 0 <= i < |s| && s[i] == n - 1 {
        var rest := s[..i] + s[i + 1..];
        forall j | 0 <= j < |rest| ensures rest[j] < n - 1 {
          assert rest[j] == s[if j < i then j else j + 1];
        }
        DifferentAreFew(rest, n - 1);
      } else {
        DifferentAreFew(s, n - 1);
      }
    }
  }

  lemma {:induction false} Repeats(s: seq<nat>, n: nat) returns (i: nat, j: nat)
    requires |s| > n && forall k :: 0 <= k < |s| ==> s[k] < n
    ensures i < j < |s| && s[i] == s[j]
  {
    if AllDifferent(s) {
      DifferentAreFew(s, n);
    }
    i, j :| 0 <= i < j < |s| && s[i] == s[j];
  }

  // ----- The loop repeats itself -----

  lemma {:induction false} Periodic(ram: Ram, pc: Word, i: nat, j: nat, d: nat)
    requires TurnsFrom(ram, pc, i) == TurnsFrom(ram, pc, j)
    ensures TurnsFrom(ram, pc, i + d) == TurnsFrom(ram, pc, j + d)
  {
    if d > 0 { Periodic(ram, pc, i, j, d - 1); }
  }

  lemma {:induction false} StopsEarly(ram: Ram, pc: Word, k: nat) returns (m: nat)
    requires Stops(ram, pc, k)
    ensures m < 0x10000 && Stops(ram, pc, m)
  {
    if k < 0x10000 {
      m := k;
    } else {
      var pcs := seq(0x10001, i requires 0 <= i => TurnsFrom(ram, pc, i));
      var i, j := Repeats(pcs, 0x10000);
      Periodic(ram, pc, i, j, k - j);
      m := StopsEarly(ram, pc, i + (k - j));
    }
  }

  /** If the loop has not ended after 0x10000 turns, it never does. */
  lemma {:induction false} LoopIsDecided(s: State, n: nat)
    requires s.skip && PassChain(s, 0x10000).None?
    ensures PassChain(s, n).None?
  {
    if PassChain(s, n).Some? {
      var k := EndedAt(s, n);
      var m := StopsEarly(s.ram, s.pc, k);
      EndsBy(s, 0x10000, m);
    }
  }
}
