/**
 The bits of sixteen-bit words, and the bitwise operators.
 */
module Bits {
  import opened Words

  function Pow2(n: nat): (r: nat)
    ensures r > 0
  {
    if n == 0 then 1 else 2 * Pow2(n - 1)
  }

  predicate Bit(w: nat, i: nat) {
    if i == 0 then w % 2 == 1 else Bit(w / 2, i - 1)
  }

  datatype Gate = AndGate | OrGate | XorGate

  predicate Passes(g: Gate, p: bool, q: bool) {
    match g
    case AndGate => p && q
    case OrGate => p || q
    case XorGate => p != q
  }

  /** The lowest `n` bits of two numbers, combined. */
  function Combined(g: Gate, x: nat, y: nat, n: nat): nat
    decreases n
  {
    if n == 0 then 0
    else 2 * Combined(g, x / 2, y / 2, n - 1) + if Passes(g, x % 2 == 1, y % 2 == 1) then 1 else 0
  }

  lemma {:induction false} CombinedFits(g: Gate, x: nat, y: nat, n: nat)
    ensures Combined(g, x, y, n) < Pow2(n)
    decreases n
  {
    if n > 0 { CombinedFits(g, x / 2, y / 2, n - 1); }
  }

  lemma {:induction false} WordBits()
    ensures Pow2(16) == 0x10000
  {
    assert Pow2(4) == 16;
    assert Pow2(8) == 16 * Pow2(4);
    assert Pow2(12) == 16 * Pow2(8);
    assert Pow2(16) == 16 * Pow2(12);
  }

  /** The operators &, | and ^ of words. */
  function Bitwise(g: Gate, x: Word, y: Word): Word {
    CombinedFits(g, x, y, 16);
    WordBits();
    Combined(g, x, y, 16)
  }

  lemma {:induction false} CombinedBits(g: Gate, x: nat, y: nat, n: nat, i: nat)
    ensures Bit(Combined(g, x, y, n), i) <==> i < n && Passes(g, Bit(x, i), Bit(y, i))
    decreases n
  {
    if n > 0 {
      if i > 0 { CombinedBits(g, x / 2, y / 2, n - 1, i - 1); }
    } else {
      NoBits(i);
    }
  }

  lemma {:induction false} NoBits(i: nat)
    ensures !Bit(0, i)
  {
    if i > 0 { NoBits(i - 1); }
  }

  /** The bitwise operators work bit by bit. */
  lemma {:induction false} BitByBit(g: Gate, x: Word, y: Word, i: nat)
    requires i < 16
    ensures Bit(Bitwise(g, x, y), i) <==> Passes(g, Bit(x, i), Bit(y, i))
  {
    CombinedBits(g, x, y, 16, i);
  }

  /** The sixteen bits determine a word. */
  lemma {:induction false} BitsDetermine(x: nat, y: nat, n: nat)
    requires x < Pow2(n) && y < Pow2(n) && forall i :: 0 <= i < n ==> Bit(x, i) == Bit(y, i)
    ensures x == y
    decreases n
  {
    if n > 0 {
      assert Bit(x, 0) == Bit(y, 0);
      forall i | 0 <= i < n - 1 ensures Bit(x / 2, i) == Bit(y / 2, i) {
        assert Bit(x, i + 1) == Bit(y, i + 1);
      }
      BitsDetermine(x / 2, y / 2, n - 1);
    }
  }

  /** Both words have a bit in common. */
  ghost predicate Share(x: nat, y: nat, n: nat) {
    exists i :: 0 <= i < n && Bit(x, i) && Bit(y, i)
  }

  lemma {:induction false} SharedBits(x: nat, y: nat, n: nat)
    ensures Combined(AndGate, x, y, n) != 0 <==> Share(x, y, n)
    decreases n
  {
    if n > 0 {
      SharedBits(x / 2, y / 2, n - 1);
      if i :| 0 <= i < n - 1 && Bit(x / 2, i) && Bit(y / 2, i) {
        assert Bit(x, i + 1) && Bit(y, i + 1);
      }
      if x % 2 == 1 && y % 2 == 1 { assert Bit(x, 0) && Bit(y, 0); }
      if i :| 0 <= i < n && Bit(x, i) && Bit(y, i) {
        if i > 0 { assert Bit(x / 2, i - 1) && Bit(y / 2, i - 1); }
      }
    }
  }

  /** x & y is not zero if and only if the words have a bit in common. */
  lemma {:induction false} ShareIff(x: Word, y: Word)
    ensures Bitwise(AndGate, x, y) != 0 <==> Share(x, y, 16)
  {
    SharedBits(x, y, 16);
  }
}
