/**
 What the arithmetic instructions (libdcpu-vm/dcpuops.c) compute, said by laws of arithmetic: `b` is the word at
 the place stored to, `a` the other operand.
 */
module ArithmeticLaws {
  import opened Words
  import opened Bits
  import opened Machine

  /** The instruction sets EX. */
  predicate SetsEx(op: Word) {
    OP_ADD <= op <= OP_DVI || OP_SHR <= op <= OP_SHL || op == OP_ADX || op == OP_SBX
  }

  function Result(op: Word, b: Word, a: Word, ex: Word): Word {
    Compute(op, b, a, ex).0
  }

  function Excess(op: Word, b: Word, a: Word, ex: Word): Word {
    if Compute(op, b, a, ex).1.Some? then Compute(op, b, a, ex).1.value else ex
  }

  /** The result and EX as one number of 32 bits, EX in front. */
  function ExcessFirst(op: Word, b: Word, a: Word, ex: Word): nat {
    0x10000 * Excess(op, b, a, ex) + Result(op, b, a, ex)
  }

  /** The result and EX as one number of 32 bits, the result in front. */
  function ResultFirst(op: Word, b: Word, a: Word, ex: Word): nat {
    0x10000 * Result(op, b, a, ex) + Excess(op, b, a, ex)
  }

  lemma {:induction false} ExIsSet(op: Word, b: Word, a: Word, ex: Word)
    requires IsArithmetic(op)
    ensures Compute(op, b, a, ex).1.Some? <==> SetsEx(op)
  {
  }

  // ----- Addition and subtraction -----

  /** ADD: the sum of both operands, with its carry in EX. */
  lemma {:induction false} Adding(b: Word, a: Word, ex: Word)
    ensures ExcessFirst(OP_ADD, b, a, ex) == b + a && Excess(OP_ADD, b, a, ex) <= 1
  {
  }

  /** SUB: the difference, and 0xFFFF in EX exactly if it is negative; adding `a` back gives `b`. */
  lemma {:induction false} Subtracting(b: Word, a: Word, ex: Word)
    ensures Excess(OP_SUB, b, a, ex) == if b < a then 0xFFFF else 0
    ensures Result(OP_SUB, b, a, ex) + a == if b < a then b + 0x10000 else b
    ensures Result(OP_ADD, Result(OP_SUB, b, a, ex), a, ex) == b
  {
  }

  /** ADX and SBX: EX is added to the result, and read as a signed number in the new EX. */
  lemma {:induction false} WithExcess(b: Word, a: Word, ex: Word)
    ensures (Result(OP_ADX, b, a, ex) - (b + a + ex)) % 0x10000 == 0
    ensures (Result(OP_SBX, b, a, ex) + a - (b + ex)) % 0x10000 == 0
    ensures Excess(OP_ADX, b, a, ex) == if b + a + Signed(ex) < 0 then 0xFFFF else
              if b + a + Signed(ex) >= 0x10000 then 1 else 0
    ensures Excess(OP_SBX, b, a, ex) == if b + Signed(ex) < a then 0xFFFF else
              if b + Signed(ex) >= a + 0x10000 then 1 else 0
  {
  }

  // ----- Products -----

  /** MUL: the full product. */
  lemma {:induction false} Multiplying(b: Word, a: Word, ex: Word)
    ensures ExcessFirst(OP_MUL, b, a, ex) == b * a
  {
    ProductFits(b, a, 0xFFFF);
    Halves(b * a);
  }

  lemma {:induction false} Halves(p: int)
    requires 0 <= p < 0x1_0000_0000
    ensures 0x10000 * Wrap(p / 0x10000) + Wrap(p) == p
  {
  }

  lemma {:induction false} ProductFits(x: nat, y: nat, n: nat)
    requires x <= n && y <= n
    ensures 0 <= x * y <= n * n
  {
    Times(x, n, y);
    Times(y, n, n);
  }

  /** MLI: the full product of the signed operands, as a signed number of 32 bits. */
  lemma {:induction false} MultiplyingSigned(b: Word, a: Word, ex: Word)
    ensures Int32(ExcessFirst(OP_MLI, b, a, ex)) == Signed(b) * Signed(a)
  {
    SignedProductFits(Signed(b), Signed(a));
    SignedHalves(Signed(b) * Signed(a));
  }

  lemma {:induction false} SignedHalves(p: int)
    requires -0x8000_0000 <= p < 0x8000_0000
    ensures Int32(0x10000 * Wrap(p / 0x10000) + Wrap(p)) == p
  {
  }

  lemma {:induction false} SignedProductFits(x: int, y: int)
    requires -0x8000 <= x < 0x8000 && -0x8000 <= y < 0x8000
    ensures -0x4000_0000 <= x * y <= 0x4000_0000
  {
    var u, v := if x < 0 then -x else x, if y < 0 then -y else y;
    ProductFits(u, v, 0x8000);
    SignOfProduct(x, y, u, v);
  }

  lemma {:induction false} SignOfProduct(x: int, y: int, u: int, v: int)
    requires (u == x || u == -x) && (v == y || v == -y)
    ensures x * y == u * v || x * y == -(u * v)
  {
  }

  // ----- Quotients -----

  /** `q` is the quotient of x by y, rounded down. */
  ghost predicate IsFloor(q: int, x: int, y: int) {
    y > 0 && q * y <= x < (q + 1) * y
  }

  lemma {:induction false} Times(p: int, q: int, y: int)
    requires p <= q && y >= 0
    ensures p * y <= q * y
  {
  }

  lemma {:induction false} Scaled(n: int, h: int, y: int)
    ensures (n * h) * y == n * (h * y)
  {
  }

  lemma {:induction false} FloorUnique(p: int, q: int, x: int, y: int)
    requires IsFloor(p, x, y) && IsFloor(q, x, y)
    ensures p == q
  {
    if p < q { Times(p + 1, q, y); }
    if q < p { Times(q + 1, p, y); }
  }

  lemma {:induction false} FloorOf(x: int, y: int)
    requires y > 0
    ensures IsFloor(x / y, x, y)
  {
    var q, m := x / y, x % y;
    assert x == q * y + m && 0 <= m < y;
    assert (q + 1) * y == q * y + y;
  }

  lemma {:induction false} FloorFits(q: int, x: int, y: int)
    requires IsFloor(q, x, y) && x >= 0
    ensures 0 <= q <= x
  {
    if q < 0 { Times(q + 1, 0, y); }
    if q > x { Times(1, y, q); }
  }

  /** The quotient of 0x10000 * x is the quotient of x with sixteen more bits behind it. */
  lemma {:induction false} MoreBits(x: int, y: int, w: int)
    requires y > 0 && w == (0x10000 * x) / y
    ensures IsFloor(w, 0x10000 * x, y) && w / 0x10000 == x / y
  {
    FloorOf(0x10000 * x, y);
    FloorHigh(w, w / 0x10000, x, y);
    FloorOf(x, y);
    FloorUnique(w / 0x10000, x / y, x, y);
  }

  lemma {:induction false} FloorHigh(w: int, h: int, x: int, y: int)
    requires IsFloor(w, 0x10000 * x, y) && 0x10000 * h <= w < 0x10000 * (h + 1)
    ensures IsFloor(h, x, y)
  {
    Times(0x10000 * h, w, y);
    Times(w + 1, 0x10000 * (h + 1), y);
    Scaled(0x10000, h, y);
    Scaled(0x10000, h + 1, y);
  }

  /** DIV and MOD by a number that is not zero: quotient times divisor plus remainder is `b`. */
  lemma {:induction false} Dividing(b: Word, a: Word, ex: Word)
    requires a != 0
    ensures Result(OP_DIV, b, a, ex) * a + Result(OP_MOD, b, a, ex) == b && Result(OP_MOD, b, a, ex) < a
    ensures IsFloor(ResultFirst(OP_DIV, b, a, ex), 0x10000 * b, a)
  {
    var w := (0x10000 * b) / a;
    MoreBits(b, a, w);
    FloorFits(w, 0x10000 * b, a);
    FloorOf(b, a);
    FloorFits(b / a, b, a);
    Halves(w);
  }

  /** By zero all of them give zero. */
  lemma {:induction false} DividingByZero(b: Word, ex: Word)
    ensures Result(OP_DIV, b, 0, ex) == 0 && Excess(OP_DIV, b, 0, ex) == 0 && Result(OP_MOD, b, 0, ex) == 0
    ensures Result(OP_DVI, b, 0, ex) == 0 && Excess(OP_DVI, b, 0, ex) == 0 && Result(OP_MDI, b, 0, ex) == 0
  {
  }

  // ----- Signed quotients -----

  /** `q` is the quotient of x by y, rounded towards zero: the remainder is small and has the sign of x. */
  ghost predicate IsTruncated(q: int, x: int, y: int) {
    var m := x - q * y;
    if x >= 0 then 0 <= m < (if y < 0 then -y else y) else (if y < 0 then y else -y) < m <= 0
  }

  lemma {:induction false} Negated(q: int, y: int)
    ensures (-q) * y == -(q * y) && q * (-y) == -(q * y)
  {
  }

  lemma {:induction false} NegativeQuotient(x: int, y: int)
    requires x >= 0 && y < 0
    ensures x / y == -(x / (-y))
  {
    Negated(x / (-y), y);
    FloorOf(x, -y);
    EuclidUnique(x / y, -(x / (-y)), x, y);
  }

  lemma {:induction false} EuclidUnique(p: int, q: int, x: int, y: int)
    requires y < 0 && p == x / y && 0 <= x - q * y < -y
    ensures p == q
  {
    assert 0 <= x - p * y < -y;
    if p < q { Times(p + 1, q, -y); }
    if q < p { Times(q + 1, p, -y); }
  }

  /** The quotient of C rounds towards zero. */
  lemma {:induction false} QuotientTruncates(x: int, y: int)
    requires y != 0
    ensures IsTruncated(Quotient(x, y), x, y)
  {
    var u, v := if x < 0 then -x else x, if y < 0 then -y else y;
    FloorOf(u, v);
    if y < 0 { NegativeQuotient(u, y); }
    SignsTruncate(x, y, u, v, u / v, Quotient(x, y));
  }

  lemma {:induction false} SignsTruncate(x: int, y: int, u: int, v: int, q: int, r: int)
    requires u == (if x < 0 then -x else x) && v == (if y < 0 then -y else y) && IsFloor(q, u, v)
    requires r == if x < 0 <==> y < 0 then q else -q
    ensures IsTruncated(r, x, y)
  {
    Negated(q, v);
    assert (q + 1) * v == q * v + v;
  }

  lemma {:induction false} TruncatedFits(q: int, x: int, y: int)
    requires IsTruncated(q, x, y) && -0x8000 <= x < 0x8000 && -0x8000 <= y < 0x8000 && y != 0
    requires !(x == -0x8000 && y == -1)
    ensures -0x8000 <= q < 0x8000
  {
  }

  lemma {:induction false} SignedBack(q: int)
    requires -0x8000 <= q < 0x8000
    ensures Signed(Wrap(q)) == q
  {
  }

  /** DVI by a number that is not zero; the one quotient that does not fit is 0x8000. */
  lemma {:induction false} DividingSigned(b: Word, a: Word, ex: Word)
    requires a != 0
    ensures if b == 0x8000 && a == 0xFFFF then Result(OP_DVI, b, a, ex) == 0x8000
            else IsTruncated(Signed(Result(OP_DVI, b, a, ex)), Signed(b), Signed(a))
  {
    QuotientTruncates(Signed(b), Signed(a));
    if b != 0x8000 || a != 0xFFFF {
      TruncatedFits(Quotient(Signed(b), Signed(a)), Signed(b), Signed(a));
      SignedBack(Quotient(Signed(b), Signed(a)));
    }
  }

  const TWO64 := 0x1_0000_0000_0000_0000

  lemma {:induction false} AsUnsigned(x: int)
    requires -0x8000 <= x < 0x8000
    ensures Unsigned64(x) == if x < 0 then TWO64 + x else x
    ensures Unsigned64(Unsigned64(x) * 0x10000) == if x < 0 then TWO64 + 0x10000 * x else 0x10000 * x
  {
  }

  lemma {:induction false} SmallerGivesZero(x: nat, y: nat)
    requires x < y
    ensures x / y == 0
  {
    FloorOf(x, y);
    FloorUnique(0, x / y, x, y);
  }

  /** EX of DVI by a negative number is zero. */
  lemma {:induction false} NoExcess(b: Word, a: Word, ex: Word)
    requires Signed(a) < 0
    ensures Excess(OP_DVI, b, a, ex) == 0
  {
    AsUnsigned(Signed(b));
    AsUnsigned(Signed(a));
    SmallerGivesZero(Unsigned64(Unsigned64(Signed(b)) * 0x10000), Unsigned64(Signed(a)));
  }

  /**
   EX of DVI by a positive number: the next sixteen bits of the quotient, where a negative dividend counts
   modulo 2 to the power 64.
   */
  lemma {:induction false} NextBits(b: Word, a: Word, ex: Word) returns (w: int)
    requires Signed(a) > 0
    ensures IsFloor(w, 0x10000 * Signed(b) + if Signed(b) < 0 then TWO64 else 0, Signed(a))
    ensures Excess(OP_DVI, b, a, ex) == w % 0x10000
    ensures Signed(b) >= 0 ==> w == ResultFirst(OP_DVI, b, a, ex)
  {
    var x, y := Signed(b), Signed(a);
    AsUnsigned(x);
    AsUnsigned(y);
    w := Unsigned64(Unsigned64(x) * 0x10000) / y;
    FloorOf(Unsigned64(Unsigned64(x) * 0x10000), y);
    if x >= 0 {
      MoreBits(x, y, w);
      FloorFits(w, 0x10000 * x, y);
      Halves(w);
    }
  }

  lemma {:induction false} RemainderIs(x: int, y: int)
    requires y > 0
    ensures x - Remainder(x, y) == y * Quotient(x, y)
    ensures if x >= 0 then 0 <= Remainder(x, y) < y else -y < Remainder(x, y) <= 0
  {
    QuotientTruncates(x, y);
    assert Quotient(x, y) * y == y * Quotient(x, y);
  }

  /** MDI: the dividend is signed, the divisor not; the remainder is never negative. */
  lemma {:induction false} SignedRemainder(b: Word, a: Word, ex: Word) returns (q: int)
    requires a != 0
    ensures Signed(b) == q * a + Result(OP_MDI, b, a, ex) && Result(OP_MDI, b, a, ex) < a
  {
    RemainderIs(Signed(b), a);
    var r := Remainder(Signed(b), a);
    q := Quotient(Signed(b), a) - if r < 0 then 1 else 0;
    assert q * a == a * Quotient(Signed(b), a) - if r < 0 then a else 0;
  }

  // ----- Shifts -----

  lemma {:induction false} PowerSum(n: nat, m: nat)
    ensures Pow2(n + m) == Pow2(n) * Pow2(m)
  {
    if n > 0 {
      PowerSum(n - 1, m);
      assert Pow2(n + m) == 2 * Pow2(n - 1 + m);
      Scaled(2, Pow2(n - 1), Pow2(m));
    }
  }

  lemma {:induction false} FloorFrom(w: int, x: int, y: int)
    requires IsFloor(w, x, y)
    ensures w == x / y
  {
    FloorOf(x, y);
    FloorUnique(w, x / y, x, y);
  }

  /** SHR: the result is `b` shifted right by the lowest five bits of `a`, zeros coming in. */
  lemma {:induction false} ShiftingRight(b: Word, a: Word, ex: Word)
    ensures IsFloor(Result(OP_SHR, b, a, ex), b, Pow2(a % 32))
  {
    FloorOf(b, Pow2(a % 32));
    FloorFits(b / Pow2(a % 32), b, Pow2(a % 32));
  }

  /** EX after SHR: the bits shifted out; beyond sixteen places the sign bit of `b` comes in behind it. */
  lemma {:induction false} ShiftedOut(b: Word, a: Word, ex: Word) returns (w: int)
    ensures IsFloor(w, 0x10000 * Signed(b), Pow2(a % 32)) && Excess(OP_SHR, b, a, ex) == w % 0x10000
    ensures a % 32 <= 16 ==> IsFloor(ResultFirst(OP_SHR, b, a, ex), 0x10000 * b, Pow2(a % 32))
  {
    w := SignedOut(b, a, Pow2(a % 32), ex);
    if a % 32 <= 16 { UnsignedOut(b, a, a % 32, Pow2(a % 32), ex, w); }
  }

  lemma {:induction false} SignedOut(b: Word, a: Word, n: nat, ex: Word) returns (w: int)
    requires n == Pow2(a % 32)
    ensures w == (0x10000 * Signed(b)) / n && IsFloor(w, 0x10000 * Signed(b), n)
    ensures Excess(OP_SHR, b, a, ex) == w % 0x10000
  {
    w := (0x10000 * Signed(b)) / n;
    FloorOf(0x10000 * Signed(b), n);
    assert Int32(b * 0x10000) == 0x10000 * Signed(b);
  }

  lemma {:induction false} UnsignedOut(b: Word, a: Word, k: nat, n: nat, ex: Word, w: int)
    requires k == a % 32 <= 16 && n == Pow2(k)
    requires w == (0x10000 * Signed(b)) / n && Excess(OP_SHR, b, a, ex) == w % 0x10000
    ensures IsFloor(ResultFirst(OP_SHR, b, a, ex), 0x10000 * b, n)
  {
    var v := (0x10000 * b) / n;
    MoreBits(b, n, v);
    FloorFits(v, 0x10000 * b, n);
    SignComesLater(b, k, v);
    Halves(v);
  }

  /** Up to sixteen places, the sign does not reach the lowest sixteen bits. */
  lemma {:induction false} SignComesLater(b: Word, k: nat, v: int)
    requires k <= 16 && IsFloor(v, 0x10000 * b, Pow2(k))
    ensures (0x10000 * Signed(b)) / Pow2(k) % 0x10000 == v % 0x10000
  {
    if b >= 0x8000 {
      var m := Pow2(16 - k);
      PowerSum(16 - k, k);
      WordBits();
      var w := v - 0x10000 * m;
      FloorShifted(v, 0x10000 * m, 0x10000 * b, Pow2(k));
      assert (0x10000 * m) * Pow2(k) == 0x1_0000_0000 by { Scaled(0x10000, m, Pow2(k)); }
      FloorFrom(w, 0x10000 * Signed(b), Pow2(k));
      SameLowBits(v, m);
    } else {
      FloorFrom(v, 0x10000 * b, Pow2(k));
    }
  }

  lemma {:induction false} SameLowBits(v: int, m: int)
    ensures (v - 0x10000 * m) % 0x10000 == v % 0x10000
  {
  }

  lemma {:induction false} FloorShifted(v: int, d: int, x: int, y: int)
    requires IsFloor(v, x, y)
    ensures IsFloor(v - d, x - d * y, y)
  {
    assert (v - d) * y == v * y - d * y && (v - d + 1) * y == (v + 1) * y - d * y;
  }

  /** ASR: the result and EX are `b` as a signed number, shifted right with sixteen more bits. */
  lemma {:induction false} ShiftingSigned(b: Word, a: Word, ex: Word)
    ensures IsFloor(Signed(Result(OP_ASR, b, a, ex)), Signed(b), Pow2(a % 32))
    ensures IsFloor(0x10000 * Signed(Result(OP_ASR, b, a, ex)) + Excess(OP_ASR, b, a, ex), 0x10000 * Signed(b),
                    Pow2(a % 32))
  {
    var x, n := Signed(b), Pow2(a % 32);
    var q, w := x / n, (0x10000 * x) / n;
    FloorOf(x, n);
    SignedFloorFits(q, x, n);
    SignedBack(q);
    MoreBits(x, n, w);
  }

  lemma {:induction false} SignedFloorFits(q: int, x: int, y: int)
    requires IsFloor(q, x, y) && -0x8000 <= x < 0x8000
    ensures -0x8000 <= q < 0x8000
  {
    if q < -0x8000 { Times(q + 1, -0x8000, y); Times(1, y, 0x8000); }
    if q >= 0x8000 { Times(0x8000, q, y); }
  }

  /** SHL: the result and EX are the lowest 32 bits of `b`, shifted left by the lowest five bits of `a`. */
  lemma {:induction false} ShiftingLeft(b: Word, a: Word, ex: Word)
    ensures ExcessFirst(OP_SHL, b, a, ex) == b * Pow2(a % 32) % 0x1_0000_0000
  {
    LowHalves(b * Pow2(a % 32));
  }

  lemma {:induction false} LowHalves(p: nat)
    ensures 0x10000 * Wrap(Int32(p) / 0x10000) + Wrap(p) == p % 0x1_0000_0000
  {
  }

  // ----- Bits -----

  /** AND, BOR and XOR work bit by bit. */
  lemma {:induction false} LogicBits(b: Word, a: Word, ex: Word, i: nat)
    requires i < 16
    ensures Bit(Result(OP_AND, b, a, ex), i) <==> Bit(b, i) && Bit(a, i)
    ensures Bit(Result(OP_BOR, b, a, ex), i) <==> Bit(b, i) || Bit(a, i)
    ensures Bit(Result(OP_XOR, b, a, ex), i) <==> Bit(b, i) != Bit(a, i)
  {
    BitByBit(AndGate, b, a, i);
    BitByBit(OrGate, b, a, i);
    BitByBit(XorGate, b, a, i);
  }

  /** SET: the other operand. */
  lemma {:induction false} Setting(b: Word, a: Word, ex: Word)
    ensures Result(OP_SET, b, a, ex) == a
  {
  }
}
