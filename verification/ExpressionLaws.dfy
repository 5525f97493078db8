/**
 What the operators of assembler expressions (libdcpu-pp-expr/ppexpr.c) compute, said by laws of arithmetic.
 */
module ExpressionLaws {
  import opened Words
  import opened Bits
  import opened Expressions

  /** The value of an operator between two numbers. */
  function Calc(x: Word, op: Operator, y: Word): Option<Word> {
    Evaluate(Binary(Number(x), op, Number(y)), n => None)
  }

  lemma {:induction false} Applies(l: Expr, op: Operator, r: Expr, f: string -> Option<Word>, x: Word, y: Word)
    requires Evaluate(l, f) == Some(x) && Evaluate(r, f) == Some(y)
    ensures Evaluate(Binary(l, op, r), f) == Apply(x, op, y)
  {
  }

  lemma {:induction false} CalcApplies(x: Word, op: Operator, y: Word)
    ensures Calc(x, op, y) == Apply(x, op, y)
  {
    var none: string -> Option<Word> := n => None;
    assert Evaluate(Number(x), none) == Some(x) && Evaluate(Number(y), none) == Some(y);
    Applies(Number(x), op, Number(y), none, x, y);
  }

  /** An operator between any expressions that have values depends on nothing but the values. */
  lemma {:induction false} ByValues(l: Expr, op: Operator, r: Expr, f: string -> Option<Word>, x: Word, y: Word)
    requires Evaluate(l, f) == Some(x) && Evaluate(r, f) == Some(y)
    ensures Evaluate(Binary(l, op, r), f) == Calc(x, op, y)
  {
    Applies(l, op, r, f, x, y);
    CalcApplies(x, op, y);
  }

  /**
   Exactly when an operator has no value: when an operand that it needs has none, or at a division by zero. The
   boolean operators do not look at the right operand if the left one decides; not looks at the right one only.
   */
  lemma {:induction false} ErrorIff(l: Expr, op: Operator, r: Expr, f: string -> Option<Word>)
    ensures Evaluate(Binary(l, op, r), f).None? <==>
            if op == BooleanNot then Evaluate(r, f).None?
            else if op == BooleanAnd then Evaluate(l, f).None? || (Evaluate(l, f) != Some(0) && Evaluate(r, f).None?)
            else if op == BooleanOr then Evaluate(l, f).None? || (Evaluate(l, f) == Some(0) && Evaluate(r, f).None?)
            else if op == Divide || op == Modulus then
              Evaluate(l, f).None? || Evaluate(r, f).None? || Evaluate(r, f) == Some(0)
            else Evaluate(l, f).None? || Evaluate(r, f).None?
  {
  }

  /** The sum, as far as it fits into a word. */
  lemma {:induction false} Sum(x: Word, y: Word)
    ensures Calc(x, Add, y) == Some(if x + y < 0x10000 then x + y else x + y - 0x10000)
  {
    CalcApplies(x, Add, y);
  }

  /** Subtraction undoes addition: (l - r) + r is l. */
  lemma {:induction false} SubtractionUndoes(l: Expr, r: Expr, f: string -> Option<Word>)
    requires Evaluate(l, f).Some? && Evaluate(r, f).Some?
    ensures Evaluate(Binary(Binary(l, Subtract, r), Add, r), f) == Evaluate(l, f)
    ensures Evaluate(Binary(Binary(l, Add, r), Subtract, r), f) == Evaluate(l, f)
  {
    TwoSteps(l, Subtract, Add, r, f, Evaluate(l, f).value, Evaluate(r, f).value);
    TwoSteps(l, Add, Subtract, r, f, Evaluate(l, f).value, Evaluate(r, f).value);
  }

  /** One of addition and subtraction, and then the other. */
  lemma {:induction false} TwoSteps(l: Expr, op: Operator, back: Operator, r: Expr, f: string -> Option<Word>, x: Word,
          y: Word)
    requires Evaluate(l, f) == Some(x) && Evaluate(r, f) == Some(y)
    requires (op == Add && back == Subtract) || (op == Subtract && back == Add)
    ensures Evaluate(Binary(Binary(l, op, r), back, r), f) == Some(x)
  {
    var z := Inverts(x, op, back, y);
    Applies(l, op, r, f, x, y);
    Applies(Binary(l, op, r), back, r, f, z, y);
  }

  lemma {:induction false} Inverts(x: Word, op: Operator, back: Operator, y: Word) returns (z: Word)
    requires (op == Add && back == Subtract) || (op == Subtract && back == Add)
    ensures Apply(x, op, y) == Some(z) && Apply(z, back, y) == Some(x)
  {
    z := Apply(x, op, y).value;
    ThereAndBack(x, y);
  }

  lemma {:induction false} ThereAndBack(x: Word, y: Word)
    ensures Wrap(Wrap(x - y) + y) == x && Wrap(Wrap(x + y) - y) == x
  {
  }

  /** Multiplication is repeated addition: l * 0 is 0, and l * (n + 1) is l * n + l. */
  lemma {:induction false} ProductIsSum(l: Expr, f: string -> Option<Word>, n: Word)
    requires Evaluate(l, f).Some? && n < 0xFFFF
    ensures Evaluate(Binary(l, Multiply, Number(0)), f) == Some(0)
    ensures Evaluate(Binary(l, Multiply, Number(n + 1)), f) ==
            Evaluate(Binary(Binary(l, Multiply, Number(n)), Add, l), f)
  {
    var x := Evaluate(l, f).value;
    ProductIs(l, f, x, 0, 0);
    OneMore(x, n);
    ProductIs(l, f, x, n, x * n);
    ProductIs(l, f, x, n + 1, x * n + x);
    Applies(Binary(l, Multiply, Number(n)), Add, l, f, Wrap(x * n), x);
    WrapSum(x * n, x);
  }

  lemma {:induction false} ProductIs(l: Expr, f: string -> Option<Word>, x: Word, n: Word, p: int)
    requires Evaluate(l, f) == Some(x) && p == x * n
    ensures Evaluate(Binary(l, Multiply, Number(n)), f) == Some(Wrap(p))
  {
    Applies(l, Multiply, Number(n), f, x, n);
  }

  lemma {:induction false} OneMore(x: int, n: int)
    ensures x * (n + 1) == x * n + x
  {
  }

  lemma {:induction false} WrapSum(p: int, x: Word)
    ensures Wrap(p + x) == Wrap(Wrap(p) + x)
  {
  }

  /** By a number that is not zero: quotient times divisor plus modulus is the dividend. */
  lemma {:induction false} QuotientAndModulus(x: Word, y: Word)
    requires y != 0
    ensures Calc(x, Divide, y).Some? && Calc(x, Modulus, y).Some? && Calc(x, Modulus, y).value < y
    ensures Calc(x, Divide, y).value * y + Calc(x, Modulus, y).value == x
  {
    CalcApplies(x, Divide, y);
    CalcApplies(x, Modulus, y);
    QuotientFits(x, y);
  }

  lemma {:induction false} QuotientFits(x: Word, y: Word)
    requires y != 0
    ensures 0 <= x / y <= x && x / y * y + x % y == x && 0 <= x % y < y
  {
    assert x == x / y * y + x % y;
  }

  /** The comparisons: one if they hold, zero if not. */
  lemma {:induction false} Comparisons(x: Word, y: Word)
    ensures Calc(x, Less, y) == Some(if x < y then 1 else 0)
    ensures Calc(x, Greater, y) == Calc(y, Less, x) && Calc(x, Equals, y) == Some(if x == y then 1 else 0)
    ensures Calc(x, Less, y).value + Calc(x, Equals, y).value + Calc(x, Greater, y).value == 1
    ensures Calc(x, NotEquals, y) == Some(1 - Calc(x, Equals, y).value)
    ensures Calc(x, LessEquals, y) == Some(1 - Calc(x, Greater, y).value)
    ensures Calc(x, GreaterEquals, y) == Some(1 - Calc(x, Less, y).value)
  {
    CalcApplies(x, Less, y);
    CalcApplies(y, Less, x);
    CalcApplies(x, Equals, y);
    CalcApplies(x, Greater, y);
    CalcApplies(x, NotEquals, y);
    CalcApplies(x, LessEquals, y);
    CalcApplies(x, GreaterEquals, y);
  }

  /** Shifting by less than sixteen places is multiplying or dividing by a power of two. */
  lemma {:induction false} Shifts(x: Word, k: Word)
    requires k < 16
    ensures Pow2(k) < 0x10000
    ensures Calc(x, ShiftLeft, k) == Calc(x, Multiply, Pow2(k))
    ensures Calc(x, ShiftRight, k) == Calc(x, Divide, Pow2(k))
  {
    PowersFit(k);
    ShiftsLeft(x, k, Pow2(k));
    ShiftsRight(x, k, Pow2(k));
  }

  lemma {:induction false} ShiftsLeft(x: Word, k: Word, p: Word)
    requires k < 16 && p == Pow2(k)
    ensures Calc(x, ShiftLeft, k) == Calc(x, Multiply, p)
  {
    CalcApplies(x, ShiftLeft, k);
    CalcApplies(x, Multiply, p);
  }

  lemma {:induction false} ShiftsRight(x: Word, k: Word, p: Word)
    requires k < 16 && p == Pow2(k) && p > 0
    ensures Calc(x, ShiftRight, k) == Calc(x, Divide, p)
  {
    CalcApplies(x, ShiftRight, k);
    CalcApplies(x, Divide, p);
  }

  lemma {:induction false} PowersFit(k: nat)
    requires k < 16
    ensures 0 < Pow2(k) < 0x10000
  {
    WordBits();
    PowersGrow(k, 15);
  }

  lemma {:induction false} PowersGrow(k: nat, n: nat)
    requires k <= n
    ensures Pow2(k) <= Pow2(n)
  {
    if k < n { PowersGrow(k, n - 1); }
  }

  /** Shifting further moves everything out. */
  lemma {:induction false} LongShifts(x: Word, k: Word)
    requires 16 <= k < 32
    ensures Calc(x, ShiftLeft, k) == Some(0) && Calc(x, ShiftRight, k) == Some(0)
  {
    CalcApplies(x, ShiftLeft, k);
    CalcApplies(x, ShiftRight, k);
    MultipleOfWord(k);
    AllOut(x, WordsIn(k));
  }

  lemma {:induction false} AllOut(x: Word, n: nat)
    requires n > 0
    ensures Wrap(x * (0x10000 * n)) == 0 && x / (0x10000 * n) == 0
  {
    Regrouped(x, n);
    WrapMultiple(x * n);
    SmallQuotient(x, 0x10000 * n);
  }

  lemma {:induction false} Regrouped(x: int, n: int)
    ensures x * (0x10000 * n) == 0x10000 * (x * n)
  {
  }

  lemma {:induction false} SmallQuotient(x: nat, y: nat)
    requires x < y
    ensures x / y == 0
  {
  }

  function WordsIn(k: nat): nat
    requires k >= 16
  {
    Pow2(k - 16)
  }

  lemma {:induction false} MultipleOfWord(k: nat)
    requires k >= 16
    ensures Pow2(k) == 0x10000 * WordsIn(k)
  {
    WordBits();
    if k > 16 { MultipleOfWord(k - 1); }
  }

  lemma {:induction false} WrapMultiple(n: nat)
    ensures Wrap(0x10000 * n) == 0
  {
  }

  /** The bitwise operators, bit by bit. */
  lemma {:induction false} BitwiseOperators(x: Word, y: Word, i: nat)
    requires i < 16
    ensures Calc(x, And, y).Some? && Calc(x, Or, y).Some? && Calc(x, Xor, y).Some?
    ensures Bit(Calc(x, And, y).value, i) <==> Bit(x, i) && Bit(y, i)
    ensures Bit(Calc(x, Or, y).value, i) <==> Bit(x, i) || Bit(y, i)
    ensures Bit(Calc(x, Xor, y).value, i) <==> Bit(x, i) != Bit(y, i)
  {
    CalcApplies(x, And, y);
    CalcApplies(x, Or, y);
    CalcApplies(x, Xor, y);
    BitByBit(AndGate, x, y, i);
    BitByBit(OrGate, x, y, i);
    BitByBit(XorGate, x, y, i);
  }

  /** The boolean operators: zero is false, everything else is true. */
  lemma {:induction false} BooleanOperators(x: Word, y: Word)
    ensures Calc(x, BooleanNot, y) == Some(if y == 0 then 1 else 0)
    ensures Calc(x, BooleanAnd, y) == Some(if x == 0 || y == 0 then 0 else 1)
    ensures Calc(x, BooleanOr, y) == Some(if x == 0 && y == 0 then 0 else 1)
    ensures Calc(x, BooleanXor, y) == Some(if x == 0 <==> y == 0 then 0 else 1)
  {
    CalcApplies(x, BooleanNot, y);
    CalcApplies(x, BooleanAnd, y);
    CalcApplies(x, BooleanOr, y);
    CalcApplies(x, BooleanXor, y);
  }
}
