/**
 Assembler expressions (libdcpu-pp-expr/ppexpr.c). `None` stands for the error exit: a division by zero,
 or a label that the lookup does not know.
 */
module Expressions {
  import opened Words
  import opened Bits

  datatype Operator =
    | Add | Subtract | Multiply | Divide | Modulus
    | Equals | NotEquals | Less | LessEquals | Greater | GreaterEquals
    | And | Or | Xor | BooleanNot | BooleanAnd | BooleanOr | BooleanXor | ShiftLeft | ShiftRight

  datatype Expr = Number(value: Word) | Ref(name: string) | Binary(left: Expr, op: Operator, right: Expr)

  function Truth(b: bool): Word {
    if b then 1 else 0
  }

  /** The operators that always use both operands. */
  function Apply(x: Word, op: Operator, y: Word): Option<Word> {
    match op
    case Add => Some(Wrap(x + y))
    case Subtract => Some(Wrap(x - y))
    case Multiply => Some(Wrap(x * y))
    case Divide => if y == 0 then None else Some(Wrap(x / y))
    case Modulus => if y == 0 then None else Some(Wrap(x % y))
    case Equals => Some(Truth(x == y))
    case NotEquals => Some(Truth(x != y))
    case Less => Some(Truth(x < y))
    case LessEquals => Some(Truth(x <= y))
    case Greater => Some(Truth(x > y))
    case GreaterEquals => Some(Truth(x >= y))
    case And => Some(Bitwise(AndGate, x, y))
    case Or => Some(Bitwise(OrGate, x, y))
    case Xor => Some(Bitwise(XorGate, x, y))
    case BooleanNot => Some(Truth(y == 0))
    case BooleanAnd => Some(Truth(x != 0 && y != 0))
    case BooleanOr => Some(Truth(x != 0 || y != 0))
    case BooleanXor => Some(Truth((x != 0) != (y != 0)))
    case ShiftLeft => Some(Wrap(x * Pow2(y % 32)))
    case ShiftRight => Some(Wrap(x / Pow2(y % 32)))
  }

  /** `expr_evaluate`; the not operator leaves its left operand alone, and and or stop early. */
  function Evaluate(e: Expr, lookup: string -> Option<Word>): Option<Word> {
    match e
    case Number(v) => Some(v)
    case Ref(n) => lookup(n)
    case Binary(l, op, r) =>
      if op == BooleanNot then
        match Evaluate(r, lookup)
        case None => None
        case Some(y) => Apply(0, op, y)
      else
        match Evaluate(l, lookup)
        case None => None
        case Some(x) =>
          if (op == BooleanAnd && x == 0) || (op == BooleanOr && x != 0) then Apply(x, op, x)
          else
            match Evaluate(r, lookup)
            case None => None
            case Some(y) => Apply(x, op, y)
  }

  predicate Mentions(e: Expr, name: string) {
    match e
    case Number(_) => false
    case Ref(n) => n == name
    case Binary(l, _, r) => Mentions(l, name) || Mentions(r, name)
  }

  predicate LabelFree(e: Expr) {
    match e
    case Number(_) => true
    case Ref(_) => false
    case Binary(l, _, r) => LabelFree(l) && LabelFree(r)
  }

  /** The value depends on nothing but the labels mentioned. */
  lemma {:induction false} EvaluateAgrees(e: Expr, f: string -> Option<Word>, g: string -> Option<Word>)
    requires forall n :: Mentions(e, n) ==> f(n) == g(n)
    ensures Evaluate(e, f) == Evaluate(e, g)
  {
    match e
    case Number(_) =>
    case Ref(n) => assert Mentions(e, n);
    case Binary(l, _, r) =>
      assert forall n :: Mentions(l, n) || Mentions(r, n) ==> Mentions(e, n);
      EvaluateAgrees(l, f, g);
      EvaluateAgrees(r, f, g);
  }

  lemma {:induction false} LabelFreeMentionsNothing(e: Expr, name: string)
    requires LabelFree(e)
    ensures !Mentions(e, name)
  {
    match e
    case Number(_) =>
    case Binary(l, _, r) =>
      LabelFreeMentionsNothing(l, name);
      LabelFreeMentionsNothing(r, name);
  }

  /** A label-free expression has the same value wherever the code is. */
  lemma {:induction false} LabelFreeIsConstant(e: Expr, f: string -> Option<Word>, g: string -> Option<Word>)
    requires LabelFree(e)
    ensures Evaluate(e, f) == Evaluate(e, g)
  {
    forall n ensures !Mentions(e, n) {
      LabelFreeMentionsNothing(e, n);
    }
    EvaluateAgrees(e, f, g);
  }
}
