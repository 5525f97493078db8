/**
 Source lines with their short literals folded: the same instructions, labels and directives, but a constant that
 fits the operand field takes no word of its own.
 */
module ShortCode {
  import opened Words
  import opened Dcpu
  import opened Expressions
  import opened BinImages
  import opened Assembly
  import opened Programs
  import opened ObjectView
  import Source = Encoding
  import opened CompressedCode
  import opened LineCode
  import Code = Compression

  // ----- Folding source lines -----

  predicate IsShort(e: Expr) {
    LabelFree(e) && Code.Short(ConstantOf(e)).Some?
  }

  function ShortParameter(p: Source.Parameter): Source.Parameter {
    if p.Address? && !p.bracketed && IsShort(p.value) then Source.Known(Code.Short(ConstantOf(p.value)).value) else p
  }

  /** Only the operand a can be a short literal. */
  function ShortInstruction(x: Source.Instruction): Source.Instruction {
    match x
    case Basic(op, p, q) => Source.Basic(op, p, ShortParameter(q))
    case NonBasic(nbop, p) => Source.NonBasic(nbop, ShortParameter(p))
  }

  function ShortLine(line: Line): Line {
    if line.InstructionLine? then Source.InstructionLine(ShortInstruction(line.instruction)) else line
  }

  function ShortLines(lines: seq<Line>): (r: seq<Line>)
    ensures |r| == |lines| && forall k :: 0 <= k < |lines| ==> r[k] == ShortLine(lines[k])
  {
    seq(|lines|, k requires 0 <= k < |lines| => ShortLine(lines[k]))
  }

  // ----- One instruction -----

  lemma {:induction false} ShortOperand(p: Source.Parameter, denoted: string -> nat)
    requires Source.IsParameter(p, 64) && (Source.Operand(p).Some? && !Source.Operand(p).value.Ref? ==>
                                             LabelFree(Source.Operand(p).value))
    ensures Source.IsParameter(ShortParameter(p), 64)
    ensures var os := OperandsOf(p, denoted);
            if Source.CodeOf(p) == NXT_LIT && os[0].target.Plain? && Code.Short(os[0].target.value).Some? then
              OperandsOf(ShortParameter(p), denoted) == [] &&
              Source.CodeOf(ShortParameter(p)) == Code.Short(os[0].target.value).value
            else ShortParameter(p) == p
  {
  }

  /** Folding the source is folding the instruction. */
  lemma {:induction false} ShortIsFolded(x: Source.Instruction, denoted: string -> nat)
    requires Source.IsInstruction(x) && forall e :: UsesExpr(x, e) && !e.Ref? ==> LabelFree(e)
    ensures Source.IsInstruction(ShortInstruction(x))
    ensures InstOf(ShortInstruction(x), denoted) == Code.Folded(InstOf(x, denoted))
  {
    match x
    case Basic(op, p, q) =>
      assert Source.Operand(q).Some? ==> UsesExpr(x, Source.Operand(q).value);
      ShortOperand(q, denoted);
      Source.CodesFit(p, 32);
      Source.CodesFit(q, 64);
      FieldsOfCreate(op, Source.CodeOf(p), Source.CodeOf(q));
      assert Source.Operand(q).Some? ==>
          (OperandsOf(q, denoted) + OperandsOf(p, denoted))[1..] == OperandsOf(p, denoted);
    case NonBasic(nbop, p) =>
      assert Source.Operand(p).Some? ==> UsesExpr(x, Source.Operand(p).value);
      ShortOperand(p, denoted);
      Source.CodesFit(p, 64);
      FieldsOfCreate(OP_NONBASIC, nbop, Source.CodeOf(p));
  }

  // ----- All lines -----

  lemma {:induction false} ShortKeepsOrder(lines: seq<Line>, k: nat)
    requires k <= |lines|
    ensures Order(ShortLines(lines), k) == Order(lines, k)
  {
    if k > 0 { ShortKeepsOrder(lines, k - 1); }
  }

  lemma {:induction false} ShortKeepsLabels(lines: seq<Line>, k: nat, name: string)
    requires k <= |lines|
    ensures LabelOrder(ShortLines(lines), k, name) == LabelOrder(lines, k, name)
  {
    if k > 0 {
      ShortKeepsLabels(lines, k - 1, name);
      ShortKeepsOrder(lines, k - 1);
    }
  }

  lemma {:induction false} ShortDenoted(lines: seq<Line>, name: string)
    ensures Denoted(ShortLines(lines))(name) == Denoted(lines)(name)
  {
    ShortKeepsLabels(lines, |lines|, name);
  }

  lemma {:induction false} SameTargets(p: Source.Parameter, f: string -> nat, g: string -> nat)
    requires forall n :: f(n) == g(n)
    ensures OperandsOf(p, f) == OperandsOf(p, g)
  {
  }

  lemma {:induction false} SameInst(x: Source.Instruction, f: string -> nat, g: string -> nat)
    requires forall n :: f(n) == g(n)
    ensures InstOf(x, f) == InstOf(x, g)
  {
    match x
    case Basic(_, p, q) =>
      SameTargets(p, f, g);
      SameTargets(q, f, g);
    case NonBasic(_, p) => SameTargets(p, f, g);
  }

  lemma {:induction false} ShortInst(lines: seq<Line>, i: nat)
    requires AllSettled(lines) && i < Order(lines, |lines|)
    ensures i < |InstsOf(ShortLines(lines))| && InstsOf(ShortLines(lines))[i] == Code.Folded(InstsOf(lines)[i])
  {
    var short := ShortLines(lines);
    var k := InstFrom(lines, |lines|, i, Denoted(lines));
    assert LineSettled(lines, k);
    ShortKeepsOrder(lines, |lines|);
    ShortKeepsOrder(lines, k);
    InstAt(short, k, |lines|, Denoted(short));
    forall n ensures Denoted(short)(n) == Denoted(lines)(n) { ShortDenoted(lines, n); }
    SameInst(ShortInstruction(lines[k].instruction), Denoted(short), Denoted(lines));
    ShortIsFolded(lines[k].instruction, Denoted(lines));
  }

  /** The instructions of the folded lines are the folded instructions. */
  lemma {:induction false} ShortInsts(lines: seq<Line>)
    requires AllSettled(lines)
    ensures InstsOf(ShortLines(lines)) == Code.FoldFirst(InstsOf(lines), |InstsOf(lines)|)
  {
    ShortKeepsOrder(lines, |lines|);
    forall i | 0 <= i < |InstsOf(lines)| ensures InstsOf(ShortLines(lines))[i] == Code.Folded(InstsOf(lines)[i]) {
      ShortInst(lines, i);
    }
  }

  lemma {:induction false} ShortUses(x: Source.Instruction, e: Expr)
    requires UsesExpr(ShortInstruction(x), e)
    ensures UsesExpr(x, e)
  {
  }

  lemma {:induction false} ShortSettled(lines: seq<Line>, k: nat)
    requires AllSettled(lines) && k < |lines|
    ensures Source.IsCode(ShortLines(lines)[k]) && LineSettled(ShortLines(lines), k)
  {
    assert LineSettled(lines, k);
    if lines[k].InstructionLine? {
      var x := lines[k].instruction;
      ShortIsFolded(x, Denoted(lines));
      ShortKeepsOrder(lines, |lines|);
      forall e | UsesExpr(ShortInstruction(x), e) ensures Settled(ShortLines(lines), e) {
        ShortUses(x, e);
        if e.Ref? { ShortKeepsLabels(lines, |lines|, e.name); }
      }
    }
  }

  lemma {:induction false} ShortAllSettled(lines: seq<Line>)
    requires AllSettled(lines)
    ensures AllSettled(ShortLines(lines))
  {
    forall k | 0 <= k < |lines| ensures Source.IsCode(ShortLines(lines)[k]) && LineSettled(ShortLines(lines), k) {
      ShortSettled(lines, k);
    }
  }
}
