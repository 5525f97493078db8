/**
 The instructions of source lines: the code that the lines stand for, where their labels are, and the same lines
 with their short literals folded.
 */
module LineCode {
  import opened Words
  import opened Dcpu
  import opened Expressions
  import opened BinImages
  import opened Assembly
  import opened Programs
  import opened ObjectView
  import Source = Encoding
  import opened CompressedCode
  import Code = Compression

  type Line = Source.Line

  // ----- The instructions of lines -----

  /** The number of instructions among the first `k` lines. */
  function Order(lines: seq<Line>, k: nat): (n: nat)
    requires k <= |lines|
    ensures n <= k
  {
    if k == 0 then 0 else Order(lines, k - 1) + if lines[k - 1].InstructionLine? then 1 else 0
  }

  /** The instruction that follows the first definition of a label among the first `k` lines. */
  function LabelOrder(lines: seq<Line>, k: nat, name: string): Option<nat>
    requires k <= |lines|
  {
    if k == 0 then None
    else match LabelOrder(lines, k - 1, name)
         case Some(m) => Some(m)
         case None => if lines[k - 1] == Source.LabelLine(name) then Some(Order(lines, k - 1)) else None
  }

  /** The instructions that labels denote. */
  function Denoted(lines: seq<Line>): string -> nat {
    name => match LabelOrder(lines, |lines|, name)
            case None => 0
            case Some(m) => m
  }

  ghost function TargetOf(e: Expr, denoted: string -> nat): Code.Target {
    if e.Ref? then Code.Instruction(denoted(e.name)) else Code.Plain(ConstantOf(e))
  }

  ghost function OperandsOf(p: Source.Parameter, denoted: string -> nat): seq<Code.Operand> {
    if Source.Operand(p).Some? then [Code.Operand(TargetOf(Source.Operand(p).value, denoted), iset{})] else []
  }

  ghost function InstOf(x: Source.Instruction, denoted: string -> nat): Code.Inst {
    match x
    case Basic(op, p, q) =>
      Code.Inst(Create(op, Source.CodeOf(p), Source.CodeOf(q)), iset{}, OperandsOf(q, denoted) + OperandsOf(p, denoted))
    case NonBasic(nbop, p) =>
      Code.Inst(Create(OP_NONBASIC, nbop, Source.CodeOf(p)), iset{}, OperandsOf(p, denoted))
  }

  /** The instructions of the first `k` lines. */
  ghost function Insts(lines: seq<Line>, k: nat, denoted: string -> nat): (r: seq<Code.Inst>)
    requires k <= |lines|
    ensures |r| == Order(lines, k)
  {
    if k == 0 then []
    else
      Insts(lines, k - 1, denoted) +
      if lines[k - 1].InstructionLine? then [InstOf(lines[k - 1].instruction, denoted)] else []
  }

  ghost function InstsOf(lines: seq<Line>): (r: seq<Code.Inst>)
    ensures |r| == Order(lines, |lines|)
  {
    Insts(lines, |lines|, Denoted(lines))
  }

  // ----- Lines that can be compressed -----

  predicate UsesExpr(x: Source.Instruction, e: Expr) {
    match x
    case Basic(_, p, q) => Source.Operand(p) == Some(e) || Source.Operand(q) == Some(e)
    case NonBasic(_, p) => Source.Operand(p) == Some(e)
  }

  /** The expression is a label that denotes an instruction, or a constant. */
  predicate Settled(lines: seq<Line>, e: Expr) {
    if e.Ref? then
      var m := LabelOrder(lines, |lines|, e.name); m.Some? && m.value < Order(lines, |lines|)
    else LabelFree(e)
  }

  ghost predicate LineSettled(lines: seq<Line>, k: nat)
    requires k < |lines|
  {
    lines[k].InstructionLine? ==> forall e :: UsesExpr(lines[k].instruction, e) ==> Settled(lines, e)
  }

  ghost predicate AllSettled(lines: seq<Line>) {
    forall k :: 0 <= k < |lines| ==> Source.IsCode(lines[k]) && LineSettled(lines, k)
  }

  // ----- What an instruction emits -----

  function OperandCells(p: Source.Parameter, env: string -> Cell): seq<Cell> {
    if Source.Operand(p).Some? then [ItemCell(Value(Source.Operand(p).value), env)] else []
  }

  lemma {:induction false} CellsOfOperand(p: Source.Parameter, env: string -> Cell)
    ensures CodeCells(Source.OperandItems(p), env) == OperandCells(p, env)
  {
    if Source.Operand(p).Some? {
      assert Source.OperandItems(p)[..0] == [];
    }
  }

  lemma {:induction false} CellsOfOne(item: Item, env: string -> Cell)
    ensures CodeCells([item], env) == if IsWord(item) then [ItemCell(item, env)] else []
  {
    assert [item][..0] == [];
  }

  function InstructionCells(x: Source.Instruction, env: string -> Cell): seq<Cell> {
    match x
    case Basic(op, p, q) =>
      [Lit(Create(op, Source.CodeOf(p), Source.CodeOf(q)))] + OperandCells(q, env) + OperandCells(p, env)
    case NonBasic(nbop, p) => [Lit(Create(OP_NONBASIC, nbop, Source.CodeOf(p)))] + OperandCells(p, env)
  }

  lemma {:induction false} CellsOfInstruction(x: Source.Instruction, env: string -> Cell)
    ensures CodeCells(Source.Emit(Source.InstructionLine(x)), env) == InstructionCells(x, env)
  {
    match x
    case Basic(op, p, q) =>
      var head := Opcode(op, Source.CodeOf(p), Source.CodeOf(q));
      CellsOfOne(head, env);
      CellsOfOperand(p, env);
      CellsOfOperand(q, env);
      CodeCellsAppend([head], Source.OperandItems(q), env);
      CodeCellsAppend([head] + Source.OperandItems(q), Source.OperandItems(p), env);
    case NonBasic(nbop, p) =>
      var head := Opcode(OP_NONBASIC, nbop, Source.CodeOf(p));
      CellsOfOne(head, env);
      CellsOfOperand(p, env);
      CodeCellsAppend([head], Source.OperandItems(p), env);
  }

  /** What labels denote is where their instructions are. */
  ghost predicate EnvAgrees(lines: seq<Line>, p: seq<Code.Inst>, name: Name, env: string -> Cell) {
    forall n :: LabelOrder(lines, |lines|, n).Some? ==>
                  env(n) == Ptr(name, Wrap(Code.Start(p, LabelOrder(lines, |lines|, n).value)))
  }

  lemma {:induction false} SettledCell(lines: seq<Line>, p: seq<Code.Inst>, name: Name, env: string -> Cell, e: Expr)
    requires EnvAgrees(lines, p, name, env) && Settled(lines, e)
    ensures ItemCell(Value(e), env) == Code.CellOf(p, name, TargetOf(e, Denoted(lines)))
  {
  }

  lemma {:induction false} OperandCell(lines: seq<Line>, p: seq<Code.Inst>, name: Name, env: string -> Cell,
          q: Source.Parameter)
    requires EnvAgrees(lines, p, name, env) && (Source.Operand(q).Some? ==> Settled(lines, Source.Operand(q).value))
    ensures var os := OperandsOf(q, Denoted(lines));
            |OperandCells(q, env)| == |os| <= 1 &&
            (os != [] ==> OperandCells(q, env)[0] == Code.CellOf(p, name, os[0].target))
  {
    if Source.Operand(q).Some? { SettledCell(lines, p, name, env, Source.Operand(q).value); }
  }

  /** An instruction emits its word and then the words of its operands. */
  lemma {:induction false} InstructionRow(lines: seq<Line>, p: seq<Code.Inst>, name: Name, env: string -> Cell,
          x: Source.Instruction, inst: Code.Inst)
    requires EnvAgrees(lines, p, name, env) && (forall e :: UsesExpr(x, e) ==> Settled(lines, e))
    requires inst == InstOf(x, Denoted(lines))
    ensures var cells := InstructionCells(x, env);
            && |cells| == 1 + |inst.next|
            && forall j :: 0 <= j < |cells| ==> cells[j] == Code.SpotOf(p, name, inst, j).cell
  {
    match x
    case Basic(_, q, r) =>
      OperandCell(lines, p, name, env, q);
      OperandCell(lines, p, name, env, r);
    case NonBasic(_, q) => OperandCell(lines, p, name, env, q);
  }

  lemma {:induction false} InstAt(lines: seq<Line>, k: nat, n: nat, denoted: string -> nat)
    requires k < n <= |lines| && lines[k].InstructionLine?
    ensures Order(lines, k) < Order(lines, n)
    ensures Insts(lines, n, denoted)[Order(lines, k)] == InstOf(lines[k].instruction, denoted)
  {
    if k < n - 1 { InstAt(lines, k, n - 1, denoted); }
  }

  lemma {:induction false} InstFrom(lines: seq<Line>, n: nat, i: nat, denoted: string -> nat) returns (k: nat)
    requires n <= |lines| && i < Order(lines, n)
    ensures k < n && lines[k].InstructionLine? && Order(lines, k) == i
    ensures Insts(lines, n, denoted)[i] == InstOf(lines[k].instruction, denoted)
  {
    if i == Order(lines, n - 1) {
      k := n - 1;
    } else {
      k := InstFrom(lines, n - 1, i, denoted);
    }
  }

  lemma {:induction false} OrderMonotone(lines: seq<Line>, k: nat, n: nat)
    requires k <= n <= |lines|
    ensures Order(lines, k) <= Order(lines, n)
  {
    if k < n { OrderMonotone(lines, k, n - 1); }
  }

  // ----- The cells of all lines -----

  /** The first `n` instructions of the program are laid out. */
  ghost predicate LaidFirst(p: seq<Code.Inst>, name: Name, cells: seq<Cell>, n: nat)
    requires n <= |p|
  {
    |cells| == Code.Start(p, n) && forall k :: 0 <= k < n ==> InstCells(p, name, cells, k)
  }

  lemma {:induction false} LaidNext(p: seq<Code.Inst>, name: Name, cells: seq<Cell>, row: seq<Cell>, n: nat)
    requires n < |p| && LaidFirst(p, name, cells, n) && |row| == 1 + |p[n].next|
    requires forall j :: 0 <= j < |row| ==> row[j] == Code.SpotOf(p, name, p[n], j).cell
    ensures LaidFirst(p, name, cells + row, n + 1)
  {
    forall k | 0 <= k < n + 1 ensures InstCells(p, name, cells + row, k) {
      if k < n {
        assert InstCells(p, name, cells, k);
      }
    }
  }

  lemma {:induction false} NoCells(line: Line, env: string -> Cell)
    requires Source.IsCode(line) && !line.InstructionLine?
    ensures CodeCells(Source.Emit(line), env) == []
  {
    CellsOfOne(if line.LabelLine? then Definition(line.name) else line.directive, env);
  }

  lemma {:induction false} NextLineLaid(lines: seq<Line>, p: seq<Code.Inst>, name: Name, env: string -> Cell,
          cells: seq<Cell>, k: nat)
    requires p == InstsOf(lines) && EnvAgrees(lines, p, name, env) && AllSettled(lines) && k < |lines|
    requires Order(lines, k) <= |p| && LaidFirst(p, name, cells, Order(lines, k))
    ensures Order(lines, k + 1) <= |p|
    ensures LaidFirst(p, name, cells + CodeCells(Source.Emit(lines[k]), env), Order(lines, k + 1))
  {
    assert LineSettled(lines, k);
    if lines[k].InstructionLine? {
      InstAt(lines, k, |lines|, Denoted(lines));
      CellsOfInstruction(lines[k].instruction, env);
      InstructionRow(lines, p, name, env, lines[k].instruction, p[Order(lines, k)]);
      LaidNext(p, name, cells, InstructionCells(lines[k].instruction, env), Order(lines, k));
    } else {
      NoCells(lines[k], env);
      assert cells + [] == cells;
    }
  }

  lemma {:induction false} LinesLaidOn(lines: seq<Line>, p: seq<Code.Inst>, name: Name, env: string -> Cell, k: nat,
          n: nat)
    requires p == InstsOf(lines) && EnvAgrees(lines, p, name, env) && AllSettled(lines) && k < n == k + 1 <= |lines|
    requires Order(lines, k) <= |p| && LaidFirst(p, name, CodeCells(Source.EmitAll(lines, k), env), Order(lines, k))
    ensures Order(lines, n) <= |p| && LaidFirst(p, name, CodeCells(Source.EmitAll(lines, n), env), Order(lines, n))
  {
    Source.EmitNext(lines, k, n, lines[k], Source.EmitAll(lines, k));
    CodeCellsAppend(Source.EmitAll(lines, k), Source.Emit(lines[k]), env);
    NextLineLaid(lines, p, name, env, CodeCells(Source.EmitAll(lines, k), env), k);
  }

  /** The cells of settled lines are those of their instructions. */
  lemma {:induction false} LinesLaid(lines: seq<Line>, p: seq<Code.Inst>, name: Name, env: string -> Cell, k: nat)
    requires p == InstsOf(lines) && EnvAgrees(lines, p, name, env) && AllSettled(lines) && k <= |lines|
    ensures Order(lines, k) <= |p|
    ensures LaidFirst(p, name, CodeCells(Source.EmitAll(lines, k), env), Order(lines, k))
  {
    for i := 0 to k
      invariant Order(lines, i) <= |p|
      invariant LaidFirst(p, name, CodeCells(Source.EmitAll(lines, i), env), Order(lines, i))
    {
      LinesLaidOn(lines, p, name, env, i, i + 1);
    }
  }

  lemma {:induction false} AllLinesLaid(lines: seq<Line>, p: seq<Code.Inst>, name: Name, env: string -> Cell)
    requires p == InstsOf(lines) && EnvAgrees(lines, p, name, env) && AllSettled(lines)
    ensures LaidCells(p, name, CodeCells(Source.EmitAll(lines, |lines|), env))
  {
    LinesLaid(lines, p, name, env, |lines|);
  }

  // ----- Where labels are -----

  lemma {:induction false} SizeOfOperand(q: Source.Parameter, denoted: string -> nat)
    ensures SizeTo(Source.OperandItems(q), |Source.OperandItems(q)|) == |OperandsOf(q, denoted)|
  {
    if Source.Operand(q).Some? {
      assert SizeTo(Source.OperandItems(q), 0) == 0;
    }
  }

  lemma {:induction false} SizeOfOne(item: Item)
    ensures SizeTo([item], 1) == if IsWord(item) then 1 else 0
  {
    assert SizeTo([item], 0) == 0;
  }

  lemma {:induction false} SizeOfLine(line: Line, denoted: string -> nat)
    requires Source.IsCode(line)
    ensures SizeTo(Source.Emit(line), |Source.Emit(line)|) ==
            if line.InstructionLine? then 1 + |InstOf(line.instruction, denoted).next| else 0
  {
    match line
    case LabelLine(n) => SizeOfOne(Definition(n));
    case DirectiveLine(d) => SizeOfOne(d);
    case InstructionLine(x) =>
      match x {
        case Basic(op, p, q) =>
          var head := Opcode(op, Source.CodeOf(p), Source.CodeOf(q));
          var back := Source.OperandItems(p);
          SizeOfOne(head);
          SizeOfOperand(p, denoted);
          SizeOfOperand(q, denoted);
          SizeOfAppend([head], Source.OperandItems(q), |Source.OperandItems(q)|);
          SizeOfAppend([head] + Source.OperandItems(q), back, |back|);
        case NonBasic(nbop, p) =>
          SizeOfOne(Opcode(OP_NONBASIC, nbop, Source.CodeOf(p)));
          SizeOfOperand(p, denoted);
          SizeOfAppend([Opcode(OP_NONBASIC, nbop, Source.CodeOf(p))], Source.OperandItems(p), |Source.OperandItems(p)|);
      }
  }

  /** The size of the first `k` lines. */
  ghost predicate SizedTo(lines: seq<Line>, k: nat, p: seq<Code.Inst>)
    requires k <= |lines|
  {
    SizeTo(Source.EmitAll(lines, k), |Source.EmitAll(lines, k)|) == Code.Start(p, Order(lines, k))
  }

  lemma {:induction false} SizedOn(lines: seq<Line>, k: nat, n: nat, p: seq<Code.Inst>, front: seq<Item>)
    requires k < n == k + 1 <= |lines| && p == InstsOf(lines) && Source.IsCode(lines[k]) && SizedTo(lines, k, p)
    requires front == Source.EmitAll(lines, k)
    ensures SizedTo(lines, n, p)
  {
    var line := lines[k];
    Source.EmitNext(lines, k, n, line, front);
    SizeBehind(front, Source.Emit(line), Source.EmitAll(lines, n));
    SizeOfLine(line, Denoted(lines));
    OrderNext(lines, k, n, p);
  }

  lemma {:induction false} SizeBehind(front: seq<Item>, back: seq<Item>, all: seq<Item>)
    requires all == front + back
    ensures SizeTo(all, |all|) == SizeTo(front, |front|) + SizeTo(back, |back|)
  {
    SizeOfAppend(front, back, |back|);
  }

  lemma {:induction false} OrderNext(lines: seq<Line>, k: nat, n: nat, p: seq<Code.Inst>)
    requires k < n == k + 1 <= |lines| && p == InstsOf(lines)
    ensures Code.Start(p, Order(lines, n)) == Code.Start(p, Order(lines, k)) +
            if lines[k].InstructionLine? then 1 + |InstOf(lines[k].instruction, Denoted(lines)).next| else 0
  {
    if lines[k].InstructionLine? {
      InstAt(lines, k, |lines|, Denoted(lines));
      StartNext(p, Order(lines, k), Order(lines, n));
    }
  }

  lemma {:induction false} StartNext(p: seq<Code.Inst>, k: nat, n: nat)
    requires k < n == k + 1 <= |p|
    ensures Code.Start(p, n) == Code.Start(p, k) + 1 + |p[k].next|
  {
  }

  lemma {:induction false} SizeOfLines(lines: seq<Line>, k: nat, p: seq<Code.Inst>)
    requires k <= |lines| && p == InstsOf(lines) && AllSettled(lines)
    ensures SizedTo(lines, k, p)
  {
    for i := 0 to k
      invariant SizedTo(lines, i, p)
    {
      SizedOn(lines, i, i + 1, p, Source.EmitAll(lines, i));
    }
  }

  lemma {:induction false} LabelOfLine(line: Line, mem: Word, name: string)
    requires Source.IsCode(line)
    ensures LabelAddress(Source.Emit(line), mem, name) == if line == Source.LabelLine(name) then Some(mem) else None
  {
    SearchFinds(Source.Emit(line), name, 0, mem);
    if line == Source.LabelLine(name) {
      assert Source.Emit(line)[0] == Definition(name);
    }
  }

  ghost predicate LabelPlaced(lines: seq<Line>, k: nat, p: seq<Code.Inst>, name: string)
    requires k <= |lines|
  {
    LabelAddress(Source.EmitAll(lines, k), 0, name) ==
    match LabelOrder(lines, k, name)
    case None => None
    case Some(m) => Some(Wrap(Code.Start(p, m)))
  }

  lemma {:induction false} LabelPlacedOn(lines: seq<Line>, k: nat, n: nat, p: seq<Code.Inst>, name: string,
          front: seq<Item>)
    requires k < n == k + 1 <= |lines| && Source.IsCode(lines[k]) && SizedTo(lines, k, p)
    requires LabelPlaced(lines, k, p, name) && front == Source.EmitAll(lines, k)
    ensures LabelPlaced(lines, n, p, name)
  {
    var line := lines[k];
    Source.EmitNext(lines, k, n, line, front);
    LabelOfLine(line, Wrap(SizeTo(front, |front|)), name);
    LabelBehind(front, Source.Emit(line), Source.EmitAll(lines, n), name,
                if line == Source.LabelLine(name) then Some(Wrap(SizeTo(front, |front|))) else None);
  }

  lemma {:induction false} LabelBehind(front: seq<Item>, back: seq<Item>, all: seq<Item>, name: string,
          found: Option<Word>)
    requires all == front + back && LabelAddress(back, Wrap(SizeTo(front, |front|)), name) == found
    ensures LabelAddress(all, 0, name) ==
            if LabelAddress(front, 0, name).Some? then LabelAddress(front, 0, name) else found
  {
    AddressAppend(front, back, 0, name);
  }

  /** A label is at the instruction that follows its first definition. */
  lemma {:induction false} LabelAtStart(lines: seq<Line>, k: nat, p: seq<Code.Inst>, name: string)
    requires k <= |lines| && p == InstsOf(lines) && AllSettled(lines)
    ensures LabelPlaced(lines, k, p, name)
  {
    for i := 0 to k
      invariant LabelPlaced(lines, i, p, name)
    {
      SizeOfLines(lines, i, p);
      LabelPlacedOn(lines, i, i + 1, p, name, Source.EmitAll(lines, i));
    }
  }

  // ----- Whole instructions -----

  lemma {:induction false} NextWordsOf(x: Source.Instruction, denoted: string -> nat)
    requires Source.IsInstruction(x)
    ensures 1 + |InstOf(x, denoted).next| == Size(InstOf(x, denoted).word)
  {
    match x
    case Basic(op, p, q) =>
      Source.CodesFit(p, 32);
      Source.CodesFit(q, 64);
      FieldsOfCreate(op, Source.CodeOf(p), Source.CodeOf(q));
    case NonBasic(nbop, p) =>
      Source.CodesFit(p, 64);
      FieldsOfCreate(OP_NONBASIC, nbop, Source.CodeOf(p));
  }

  lemma {:induction false} InstIsBare(lines: seq<Line>, x: Source.Instruction)
    requires Source.IsInstruction(x) && forall e :: UsesExpr(x, e) ==> Settled(lines, e)
    ensures BareInst(InstOf(x, Denoted(lines)), Order(lines, |lines|))
  {
    var denoted := Denoted(lines);
    NextWordsOf(x, denoted);
    match x
    case Basic(_, p, q) =>
      OperandIsBare(lines, p);
      OperandIsBare(lines, q);
      BareConcat(OperandsOf(q, denoted), OperandsOf(p, denoted), Order(lines, |lines|));
    case NonBasic(_, p) => OperandIsBare(lines, p);
  }

  ghost predicate BareOperands(os: seq<Code.Operand>, n: nat) {
    forall o :: o in os ==> o.labels == iset{} && (o.target.Instruction? ==> o.target.index < n)
  }

  lemma {:induction false} BareConcat(a: seq<Code.Operand>, b: seq<Code.Operand>, n: nat)
    requires BareOperands(a, n) && BareOperands(b, n)
    ensures BareOperands(a + b, n)
  {
  }

  lemma {:induction false} OperandIsBare(lines: seq<Line>, p: Source.Parameter)
    requires Source.Operand(p).Some? ==> Settled(lines, Source.Operand(p).value)
    ensures BareOperands(OperandsOf(p, Denoted(lines)), Order(lines, |lines|))
  {
  }

  lemma {:induction false} InstsAreBare(lines: seq<Line>)
    requires AllSettled(lines)
    ensures Bare(InstsOf(lines))
  {
    var p := InstsOf(lines);
    forall i | 0 <= i < |p| ensures BareInst(p[i], |p|) {
      var k := InstFrom(lines, |lines|, i, Denoted(lines));
      assert LineSettled(lines, k);
      InstIsBare(lines, lines[k].instruction);
    }
  }
}
