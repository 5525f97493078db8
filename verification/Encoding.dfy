/**
 Instructions as the assembler emits them (libdcpu-ci-asm/assem.c) and as the disassembler reads them
 (libdcpu-vm/dcpudis.c).
 */
module Encoding {
  import opened Words
  import opened Dcpu
  import opened Expressions
  import opened Assembly
  import opened AssemblyMeaning
  import opened Machine

  // ----- Emission -----

  /** A parameter: a register in some form, a label, an address or literal, or an address plus a register. */
  datatype Parameter =
    | Known(code: Word)
    | LabelName(name: string, bracketed: bool)
    | Address(value: Expr, bracketed: bool)
    | Indexed(value: Expr, code: Word)

  /** Registers have codes below 0x20; the operand a also takes short literals. */
  predicate IsParameter(p: Parameter, limit: nat) {
    match p
    case Known(c) => c < limit && !UsesNext(c)
    case Indexed(_, c) => IsIndexed(c) || c == PICK
    case _ => true
  }

  /** The operand code of a parameter; a label or a value takes the next word, indirectly if bracketed. */
  function CodeOf(p: Parameter): Word {
    match p
    case Known(c) => c
    case LabelName(_, bracketed) => if bracketed then NXT else NXT_LIT
    case Address(_, bracketed) => if bracketed then NXT else NXT_LIT
    case Indexed(_, c) => c
  }

  /** The word that follows because of a parameter. */
  function Operand(p: Parameter): Option<Expr> {
    match p
    case Known(_) => None
    case LabelName(n, _) => Some(Ref(n))
    case Address(e, _) => Some(e)
    case Indexed(e, _) => Some(e)
  }

  /** RFI without a parameter is written with the short literal zero: NonBasic(NBOP_RFI, Known(0x21)). */
  datatype Instruction =
    | Basic(op: Word, first: Parameter, second: Parameter)
    | NonBasic(nbop: Word, param: Parameter)

  predicate IsInstruction(x: Instruction) {
    match x
    case Basic(op, p, q) => 0 < op < 32 && IsParameter(p, 32) && IsParameter(q, 64)
    case NonBasic(nbop, p) => 0 < nbop < 32 && IsParameter(p, 64)
  }

  /** A parameter of DAT. */
  datatype Datum = Text(text: string) | Parameter(parameter: Parameter)

  datatype Line =
    | LabelLine(name: string)
    | InstructionLine(instruction: Instruction)
    | DirectiveLine(directive: Item)
    | DataLine(data: seq<Datum>)
    | BoundaryLine

  function OperandItems(p: Parameter): seq<Item> {
    if Operand(p).Some? then [Value(Operand(p).value)] else []
  }

  function Characters(text: string): (r: seq<Item>)
    ensures |r| == |text| && forall i :: 0 <= i < |r| ==> r[i] == Raw(text[i] as int % 256)
  {
    seq(|text|, i requires 0 <= i < |text| => Raw(text[i] as int % 256))
  }

  function Zeros(n: nat): (r: seq<Item>)
    ensures |r| == n && forall i :: 0 <= i < n ==> r[i] == Raw(0)
  {
    seq(n, _ => Raw(0))
  }

  function DatumItems(d: Datum): seq<Item> {
    match d
    case Text(s) => Characters(s)
    case Parameter(p) => OperandItems(p)
  }

  /** The items of the first `k` parameters of DAT. */
  function DataItems(data: seq<Datum>, k: nat): seq<Item>
    requires k <= |data|
  {
    if k == 0 then [] else DataItems(data, k - 1) + DatumItems(data[k - 1])
  }

  /** DAT takes no registers. */
  predicate IsDatum(d: Datum) {
    d.Text? || Operand(d.parameter).Some?
  }

  /** The assembler halts at data that it cannot emit. */
  predicate Halts(line: Line) {
    line.DataLine? && exists i :: 0 <= i < |line.data| && !IsDatum(line.data[i])
  }

  predicate IsDirective(item: Item) {
    !IsWord(item) && !item.Definition?
  }

  /** A line that emits no data. */
  predicate IsCode(line: Line) {
    match line
    case LabelLine(_) => true
    case InstructionLine(x) => IsInstruction(x)
    case DirectiveLine(d) => IsDirective(d)
    case _ => false
  }

  /** `process_line`: the opcode, then the word of the second parameter, then the word of the first. */
  function Emit(line: Line): seq<Item> {
    match line
    case LabelLine(n) => [Definition(n)]
    case InstructionLine(x) =>
      (match x
       case Basic(op, p, q) => [Opcode(op, CodeOf(p), CodeOf(q))] + OperandItems(q) + OperandItems(p)
       case NonBasic(nbop, p) => [Opcode(OP_NONBASIC, nbop, CodeOf(p))] + OperandItems(p))
    case DirectiveLine(d) => [d]
    case DataLine(data) => DataItems(data, |data|)
    case BoundaryLine => Zeros(16)
  }

  /** The items of the first `k` lines. */
  function EmitAll(lines: seq<Line>, k: nat): seq<Item>
    requires k <= |lines|
  {
    if k == 0 then [] else EmitAll(lines, k - 1) + Emit(lines[k - 1])
  }

  // ----- Disassembly -----

  /** The fields the disassembler fills in; the next words are listed for the a and the b operand. */
  datatype Decoded = Decoded(op: Word, a: Word, b: Word, size: nat, nextA: Option<Word>, nextB: Option<Word>)

  /** A memory word; what the disassembler finds behind the end of memory is left open and read as zero. */
  function Peek(ram: Ram, pos: nat): Word {
    if pos < 0x10000 then ram[pos] else 0
  }

  /** `vm_disassemble` without its printed form. */
  function Disassembled(ram: Ram, pos: nat): Decoded {
    var inst := Peek(ram, pos);
    var op, a, b, size := GetOp(inst), GetA(inst), GetB(inst), Size(inst);
    Decoded(op, a, b, size,
            if size == 3 || (size == 2 && UsesNext(a)) then Some(Peek(ram, pos + 1)) else None,
            if size == 3 then Some(Peek(ram, pos + 2))
            else if size == 2 && !UsesNext(a) then Some(Peek(ram, pos + 1))
            else None)
  }

  /** The address behind the first `n` instructions of a walk. */
  function WalkTo(ram: Ram, pos: nat, n: nat): nat {
    if n == 0 then pos else WalkTo(ram, pos, n - 1) + Disassembled(ram, WalkTo(ram, pos, n - 1)).size
  }

  function Walk(ram: Ram, pos: nat, n: nat): seq<Decoded> {
    if n == 0 then [] else Walk(ram, pos, n - 1) + [Disassembled(ram, WalkTo(ram, pos, n - 1))]
  }

  // ----- What should come back -----

  function WordFor(items: seq<Item>, base: Word, p: Parameter): Option<Word> {
    if Operand(p).Some? then Some(AssemblyMeaning.WordOf(items, base, Value(Operand(p).value))) else None
  }

  function Expected(items: seq<Item>, base: Word, x: Instruction): Decoded {
    match x
    case Basic(op, p, q) =>
      Decoded(op, CodeOf(q), CodeOf(p), |Emit(InstructionLine(x))|, WordFor(items, base, q), WordFor(items, base, p))
    case NonBasic(nbop, p) => Decoded(OP_NONBASIC, CodeOf(p), nbop, |Emit(InstructionLine(x))|, WordFor(items, base, p),
                                      None)
  }

  /** What the first `k` lines should read back as. */
  function AllExpected(items: seq<Item>, base: Word, lines: seq<Line>, k: nat): seq<Decoded>
    requires k <= |lines|
  {
    if k == 0 then []
    else
      AllExpected(items, base, lines, k - 1) +
      if lines[k - 1].InstructionLine? then [Expected(items, base, lines[k - 1].instruction)] else []
  }

  lemma {:induction false} CodesFit(p: Parameter, limit: nat)
    requires 32 <= limit && IsParameter(p, limit)
    ensures CodeOf(p) < limit && (UsesNext(CodeOf(p)) <==> Operand(p).Some?)
  {
  }

  function Count(w: Option<Word>): nat {
    if w.Some? then 1 else 0
  }

  /** An instruction word and the words behind it, read back; `wa` and `wb` belong to the operands a and b. */
  lemma {:induction false} FieldsReadBack(ram: Ram, pos: nat, op: Word, b: Word, a: Word, wa: Option<Word>,
          wb: Option<Word>)
    requires op < 32 && b < 32 && a < 64 && Peek(ram, pos) == Create(op, b, a)
    requires (wa.Some? <==> UsesNext(a)) && (wb.Some? <==> op != OP_NONBASIC && UsesNext(b))
    requires wa.Some? ==> Peek(ram, pos + 1) == wa.value
    requires wb.Some? ==> Peek(ram, pos + 1 + Count(wa)) == wb.value
    ensures Disassembled(ram, pos) == Decoded(op, a, b, 1 + Count(wa) + Count(wb), wa, wb)
  {
    FieldsOfCreate(op, b, a);
  }

  /** The words of an instruction, as the assembler writes them one after another. */
  function WordsFor(items: seq<Item>, base: Word, x: Instruction): seq<Word> {
    match x
    case Basic(op, p, q) => [Create(op, CodeOf(p), CodeOf(q))] + Listed(WordFor(items, base, q)) +
        Listed(WordFor(items, base, p))
    case NonBasic(nbop, p) => [Create(OP_NONBASIC, nbop, CodeOf(p))] + Listed(WordFor(items, base, p))
  }

  function Listed(w: Option<Word>): seq<Word> {
    if w.Some? then [w.value] else []
  }

  ghost predicate ReadsAt(ram: Ram, pos: nat, words: seq<Word>, i: nat)
    requires i < |words|
  {
    Peek(ram, pos + i) == words[i]
  }

  /** Memory holds the words from `pos` on. */
  ghost predicate Reads(ram: Ram, pos: nat, words: seq<Word>) {
    forall i :: 0 <= i < |words| ==> ReadsAt(ram, pos, words, i)
  }

  lemma {:induction false} BasicReadsBack(items: seq<Item>, base: Word, op: Word, p: Parameter, q: Parameter, ram: Ram,
          pos: nat)
    requires IsInstruction(Basic(op, p, q)) && Reads(ram, pos, WordsFor(items, base, Basic(op, p, q)))
    ensures Disassembled(ram, pos) == Expected(items, base, Basic(op, p, q))
  {
    var words, wa, wb := WordsFor(items, base, Basic(op, p, q)), WordFor(items, base, q), WordFor(items, base, p);
    CodesFit(p, 32);
    CodesFit(q, 64);
    assert ReadsAt(ram, pos, words, 0);
    assert wa.Some? ==> ReadsAt(ram, pos, words, 1);
    assert wb.Some? ==> ReadsAt(ram, pos, words, 1 + Count(wa));
    FieldsReadBack(ram, pos, op, CodeOf(p), CodeOf(q), wa, wb);
  }

  lemma {:induction false} NonBasicReadsBack(items: seq<Item>, base: Word, nbop: Word, p: Parameter, ram: Ram, pos: nat)
    requires IsInstruction(NonBasic(nbop, p)) && Reads(ram, pos, WordsFor(items, base, NonBasic(nbop, p)))
    ensures Disassembled(ram, pos) == Expected(items, base, NonBasic(nbop, p))
  {
    var words, wa := WordsFor(items, base, NonBasic(nbop, p)), WordFor(items, base, p);
    CodesFit(p, 64);
    assert ReadsAt(ram, pos, words, 0);
    assert wa.Some? ==> ReadsAt(ram, pos, words, 1);
    FieldsReadBack(ram, pos, OP_NONBASIC, nbop, CodeOf(p), wa, None);
  }

  /** The words of one instruction in memory read back as the instruction. */
  lemma {:induction false} OneReadsBack(items: seq<Item>, base: Word, x: Instruction, ram: Ram, pos: nat)
    requires IsInstruction(x) && Reads(ram, pos, WordsFor(items, base, x))
    ensures Disassembled(ram, pos) == Expected(items, base, x)
  {
    match x
    case Basic(op, p, q) => BasicReadsBack(items, base, op, p, q, ram, pos);
    case NonBasic(nbop, p) => NonBasicReadsBack(items, base, nbop, p, ram, pos);
  }

  lemma {:induction false} ExpectedSize(items: seq<Item>, base: Word, x: Instruction)
    ensures Expected(items, base, x).size == |WordsFor(items, base, x)|
  {
  }

  // ----- The whole program -----

  /** The words of a line. */
  function LineWords(items: seq<Item>, base: Word, line: Line): seq<Word> {
    match line
    case InstructionLine(x) => WordsFor(items, base, x)
    case _ => ItemWords(items, base, Emit(line))
  }

  /** The words of the first `k` lines. */
  function AllWords(items: seq<Item>, base: Word, lines: seq<Line>, k: nat): seq<Word>
    requires k <= |lines|
  {
    if k == 0 then [] else AllWords(items, base, lines, k - 1) + LineWords(items, base, lines[k - 1])
  }

  /** The words of items, one by one. */
  function ItemWords(items: seq<Item>, base: Word, part: seq<Item>): seq<Word> {
    if part == [] then []
    else
      var rest, last := ItemWords(items, base, part[..|part| - 1]), part[|part| - 1];
      if IsWord(last) then rest + [AssemblyMeaning.WordOf(items, base, last)] else rest
  }

  lemma {:induction false} ItemWordsAppend(items: seq<Item>, base: Word, p: seq<Item>, q: seq<Item>)
    ensures ItemWords(items, base, p + q) == ItemWords(items, base, p) + ItemWords(items, base, q)
  {
    if q == [] {
      assert p + q == p;
    } else {
      ItemWordsAppend(items, base, p, q[..|q| - 1]);
      assert (p + q)[..|p + q| - 1] == p + q[..|q| - 1];
    }
  }

  lemma {:induction false} OperandWords(items: seq<Item>, base: Word, p: Parameter)
    ensures ItemWords(items, base, OperandItems(p)) == Listed(WordFor(items, base, p))
  {
    if Operand(p).Some? {
      assert OperandItems(p)[..0] == [];
    }
  }

  lemma {:induction false} OneItem(items: seq<Item>, base: Word, item: Item)
    ensures ItemWords(items, base, [item]) == if IsWord(item) then [AssemblyMeaning.WordOf(items, base, item)] else []
  {
    assert [item][..0] == [];
  }

  /** What a line emits are the words of the line. */
  lemma {:induction false} EmittedLine(items: seq<Item>, base: Word, line: Line)
    ensures ItemWords(items, base, Emit(line)) == LineWords(items, base, line)
  {
    match line
    case InstructionLine(x) =>
      match x {
        case Basic(op, p, q) =>
          var head := Opcode(op, CodeOf(p), CodeOf(q));
          OneItem(items, base, head);
          OperandWords(items, base, p);
          OperandWords(items, base, q);
          ItemWordsAppend(items, base, [head], OperandItems(q));
          ItemWordsAppend(items, base, [head] + OperandItems(q), OperandItems(p));
        case NonBasic(nbop, p) =>
          var head := Opcode(OP_NONBASIC, nbop, CodeOf(p));
          OneItem(items, base, head);
          OperandWords(items, base, p);
          ItemWordsAppend(items, base, [head], OperandItems(p));
      }
    case _ =>
  }

  lemma {:induction false} NoWords(items: seq<Item>, base: Word, line: Line)
    requires IsCode(line) && !line.InstructionLine?
    ensures LineWords(items, base, line) == []
  {
    OneItem(items, base, if line.LabelLine? then Definition(line.name) else line.directive);
  }

  lemma {:induction false} Regroup(a: seq<Item>, b: seq<Item>, c: seq<Item>)
    ensures a + b + c == a + (b + c)
  {
  }

  lemma {:induction false} EmitNext(lines: seq<Line>, k: nat, n: nat, line: Line, front: seq<Item>)
    requires k < n == k + 1 <= |lines| && lines[k] == line && EmitAll(lines, k) == front
    ensures EmitAll(lines, n) == front + Emit(line)
  {
  }

  lemma {:induction false} AllWordsNext(items: seq<Item>, base: Word, lines: seq<Line>, k: nat, n: nat, line: Line)
    requires k < n == k + 1 <= |lines| && lines[k] == line
    ensures AllWords(items, base, lines, n) == AllWords(items, base, lines, k) + LineWords(items, base, line)
  {
  }

  lemma {:induction false} EmittedOn(items: seq<Item>, base: Word, front: seq<Item>, back: seq<Item>, all: seq<Item>,
          words: seq<Word>, more: seq<Word>)
    requires ItemWords(items, base, front) == words && ItemWords(items, base, back) == more && all == front + back
    ensures ItemWords(items, base, all) == words + more
  {
    ItemWordsAppend(items, base, front, back);
  }

  lemma {:induction false} EmittedLines(items: seq<Item>, base: Word, lines: seq<Line>, k: nat)
    requires k <= |lines|
    ensures ItemWords(items, base, EmitAll(lines, k)) == AllWords(items, base, lines, k)
  {
    for i := 0 to k
      invariant ItemWords(items, base, EmitAll(lines, i)) == AllWords(items, base, lines, i)
    {
      var front, line := EmitAll(lines, i), lines[i];
      EmitNext(lines, i, i + 1, line, front);
      AllWordsNext(items, base, lines, i, i + 1, line);
      EmittedLine(items, base, line);
      EmittedOn(items, base, front, Emit(line), EmitAll(lines, i + 1), AllWords(items, base, lines, i),
                LineWords(items, base, line));
    }
  }

  /** The assembled words are those of the items, one by one. */
  lemma {:induction false} AssembledItems(items: seq<Item>, base: Word, raws: seq<Option<Word>>, k: nat)
    requires k <= |items| && |raws| == |items| &&
             forall i :: 0 <= i < |items| ==> raws[i] == RawOf(items, base, items[i])
    ensures Emitted(items, raws, k) == ItemWords(items, base, items[..k])
  {
    for n := 0 to k
      invariant Emitted(items, raws, n) == ItemWords(items, base, items[..n])
    {
      NextEmitted(items, raws, n, n + 1, items[n], RawOf(items, base, items[n]));
      ItemAssembled(items, base, items[..n], items[..n + 1], items[n], Emitted(items, raws, n));
    }
  }

  lemma {:induction false} ItemAssembled(items: seq<Item>, base: Word, front: seq<Item>, part: seq<Item>, item: Item,
          words: seq<Word>)
    requires part == front + [item] && words == ItemWords(items, base, front)
    ensures ItemWords(items, base, part) == words + Emission(item, RawOf(items, base, item))
  {
    assert part[..|part| - 1] == front;
    EmissionIsWord(items, base, item);
  }

  lemma {:induction false} NextEmitted(items: seq<Item>, raws: seq<Option<Word>>, n: nat, k: nat, item: Item,
          raw: Option<Word>)
    requires n < k == n + 1 <= |items| && k <= |raws| && item == items[n] && raw == raws[n]
    ensures Emitted(items, raws, k) == Emitted(items, raws, n) + Emission(item, raw)
  {
  }

  lemma {:induction false} NextWords(items: seq<Item>, base: Word, front: seq<Item>, part: seq<Item>, item: Item)
    requires part == front + [item]
    ensures ItemWords(items, base, part) ==
            ItemWords(items, base, front) + if IsWord(item) then [AssemblyMeaning.WordOf(items, base, item)] else []
  {
    assert part[..|part| - 1] == front;
  }

  lemma {:induction false} AssembledLines(lines: seq<Line>, base: Word, intermediate: bool)
    requires Assembled(EmitAll(lines, |lines|), base, intermediate).Some?
    ensures Assembled(EmitAll(lines, |lines|), base, intermediate).value.words ==
            AllWords(EmitAll(lines, |lines|), base, lines, |lines|)
  {
    var items := EmitAll(lines, |lines|);
    PassRuns(items, base, intermediate, |items|);
    AssembledItems(items, base, Pass(items, base, intermediate, |items|).value.raws, |items|);
    assert items[..|items|] == items;
    EmittedLines(items, base, lines, |lines|);
  }

  lemma {:induction false} ReadsParts(ram: Ram, pos: nat, front: seq<Word>, back: seq<Word>)
    requires Reads(ram, pos, front + back)
    ensures Reads(ram, pos, front) && Reads(ram, pos + |front|, back)
  {
    forall i | 0 <= i < |front| ensures ReadsAt(ram, pos, front, i) {
      assert ReadsAt(ram, pos, front + back, i);
    }
    var behind := pos + |front|;
    forall i | 0 <= i < |back| ensures ReadsAt(ram, behind, back, i) {
      assert ReadsAt(ram, pos, front + back, |front| + i);
    }
  }

  /** Step `i` of a walk reads `ds[i]` at `ps[i]` and goes on behind it. */
  ghost predicate StepAt(ram: Ram, ps: seq<nat>, ds: seq<Decoded>, i: nat)
    requires i < |ds| && |ps| == |ds| + 1
  {
    Disassembled(ram, ps[i]) == ds[i] && ps[i + 1] == ps[i] + ds[i].size
  }

  /** The places and the results of a walk. */
  ghost predicate Walked(ram: Ram, pos: nat, ps: seq<nat>, ds: seq<Decoded>) {
    && |ps| == |ds| + 1 && ps[0] == pos
    && forall i :: 0 <= i < |ds| ==> StepAt(ram, ps, ds, i)
  }

  lemma {:induction false} StepIsWalk(ram: Ram, pos: nat, n: nat, at: nat, d: Decoded, size: nat)
    requires WalkTo(ram, pos, n) == at && Disassembled(ram, at) == d && d.size == size
    ensures Walk(ram, pos, n + 1) == Walk(ram, pos, n) + [d] && WalkTo(ram, pos, n + 1) == at + size
  {
  }

  lemma {:induction false} WalkedIsWalk(ram: Ram, pos: nat, ps: seq<nat>, ds: seq<Decoded>, n: nat)
    requires Walked(ram, pos, ps, ds) && n <= |ds|
    ensures Walk(ram, pos, n) == ds[..n] && WalkTo(ram, pos, n) == ps[n]
  {
    if n > 0 {
      WalkedIsWalk(ram, pos, ps, ds, n - 1);
      assert StepAt(ram, ps, ds, n - 1);
      StepIsWalk(ram, pos, n - 1, ps[n - 1], ds[n - 1], ds[n - 1].size);
    }
  }

  lemma {:induction false} WalkedGrows(ram: Ram, pos: nat, ps: seq<nat>, ds: seq<Decoded>, d: Decoded, end: nat)
    requires Walked(ram, pos, ps, ds) && Disassembled(ram, ps[|ds|]) == d && end == ps[|ds|] + d.size
    ensures Walked(ram, pos, ps + [end], ds + [d])
  {
    forall i | 0 <= i < |ds + [d]| ensures StepAt(ram, ps + [end], ds + [d], i) {
      if i < |ds| { assert StepAt(ram, ps, ds, i); }
    }
  }

  /** One more instruction read back. */
  lemma {:induction false} WalkLine(items: seq<Item>, base: Word, x: Instruction, ram: Ram, pos: nat, ps: seq<nat>,
          ds: seq<Decoded>, size: nat)
    returns (end: nat)
    requires Walked(ram, pos, ps, ds) && IsInstruction(x) && ps[|ds|] == pos + size
    requires Reads(ram, pos + size, WordsFor(items, base, x))
    ensures Walked(ram, pos, ps + [end], ds + [Expected(items, base, x)])
    ensures end == pos + size + |WordsFor(items, base, x)|
  {
    OneReadsBack(items, base, x, ram, pos + size);
    ExpectedSize(items, base, x);
    end := pos + size + |WordsFor(items, base, x)|;
    WalkedGrows(ram, pos, ps, ds, Expected(items, base, x), end);
  }

  /** The walk has read the first `k` lines back. */
  ghost predicate LinesWalked(items: seq<Item>, base: Word, lines: seq<Line>, k: nat, ram: Ram, pos: nat, ps: seq<nat>)
    requires k <= |lines|
  {
    && Walked(ram, pos, ps, AllExpected(items, base, lines, k))
    && ps[|ps| - 1] == pos + |AllWords(items, base, lines, k)|
  }

  lemma {:induction false} InstructionStep(items: seq<Item>, base: Word, x: Instruction, ram: Ram, pos: nat,
          ps: seq<nat>,
                                           ds: seq<Decoded>, ds': seq<Decoded>, size: nat, size': nat)
    returns (qs: seq<nat>)
    requires Walked(ram, pos, ps, ds) && ps[|ps| - 1] == pos + size && IsInstruction(x)
    requires Reads(ram, pos + size, WordsFor(items, base, x))
    requires ds' == ds + [Expected(items, base, x)] && size' == size + |WordsFor(items, base, x)|
    ensures Walked(ram, pos, qs, ds') && qs[|qs| - 1] == pos + size'
  {
    var end := WalkLine(items, base, x, ram, pos, ps, ds, size);
    qs := ps + [end];
  }

  lemma {:induction false} LinesStep(items: seq<Item>, base: Word, last: Line, ram: Ram, pos: nat, ps: seq<nat>,
                                     ds: seq<Decoded>, ds': seq<Decoded>, size: nat, size': nat)
    returns (qs: seq<nat>)
    requires Walked(ram, pos, ps, ds) && ps[|ps| - 1] == pos + size && IsCode(last)
    requires Reads(ram, pos + size, LineWords(items, base, last)) && size' == size + |LineWords(items, base, last)|
    requires ds' == ds + if last.InstructionLine? then [Expected(items, base, last.instruction)] else []
    ensures Walked(ram, pos, qs, ds') && qs[|qs| - 1] == pos + size'
  {
    if last.InstructionLine? {
      qs := InstructionStep(items, base, last.instruction, ram, pos, ps, ds, ds', size, size');
    } else {
      NoWords(items, base, last);
      assert ds' == ds;
      qs := ps;
    }
  }

  lemma {:induction false} ReadsPrefix(items: seq<Item>, base: Word, lines: seq<Line>, k: nat, ram: Ram, pos: nat)
    requires k <= |lines| && Reads(ram, pos, AllWords(items, base, lines, |lines|))
    ensures Reads(ram, pos, AllWords(items, base, lines, k))
  {
    for i := |lines| downto k
      invariant Reads(ram, pos, AllWords(items, base, lines, i))
    {
      ReadsParts(ram, pos, AllWords(items, base, lines, i), LineWords(items, base, lines[i]));
    }
  }

  lemma {:induction false} ExpectedNext(items: seq<Item>, base: Word, lines: seq<Line>, k: nat, n: nat, line: Line)
    requires k < n == k + 1 <= |lines| && lines[k] == line
    ensures AllExpected(items, base, lines, n) == AllExpected(items, base, lines, k) +
                                                  if line.InstructionLine?
                                                  then [Expected(items, base, line.instruction)] else []
  {
  }

  lemma {:induction false} NextLine(items: seq<Item>, base: Word, lines: seq<Line>, k: nat, n: nat, ram: Ram, pos: nat,
          ps: seq<nat>, front: seq<Word>, line: seq<Word>) returns (qs: seq<nat>)
    requires k < n == k + 1 <= |lines| && LinesWalked(items, base, lines, k, ram, pos, ps) && IsCode(lines[k])
    requires front == AllWords(items, base, lines, k) && line == LineWords(items, base, lines[k])
    requires Reads(ram, pos, front + line)
    ensures LinesWalked(items, base, lines, n, ram, pos, qs)
  {
    AllWordsNext(items, base, lines, k, n, lines[k]);
    ExpectedNext(items, base, lines, k, n, lines[k]);
    ReadsParts(ram, pos, front, line);
    qs := LinesStep(items, base, lines[k], ram, pos, ps, AllExpected(items, base, lines, k),
                    AllExpected(items, base, lines, n), |front|, |front| + |line|);
  }

  lemma {:induction false} WalkLines(items: seq<Item>, base: Word, lines: seq<Line>, ram: Ram, pos: nat)
    returns (ps: seq<nat>)
    requires forall i :: 0 <= i < |lines| ==> IsCode(lines[i])
    requires Reads(ram, pos, AllWords(items, base, lines, |lines|))
    ensures LinesWalked(items, base, lines, |lines|, ram, pos, ps)
  {
    ps := [pos];
    for k := 0 to |lines|
      invariant LinesWalked(items, base, lines, k, ram, pos, ps)
    {
      ps := WalkOn(items, base, lines, k, k + 1, ram, pos, ps);
    }
  }

  lemma {:induction false} WalkOn(items: seq<Item>, base: Word, lines: seq<Line>, k: nat, n: nat, ram: Ram, pos: nat,
          ps: seq<nat>) returns (qs: seq<nat>)
    requires k < n == k + 1 <= |lines| && LinesWalked(items, base, lines, k, ram, pos, ps) && IsCode(lines[k])
    requires Reads(ram, pos, AllWords(items, base, lines, |lines|))
    ensures LinesWalked(items, base, lines, n, ram, pos, qs)
  {
    ReadsPrefix(items, base, lines, n, ram, pos);
    AllWordsNext(items, base, lines, k, n, lines[k]);
    qs := NextLine(items, base, lines, k, n, ram, pos, ps, AllWords(items, base, lines, k),
                   LineWords(items, base, lines[k]));
  }

  lemma {:induction false} WalkBack(items: seq<Item>, base: Word, lines: seq<Line>, ram: Ram, pos: nat,
          words: seq<Word>) returns (n: nat)
    requires forall i :: 0 <= i < |lines| ==> IsCode(lines[i])
    requires words == AllWords(items, base, lines, |lines|) && Reads(ram, pos, words)
    ensures Walk(ram, pos, n) == AllExpected(items, base, lines, |lines|) && WalkTo(ram, pos, n) == pos + |words|
  {
    var ds := AllExpected(items, base, lines, |lines|);
    var ps := WalkLines(items, base, lines, ram, pos);
    n := |ds|;
    WalkedIsWalk(ram, pos, ps, ds, n);
    assert ds[..n] == ds;
  }

  /**
   Encoding and decoding undo each other: the words of any list of lines, put into memory anywhere and
   walked by the disassembler from the start, give back exactly the opcodes, operand codes and next words
   of the instructions in order, and the walk ends behind the last word.
   */
  lemma {:induction false} DisassemblyUndoesAssembly(lines: seq<Line>, base: Word, intermediate: bool, o: Object,
          ram: Ram, pos: nat) returns (n: nat)
    requires forall i :: 0 <= i < |lines| ==> IsCode(lines[i])
    requires Assembled(EmitAll(lines, |lines|), base, intermediate) == Some(o) && Reads(ram, pos, o.words)
    ensures Walk(ram, pos, n) == AllExpected(EmitAll(lines, |lines|), base, lines, |lines|)
    ensures WalkTo(ram, pos, n) == pos + |o.words|
  {
    AssembledLines(lines, base, intermediate);
    n := WalkBack(EmitAll(lines, |lines|), base, lines, ram, pos, o.words);
  }
}
