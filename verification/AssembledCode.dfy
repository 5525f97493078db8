/**
 The assembler and the machine together: what is written in a source line (libdcpu-ci-asm/assem.c) is what the
 machine (libdcpu-vm/vm.c) finds at the address of the line.
 */
module AssembledCode {
  import opened Words
  import opened Dcpu
  import opened Expressions
  import opened Assembly
  import opened AssemblyMeaning
  import opened Machine
  import opened Operands
  import opened Instructions
  import opened SpecialInstructions
  import opened AssemblerHalts
  import E = Encoding
  import Skipping

  // ----- Operands -----

  /** The operand that a parameter means; `w` is the value of its label or expression. */
  function Meant(p: E.Parameter, w: Option<Word>): Mode
    requires E.IsParameter(p, 64) && (E.Operand(p).Some? <==> w.Some?)
  {
    match p
    case LabelName(_, bracketed) => if bracketed then At(w.value) else Literal(w.value)
    case Address(_, bracketed) => if bracketed then At(w.value) else Literal(w.value)
    case Indexed(_, c) => if c == PICK then Pick(w.value) else AtRegPlus(c - 0x10, w.value)
    case Known(c) =>
      if c < 0x08 then Reg(c)
      else if c < 0x10 then AtReg(c - 0x08)
      else if c == 0x18 then Stack
      else if c == 0x19 then Operands.Peek
      else if c == 0x1B then OfSp
      else if c == 0x1C then OfPc
      else if c == 0x1D then OfEx
      else Small(if c == 0x20 then 0xFFFF else c - 0x21)
  }

  lemma {:induction false} MeantIsMode(p: E.Parameter, w: Option<Word>, pos: Position)
    requires E.IsParameter(p, if pos == PosA then 64 else 32) && (E.Operand(p).Some? <==> w.Some?)
    ensures E.IsParameter(p, 64) && IsMode(Meant(p, w), pos) && CodeOf(Meant(p, w)) == E.CodeOf(p)
    ensures HasNext(Meant(p, w)) <==> w.Some?
    ensures w.Some? ==> Meant(p, w).n == w.value
  {
  }

  /** The operand that a parameter of the program means. */
  function MeantIn(items: seq<Item>, base: Word, p: E.Parameter): Mode
    requires E.IsParameter(p, 64)
  {
    Meant(p, E.WordFor(items, base, p))
  }

  // ----- Instructions -----

  lemma {:induction false} BasicStands(s: State, op: Word, p: E.Parameter, q: E.Parameter, wp: Option<Word>,
          wq: Option<Word>)
    requires E.IsInstruction(E.Basic(op, p, q)) && !s.skip
    requires (E.Operand(p).Some? <==> wp.Some?) && (E.Operand(q).Some? <==> wq.Some?)
    requires s.ram[s.pc] == Create(op, E.CodeOf(p), E.CodeOf(q))
    requires wq.Some? ==> s.ram[Wrap(s.pc + 1)] == wq.value
    requires wp.Some? ==> s.ram[Wrap(s.pc + if wq.Some? then 2 else 1)] == wp.value
    ensures E.IsParameter(p, 64) && Stands(s, op, Meant(p, wp), Meant(q, wq))
  {
    MeantIsMode(p, wp, PosB);
    MeantIsMode(q, wq, PosA);
    Skipping.WrapTwice(s.pc + 1, 1);
  }

  lemma {:induction false} NonBasicStands(s: State, nbop: Word, p: E.Parameter, w: Option<Word>)
    requires E.IsInstruction(E.NonBasic(nbop, p)) && !s.skip && (E.Operand(p).Some? <==> w.Some?)
    requires s.ram[s.pc] == Create(OP_NONBASIC, nbop, E.CodeOf(p))
    requires w.Some? ==> s.ram[Wrap(s.pc + 1)] == w.value
    ensures StandsSpecial(s, nbop, Meant(p, w))
  {
    MeantIsMode(p, w, PosA);
  }

  /** The machine is about to execute this instruction. */
  ghost predicate IsNext(s: State, items: seq<Item>, base: Word, x: E.Instruction)
    requires E.IsInstruction(x)
  {
    match x
    case Basic(op, p, q) => E.IsParameter(p, 64) && Stands(s, op, MeantIn(items, base, p), MeantIn(items, base, q))
    case NonBasic(nbop, p) => StandsSpecial(s, nbop, MeantIn(items, base, p))
  }

  lemma {:induction false} WordIsThere(s: State, words: seq<Word>, i: nat)
    requires E.Reads(s.ram, s.pc, words) && i < |words| && s.pc + |words| <= 0x10000
    ensures s.ram[Wrap(s.pc + i)] == words[i]
  {
    assert E.ReadsAt(s.ram, s.pc, words, i);
  }

  lemma {:induction false} InstructionIsNext(s: State, items: seq<Item>, base: Word, x: E.Instruction)
    requires E.IsInstruction(x) && !s.skip && E.Reads(s.ram, s.pc, E.WordsFor(items, base, x))
    requires s.pc + |E.WordsFor(items, base, x)| <= 0x10000
    ensures IsNext(s, items, base, x)
  {
    var words := E.WordsFor(items, base, x);
    WordIsThere(s, words, 0);
    if |words| > 1 { WordIsThere(s, words, 1); }
    if |words| > 2 { WordIsThere(s, words, 2); }
    match x
    case Basic(op, p, q) => BasicStands(s, op, p, q, E.WordFor(items, base, p), E.WordFor(items, base, q));
    case NonBasic(nbop, p) => NonBasicStands(s, nbop, p, E.WordFor(items, base, p));
  }

  // ----- Programs -----

  /** The number of words of the first `k` lines. */
  function PlaceOfLine(lines: seq<E.Line>, k: nat): nat
    requires k <= |lines|
  {
    SizeTo(E.EmitAll(lines, k), |E.EmitAll(lines, k)|)
  }

  lemma {:induction false} WordsOfItems(items: seq<Item>, base: Word, part: seq<Item>)
    ensures |E.ItemWords(items, base, part)| == SizeTo(part, |part|)
  {
    if part != [] {
      WordsOfItems(items, base, part[..|part| - 1]);
      SizeOfPrefix(part[..|part| - 1], part, |part| - 1);
    }
  }

  lemma {:induction false} SizeOfPrefix(front: seq<Item>, items: seq<Item>, k: nat)
    requires k <= |front| <= |items| && front == items[..|front|]
    ensures SizeTo(front, k) == SizeTo(items, k)
  {
    if k > 0 { SizeOfPrefix(front, items, k - 1); }
  }

  lemma {:induction false} ReadsThere(ram: Ram, pos: nat, at: nat, words: seq<Word>)
    requires E.Reads(ram, pos, words) && at == pos
    ensures E.Reads(ram, at, words)
  {
  }

  lemma {:induction false} LineSplits(items: seq<Item>, base: Word, lines: seq<E.Line>, k: nat, n: nat, ram: Ram,
          pos: nat, front: seq<Word>, line: seq<Word>, at: nat)
    requires k < n == k + 1 <= |lines| && E.Reads(ram, pos, E.AllWords(items, base, lines, |lines|))
    requires front == E.AllWords(items, base, lines, k) && line == E.LineWords(items, base, lines[k])
    requires at == pos + PlaceOfLine(lines, k)
    ensures E.Reads(ram, at, line)
    ensures at + |line| == pos + PlaceOfLine(lines, n)
  {
    E.ReadsPrefix(items, base, lines, n, ram, pos);
    E.AllWordsNext(items, base, lines, k, n, lines[k]);
    E.ReadsParts(ram, pos, front, line);
    LineIsThere(items, base, lines, k);
    LineIsThere(items, base, lines, n);
    ReadsThere(ram, pos + |front|, at, line);
  }

  lemma {:induction false} LineIsThere(items: seq<Item>, base: Word, lines: seq<E.Line>, k: nat)
    requires k <= |lines|
    ensures |E.AllWords(items, base, lines, k)| == PlaceOfLine(lines, k)
  {
    E.EmittedLines(items, base, lines, k);
    WordsOfItems(items, base, E.EmitAll(lines, k));
  }

  lemma {:induction false} EmitPrefix(lines: seq<E.Line>, k: nat, n: nat)
    requires k <= n <= |lines|
    ensures |E.EmitAll(lines, k)| <= |E.EmitAll(lines, n)|
    ensures E.EmitAll(lines, n)[..|E.EmitAll(lines, k)|] == E.EmitAll(lines, k)
  {
    if k < n {
      EmitPrefix(lines, k, n - 1);
      EmitNext(E.EmitAll(lines, n - 1), E.Emit(lines[n - 1]), |E.EmitAll(lines, k)|);
    }
  }

  lemma {:induction false} EmitNext(front: seq<Item>, more: seq<Item>, k: nat)
    requires k <= |front|
    ensures (front + more)[..k] == front[..k]
  {
  }

  lemma {:induction false} PlacesGrow(lines: seq<E.Line>, k: nat, n: nat)
    requires k <= n <= |lines|
    ensures PlaceOfLine(lines, k) <= PlaceOfLine(lines, n)
  {
    EmitPrefix(lines, k, n);
    PrefixIsSmaller(E.EmitAll(lines, k), E.EmitAll(lines, n));
  }

  lemma {:induction false} PrefixIsSmaller(front: seq<Item>, items: seq<Item>)
    requires |front| <= |items| && items[..|front|] == front
    ensures SizeTo(front, |front|) <= SizeTo(items, |items|)
  {
    SizeOfPrefix(front, items, |front|);
    SizeMonotone(items, |front|, |items|);
  }

  /** Memory holds an assembled program from `pos` on. */
  ghost predicate InMemory(lines: seq<E.Line>, base: Word, o: Object, ram: Ram, pos: nat) {
    && (exists intermediate :: Assembled(E.EmitAll(lines, |lines|), base, intermediate) == Some(o))
    && E.Reads(ram, pos, o.words) && pos + PlaceOfLine(lines, |lines|) <= 0x10000
  }

  lemma {:induction false} HoldsLines(lines: seq<E.Line>, base: Word, o: Object, ram: Ram, pos: nat)
    requires InMemory(lines, base, o, ram, pos)
    ensures o.words == E.AllWords(E.EmitAll(lines, |lines|), base, lines, |lines|)
  {
    var intermediate :| Assembled(E.EmitAll(lines, |lines|), base, intermediate) == Some(o);
    E.AssembledLines(lines, base, intermediate);
  }

  lemma {:induction false} WordsAreThere(lines: seq<E.Line>, base: Word, o: Object, pos: nat, k: nat, n: nat, ram: Ram,
          words: seq<Word>, at: nat)
    requires k < n == k + 1 <= |lines| && InMemory(lines, base, o, ram, pos)
    requires words == E.LineWords(E.EmitAll(lines, |lines|), base, lines[k]) && at == pos + PlaceOfLine(lines, k)
    ensures E.Reads(ram, at, words) && at + |words| <= 0x10000
  {
    var items := E.EmitAll(lines, |lines|);
    HoldsLines(lines, base, o, ram, pos);
    LineSplits(items, base, lines, k, n, ram, pos, E.AllWords(items, base, lines, k), words, at);
    PlacesGrow(lines, n, |lines|);
  }

  /**
   An assembled program in memory: when the machine comes to the place of an instruction line, without skipping, it
   is about to execute the instruction of the line, with the operands that its parameters mean.
   */
  lemma {:induction false} LineIsNext(lines: seq<E.Line>, base: Word, o: Object, pos: nat, k: nat, x: E.Instruction,
          s: State)
    requires k < |lines| && lines[k] == E.InstructionLine(x) && E.IsInstruction(x)
    requires InMemory(lines, base, o, s.ram, pos) && s.pc == pos + PlaceOfLine(lines, k) && !s.skip
    ensures IsNext(s, E.EmitAll(lines, |lines|), base, x)
  {
    var items := E.EmitAll(lines, |lines|);
    WordsAreThere(lines, base, o, pos, k, k + 1, s.ram, E.WordsFor(items, base, x), s.pc);
    InstructionIsNext(s, items, base, x);
  }

  // ----- Jumps -----

  /** Line `k` is the first that defines the label. */
  ghost predicate Labels(lines: seq<E.Line>, name: string, k: nat) {
    && k < |lines| && lines[k] == E.LabelLine(name)
    && Definition(name) !in E.EmitAll(lines, k)
  }

  lemma {:induction false} LabelIsFirst(lines: seq<E.Line>, name: string, k: nat, items: seq<Item>, place: nat)
    returns (n: nat)
    requires Labels(lines, name, k) && items == E.EmitAll(lines, |lines|) && place == PlaceOfLine(lines, k)
    ensures IsFirst(items, name, n) && SizeTo(items, n) == place
  {
    n := |E.EmitAll(lines, k)|;
    EmitPrefix(lines, k, |lines|);
    EmitPrefix(lines, k + 1, |lines|);
    DefinitionIsFirst(E.EmitAll(lines, k), E.EmitAll(lines, k + 1), name, items);
    SizeOfPrefix(E.EmitAll(lines, k), items, n);
  }

  lemma {:induction false} DefinitionIsFirst(front: seq<Item>, next: seq<Item>, name: string, items: seq<Item>)
    requires next == front + [Definition(name)] && Definition(name) !in front
    requires |next| <= |items| && items[..|next|] == next && items[..|front|] == front
    ensures IsFirst(items, name, |front|)
  {
    assert items[..|next|][|front|] == items[|front|];
  }

  lemma {:induction false} LabelIsMeant(items: seq<Item>, base: Word, name: string, n: nat, bracketed: bool,
          place: nat, w: Word)
    requires IsFirst(items, name, n) && !AssemblerHalts.IsImported(items, name)
    requires SizeTo(items, n) == place && w == Wrap(base + place)
    ensures MeantIn(items, base, E.LabelName(name, bracketed)) == if bracketed then At(w) else Literal(w)
  {
    AddressIsFirst(items, base, name, n);
    FindsImport(items, name);
  }

  /** The label is defined at line `k`, not imported, and `w` is the address of the line. */
  ghost predicate IsAddress(lines: seq<E.Line>, items: seq<Item>, base: Word, name: string, k: nat, w: Word) {
    && items == E.EmitAll(lines, |lines|) && Labels(lines, name, k) && !AssemblerHalts.IsImported(items, name)
    && w == Wrap(base + PlaceOfLine(lines, k))
  }

  /** A label that is not imported means the place of its line. */
  lemma {:induction false} LabelMeansLine(lines: seq<E.Line>, items: seq<Item>, base: Word, name: string, k: nat,
          bracketed: bool, w: Word)
    requires IsAddress(lines, items, base, name, k, w)
    ensures MeantIn(items, base, E.LabelName(name, bracketed)) == if bracketed then At(w) else Literal(w)
  {
    var place := PlaceOfLine(lines, k);
    var n := LabelIsFirst(lines, name, k, items, place);
    LabelIsMeant(items, base, name, n, bracketed, place, w);
  }

  lemma {:induction false} JumpIsNext(s: State, items: seq<Item>, base: Word, name: string, w: Word)
    requires IsNext(s, items, base, E.Basic(OP_SET, E.Known(PC), E.LabelName(name, false)))
    requires MeantIn(items, base, E.LabelName(name, false)) == Literal(w)
    ensures Stands(s, OP_SET, OfPc, Literal(w))
  {
  }

  lemma {:induction false} PcIsSet(s: State, w: Word)
    ensures Written(SourceRead(s, Literal(w)), OfPc, PosB, SourceValue(s, Literal(w))) ==
            s.(pc := w, sleep := Wrap(s.sleep + 1))
  {
  }

  lemma {:induction false} Jumps(s: State, w: Word)
    requires Stands(s, OP_SET, OfPc, Literal(w))
    ensures Execute(s) == Some((s.(pc := w, sleep := Wrap(s.sleep + 1)), []))
  {
    SetMoves(s, OfPc, Literal(w));
    PcIsSet(s, w);
  }

  /** The machine has come to line `j`, a SET PC, label. */
  ghost predicate AtJump(lines: seq<E.Line>, base: Word, o: Object, j: nat, name: string, s: State) {
    && j < |lines| && lines[j] == E.InstructionLine(E.Basic(OP_SET, E.Known(PC), E.LabelName(name, false)))
    && InMemory(lines, base, o, s.ram, base) && s.pc == base + PlaceOfLine(lines, j) && !s.skip
  }

  lemma {:induction false} JumpIsMade(lines: seq<E.Line>, items: seq<Item>, base: Word, o: Object, j: nat, name: string,
          s: State, w: Word)
    requires items == E.EmitAll(lines, |lines|) && MeantIn(items, base, E.LabelName(name, false)) == Literal(w)
    requires AtJump(lines, base, o, j, name, s)
    ensures Execute(s) == Some((s.(pc := w, sleep := Wrap(s.sleep + 1)), []))
  {
    LineIsNext(lines, base, o, base, j, E.Basic(OP_SET, E.Known(PC), E.LabelName(name, false)), s);
    JumpIsNext(s, items, base, name, w);
    Jumps(s, w);
  }

  /** SET PC, label: the machine comes to the line of the label, if the program is where it was assembled for. */
  lemma {:induction false} JumpReachesLabel(lines: seq<E.Line>, items: seq<Item>, base: Word, o: Object, j: nat,
          name: string, k: nat, s: State, w: Word)
    requires IsAddress(lines, items, base, name, k, w) && AtJump(lines, base, o, j, name, s)
    ensures Execute(s) == Some((s.(pc := w, sleep := Wrap(s.sleep + 1)), []))
  {
    LabelMeansLine(lines, items, base, name, k, false, w);
    JumpIsMade(lines, items, base, o, j, name, s, w);
  }

  // ----- Texts -----

  lemma {:induction false} NextDatum(data: seq<E.Datum>, d: nat, n: nat, front: seq<Item>, more: seq<Item>)
    requires d < n == d + 1 <= |data| && front == E.DataItems(data, d) && more == E.DatumItems(data[d])
    ensures E.DataItems(data, n) == front + more
  {
  }

  /** `all` begins with these two parts. */
  ghost predicate Splits(all: seq<Item>, front: seq<Item>, middle: seq<Item>, back: seq<Item>) {
    all == front + (middle + back)
  }

  lemma {:induction false} DataSplits(data: seq<E.Datum>, d: nat, n: nat, front: seq<Item>, middle: seq<Item>)
    returns (all: seq<Item>, back: seq<Item>)
    requires d < n <= |data| && front == E.DataItems(data, d) && middle == E.DatumItems(data[d])
    ensures all == E.DataItems(data, n) && Splits(all, front, middle, back)
  {
    if n == d + 1 {
      all, back := front + middle, [];
      NextDatum(data, d, n, front, middle);
    } else {
      var m := n - 1;
      all, back := DataSplits(data, d, m, front, middle);
      var more := E.DatumItems(data[m]);
      NextDatum(data, m, n, all, more);
      all, back := SplitsOn(all, front, middle, back, more);
    }
  }

  lemma {:induction false} SplitsOn(all: seq<Item>, front: seq<Item>, middle: seq<Item>, back: seq<Item>,
          more: seq<Item>) returns (all': seq<Item>, back': seq<Item>)
    requires Splits(all, front, middle, back)
    ensures all' == all + more && Splits(all', front, middle, back')
  {
    all', back' := all + more, back + more;
  }

  lemma {:induction false} CharacterWords(items: seq<Item>, base: Word, text: string, part: seq<Item>, i: nat)
    requires i < |part| <= |text| && part == E.Characters(text)[..|part|]
    ensures |E.ItemWords(items, base, part)| == |part| && E.ItemWords(items, base, part)[i] == text[i] as int % 256
  {
    var last := |part| - 1;
    assert part[..last] == E.Characters(text)[..last];
    if i < last { CharacterWords(items, base, text, part[..last], i); }
    else if last > 0 { CharacterWords(items, base, text, part[..last], 0); }
  }

  /** The words of `front`, of a text and of what comes behind it. */
  lemma {:induction false} TextWords(items: seq<Item>, base: Word, front: seq<Item>, text: string, back: seq<Item>,
          all: seq<Item>, i: nat, place: nat)
    requires i < |text| && Splits(all, front, E.Characters(text), back) && place == SizeTo(front, |front|) + i
    ensures place < |E.ItemWords(items, base, all)|
    ensures E.ItemWords(items, base, all)[place] == text[i] as int % 256
  {
    var middle := E.Characters(text);
    E.ItemWordsAppend(items, base, front, middle + back);
    E.ItemWordsAppend(items, base, middle, back);
    assert middle[..|middle|] == middle;
    CharacterWords(items, base, text, middle, i);
    WordsOfItems(items, base, front);
  }

  /** The number of words of the first `d` parameters of DAT. */
  function PlaceOfDatum(data: seq<E.Datum>, d: nat): nat
    requires d <= |data|
  {
    SizeTo(E.DataItems(data, d), |E.DataItems(data, d)|)
  }

  lemma {:induction false} LineHasText(items: seq<Item>, base: Word, data: seq<E.Datum>, d: nat, text: string, i: nat,
          words: seq<Word>, place: nat)
    requires d < |data| && data[d] == E.Text(text) && i < |text|
    requires words == E.LineWords(items, base, E.DataLine(data)) && place == PlaceOfDatum(data, d) + i
    ensures place < |words| && words[place] == text[i] as int % 256
  {
    var all, back := DataSplits(data, d, |data|, E.DataItems(data, d), E.Characters(text));
    TextWords(items, base, E.DataItems(data, d), text, back, all, i, place);
  }

  lemma {:induction false} PeekIs(ram: Ram, at: nat, words: seq<Word>, place: nat, w: Word)
    requires E.Reads(ram, at, words) && place < |words| && words[place] == w
    ensures E.Peek(ram, at + place) == w
  {
    assert E.ReadsAt(ram, at, words, place);
  }

  /** The characters of a text of DAT are one after another in memory, behind the parameters before it. */
  lemma {:induction false} TextIsThere(lines: seq<E.Line>, base: Word, o: Object, pos: nat, k: nat, data: seq<E.Datum>,
          d: nat, text: string, i: nat, ram: Ram)
    requires k < |lines| && lines[k] == E.DataLine(data) && InMemory(lines, base, o, ram, pos)
    requires d < |data| && data[d] == E.Text(text) && i < |text|
    ensures E.Peek(ram, pos + PlaceOfLine(lines, k) + (PlaceOfDatum(data, d) + i)) == text[i] as int % 256
  {
    var items, at := E.EmitAll(lines, |lines|), pos + PlaceOfLine(lines, k);
    var words, place := E.LineWords(items, base, lines[k]), PlaceOfDatum(data, d) + i;
    WordsAreThere(lines, base, o, pos, k, k + 1, ram, words, at);
    LineHasText(items, base, data, d, text, i, words, place);
    PeekIs(ram, at, words, place, text[i] as int % 256);
  }
}
