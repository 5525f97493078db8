/**
 The assembler's back end (libdcpu-ci-asm/aout.c): what `aout_write` makes of the list of emitted items.
 Entries carry no bin name before the linker loads them.
 */
module Assembly {
  import opened Words
  import opened Dcpu
  import opened Expressions
  import opened BinImages

  /** An item of the output list. Only the first three kinds occupy a word. */
  datatype Item =
    | Raw(word: Word)
    | Opcode(op: Word, b: Word, a: Word)
    | Value(expr: Expr)
    | Definition(name: string)
    | Import(name: string)
    | ImportOptional(name: string)
    | Export(name: string)
    | SectionStart(name: string)
    | OutputPoint(name: string)
    | JumpExport(target: Option<string>)
    | KernelCall(name: string)

  predicate IsWord(item: Item) {
    item.Raw? || item.Opcode? || item.Value?
  }

  predicate IsImport(item: Item) {
    item.Import? || item.ImportOptional?
  }

  /** `aout_get_label_address`: the address of the first definition from item `k` on, which starts at `mem`. */
  function Search(items: seq<Item>, name: string, k: nat, mem: Word): Option<Word>
    requires k <= |items|
    decreases |items| - k
  {
    if k == |items| then None
    else if items[k] == Definition(name) then Some(mem)
    else Search(items, name, k + 1, if IsWord(items[k]) then Wrap(mem + 1) else mem)
  }

  function LabelAddress(items: seq<Item>, base: Word, name: string): Option<Word> {
    Search(items, name, 0, base)
  }

  function Lookup(items: seq<Item>, base: Word): string -> Option<Word> {
    name => LabelAddress(items, base, name)
  }

  /** The first import directive for a label. */
  function FindImport(items: seq<Item>, name: string, k: nat): (r: Option<Item>)
    requires k <= |items|
    ensures r.Some? ==> r.value in items && IsImport(r.value) && r.value.name == name
    ensures r.None? ==> forall i :: k <= i < |items| ==> items[i] != Import(name) && items[i] != ImportOptional(name)
    decreases |items| - k
  {
    if k == |items| then None
    else if IsImport(items[k]) && items[k].name == name then Some(items[k])
    else FindImport(items, name, k + 1)
  }

  predicate HasImport(items: seq<Item>) {
    exists i :: 0 <= i < |items| && IsImport(items[i])
  }

  datatype Tables = Tables(
    provided: seq<Entry>, required: seq<Entry>, adjustment: seq<Entry>, section: seq<Entry>,
    output: seq<Entry>, jump: seq<Entry>, optional: seq<Entry>, call: seq<Entry>)

  const NO_TABLES := Tables([], [], [], [], [], [], [], [])

  function At(symbol: Option<string>, a: int): Entry {
    Entry(symbol, "", Wrap(a))
  }

  /** The state of the evaluation pass: the current address, the tables, whether an output has been met, and
      the evaluated word of every visited item that has one. */
  datatype Progress = Progress(index: nat, tables: Tables, hasOutput: bool, raws: seq<Option<Word>>)

  function Evaluated(p: Progress, raw: Option<Word>, t: Tables): Progress {
    Progress(p.index + 1, t, p.hasOutput, p.raws + [raw])
  }

  function Noted(p: Progress, t: Tables, hasOutput: bool): Progress {
    Progress(p.index, t, hasOutput, p.raws + [None])
  }

  /** A word given by an expression; imported labels come first, and are left to the linker. */
  function VisitValue(items: seq<Item>, base: Word, intermediate: bool, p: Progress, e: Expr): Option<Progress> {
    var value, t := Evaluate(e, Lookup(items, base)), p.tables;
    if e.Ref? && HasImport(items) && !intermediate then None
    else if e.Ref? && FindImport(items, e.name, 0).Some? then
      var entry := At(Some(e.name), p.index);
      Some(Evaluated(p, None,
                     if FindImport(items, e.name, 0).value.Import? then t.(required := [entry] + t.required)
                     else t.(optional := [entry] + t.optional)))
    else
      match value
      case None => None
      case Some(w) =>
        Some(Evaluated(p, value, if e.Ref? then t.(adjustment := [At(None, p.index)] + t.adjustment) else t))
  }

  /** The address and the symbol a directive records, if any. */
  function Recorded(items: seq<Item>, base: Word, index: nat, item: Item): Option<(Option<string>, Word)> {
    match item
    case SectionStart(n) => Some((Some(n), Wrap(index)))
    case OutputPoint(n) => Some((Some(n), Wrap(index)))
    case KernelCall(n) => Some((Some(n), Wrap(index)))
    case Export(n) => (match LabelAddress(items, base, n) case None => None case Some(a) => Some((Some(n), a)))
    case JumpExport(t) =>
      if t.None? then Some((t, Wrap(index)))
      else (match LabelAddress(items, base, t.value) case None => None case Some(a) => Some((t, a)))
    case _ => Some((None, 0))
  }

  /** The tables with the entry of a directive. */
  function Added(t: Tables, item: Item, e: Entry): Tables {
    match item
    case SectionStart(_) => t.(section := [e] + t.section)
    case OutputPoint(_) => t.(output := [e] + t.output)
    case KernelCall(_) => t.(call := [e] + t.call)
    case Export(_) => t.(provided := [e] + t.provided)
    case JumpExport(_) => t.(jump := [e] + t.jump)
    case _ => t
  }

  function VisitDirective(items: seq<Item>, base: Word, p: Progress, item: Item): Option<Progress>
    requires !IsWord(item)
  {
    match Recorded(items, base, p.index, item)
    case None => None
    case Some((symbol, a)) =>
      if item.SectionStart? && p.hasOutput then None
      else Some(Noted(p, Added(p.tables, item, At(symbol, a)), p.hasOutput || item.OutputPoint? || item.KernelCall?))
  }

  /** Directives that need an object file to be written. */
  predicate NeedsObject(item: Item) {
    item.Export? || item.SectionStart? || item.OutputPoint? || item.JumpExport? || item.KernelCall?
  }

  /** One item of the evaluation pass; none when the assembler halts. */
  function Visit(items: seq<Item>, base: Word, intermediate: bool, p: Progress, item: Item): Option<Progress> {
    match item
    case Raw(w) => Some(Evaluated(p, Some(w), p.tables))
    case Opcode(_, _, _) => Some(Evaluated(p, None, p.tables))
    case Value(e) => VisitValue(items, base, intermediate, p, e)
    case _ => if NeedsObject(item) && !intermediate then None else VisitDirective(items, base, p, item)
  }

  function Pass(items: seq<Item>, base: Word, intermediate: bool, k: nat): Option<Progress>
    requires k <= |items|
  {
    if k == 0 then Some(Progress(base, NO_TABLES, false, []))
    else match Pass(items, base, intermediate, k - 1)
         case None => None
         case Some(p) => Visit(items, base, intermediate, p, items[k - 1])
  }

  /** The words of an item in the writing pass: an import has no word of its own and is written as zero. */
  function Emission(item: Item, raw: Option<Word>): seq<Word> {
    if raw.Some? then [raw.value]
    else match item
         case Opcode(op, b, a) => [Create(op, b, a)]
         case Value(_) => [Create(0, 0, 0)]
         case Raw(w) => [w]
         case _ => []
  }

  function Emitted(items: seq<Item>, raws: seq<Option<Word>>, k: nat): seq<Word>
    requires k <= |items| && k <= |raws|
  {
    if k == 0 then [] else Emitted(items, raws, k - 1) + Emission(items[k - 1], raws[k - 1])
  }

  /** The words of the first `k` items. */
  function SizeTo(items: seq<Item>, k: nat): nat
    requires k <= |items|
  {
    if k == 0 then 0 else SizeTo(items, k - 1) + if IsWord(items[k - 1]) then 1 else 0
  }

  datatype Object = Object(words: seq<Word>, tables: Tables)

  lemma {:induction false} PassLength(items: seq<Item>, base: Word, intermediate: bool, k: nat)
    requires k <= |items|
    ensures var r := Pass(items, base, intermediate, k); r.Some? ==> |r.value.raws| == k
  {
    if k > 0 { PassLength(items, base, intermediate, k - 1); }
  }

  /** `aout_write` at a code offset. */
  function Assembled(items: seq<Item>, base: Word, intermediate: bool): Option<Object> {
    PassLength(items, base, intermediate, |items|);
    match Pass(items, base, intermediate, |items|)
    case None => None
    case Some(p) => Some(Object(Emitted(items, p.raws, |items|), p.tables))
  }
}
