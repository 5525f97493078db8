/**
 The tables of an object file that record optional imports and directives (libdcpu-ci-asm/aout.c), described item
 by item.
 */
module AssemblyRecords {
  import opened Words
  import opened BinImages
  import opened Assembly
  import opened AssemblyMeaning

  predicate IsOptional(items: seq<Item>, item: Item) {
    IsImported(items, item) && FindImport(items, item.expr.name, 0).value.ImportOptional?
  }

  /** The tables that record where an item stands or which label it names. */
  datatype Record = Sections | Outputs | Jumps | Optionals | Calls

  function RecordsIn(t: Tables, r: Record): seq<Entry> {
    match r
    case Sections => t.section
    case Outputs => t.output
    case Jumps => t.jump
    case Optionals => t.optional
    case Calls => t.call
  }

  /** The entry an item at `index` makes in a table. */
  function RecordOf(items: seq<Item>, base: Word, item: Item, index: int, r: Record): seq<Entry> {
    match r
    case Sections => if item.SectionStart? then [At(Some(item.name), index)] else []
    case Outputs => if item.OutputPoint? then [At(Some(item.name), index)] else []
    case Calls => if item.KernelCall? then [At(Some(item.name), index)] else []
    case Optionals => if IsOptional(items, item) then [At(Some(item.expr.name), index)] else []
    case Jumps =>
      if !item.JumpExport? then []
      else if item.target.None? then [At(None, index)]
      else match LabelAddress(items, base, item.target.value)
           case None => []
           case Some(a) => [At(item.target, a)]
  }

  /** A table after the first `k` items, the last entry first. */
  function RecordedTo(items: seq<Item>, base: Word, k: nat, r: Record): seq<Entry>
    requires k <= |items|
  {
    if k == 0 then []
    else RecordOf(items, base, items[k - 1], base + SizeTo(items, k - 1), r) + RecordedTo(items, base, k - 1, r)
  }

  lemma {:induction false} VisitRecords(items: seq<Item>, base: Word, intermediate: bool, p: Progress, item: Item,
          q: Progress, r: Record)
    requires Visit(items, base, intermediate, p, item) == Some(q)
    ensures RecordsIn(q.tables, r) == RecordOf(items, base, item, p.index, r) + RecordsIn(p.tables, r)
  {
  }

  lemma {:induction false} PassSplits(items: seq<Item>, base: Word, intermediate: bool, k: nat, n: nat, q: Progress)
    returns (p: Progress)
    requires k < n == k + 1 <= |items| && Pass(items, base, intermediate, n) == Some(q)
    ensures Pass(items, base, intermediate, k) == Some(p) && Visit(items, base, intermediate, p, items[k]) == Some(q)
    ensures p.index == base + SizeTo(items, k)
  {
    p := Pass(items, base, intermediate, k).value;
    PassRuns(items, base, intermediate, k);
  }

  lemma {:induction false} NextRecord(items: seq<Item>, base: Word, k: nat, n: nat, r: Record, index: nat)
    requires k < n == k + 1 <= |items| && index == base + SizeTo(items, k)
    ensures RecordedTo(items, base, n, r) == RecordOf(items, base, items[k], index, r) + RecordedTo(items, base, k, r)
  {
  }

  lemma {:induction false} PassRecords(items: seq<Item>, base: Word, intermediate: bool, n: nat, q: Progress, r: Record)
    requires n <= |items| && Pass(items, base, intermediate, n) == Some(q)
    ensures RecordsIn(q.tables, r) == RecordedTo(items, base, n, r)
    decreases n
  {
    if n > 0 {
      var k := n - 1;
      var p := PassSplits(items, base, intermediate, k, n, q);
      PassRecords(items, base, intermediate, k, p, r);
      VisitRecords(items, base, intermediate, p, items[k], q, r);
      NextRecord(items, base, k, n, r, p.index);
    }
  }

  /** The section, output, jump, optional and call tables of the object file, item by item. */
  lemma {:induction false} AssembledRecords(items: seq<Item>, base: Word, intermediate: bool, r: Record)
    requires Assembled(items, base, intermediate).Some?
    ensures RecordsIn(Assembled(items, base, intermediate).value.tables, r) == RecordedTo(items, base, |items|, r)
  {
    PassRecords(items, base, intermediate, |items|, Pass(items, base, intermediate, |items|).value, r);
  }
}
