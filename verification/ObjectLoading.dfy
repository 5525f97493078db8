/**
 From the assembler to the linker: an assembled object is saved to a file, and `bins_load` (libdcpu-ld/ldbins.c)
 makes a bin of the file.
 */
module ObjectLoading {
  import opened Words
  import opened BinImages
  import opened Assembly
  import opened Expressions
  import opened ObjectView
  import File = ObjectFile

  // ----- Labels and words as bytes -----

  predicate IsLabelText(s: string) {
    |s| <= 255 && forall i :: 0 <= i < |s| ==> 0 < s[i] as int < 256
  }

  function Bytes(s: string): (r: File.Label)
    requires IsLabelText(s)
    ensures |r| == |s| && forall i :: 0 <= i < |s| ==> r[i] == s[i] as int
  {
    seq(|s|, i requires 0 <= i < |s| => s[i] as int)
  }

  function Text(l: File.Label): (r: string)
    ensures |r| == |l| && forall i :: 0 <= i < |l| ==> r[i] == l[i] as char
  {
    seq(|l|, i requires 0 <= i < |l| => l[i] as char)
  }

  lemma {:induction false} TextOfBytes(s: string)
    requires IsLabelText(s)
    ensures Text(Bytes(s)) == s && File.IsLabel(Bytes(s))
  {
  }

  /** The byte order of code that the tools are told to use (`isetmode`, libdcpu/iio.c). */
  datatype Order = HighFirst | LowFirst

  /** `iwrite` */
  function WordBytes(w: Word, order: Order): seq<File.Byte> {
    if order == HighFirst then [w / 256, w % 256] else [w % 256, w / 256]
  }

  function CodeBytes(words: seq<Word>, order: Order): seq<File.Byte> {
    if words == [] then [] else WordBytes(words[0], order) + CodeBytes(words[1..], order)
  }

  function Joined(low: int, high: int): Word
    requires 0 <= low < 256 && 0 <= high < 256
  {
    low + 256 * high
  }

  /** `iread` */
  function WordOf(first: File.Byte, second: File.Byte, order: Order): Word {
    if order == HighFirst then Joined(second, first) else Joined(first, second)
  }

  /** The loop that reads words until the file ends. */
  function ReadWords(s: seq<File.Byte>, order: Order): seq<Word> {
    if |s| < 2 then [] else [WordOf(s[0], s[1], order)] + ReadWords(s[2..], order)
  }

  lemma {:induction false} ReadCode(words: seq<Word>, order: Order)
    ensures ReadWords(CodeBytes(words, order), order) == words
  {
    if words != [] {
      ReadCode(words[1..], order);
      assert CodeBytes(words, order)[2..] == CodeBytes(words[1..], order);
    }
  }

  // ----- Entries -----

  predicate TextsFit(es: seq<Entry>) {
    forall i :: 0 <= i < |es| && es[i].symbol.Some? ==> IsLabelText(es[i].symbol.value)
  }

  function StoredOf(e: Entry): File.Stored
    requires e.symbol.Some? ==> IsLabelText(e.symbol.value)
  {
    File.Stored(if e.symbol.Some? then Some(Bytes(e.symbol.value)) else None, e.address)
  }

  /** An entry of the file as `bins_add` clones it; it belongs to no bin yet. */
  function EntryOf(s: File.Stored): Entry {
    Entry(if s.symbol.Some? then Some(Text(s.symbol.value)) else None, "", s.address)
  }

  function StoredAll(es: seq<Entry>): (r: seq<File.Stored>)
    requires TextsFit(es)
    ensures |r| == |es| && forall i :: 0 <= i < |es| ==> r[i] == StoredOf(es[i])
  {
    seq(|es|, i requires 0 <= i < |es| => StoredOf(es[i]))
  }

  function EntriesOf(ss: seq<File.Stored>): (r: seq<Entry>)
    ensures |r| == |ss| && forall i :: 0 <= i < |ss| ==> r[i] == EntryOf(ss[i])
  {
    seq(|ss|, i requires 0 <= i < |ss| => EntryOf(ss[i]))
  }

  predicate Unowned(es: seq<Entry>) {
    forall i :: 0 <= i < |es| ==> es[i].bin == ""
  }

  lemma {:induction false} EntriesBack(es: seq<Entry>)
    requires TextsFit(es) && Unowned(es)
    ensures EntriesOf(StoredAll(es)) == es
  {
    forall i | 0 <= i < |es| ensures EntryOf(StoredOf(es[i])) == es[i] {
      if es[i].symbol.Some? { TextOfBytes(es[i].symbol.value); }
    }
  }

  // ----- Objects -----

  /** The tables in the order in which they are written. */
  function TableList(t: Tables): (r: seq<seq<Entry>>)
    ensures |r| == File.TABLES
  {
    [t.provided, t.required, t.adjustment, t.section, t.output, t.jump, t.optional, t.call]
  }

  predicate AllTextsFit(t: Tables) {
    forall i :: 0 <= i < File.TABLES ==> TextsFit(TableList(t)[i])
  }

  function StoredTables(t: Tables): (r: seq<seq<File.Stored>>)
    requires AllTextsFit(t)
    ensures |r| == File.TABLES && forall i :: 0 <= i < File.TABLES ==> r[i] == StoredAll(TableList(t)[i])
  {
    seq(File.TABLES, i requires 0 <= i < File.TABLES => StoredAll(TableList(t)[i]))
  }

  function BinOf(name: Name, tables: seq<seq<File.Stored>>, code: seq<File.Byte>, order: Order): Image
    requires |tables| == File.TABLES
  {
    Image(name, ReadWords(code, order), EntriesOf(tables[0]), EntriesOf(tables[1]), EntriesOf(tables[2]),
          EntriesOf(tables[4]), EntriesOf(tables[5]), EntriesOf(tables[6]), EntriesOf(tables[7]))
  }

  /** The bin that `bins_load` makes of a file, and the list of its sections; none if the file ends early. */
  function Loaded(name: Name, s: seq<File.Byte>, order: Order): Option<(Image, seq<Entry>)> {
    match File.Load(s, File.Loading(File.NO_TABLES, None), 0, File.ALL_TABLES)
    case None => None
    case Some((st, code)) =>
      if |st.tables| == File.TABLES then
        Some((BinOf(name, st.tables, code, order), EntriesOf(st.tables[File.SECTION])))
      else None
  }

  /** Labels are present except in the adjustment table, and no two consecutive sections start at one address. */
  ghost predicate Storable(es: seq<Entry>, table: nat) {
    && (forall i :: 0 <= i < |es| ==> es[i].symbol.Some? == (table != File.ADJUSTMENT)) && Unowned(es)
    && (table == File.SECTION ==> forall i :: 0 <= i < |es| - 1 ==> es[i].address != es[i + 1].address)
  }

  lemma {:induction false} StorableIsFaithful(es: seq<Entry>, table: nat)
    requires TextsFit(es) && Storable(es, table)
    ensures File.Faithful(StoredAll(es), table)
    ensures File.TableWritable(StoredAll(es), table)
  {
    var ss := StoredAll(es);
    if table == File.SECTION {
      forall i | 0 <= i < |ss| - 1 ensures ss[i].address != ss[i + 1].address {
        assert es[i].address != es[i + 1].address;
      }
    }
  }

  lemma {:induction false} StoredLabelsFit(t: Tables)
    requires AllTextsFit(t)
    ensures File.LabelsFit(StoredTables(t))
  {
    forall i, e | 0 <= i < File.TABLES && e in StoredTables(t)[i] && e.symbol.Some?
        ensures File.IsLabel(e.symbol.value) {
      var es := TableList(t)[i];
      var k :| 0 <= k < |es| && StoredOf(es[k]) == e;
      TextOfBytes(es[k].symbol.value);
    }
  }

  lemma {:induction false} TablesAreFaithful(t: Tables)
    requires AllTextsFit(t) && forall i :: 0 <= i < File.TABLES ==> Storable(TableList(t)[i], i)
    ensures File.Writable(StoredTables(t)) && forall i :: 0 <= i < File.TABLES ==> File.Faithful(StoredTables(t)[i], i)
  {
    forall i | 0 <= i < File.TABLES ensures File.TableWritable(StoredTables(t)[i], i) &&
        File.Faithful(StoredTables(t)[i], i) {
      StorableIsFaithful(TableList(t)[i], i);
    }
  }

  lemma {:induction false} TablesBack(name: Name, o: Object, order: Order)
    requires AllTextsFit(o.tables) && forall i :: 0 <= i < File.TABLES ==> Unowned(TableList(o.tables)[i])
    ensures BinOf(name, StoredTables(o.tables), CodeBytes(o.words, order), order) == ToImage(name, o)
    ensures EntriesOf(StoredTables(o.tables)[File.SECTION]) == o.tables.section
  {
    ReadCode(o.words, order);
    forall i | 0 <= i < File.TABLES ensures EntriesOf(StoredTables(o.tables)[i]) == TableList(o.tables)[i] {
      EntriesBack(TableList(o.tables)[i]);
    }
  }

  /** An object that is saved and loaded again is the bin that the linker starts from. */
  lemma {:induction false} SavedObjectLoads(name: Name, o: Object, order: Order)
    requires AllTextsFit(o.tables) && forall i :: 0 <= i < File.TABLES ==> Storable(TableList(o.tables)[i], i)
    ensures File.Writable(StoredTables(o.tables)) && File.LabelsFit(StoredTables(o.tables))
    ensures File.Readable(File.AllRecords(StoredTables(o.tables), File.TABLES))
    ensures Loaded(name, File.Save(StoredTables(o.tables), CodeBytes(o.words, order)), order) ==
            Some((ToImage(name, o), o.tables.section))
  {
    StoredLabelsFit(o.tables);
    TablesAreFaithful(o.tables);
    File.RoundTrip(StoredTables(o.tables), CodeBytes(o.words, order));
    TablesBack(name, o, order);
  }

  // ----- Jump exports without a label -----

  function Named(e: Entry): Entry {
    e.(symbol := Some(if e.symbol.Some? then e.symbol.value else ""))
  }

  function NamedAll(es: seq<Entry>): (r: seq<Entry>)
    ensures |r| == |es| && forall i :: 0 <= i < |es| ==> r[i] == Named(es[i])
  {
    seq(|es|, i requires 0 <= i < |es| => Named(es[i]))
  }

  /** The object as it comes back: an absent label of a jump export is an empty one. */
  function AsLoaded(o: Object): Object {
    o.(tables := o.tables.(jump := NamedAll(o.tables.jump)))
  }

  lemma {:induction false} SameRecords(es: seq<Entry>)
    requires TextsFit(es)
    ensures TextsFit(NamedAll(es))
    ensures File.Records(StoredAll(es), File.JUMP) == File.Records(StoredAll(NamedAll(es)), File.JUMP)
  {
    forall i | 0 <= i < |es|
      ensures File.RecordOf(StoredAll(es)[i], File.JUMP) == File.RecordOf(StoredAll(NamedAll(es))[i], File.JUMP)
    {
    }
  }

  lemma {:induction false} SameFile(o: Object, k: nat)
    requires AllTextsFit(o.tables) && k <= File.TABLES
    ensures AllTextsFit(AsLoaded(o).tables)
    ensures File.AllRecords(StoredTables(o.tables), k) == File.AllRecords(StoredTables(AsLoaded(o).tables), k)
  {
    assert TableList(o.tables)[File.JUMP] == o.tables.jump;
    SameRecords(o.tables.jump);
    assert forall i :: 0 <= i < File.TABLES && i != File.JUMP ==>
                         TableList(AsLoaded(o).tables)[i] == TableList(o.tables)[i];
    if k > 0 { SameFile(o, k - 1); }
  }

  // ----- What the assembler produces -----

  ghost predicate Labelled(es: seq<Entry>, labelled: bool) {
    Unowned(es) && forall i :: 0 <= i < |es| ==> es[i].symbol.Some? == labelled
  }

  ghost predicate AllLabelled(t: Tables) {
    && Labelled(t.provided, true) && Labelled(t.required, true)
    && Labelled(t.adjustment, false) && Labelled(t.section, true)
    && Labelled(t.output, true) && Unowned(t.jump) && Labelled(t.optional, true) && Labelled(t.call, true)
  }

  lemma {:induction false} ValueLabels(items: seq<Item>, base: Word, intermediate: bool, p: Progress, e: Expr,
          q: Progress)
    requires VisitValue(items, base, intermediate, p, e) == Some(q) && AllLabelled(p.tables)
    ensures AllLabelled(q.tables)
  {
  }

  lemma {:induction false} AddedLabels(t: Tables, item: Item, e: Entry)
    requires AllLabelled(t) && e.bin == "" && (NeedsObject(item) && !item.JumpExport? ==> e.symbol.Some?)
    ensures AllLabelled(Added(t, item, e))
  {
  }

  lemma {:induction false} VisitLabels(items: seq<Item>, base: Word, intermediate: bool, p: Progress, item: Item,
          q: Progress)
    requires Visit(items, base, intermediate, p, item) == Some(q) && AllLabelled(p.tables)
    ensures AllLabelled(q.tables)
  {
    if item.Value? {
      ValueLabels(items, base, intermediate, p, item.expr, q);
    } else if !IsWord(item) {
      var (symbol, a) := Recorded(items, base, p.index, item).value;
      AddedLabels(p.tables, item, At(symbol, a));
    }
  }

  lemma {:induction false} PassLabels(items: seq<Item>, base: Word, intermediate: bool, k: nat, q: Progress)
    requires k <= |items| && Pass(items, base, intermediate, k) == Some(q)
    ensures AllLabelled(q.tables)
    decreases k
  {
    if k > 0 {
      var p := Pass(items, base, intermediate, k - 1).value;
      PassLabels(items, base, intermediate, k - 1, p);
      VisitLabels(items, base, intermediate, p, items[k - 1], q);
    }
  }

  /**
   Assembling, saving and loading: the linker's bin and its list of sections are those of the assembled object,
   for labels of at most 255 non-zero characters and no section without words between it and the next; a jump
   export without a label comes back with an empty one.
   */
  lemma {:induction false} AssembledObjectLoads(name: Name, items: seq<Item>, base: Word, intermediate: bool, o: Object,
          order: Order)
    requires Assembled(items, base, intermediate) == Some(o) && AllTextsFit(o.tables)
    requires var es := o.tables.section; forall i :: 0 <= i < |es| - 1 ==> es[i].address != es[i + 1].address
    ensures File.Writable(StoredTables(o.tables)) && File.LabelsFit(StoredTables(o.tables))
    ensures File.Readable(File.AllRecords(StoredTables(o.tables), File.TABLES))
    ensures Loaded(name, File.Save(StoredTables(o.tables), CodeBytes(o.words, order)), order) ==
            Some((ToImage(name, AsLoaded(o)), o.tables.section))
  {
    PassLabels(items, base, intermediate, |items|, Pass(items, base, intermediate, |items|).value);
    SameFile(o, File.TABLES);
    StoredLabelsFit(o.tables);
    AssembledIsWritable(o.tables);
    var tables := AsLoaded(o).tables;
    forall i | 0 <= i < File.TABLES ensures Storable(TableList(tables)[i], i) {
      assert Labelled(TableList(tables)[i], i != File.ADJUSTMENT);
    }
    SavedObjectLoads(name, AsLoaded(o), order);
  }

  lemma {:induction false} AssembledIsWritable(t: Tables)
    requires AllTextsFit(t) && AllLabelled(t)
    ensures File.Writable(StoredTables(t))
  {
    forall i | 0 <= i < File.TABLES ensures File.TableWritable(StoredTables(t)[i], i) {
      assert i == File.JUMP || Labelled(TableList(t)[i], i != File.ADJUSTMENT);
    }
  }
}
