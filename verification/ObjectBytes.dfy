/**
 The bytes of an object file at their positions (libdcpu-ci-objfmt/ldata.c, libdcpu-ci-objfmt/ldata.h, libdcpu/iio.c).
 */
module ObjectBytes {
  import opened Words
  import opened BinImages
  import opened Assembly
  import opened ObjectView
  import opened ObjectLoading
  import File = ObjectFile

  /** 259 bytes: the label, zeros up to the 256th, the mode and the address, its low byte first. */
  ghost predicate IsRecord(s: seq<File.Byte>, symbol: File.Label, mode: int, address: Word) {
    && |s| == 259 && |symbol| <= 255 && s[..|symbol|] == symbol
    && (forall i :: |symbol| <= i < 256 ==> s[i] == 0)
    && s[256] == mode && s[257] == address % 256 && s[258] == address / 256
  }

  lemma {:induction false} EncodedBytes(r: File.Record)
    requires |r.symbol| <= 255
    ensures IsRecord(File.Encode(r), r.symbol, r.mode, r.address)
  {
  }

  lemma {:induction false} EncodedAt(rs: seq<File.Record>, k: nat)
    requires File.Short(rs) && k < |rs|
    ensures |File.EncodeAll(rs)| == 259 * |rs|
    ensures File.EncodeAll(rs)[259 * k..][..259] == File.Encode(rs[k])
  {
    EncodedLength(rs);
    var front := rs[..|rs| - 1];
    EncodedLength(front);
    if k < |front| {
      EncodedAt(front, k);
      WindowStays(File.EncodeAll(front), File.Encode(rs[|rs| - 1]), 259 * k);
    }
  }

  lemma {:induction false} WindowStays(s: seq<File.Byte>, t: seq<File.Byte>, i: nat)
    requires i + 259 <= |s|
    ensures (s + t)[i..][..259] == s[i..][..259]
  {
  }

  lemma {:induction false} EncodedLength(rs: seq<File.Record>)
    requires File.Short(rs)
    ensures |File.EncodeAll(rs)| == 259 * |rs|
  {
    if rs != [] { EncodedLength(rs[..|rs| - 1]); }
  }

  /** How many records come before those of table `i`. */
  function Before(tables: seq<seq<File.Stored>>, i: nat): nat
    requires i <= |tables|
  {
    if i == 0 then 0 else Before(tables, i - 1) + |tables[i - 1]|
  }

  lemma {:induction false} RecordIsAt(tables: seq<seq<File.Stored>>, n: nat, i: nat, k: nat)
    requires i < n <= |tables| == File.TABLES && k < |tables[i]|
    ensures |File.AllRecords(tables, n)| == Before(tables, n)
    ensures Before(tables, i) + k < Before(tables, n)
    ensures File.AllRecords(tables, n)[Before(tables, i) + k] == File.RecordOf(tables[i][k], i)
  {
    RecordCount(tables, n - 1);
    if i < n - 1 { RecordIsAt(tables, n - 1, i, k); }
  }

  lemma {:induction false} RecordCount(tables: seq<seq<File.Stored>>, n: nat)
    requires n <= |tables| == File.TABLES
    ensures |File.AllRecords(tables, n)| == Before(tables, n)
  {
    if n > 0 { RecordCount(tables, n - 1); }
  }

  /** The file ends with a record of zeros and the code. */
  ghost predicate EndsWith(s: seq<File.Byte>, records: nat, code: seq<File.Byte>) {
    && |s| == 259 * records + 259 + |code| && s[259 * records + 259..] == code
    && forall i :: 259 * records <= i < 259 * records + 259 ==> s[i] == 0
  }

  lemma {:induction false} FileEnds(tables: seq<seq<File.Stored>>, code: seq<File.Byte>)
    requires |tables| == File.TABLES && File.Writable(tables) && File.Short(File.AllRecords(tables, File.TABLES))
    ensures EndsWith(File.Save(tables, code), Before(tables, File.TABLES), code)
  {
    RecordCount(tables, File.TABLES);
    var rs := File.AllRecords(tables, File.TABLES);
    EncodedLength(rs);
    EncodedBytes(File.END_RECORD);
    EndIsThere(File.EncodeAll(rs), File.Encode(File.END_RECORD), code, Before(tables, File.TABLES));
  }

  lemma {:induction false} EndIsThere(s: seq<File.Byte>, end: seq<File.Byte>, code: seq<File.Byte>, n: nat)
    requires |s| == 259 * n && IsRecord(end, [], 0, 0)
    ensures EndsWith(s + end + code, n, code)
  {
  }

  /** Where the record of entry `k` of table `i` begins. */
  function Start(tables: seq<seq<File.Stored>>, i: nat, k: nat): nat
    requires i <= |tables|
  {
    259 * (Before(tables, i) + k)
  }

  lemma {:induction false} RecordIsThere(tables: seq<seq<File.Stored>>, code: seq<File.Byte>, i: nat, k: nat)
    requires |tables| == File.TABLES && File.Writable(tables) && File.Short(File.AllRecords(tables, File.TABLES))
    requires i < File.TABLES && k < |tables[i]|
    ensures |File.RecordOf(tables[i][k], i).symbol| <= 255
    ensures Start(tables, i, k) + 259 <= |File.Save(tables, code)|
    ensures File.Save(tables, code)[Start(tables, i, k)..][..259] == File.Encode(File.RecordOf(tables[i][k], i))
  {
    var rs := File.AllRecords(tables, File.TABLES);
    RecordIsAt(tables, File.TABLES, i, k);
    EncodedAt(rs, Before(tables, i) + k);
    WindowStays(File.EncodeAll(rs), File.Encode(File.END_RECORD) + code, Start(tables, i, k));
    assert File.Save(tables, code) == File.EncodeAll(rs) + (File.Encode(File.END_RECORD) + code);
  }

  /** The bytes of an object file. */
  ghost function FileOf(o: Object, order: Order): seq<File.Byte>
    requires AllTextsFit(o.tables) && File.Writable(StoredTables(o.tables)) &&
             File.Short(File.AllRecords(StoredTables(o.tables), File.TABLES))
  {
    File.Save(StoredTables(o.tables), CodeBytes(o.words, order))
  }

  /** The eight modes of ldata.h. */
  ghost predicate IsTable(t: Tables, mode: int, es: seq<Entry>) {
    || (mode == 1 && es == t.provided) || (mode == 2 && es == t.required) || (mode == 3 && es == t.adjustment)
    || (mode == 4 && es == t.section) || (mode == 5 && es == t.output) || (mode == 6 && es == t.jump)
    || (mode == 7 && es == t.optional) || (mode == 8 && es == t.call)
  }

  /** Every entry of an object has its record in the file, with the mode of its table; adjustments have no label. */
  lemma {:induction false} EntryIsInFile(o: Object, order: Order, mode: int, es: seq<Entry>, k: nat)
    returns (start: nat)
    requires AllTextsFit(o.tables) && File.Writable(StoredTables(o.tables))
    requires File.Short(File.AllRecords(StoredTables(o.tables), File.TABLES))
    requires IsTable(o.tables, mode, es) && TextsFit(es) && k < |es|
    ensures start % 259 == 0 && start + 259 <= |FileOf(o, order)|
    ensures IsRecord(FileOf(o, order)[start..][..259],
                     if mode == 3 || es[k].symbol.None? then [] else Bytes(es[k].symbol.value), mode, es[k].address)
  {
    TableIsStored(o.tables, mode, es, k);
    start := RecordBytes(StoredTables(o.tables), CodeBytes(o.words, order), mode - 1, k, StoredOf(es[k]));
  }

  lemma {:induction false} RecordBytes(tables: seq<seq<File.Stored>>, code: seq<File.Byte>, i: nat, k: nat,
          e: File.Stored) returns (start: nat)
    requires |tables| == File.TABLES && File.Writable(tables) && File.Short(File.AllRecords(tables, File.TABLES))
    requires i < File.TABLES && k < |tables[i]| && e == tables[i][k]
    ensures start % 259 == 0 && start + 259 <= |File.Save(tables, code)|
    ensures var r := File.RecordOf(e, i);
            IsRecord(File.Save(tables, code)[start..][..259], r.symbol, r.mode, r.address)
  {
    RecordIsThere(tables, code, i, k);
    EncodedBytes(File.RecordOf(e, i));
    start := Start(tables, i, k);
  }

  lemma {:induction false} TableIsStored(t: Tables, mode: int, es: seq<Entry>, k: nat)
    requires AllTextsFit(t) && IsTable(t, mode, es) && TextsFit(es) && k < |es|
    ensures 1 <= mode <= 8 && k < |StoredTables(t)[mode - 1]| && StoredTables(t)[mode - 1][k] == StoredOf(es[k])
  {
    assert TableList(t)[mode - 1] == es;
  }

  lemma {:induction false} CodeLength(words: seq<Word>, order: Order)
    ensures |CodeBytes(words, order)| == 2 * |words|
  {
    if words != [] { CodeLength(words[1..], order); }
  }

  /** Each word of the code takes two bytes, and the order tells which comes first. */
  lemma {:induction false} CodeIsInOrder(words: seq<Word>, order: Order, i: nat)
    requires i < |words|
    ensures |CodeBytes(words, order)| == 2 * |words|
    ensures CodeBytes(words, order)[2 * i] == (if order == HighFirst then words[i] / 256 else words[i] % 256)
    ensures CodeBytes(words, order)[2 * i + 1] == (if order == HighFirst then words[i] % 256 else words[i] / 256)
  {
    CodeLength(words, order);
    if i > 0 {
      CodeIsInOrder(words[1..], order, i - 1);
      Behind(WordBytes(words[0], order), CodeBytes(words[1..], order), 2 * (i - 1), 2 * i);
      Behind(WordBytes(words[0], order), CodeBytes(words[1..], order), 2 * (i - 1) + 1, 2 * i + 1);
    }
  }

  lemma {:induction false} Behind(s: seq<File.Byte>, t: seq<File.Byte>, i: nat, j: nat)
    requires i < |t| && j == |s| + i
    ensures (s + t)[j] == t[i]
  {
  }
}
