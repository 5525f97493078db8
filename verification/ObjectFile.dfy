/**
 Object files (libdcpu-ci-objfmt/objfile.c, libdcpu-ci-objfmt/ldata.c): eight tables of labels, written as
 records of 259 bytes, an end record, and the code.
 */
module ObjectFile {
  import opened Words

  type Byte = x: int | 0 <= x < 256

  /** A label is a C string: its bytes without the terminating zero. */
  type Label = seq<Byte>

  /** A table entry as it is stored in a file. */
  datatype Stored = Stored(symbol: Option<Label>, address: Word)

  const LABEL_END: Byte := 0
  const TABLES := 8
  const ADJUSTMENT := 2
  const SECTION := 3
  const JUMP := 5

  // ----- Records -----

  datatype Record = Record(symbol: Label, mode: Byte, address: Word)

  function Zeros(n: nat): (r: seq<Byte>)
    ensures |r| == n && forall i :: 0 <= i < n ==> r[i] == 0
  {
    seq(n, _ => 0)
  }

  predicate IsLabel(s: Label) {
    |s| <= 255 && forall i :: 0 <= i < |s| ==> s[i] != 0
  }

  /** `ldata_write` */
  function Encode(r: Record): (s: seq<Byte>)
    requires |r.symbol| <= 255
    ensures |s| == 259
  {
    r.symbol + Zeros(256 - |r.symbol|) + [r.mode, r.address % 256, r.address / 256]
  }

  /** The bytes before the first zero. */
  function CString(s: seq<Byte>): Label {
    if s == [] || s[0] == 0 then [] else [s[0]] + CString(s[1..])
  }

  /** `ldata_read`; the last byte of the label field is forced to zero. */
  function Decode(s: seq<Byte>): Record
    requires |s| >= 259
  {
    var low: int, high: int := s[257], s[258];
    Record(CString(s[..255] + [0]), s[256], low + 256 * high)
  }

  lemma {:induction false} CStringOf(s: Label, rest: seq<Byte>)
    requires (forall i :: 0 <= i < |s| ==> s[i] != 0) && rest != [] && rest[0] == 0
    ensures CString(s + rest) == s
  {
    if s == [] {
      assert s + rest == rest;
    } else {
      CStringOf(s[1..], rest);
      assert (s + rest)[1..] == s[1..] + rest;
    }
  }

  /** A record reads back as it was written. */
  lemma {:induction false} DecodeEncode(r: Record, rest: seq<Byte>)
    requires IsLabel(r.symbol)
    ensures Decode(Encode(r) + rest) == r
  {
    var s := Encode(r) + rest;
    assert s[..255] + [0] == r.symbol + Zeros(256 - |r.symbol|);
    CStringOf(r.symbol, Zeros(256 - |r.symbol|));
  }

  // ----- Writing -----

  /** An absent label is written as the empty one in the jump table, and no label is written for adjustments. */
  function RecordOf(e: Stored, table: nat): Record
    requires table < TABLES
  {
    Record(if e.symbol.Some? && table != ADJUSTMENT then e.symbol.value else [], table + 1, e.address)
  }

  /** Elsewhere the writer reads the label without looking whether there is one. */
  predicate IsWritable(e: Stored, table: nat) {
    e.symbol.Some? || table == ADJUSTMENT || table == JUMP
  }

  ghost predicate TableWritable(es: seq<Stored>, table: nat) {
    forall k :: 0 <= k < |es| ==> IsWritable(es[k], table)
  }

  ghost predicate Writable(tables: seq<seq<Stored>>) {
    forall i :: 0 <= i < |tables| ==> TableWritable(tables[i], i)
  }

  function Records(es: seq<Stored>, table: nat): (r: seq<Record>)
    requires table < TABLES
    ensures |r| == |es| && forall i :: 0 <= i < |es| ==> r[i] == RecordOf(es[i], table)
  {
    seq(|es|, i requires 0 <= i < |es| => RecordOf(es[i], table))
  }

  /** The records of the first `k` tables. */
  function AllRecords(tables: seq<seq<Stored>>, k: nat): seq<Record>
    requires k <= |tables| == TABLES
  {
    if k == 0 then [] else AllRecords(tables, k - 1) + Records(tables[k - 1], k - 1)
  }

  ghost predicate Short(rs: seq<Record>) {
    forall i :: 0 <= i < |rs| ==> |rs[i].symbol| <= 255
  }

  function EncodeAll(rs: seq<Record>): seq<Byte>
    requires forall i :: 0 <= i < |rs| ==> |rs[i].symbol| <= 255
  {
    if rs == [] then [] else EncodeAll(rs[..|rs| - 1]) + Encode(rs[|rs| - 1])
  }

  const END_RECORD := Record([], LABEL_END, 0)

  // ----- Reading -----

  /** The tables read so far, and the address of the last section read here. */
  datatype Loading = Loading(tables: seq<seq<Stored>>, lastSection: Option<Word>)

  /** One record; tables that the caller does not ask for are passed over. */
  function Take(st: Loading, r: Record, offset: Word, wanted: seq<bool>): (t: Loading)
    requires |st.tables| == |wanted| == TABLES
    ensures |t.tables| == TABLES
  {
    var table := r.mode - 1;
    if 0 <= table < TABLES && wanted[table] then
      if table == SECTION && st.lastSection.Some? && r.address + offset == st.lastSection.value then st
      else
        var e := Stored(if table == ADJUSTMENT then None else Some(r.symbol), Wrap(r.address + offset));
        Loading(st.tables[table := st.tables[table] + [e]],
                if table == SECTION then Some(e.address) else st.lastSection)
    else st
  }

  function TakeAll(st: Loading, rs: seq<Record>, offset: Word, wanted: seq<bool>): (t: Loading)
    requires |st.tables| == |wanted| == TABLES
    ensures |t.tables| == TABLES
  {
    if rs == [] then st else Take(TakeAll(st, rs[..|rs| - 1], offset, wanted), rs[|rs| - 1], offset, wanted)
  }

  /** `objfile_load`: records up to the end record, then the code; none if the file ends early. */
  function Load(s: seq<Byte>, st: Loading, offset: Word, wanted: seq<bool>): Option<(Loading, seq<Byte>)>
    requires |st.tables| == |wanted| == TABLES
  {
    if |s| < 259 then None
    else
      var r := Decode(s);
      if r.mode == LABEL_END then Some((st, s[259..])) else Load(s[259..], Take(st, r, offset, wanted), offset, wanted)
  }

  // ----- What is written is read -----

  ghost predicate Readable(rs: seq<Record>) {
    forall i :: 0 <= i < |rs| ==> IsLabel(rs[i].symbol) && rs[i].mode != LABEL_END
  }

  lemma {:induction false} LoadOne(r: Record, rest: seq<Byte>, st: Loading, offset: Word, wanted: seq<bool>)
    requires |st.tables| == |wanted| == TABLES && IsLabel(r.symbol)
    ensures Load(Encode(r) + rest, st, offset, wanted) ==
            if r.mode == LABEL_END then Some((st, rest)) else Load(rest, Take(st, r, offset, wanted), offset, wanted)
  {
    DecodeEncode(r, rest);
    assert (Encode(r) + rest)[259..] == rest;
  }

  /** Reading the records of a file takes them one after another. */
  lemma {:induction false} LoadRecords(rs: seq<Record>, rest: seq<Byte>, st: Loading, offset: Word, wanted: seq<bool>)
    requires |st.tables| == |wanted| == TABLES && Readable(rs)
    ensures Load(EncodeAll(rs) + rest, st, offset, wanted) ==
            Load(rest, TakeAll(st, rs, offset, wanted), offset, wanted)
  {
    if rs == [] {
      assert EncodeAll(rs) + rest == rest;
    } else {
      LoadLast(rs[..|rs| - 1], rs[|rs| - 1], rs, rest);
      LoadRecords(rs[..|rs| - 1], Encode(rs[|rs| - 1]) + rest, st, offset, wanted);
      LoadOne(rs[|rs| - 1], rest, TakeAll(st, rs[..|rs| - 1], offset, wanted), offset, wanted);
    }
  }

  lemma {:induction false} LoadLast(front: seq<Record>, last: Record, rs: seq<Record>, rest: seq<Byte>)
    requires rs != [] && front == rs[..|rs| - 1] && last == rs[|rs| - 1] && Readable(rs)
    ensures Readable(front) && IsLabel(last.symbol) && last.mode != LABEL_END
    ensures EncodeAll(rs) + rest == EncodeAll(front) + (Encode(last) + rest)
  {
  }

  ghost function Save(tables: seq<seq<Stored>>, code: seq<Byte>): seq<Byte>
    requires Writable(tables) && |tables| == TABLES &&
             forall i :: 0 <= i < |AllRecords(tables, TABLES)| ==> |AllRecords(tables, TABLES)[i].symbol| <= 255
  {
    EncodeAll(AllRecords(tables, TABLES)) + Encode(END_RECORD) + code
  }

  // ----- The tables -----

  /** An entry as it comes back. */
  function Back(e: Stored, table: nat, offset: Word): Stored {
    Stored(if table == ADJUSTMENT then None else if e.symbol.Some? then e.symbol else Some([]),
           Wrap(e.address + offset))
  }

  /** A section is dropped if it starts where the section kept before it starts. */
  predicate Dropped(e: Stored, table: nat, offset: Word, last: Option<Word>) {
    table == SECTION && last.Some? && e.address + offset == last.value
  }

  /** One table as it comes back, and the start of the last section kept. */
  function BackAll(es: seq<Stored>, table: nat, offset: Word, last: Option<Word>): (r: (seq<Stored>, Option<Word>))
    ensures |r.0| <= |es|
  {
    if es == [] then ([], last)
    else
      var (kept, end) := BackAll(es[..|es| - 1], table, offset, last);
      var e := es[|es| - 1];
      if Dropped(e, table, offset, end) then (kept, end)
      else (kept + [Back(e, table, offset)], if table == SECTION then Some(Wrap(e.address + offset)) else end)
  }

  /** An entry of any table but the sections, read at an offset; an absent label comes back empty. */
  lemma {:induction false} EntryComesBack(es: seq<Stored>, table: nat, offset: Word, last: Option<Word>, k: nat)
    requires table != SECTION && k < |es|
    ensures var kept := BackAll(es, table, offset, last).0;
            && |kept| == |es|
            && kept[k].address == (es[k].address + offset) % 0x10000
            && kept[k].symbol == if table == ADJUSTMENT then None
                                 else if es[k].symbol.None? then Some([]) else es[k].symbol
  {
    var m := |es| - 1;
    if k < m { EntryComesBack(es[..m], table, offset, last, k); }
    else if m > 0 { EntryComesBack(es[..m], table, offset, last, 0); }
  }

  function Extended(st: Loading, table: nat, kept: seq<Stored>, last: Option<Word>): Loading
    requires table < |st.tables|
  {
    Loading(st.tables[table := st.tables[table] + kept], last)
  }

  lemma {:induction false} TakeOne(st: Loading, table: nat, kept: seq<Stored>, last: Option<Word>, e: Stored,
          offset: Word, wanted: seq<bool>)
    requires table < TABLES && |st.tables| == |wanted| == TABLES && wanted[table]
    ensures Take(Extended(st, table, kept, last), RecordOf(e, table), offset, wanted) ==
            if Dropped(e, table, offset, last) then Extended(st, table, kept, last)
            else Extended(st, table, kept + [Back(e, table, offset)],
                          if table == SECTION then Some(Wrap(e.address + offset)) else last)
  {
    var more := st.tables[table] + kept + [Back(e, table, offset)];
    assert more == st.tables[table] + (kept + [Back(e, table, offset)]);
    assert st.tables[table := st.tables[table] + kept][table := more] == st.tables[table := more];
  }

  lemma {:induction false} TakeUnwanted(st: Loading, es: seq<Stored>, table: nat, offset: Word, wanted: seq<bool>)
    requires table < TABLES && |st.tables| == |wanted| == TABLES && !wanted[table]
    ensures TakeAll(st, Records(es, table), offset, wanted) == st
  {
    if es != [] {
      TakeUnwanted(st, es[..|es| - 1], table, offset, wanted);
      assert Records(es, table)[..|es| - 1] == Records(es[..|es| - 1], table);
    }
  }

  lemma {:induction false} TakeTable(st: Loading, es: seq<Stored>, table: nat, offset: Word, wanted: seq<bool>)
    requires table < TABLES && |st.tables| == |wanted| == TABLES && wanted[table]
    ensures var (kept, last) := BackAll(es, table, offset, st.lastSection);
            TakeAll(st, Records(es, table), offset, wanted) == Extended(st, table, kept, last)
  {
    if es == [] {
      assert st.tables[table] + [] == st.tables[table];
      assert st.tables[table := st.tables[table]] == st.tables;
    } else {
      var rest := es[..|es| - 1];
      TakeTable(st, rest, table, offset, wanted);
      assert Records(es, table)[..|es| - 1] == Records(rest, table);
      var (kept, last) := BackAll(rest, table, offset, st.lastSection);
      TakeOne(st, table, kept, last, es[|es| - 1], offset, wanted);
    }
  }

  lemma {:induction false} TakeAppend(st: Loading, rs: seq<Record>, qs: seq<Record>, offset: Word, wanted: seq<bool>)
    requires |st.tables| == |wanted| == TABLES
    ensures TakeAll(st, rs + qs, offset, wanted) == TakeAll(TakeAll(st, rs, offset, wanted), qs, offset, wanted)
  {
    if qs == [] {
      assert rs + qs == rs;
    } else {
      TakeAppend(st, rs, qs[..|qs| - 1], offset, wanted);
      assert (rs + qs)[..|rs + qs| - 1] == rs + qs[..|qs| - 1];
    }
  }

  /** Table `i` after the file has been read. */
  function Expected(initial: seq<seq<Stored>>, tables: seq<seq<Stored>>, offset: Word, wanted: seq<bool>,
          i: nat): seq<Stored>
    requires i < |initial| == |tables| == |wanted| == TABLES
  {
    initial[i] + if wanted[i] then BackAll(tables[i], i, offset, None).0 else []
  }

  /** The first `k` tables have been read. */
  ghost predicate TablesRead(initial: seq<seq<Stored>>, tables: seq<seq<Stored>>, offset: Word, wanted: seq<bool>,
          k: nat, st: Loading)
    requires k <= |initial| == |tables| == |wanted| == TABLES
  {
    && |st.tables| == TABLES && (k <= SECTION ==> st.lastSection == None)
    && forall i :: 0 <= i < TABLES ==>
                     st.tables[i] == if i < k then Expected(initial, tables, offset, wanted, i) else initial[i]
  }

  /** Only the section table depends on the last section. */
  lemma {:induction false} BackAllPlain(es: seq<Stored>, table: nat, offset: Word, last: Option<Word>,
          last': Option<Word>)
    requires table != SECTION
    ensures BackAll(es, table, offset, last).0 == BackAll(es, table, offset, last').0 &&
            BackAll(es, table, offset, last).1 == last
  {
    if es != [] { BackAllPlain(es[..|es| - 1], table, offset, last, last'); }
  }

  lemma {:induction false} ReadTable(initial: seq<seq<Stored>>, tables: seq<seq<Stored>>, offset: Word,
          wanted: seq<bool>, k: nat, st: Loading)
    requires k < |initial| == |tables| == |wanted| == TABLES && TablesRead(initial, tables, offset, wanted, k, st)
    ensures TablesRead(initial, tables, offset, wanted, k + 1, TakeAll(st, Records(tables[k], k), offset, wanted))
  {
    if wanted[k] { TakeTable(st, tables[k], k, offset, wanted); }
        else { TakeUnwanted(st, tables[k], k, offset, wanted); }
    if k != SECTION { BackAllPlain(tables[k], k, offset, st.lastSection, None); }
  }

  lemma {:induction false} ReadTables(initial: seq<seq<Stored>>, tables: seq<seq<Stored>>, offset: Word,
          wanted: seq<bool>, k: nat)
    requires k <= |initial| == |tables| == |wanted| == TABLES
    ensures TablesRead(initial, tables, offset, wanted, k,
                       TakeAll(Loading(initial, None), AllRecords(tables, k), offset, wanted))
  {
    if k > 0 {
      ReadTables(initial, tables, offset, wanted, k - 1);
      var st := TakeAll(Loading(initial, None), AllRecords(tables, k - 1), offset, wanted);
      ReadTable(initial, tables, offset, wanted, k - 1, st);
      TakeAppend(Loading(initial, None), AllRecords(tables, k - 1), Records(tables[k - 1], k - 1), offset, wanted);
    }
  }

  ghost predicate LabelsFit(tables: seq<seq<Stored>>) {
    forall i, e :: 0 <= i < |tables| && e in tables[i] && e.symbol.Some? ==> IsLabel(e.symbol.value)
  }

  lemma {:induction false} RecordsReadable(tables: seq<seq<Stored>>, k: nat)
    requires k <= |tables| == TABLES && LabelsFit(tables)
    ensures Readable(AllRecords(tables, k))
  {
    if k > 0 {
      RecordsReadable(tables, k - 1);
      var rs := Records(tables[k - 1], k - 1);
      forall i | 0 <= i < |rs| ensures IsLabel(rs[i].symbol) && rs[i].mode != LABEL_END {
        assert tables[k - 1][i] in tables[k - 1];
      }
    }
  }

  /** What is saved and loaded again: every wanted table is appended to its list, and the code follows. */
  lemma {:induction false} LoadOfSave(initial: seq<seq<Stored>>, tables: seq<seq<Stored>>, offset: Word,
          wanted: seq<bool>, code: seq<Byte>)
    requires |initial| == |tables| == |wanted| == TABLES && LabelsFit(tables) && Writable(tables)
    ensures Readable(AllRecords(tables, TABLES))
    ensures var r := Load(Save(tables, code), Loading(initial, None), offset, wanted);
            && r.Some? && r.value.1 == code && |r.value.0.tables| == TABLES
            && forall i :: 0 <= i < TABLES ==> r.value.0.tables[i] == Expected(initial, tables, offset, wanted, i)
  {
    RecordsReadable(tables, TABLES);
    var rs, st := AllRecords(tables, TABLES), Loading(initial, None);
    assert Save(tables, code) == EncodeAll(rs) + (Encode(END_RECORD) + code);
    LoadRecords(rs, Encode(END_RECORD) + code, st, offset, wanted);
    LoadOne(END_RECORD, code, TakeAll(st, rs, offset, wanted), offset, wanted);
    ReadTables(initial, tables, offset, wanted, TABLES);
  }

  // ----- The round trip -----

  const NO_TABLES: seq<seq<Stored>> := [[], [], [], [], [], [], [], []]
  const ALL_TABLES: seq<bool> := [true, true, true, true, true, true, true, true]

  /** Labels are present except in the adjustment table. */
  predicate Labelled(e: Stored, table: nat) {
    e.symbol.Some? == (table != ADJUSTMENT)
  }

  ghost predicate NoRepeats(es: seq<Stored>) {
    forall i :: 0 <= i < |es| - 1 ==> es[i].address != es[i + 1].address
  }

  ghost predicate Faithful(es: seq<Stored>, table: nat) {
    (forall i :: 0 <= i < |es| ==> Labelled(es[i], table)) && (table == SECTION ==> NoRepeats(es))
  }

  lemma {:induction false} FaithfulPrefix(es: seq<Stored>, table: nat)
    requires es != []
    ensures Faithful(es, table) <==>
            && Faithful(es[..|es| - 1], table) && Labelled(es[|es| - 1], table)
            && (table == SECTION && |es| > 1 ==> es[|es| - 2].address != es[|es| - 1].address)
  {
    var rest := es[..|es| - 1];
    if Faithful(es, table) {
      assert forall i :: 0 <= i < |rest| ==> rest[i] == es[i];
    }
    if Faithful(rest, table) && Labelled(es[|es| - 1], table) &&
        (table == SECTION && |es| > 1 ==> es[|es| - 2].address != es[|es| - 1].address) {
      forall i | 0 <= i < |es| ensures Labelled(es[i], table) {
        assert i < |rest| ==> rest[i] == es[i];
      }
      if table == SECTION {
        forall i | 0 <= i < |es| - 1 ensures es[i].address != es[i + 1].address {
          assert rest[i] == es[i];
          assert i + 1 < |rest| ==> rest[i + 1] == es[i + 1];
        }
      }
    }
  }

  /** One table comes back as it was exactly if it is faithful. */
  lemma {:induction false} BackIsSame(es: seq<Stored>, table: nat)
    ensures BackAll(es, table, 0, None).0 == es <==> Faithful(es, table)
    ensures Faithful(es, table) && table == SECTION ==>
              BackAll(es, table, 0, None).1 == if es == [] then None else Some(es[|es| - 1].address)
  {
    if es != [] {
      var rest, e := es[..|es| - 1], es[|es| - 1];
      BackIsSame(rest, table);
      FaithfulPrefix(es, table);
      var (kept, end) := BackAll(rest, table, 0, None);
      assert es == rest + [e];
      assert Back(e, table, 0) == e <==> Labelled(e, table);
      if BackAll(es, table, 0, None).0 == es {
        assert !Dropped(e, table, 0, end);
        assert kept == rest by {
          assert kept == (kept + [Back(e, table, 0)])[..|kept|];
        }
      }
    }
  }

  /**
   Loading what was saved gives back all eight tables in order, with the code behind them, if and only if
   labels are present everywhere but in the adjustment table and no two consecutive sections start at the
   same address.
   */
  lemma {:induction false} RoundTrip(tables: seq<seq<Stored>>, code: seq<Byte>)
    requires |tables| == TABLES && LabelsFit(tables) && Writable(tables)
    ensures Readable(AllRecords(tables, TABLES))
    ensures var r := Load(Save(tables, code), Loading(NO_TABLES, None), 0, ALL_TABLES);
            && r.Some? && r.value.1 == code
            && (r.value.0.tables == tables <==> forall i :: 0 <= i < TABLES ==> Faithful(tables[i], i))
  {
    LoadOfSave(NO_TABLES, tables, 0, ALL_TABLES, code);
    var back := Load(Save(tables, code), Loading(NO_TABLES, None), 0, ALL_TABLES).value.0.tables;
    forall i | 0 <= i < TABLES ensures back[i] == tables[i] <==> Faithful(tables[i], i) {
      assert back[i] == Expected(NO_TABLES, tables, 0, ALL_TABLES, i);
      assert NO_TABLES[i] + BackAll(tables[i], i, 0, None).0 == BackAll(tables[i], i, 0, None).0;
      BackIsSame(tables[i], i);
    }
  }

  // ----- In place -----

  /** `ldata_write`: the label is copied into a zeroed buffer of 256 bytes. */
  method WriteRecord(out: seq<Byte>, r: Record) returns (r': seq<Byte>)
    requires |r.symbol| <= 255
    ensures r' == out + Encode(r)
  {
    var buffer := new Byte[256](_ => 0);
    for i := 0 to |r.symbol|
      invariant forall j :: 0 <= j < 256 ==> buffer[j] == if j < i then r.symbol[j] else 0
    {
      buffer[i] := r.symbol[i];
    }
    buffer[255] := 0;
    assert buffer[..] == r.symbol + Zeros(256 - |r.symbol|);
    r' := out + buffer[..] + [r.mode, r.address % 256, r.address / 256];
  }

  /** `objfile_save` of one table; false when a label that is read is absent. */
  method SaveTable(out: seq<Byte>, es: seq<Stored>, table: nat) returns (ok: bool, r: seq<Byte>)
    requires table < TABLES && Short(Records(es, table))
    ensures ok <==> TableWritable(es, table)
    ensures ok ==> r == out + EncodeAll(Records(es, table))
  {
    ok, r := true, out;
    ghost var rs := Records(es, table);
    for i := 0 to |es|
      invariant forall k :: 0 <= k < i ==> IsWritable(es[k], table)
      invariant r == out + EncodeAll(rs[..i])
    {
      if !IsWritable(es[i], table) { return false, r; }
      assert rs[..i + 1][..i] == rs[..i] && rs[i] == RecordOf(es[i], table);
      r := WriteRecord(r, RecordOf(es[i], table));
    }
    assert rs[..|es|] == rs;
  }

  lemma {:induction false} EncodeAppend(rs: seq<Record>, qs: seq<Record>)
    requires Short(rs) && Short(qs)
    ensures Short(rs + qs) && EncodeAll(rs + qs) == EncodeAll(rs) + EncodeAll(qs)
  {
    if qs == [] {
      assert rs + qs == rs;
    } else {
      var front, last := qs[..|qs| - 1], qs[|qs| - 1];
      EncodeAppend(rs, front);
      assert (rs + qs)[..|rs + qs| - 1] == rs + front && (rs + qs)[|rs + qs| - 1] == last;
      assert EncodeAll(rs) + EncodeAll(front) + Encode(last) == EncodeAll(rs) + (EncodeAll(front) + Encode(last));
    }
  }

  lemma {:induction false} TableShort(tables: seq<seq<Stored>>, k: nat)
    requires k < |tables| == TABLES && LabelsFit(tables)
    ensures Short(Records(tables[k], k)) && Short(AllRecords(tables, k))
  {
    RecordsReadable(tables, k);
    forall i | 0 <= i < |tables[k]| ensures |Records(tables[k], k)[i].symbol| <= 255 {
      assert tables[k][i] in tables[k];
    }
  }

  lemma {:induction false} NextTable(tables: seq<seq<Stored>>, k: nat)
    requires k < |tables| == TABLES && LabelsFit(tables)
    ensures Short(Records(tables[k], k)) && Short(AllRecords(tables, k)) && Short(AllRecords(tables, k + 1))
    ensures EncodeAll(AllRecords(tables, k + 1)) == EncodeAll(AllRecords(tables, k)) + EncodeAll(Records(tables[k], k))
  {
    TableShort(tables, k);
    EncodeAppend(AllRecords(tables, k), Records(tables[k], k));
  }

  method SaveTables(tables: seq<seq<Stored>>) returns (ok: bool, out: seq<Byte>)
    requires |tables| == TABLES && LabelsFit(tables)
    ensures ok <==> Writable(tables)
    ensures ok ==> Short(AllRecords(tables, TABLES)) && out == EncodeAll(AllRecords(tables, TABLES))
  {
    ok, out := true, [];
    for k := 0 to TABLES
      invariant forall i :: 0 <= i < k ==> TableWritable(tables[i], i)
      invariant Short(AllRecords(tables, k)) && out == EncodeAll(AllRecords(tables, k))
    {
      NextTable(tables, k);
      ok, out := SaveTable(out, tables[k], k);
      if !ok { return; }
    }
  }

  /** `objfile_save`: the eight tables, the end record and the code; false when an absent label is read. */
  method SaveFile(tables: seq<seq<Stored>>, code: seq<Byte>) returns (ok: bool, out: seq<Byte>)
    requires |tables| == TABLES && LabelsFit(tables)
    ensures ok <==> Writable(tables)
    ensures ok ==> Readable(AllRecords(tables, TABLES)) && out == Save(tables, code)
  {
    ok, out := SaveTables(tables);
    if ok {
      RecordsReadable(tables, TABLES);
      out := WriteRecord(out, END_RECORD);
      out := out + code;
    }
  }

  /**
   `objfile_load`: a loop over the records; none if the file ends early. The caller's offset is moved on by the
   number of words behind the records, so that the next file is loaded behind this one.
   */
  method LoadFile(s: seq<Byte>, initial: seq<seq<Stored>>, offset: Word, wanted: seq<bool>)
    returns (r: Option<(Loading, seq<Byte>)>, next: Word)
    requires |initial| == |wanted| == TABLES
    ensures r == Load(s, Loading(initial, None), offset, wanted)
    ensures next == if r.Some? then Wrap(offset + |r.value.1| / 2) else offset
  {
    var pos: nat, st := 0, Loading(initial, None);
    while pos + 259 <= |s|
      invariant pos <= |s| && |st.tables| == TABLES
      invariant Load(s, Loading(initial, None), offset, wanted) == Load(s[pos..], st, offset, wanted)
      decreases |s| - pos
    {
      var rec := Decode(s[pos..]);
      assert s[pos..][259..] == s[pos + 259..];
      pos := pos + 259;
      if rec.mode == LABEL_END {
        return Some((st, s[pos..])), Wrap(offset + (|s| - pos) / 2);
      }
      st := Take(st, rec, offset, wanted);
    }
    r, next := None, offset;
  }
}
