/**
 `bins_write_jump` (libdcpu-ld/ldbins.c): one table word per exported function is inserted at the table
 start, while each insertion moves the functions, the labels and the words already written.
 */
module JumpTable {
  import opened Words
  import opened BinImages
  import opened Splicing
  import opened Bins
  import opened Flattening
  import opened FlattenMeaning
  import Meaning

  const TEMP: Name := "<temp>"

  function TempImage(): Image {
    Image(TEMP, [0], [], [], [], [], [], [], [])
  }

  /** The entry that marks where the table goes; it has no label. */
  predicate IsTableStart(e: Entry) {
    e.symbol.None? || e.symbol.value == ""
  }

  function FindStart(jump: seq<Entry>, i: nat): (r: Option<Entry>)
    requires i <= |jump|
    ensures r.Some? ==> r.value in jump && IsTableStart(r.value)
    ensures r.None? ==> forall j :: i <= j < |jump| ==> !IsTableStart(jump[j])
    decreases |jump| - i
  {
    if i == |jump| then None else if IsTableStart(jump[i]) then Some(jump[i]) else FindStart(jump, i + 1)
  }

  function JumpSplice(img: Image, pos: nat): Splice {
    Splice(img.name, TEMP, pos, 0, 1)
  }

  /** One exported function: a zero word goes in, is overwritten with the function's new address, and is
      recorded as an adjustment; the jump entry then names the table word. */
  function JumpStep(img: Image, i: nat, pos: Word): Image
    requires CanInsert(img, TempImage(), JumpSplice(img, pos)) && i < |img.jump|
  {
    var ins := InsertInto(img, TempImage(), JumpSplice(img, pos));
    ins.(words := ins.words[pos := ins.jump[i].address],
         adjustment := ins.adjustment + [Entry(None, img.name, pos)],
         jump := ins.jump[i := ins.jump[i].(address := pos)])
  }

  /** One round of the loop over the jump entries. */
  function JumpRound(st: (Image, nat), i: nat): Option<(Image, nat)> {
    var (img, pos) := st;
    if i >= |img.jump| then None
    else if IsTableStart(img.jump[i]) then Some(st)
    else if pos < WORD_COUNT && CanInsert(img, TempImage(), JumpSplice(img, pos))
    then Some((JumpStep(img, i, pos), pos + 1))
    else None
  }

  function WriteEntries(img: Image, pos: nat, i: nat): Option<(Image, nat)> {
    Iterate(JumpRound, (img, pos), i)
  }

  // ----- The simple description -----

  function Exported(jump: seq<Entry>, i: nat): nat
    requires i <= |jump|
  {
    if i == 0 then 0 else Exported(jump, i - 1) + if IsTableStart(jump[i - 1]) then 0 else 1
  }

  /** Where a place is once `n` words have been inserted at `start`. */
  function Raised(a: nat, start: nat, n: nat): nat {
    if a >= start then a + n else a
  }

  ghost function RaiseCell(c: Cell, name: Name, start: nat, n: nat): Cell {
    match c
    case Lit(_) => c
    case Ptr(b, a) => if b == name then Ptr(b, Wrap(Raised(a, start, n))) else c
  }

  ghost function RaiseCells(cs: seq<Cell>, name: Name, start: nat, n: nat): (r: seq<Cell>)
    ensures |r| == |cs|
    ensures forall i :: 0 <= i < |cs| ==> r[i] == RaiseCell(cs[i], name, start, n)
  {
    seq(|cs|, i requires 0 <= i < |cs| => RaiseCell(cs[i], name, start, n))
  }

  /** The table: a pointer to each exported function among the first `i` entries, in order. */
  ghost function TableCells(jump: seq<Entry>, name: Name, i: nat): (r: seq<Cell>)
    requires i <= |jump|
    ensures |r| == Exported(jump, i)
  {
    if i == 0 then []
    else TableCells(jump, name, i - 1) + if IsTableStart(jump[i - 1]) then [] else [Ptr(name, jump[i - 1].address)]
  }

  ghost function WithTable(cells: seq<Cell>, jump: seq<Entry>, name: Name, start: nat, i: nat): seq<Cell>
    requires start <= |cells| && i <= |jump|
  {
    cells[..start] + TableCells(jump, name, i) + cells[start..]
  }

  /** A jump entry after the first `i` rounds. */
  function JumpEntry(jump: seq<Entry>, start: nat, i: nat, j: nat): Entry
    requires i <= |jump| && j < |jump|
  {
    if j < i && !IsTableStart(jump[j]) then jump[j].(address := Wrap(start + Exported(jump, j)))
    else jump[j].(address := Wrap(Raised(jump[j].address, start, Exported(jump, i))))
  }

  function RaiseTable(es: seq<Entry>, start: nat, n: nat): (r: seq<Entry>)
    ensures |r| == |es|
    ensures forall k :: 0 <= k < |es| ==> r[k] == es[k].(address := Wrap(Raised(es[k].address, start, n)))
  {
    seq(|es|, k requires 0 <= k < |es| => es[k].(address := Wrap(Raised(es[k].address, start, n))))
  }

  ghost predicate Small(es: seq<Entry>, limit: int) {
    forall k :: 0 <= k < |es| ==> es[k].address <= limit
  }

  /** The code after the first `i` rounds. */
  ghost predicate CodeWithJumps(img: Image, start: nat, i: nat, r: Image)
    requires start <= |img.words| && i <= |img.jump|
  {
    && r.name == img.name && WellFormed(r)
    && View(r) == RaiseCells(WithTable(View(img), img.jump, img.name, start, i), img.name, start, Exported(img.jump, i))
  }

  ghost predicate JumpEntries(jump: seq<Entry>, start: nat, i: nat, r: seq<Entry>)
    requires i <= |jump|
  {
    |r| == |jump| && forall j :: 0 <= j < |jump| ==> r[j] == JumpEntry(jump, start, i, j)
  }

  /** The other tables after `n` insertions; outputs are not shifted. */
  ghost predicate TablesRaised(img: Image, start: nat, n: nat, r: Image) {
    && r.provided == RaiseTable(img.provided, start, n) && r.required == RaiseTable(img.required, start, n)
    && r.optional == RaiseTable(img.optional, start, n) && r.call == RaiseTable(img.call, start, n)
    && r.output == img.output
  }

  // ----- One round -----

  lemma {:induction false} RaisedStep(a: nat, start: nat, n: nat, limit: nat)
    requires a <= limit && limit + n + 1 < WORD_COUNT
    ensures ShiftedUp(Wrap(Raised(a, start, n)), start + n, 1) == Wrap(Raised(a, start, n + 1))
  {
  }

  lemma {:induction false} RaiseTableStep(es: seq<Entry>, start: nat, n: nat, limit: nat)
    requires Small(es, limit) && limit + n + 1 < WORD_COUNT
    ensures ShiftUp(RaiseTable(es, start, n), start + n, 1) == RaiseTable(es, start, n + 1)
  {
    forall k | 0 <= k < |es|
      ensures ShiftedUp(Wrap(Raised(es[k].address, start, n)), start + n, 1) ==
              Wrap(Raised(es[k].address, start, n + 1))
    {
      RaisedStep(es[k].address, start, n, limit);
    }
  }

  lemma {:induction false} RaiseCellStep(c: Cell, name: Name, start: nat, n: nat, limit: nat)
    requires name != TEMP && (c.Ptr? ==> c.address <= limit && c.bin != TEMP) && limit + n + 1 < WORD_COUNT
    ensures MapCell(RaiseCell(c, name, start, n), Splice(name, TEMP, start + n, 0, 1)) ==
            RaiseCell(c, name, start, n + 1)
  {
    if c.Ptr? { RaisedStep(c.address, start, n, limit); }
  }

  lemma {:induction false} TempView()
    ensures WellFormed(TempImage()) && View(TempImage()) == [Lit(0)]
  {
    assert !IsSlot(TempImage().adjustment, 0);
  }

  lemma {:induction false} JumpStepView(img: Image, i: nat, pos: Word)
    requires CanInsert(img, TempImage(), JumpSplice(img, pos)) && i < |img.jump| && WellFormed(img)
    ensures var r := JumpStep(img, i, pos);
            && WellFormed(r)
            && View(r) == MapCells(View(img)[..pos] + [Lit(0)] + View(img)[pos..], JumpSplice(img, pos))
                          [pos := Ptr(img.name, ShiftedUp(img.jump[i].address, pos, 1))]
  {
    var sp := JumpSplice(img, pos);
    var ins := InsertInto(img, TempImage(), sp);
    TempView();
    ViewOfInsert(img, TempImage(), sp);
    assert SplicedView(View(img), [Lit(0)], sp) == View(img)[..pos] + [Lit(0)] + View(img)[pos..];
    assert View(ins)[pos] == Lit(0);
    Meaning.LiteralIsNoSlot(ins, pos);
    assert ins.jump == ShiftUp(img.jump, pos, 1);
    Meaning.ViewOfMark(ins, Entry(None, img.name, pos), ins.jump[i].address);
  }

  /** Every pointer of the table so far, and of the code, stays within reach of `limit`. */
  ghost predicate Reach(cells: seq<Cell>, limit: nat) {
    forall k :: 0 <= k < |cells| && cells[k].Ptr? ==> cells[k].address <= limit && cells[k].bin != TEMP
  }

  lemma {:induction false} TableReach(jump: seq<Entry>, name: Name, i: nat, limit: nat)
    requires i <= |jump| && Small(jump, limit) && name != TEMP
    ensures Reach(TableCells(jump, name, i), limit)
  {
    if i > 0 { TableReach(jump, name, i - 1, limit); }
  }

  lemma {:induction false} WithTableStep(cells: seq<Cell>, jump: seq<Entry>, name: Name, start: nat, i: nat)
    requires start <= |cells| && i < |jump| && !IsTableStart(jump[i])
    ensures var pos, t := start + Exported(jump, i), WithTable(cells, jump, name, start, i);
            && pos <= |t|
            && WithTable(cells, jump, name, start, i + 1) == t[..pos] + [Ptr(name, jump[i].address)] + t[pos..]
  {
    var pos, t := start + Exported(jump, i), WithTable(cells, jump, name, start, i);
    assert t[..pos] == cells[..start] + TableCells(jump, name, i);
    assert t[pos..] == cells[start..];
  }

  lemma {:induction false} RaiseStep(t: seq<Cell>, name: Name, start: nat, n: nat, j: Word, limit: nat)
    requires start + n <= |t| && Reach(t, limit) && j <= limit && name != TEMP && limit + n + 1 < WORD_COUNT
    ensures var pos, sp := start + n, Splice(name, TEMP, start + n, 0, 1);
            var v := RaiseCells(t, name, start, n);
            MapCells(v[..pos] + [Lit(0)] + v[pos..],
                     sp)[pos := Ptr(name, ShiftedUp(Wrap(Raised(j, start, n)), pos, 1))] ==
            RaiseCells(t[..pos] + [Ptr(name, j)] + t[pos..], name, start, n + 1)
  {
    var pos, sp, v := start + n, Splice(name, TEMP, start + n, 0, 1), RaiseCells(t, name, start, n);
    RaisedStep(j, start, n, limit);
    var lhs := MapCells(v[..pos] + [Lit(0)] + v[pos..],
                        sp)[pos := Ptr(name, ShiftedUp(Wrap(Raised(j, start, n)), pos, 1))];
    var rhs := RaiseCells(t[..pos] + [Ptr(name, j)] + t[pos..], name, start, n + 1);
    forall p | 0 <= p < |lhs| ensures lhs[p] == rhs[p] {
      if p < pos {
        RaiseCellStep(t[p], name, start, n, limit);
      } else if p > pos {
        RaiseCellStep(t[p - 1], name, start, n, limit);
      }
    }
  }

  /** Code for which the whole table fits: addresses stay below 0x10000 throughout. */
  ghost predicate CodeFits(img: Image, start: nat) {
    && img.name != TEMP && WellFormed(img) && start <= |img.words| && Reach(View(img), |img.words|)
    && |img.words| + Exported(img.jump, |img.jump|) + 1 < WORD_COUNT && Small(img.jump, |img.words|)
  }

  ghost predicate TablesFit(img: Image) {
    && Small(img.provided, |img.words|) && Small(img.required, |img.words|)
    && Small(img.optional, |img.words|) && Small(img.call, |img.words|)
  }

  lemma {:induction false} ExportedMonotone(jump: seq<Entry>, i: nat, k: nat)
    requires i <= k <= |jump|
    ensures Exported(jump, i) <= Exported(jump, k)
  {
    if i < k { ExportedMonotone(jump, i, k - 1); }
  }

  lemma {:induction false} ExportView(t: seq<Cell>, m: Image, i: nat, start: nat, n: nat, j: Word, limit: nat)
    requires m.name != TEMP && WellFormed(m) && i < |m.jump| && start + n < WORD_COUNT
    requires CanInsert(m, TempImage(), JumpSplice(m, start + n))
    requires View(m) == RaiseCells(t, m.name, start, n) && m.jump[i].address == Wrap(Raised(j, start, n))
    requires start + n <= |t| && Reach(t, limit) && j <= limit && limit + n + 1 < WORD_COUNT
    ensures var pos := start + n;
            && WellFormed(JumpStep(m, i, pos))
            && View(JumpStep(m, i, pos)) == RaiseCells(t[..pos] + [Ptr(m.name, j)] + t[pos..], m.name, start, n + 1)
  {
    JumpStepView(m, i, start + n);
    RaiseStep(t, m.name, start, n, j, limit);
  }

  lemma {:induction false} ReachWithTable(cells: seq<Cell>, jump: seq<Entry>, name: Name, start: nat, i: nat,
          limit: nat)
    requires start <= |cells| && i <= |jump| && Small(jump, limit) && name != TEMP && Reach(cells, limit)
    ensures Reach(WithTable(cells, jump, name, start, i), limit)
    ensures |WithTable(cells, jump, name, start, i)| == |cells| + Exported(jump, i)
  {
    TableReach(jump, name, i, limit);
  }

  lemma {:induction false} JumpSizes(img: Image, start: nat, i: nat, m: Image)
    requires start <= |img.words| && i <= |img.jump| && CodeWithJumps(img, start, i, m)
    ensures |m.words| == |img.words| + Exported(img.jump, i)
  {
    assert |View(m)| == |WithTable(View(img), img.jump, img.name, start, i)|;
  }

  lemma {:induction false} ExportRoom(m: Image, pos: nat)
    requires SlotsIn(m) && pos <= |m.words| && |m.words| + 1 <= WORD_COUNT
    ensures CanInsert(m, TempImage(), JumpSplice(m, pos))
  {
  }

  lemma {:induction false} ExportReady(jump: seq<Entry>, size: nat, start: nat, i: nat, m: Image)
    requires i < |jump| && !IsTableStart(jump[i]) && start <= size
    requires size + Exported(jump, |jump|) + 1 < WORD_COUNT
    requires SlotsIn(m) && |m.words| == size + Exported(jump, i)
    ensures start + Exported(jump, i) < WORD_COUNT && size + Exported(jump, i) + 1 < WORD_COUNT
    ensures CanInsert(m, TempImage(), JumpSplice(m, start + Exported(jump, i)))
  {
    ExportedMonotone(jump, i + 1, |jump|);
    ExportRoom(m, start + Exported(jump, i));
  }

  lemma {:induction false} ExportCode(img: Image, start: nat, i: nat, m: Image, n: nat, t: seq<Cell>)
    requires i < |img.jump| && !IsTableStart(img.jump[i]) && start <= |img.words|
    requires n == Exported(img.jump, i) && t == WithTable(View(img), img.jump, img.name, start, i)
    requires img.name != TEMP && m.name == img.name && WellFormed(m) && View(m) == RaiseCells(t, img.name, start, n)
    requires i < |m.jump| && m.jump[i].address == Wrap(Raised(img.jump[i].address, start, n))
    requires Reach(t, |img.words|) && img.jump[i].address <= |img.words|
    requires start + n < WORD_COUNT && |img.words| + n + 1 < WORD_COUNT
    requires CanInsert(m, TempImage(), JumpSplice(m, start + n))
    ensures CodeWithJumps(img, start, i + 1, JumpStep(m, i, start + n))
  {
    WithTableStep(View(img), img.jump, img.name, start, i);
    ExportView(t, m, i, start, n, img.jump[i].address, |img.words|);
  }

  lemma {:induction false} ExportStep(img: Image, start: nat, i: nat, m: Image, n: nat)
    requires img.name != TEMP && start <= |img.words| && Reach(View(img), |img.words|) && Small(img.jump, |img.words|)
    requires i < |img.jump| && !IsTableStart(img.jump[i]) && n == Exported(img.jump, i) &&
             CodeWithJumps(img, start, i, m)
    requires i < |m.jump| && m.jump[i].address == Wrap(Raised(img.jump[i].address, start, n))
    requires start + n < WORD_COUNT && |img.words| + n + 1 < WORD_COUNT &&
             CanInsert(m, TempImage(), JumpSplice(m, start + n))
    ensures CodeWithJumps(img, start, i + 1, JumpStep(m, i, start + n))
  {
    ReachWithTable(View(img), img.jump, img.name, start, i, |img.words|);
    ExportCode(img, start, i, m, n, WithTable(View(img), img.jump, img.name, start, i));
  }

  lemma {:induction false} EntryStep(jump: seq<Entry>, start: nat, i: nat, j: nat, limit: nat)
    requires i < |jump| && !IsTableStart(jump[i]) && j < |jump| && Small(jump, limit)
    requires start <= limit && limit + Exported(jump, i) + 1 < WORD_COUNT
    ensures var pos := start + Exported(jump, i);
            var e := JumpEntry(jump, start, i, j);
            JumpEntry(jump, start, i + 1, j) ==
            if j == i then jump[i].(address := pos) else e.(address := ShiftedUp(e.address, pos, 1))
  {
    var n := Exported(jump, i);
    if j < i && !IsTableStart(jump[j]) {
      ExportedMonotone(jump, j + 1, i);
    } else if j != i {
      RaisedStep(jump[j].address, start, n, limit);
    }
  }

  lemma {:induction false} EntriesStep(jump: seq<Entry>, start: nat, i: nat, r: seq<Entry>, limit: nat)
    requires i < |jump| && !IsTableStart(jump[i]) && Small(jump, limit)
    requires start <= limit && limit + Exported(jump, i) + 1 < WORD_COUNT
    requires JumpEntries(jump, start, i, r)
    ensures var pos := start + Exported(jump, i);
            JumpEntries(jump, start, i + 1, ShiftUp(r, pos, 1)[i := r[i].(address := pos)])
  {
    var pos := start + Exported(jump, i);
    var r' := ShiftUp(r, pos, 1)[i := r[i].(address := pos)];
    forall j | 0 <= j < |jump| ensures r'[j] == JumpEntry(jump, start, i + 1, j) {
      EntryStep(jump, start, i, j, limit);
    }
  }

  lemma {:induction false} JumpsOfStep(m: Image, i: nat, pos: Word)
    requires CanInsert(m, TempImage(), JumpSplice(m, pos)) && i < |m.jump|
    ensures JumpStep(m, i, pos).jump == ShiftUp(m.jump, pos, 1)[i := m.jump[i].(address := pos)]
  {
    assert InsertInto(m, TempImage(), JumpSplice(m, pos)).jump == ShiftUp(m.jump, pos, 1);
  }

  lemma {:induction false} OtherTablesStep(img: Image, start: nat, n: nat, m: Image, i: nat)
    requires TablesFit(img) && TablesRaised(img, start, n, m) && i < |m.jump|
    requires start + n < WORD_COUNT && |img.words| + n + 1 < WORD_COUNT
    requires CanInsert(m, TempImage(), JumpSplice(m, start + n))
    ensures TablesRaised(img, start, n + 1, JumpStep(m, i, start + n))
  {
    RaiseTableStep(img.provided, start, n, |img.words|);
    RaiseTableStep(img.required, start, n, |img.words|);
    RaiseTableStep(img.optional, start, n, |img.words|);
    RaiseTableStep(img.call, start, n, |img.words|);
  }

  lemma {:induction false} JumpsStep(jump: seq<Entry>, start: nat, i: nat, m: Image, n: nat, limit: nat)
    requires i < |jump| && !IsTableStart(jump[i]) && Small(jump, limit) && n == Exported(jump, i)
    requires start <= limit && limit + n + 1 < WORD_COUNT && JumpEntries(jump, start, i, m.jump)
    requires CanInsert(m, TempImage(), JumpSplice(m, start + n))
    ensures JumpEntries(jump, start, i + 1, JumpStep(m, i, start + n).jump)
  {
    EntriesStep(jump, start, i, m.jump, limit);
    JumpsOfStep(m, i, start + n);
  }

  /** The image after round `i`, where it fits. */
  function Rounded(m: Image, i: nat, pos: nat): Image
    requires i < |m.jump|
    requires !IsTableStart(m.jump[i]) ==> pos < WORD_COUNT && CanInsert(m, TempImage(), JumpSplice(m, pos))
  {
    if IsTableStart(m.jump[i]) then m else JumpStep(m, i, pos)
  }

  ghost predicate RoundFits(m: Image, i: nat, pos: nat) {
    i < |m.jump| && (!IsTableStart(m.jump[i]) ==> pos < WORD_COUNT && CanInsert(m, TempImage(), JumpSplice(m, pos)))
  }

  lemma {:induction false} SameStart(jump: seq<Entry>, start: nat, i: nat, r: seq<Entry>)
    requires i < |jump| && JumpEntries(jump, start, i, r)
    ensures |r| == |jump| && IsTableStart(r[i]) == IsTableStart(jump[i])
    ensures r[i].address == Wrap(Raised(jump[i].address, start, Exported(jump, i)))
  {
    assert r[i] == JumpEntry(jump, start, i, i);
  }

  lemma {:induction false} RoundReady(img: Image, start: nat, i: nat, m: Image)
    requires CodeFits(img, start) && i < |img.jump|
    requires CodeWithJumps(img, start, i, m) && JumpEntries(img.jump, start, i, m.jump)
    ensures RoundFits(m, i, start + Exported(img.jump, i))
  {
    SameStart(img.jump, start, i, m.jump);
    if !IsTableStart(img.jump[i]) {
      JumpSizes(img, start, i, m);
      ExportReady(img.jump, |img.words|, start, i, m);
    }
  }

  lemma {:induction false} StartCode(img: Image, start: nat, i: nat, m: Image)
    requires i < |img.jump| && start <= |img.words| && IsTableStart(img.jump[i]) && CodeWithJumps(img, start, i, m)
    ensures CodeWithJumps(img, start, i + 1, m)
  {
    assert WithTable(View(img), img.jump, img.name, start, i + 1) == WithTable(View(img), img.jump, img.name, start, i);
  }

  lemma {:induction false} CodeRound(img: Image, start: nat, n: nat, i: nat, m: Image, r: Image)
    requires CodeFits(img, start) && i < |img.jump| && n == Exported(img.jump, i)
    requires CodeWithJumps(img, start, i, m) && JumpEntries(img.jump, start, i, m.jump)
    requires RoundFits(m, i, start + n)
    requires r == if IsTableStart(img.jump[i]) then m else JumpStep(m, i, start + n)
    ensures CodeWithJumps(img, start, i + 1, r)
  {
    if IsTableStart(img.jump[i]) {
      StartCode(img, start, i, m);
    } else {
      SameStart(img.jump, start, i, m.jump);
      JumpSizes(img, start, i, m);
      ExportReady(img.jump, |img.words|, start, i, m);
      ExportStep(img, start, i, m, n);
    }
  }

  lemma {:induction false} RoundedTo(m: Image, i: nat, pos: nat) returns (r: Image)
    requires RoundFits(m, i, pos)
    ensures r == Rounded(m, i, pos) && r == if IsTableStart(m.jump[i]) then m else JumpStep(m, i, pos)
  {
    r := Rounded(m, i, pos);
  }

  lemma {:induction false} StartEntries(jump: seq<Entry>, start: nat, i: nat, r: seq<Entry>)
    requires i < |jump| && IsTableStart(jump[i]) && JumpEntries(jump, start, i, r)
    ensures JumpEntries(jump, start, i + 1, r)
  {
    forall j | 0 <= j < |jump| ensures r[j] == JumpEntry(jump, start, i + 1, j) {
      assert r[j] == JumpEntry(jump, start, i, j);
    }
  }

  lemma {:induction false} EntriesRound(img: Image, start: nat, n: nat, i: nat, m: Image, r: Image)
    requires i < |img.jump| && start <= |img.words| && Small(img.jump, |img.words|) && n == Exported(img.jump, i)
    requires |img.words| + Exported(img.jump, |img.jump|) + 1 < WORD_COUNT
    requires JumpEntries(img.jump, start, i, m.jump) && RoundFits(m, i, start + n)
    requires r == if IsTableStart(img.jump[i]) then m else JumpStep(m, i, start + n)
    ensures JumpEntries(img.jump, start, i + 1, r.jump)
  {
    if IsTableStart(img.jump[i]) {
      StartEntries(img.jump, start, i, m.jump);
    } else {
      SameStart(img.jump, start, i, m.jump);
      ExportedMonotone(img.jump, i + 1, |img.jump|);
      JumpsStep(img.jump, start, i, m, n, |img.words|);
    }
  }

  lemma {:induction false} TablesRound(img: Image, start: nat, n: nat, m: Image, i: nat, r: Image, n': nat)
    requires TablesFit(img) && TablesRaised(img, start, n, m) && i < |m.jump| && RoundFits(m, i, start + n)
    requires r == if IsTableStart(m.jump[i]) then m else JumpStep(m, i, start + n)
    requires n' == if IsTableStart(m.jump[i]) then n else n + 1
    requires start <= |img.words| && |img.words| + n' < WORD_COUNT
    ensures TablesRaised(img, start, n', r)
  {
    if !IsTableStart(m.jump[i]) { OtherTablesStep(img, start, n, m, i); }
  }

  lemma {:induction false} RoundTaken(m: Image, i: nat, pos: nat)
    requires RoundFits(m, i, pos)
    ensures JumpRound((m, pos), i) == Some((Rounded(m, i, pos), pos + if IsTableStart(m.jump[i]) then 0 else 1))
  {
  }

  ghost predicate RoundsDone(img: Image, start: nat, i: nat)
    requires start <= |img.words| && i <= |img.jump|
  {
    var r := WriteEntries(img, start, i);
    && r.Some? && r.value.1 == start + Exported(img.jump, i)
    && CodeWithJumps(img, start, i, r.value.0) && JumpEntries(img.jump, start, i, r.value.0.jump)
  }

  lemma {:induction false} NextRound(img: Image, start: nat, i: nat)
    requires CodeFits(img, start) && i < |img.jump| && RoundsDone(img, start, i)
    ensures RoundsDone(img, start, i + 1)
  {
    var m := WriteEntries(img, start, i).value.0;
    RoundReady(img, start, i, m);
    var n := Exported(img.jump, i);
    var r := RoundTo(img, start, n, i, m);
    CodeRound(img, start, n, i, m, r);
    EntriesRound(img, start, n, i, m, r);
  }

  lemma {:induction false} RoundStep(img: Image, start: nat, i: nat, m: Image)
    requires i < |img.jump| && WriteEntries(img, start, i) == Some((m, start + Exported(img.jump, i)))
    requires RoundFits(m, i, start + Exported(img.jump, i)) && IsTableStart(m.jump[i]) == IsTableStart(img.jump[i])
    ensures WriteEntries(img, start, i + 1) ==
            Some((Rounded(m, i, start + Exported(img.jump, i)), start + Exported(img.jump, i + 1)))
  {
    RoundTaken(m, i, start + Exported(img.jump, i));
  }

  /** One more round, and what it does to the bin. */
  lemma {:induction false} RoundTo(img: Image, start: nat, n: nat, i: nat, m: Image) returns (r: Image)
    requires i < |img.jump| && n == Exported(img.jump, i) && WriteEntries(img, start, i) == Some((m, start + n))
    requires RoundFits(m, i, start + n) && JumpEntries(img.jump, start, i, m.jump)
    ensures IsTableStart(m.jump[i]) == IsTableStart(img.jump[i])
    ensures r == if IsTableStart(img.jump[i]) then m else JumpStep(m, i, start + n)
    ensures WriteEntries(img, start, i + 1) == Some((r, start + Exported(img.jump, i + 1)))
  {
    SameStart(img.jump, start, i, m.jump);
    RoundStep(img, start, i, m);
    r := RoundedTo(m, i, start + n);
  }

  /**
   The jump table is right after the whole loop: its words sit one after another from the table start, the
   k-th points to the final place of the k-th exported function although later insertions kept moving it,
   the k-th exported jump entry names its table word, and every other pointer of the bin still denotes its
   word.
   */
  lemma {:induction false} JumpTableIsBuilt(img: Image, start: nat, i: nat)
    requires CodeFits(img, start) && i <= |img.jump|
    ensures RoundsDone(img, start, i)
  {
    NoJumpsYet(img, start);
    for k := 0 to i
      invariant RoundsDone(img, start, k)
    {
      NextRound(img, start, k);
    }
  }

  ghost predicate LabelsRaised(img: Image, start: nat, i: nat)
    requires start <= |img.words| && i <= |img.jump|
  {
    var r := WriteEntries(img, start, i);
    r.Some? && TablesRaised(img, start, Exported(img.jump, i), r.value.0)
  }

  lemma {:induction false} NextLabels(img: Image, start: nat, i: nat)
    requires CodeFits(img, start) && TablesFit(img) && i < |img.jump|
    requires RoundsDone(img, start, i) && LabelsRaised(img, start, i)
    ensures LabelsRaised(img, start, i + 1)
  {
    var m := WriteEntries(img, start, i).value.0;
    RoundReady(img, start, i, m);
    var n := Exported(img.jump, i);
    var r := RoundTo(img, start, n, i, m);
    ExportedMonotone(img.jump, i + 1, |img.jump|);
    TablesRound(img, start, n, m, i, r, Exported(img.jump, i + 1));
  }

  /** The labels move with their words; outputs stay where they were recorded. */
  lemma {:induction false} JumpTableMovesLabels(img: Image, start: nat, i: nat)
    requires CodeFits(img, start) && TablesFit(img) && i <= |img.jump|
    ensures LabelsRaised(img, start, i)
  {
    for k := 0 to i
      invariant LabelsRaised(img, start, k)
    {
      JumpTableIsBuilt(img, start, k);
      NextLabels(img, start, k);
    }
  }

  lemma {:induction false} NoJumpsYet(img: Image, start: nat)
    requires CodeFits(img, start)
    ensures CodeWithJumps(img, start, 0, img) && JumpEntries(img.jump, start, 0, img.jump)
  {
    var v := View(img);
    assert WithTable(v, img.jump, img.name, start, 0) == v;
    assert RaiseCells(v, img.name, start, 0) == v;
  }
}
