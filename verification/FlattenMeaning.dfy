/**
 The first loop of `bins_flatten` refines "concatenate the objects and add each object's base to its
 pointers and table addresses", for any bins whose pointers and labels stay inside their objects.
 */
module FlattenMeaning {
  import opened Words
  import opened BinImages
  import opened Splicing
  import opened Bins
  import opened Flattening
  import Meaning

  // ----- The simple description -----

  ghost predicate Place(orig: seq<Image>, bin: Name, a: int) {
    exists j :: 0 <= j < |orig| && orig[j].name == bin && 0 <= a < |orig[j].words|
  }

  ghost predicate PointsInside(orig: seq<Image>, cells: seq<Cell>) {
    forall i :: 0 <= i < |cells| && cells[i].Ptr? ==> Place(orig, cells[i].bin, cells[i].address)
  }

  ghost predicate NamesApart(orig: seq<Image>, target: Name) {
    && (forall i, j :: 0 <= i < j < |orig| ==> orig[i].name != orig[j].name)
    && (forall i :: 0 <= i < |orig| ==> orig[i].name != target)
  }

  ghost predicate NoneInto(cells: seq<Cell>, name: Name) {
    forall a :: 0 <= a < |cells| && cells[a].Ptr? ==> cells[a].bin != name
  }

  /** Uniquely named bins whose pointers and labels each denote an existing word. */
  ghost predicate Linkable(orig: seq<Image>, target: Name) {
    && NamesApart(orig, target)
    && (forall i :: 0 <= i < |orig| ==> WellFormed(orig[i]) && PointsInside(orig, View(orig[i])))
    && (forall i, t, e :: 0 <= i < |orig| && t != Output && e in TableOf(orig[i], t) ==> e.address < |orig[i].words|)
    && FileSize(orig, |orig|) <= WORD_COUNT
  }

  /** Which of the first `k` bins is the file bin of that name. */
  ghost function FileIndex(orig: seq<Image>, k: nat, bin: Name): (r: Option<nat>)
    requires k <= |orig|
    ensures r.Some? ==> r.value < k && orig[r.value].name == bin && !IsSection(bin)
    ensures r.None? ==> forall i :: 0 <= i < k && orig[i].name == bin ==> IsSection(bin)
  {
    if k == 0 then None
    else if orig[k - 1].name == bin && !IsSection(bin) then Some(k - 1)
    else FileIndex(orig, k - 1, bin)
  }

  /** A pointer once the first `k` bins have been moved. */
  ghost function FlatCell(orig: seq<Image>, k: nat, target: Name, c: Cell): Cell
    requires k <= |orig|
  {
    match c
    case Lit(_) => c
    case Ptr(b, a) =>
      match FileIndex(orig, k, b)
      case None => c
      case Some(i) => Ptr(target, Wrap(FileSize(orig, i) + a))
  }

  ghost function FlatCells(orig: seq<Image>, k: nat, target: Name, cells: seq<Cell>): (r: seq<Cell>)
    requires k <= |orig|
    ensures |r| == |cells|
    ensures forall i :: 0 <= i < |cells| ==> r[i] == FlatCell(orig, k, target, cells[i])
  {
    seq(|cells|, i requires 0 <= i < |cells| => FlatCell(orig, k, target, cells[i]))
  }

  /** The cells of the file bins among the first `k`, one after another. */
  ghost function FileCells(orig: seq<Image>, k: nat): (r: seq<Cell>)
    requires k <= |orig|
    ensures |r| == FileSize(orig, k)
  {
    if k == 0 then []
    else FileCells(orig, k - 1) + if IsSection(orig[k - 1].name) then [] else View(orig[k - 1])
  }

  function Rebased(es: seq<Entry>, base: nat): (r: seq<Entry>)
    ensures |r| == |es|
    ensures forall i :: 0 <= i < |es| ==> r[i] == es[i].(address := Wrap(base + es[i].address))
  {
    seq(|es|, i requires 0 <= i < |es| => es[i].(address := Wrap(base + es[i].address)))
  }

  /** One table of the file bins among the first `k`, each entry moved by its object's base. */
  function FileTable(orig: seq<Image>, k: nat, t: Table): seq<Entry>
    requires k <= |orig|
  {
    if k == 0 then []
    else FileTable(orig, k - 1, t) +
         if IsSection(orig[k - 1].name) then []
         else Rebased(SortByAddress(TableOf(orig[k - 1], t)), FileSize(orig, k - 1))
  }

  // ----- One moved bin -----

  lemma {:induction false} FlatOldStep(orig: seq<Image>, k: nat, target: Name, b: Name, a: Word, i: nat)
    requires NamesApart(orig, target) && FileSize(orig, |orig|) <= WORD_COUNT
    requires k < |orig| && !IsSection(orig[k].name)
    requires FileIndex(orig, k, b) == Some(i) && a < |orig[i].words|
    ensures MapCell(FlatCell(orig, k, target, Ptr(b, a)),
                    Splice(target, orig[k].name, FileSize(orig, k), 0, |orig[k].words|)) ==
            FlatCell(orig, k + 1, target, Ptr(b, a))
    ensures FlatCell(orig, k + 1, target, Ptr(b, a)).bin == target
  {
    FileSizeMonotone(orig, k + 1, |orig|);
    FileSizeMonotone(orig, i + 1, k);
    assert FileIndex(orig, k + 1, b) == Some(i);
    var v := FileSize(orig, i) + a;
    assert v < FileSize(orig, k) && Wrap(v) == v;
  }

  lemma {:induction false} FlatCellStep(orig: seq<Image>, k: nat, target: Name, c: Cell)
    requires NamesApart(orig, target) && FileSize(orig, |orig|) <= WORD_COUNT
    requires k < |orig| && !IsSection(orig[k].name)
    requires c.Ptr? ==> Place(orig, c.bin, c.address)
    ensures MapCell(FlatCell(orig, k, target, c),
                    Splice(target, orig[k].name, FileSize(orig, k), 0, |orig[k].words|)) ==
            FlatCell(orig, k + 1, target, c)
    ensures FlatCell(orig, k + 1, target, c).Ptr? ==> FlatCell(orig, k + 1, target, c).bin != orig[k].name
  {
    if c.Ptr? {
      var j :| 0 <= j < |orig| && orig[j].name == c.bin && 0 <= c.address < |orig[j].words|;
      match FileIndex(orig, k, c.bin)
      case Some(i) =>
        assert i == j;
        FlatOldStep(orig, k, target, c.bin, c.address, i);
      case None =>
        assert c.bin == orig[k].name ==> j == k;
        assert c.bin != target;
    }
  }

  lemma {:induction false} FlatCellsStep(orig: seq<Image>, k: nat, target: Name, cells: seq<Cell>)
    requires NamesApart(orig, target) && FileSize(orig, |orig|) <= WORD_COUNT
    requires k < |orig| && !IsSection(orig[k].name)
    requires PointsInside(orig, cells)
    ensures MapCells(FlatCells(orig, k, target, cells),
                     Splice(target, orig[k].name, FileSize(orig, k), 0, |orig[k].words|)) ==
            FlatCells(orig, k + 1, target, cells)
    ensures NoneInto(FlatCells(orig, k + 1, target, cells), orig[k].name)
  {
    var sp := Splice(target, orig[k].name, FileSize(orig, k), 0, |orig[k].words|);
    forall a | 0 <= a < |cells|
      ensures MapCell(FlatCell(orig, k, target, cells[a]), sp) == FlatCell(orig, k + 1, target, cells[a])
      ensures FlatCell(orig, k + 1, target, cells[a]).Ptr? ==>
              FlatCell(orig, k + 1, target, cells[a]).bin != orig[k].name
    {
      FlatCellStep(orig, k, target, cells[a]);
    }
  }

  /** Removing from a bin nobody points into changes no other bin. */
  lemma {:induction false} RetargetIdle(words: seq<Word>, es: seq<Entry>, n: nat, name: Name, offset: nat, count: nat)
    requires n <= |es|
    requires forall k :: 0 <= k < |es| ==> es[k].bin != name && es[k].address < |words|
    ensures FirstSurvive(words, es, n, name, offset, count)
    ensures RetargetFirst(words, es, n, name, offset, count) == (words, es)
  {
    if n > 0 {
      RetargetIdle(words, es, n - 1, name, offset, count);
      assert es[n - 1 := es[n - 1]] == es;
      assert words[es[n - 1].address := words[es[n - 1].address]] == words;
    }
  }

  lemma {:induction false} NoPointersInto(img: Image, name: Name)
    requires WellFormed(img)
    requires NoneInto(View(img), name)
    ensures forall k :: 0 <= k < |img.adjustment| ==> img.adjustment[k].bin != name
  {
    forall k | 0 <= k < |img.adjustment| ensures img.adjustment[k].bin != name {
      CellAtSlot(img.words, img.adjustment, k);
      assert View(img)[img.adjustment[k].address].Ptr?;
    }
  }

  lemma {:induction false} DropAll(es: seq<Entry>, n: nat)
    requires forall k :: 0 <= k < |es| ==> es[k].address < n
    ensures DropWindow(es, 0, n) == []
  {
    if es != [] { DropAll(es[..|es| - 1], n); }
  }

  lemma {:induction false} TransplantWhole(es: seq<Entry>, sp: Splice)
    requires sp.offset == 0
    ensures Transplant(es, sp.count, sp) == Rebased(es, sp.at)
  {
    if es != [] {
      TransplantWhole(es[..|es| - 1], sp);
    }
  }

  // ----- The loop -----

  ghost predicate SameTables(a: Image, b: Image) {
    forall t :: TableOf(a, t) == TableOf(b, t)
  }

  /** A bin whose words are still its own, with pointers to moved bins redirected. */
  ghost predicate Pending(orig: seq<Image>, k: nat, target: Name, j: nat, img: Image)
    requires k <= |orig| && j < |orig|
  {
    WellFormed(img) && View(img) == FlatCells(orig, k, target, View(orig[j])) && SameTables(img, orig[j])
  }

  ghost predicate BinMoved(orig: seq<Image>, k: nat, target: Name, j: nat, img: Image)
    requires k <= |orig| && j < |orig|
  {
    && img.name == orig[j].name
    && if k <= j || IsSection(orig[j].name) then Pending(orig, k, target, j, img) else img.adjustment == []
  }

  ghost predicate TargetBuilt(orig: seq<Image>, k: nat, target: Name, img: Image)
    requires k <= |orig|
  {
    && img.name == target && WellFormed(img)
    && View(img) == FlatCells(orig, k, target, FileCells(orig, k))
    && forall t :: TableOf(img, t) == FileTable(orig, k, t)
  }

  ghost predicate FilesMoved(orig: seq<Image>, k: nat, target: Name, link: Link)
    requires k <= |orig|
  {
    && |link.all| == |orig| && TargetBuilt(orig, k, target, link.target)
    && forall j :: 0 <= j < |orig| ==> BinMoved(orig, k, target, j, link.all[j])
  }

  lemma {:induction false} FilePointsInside(orig: seq<Image>, k: nat, target: Name)
    requires Linkable(orig, target) && k <= |orig|
    ensures PointsInside(orig, FileCells(orig, k))
  {
    if k > 0 { FilePointsInside(orig, k - 1, target); }
  }

  lemma {:induction false} RebasedInside(es: seq<Entry>, base: nat, size: nat)
    requires forall e :: e in es ==> e.address < size
    requires base + size <= WORD_COUNT
    ensures forall i :: 0 <= i < |SortByAddress(es)| ==> Rebased(SortByAddress(es), base)[i].address < base + size
  {
    var s := SortByAddress(es);
    SortKeepsMembers(es);
    assert forall i :: 0 <= i < |s| ==> s[i] in es;
  }

  lemma {:induction false} FileTableInside(orig: seq<Image>, k: nat, t: Table)
    requires k <= |orig| && FileSize(orig, k) <= WORD_COUNT
    requires forall i, e :: 0 <= i < |orig| && e in TableOf(orig[i], t) ==> e.address < |orig[i].words|
    ensures forall i :: 0 <= i < |FileTable(orig, k, t)| ==> FileTable(orig, k, t)[i].address < FileSize(orig, k)
  {
    if k > 0 {
      FileTableInside(orig, k - 1, t);
      if !IsSection(orig[k - 1].name) {
        RebasedInside(TableOf(orig[k - 1], t), FileSize(orig, k - 1), |orig[k - 1].words|);
      }
    }
  }

  lemma {:induction false} ShiftIdle(es: seq<Entry>, at: nat, count: nat)
    requires forall i :: 0 <= i < |es| ==> es[i].address < at
    ensures ShiftUp(es, at, count) == es
  {
  }

  ghost function StepSplice(orig: seq<Image>, k: nat, target: Name): Splice
    requires k < |orig|
  {
    Splice(target, orig[k].name, FileSize(orig, k), 0, |orig[k].words|)
  }

  ghost predicate Stepping(orig: seq<Image>, k: nat, target: Name) {
    && NamesApart(orig, target) && FileSize(orig, |orig|) <= WORD_COUNT
    && k < |orig| && !IsSection(orig[k].name)
  }

  lemma {:induction false} TableStep(orig: seq<Image>, k: nat, target: Name, t: Table)
    requires Stepping(orig, k, target)
    requires t != Output ==>
               forall i, e :: 0 <= i < |orig| && e in TableOf(orig[i], t) ==> e.address < |orig[i].words|
    ensures FileTable(orig, k + 1, t) ==
            (if t == Output then FileTable(orig, k, t)
             else ShiftUp(FileTable(orig, k, t), FileSize(orig, k), |orig[k].words|)) +
            Transplant(SortByAddress(TableOf(orig[k], t)), |orig[k].words|, StepSplice(orig, k, target))
  {
    TransplantWhole(SortByAddress(TableOf(orig[k], t)), StepSplice(orig, k, target));
    if t != Output {
      FileSizeMonotone(orig, k, |orig|);
      FileTableInside(orig, k, t);
      ShiftIdle(FileTable(orig, k, t), FileSize(orig, k), |orig[k].words|);
    }
  }

  lemma {:induction false} FlatConcat(orig: seq<Image>, k: nat, target: Name, u: seq<Cell>, v: seq<Cell>)
    requires k <= |orig|
    ensures FlatCells(orig, k, target, u + v) == FlatCells(orig, k, target, u) + FlatCells(orig, k, target, v)
  {
  }

  lemma {:induction false} SplicedAtEnd(to: seq<Cell>, from: seq<Cell>, sp: Splice)
    requires sp.at == |to| && sp.offset == 0 && sp.count == |from|
    ensures SplicedView(to, from, sp) == to + from
  {
  }

  lemma {:induction false} TargetStep(orig: seq<Image>, k: nat, target: Name, to: Image, from: Image)
    requires Stepping(orig, k, target) && PointsInside(orig, FileCells(orig, k + 1))
    requires CanInsert(to, from, StepSplice(orig, k, target)) && WellFormed(to) && WellFormed(from)
    requires View(to) == FlatCells(orig, k, target, FileCells(orig, k))
    requires View(from) == FlatCells(orig, k, target, View(orig[k]))
    ensures var r := InsertInto(to, from, StepSplice(orig, k, target));
            WellFormed(r) && View(r) == FlatCells(orig, k + 1, target, FileCells(orig, k + 1))
  {
    var sp := StepSplice(orig, k, target);
    ViewOfInsert(to, from, sp);
    FlatCellsStep(orig, k, target, FileCells(orig, k + 1));
    FlatConcat(orig, k, target, FileCells(orig, k), View(orig[k]));
    SplicedAtEnd(View(to), View(from), sp);
  }

  lemma {:induction false} OtherStep(orig: seq<Image>, k: nat, target: Name, img: Image, cells: seq<Cell>)
    requires Stepping(orig, k, target) && PointsInside(orig, cells)
    requires WellFormed(img) && View(img) == FlatCells(orig, k, target, cells)
    ensures var r := RepointImage(img, StepSplice(orig, k, target));
            && WellFormed(r) && View(r) == FlatCells(orig, k + 1, target, cells)
            && (forall i :: 0 <= i < |r.adjustment| ==> r.adjustment[i].bin != orig[k].name)
  {
    ViewOfRepoint(img, StepSplice(orig, k, target));
    FlatCellsStep(orig, k, target, cells);
    NoPointersInto(RepointImage(img, StepSplice(orig, k, target)), orig[k].name);
  }

  lemma {:induction false} CutEverything(img: Image)
    requires SlotsIn(img)
    ensures CutImage(img, 0, |img.words|).words == [] && CutImage(img, 0, |img.words|).adjustment == []
  {
    SortKeepsMembers(img.adjustment);
    var sorted := SortByAddress(img.adjustment);
    assert forall k :: 0 <= k < |sorted| ==> sorted[k] in img.adjustment;
    DropAll(sorted, |img.words|);
  }

  /** Clearing a bin nobody points into only empties that bin. */
  lemma {:induction false} ClearIdle(link: Link, i: nat)
    requires i < |link.all| && Sound(link)
    requires forall j, e :: 0 <= j < |link.all| && e in link.all[j].adjustment ==> e.bin != link.all[i].name
    ensures ClearWhole(link, i) == Some(link.(all := CutWhole(link, i)))
    ensures CutWhole(link, i)[i].adjustment == [] && CutWhole(link, i)[i].name == link.all[i].name
  {
    var cut, name, n := CutWhole(link, i), link.all[i].name, |link.all[i].words|;
    CutEverything(link.all[i]);
    forall j | 0 <= j < |cut|
      ensures SlotsSurvive(cut[j].words, cut[j].adjustment, name, 0, n) && RetargetImage(cut[j], name, 0, n) == cut[j]
    {
      if j != i {
        assert forall k :: 0 <= k < |cut[j].adjustment| ==> cut[j].adjustment[k] in link.all[j].adjustment;
      }
      RetargetIdle(cut[j].words, cut[j].adjustment, |cut[j].adjustment|, name, 0, n);
    }
    assert ClearWhole(link, i).value.all == cut;
  }

  ghost predicate Underway(orig: seq<Image>, k: nat, target: Name, link: Link) {
    && Linkable(orig, target) && k < |orig|
    && Sound(link) && FilesMoved(orig, k, target, link)
    && SameShape(link, Link(orig, EmptyImage(target)), k)
  }

  lemma {:induction false} InsertStep(orig: seq<Image>, k: nat, target: Name, link: Link)
    requires Underway(orig, k, target, link) && !IsSection(orig[k].name)
    ensures RoomFor(link, k, |link.target.words|)
    ensures WholeSplice(link, k, |link.target.words|) == StepSplice(orig, k, target)
    ensures TargetBuilt(orig, k + 1, target, InsertWhole(link, k, |link.target.words|).target)
  {
    FileSizeMonotone(orig, k + 1, |orig|);
    FilePointsInside(orig, k + 1, target);
    assert BinMoved(orig, k, target, k, link.all[k]);
    TargetStep(orig, k, target, link.target, link.all[k]);
    forall t ensures TableOf(InsertInto(link.target, link.all[k], StepSplice(orig, k, target)), t) ==
        FileTable(orig, k + 1, t) {
      InsertStepTable(orig, k, target, t, link.target, link.all[k]);
    }
  }

  lemma {:induction false} InsertStepTable(orig: seq<Image>, k: nat, target: Name, t: Table, to: Image, from: Image)
    requires Stepping(orig, k, target) && CanInsert(to, from, StepSplice(orig, k, target))
    requires t != Output ==>
               forall i, e :: 0 <= i < |orig| && e in TableOf(orig[i], t) ==> e.address < |orig[i].words|
    requires TableOf(to, t) == FileTable(orig, k, t) && TableOf(from, t) == TableOf(orig[k], t)
    requires |from.words| == |orig[k].words|
    ensures TableOf(InsertInto(to, from, StepSplice(orig, k, target)), t) == FileTable(orig, k + 1, t)
  {
    TableStep(orig, k, target, t);
  }

  /** What bin `j` looks like between the insertion and the removal. */
  ghost predicate Inserted(orig: seq<Image>, k: nat, target: Name, j: nat, img: Image)
    requires k < |orig| && j < |orig|
  {
    && img.name == orig[j].name
    && (forall e :: e in img.adjustment ==> e.bin != orig[k].name)
    && (j != k ==> BinMoved(orig, k + 1, target, j, img))
  }

  lemma {:induction false} InsertStepOther(orig: seq<Image>, k: nat, target: Name, j: nat, img: Image)
    requires Stepping(orig, k, target) && j < |orig| && PointsInside(orig, View(orig[j]))
    requires SlotsIn(img) && BinMoved(orig, k, target, j, img)
    ensures var sp := StepSplice(orig, k, target);
            Inserted(orig, k, target, j, if j == k then InsertedFrom(img, true, sp) else RepointImage(img, sp))
  {
    if k <= j || IsSection(orig[j].name) {
      Meaning.ViewOfSorted(img);
      OtherStep(orig, k, target, if j == k then SortTables(img) else img, View(orig[j]));
    }
  }

  lemma {:induction false} ClearStep(orig: seq<Image>, k: nat, target: Name, mid: Link)
    requires k < |orig| && !IsSection(orig[k].name)
    requires Sound(mid) && |mid.all| == |orig| && TargetBuilt(orig, k + 1, target, mid.target)
    requires forall j :: 0 <= j < |orig| ==> Inserted(orig, k, target, j, mid.all[j])
    ensures ClearWhole(mid, k).Some? && FilesMoved(orig, k + 1, target, ClearWhole(mid, k).value)
  {
    ClearIdle(mid, k);
    var r := ClearWhole(mid, k).value;
    forall j | 0 <= j < |orig| ensures BinMoved(orig, k + 1, target, j, r.all[j]) {
      assert Inserted(orig, k, target, j, mid.all[j]);
    }
  }

  lemma {:induction false} MoveStep(orig: seq<Image>, k: nat, target: Name, link: Link)
    requires Underway(orig, k, target, link) && !IsSection(orig[k].name)
    ensures RoomFor(link, k, |link.target.words|)
    ensures MoveWhole(link, k).Some? && FilesMoved(orig, k + 1, target, MoveWhole(link, k).value)
  {
    InsertStep(orig, k, target, link);
    InsertedSizes(link, k, |link.target.words|);
    var mid := InsertWhole(link, k, |link.target.words|);
    forall j | 0 <= j < |orig| ensures Inserted(orig, k, target, j, mid.all[j]) {
      assert BinMoved(orig, k, target, j, link.all[j]);
      InsertStepOther(orig, k, target, j, link.all[j]);
    }
    ClearStep(orig, k, target, mid);
  }

  lemma {:induction false} SkipStep(orig: seq<Image>, k: nat, target: Name, link: Link)
    requires k < |orig| && IsSection(orig[k].name) && FilesMoved(orig, k, target, link)
    ensures FilesMoved(orig, k + 1, target, link)
  {
    forall cells ensures FlatCells(orig, k + 1, target, cells) == FlatCells(orig, k, target, cells) {
      forall c ensures FlatCell(orig, k + 1, target, c) == FlatCell(orig, k, target, c) {
      }
    }
    forall j | 0 <= j < |orig| ensures BinMoved(orig, k + 1, target, j, link.all[j]) {
      assert BinMoved(orig, k, target, j, link.all[j]);
    }
    assert TargetBuilt(orig, k + 1, target, link.target);
  }

  lemma {:induction false} NothingMoved(orig: seq<Image>, target: Name)
    requires forall i :: 0 <= i < |orig| ==> WellFormed(orig[i])
    ensures FilesMoved(orig, 0, target, Link(orig, EmptyImage(target)))
  {
    forall j | 0 <= j < |orig| ensures BinMoved(orig, 0, target, j, orig[j]) {
      assert FlatCells(orig, 0, target, View(orig[j])) == View(orig[j]);
    }
  }

  lemma {:induction false} LoopStep(orig: seq<Image>, target: Name, k: nat, link: Link)
    requires Underway(orig, k, target, link)
    ensures MoveRound(link, k).Some? && FilesMoved(orig, k + 1, target, MoveRound(link, k).value)
  {
    if IsSection(orig[k].name) {
      SkipStep(orig, k, target, link);
    } else {
      MoveStep(orig, k, target, link);
    }
  }

  /** What the loop has made of the bins in `k` rounds. */
  ghost predicate RoundsDone(orig: seq<Image>, target: Name, k: nat)
    requires k <= |orig|
  {
    var r := MoveFiles(Link(orig, EmptyImage(target)), k);
    r.Some? && FilesMoved(orig, k, target, r.value)
  }

  lemma {:induction false} NextRound(start: Link, k: nat, n: nat, link: Link)
    requires k < n == k + 1 && MoveFiles(start, k) == Some(link)
    ensures MoveFiles(start, n) == MoveRound(link, k)
  {
    NextTurn(MoveRound, start, k, n, link);
  }

  lemma {:induction false} NoFile(orig: seq<Image>, target: Name)
    requires Linkable(orig, target)
    ensures RoundsDone(orig, target, 0)
  {
    LinkableIsSound(orig, target);
    NothingMoved(orig, target);
  }

  lemma {:induction false} NextFile(orig: seq<Image>, target: Name, k: nat, n: nat)
    requires Linkable(orig, target) && k < n == k + 1 <= |orig| && RoundsDone(orig, target, k)
    ensures RoundsDone(orig, target, n)
  {
    var start := Link(orig, EmptyImage(target));
    var link := MoveFiles(start, k).value;
    LinkableIsSound(orig, target);
    MoveFilesShape(start, k);
    LoopStep(orig, target, k, link);
    NextRound(start, k, n, link);
  }

  /**
   The first loop of `bins_flatten` refines concatenation: the linker does not halt, the target's cells
   are the file bins' cells one after another with every pointer to a moved word increased by the base
   of the object it points into, and each table is the concatenation of the objects' tables, moved by
   the objects' bases. Section bins keep their words, with their pointers updated in the same way.
   */
  lemma {:induction false} FilesAreConcatenated(orig: seq<Image>, target: Name, k: nat)
    requires Linkable(orig, target) && k <= |orig|
    ensures RoundsDone(orig, target, k)
  {
    if k == 0 {
      NoFile(orig, target);
    } else {
      var n := k - 1;
      FilesAreConcatenated(orig, target, n);
      NextFile(orig, target, n, k);
    }
  }

  lemma {:induction false} LinkableIsSound(orig: seq<Image>, target: Name)
    requires Linkable(orig, target)
    ensures Sound(Link(orig, EmptyImage(target))) && forall i :: 0 <= i < |orig| ==> WellFormed(orig[i])
  {
  }
}
