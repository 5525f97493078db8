/**
 The second loop of `bins_flatten`: section bodies are inserted at their output points in descending
 address order, without ever shifting the recorded output addresses. The result is the code with every
 body spliced in at its originally recorded point, and every pointer and label still names its word.
 */
module SectionMeaning {
  import opened Words
  import opened BinImages
  import opened Splicing
  import opened Bins
  import opened Flattening
  import opened FlattenMeaning
  import Meaning

  // ----- The simple description -----

  /** How far a place of the code moves: the bodies inserted at or before it. */
  function Shift(all: seq<Image>, outs: seq<Entry>, m: nat, a: nat): nat
    requires m <= |outs|
  {
    if m == 0 then 0
    else Shift(all, outs, m - 1, a) + if outs[m - 1].address <= a then BodySize(all, outs[m - 1]) else 0
  }

  /** The first of the first `m` outputs that takes the section bin of that name: pointers into the section go there. */
  function SectionIndex(all: seq<Image>, outs: seq<Entry>, m: nat, bin: Name): (r: Option<nat>)
    requires m <= |outs|
    ensures r.Some? ==> r.value < m && SectionName(outs[r.value]) == bin && FindBin(all, bin, 0).Some?
  {
    if m == 0 then None
    else match SectionIndex(all, outs, m - 1, bin)
         case Some(k) => Some(k)
         case None => if SectionName(outs[m - 1]) == bin && FindBin(all, bin, 0).Some? then Some(m - 1) else None
  }

  /** Where a place is once the bodies of the first `m` outputs are in. */
  function FinalPlace(orig: Link, outs: seq<Entry>, m: nat, bin: Name, a: nat): (Name, int)
    requires m <= |outs|
  {
    if bin == orig.target.name then (bin, a + Shift(orig.all, outs, m, a))
    else match SectionIndex(orig.all, outs, m, bin)
         case None => (bin, a)
         case Some(k) =>
           (orig.target.name,
            outs[k].address + (BodySizes(orig.all, outs, m) - BodySizes(orig.all, outs, k + 1)) + a)
  }

  ghost function FinalCell(orig: Link, outs: seq<Entry>, m: nat, c: Cell): Cell
    requires m <= |outs|
  {
    match c
    case Lit(_) => c
    case Ptr(b, a) => var (b', a') := FinalPlace(orig, outs, m, b, a); Ptr(b', Wrap(a'))
  }

  ghost function FinalCells(orig: Link, outs: seq<Entry>, m: nat, cells: seq<Cell>): (r: seq<Cell>)
    requires m <= |outs|
    ensures |r| == |cells|
    ensures forall i :: 0 <= i < |cells| ==> r[i] == FinalCell(orig, outs, m, cells[i])
  {
    seq(|cells|, i requires 0 <= i < |cells| => FinalCell(orig, outs, m, cells[i]))
  }

  /** The cells of the section that an output takes. */
  ghost function Body(all: seq<Image>, e: Entry): (r: seq<Cell>)
    ensures |r| == BodySize(all, e)
  {
    match FindBin(all, SectionName(e), 0)
    case None => []
    case Some(i) => View(all[i])
  }

  /** Any order that sorting may give; of several outputs at one address the last one's body comes first. */
  predicate Descending(outs: seq<Entry>) {
    forall i, j :: 0 <= i < j < |outs| ==> outs[i].address >= outs[j].address
  }

  /** What follows the first `outs[m - 1].address` words of code, read from left to right. */
  ghost function Interleaved(code: seq<Cell>, all: seq<Image>, outs: seq<Entry>, m: nat): (r: seq<Cell>)
    requires m <= |outs| && Descending(outs)
    requires forall k :: 0 <= k < |outs| ==> outs[k].address <= |code|
  {
    if m == 0 then []
    else
      Body(all, outs[m - 1]) + code[outs[m - 1].address..if m == 1 then |code| else outs[m - 2].address] +
      Interleaved(code, all, outs, m - 1)
  }

  /** The code with every body at its recorded point, in code order. */
  ghost function SplicedCode(code: seq<Cell>, all: seq<Image>, outs: seq<Entry>, m: nat): seq<Cell>
    requires m <= |outs| && Descending(outs)
    requires forall k :: 0 <= k < |outs| ==> outs[k].address <= |code|
  {
    code[..if m == 0 then |code| else outs[m - 1].address] + Interleaved(code, all, outs, m)
  }

  // ----- One inserted body -----

  ghost predicate Anywhere(orig: Link, bin: Name, a: int) {
    (bin == orig.target.name && 0 <= a < |orig.target.words|) || Place(orig.all, bin, a)
  }

  lemma {:induction false} ShiftBounds(all: seq<Image>, outs: seq<Entry>, m: nat, a: nat)
    requires m <= |outs|
    ensures Shift(all, outs, m, a) <= BodySizes(all, outs, m)
    ensures (forall k :: 0 <= k < m ==> outs[k].address > a) ==> Shift(all, outs, m, a) == 0
  {
    if m > 0 { ShiftBounds(all, outs, m - 1, a); }
  }

  ghost function BodySplice(orig: Link, e: Entry): Splice {
    Splice(orig.target.name, SectionName(e), e.address, 0, BodySize(orig.all, e))
  }

  /** Facts shared by both kinds of pointers when the body of output `m` goes in. */
  ghost predicate Inserting(orig: Link, outs: seq<Entry>, m: nat) {
    && m < |outs| && OutputsFit(orig, outs)
    && (forall k :: 0 <= k < m ==> outs[k].address >= outs[m].address)
    && SectionName(outs[m]) != orig.target.name
  }

  lemma {:induction false} FinalCodeStep(orig: Link, outs: seq<Entry>, m: nat, a: Word)
    requires Inserting(orig, outs, m) && a < |orig.target.words|
    ensures MapCell(FinalCell(orig, outs, m, Ptr(orig.target.name, a)), BodySplice(orig, outs[m])) ==
            FinalCell(orig, outs, m + 1, Ptr(orig.target.name, a))
  {
    ShiftBounds(orig.all, outs, m, a);
    BodySizesMonotone(orig.all, outs, m + 1, |outs|);
    var v, size := a + Shift(orig.all, outs, m, a), BodySize(orig.all, outs[m]);
    assert v + size < WORD_COUNT;
    assert a < outs[m].address ==> v == a;
    assert FinalPlace(orig, outs, m, orig.target.name, a) == (orig.target.name, v);
    assert FinalPlace(orig, outs, m + 1, orig.target.name, a) ==
           (orig.target.name, if outs[m].address <= a then v + size else v);
  }

  lemma {:induction false} FinalBodyCell(orig: Link, outs: seq<Entry>, m: nat, bin: Name, a: Word, k: nat, v: int)
    requires m <= |outs| && bin != orig.target.name && SectionIndex(orig.all, outs, m, bin) == Some(k)
    requires v == outs[k].address + (BodySizes(orig.all, outs, m) - BodySizes(orig.all, outs, k + 1)) + a
    ensures FinalCell(orig, outs, m, Ptr(bin, a)) == Ptr(orig.target.name, Wrap(v))
  {
  }

  lemma {:induction false} MapBehind(sp: Splice, v: nat)
    requires sp.at <= v && v + sp.count < WORD_COUNT && sp.to != sp.from
    ensures MapCell(Ptr(sp.to, Wrap(v)), sp) == Ptr(sp.to, Wrap(v + sp.count))
  {
  }

  lemma {:induction false} OldBodyStep(orig: Link, outs: seq<Entry>, m: nat, bin: Name, a: Word, j: nat, k: nat)
    requires Inserting(orig, outs, m) && bin != orig.target.name
    requires SectionIndex(orig.all, outs, m, bin) == Some(k)
    requires FindBin(orig.all, bin, 0) == Some(j) && a < |orig.all[j].words|
    ensures MapCell(FinalCell(orig, outs, m, Ptr(bin, a)), BodySplice(orig, outs[m])) ==
            FinalCell(orig, outs, m + 1, Ptr(bin, a))
  {
    var v := outs[k].address + (BodySizes(orig.all, outs, m) - BodySizes(orig.all, outs, k + 1)) + a;
    OldBodyRoom(orig, outs, m, a, j, k, v);
    FinalBodyCell(orig, outs, m, bin, a, k, v);
    FinalBodyCell(orig, outs, m + 1, bin, a, k, v + BodySize(orig.all, outs[m]));
    MapBehind(BodySplice(orig, outs[m]), v);
  }

  /** A body that is in lies behind the next output, with room to move. */
  lemma {:induction false} OldBodyRoom(orig: Link, outs: seq<Entry>, m: nat, a: Word, j: nat, k: nat, v: int)
    requires Inserting(orig, outs, m) && k < m
    requires FindBin(orig.all, SectionName(outs[k]), 0) == Some(j) && a < |orig.all[j].words|
    requires v == outs[k].address + (BodySizes(orig.all, outs, m) - BodySizes(orig.all, outs, k + 1)) + a
    ensures outs[m].address <= v && v + BodySize(orig.all, outs[m]) < WORD_COUNT
  {
    BodySizesMonotone(orig.all, outs, m + 1, |outs|);
    BodySizesMonotone(orig.all, outs, k + 1, m);
    assert BodySizes(orig.all, outs, k + 1) == BodySizes(orig.all, outs, k) + |orig.all[j].words|;
  }

  lemma {:induction false} FinalSectionStep(orig: Link, outs: seq<Entry>, m: nat, bin: Name, a: Word, j: nat)
    requires Inserting(orig, outs, m) && bin != orig.target.name
    requires FindBin(orig.all, SectionName(outs[m]), 0).Some?
    requires FindBin(orig.all, bin, 0) == Some(j) && a < |orig.all[j].words|
    ensures MapCell(FinalCell(orig, outs, m, Ptr(bin, a)), BodySplice(orig, outs[m])) ==
            FinalCell(orig, outs, m + 1, Ptr(bin, a))
  {
    match SectionIndex(orig.all, outs, m, bin)
    case None => NewBodyStep(orig, outs, m, bin, a, j);
    case Some(k) => OldBodyStep(orig, outs, m, bin, a, j, k);
  }

  /** A section that has not been taken stays where it is or goes in. */
  lemma {:induction false} NewBodyStep(orig: Link, outs: seq<Entry>, m: nat, bin: Name, a: Word, j: nat)
    requires Inserting(orig, outs, m) && bin != orig.target.name && SectionIndex(orig.all, outs, m, bin).None?
    requires FindBin(orig.all, bin, 0) == Some(j) && a < |orig.all[j].words|
    ensures MapCell(FinalCell(orig, outs, m, Ptr(bin, a)), BodySplice(orig, outs[m])) ==
            FinalCell(orig, outs, m + 1, Ptr(bin, a))
  {
    BodySizesMonotone(orig.all, outs, m + 1, |outs|);
    assert FinalCell(orig, outs, m, Ptr(bin, a)) == Ptr(bin, a);
    if SectionName(outs[m]) == bin {
      FinalBodyCell(orig, outs, m + 1, bin, a, m, outs[m].address + a);
    }
  }

  // ----- The loop -----

  ghost predicate PointsAnywhere(orig: Link, cells: seq<Cell>) {
    forall i :: 0 <= i < |cells| && cells[i].Ptr? ==> Anywhere(orig, cells[i].bin, cells[i].address)
  }

  /** Uniquely named bins with sound slots, whose pointers all denote existing words. */
  ghost predicate Ready(orig: Link, outs: seq<Entry>) {
    && NamesApart(orig.all, orig.target.name) && OutputsFit(orig, outs) && Descending(outs)
    && WellFormed(orig.target) && PointsAnywhere(orig, View(orig.target))
    && forall j :: 0 <= j < |orig.all| ==> WellFormed(orig.all[j]) && PointsAnywhere(orig, View(orig.all[j]))
  }

  lemma {:induction false} FindNamed(all: seq<Image>, i: nat, j: nat)
    requires i <= j < |all|
    requires forall i, j :: 0 <= i < j < |all| ==> all[i].name != all[j].name
    ensures FindBin(all, all[j].name, i) == Some(j)
    decreases |all| - i
  {
    if i < j { FindNamed(all, i + 1, j); }
  }

  lemma {:induction false} FinalCellStep(orig: Link, outs: seq<Entry>, m: nat, c: Cell)
    requires NamesApart(orig.all, orig.target.name) && Inserting(orig, outs, m)
    requires FindBin(orig.all, SectionName(outs[m]), 0).Some?
    requires c.Ptr? ==> Anywhere(orig, c.bin, c.address)
    ensures MapCell(FinalCell(orig, outs, m, c), BodySplice(orig, outs[m])) == FinalCell(orig, outs, m + 1, c)
  {
    if c.Ptr? {
      if c.bin == orig.target.name {
        assert !Place(orig.all, c.bin, c.address);
        FinalCodeStep(orig, outs, m, c.address);
      } else {
        var j :| 0 <= j < |orig.all| && orig.all[j].name == c.bin && 0 <= c.address < |orig.all[j].words|;
        FindNamed(orig.all, 0, j);
        FinalSectionStep(orig, outs, m, c.bin, c.address, j);
      }
    }
  }

  lemma {:induction false} FinalCellsStep(orig: Link, outs: seq<Entry>, m: nat, cells: seq<Cell>)
    requires NamesApart(orig.all, orig.target.name) && Inserting(orig, outs, m)
    requires FindBin(orig.all, SectionName(outs[m]), 0).Some?
    requires PointsAnywhere(orig, cells)
    ensures MapCells(FinalCells(orig, outs, m, cells), BodySplice(orig, outs[m])) ==
            FinalCells(orig, outs, m + 1, cells)
  {
    forall a | 0 <= a < |cells|
      ensures MapCell(FinalCell(orig, outs, m, cells[a]), BodySplice(orig, outs[m])) ==
              FinalCell(orig, outs, m + 1, cells[a])
    {
      FinalCellStep(orig, outs, m, cells[a]);
    }
  }

  lemma {:induction false} CutInside(code: seq<Cell>, at: nat, hi: nat, rest: seq<Cell>)
    requires at <= hi <= |code|
    ensures (code[..hi] + rest)[..at] == code[..at]
    ensures (code[..hi] + rest)[at..] == code[at..hi] + rest
  {
  }

  lemma {:induction false} Concat4(a: seq<Cell>, b: seq<Cell>, c: seq<Cell>, d: seq<Cell>)
    ensures a + (b + c + d) == a + b + (c + d)
  {
  }

  /** Inserting the next body at its recorded address extends the left-to-right reading. */
  lemma {:induction false} SplicedCodeStep(code: seq<Cell>, all: seq<Image>, outs: seq<Entry>, m: nat, sp: Splice)
    requires m < |outs| && Descending(outs)
    requires forall k :: 0 <= k < |outs| ==> outs[k].address <= |code|
    requires sp.at == outs[m].address && sp.offset == 0 && sp.count == BodySize(all, outs[m])
    ensures outs[m].address <= |SplicedCode(code, all, outs, m)|
    ensures SplicedCode(code, all, outs, m + 1) == SplicedView(SplicedCode(code, all, outs, m), Body(all, outs[m]), sp)
  {
    var at, hi := outs[m].address, if m == 0 then |code| else outs[m - 1].address;
    var body, rest := Body(all, outs[m]), Interleaved(code, all, outs, m);
    CutInside(code, at, hi, rest);
    Concat4(code[..at], body, code[at..hi], rest);
    assert body[0..sp.count] == body;
  }

  lemma {:induction false} FinalSplice(orig: Link, outs: seq<Entry>, m: nat, to: seq<Cell>, from: seq<Cell>, sp: Splice)
    requires m <= |outs| && sp.at <= |to| && sp.offset + sp.count <= |from|
    ensures SplicedView(FinalCells(orig, outs, m, to), FinalCells(orig, outs, m, from), sp) ==
            FinalCells(orig, outs, m, SplicedView(to, from, sp))
  {
  }

  ghost predicate BinDone(orig: Link, outs: seq<Entry>, m: nat, j: nat, img: Image)
    requires m <= |outs| && j < |orig.all|
  {
    WellFormed(img) && img.name == orig.all[j].name && View(img) == FinalCells(orig, outs, m, View(orig.all[j]))
  }

  ghost predicate CodeDone(orig: Link, outs: seq<Entry>, m: nat, img: Image)
    requires m <= |outs| && Descending(outs) && OutputsFit(orig, outs)
  {
    && WellFormed(img) && img.name == orig.target.name
    && View(img) == FinalCells(orig, outs, m, SplicedCode(View(orig.target), orig.all, outs, m))
  }

  ghost predicate SectionsDone(orig: Link, outs: seq<Entry>, m: nat, link: Link)
    requires m <= |outs| && Descending(outs) && OutputsFit(orig, outs)
  {
    && |link.all| == |orig.all| && CodeDone(orig, outs, m, link.target)
    && forall j :: 0 <= j < |orig.all| ==> BinDone(orig, outs, m, j, link.all[j])
  }

  lemma {:induction false} AnywhereConcat(orig: Link, u: seq<Cell>, v: seq<Cell>)
    requires PointsAnywhere(orig, u) && PointsAnywhere(orig, v)
    ensures PointsAnywhere(orig, u + v)
  {
  }

  lemma {:induction false} StretchAnywhere(orig: Link, code: seq<Cell>, from: nat, to: nat)
    requires from <= to <= |code| && PointsAnywhere(orig, code)
    ensures PointsAnywhere(orig, code[from..to])
  {
  }

  ghost predicate BodiesAnywhere(orig: Link) {
    forall j :: 0 <= j < |orig.all| ==> PointsAnywhere(orig, View(orig.all[j]))
  }

  lemma {:induction false} BodyAnywhere(orig: Link, e: Entry)
    requires BodiesAnywhere(orig)
    ensures PointsAnywhere(orig, Body(orig.all, e))
  {
  }

  ghost predicate OutputsWithin(outs: seq<Entry>, size: nat) {
    Descending(outs) && forall k :: 0 <= k < |outs| ==> outs[k].address <= size
  }

  lemma {:induction false} InterleavedAnywhere(orig: Link, code: seq<Cell>, outs: seq<Entry>, m: nat)
    requires m <= |outs| && OutputsWithin(outs, |code|)
    requires PointsAnywhere(orig, code) && BodiesAnywhere(orig)
    ensures PointsAnywhere(orig, Interleaved(code, orig.all, outs, m))
  {
    for i := 0 to m
      invariant PointsAnywhere(orig, Interleaved(code, orig.all, outs, i))
    {
      var from, to := outs[i].address, if i == 0 then |code| else outs[i - 1].address;
      NextAnywhere(orig, code, outs[i], from, to, Interleaved(code, orig.all, outs, i),
                   Interleaved(code, orig.all, outs, i + 1));
    }
  }

  lemma {:induction false} NextAnywhere(orig: Link, code: seq<Cell>, e: Entry, from: nat, to: nat, rest: seq<Cell>,
          cells: seq<Cell>)
    requires from <= to <= |code| && PointsAnywhere(orig, code) && BodiesAnywhere(orig) && PointsAnywhere(orig, rest)
    requires cells == Body(orig.all, e) + code[from..to] + rest
    ensures PointsAnywhere(orig, cells)
  {
    BodyAnywhere(orig, e);
    StretchAnywhere(orig, code, from, to);
    AnywhereConcat(orig, Body(orig.all, e), code[from..to]);
    AnywhereConcat(orig, Body(orig.all, e) + code[from..to], rest);
  }

  lemma {:induction false} SplicedAnywhere(orig: Link, code: seq<Cell>, outs: seq<Entry>, m: nat)
    requires m <= |outs| && OutputsWithin(outs, |code|)
    requires PointsAnywhere(orig, code) && BodiesAnywhere(orig)
    ensures PointsAnywhere(orig, SplicedCode(code, orig.all, outs, m))
  {
    InterleavedAnywhere(orig, code, outs, m);
    AnywhereConcat(orig, code[..if m == 0 then |code| else outs[m - 1].address], Interleaved(code, orig.all, outs, m));
  }

  /** Output `m` has a section, and the bins are ready for it. */
  ghost predicate Taking(orig: Link, outs: seq<Entry>, m: nat, i: nat) {
    && NamesApart(orig.all, orig.target.name) && Inserting(orig, outs, m) && Descending(outs)
    && FindBin(orig.all, SectionName(outs[m]), 0) == Some(i)
  }

  lemma {:induction false} BodyStep(orig: Link, outs: seq<Entry>, m: nat, to: Image, from: Image, i: nat)
    requires Taking(orig, outs, m, i) && PointsAnywhere(orig, SplicedCode(View(orig.target), orig.all, outs, m + 1))
    requires CodeDone(orig, outs, m, to) && BinDone(orig, outs, m, i, from)
    requires CanInsert(to, from, BodySplice(orig, outs[m]))
    ensures CodeDone(orig, outs, m + 1, InsertInto(to, from, BodySplice(orig, outs[m])))
  {
    var sp := BodySplice(orig, outs[m]);
    ViewOfInsert(to, from, sp);
    SplicedCodeStep(View(orig.target), orig.all, outs, m, sp);
    FinalSplice(orig, outs, m, SplicedCode(View(orig.target), orig.all, outs, m), View(orig.all[i]), sp);
    FinalCellsStep(orig, outs, m, SplicedCode(View(orig.target), orig.all, outs, m + 1));
  }

  lemma {:induction false} BinStep(orig: Link, outs: seq<Entry>, m: nat, j: nat, img: Image)
    requires NamesApart(orig.all, orig.target.name) && Inserting(orig, outs, m) && j < |orig.all|
    requires FindBin(orig.all, SectionName(outs[m]), 0).Some?
    requires PointsAnywhere(orig, View(orig.all[j])) && BinDone(orig, outs, m, j, img)
    ensures BinDone(orig, outs, m + 1, j, RepointImage(img, BodySplice(orig, outs[m])))
    ensures BinDone(orig, outs, m + 1, j, InsertedFrom(img, true, BodySplice(orig, outs[m])))
  {
    var sp := BodySplice(orig, outs[m]);
    Meaning.ViewOfSorted(img);
    ViewOfRepoint(img, sp);
    ViewOfRepoint(SortTables(img), sp);
    FinalCellsStep(orig, outs, m, View(orig.all[j]));
  }

  lemma {:induction false} ReadyTakes(orig: Link, outs: seq<Entry>, m: nat, i: nat)
    requires NamesApart(orig.all, orig.target.name) && OutputsFit(orig, outs) && Descending(outs)
    requires m < |outs| && FindBin(orig.all, SectionName(outs[m]), 0) == Some(i)
    ensures Taking(orig, outs, m, i)
  {
    assert orig.all[i].name == SectionName(outs[m]);
  }

  lemma {:induction false} ReadyAnywhere(orig: Link, outs: seq<Entry>, m: nat)
    requires Ready(orig, outs) && m <= |outs|
    ensures PointsAnywhere(orig, SplicedCode(View(orig.target), orig.all, outs, m))
  {
    SplicedAnywhere(orig, View(orig.target), outs, m);
  }

  lemma {:induction false} TakeBins(orig: Link, outs: seq<Entry>, m: nat, link: Link, i: nat, r: Link)
    requires Taking(orig, outs, m, i) && |link.all| == |orig.all| == |r.all|
    requires forall j :: 0 <= j < |orig.all| ==>
             PointsAnywhere(orig, View(orig.all[j])) && BinDone(orig, outs, m, j, link.all[j])
    requires forall j :: 0 <= j < |orig.all| ==>
                           && SlotsIn(link.all[j])
                           && r.all[j] == if j == i then InsertedFrom(link.all[j], true, BodySplice(orig, outs[m]))
                                          else RepointImage(link.all[j], BodySplice(orig, outs[m]))
    ensures forall j :: 0 <= j < |orig.all| ==> BinDone(orig, outs, m + 1, j, r.all[j])
  {
    forall j | 0 <= j < |orig.all| ensures BinDone(orig, outs, m + 1, j, r.all[j]) {
      BinStep(orig, outs, m, j, link.all[j]);
    }
  }

  lemma {:induction false} InsertedBins(link: Link, i: nat, at: nat, sp: Splice, r: Link)
    requires Sound(link) && RoomFor(link, i, at) && sp == WholeSplice(link, i, at) && r == InsertWhole(link, i, at)
    ensures |r.all| == |link.all|
    ensures forall j :: 0 <= j < |link.all| ==>
                          SlotsIn(link.all[j]) &&
                          r.all[j] ==
                          if j == i then InsertedFrom(link.all[j], true, sp) else RepointImage(link.all[j], sp)
  {
  }

  lemma {:induction false} TakeStep(orig: Link, outs: seq<Entry>, m: nat, link: Link, i: nat)
    requires Ready(orig, outs) && m < |outs|
    requires FindBin(orig.all, SectionName(outs[m]), 0) == Some(i)
    requires Sound(link) && SectionsDone(orig, outs, m, link) && SameSizes(orig.all, link.all)
    requires RoomFor(link, i, outs[m].address)
    ensures SectionsDone(orig, outs, m + 1, InsertWhole(link, i, outs[m].address))
  {
    var r, sp := InsertWhole(link, i, outs[m].address), BodySplice(orig, outs[m]);
    ReadyTakes(orig, outs, m, i);
    assert BinDone(orig, outs, m, i, link.all[i]);
    assert WholeSplice(link, i, outs[m].address) == sp;
    ReadyAnywhere(orig, outs, m + 1);
    BodyStep(orig, outs, m, link.target, link.all[i], i);
    InsertedBins(link, i, outs[m].address, sp, r);
    TakeBins(orig, outs, m, link, i, r);
  }

  lemma {:induction false} SkipBody(orig: Link, outs: seq<Entry>, m: nat, cells: seq<Cell>)
    requires m < |outs| && FindBin(orig.all, SectionName(outs[m]), 0).None?
    ensures FinalCells(orig, outs, m + 1, cells) == FinalCells(orig, outs, m, cells)
  {
    assert BodySizes(orig.all, outs, m + 1) == BodySizes(orig.all, outs, m);
    forall c ensures FinalCell(orig, outs, m + 1, c) == FinalCell(orig, outs, m, c) {
    }
  }

  lemma {:induction false} PassCode(orig: Link, outs: seq<Entry>, m: nat)
    requires Descending(outs) && OutputsFit(orig, outs) && m < |outs|
    requires FindBin(orig.all, SectionName(outs[m]), 0).None?
    ensures SplicedCode(View(orig.target), orig.all, outs, m + 1) == SplicedCode(View(orig.target), orig.all, outs, m)
  {
    var sp, code := BodySplice(orig, outs[m]), SplicedCode(View(orig.target), orig.all, outs, m);
    SplicedCodeStep(View(orig.target), orig.all, outs, m, sp);
    SpliceNothing(code, Body(orig.all, outs[m]), sp);
  }

  lemma {:induction false} SpliceNothing(u: seq<Cell>, body: seq<Cell>, sp: Splice)
    requires body == [] && sp.at <= |u| && sp.offset == 0 && sp.count == 0
    ensures SplicedView(u, body, sp) == u
  {
  }

  lemma {:induction false} PassStep(orig: Link, outs: seq<Entry>, m: nat, link: Link)
    requires Descending(outs) && OutputsFit(orig, outs) && m < |outs|
    requires FindBin(orig.all, SectionName(outs[m]), 0).None?
    requires SectionsDone(orig, outs, m, link)
    ensures SectionsDone(orig, outs, m + 1, link)
  {
    PassCode(orig, outs, m);
    SkipBody(orig, outs, m, SplicedCode(View(orig.target), orig.all, outs, m));
    forall j | 0 <= j < |orig.all| ensures BinDone(orig, outs, m + 1, j, link.all[j]) {
      assert BinDone(orig, outs, m, j, link.all[j]);
      SkipBody(orig, outs, m, View(orig.all[j]));
    }
  }

  lemma {:induction false} OutputStep(orig: Link, outs: seq<Entry>, m: nat)
    requires Sound(orig) && Ready(orig, outs) && m < |outs|
    requires SectionsDone(orig, outs, m, InsertSections(orig, outs, m))
    ensures SectionsDone(orig, outs, m + 1, InsertSections(orig, outs, m + 1))
  {
    var link := InsertSections(orig, outs, m);
    SameBins(orig.all, link.all, SectionName(outs[m]), 0);
    BodySizesMonotone(orig.all, outs, m + 1, |outs|);
    match FindBin(orig.all, SectionName(outs[m]), 0)
    case None =>
      PassStep(orig, outs, m, link);
    case Some(i) =>
      TakeStep(orig, outs, m, link, i);
      var r := InsertWhole(link, i, outs[m].address);
      assert View(r.target.(output := link.target.output)) == View(r.target);
  }

  lemma {:induction false} NothingSpliced(orig: Link, outs: seq<Entry>)
    requires Ready(orig, outs)
    ensures SectionsDone(orig, outs, 0, orig)
  {
    forall j | 0 <= j < |orig.all| ensures BinDone(orig, outs, 0, j, orig.all[j]) {
      assert FinalCells(orig, outs, 0, View(orig.all[j])) == View(orig.all[j]);
    }
    var code := View(orig.target);
    assert SplicedCode(code, orig.all, outs, 0) == code;
    assert FinalCells(orig, outs, 0, code) == code;
  }

  /**
   The second loop of `bins_flatten` splices every section body into the code at its recorded output
   point, in code order, although it inserts the bodies from the last to the first; every pointer, in the
   code or in a body, points to the final place of the word it pointed to.
   */
  lemma {:induction false} SectionsAreSpliced(orig: Link, outs: seq<Entry>, m: nat)
    requires Sound(orig) && Ready(orig, outs) && m <= |outs|
    ensures SectionsDone(orig, outs, m, InsertSections(orig, outs, m))
  {
    NothingSpliced(orig, outs);
    for i := 0 to m
      invariant SectionsDone(orig, outs, i, InsertSections(orig, outs, i))
    {
      OutputStep(orig, outs, i);
    }
  }

  // ----- Places and labels -----

  /** A cell that is found stays found when something is spliced in. */
  lemma {:induction false} FoundMoves(u: seq<Cell>, v: seq<Cell>, body: seq<Cell>, sp: Splice, p: nat, p': nat, c: Cell)
    requires sp.at <= |u| && sp.offset + sp.count <= |body| && v == SplicedView(u, body, sp)
    requires p < |u| && u[p] == c && p' == if p < sp.at then p else p + sp.count
    ensures p' < |v| && v[p'] == c
  {
    SplicedOld(u, body, sp, p, p');
  }

  ghost predicate CodeFound(code: seq<Cell>, all: seq<Image>, outs: seq<Entry>, m: nat, a: nat)
    requires m <= |outs| && Descending(outs) && a < |code|
    requires forall k :: 0 <= k < |outs| ==> outs[k].address <= |code|
  {
    var p := a + Shift(all, outs, m, a);
    p < |SplicedCode(code, all, outs, m)| && SplicedCode(code, all, outs, m)[p] == code[a]
  }

  lemma {:induction false} ShiftStep(all: seq<Image>, outs: seq<Entry>, m: nat, a: nat)
    requires m < |outs| && Descending(outs)
    ensures var p := a + Shift(all, outs, m, a);
            a + Shift(all, outs, m + 1, a) == if p < outs[m].address then p else p + BodySize(all, outs[m])
  {
    ShiftBounds(all, outs, m, a);
    if a < outs[m].address {
      assert forall k :: 0 <= k < m ==> outs[k].address >= outs[m].address;
    }
  }

  lemma {:induction false} CodePlaceStep(code: seq<Cell>, all: seq<Image>, outs: seq<Entry>, m: nat, a: nat)
    requires m < |outs| && Descending(outs) && a < |code|
    requires forall k :: 0 <= k < |outs| ==> outs[k].address <= |code|
    requires CodeFound(code, all, outs, m, a)
    ensures CodeFound(code, all, outs, m + 1, a)
  {
    var sp := Splice("", "", outs[m].address, 0, BodySize(all, outs[m]));
    var u, v, body := SplicedCode(code, all, outs, m), SplicedCode(code, all, outs, m + 1), Body(all, outs[m]);
    SplicedCodeStep(code, all, outs, m, sp);
    assert v == SplicedView(u, body, sp);
    ShiftStep(all, outs, m, a);
    FoundMoves(u, v, body, sp, a + Shift(all, outs, m, a), a + Shift(all, outs, m + 1, a), code[a]);
  }

  /** The code's own words are found where `FinalPlace` says. */
  lemma {:induction false} CodePlace(code: seq<Cell>, all: seq<Image>, outs: seq<Entry>, m: nat, a: nat)
    requires m <= |outs| && Descending(outs) && a < |code|
    requires forall k :: 0 <= k < |outs| ==> outs[k].address <= |code|
    ensures CodeFound(code, all, outs, m, a)
  {
    for i := 0 to m
      invariant CodeFound(code, all, outs, i, a)
    {
      CodePlaceStep(code, all, outs, i, a);
    }
  }

  ghost function BodyAt(all: seq<Image>, outs: seq<Entry>, m: nat, k: nat): int
    requires k < m <= |outs|
  {
    outs[k].address + (BodySizes(all, outs, m) - BodySizes(all, outs, k + 1))
  }

  /** Word `a` of the body of output `k` is in its place once `m` bodies are in. */
  ghost predicate BodyFoundIn(cells: seq<Cell>, all: seq<Image>, outs: seq<Entry>, m: nat, k: nat, a: nat)
    requires k < m <= |outs| && a < BodySize(all, outs[k])
  {
    var p := BodyAt(all, outs, m, k);
    outs[k].address <= p && p + a < |cells| && cells[p + a] == Body(all, outs[k])[a]
  }

  ghost predicate BodyFound(code: seq<Cell>, all: seq<Image>, outs: seq<Entry>, m: nat, k: nat, a: nat)
    requires k < m <= |outs| && Descending(outs) && a < BodySize(all, outs[k])
    requires forall k :: 0 <= k < |outs| ==> outs[k].address <= |code|
  {
    BodyFoundIn(SplicedCode(code, all, outs, m), all, outs, m, k, a)
  }

  lemma {:induction false} BodyMoves(u: seq<Cell>, v: seq<Cell>, all: seq<Image>, outs: seq<Entry>, m: nat, m': nat,
          k: nat, a: nat, sp: Splice)
    requires k < m < m' == m + 1 <= |outs| && a < BodySize(all, outs[k]) && BodyFoundIn(u, all, outs, m, k, a)
    requires sp.at == outs[m].address <= outs[k].address && sp.at <= |u| && sp.offset == 0 &&
             sp.count == BodySize(all, outs[m])
    requires v == SplicedView(u, Body(all, outs[m]), sp)
    ensures BodyFoundIn(v, all, outs, m', k, a)
  {
    var p := BodyAt(all, outs, m, k);
    FoundMoves(u, v, Body(all, outs[m]), sp, p + a, p + sp.count + a, Body(all, outs[k])[a]);
    assert BodyAt(all, outs, m + 1, k) == p + sp.count;
  }

  lemma {:induction false} BodyEnters(u: seq<Cell>, v: seq<Cell>, all: seq<Image>, outs: seq<Entry>, k: nat, m: nat,
          a: nat, sp: Splice)
    requires k < m == k + 1 <= |outs| && a < BodySize(all, outs[k])
    requires sp.at == outs[k].address && sp.at <= |u| && sp.offset == 0 && sp.count == BodySize(all, outs[k])
    requires v == SplicedView(u, Body(all, outs[k]), sp)
    ensures BodyFoundIn(v, all, outs, m, k, a)
  {
    SplicedNew(u, Body(all, outs[k]), sp, a, sp.at + a);
  }

  /** A body's words are found where `FinalPlace` says. */
  lemma {:induction false} BodyPlace(code: seq<Cell>, all: seq<Image>, outs: seq<Entry>, m: nat, k: nat, a: nat)
    requires k < m <= |outs| && Descending(outs) && a < BodySize(all, outs[k])
    requires forall k :: 0 <= k < |outs| ==> outs[k].address <= |code|
    ensures BodyFound(code, all, outs, m, k, a)
  {
    var n := m - 1;
    var sp, u, v := Splice("", "", outs[n].address, 0, BodySize(all, outs[n])), SplicedCode(code, all, outs, n),
        SplicedCode(code, all, outs, m);
    SplicedCodeStep(code, all, outs, n, sp);
    assert v == SplicedView(u, Body(all, outs[n]), sp);
    if n == k {
      BodyEnters(u, v, all, outs, k, m, a, sp);
    } else {
      BodyPlace(code, all, outs, n, k, a);
      BodyMoves(u, v, all, outs, n, m, k, a, sp);
    }
  }

  lemma {:induction false} FinalView(orig: Link, outs: seq<Entry>)
    requires Sound(orig) && Ready(orig, outs)
    ensures View(InsertSections(orig, outs, |outs|).target) ==
            FinalCells(orig, outs, |outs|, SplicedCode(View(orig.target), orig.all, outs, |outs|))
  {
    SectionsAreSpliced(orig, outs, |outs|);
  }

  /**
   After both loops a pointer denotes the same cell as before: the cell at the final place of any place
   is the original cell, its own pointer moved along.
   */
  lemma {:induction false} FlattenedPlace(orig: Link, outs: seq<Entry>, bin: Name, a: nat, j: nat)
    requires Sound(orig) && Ready(orig, outs)
    requires bin == orig.target.name ==> a < |orig.target.words|
    requires bin != orig.target.name ==>
               j < |orig.all| && orig.all[j].name == bin && a < |orig.all[j].words| &&
               SectionIndex(orig.all, outs, |outs|, bin).Some?
    ensures var (bin', a') := FinalPlace(orig, outs, |outs|, bin, a);
            var final := View(InsertSections(orig, outs, |outs|).target);
            && bin' == orig.target.name && 0 <= a' < |final|
            && final[a'] == FinalCell(orig, outs, |outs|,
                                      View(if bin == orig.target.name then orig.target else orig.all[j])[a])
  {
    FinalView(orig, outs);
    SplicedPlace(orig, outs, bin, a, j);
  }

  lemma {:induction false} SplicedPlace(orig: Link, outs: seq<Entry>, bin: Name, a: nat, j: nat)
    requires NamesApart(orig.all, orig.target.name) && OutputsFit(orig, outs) && Descending(outs)
    requires bin == orig.target.name ==> a < |orig.target.words|
    requires bin != orig.target.name ==>
               j < |orig.all| && orig.all[j].name == bin && a < |orig.all[j].words| &&
               SectionIndex(orig.all, outs, |outs|, bin).Some?
    ensures var (bin', a') := FinalPlace(orig, outs, |outs|, bin, a);
            var code := SplicedCode(View(orig.target), orig.all, outs, |outs|);
            && bin' == orig.target.name && 0 <= a' < |code|
            && code[a'] == if bin == orig.target.name then View(orig.target)[a] else View(orig.all[j])[a]
  {
    if bin == orig.target.name {
      CodePlace(View(orig.target), orig.all, outs, |outs|, a);
    } else {
      FindNamed(orig.all, 0, j);
      BodyPlace(View(orig.target), orig.all, outs, |outs|, SectionIndex(orig.all, outs, |outs|, bin).value, a);
    }
  }

  /** A label of the code, at the final place of the word it names. */
  ghost function CodeLabelAt(orig: Link, outs: seq<Entry>, m: nat, e: Entry): Entry
    requires m <= |outs|
  {
    e.(address := Wrap(FinalPlace(orig, outs, m, orig.target.name, e.address).1))
  }

  /** A label of the body of output `k`, at the final place of the word it names. */
  ghost function BodyLabelAt(orig: Link, outs: seq<Entry>, m: nat, k: nat, e: Entry): Entry
    requires k < m <= |outs|
  {
    e.(address := Wrap(BodyAt(orig.all, outs, m, k) + e.address))
  }

  ghost predicate CodeLabel(orig: Link, outs: seq<Entry>, m: nat, t: Table, f: Entry)
    requires m <= |outs|
  {
    exists e :: e in TableOf(orig.target, t) && f == CodeLabelAt(orig, outs, m, e)
  }

  /** A label of the section that output `k` takes; a section taken twice has its labels twice. */
  ghost predicate BodyLabel(orig: Link, outs: seq<Entry>, m: nat, t: Table, k: nat, f: Entry)
    requires k < m <= |outs|
  {
    match FindBin(orig.all, SectionName(outs[k]), 0)
    case None => false
    case Some(j) => exists e :: e in TableOf(orig.all[j], t) && f == BodyLabelAt(orig, outs, m, k, e)
  }

  /** The labels that belong in the target once `m` bodies are in. */
  ghost predicate Labelled(orig: Link, outs: seq<Entry>, m: nat, t: Table, f: Entry)
    requires m <= |outs|
  {
    CodeLabel(orig, outs, m, t, f) || exists k :: 0 <= k < m && BodyLabel(orig, outs, m, t, k, f)
  }

  ghost predicate LabelsInside(img: Image, t: Table) {
    forall e :: e in TableOf(img, t) ==> e.address < |img.words|
  }

  /** Labels of sections are followed by a word of the section. */
  ghost predicate SectionsInside(all: seq<Image>, t: Table) {
    forall j :: 0 <= j < |all| && IsSection(all[j].name) ==> LabelsInside(all[j], t)
  }

  lemma {:induction false} TakenIsSection(all: seq<Image>, e: Entry, j: nat)
    requires FindBin(all, SectionName(e), 0) == Some(j)
    ensures IsSection(all[j].name)
  {
    assert SectionName(e)[..8] == SECTION_PREFIX;
  }

  /** The setting of one insertion, for the labels of table `t`. */
  ghost predicate Labelling(orig: Link, outs: seq<Entry>, m: nat, t: Table, i: nat) {
    && NamesApart(orig.all, orig.target.name) && Inserting(orig, outs, m)
    && FindBin(orig.all, SectionName(outs[m]), 0) == Some(i)
    && LabelsInside(orig.target, t) && SectionsInside(orig.all, t)
  }

  lemma {:induction false} CodeLabelStep(orig: Link, outs: seq<Entry>, m: nat, t: Table, i: nat, e: Entry)
    requires Labelling(orig, outs, m, t, i) && e in TableOf(orig.target, t)
    ensures Meaning.MovedEntry(CodeLabelAt(orig, outs, m, e), BodySplice(orig, outs[m])) ==
            CodeLabelAt(orig, outs, m + 1, e)
  {
    FinalCodeStep(orig, outs, m, e.address);
  }

  lemma {:induction false} BodyLabelStep(orig: Link, outs: seq<Entry>, m: nat, t: Table, i: nat, k: nat, j: nat,
          e: Entry)
    requires Labelling(orig, outs, m, t, i) && k < m && FindBin(orig.all, SectionName(outs[k]), 0) == Some(j)
    requires e in TableOf(orig.all[j], t)
    ensures Meaning.MovedEntry(BodyLabelAt(orig, outs, m, k, e), BodySplice(orig, outs[m])) ==
            BodyLabelAt(orig, outs, m + 1, k, e)
  {
    var v := BodyAt(orig.all, outs, m, k) + e.address;
    TakenIsSection(orig.all, outs[k], j);
    OldBodyRoom(orig, outs, m, e.address, j, k, v);
    MapBehind(BodySplice(orig, outs[m]), v);
    assert BodyAt(orig.all, outs, m + 1, k) == BodyAt(orig.all, outs, m, k) + BodySize(orig.all, outs[m]);
  }

  lemma {:induction false} NewLabelStep(orig: Link, outs: seq<Entry>, m: nat, t: Table, i: nat, e: Entry)
    requires Labelling(orig, outs, m, t, i) && e in TableOf(orig.all[i], t)
    ensures Taken(e.address, BodySize(orig.all, outs[m]), BodySplice(orig, outs[m]))
    ensures Transplanted(e, BodySplice(orig, outs[m])) == BodyLabelAt(orig, outs, m + 1, m, e)
  {
    TakenIsSection(orig.all, outs[m], i);
  }

  lemma {:induction false} LabelKept(orig: Link, outs: seq<Entry>, m: nat, t: Table, i: nat, g: Entry)
    requires Labelling(orig, outs, m, t, i) && Labelled(orig, outs, m, t, g)
    ensures Labelled(orig, outs, m + 1, t, Meaning.MovedEntry(g, BodySplice(orig, outs[m])))
  {
    if CodeLabel(orig, outs, m, t, g) {
      var e :| e in TableOf(orig.target, t) && g == CodeLabelAt(orig, outs, m, e);
      CodeLabelStep(orig, outs, m, t, i, e);
    } else {
      var k :| 0 <= k < m && BodyLabel(orig, outs, m, t, k, g);
      var j := FindBin(orig.all, SectionName(outs[k]), 0).value;
      var e :| e in TableOf(orig.all[j], t) && g == BodyLabelAt(orig, outs, m, k, e);
      BodyLabelStep(orig, outs, m, t, i, k, j, e);
      assert BodyLabel(orig, outs, m + 1, t, k, Meaning.MovedEntry(g, BodySplice(orig, outs[m])));
    }
  }

  /** A label of the section that goes in. */
  ghost predicate NewLabel(orig: Link, outs: seq<Entry>, m: nat, t: Table, i: nat, f: Entry)
    requires m < |outs| && i < |orig.all|
  {
    exists e :: e in TableOf(orig.all[i], t) && f == BodyLabelAt(orig, outs, m + 1, m, e)
  }

  lemma {:induction false} OldBodyLabel(orig: Link, outs: seq<Entry>, m: nat, t: Table, i: nat, k: nat, f: Entry)
    returns (g: Entry)
    requires Labelling(orig, outs, m, t, i) && k < m && BodyLabel(orig, outs, m + 1, t, k, f)
    ensures BodyLabel(orig, outs, m, t, k, g) && f == Meaning.MovedEntry(g, BodySplice(orig, outs[m]))
  {
    var j := FindBin(orig.all, SectionName(outs[k]), 0).value;
    var e :| e in TableOf(orig.all[j], t) && f == BodyLabelAt(orig, outs, m + 1, k, e);
    BodyLabelStep(orig, outs, m, t, i, k, j, e);
    g := BodyLabelAt(orig, outs, m, k, e);
  }

  lemma {:induction false} OldCodeLabel(orig: Link, outs: seq<Entry>, m: nat, t: Table, i: nat, f: Entry)
    returns (g: Entry)
    requires Labelling(orig, outs, m, t, i) && CodeLabel(orig, outs, m + 1, t, f)
    ensures CodeLabel(orig, outs, m, t, g) && f == Meaning.MovedEntry(g, BodySplice(orig, outs[m]))
  {
    var e :| e in TableOf(orig.target, t) && f == CodeLabelAt(orig, outs, m + 1, e);
    CodeLabelStep(orig, outs, m, t, i, e);
    g := CodeLabelAt(orig, outs, m, e);
  }

  lemma {:induction false} NewestIsNew(orig: Link, outs: seq<Entry>, m: nat, t: Table, i: nat, f: Entry)
    requires Labelling(orig, outs, m, t, i) && BodyLabel(orig, outs, m + 1, t, m, f)
    ensures NewLabel(orig, outs, m, t, i, f)
  {
  }

  /** A label after the insertion is one from before, moved, or one of the section that goes in. */
  lemma {:induction false} LabelFound(orig: Link, outs: seq<Entry>, m: nat, t: Table, i: nat, f: Entry)
    returns (g: Entry)
    requires Labelling(orig, outs, m, t, i) && Labelled(orig, outs, m + 1, t, f) && !NewLabel(orig, outs, m, t, i, f)
    ensures Labelled(orig, outs, m, t, g) && f == Meaning.MovedEntry(g, BodySplice(orig, outs[m]))
  {
    if CodeLabel(orig, outs, m + 1, t, f) {
      g := OldCodeLabel(orig, outs, m, t, i, f);
    } else {
      var n := m + 1;
      var k :| 0 <= k < n && BodyLabel(orig, outs, n, t, k, f);
      if k == m { NewestIsNew(orig, outs, m, t, i, f); }
      g := OldBodyLabel(orig, outs, m, t, i, k, f);
    }
  }

  /** What belongs in the target is put there. */
  lemma {:induction false} LabelIsTaken(orig: Link, outs: seq<Entry>, m: nat, t: Table, i: nat, to: seq<Entry>,
          from: seq<Entry>, f: Entry)
    requires Labelling(orig, outs, m, t, i) && Labelled(orig, outs, m + 1, t, f)
    requires forall e :: e in to <==> Labelled(orig, outs, m, t, e)
    requires forall e :: e in from <==> e in TableOf(orig.all[i], t)
    ensures f in PlainInsert(to, from, BodySize(orig.all, outs[m]), BodySplice(orig, outs[m]))
  {
    Meaning.InsertMovesLabels(to, from, BodySize(orig.all, outs[m]), BodySplice(orig, outs[m]), f);
    if NewLabel(orig, outs, m, t, i, f) {
      var e :| e in TableOf(orig.all[i], t) && f == BodyLabelAt(orig, outs, m + 1, m, e);
      NewLabelStep(orig, outs, m, t, i, e);
    } else {
      var g := LabelFound(orig, outs, m, t, i, f);
    }
  }

  lemma {:induction false} LabelsTaken(orig: Link, outs: seq<Entry>, m: nat, t: Table, i: nat, to: seq<Entry>,
          from: seq<Entry>, f: Entry)
    requires Labelling(orig, outs, m, t, i)
    requires forall e :: e in to <==> Labelled(orig, outs, m, t, e)
    requires forall e :: e in from <==> e in TableOf(orig.all[i], t)
    ensures f in PlainInsert(to, from, BodySize(orig.all, outs[m]), BodySplice(orig, outs[m])) <==>
            Labelled(orig, outs, m + 1, t, f)
  {
    var sp, size := BodySplice(orig, outs[m]), BodySize(orig.all, outs[m]);
    Meaning.InsertMovesLabels(to, from, size, sp, f);
    if Labelled(orig, outs, m + 1, t, f) { LabelIsTaken(orig, outs, m, t, i, to, from, f); }
    if g :| g in to && f == Meaning.MovedEntry(g, sp) {
      LabelKept(orig, outs, m, t, i, g);
    }
    if e :| e in from && Taken(e.address, size, sp) && f == Transplanted(e, sp) {
      NewLabelStep(orig, outs, m, t, i, e);
      assert BodyLabel(orig, outs, m + 1, t, m, f);
    }
  }

  ghost predicate SameMembers(es: seq<Entry>, es': seq<Entry>) {
    forall e :: e in es <==> e in es'
  }

  ghost predicate LabelsDone(orig: Link, outs: seq<Entry>, m: nat, t: Table, link: Link)
    requires m <= |outs|
  {
    && |link.all| == |orig.all|
    && Complete(orig, outs, m, t, TableOf(link.target, t))
    && forall j :: 0 <= j < |orig.all| ==> SameMembers(TableOf(link.all[j], t), TableOf(orig.all[j], t))
  }

  lemma {:induction false} TablesOfInsert(to: Image, from: Image, sp: Splice, t: Table)
    requires CanInsert(to, from, sp) && t != Output
    ensures TableOf(InsertInto(to, from, sp), t) == PlainInsert(TableOf(to, t), TableOf(from, t), |from.words|, sp)
    ensures TableOf(InsertedFrom(from, true, sp), t) == SortByAddress(TableOf(from, t))
  {
    SortTablesSlotsIn(from);
  }

  lemma {:induction false} SectionTable(orig: Link, link: Link, i: nat, at: nat, t: Table, j: nat)
    requires Sound(link) && RoomFor(link, i, at) && j < |link.all| == |orig.all| && t != Output
    requires SameMembers(TableOf(link.all[j], t), TableOf(orig.all[j], t))
    ensures SameMembers(TableOf(InsertWhole(link, i, at).all[j], t), TableOf(orig.all[j], t))
  {
    if j == i {
      TablesOfInsert(link.target, link.all[i], WholeSplice(link, i, at), t);
      SortKeepsMembers(TableOf(link.all[i], t));
    }
  }

  /** A table lists exactly the labels that belong in the target. */
  ghost predicate Complete(orig: Link, outs: seq<Entry>, m: nat, t: Table, table: seq<Entry>)
    requires m <= |outs|
  {
    forall f :: f in table <==> Labelled(orig, outs, m, t, f)
  }

  lemma {:induction false} CompleteTaken(orig: Link, outs: seq<Entry>, m: nat, t: Table, i: nat, to: Image, from: Image)
    requires Labelling(orig, outs, m, t, i) && t != Output
    requires CanInsert(to, from, BodySplice(orig, outs[m])) && |from.words| == BodySize(orig.all, outs[m])
    requires Complete(orig, outs, m, t, TableOf(to, t))
    requires SameMembers(TableOf(from, t), TableOf(orig.all[i], t))
    ensures Complete(orig, outs, m + 1, t, TableOf(InsertInto(to, from, BodySplice(orig, outs[m])), t))
  {
    TablesOfInsert(to, from, BodySplice(orig, outs[m]), t);
    forall f
      ensures f in TableOf(InsertInto(to, from, BodySplice(orig, outs[m])), t) <==> Labelled(orig, outs, m + 1, t, f)
    {
      LabelsTaken(orig, outs, m, t, i, TableOf(to, t), TableOf(from, t), f);
    }
  }

  lemma {:induction false} LabelsPass(orig: Link, outs: seq<Entry>, m: nat, e: Entry)
    requires m < |outs| && FindBin(orig.all, SectionName(outs[m]), 0).None?
    ensures CodeLabelAt(orig, outs, m + 1, e) == CodeLabelAt(orig, outs, m, e)
    ensures forall k :: 0 <= k < m ==> BodyLabelAt(orig, outs, m + 1, k, e) == BodyLabelAt(orig, outs, m, k, e)
  {
    assert BodySizes(orig.all, outs, m + 1) == BodySizes(orig.all, outs, m);
  }

  lemma {:induction false} CodeLabelPass(orig: Link, outs: seq<Entry>, m: nat, t: Table, f: Entry)
    requires m < |outs| && FindBin(orig.all, SectionName(outs[m]), 0).None?
    ensures CodeLabel(orig, outs, m + 1, t, f) <==> CodeLabel(orig, outs, m, t, f)
  {
    forall e ensures CodeLabelAt(orig, outs, m + 1, e) == CodeLabelAt(orig, outs, m, e) {
      LabelsPass(orig, outs, m, e);
    }
  }

  lemma {:induction false} BodyLabelPass(orig: Link, outs: seq<Entry>, m: nat, t: Table, k: nat, f: Entry)
    requires m < |outs| && FindBin(orig.all, SectionName(outs[m]), 0).None? && k <= m
    ensures BodyLabel(orig, outs, m + 1, t, k, f) <==> k < m && BodyLabel(orig, outs, m, t, k, f)
  {
    if k < m {
      forall e ensures BodyLabelAt(orig, outs, m + 1, k, e) == BodyLabelAt(orig, outs, m, k, e) {
        LabelsPass(orig, outs, m, e);
      }
    }
  }

  lemma {:induction false} LabelledPass(orig: Link, outs: seq<Entry>, m: nat, n: nat, t: Table, f: Entry)
    requires m < |outs| && n == m + 1 && FindBin(orig.all, SectionName(outs[m]), 0).None?
    ensures Labelled(orig, outs, n, t, f) <==> Labelled(orig, outs, m, t, f)
  {
    CodeLabelPass(orig, outs, m, t, f);
    if k :| 0 <= k < n && BodyLabel(orig, outs, n, t, k, f) {
      BodyLabelPass(orig, outs, m, t, k, f);
    }
    if k :| 0 <= k < m && BodyLabel(orig, outs, m, t, k, f) {
      BodyLabelPass(orig, outs, m, t, k, f);
    }
  }

  lemma {:induction false} CompletePassed(orig: Link, outs: seq<Entry>, m: nat, t: Table, table: seq<Entry>)
    requires m < |outs| && FindBin(orig.all, SectionName(outs[m]), 0).None?
    requires Complete(orig, outs, m, t, table)
    ensures Complete(orig, outs, m + 1, t, table)
  {
    forall f ensures Labelled(orig, outs, m + 1, t, f) <==> Labelled(orig, outs, m, t, f) {
      LabelledPass(orig, outs, m, m + 1, t, f);
    }
  }

  lemma {:induction false} LabelsStep(orig: Link, outs: seq<Entry>, m: nat, t: Table, link: Link)
    requires Ready(orig, outs) && m < |outs| && t != Output
    requires LabelsInside(orig.target, t) && SectionsInside(orig.all, t)
    requires Sound(link) && SameSizes(orig.all, link.all) && link.target.name == orig.target.name
    requires |link.target.words| == |orig.target.words| + BodySizes(orig.all, outs, m)
    requires LabelsDone(orig, outs, m, t, link)
    ensures outs[m].address <= |link.target.words| && |link.target.words| + BodySize(link.all, outs[m]) <= WORD_COUNT
    ensures LabelsDone(orig, outs, m + 1, t, InsertSection(link, outs[m]))
  {
    SameBins(orig.all, link.all, SectionName(outs[m]), 0);
    BodySizesMonotone(orig.all, outs, m + 1, |outs|);
    match FindBin(orig.all, SectionName(outs[m]), 0)
    case None =>
      CompletePassed(orig, outs, m, t, TableOf(link.target, t));
    case Some(i) =>
      assert Labelling(orig, outs, m, t, i);
      assert WholeSplice(link, i, outs[m].address) == BodySplice(orig, outs[m]);
      assert SameMembers(TableOf(link.all[i], t), TableOf(orig.all[i], t));
      CompleteTaken(orig, outs, m, t, i, link.target, link.all[i]);
      forall j | 0 <= j < |orig.all|
        ensures SameMembers(TableOf(InsertSection(link, outs[m]).all[j], t), TableOf(orig.all[j], t))
      {
        SectionTable(orig, link, i, outs[m].address, t, j);
      }
  }

  lemma {:induction false} NothingLabelled(orig: Link, outs: seq<Entry>, t: Table)
    ensures LabelsDone(orig, outs, 0, t, orig)
  {
    forall f ensures f in TableOf(orig.target, t) <==> Labelled(orig, outs, 0, t, f) {
      assert f == CodeLabelAt(orig, outs, 0, f);
    }
  }

  /**
   Every table of the flattened bin lists exactly the labels of the code and of the spliced-in bodies,
   each at the final place of the word it named.
   */
  lemma {:induction false} LabelsAreMoved(orig: Link, outs: seq<Entry>, m: nat, t: Table)
    requires Sound(orig) && Ready(orig, outs) && m <= |outs| && t != Output
    requires LabelsInside(orig.target, t) && SectionsInside(orig.all, t)
    ensures LabelsDone(orig, outs, m, t, InsertSections(orig, outs, m))
  {
    NothingLabelled(orig, outs, t);
    for i := 0 to m
      invariant LabelsDone(orig, outs, i, t, InsertSections(orig, outs, i))
    {
      LabelsStep(orig, outs, i, t, InsertSections(orig, outs, i));
    }
  }
}
