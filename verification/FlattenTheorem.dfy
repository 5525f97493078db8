/**
 `bins_flatten` as a whole: what it does to the meaning of every bin, label and pointer.
 */
module FlattenTheorem {
  import opened Words
  import opened BinImages
  import opened Splicing
  import opened Flattening
  import opened FlattenMeaning
  import opened SectionMeaning
  import opened Linker

  /** Output points lie in (or at the end of) the object that records them. */
  ghost predicate OutputsInside(orig: seq<Image>) {
    forall i, e :: 0 <= i < |orig| && e in orig[i].output ==> e.address <= |orig[i].words|
  }

  lemma {:induction false} FileOutputsInside(orig: seq<Image>, k: nat)
    requires k <= |orig| && FileSize(orig, k) <= WORD_COUNT && OutputsInside(orig)
    ensures forall e :: e in FileTable(orig, k, Output) ==> e.address <= FileSize(orig, k)
  {
    if k > 0 {
      FileOutputsInside(orig, k - 1);
      if !IsSection(orig[k - 1].name) {
        var es, base := SortByAddress(orig[k - 1].output), FileSize(orig, k - 1);
        SortKeepsMembers(orig[k - 1].output);
        forall e | e in Rebased(es, base) ensures e.address <= FileSize(orig, k) {
          var i :| 0 <= i < |es| && Rebased(es, base)[i] == e;
          assert es[i] in orig[k - 1].output;
          assert base + es[i].address == WORD_COUNT ==> e.address == 0;
        }
      }
    }
  }

  lemma {:induction false} SortedOutputs(orig: seq<Image>, target: Name, link: Link)
    requires Linkable(orig, target) && OutputsInside(orig)
    requires FilesMoved(orig, |orig|, target, link)
    ensures |link.target.words| == FileSize(orig, |orig|)
    ensures var outs := SortDescending(link.target.output);
            Descending(outs) && forall k :: 0 <= k < |outs| ==> outs[k].address <= |link.target.words|
  {
    FileOutputsInside(orig, |orig|);
    SortSorts(link.target.output);
    var es, outs := SortByAddress(link.target.output), SortDescending(link.target.output);
    assert TableOf(link.target, Output) == FileTable(orig, |orig|, Output);
    SortKeepsMembers(link.target.output);
    forall k | 0 <= k < |outs| ensures outs[k].address <= |link.target.words| {
      assert es[|es| - 1 - k] in link.target.output;
    }
  }

  // ----- No sections -----

  lemma {:induction false} NoSectionFound(all: seq<Image>, e: Entry)
    requires forall j :: 0 <= j < |all| ==> !IsSection(all[j].name)
    ensures FindBin(all, SectionName(e), 0).None?
  {
    assert SectionName(e)[..8] == SECTION_PREFIX;
  }

  lemma {:induction false} NoBodies(all: seq<Image>, outs: seq<Entry>, m: nat)
    requires m <= |outs| && forall j :: 0 <= j < |all| ==> !IsSection(all[j].name)
    ensures BodySizes(all, outs, m) == 0
  {
    if m > 0 {
      NoBodies(all, outs, m - 1);
      NoSectionFound(all, outs[m - 1]);
    }
  }

  lemma {:induction false} NoSections(link: Link, outs: seq<Entry>, m: nat)
    requires Sound(link) && m <= |outs| && forall j :: 0 <= j < |link.all| ==> !IsSection(link.all[j].name)
    requires forall k :: 0 <= k < |outs| ==> outs[k].address <= |link.target.words|
    requires |link.target.words| <= WORD_COUNT
    ensures OutputsFit(link, outs) && InsertSections(link, outs, m) == link
  {
    NoBodies(link.all, outs, |outs|);
    for k := 0 to m
      invariant InsertSections(link, outs, k) == link
    {
      NoSectionFound(link.all, outs[k]);
    }
  }

  /**
   Without sections, flattening is concatenation: every word is the word of its object, every pointer is
   increased by the base of the object it points into, and every table is the concatenation of the
   objects' tables moved by the objects' bases.
   */
  lemma {:induction false} FlatteningConcatenates(orig: seq<Image>, target: Name)
    requires Linkable(orig, target) && OutputsInside(orig)
    requires forall j :: 0 <= j < |orig| ==> !IsSection(orig[j].name)
    ensures var r := Flattened(Link(orig, EmptyImage(target)));
            && r.Some? && r.value.name == target && WellFormed(r.value)
            && View(r.value) == FlatCells(orig, |orig|, target, FileCells(orig, |orig|))
            && r.value.output == SortDescending(FileTable(orig, |orig|, Output))
            && forall t :: t != Output ==> TableOf(r.value, t) == FileTable(orig, |orig|, t)
  {
    var start := Link(orig, EmptyImage(target));
    FilesAreConcatenated(orig, target, |orig|);
    LinkableIsSound(orig, target);
    MoveFilesShape(start, |orig|);
    var link := MoveFiles(start, |orig|).value;
    SortedOutputs(orig, target, link);
    SectionFreeLink(orig, target, link);
  }

  lemma {:induction false} SectionFreeImage(link: Link)
    requires Sound(link) && |link.target.words| <= WORD_COUNT
    requires forall j :: 0 <= j < |link.all| ==> !IsSection(link.all[j].name)
    requires var outs := SortDescending(link.target.output);
             forall k :: 0 <= k < |outs| ==> outs[k].address <= |link.target.words|
    ensures SectionsInserted(link) == Some(WithOutputs(link).target)
  {
    var outs := SortDescending(link.target.output);
    NoSections(link, outs, |outs|);
    NoSections(WithOutputs(link), outs, |outs|);
  }

  lemma {:induction false} SectionFreeLink(orig: seq<Image>, target: Name, link: Link)
    requires TargetBuilt(orig, |orig|, target, link.target) && Sound(link) && |link.target.words| <= WORD_COUNT
    requires |link.all| == |orig| && forall j :: 0 <= j < |orig| ==> !IsSection(link.all[j].name)
    requires var outs := SortDescending(link.target.output);
             forall k :: 0 <= k < |outs| ==> outs[k].address <= |link.target.words|
    ensures var r := SectionsInserted(link);
            && r.Some? && r.value.name == target && WellFormed(r.value)
            && View(r.value) == FlatCells(orig, |orig|, target, FileCells(orig, |orig|))
            && r.value.output == SortDescending(FileTable(orig, |orig|, Output))
            && forall t :: t != Output ==> TableOf(r.value, t) == FileTable(orig, |orig|, t)
  {
    SectionFreeImage(link);
    SameButOutputs(orig, target, link.target, WithOutputs(link).target);
  }

  lemma {:induction false} SameButOutputs(orig: seq<Image>, target: Name, img: Image, r: Image)
    requires TargetBuilt(orig, |orig|, target, img) && r == img.(output := r.output)
    ensures r.name == target && WellFormed(r)
    ensures View(r) == FlatCells(orig, |orig|, target, FileCells(orig, |orig|))
    ensures forall t :: t != Output ==> TableOf(r, t) == FileTable(orig, |orig|, t)
  {
    forall t | t != Output ensures TableOf(r, t) == FileTable(orig, |orig|, t) {
      assert TableOf(r, t) == TableOf(img, t);
    }
  }

  // ----- Sections -----

  /** The first loop hands the second one bins whose pointers all denote existing words. */
  lemma {:induction false} FlatPointAnywhere(orig: seq<Image>, target: Name, link: Link, c: Cell, j: nat)
    requires NamesApart(orig, target) && c.Ptr? && j < |orig| && orig[j].name == c.bin && c.address < |orig[j].words|
    requires link.target.name == target && |link.target.words| == FileSize(orig, |orig|) && |link.all| == |orig|
    requires link.all[j].name == orig[j].name && (IsSection(orig[j].name) ==> |link.all[j].words| == |orig[j].words|)
    requires FileSize(orig, |orig|) <= WORD_COUNT
    ensures var f := FlatCell(orig, |orig|, target, c); f.Ptr? && Anywhere(link, f.bin, f.address)
  {
    match FileIndex(orig, |orig|, c.bin)
    case Some(n) =>
      assert n == j;
      FileSizeMonotone(orig, n + 1, |orig|);
    case None =>
      assert Place(link.all, c.bin, c.address);
  }

  lemma {:induction false} FlatPointsAnywhere(orig: seq<Image>, target: Name, link: Link, cells: seq<Cell>)
    requires Linkable(orig, target) && PointsInside(orig, cells)
    requires link.target.name == target && |link.target.words| == FileSize(orig, |orig|) && |link.all| == |orig|
    requires forall j :: 0 <= j < |orig| ==> link.all[j].name == orig[j].name
    requires forall j :: 0 <= j < |orig| && IsSection(orig[j].name) ==> |link.all[j].words| == |orig[j].words|
    ensures PointsAnywhere(link, FlatCells(orig, |orig|, target, cells))
  {
    var flat := FlatCells(orig, |orig|, target, cells);
    forall i | 0 <= i < |flat| && flat[i].Ptr? ensures Anywhere(link, flat[i].bin, flat[i].address) {
      var c := cells[i];
      var j :| 0 <= j < |orig| && orig[j].name == c.bin && 0 <= c.address < |orig[j].words|;
      FlatPointAnywhere(orig, target, link, c, j);
    }
  }

  lemma {:induction false} ReadyForSections(orig: seq<Image>, target: Name, link: Link, outs: seq<Entry>)
    requires Linkable(orig, target) && FilesMoved(orig, |orig|, target, link)
    requires |link.target.words| == FileSize(orig, |orig|)
    requires forall j :: 0 <= j < |orig| ==> link.all[j].name == orig[j].name
    requires forall j :: 0 <= j < |orig| && IsSection(orig[j].name) ==> |link.all[j].words| == |orig[j].words|
    requires Descending(outs) && OutputsFit(link, outs)
    ensures Ready(link, outs)
  {
    FilePointsInside(orig, |orig|, target);
    FlatPointsAnywhere(orig, target, link, FileCells(orig, |orig|));
    forall j | 0 <= j < |link.all| ensures WellFormed(link.all[j]) && PointsAnywhere(link, View(link.all[j])) {
      assert BinMoved(orig, |orig|, target, j, link.all[j]);
      if IsSection(orig[j].name) {
        FlatPointsAnywhere(orig, target, link, View(orig[j]));
      }
    }
  }

  /** The first loop hands the second one labels that are followed by words. */
  lemma {:induction false} LabelsReady(orig: seq<Image>, target: Name, link: Link, t: Table)
    requires Linkable(orig, target) && FilesMoved(orig, |orig|, target, link) && t != Output
    requires |link.target.words| == FileSize(orig, |orig|)
    requires forall j :: 0 <= j < |orig| && IsSection(orig[j].name) ==> |link.all[j].words| == |orig[j].words|
    ensures TableOf(link.target, t) == FileTable(orig, |orig|, t)
    ensures LabelsInside(link.target, t) && SectionsInside(link.all, t)
  {
    FileTableInside(orig, |orig|, t);
    forall j | 0 <= j < |link.all| && IsSection(link.all[j].name) ensures LabelsInside(link.all[j], t) {
      assert BinMoved(orig, |orig|, target, j, link.all[j]);
    }
  }

  /** Every table of the result lists exactly the labels of the code and of the bodies, at their final places. */
  lemma {:induction false} SplicedTable(orig: seq<Image>, target: Name, moved: Link, outs: seq<Entry>, t: Table)
    requires Linkable(orig, target) && FilesMoved(orig, |orig|, target, moved) && t != Output
    requires |moved.target.words| == FileSize(orig, |orig|)
    requires forall j :: 0 <= j < |orig| && IsSection(orig[j].name) ==> |moved.all[j].words| == |orig[j].words|
    requires Sound(WithOutputs(moved)) && Ready(WithOutputs(moved), outs)
    ensures TableOf(WithOutputs(moved).target, t) == FileTable(orig, |orig|, t)
    ensures Complete(WithOutputs(moved), outs, |outs|, t,
                     TableOf(InsertSections(WithOutputs(moved), outs, |outs|).target, t))
  {
    LabelsReady(orig, target, moved, t);
    var link := WithOutputs(moved);
    assert TableOf(link.target, t) == TableOf(moved.target, t);
    LabelsAreMoved(link, outs, |outs|, t);
  }

  /**
   With sections, flattening is concatenation followed by splicing: the result is the concatenated code
   with every section body at its recorded output point, and every pointer, in whatever bin it was and
   whatever bin it pointed into, points to the final place of its word. Every table lists exactly the labels
   of the code and of the bodies, each at the final place of the word it named.
   */
  lemma {:induction false} FlatteningSplices(orig: seq<Image>, target: Name)
    requires Linkable(orig, target) && OutputsInside(orig)
    ensures var moved := MoveFiles(Link(orig, EmptyImage(target)), |orig|);
            && moved.Some?
            && var link, outs := WithOutputs(moved.value), SortDescending(moved.value.target.output);
            (|link.target.words| + BodySizes(link.all, outs, |outs|) <= WORD_COUNT ==>
               && Sound(link) && OutputsFit(link, outs) && Ready(link, outs)
               && var r := Flattened(Link(orig, EmptyImage(target)));
               && r.Some?
               && View(link.target) == FlatCells(orig, |orig|, target, FileCells(orig, |orig|))
               && View(r.value) == FinalCells(link, outs, |outs|,
                                              SplicedCode(View(link.target), link.all, outs, |outs|))
               && forall t :: t != Output ==>
                                TableOf(link.target, t) == FileTable(orig, |orig|, t) &&
                                Complete(link, outs, |outs|, t, TableOf(r.value, t)))
  {
    var start := Link(orig, EmptyImage(target));
    FilesAreConcatenated(orig, target, |orig|);
    LinkableIsSound(orig, target);
    MoveFilesShape(start, |orig|);
    var moved := MoveFiles(start, |orig|).value;
    SortedOutputs(orig, target, moved);
    var outs := SortDescending(moved.target.output);
    if |moved.target.words| + BodySizes(moved.all, outs, |outs|) <= WORD_COUNT {
      ReadyForSections(orig, target, moved, outs);
      SplicedResult(moved, outs);
      forall t | t != Output
        ensures TableOf(WithOutputs(moved).target, t) == FileTable(orig, |orig|, t)
        ensures Complete(WithOutputs(moved), outs, |outs|, t, TableOf(SectionsInserted(moved).value, t))
      {
        SplicedTable(orig, target, moved, outs, t);
      }
    }
  }

  lemma {:induction false} SplicedResult(moved: Link, outs: seq<Entry>)
    requires Sound(moved) && Ready(moved, outs) && outs == SortDescending(moved.target.output)
    ensures var link := WithOutputs(moved);
            && Sound(link) && Ready(link, outs) && View(link.target) == View(moved.target)
            && SectionsInserted(moved).Some?
            && View(SectionsInserted(moved).value) ==
               FinalCells(link, outs, |outs|, SplicedCode(View(link.target), link.all, outs, |outs|))
  {
    var link := WithOutputs(moved);
    assert View(link.target) == View(moved.target);
    forall j | 0 <= j < |link.all| ensures WellFormed(link.all[j]) && PointsAnywhere(link, View(link.all[j])) {
      assert PointsAnywhere(moved, View(moved.all[j]));
    }
    FinalView(link, outs);
  }
}
