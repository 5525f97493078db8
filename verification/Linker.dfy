/**
 The linker's list of bins and the passes over it (libdcpu-ld/ldbins.c), run in place.
 */
module Linker {
  import opened Words
  import opened BinImages
  import opened Splicing
  import opened Bins
  import opened Flattening

  function Values(bins: seq<Bin>): (r: seq<Image>)
    reads set b | b in bins
    ensures |r| == |bins|
    ensures forall i :: 0 <= i < |bins| ==> r[i] == bins[i].Value()
  {
    seq(|bins|, i requires 0 <= i < |bins| reads set b | b in bins => bins[i].Value())
  }

  /** `bin_insert` of a whole listed bin into a bin that is not listed. */
  method InsertListed(bins: seq<Bin>, target: Bin, i: nat, at: nat)
    requires Different(bins) && target !in bins
    requires Sound(Link(Values(bins), target.Value())) && RoomFor(Link(Values(bins), target.Value()), i, at)
    modifies target, set b | b in bins
    ensures Link(Values(bins), target.Value()) == InsertWhole(old(Link(Values(bins), target.Value())), i, at)
  {
    ghost var link := Link(Values(bins), target.Value());
    forall b | b in bins ensures SlotsIn(b.Value()) {
      var j :| 0 <= j < |bins| && bins[j] == b;
      assert SlotsIn(link.all[j]);
    }
    Insert(bins, target, bins[i], at, 0, |bins[i].words|);
    ghost var r := InsertWhole(link, i, at);
    forall j | 0 <= j < |bins| ensures bins[j].Value() == r.all[j] {
      assert bins[j] in bins;
    }
    assert Values(bins) == r.all;
  }

  /** `bin_remove` of all words of a listed bin. */
  method ClearListed(bins: seq<Bin>, target: Bin, i: nat) returns (ok: bool)
    requires Different(bins) && target !in bins && i < |bins|
    modifies set b | b in bins
    ensures target.Value() == old(target.Value())
    ensures var r := ClearWhole(old(Link(Values(bins), target.Value())), i);
            ok == r.Some? && (ok ==> Link(Values(bins), target.Value()) == r.value)
  {
    ghost var link := Link(Values(bins), target.Value());
    ghost var cut := CutWhole(link, i);
    ok := Remove(bins, bins[i], 0, |bins[i].words|);
    assert bins[i] in bins;
    if ClearSurvives(link, i) {
      forall b | b in bins && b != bins[i]
        ensures old(SlotsSurvive(b.words, b.adjustment, bins[i].name, 0, |bins[i].words|))
      {
        var j :| 0 <= j < |bins| && bins[j] == b;
        assert cut[j] == link.all[j];
      }
      assert SlotsSurvive(cut[i].words, cut[i].adjustment, link.all[i].name, 0, |link.all[i].words|);
    }
    if ok {
      forall j | 0 <= j < |bins|
        ensures SlotsSurvive(cut[j].words, cut[j].adjustment, link.all[i].name, 0, |link.all[i].words|)
        ensures bins[j].Value() == RetargetImage(cut[j], link.all[i].name, 0, |link.all[i].words|)
      {
        assert bins[j] in bins;
      }
      assert Values(bins) == ClearWhole(link, i).value.all;
    }
  }

  /** Room for everything `bins_flatten` puts into the new bin. */
  predicate FlattenFits(orig: Link) {
    && Sound(orig) && |orig.target.words| + FileSize(orig.all, |orig.all|) <= WORD_COUNT
    && match MoveFiles(orig, |orig.all|)
       case None => true
       case Some(link) => OutputsFit(link, SortDescending(link.target.output))
  }

  /** What the first loop hands to the second: the outputs are sorted in descending order. */
  function WithOutputs(link: Link): Link {
    link.(target := link.target.(output := SortDescending(link.target.output)))
  }

  function SectionsInserted(link: Link): Option<Image> {
    var outs := SortDescending(link.target.output);
    if Sound(link) && OutputsFit(link, outs) then Some(InsertSections(WithOutputs(link), outs, |outs|).target) else None
  }

  /** The bin that `bins_flatten` leaves; none when the linker halts. */
  function Flattened(orig: Link): Option<Image> {
    match MoveFiles(orig, |orig.all|)
    case None => None
    case Some(link) => SectionsInserted(link)
  }

  /** One round of the first loop of `bins_flatten`. */
  method MoveListed(bins: seq<Bin>, target: Bin, k: nat) returns (ok: bool)
    requires Different(bins) && target !in bins && k < |bins|
    requires Sound(Link(Values(bins), target.Value()))
    requires !IsSection(bins[k].name) ==> RoomFor(Link(Values(bins), target.Value()), k, |target.words|)
    modifies target, set b | b in bins
    ensures var r := MoveRound(old(Link(Values(bins), target.Value())), k);
            ok == r.Some? && (ok ==> Link(Values(bins), target.Value()) == r.value)
  {
    if IsSection(bins[k].name) {
      return true;
    }
    InsertListed(bins, target, k, |target.words|);
    ok := ClearListed(bins, target, k);
  }

  class LinkerState {
    var bins: seq<Bin>

    /** `bins_flatten`: replaces all bins by one; false when the linker halts. */
    method Flatten(name: Name) returns (ok: bool)
      requires Different(bins) && FlattenFits(Link(Values(bins), EmptyImage(name)))
      modifies this, set b | b in bins
      ensures ok == Flattened(old(Link(Values(bins), EmptyImage(name)))).Some?
      ensures ok ==> |bins| == 1 && fresh(bins[0]) &&
                     Flattened(old(Link(Values(bins), EmptyImage(name)))) == Some(bins[0].Value())
    {
      ghost var orig := Link(Values(bins), EmptyImage(name));
      var target := new Bin(name);
      assert Link(Values(bins), target.Value()) == orig;
      ok := MoveFileBins(bins, target);
      if ok {
        MoveFilesShape(orig, |orig.all|);
        InsertOutputs(bins, target);
        bins := [target];
      }
    }

    /** `bins_associate`: every adjustment points into its own bin. */
    method Associate()
      requires Different(bins)
      modifies set b | b in bins
      ensures bins == old(bins)
      ensures forall b :: b in bins ==> b.Value() == Associated(old(b.Value()))
    {
      for k := 0 to |bins|
        invariant bins == old(bins)
        invariant forall j :: 0 <= j < k ==> bins[j].Value() == Associated(old(bins[j].Value()))
        invariant forall j :: k <= j < |bins| ==> bins[j].Value() == old(bins[j].Value())
      {
        AssociateBin(bins[k]);
      }
    }
  }

  /** The bins are as after `k` rounds of the first loop of `bins_flatten`. */
  ghost predicate MovedTo(orig: Link, k: nat, bins: seq<Bin>, target: Bin)
    reads target, set b | b in bins
  {
    MoveFiles(orig, k) == Some(Link(Values(bins), target.Value()))
  }

  /** Round `k` of the first loop of `bins_flatten`. */
  method MoveFile(bins: seq<Bin>, target: Bin, k: nat, ghost orig: Link) returns (ok: bool)
    requires Different(bins) && target !in bins && k < |bins| == |orig.all|
    requires Sound(orig) && |orig.target.words| + FileSize(orig.all, |bins|) <= WORD_COUNT
    requires MovedTo(orig, k, bins, target)
    modifies target, set b | b in bins
    ensures ok ==> MovedTo(orig, k + 1, bins, target)
    ensures !ok ==> MoveFiles(orig, |bins|) == None
  {
    RoundReady(orig, k, Link(Values(bins), target.Value()));
    ok := MoveListed(bins, target, k);
    if !ok { HaltedForGood(MoveRound, orig, k + 1, |bins|); }
  }

  /** The first loop of `bins_flatten`. */
  method MoveFileBins(bins: seq<Bin>, target: Bin) returns (ok: bool)
    requires Different(bins) && target !in bins
    requires Sound(Link(Values(bins), target.Value()))
    requires |target.words| + FileSize(Values(bins), |bins|) <= WORD_COUNT
    modifies target, set b | b in bins
    ensures ok == MoveFiles(old(Link(Values(bins), target.Value())), |bins|).Some?
    ensures ok ==>
              MoveFiles(old(Link(Values(bins), target.Value())), |bins|) == Some(Link(Values(bins), target.Value()))
  {
    ok := MoveAllFiles(bins, target, Link(Values(bins), target.Value()));
  }

  method MoveAllFiles(bins: seq<Bin>, target: Bin, ghost orig: Link) returns (ok: bool)
    requires Different(bins) && target !in bins && |bins| == |orig.all|
    requires Sound(orig) && |orig.target.words| + FileSize(orig.all, |bins|) <= WORD_COUNT
    requires MovedTo(orig, 0, bins, target)
    modifies target, set b | b in bins
    ensures ok ==> MovedTo(orig, |bins|, bins, target)
    ensures !ok ==> MoveFiles(orig, |bins|) == None
  {
    ok := true;
    for k := 0 to |bins|
      invariant ok && MovedTo(orig, k, bins, target)
    {
      ok := MoveFile(bins, target, k, orig);
      if !ok { return; }
    }
  }

  function Associated(img: Image): Image {
    img.(adjustment := seq(|img.adjustment|,
                           i requires 0 <= i < |img.adjustment| => img.adjustment[i].(bin := img.name)))
  }

  method AssociateBin(bin: Bin)
    modifies bin`adjustment
    ensures bin.Value() == Associated(old(bin.Value()))
  {
    ghost var es := bin.adjustment;
    for k := 0 to |bin.adjustment|
      invariant |bin.adjustment| == |es|
      invariant forall j :: 0 <= j < k ==> bin.adjustment[j] == es[j].(bin := bin.name)
      invariant forall j :: k <= j < |es| ==> bin.adjustment[j] == es[j]
    {
      bin.adjustment := bin.adjustment[k := bin.adjustment[k].(bin := bin.name)];
    }
  }

  /** `list_seek` for a bin by name. */
  method SeekBin(bins: seq<Bin>, name: Name) returns (r: Option<nat>)
    ensures r == FindBin(Values(bins), name, 0)
  {
    ghost var all := Values(bins);
    var i := 0;
    while i < |bins|
      invariant i <= |bins|
      invariant FindBin(all, name, 0) == FindBin(all, name, i)
    {
      if bins[i].name == name {
        return Some(i);
      }
      i := i + 1;
    }
    r := None;
  }

  /** One round of the second loop of `bins_flatten`; appends to the iterated output table are refused. */
  method InsertSectionListed(bins: seq<Bin>, target: Bin, e: Entry)
    requires Different(bins) && target !in bins
    requires Sound(Link(Values(bins), target.Value())) && e.address <= |target.words|
    requires |target.words| + BodySize(Values(bins), e) <= WORD_COUNT
    modifies target, set b | b in bins
    ensures Link(Values(bins), target.Value()) == InsertSection(old(Link(Values(bins), target.Value())), e)
  {
    var outputs := target.output;
    var found := SeekBin(bins, SectionName(e));
    if found.Some? {
      InsertListed(bins, target, found.value, e.address);
      target.output := outputs;
    }
  }

  /** The second loop of `bins_flatten`. */
  method InsertSectionBins(bins: seq<Bin>, target: Bin, outs: seq<Entry>)
    requires Different(bins) && target !in bins
    requires Sound(Link(Values(bins), target.Value())) && OutputsFit(Link(Values(bins), target.Value()), outs)
    modifies target, set b | b in bins
    ensures Link(Values(bins), target.Value()) == InsertSections(old(Link(Values(bins), target.Value())), outs, |outs|)
  {
    ghost var start := Link(Values(bins), target.Value());
    var m := 0;
    while m < |outs|
      invariant m <= |outs|
      invariant Link(Values(bins), target.Value()) == InsertSections(start, outs, m)
    {
      SectionReady(start, outs, m);
      InsertSectionListed(bins, target, outs[m]);
      m := m + 1;
    }
  }

  /** The outputs are sorted in reverse order, then their sections go in. */
  method InsertOutputs(bins: seq<Bin>, target: Bin)
    requires Different(bins) && target !in bins
    requires Sound(Link(Values(bins), target.Value()))
    requires OutputsFit(Link(Values(bins), target.Value()), SortDescending(target.output))
    modifies target, set b | b in bins
    ensures SectionsInserted(old(Link(Values(bins), target.Value()))) == Some(target.Value())
  {
    ghost var link := Link(Values(bins), target.Value());
    var outs := SortDescending(target.output);
    target.output := outs;
    assert Link(Values(bins), target.Value()) == WithOutputs(link);
    InsertSectionBins(bins, target, outs);
  }

  lemma {:induction false} SectionReady(orig: Link, outs: seq<Entry>, m: nat)
    requires Sound(orig) && OutputsFit(orig, outs) && m < |outs|
    ensures var link := InsertSections(orig, outs, m);
            && outs[m].address <= |link.target.words| && |link.target.words| + BodySize(link.all, outs[m]) <= WORD_COUNT
            && InsertSections(orig, outs, m + 1) == InsertSection(link, outs[m])
  {
    SameBins(orig.all, InsertSections(orig, outs, m).all, SectionName(outs[m]), 0);
    BodySizesMonotone(orig.all, outs, m + 1, |outs|);
  }
}
