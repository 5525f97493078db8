/**
 `bins_flatten` (libdcpu-ld/ldbins.c): the file bins are moved one after another into a new bin, then
 section bins are inserted at the output points. This module says what the two loops make of the bins;
 FlattenMeaning.dfy proves what that means.
 */
module Flattening {
  import opened Words
  import opened BinImages
  import opened Splicing
  import opened Bins

  /** The listed bins and the bin being built, which is not listed yet. */
  datatype Link = Link(all: seq<Image>, target: Image)

  const SECTION_PREFIX: string := "SECTION "

  predicate IsSection(name: Name) {
    |name| >= 8 && name[..8] == SECTION_PREFIX
  }

  function EmptyImage(name: Name): Image {
    Image(name, [], [], [], [], [], [], [], [])
  }

  predicate Sound(link: Link) {
    SlotsIn(link.target) && forall j :: 0 <= j < |link.all| ==> SlotsIn(link.all[j])
  }

  /** Inserting all of bin `i` at `at` of the target. */
  function WholeSplice(link: Link, i: nat, at: nat): Splice
    requires i < |link.all|
  {
    Splice(link.target.name, link.all[i].name, at, 0, |link.all[i].words|)
  }

  predicate RoomFor(link: Link, i: nat, at: nat) {
    i < |link.all| && at <= |link.target.words| && |link.target.words| + |link.all[i].words| <= WORD_COUNT
  }

  /** The bins after `bin_insert` of all of bin `i`. */
  function InsertWhole(link: Link, i: nat, at: nat): (r: Link)
    requires Sound(link) && RoomFor(link, i, at)
    ensures |r.all| == |link.all|
  {
    var sp := WholeSplice(link, i, at);
    Link(seq(|link.all|, j requires 0 <= j < |link.all| =>
           if j == i then InsertedFrom(link.all[j], true, sp) else RepointImage(link.all[j], sp)),
         InsertInto(link.target, link.all[i], sp))
  }

  lemma {:induction false} InsertedSizes(link: Link, i: nat, at: nat)
    requires Sound(link) && RoomFor(link, i, at)
    ensures Sound(InsertWhole(link, i, at))
    ensures var r := InsertWhole(link, i, at);
            && r.target.name == link.target.name
            && |r.target.words| == |link.target.words| + |link.all[i].words|
            && forall j :: 0 <= j < |link.all| ==>
                             r.all[j].name == link.all[j].name && |r.all[j].words| == |link.all[j].words|
  {
    var sp := WholeSplice(link, i, at);
    SplicedSlots(link.target, link.all[i], sp);
    SortTablesSlotsIn(link.all[i]);
  }

  /** The listed bins once bin `i` has lost all its words, before the retargeting loop. */
  function CutWhole(link: Link, i: nat): (r: seq<Image>)
    requires i < |link.all|
    ensures |r| == |link.all|
  {
    link.all[i := CutImage(link.all[i], 0, |link.all[i].words|)]
  }

  predicate ClearSurvives(link: Link, i: nat)
    requires i < |link.all|
  {
    var cut := CutWhole(link, i);
    forall j :: 0 <= j < |cut| ==>
                  SlotsSurvive(cut[j].words, cut[j].adjustment, link.all[i].name, 0, |link.all[i].words|)
  }

  /** The bins after `bin_remove` of all of bin `i`; none when the linker halts. */
  function ClearWhole(link: Link, i: nat): (r: Option<Link>)
    requires i < |link.all|
    ensures r.Some? ==> |r.value.all| == |link.all|
  {
    if !ClearSurvives(link, i) then None
    else
      var cut := CutWhole(link, i);
      Some(link.(all := seq(|cut|, j requires 0 <= j < |cut| =>
                   RetargetImage(cut[j], link.all[i].name, 0, |link.all[i].words|))))
  }

  /** `bin_move` of all of bin `i` to the end of the target. */
  function MoveWhole(link: Link, i: nat): (r: Option<Link>)
    requires Sound(link) && RoomFor(link, i, |link.target.words|)
    ensures r.Some? ==> |r.value.all| == |link.all|
  {
    ClearWhole(InsertWhole(link, i, |link.target.words|), i)
  }

  /** Words of the file bins among the first `k` bins. */
  function FileSize(all: seq<Image>, k: nat): nat
    requires k <= |all|
  {
    if k == 0 then 0
    else FileSize(all, k - 1) + if IsSection(all[k - 1].name) then 0 else |all[k - 1].words|
  }

  lemma {:induction false} FileSizeMonotone(all: seq<Image>, i: nat, k: nat)
    requires i <= k <= |all|
    ensures FileSize(all, i) <= FileSize(all, k)
  {
    if i < k { FileSizeMonotone(all, i, k - 1); }
  }

  /** Names and the sizes that later steps depend on do not change. */
  predicate SameShape(link: Link, orig: Link, k: nat)
    requires k <= |orig.all|
  {
    && |link.all| == |orig.all| && link.target.name == orig.target.name
    && |link.target.words| == |orig.target.words| + FileSize(orig.all, k)
    && (forall j :: 0 <= j < |orig.all| ==> link.all[j].name == orig.all[j].name)
    && (forall j :: 0 <= j < |orig.all| && (k <= j || IsSection(orig.all[j].name)) ==>
                      |link.all[j].words| == |orig.all[j].words|)
  }

  lemma {:induction false} MovedShape(link: Link, orig: Link, i: nat)
    requires i < |orig.all| && SameShape(link, orig, i) && Sound(link)
    requires !IsSection(orig.all[i].name)
    requires |orig.target.words| + FileSize(orig.all, i + 1) <= WORD_COUNT
    requires MoveWhole(link, i).Some?
    ensures Sound(MoveWhole(link, i).value)
    ensures SameShape(MoveWhole(link, i).value, orig, i + 1)
  {
    InsertedSizes(link, i, |link.target.words|);
    var mid := InsertWhole(link, i, |link.target.words|);
    var cut := CutWhole(mid, i);
    var r := MoveWhole(link, i).value;
    var name, n := mid.all[i].name, |mid.all[i].words|;
    forall j | 0 <= j < |r.all|
      ensures r.all[j].name == orig.all[j].name && SlotsIn(r.all[j]) &&
              (j != i ==> |r.all[j].words| == |mid.all[j].words|)
    {
      assert SlotsSurvive(cut[j].words, cut[j].adjustment, name, 0, n);
      RetargetedEntries(cut[j].words, cut[j].adjustment, |cut[j].adjustment|, name, 0, n);
    }
  }

  /** One round of the first loop; none when the linker halts or the bin no longer fits in memory. */
  function MoveRound(link: Link, k: nat): Option<Link> {
    if k >= |link.all| || !Sound(link) then None
    else if IsSection(link.all[k].name) then Some(link)
    else if !RoomFor(link, k, |link.target.words|) then None
    else MoveWhole(link, k)
  }

  /** A loop of `k` rounds that may halt. */
  function Iterate<S>(round: (S, nat) -> Option<S>, s: S, k: nat): Option<S> {
    if k == 0 then Some(s)
    else match Iterate(round, s, k - 1)
         case None => None
         case Some(t) => round(t, k - 1)
  }

  lemma {:induction false} NextTurn<S>(round: (S, nat) -> Option<S>, s: S, k: nat, n: nat, t: S)
    requires k < n == k + 1 && Iterate(round, s, k) == Some(t)
    ensures Iterate(round, s, n) == round(t, k)
  {
  }

  /** Once a loop has halted it stays halted. */
  lemma {:induction false} HaltedForGood<S>(round: (S, nat) -> Option<S>, s: S, i: nat, k: nat)
    requires i <= k && Iterate(round, s, i).None?
    ensures Iterate(round, s, k).None?
  {
    if i < k { HaltedForGood(round, s, i, k - 1); }
  }

  /** What every round keeps holds after the loop. */
  lemma {:induction false} IterateKeeps<S(!new)>(round: (S, nat) -> Option<S>, s: S, k: nat, inv: (S, nat) -> bool)
    requires inv(s, 0)
    requires forall t, i: nat :: i < k && inv(t, i) && round(t, i).Some? ==> inv(round(t, i).value, i + 1)
    ensures Iterate(round, s, k).Some? ==> inv(Iterate(round, s, k).value, k)
  {
    if k > 0 { IterateKeeps(round, s, k - 1, inv); }
  }

  /** The first loop of `bins_flatten`, over the first `k` listed bins. */
  function MoveFiles(orig: Link, k: nat): Option<Link> {
    Iterate(MoveRound, orig, k)
  }

  lemma {:induction false} RoundShape(link: Link, orig: Link, k: nat)
    requires k < |orig.all| && SameShape(link, orig, k) && Sound(link)
    requires |orig.target.words| + FileSize(orig.all, k + 1) <= WORD_COUNT
    ensures !IsSection(link.all[k].name) ==> RoomFor(link, k, |link.target.words|)
    ensures MoveRound(link, k).Some? ==>
              Sound(MoveRound(link, k).value) && SameShape(MoveRound(link, k).value, orig, k + 1)
  {
    if !IsSection(link.all[k].name) && MoveWhole(link, k).Some? {
      MovedShape(link, orig, k);
    }
  }

  /** Nothing but a halt stops the loop when all file bins fit in memory together. */
  lemma {:induction false} MoveFilesShape(orig: Link, k: nat)
    requires k <= |orig.all| && Sound(orig)
    requires |orig.target.words| + FileSize(orig.all, |orig.all|) <= WORD_COUNT
    ensures MoveFiles(orig, k).Some? ==>
              Sound(MoveFiles(orig, k).value) && SameShape(MoveFiles(orig, k).value, orig, k)
  {
    var inv := (link: Link, i: nat) => i <= |orig.all| && Sound(link) && SameShape(link, orig, i);
    forall link, i: nat | i < k && inv(link, i) && MoveRound(link, i).Some?
      ensures inv(MoveRound(link, i).value, i + 1)
    {
      FileSizeMonotone(orig.all, i + 1, |orig.all|);
      RoundShape(link, orig, i);
    }
    IterateKeeps(MoveRound, orig, k, inv);
  }

  /** The loop is ready for its next round. */
  lemma {:induction false} RoundReady(orig: Link, k: nat, link: Link)
    requires k < |orig.all| && Sound(orig)
    requires |orig.target.words| + FileSize(orig.all, |orig.all|) <= WORD_COUNT
    requires MoveFiles(orig, k) == Some(link)
    ensures Sound(link) && k < |link.all|
    ensures !IsSection(link.all[k].name) ==> RoomFor(link, k, |link.target.words|)
    ensures MoveFiles(orig, k + 1) == MoveRound(link, k)
  {
    MoveFilesShape(orig, k);
    FileSizeMonotone(orig.all, k + 1, |orig.all|);
    RoundShape(link, orig, k);
  }

  // ----- Section bodies -----

  function SectionName(e: Entry): Name {
    SECTION_PREFIX + if e.symbol.Some? then e.symbol.value else ""
  }

  /** `list_seek` by name: the first bin of that name at or after index `i`. */
  function FindBin(all: seq<Image>, name: Name, i: nat): (r: Option<nat>)
    requires i <= |all|
    ensures r.Some? ==> i <= r.value < |all| && all[r.value].name == name
    decreases |all| - i
  {
    if i == |all| then None
    else if all[i].name == name then Some(i)
    else FindBin(all, name, i + 1)
  }

  function BodySize(all: seq<Image>, e: Entry): nat {
    match FindBin(all, SectionName(e), 0)
    case None => 0
    case Some(i) => |all[i].words|
  }

  /** Total size of the bodies of the first `m` outputs. */
  function BodySizes(all: seq<Image>, outs: seq<Entry>, m: nat): nat
    requires m <= |outs|
  {
    if m == 0 then 0 else BodySizes(all, outs, m - 1) + BodySize(all, outs[m - 1])
  }

  lemma {:induction false} BodySizesMonotone(all: seq<Image>, outs: seq<Entry>, i: nat, m: nat)
    requires i <= m <= |outs|
    ensures BodySizes(all, outs, i) <= BodySizes(all, outs, m)
  {
    if i < m { BodySizesMonotone(all, outs, i, m - 1); }
  }

  ghost predicate SameSizes(all: seq<Image>, all': seq<Image>) {
    |all| == |all'| && forall j :: 0 <= j < |all| ==> all[j].name == all'[j].name && |all[j].words| == |all'[j].words|
  }

  lemma {:induction false} SameBins(all: seq<Image>, all': seq<Image>, name: Name, i: nat)
    requires SameSizes(all, all') && i <= |all|
    ensures FindBin(all, name, i) == FindBin(all', name, i)
    decreases |all| - i
  {
    if i < |all| { SameBins(all, all', name, i + 1); }
  }

  /**
   One output point. The output table is being iterated, so simclist refuses the entries that
   `bin_insert` tries to append to it.
   */
  function InsertSection(link: Link, e: Entry): (r: Link)
    requires Sound(link)
    requires e.address <= |link.target.words| && |link.target.words| + BodySize(link.all, e) <= WORD_COUNT
  {
    match FindBin(link.all, SectionName(e), 0)
    case None => link
    case Some(i) =>
      var r := InsertWhole(link, i, e.address);
      r.(target := r.target.(output := link.target.output))
  }

  lemma {:induction false} InsertedSection(link: Link, e: Entry)
    requires Sound(link)
    requires e.address <= |link.target.words| && |link.target.words| + BodySize(link.all, e) <= WORD_COUNT
    ensures var r := InsertSection(link, e);
            && Sound(r) && r.target.name == link.target.name && SameSizes(link.all, r.all)
            && |r.target.words| == |link.target.words| + BodySize(link.all, e)
  {
    match FindBin(link.all, SectionName(e), 0)
    case None =>
    case Some(i) => InsertedSizes(link, i, e.address);
  }

  /** Every output lies in the code it was recorded for, and the linked program fits in memory. */
  predicate OutputsFit(link: Link, outs: seq<Entry>) {
    && (forall k :: 0 <= k < |outs| ==> outs[k].address <= |link.target.words|)
    && |link.target.words| + BodySizes(link.all, outs, |outs|) <= WORD_COUNT
  }

  /** The second loop of `bins_flatten`, over the first `m` outputs. */
  function InsertSections(orig: Link, outs: seq<Entry>, m: nat): (r: Link)
    requires Sound(orig) && m <= |outs| && OutputsFit(orig, outs)
    ensures Sound(r) && r.target.name == orig.target.name && SameSizes(orig.all, r.all)
    ensures |r.target.words| == |orig.target.words| + BodySizes(orig.all, outs, m)
  {
    if m == 0 then orig
    else
      var link := InsertSections(orig, outs, m - 1);
      SameBins(orig.all, link.all, SectionName(outs[m - 1]), 0);
      BodySizesMonotone(orig.all, outs, m, |outs|);
      InsertedSection(link, outs[m - 1]);
      InsertSection(link, outs[m - 1])
  }

  function Reversed(es: seq<Entry>): (r: seq<Entry>)
    ensures |r| == |es| && forall i :: 0 <= i < |es| ==> r[i] == es[|es| - 1 - i]
  {
    seq(|es|, i requires 0 <= i < |es| => es[|es| - 1 - i])
  }

  /** `list_sort(list, -1)` */
  function SortDescending(es: seq<Entry>): seq<Entry> {
    Reversed(SortByAddress(es))
  }
}
