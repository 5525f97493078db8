/**
 Linker bins edited in place (libdcpu-ld/ldbin.c). `all` is the linker's list of live bins; as in
 the source, the bin written to or read from need not be on it.
 */
module Bins {
  import opened Words
  import opened BinImages
  import opened Splicing

  class Bin {
    const name: Name
    var words: seq<Word>
    var provided: seq<Entry>
    var required: seq<Entry>
    var adjustment: seq<Entry>
    var output: seq<Entry>
    var jump: seq<Entry>
    var optional: seq<Entry>
    var call: seq<Entry>

    function Value(): Image
      reads this
    {
      Image(name, words, provided, required, adjustment, output, jump, optional, call)
    }

    constructor (name: Name)
      ensures Value() == Image(name, [], [], [], [], [], [], [], [])
    {
      this.name := name;
      words, provided, required, adjustment := [], [], [], [];
      output, jump, optional, call := [], [], [], [];
    }

    method Write(word: Word)
      modifies this`words
      ensures words == old(words) + [word]
    {
      words := words + [word];
    }
  }

  ghost predicate Different(all: seq<Bin>) {
    forall i, j :: 0 <= i < j < |all| ==> all[i] != all[j]
  }

  // ----- Insertion -----

  /** `bin_info_insert` for a table other than the adjustments. */
  method InfoInsertPlain(tolist: seq<Entry>, fromlist: seq<Entry>, fromSize: nat, isOutput: bool, sp: Splice)
    returns (list: seq<Entry>, sorted: seq<Entry>)
    ensures sorted == SortByAddress(fromlist)
    ensures list == (if isOutput then tolist else ShiftUp(tolist, sp.at, sp.count)) +
                    Transplant(SortByAddress(fromlist), fromSize, sp)
  {
    sorted := SortByAddress(fromlist);
    list := tolist;
    if !isOutput {
      list := ShiftEntries(tolist, sp.at, sp.count);
    }
    var base := list;
    for k := 0 to |sorted|
      invariant list == base + Transplant(sorted[..k], fromSize, sp)
    {
      assert sorted[..k + 1][..k] == sorted[..k];
      if Taken(sorted[k].address, fromSize, sp) {
        list := list + [Transplanted(sorted[k], sp)];
      }
    }
    assert sorted[..|sorted|] == sorted;
  }

  method ShiftEntries(list: seq<Entry>, at: nat, count: nat) returns (r: seq<Entry>)
    ensures r == ShiftUp(list, at, count)
  {
    r := list;
    for k := 0 to |list|
      invariant |r| == |list|
      invariant forall j :: 0 <= j < k ==> r[j] == list[j].(address := ShiftedUp(list[j].address, at, count))
      invariant forall j :: k <= j < |list| ==> r[j] == list[j]
    {
      if r[k].address >= at {
        r := r[k := r[k].(address := Wrap(r[k].address + count))];
      }
    }
  }

  /** Repoints the adjustments of one bin that point into the source or the shifted target. */
  method RepointBin(bin: Bin, sp: Splice)
    requires SlotsIn(bin.Value())
    modifies bin`words, bin`adjustment
    ensures bin.Value() == RepointImage(old(bin.Value()), sp)
  {
    ghost var before := bin.Value();
    for j := 0 to |bin.adjustment|
      invariant |bin.adjustment| == |before.adjustment|
      invariant (bin.words, bin.adjustment) == RepointFirst(before.words, before.adjustment, j, sp)
    {
      var entry := bin.adjustment[j];
      var word := bin.words[entry.address];
      assert bin.words[entry.address := word] == bin.words && bin.adjustment[j := entry] == bin.adjustment;
      if sp.offset <= word < sp.offset + sp.count && entry.bin == sp.from {
        bin.words := bin.words[entry.address := Wrap(word - sp.offset + sp.at)];
        bin.adjustment := bin.adjustment[j := entry.(bin := sp.to)];
      } else if word >= sp.at && entry.bin == sp.to {
        bin.words := bin.words[entry.address := Wrap(word + sp.count)];
      }
    }
  }

  lemma {:induction false} SortTablesSlotsIn(img: Image)
    requires SlotsIn(img)
    ensures SlotsIn(SortTables(img))
  {
    SortKeepsMembers(img.adjustment);
    var s := SortByAddress(img.adjustment);
    forall k | 0 <= k < |s| ensures s[k].address < |img.words| {
      assert s[k] in img.adjustment;
    }
  }

  /** Repoints every listed bin except the insertion's target. */
  method RepointOthers(all: seq<Bin>, to: Bin, sp: Splice)
    requires Different(all)
    requires forall b :: b in all && b != to ==> SlotsIn(b.Value())
    modifies (set b | b in all && b != to)`words, (set b | b in all && b != to)`adjustment
    ensures forall b :: b in all && b != to ==>
                          old(SlotsIn(b.Value())) && b.Value() == RepointImage(old(b.Value()), sp)
  {
    for k := 0 to |all|
      invariant forall j :: 0 <= j < k && all[j] != to ==> all[j].Value() == RepointImage(old(all[j].Value()), sp)
      invariant forall j :: k <= j < |all| ==> all[j].Value() == old(all[j].Value())
      invariant to.Value() == old(to.Value())
    {
      if all[k] != to {
        RepointBin(all[k], sp);
      }
    }
  }

  /** `from` with its adjustment table sorted, as the copying loop leaves it. */
  function SortAdjustment(img: Image): Image {
    img.(adjustment := SortByAddress(img.adjustment))
  }

  /** `bin_info_insert` for the adjustment table, after the words have been copied. */
  method InfoInsertAdjustment(all: seq<Bin>, to: Bin, from: Bin, sp: Splice)
    requires to != from && Different(all)
    requires forall b :: b in all && b != to ==> SlotsIn(b.Value())
    requires SlotsIn(from.Value())
    requires SlotsIn(to.Value().(adjustment := PlainInsert(to.adjustment, from.adjustment, |from.words|, sp)))
    modifies to`words, to`adjustment, from`words, from`adjustment
    modifies (set b | b in all)`words, (set b | b in all)`adjustment
    ensures old(SlotsIn(to.Value().(adjustment := PlainInsert(to.adjustment, from.adjustment, |from.words|, sp))))
    ensures to.Value() ==
            RepointImage(old(to.Value()).(adjustment :=
                                          old(PlainInsert(to.adjustment, from.adjustment, |from.words|, sp))), sp)
    ensures from !in all ==> from.Value() == SortAdjustment(old(from.Value()))
    ensures from in all ==>
              SlotsIn(SortAdjustment(old(from.Value()))) &&
              from.Value() == RepointImage(SortAdjustment(old(from.Value())), sp)
    ensures forall b :: b in all && b != to && b != from ==>
                          old(SlotsIn(b.Value())) && b.Value() == RepointImage(old(b.Value()), sp)
  {
    to.adjustment, from.adjustment := InfoInsertPlain(to.adjustment, from.adjustment, |from.words|, false, sp);
    SortTablesSlotsIn(old(from.Value()));
    RepointOthers(all, to, sp);
    RepointBin(to, sp);
  }

  /** The word-copying loop of `bin_insert`. */
  method CopyWords(to: Bin, from: Bin, sp: Splice)
    requires to != from
    requires sp.at <= |to.words| && sp.offset + sp.count <= |from.words|
    modifies to`words
    ensures to.Value() == old(to.Value()).(words :=
                            old(to.words[..sp.at] + from.words[sp.offset..sp.offset + sp.count] + to.words[sp.at..]))
  {
    ghost var before, source := to.words, from.words;
    for i := 0 to sp.count
      invariant to.words == before[..sp.at] + source[sp.offset..sp.offset + i] + before[sp.at..]
    {
      to.words := to.words[..sp.at + i] + [from.words[sp.offset + i]] + to.words[sp.at + i..];
    }
  }

  /** What an insertion leaves of its source: tables sorted, pointers updated if it is a listed bin. */
  function InsertedFrom(from: Image, listed: bool, sp: Splice): Image
    requires SlotsIn(from)
  {
    SortTablesSlotsIn(from);
    if listed then RepointImage(SortTables(from), sp) else SortTables(from)
  }

  function LabelsInserted(to: Image, from: Image, sp: Splice): Image {
    to.(provided := PlainInsert(to.provided, from.provided, |from.words|, sp),
        required := PlainInsert(to.required, from.required, |from.words|, sp))
  }

  function LabelsSorted(from: Image): Image {
    from.(provided := SortByAddress(from.provided), required := SortByAddress(from.required))
  }

  /** The provided and required tables of `bin_insert`. */
  method InfoInsertLabels(to: Bin, from: Bin, sp: Splice)
    requires to != from
    modifies to`provided, to`required, from`provided, from`required
    ensures to.Value() == LabelsInserted(old(to.Value()), old(from.Value()), sp)
    ensures from.Value() == LabelsSorted(old(from.Value()))
  {
    to.provided, from.provided := InfoInsertPlain(to.provided, from.provided, |from.words|, false, sp);
    to.required, from.required := InfoInsertPlain(to.required, from.required, |from.words|, false, sp);
  }

  function PointsInserted(to: Image, from: Image, sp: Splice): Image {
    to.(output := to.output + Transplant(SortByAddress(from.output), |from.words|, sp),
        jump := PlainInsert(to.jump, from.jump, |from.words|, sp),
        optional := PlainInsert(to.optional, from.optional, |from.words|, sp),
        call := PlainInsert(to.call, from.call, |from.words|, sp))
  }

  function PointsSorted(from: Image): Image {
    from.(output := SortByAddress(from.output), jump := SortByAddress(from.jump),
          optional := SortByAddress(from.optional), call := SortByAddress(from.call))
  }

  /** The output, jump, optional and call tables of `bin_insert`; outputs of the target do not move. */
  method InfoInsertPoints(to: Bin, from: Bin, sp: Splice)
    requires to != from
    modifies to`output, to`jump, to`optional, to`call, from`output, from`jump, from`optional, from`call
    ensures to.Value() == PointsInserted(old(to.Value()), old(from.Value()), sp)
    ensures from.Value() == PointsSorted(old(from.Value()))
  {
    to.output, from.output := InfoInsertPlain(to.output, from.output, |from.words|, true, sp);
    to.jump, from.jump := InfoInsertPlain(to.jump, from.jump, |from.words|, false, sp);
    to.optional, from.optional := InfoInsertPlain(to.optional, from.optional, |from.words|, false, sp);
    to.call, from.call := InfoInsertPlain(to.call, from.call, |from.words|, false, sp);
  }

  /** The stages of an insertion, put together. */
  lemma {:induction false} InsertStages(to: Image, from: Image, listed: bool, sp: Splice)
    requires CanInsert(to, from, sp)
    ensures var copied := to.(words := SplicedWords(to, from, sp));
            var labelled := LabelsInserted(copied, from, sp);
            var mid := labelled.(adjustment := PlainInsert(labelled.adjustment, from.adjustment, |from.words|, sp));
            var fmid := SortAdjustment(LabelsSorted(from));
            && SlotsIn(mid) && SlotsIn(fmid)
            && var f := if listed then RepointImage(fmid, sp) else fmid;
            && PointsInserted(RepointImage(mid, sp), f, sp) == InsertInto(to, from, sp)
            && PointsSorted(f) == InsertedFrom(from, listed, sp)
  {
    SplicedSlots(to, from, sp);
    SortTablesSlotsIn(from);
  }

  /** The words, and the provided and required tables. */
  method InsertWords(to: Bin, from: Bin, sp: Splice)
    requires to != from && SpliceFits(to.Value(), from.Value(), sp)
    modifies to`words, to`provided, to`required, from`provided, from`required
    ensures old(SpliceFits(to.Value(), from.Value(), sp))
    ensures to.Value() == LabelsInserted(old(to.Value()).(words := old(SplicedWords(to.Value(), from.Value(), sp))),
                                         old(from.Value()), sp)
    ensures from.Value() == LabelsSorted(old(from.Value()))
  {
    CopyWords(to, from, sp);
    InfoInsertLabels(to, from, sp);
  }

  /** `bin_insert` */
  method Insert(all: seq<Bin>, to: Bin, from: Bin, at: nat, offset: nat, count: nat)
    requires to != from && Different(all)
    requires forall b :: b in all ==> SlotsIn(b.Value())
    requires CanInsert(to.Value(), from.Value(), Splice(to.name, from.name, at, offset, count))
    modifies to, from, set b | b in all
    ensures to.Value() == InsertInto(old(to.Value()), old(from.Value()), Splice(to.name, from.name, at, offset, count))
    ensures from.Value() == InsertedFrom(old(from.Value()), from in all, Splice(to.name, from.name, at, offset, count))
    ensures forall b :: b in all && b != to && b != from ==>
                          old(SlotsIn(b.Value())) &&
                          b.Value() == RepointImage(old(b.Value()), Splice(to.name, from.name, at, offset, count))
  {
    var sp := Splice(to.name, from.name, at, offset, count);
    InsertStages(to.Value(), from.Value(), from in all, sp);
    InsertWords(to, from, sp);
    InfoInsertAdjustment(all, to, from, sp);
    InfoInsertPoints(to, from, sp);
  }

  // ----- Removal -----

  /** An ascending table falls into three stretches: before, in and behind the window. */
  lemma {:induction false} DropWindowSplit(es: seq<Entry>, lo: nat, hi: nat, offset: nat, count: nat)
    requires lo <= hi <= |es|
    requires forall k :: 0 <= k < |es| ==> (InWindow(es[k].address, offset, count) <==> lo <= k < hi)
    ensures DropWindow(es, offset, count) == es[..lo] + es[hi..]
  {
    if es != [] {
      var n := |es| - 1;
      if hi <= n {
        DropWindowSplit(es[..n], lo, hi, offset, count);
        assert es[..n][..lo] + es[..n][hi..] + [es[n]] == es[..lo] + es[hi..];
      } else {
        DropWindowSplit(es[..n], if lo <= n then lo else n, n, offset, count);
        assert lo <= n ==> es[..n][..lo] == es[..lo];
      }
    }
  }

  /** What the scan knows about the first `k` entries. */
  ghost predicate Scanned(es: seq<Entry>, k: int, delStart: int, delEnd: int, offset: nat, count: nat) {
    && 0 <= k <= |es| && -1 <= delStart < k && -1 <= delEnd < k
    && (delStart == -1 ==> forall j :: 0 <= j < k ==> !InWindow(es[j].address, offset, count))
    && (delStart >= 0 ==> InWindow(es[delStart].address, offset, count) &&
                          forall j :: 0 <= j < delStart ==> !InWindow(es[j].address, offset, count))
    && (delEnd >= 0 ==> delEnd + 1 < k && es[delEnd + 1].address >= offset + count)
    && (delStart >= 0 && delEnd >= 0 ==> delStart <= delEnd && InWindow(es[delEnd].address, offset, count))
    && (delStart >= 0 && delEnd == -1 ==> InWindow(es[k - 1].address, offset, count))
  }

  function LoweredIf(e: Entry, lower: bool, offset: nat, count: nat): Entry {
    if lower then e.(address := Lowered(e.address, offset, count)) else e
  }

  function ScanEnd(es: seq<Entry>, delEnd: int): int {
    if delEnd == -1 then |es| else delEnd + 1
  }

  lemma {:induction false} ScannedWindow(es: seq<Entry>, delStart: int, delEnd: int, offset: nat, count: nat, k: int)
    requires Ascending(es) && Scanned(es, |es|, delStart, delEnd, offset, count)
    requires delStart >= 0 && 0 <= k < |es|
    ensures InWindow(es[k].address, offset, count) <==> delStart <= k < ScanEnd(es, delEnd)
  {
    var last := ScanEnd(es, delEnd) - 1;
    assert InWindow(es[last].address, offset, count);
    if k < delStart {
    } else if k <= last {
      assert es[delStart].address <= es[k].address <= es[last].address;
    } else {
      assert es[last + 1].address <= es[k].address;
    }
  }

  lemma {:induction false} ScanDone(es: seq<Entry>, delStart: int, delEnd: int, offset: nat, count: nat)
    requires Ascending(es) && Scanned(es, |es|, delStart, delEnd, offset, count)
    ensures DropWindow(es, offset, count) ==
            if delStart == -1 then es else es[..delStart] + es[ScanEnd(es, delEnd)..]
  {
    if delStart == -1 {
      DropWindowSplit(es, |es|, |es|, offset, count);
      assert es[..|es|] + es[|es|..] == es;
    } else {
      forall k | 0 <= k < |es|
        ensures InWindow(es[k].address, offset, count) <==> delStart <= k < ScanEnd(es, delEnd)
      {
        ScannedWindow(es, delStart, delEnd, offset, count, k);
      }
      DropWindowSplit(es, delStart, ScanEnd(es, delEnd), offset, count);
    }
  }

  lemma {:induction false} CutLowered(es: seq<Entry>, r: seq<Entry>, lower: bool, lo: nat, hi: nat, offset: nat,
          count: nat)
    requires |r| == |es| && lo <= hi <= |es|
    requires forall j :: 0 <= j < |es| ==> r[j] == LoweredIf(es[j], lower, offset, count)
    ensures var cut := es[..lo] + es[hi..];
            r[..lo] + r[hi..] == if lower then LowerAll(cut, offset, count) else cut
  {
    var cut, rcut := es[..lo] + es[hi..], r[..lo] + r[hi..];
    forall j | 0 <= j < |cut| ensures rcut[j] == LoweredIf(cut[j], lower, offset, count) {
      if j >= lo { assert cut[j] == es[j - lo + hi] && rcut[j] == r[j - lo + hi]; }
    }
  }

  lemma {:induction false} ScanFinal(es: seq<Entry>, r: seq<Entry>, lower: bool, delStart: int, delEnd: int,
          offset: nat, count: nat)
    requires Ascending(es) && Scanned(es, |es|, delStart, delEnd, offset, count)
    requires |r| == |es| && forall j :: 0 <= j < |es| ==> r[j] == LoweredIf(es[j], lower, offset, count)
    ensures delStart >= 0 ==> delStart < ScanEnd(es, delEnd) <= |es|
    ensures (if delStart == -1 then r else r[..delStart] + r[ScanEnd(es, delEnd)..]) ==
            if lower then PlainRemove(es, offset, count) else DropWindow(es, offset, count)
  {
    ScanDone(es, delStart, delEnd, offset, count);
    if delStart == -1 {
      CutLowered(es, r, lower, |es|, |es|, offset, count);
      assert es[..|es|] + es[|es|..] == es && r[..|r|] + r[|r|..] == r;
    } else {
      CutLowered(es, r, lower, delStart, ScanEnd(es, delEnd), offset, count);
    }
  }

  lemma {:induction false} ScanStep(es: seq<Entry>, k: int, delStart: int, delEnd: int, offset: nat, count: nat)
    requires Ascending(es) && Scanned(es, k, delStart, delEnd, offset, count) && k < |es|
    ensures var a := es[k].address;
            Scanned(es, k + 1,
                    if InWindow(a, offset, count) && delStart == -1 then k else delStart,
                    if a >= offset + count && delEnd == -1 then k - 1 else delEnd, offset, count)
  {
    assert forall j :: 0 <= j < k ==> es[j].address <= es[k].address;
  }

  /**
   The scan of `bin_info_remove` over a sorted table: it notes where the window's entries start and
   end, and lowers the later addresses when `lower` is set.
   */
  method ScanWindow(sorted: seq<Entry>, lower: bool, offset: nat, count: nat)
    returns (r: seq<Entry>, delStart: int, delEnd: int)
    requires Ascending(sorted)
    ensures |r| == |sorted| && -1 <= delStart && -1 <= delEnd
    ensures delStart >= 0 ==> delStart < ScanEnd(sorted, delEnd) <= |r|
    ensures (if delStart == -1 then r else r[..delStart] + r[ScanEnd(sorted, delEnd)..]) ==
            if lower then PlainRemove(sorted, offset, count) else DropWindow(sorted, offset, count)
  {
    r := sorted;
    delStart, delEnd := -1, -1;
    for k := 0 to |sorted|
      invariant |r| == |sorted|
      invariant forall j :: 0 <= j < k ==> r[j] == LoweredIf(sorted[j], lower, offset, count)
      invariant forall j :: k <= j < |sorted| ==> r[j] == sorted[j]
      invariant Scanned(sorted, k, delStart, delEnd, offset, count)
    {
      var entry := sorted[k];
      ScanStep(sorted, k, delStart, delEnd, offset, count);
      if entry.address < offset {
      } else if entry.address < offset + count {
        if delStart == -1 { delStart := k; }
      } else {
        if lower { r := r[k := entry.(address := entry.address - count)]; }
        if delEnd == -1 { delEnd := k - 1; }
      }
    }
    ScanFinal(sorted, r, lower, delStart, delEnd, offset, count);
  }

  /** `bin_info_remove` on one table: the noted range is deleted from the sorted table. */
  method InfoRemove(list: seq<Entry>, lower: bool, offset: nat, count: nat) returns (r: seq<Entry>)
    ensures r == RemoveEntries(list, lower, offset, count)
  {
    var sorted := SortByAddress(list);
    SortSorts(list);
    var scanned, delStart, delEnd := ScanWindow(sorted, lower, offset, count);
    var last := if delEnd == -1 then |sorted| - 1 else delEnd;
    assert last + 1 == ScanEnd(sorted, delEnd);
    if last != -1 && delStart != -1 && last >= delStart {
      r := scanned[..delStart] + scanned[last + 1..];
    } else {
      r := scanned;
    }
  }

  /** The retargeting loop of a removal from bin `name`, on one bin; false when the linker halts. */
  method RetargetBin(bin: Bin, name: Name, offset: nat, count: nat) returns (ok: bool)
    modifies bin`words, bin`adjustment
    ensures ok <==> old(SlotsSurvive(bin.words, bin.adjustment, name, offset, count))
    ensures ok ==> bin.Value() == RetargetImage(old(bin.Value()), name, offset, count)
  {
    ghost var words, es := bin.words, bin.adjustment;
    for j := 0 to |bin.adjustment|
      invariant |bin.adjustment| == |es| && |bin.words| == |words|
      invariant FirstSurvive(words, es, j, name, offset, count)
      invariant (bin.words, bin.adjustment) == RetargetFirst(words, es, j, name, offset, count)
    {
      var entry := bin.adjustment[j];
      assert entry == es[j];
      if entry.address >= offset + count && entry.bin == name {
        entry := entry.(address := entry.address - count);
      }
      if entry.address >= |bin.words| {
        return false;
      }
      bin.adjustment := bin.adjustment[j := entry];
      var word := bin.words[entry.address];
      if word >= offset + count && entry.bin == name {
        bin.words := bin.words[entry.address := word - count];
      } else {
        assert bin.words[entry.address := word] == bin.words;
      }
    }
    ok := true;
  }

  /** Retargets every listed bin, stopping at the first that would halt the linker. */
  method RetargetAll(all: seq<Bin>, name: Name, offset: nat, count: nat) returns (ok: bool)
    requires Different(all)
    modifies (set b | b in all)`words, (set b | b in all)`adjustment
    ensures ok <==> forall b :: b in all ==> old(SlotsSurvive(b.words, b.adjustment, name, offset, count))
    ensures ok ==> forall b :: b in all ==>
                                 old(SlotsSurvive(b.words, b.adjustment, name, offset, count)) &&
                                 b.Value() == RetargetImage(old(b.Value()), name, offset, count)
  {
    for k := 0 to |all|
      invariant forall j :: 0 <= j < k ==>
                              old(SlotsSurvive(all[j].words, all[j].adjustment, name, offset, count)) &&
                              all[j].Value() == RetargetImage(old(all[j].Value()), name, offset, count)
      invariant forall j :: k <= j < |all| ==> all[j].Value() == old(all[j].Value())
    {
      var survived := RetargetBin(all[k], name, offset, count);
      if !survived {
        assert all[k] in all;
        return false;
      }
    }
    ok := true;
  }

  method DeleteWords(bin: Bin, offset: nat, count: nat)
    requires offset + count <= |bin.words|
    modifies bin`words
    ensures bin.Value() == old(bin.Value()).(words := old(bin.words[..offset] + bin.words[offset + count..]))
  {
    ghost var before := bin.words;
    for i := 0 to count
      invariant bin.words == before[..offset] + before[offset + i..]
    {
      bin.words := bin.words[..offset] + bin.words[offset + 1..];
    }
  }

  method CutLabels(bin: Bin, offset: nat, count: nat)
    modifies bin`provided, bin`required, bin`adjustment
    ensures bin.Value() == old(bin.Value()).(
                             provided := RemoveEntries(old(bin.provided), true, offset, count),
                             required := RemoveEntries(old(bin.required), true, offset, count),
                             adjustment := RemoveEntries(old(bin.adjustment), false, offset, count))
  {
    bin.provided := InfoRemove(bin.provided, true, offset, count);
    bin.required := InfoRemove(bin.required, true, offset, count);
    bin.adjustment := InfoRemove(bin.adjustment, false, offset, count);
  }

  method CutPoints(bin: Bin, offset: nat, count: nat)
    modifies bin`output, bin`jump, bin`optional, bin`call
    ensures bin.Value() == old(bin.Value()).(
                             output := RemoveEntries(old(bin.output), true, offset, count),
                             jump := RemoveEntries(old(bin.jump), true, offset, count),
                             optional := RemoveEntries(old(bin.optional), true, offset, count),
                             call := RemoveEntries(old(bin.call), true, offset, count))
  {
    bin.output := InfoRemove(bin.output, true, offset, count);
    bin.jump := InfoRemove(bin.jump, true, offset, count);
    bin.optional := InfoRemove(bin.optional, true, offset, count);
    bin.call := InfoRemove(bin.call, true, offset, count);
  }

  /** The part of `bin_remove` that concerns only the bin itself. */
  method CutBin(bin: Bin, offset: nat, count: nat)
    requires offset + count <= |bin.words|
    modifies bin
    ensures bin.Value() == CutImage(old(bin.Value()), offset, count)
  {
    DeleteWords(bin, offset, count);
    CutLabels(bin, offset, count);
    CutPoints(bin, offset, count);
  }

  /** `bin_remove`; the result says whether the linker survives it. */
  method Remove(all: seq<Bin>, bin: Bin, offset: nat, count: nat) returns (ok: bool)
    requires Different(all)
    requires offset + count <= |bin.words|
    modifies bin, (set b | b in all)`words, (set b | b in all)`adjustment
    ensures var cut := CutImage(old(bin.Value()), offset, count);
            && (ok <==> (bin in all ==> SlotsSurvive(cut.words, cut.adjustment, bin.name, offset, count)) &&
                        forall b :: b in all && b != bin ==>
                                      old(SlotsSurvive(b.words, b.adjustment, bin.name, offset, count)))
            && (ok && bin in all ==> bin.Value() == RetargetImage(cut, bin.name, offset, count))
            && (ok && bin !in all ==> bin.Value() == cut)
    ensures ok ==> forall b :: b in all && b != bin ==>
                                 old(SlotsSurvive(b.words, b.adjustment, bin.name, offset, count)) &&
                                 b.Value() == RetargetImage(old(b.Value()), bin.name, offset, count)
  {
    CutBin(bin, offset, count);
    ok := RetargetAll(all, bin.name, offset, count);
  }
}
