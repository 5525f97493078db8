/**
 Removal of a window of words: exactly the window's entries go, and every other label and every pointer to a
 place outside the window denotes the same cell as before, as long as the retargeting loop decides rightly
 which slots move.
 */
module Removal {
  import opened Words
  import opened BinImages
  import Splicing

  /** Every pointer of the bin points into the bin itself, as after flattening. */
  predicate SelfContained(img: Image) {
    forall k :: 0 <= k < |img.adjustment| ==> img.adjustment[k].bin == img.name
  }

  /** A pointer of a self-contained bin after a removal from it. */
  ghost function LowerCell(c: Cell, offset: nat, count: nat): Cell {
    match c
    case Lit(_) => c
    case Ptr(b, a) => Ptr(b, Lowered(a, offset, count))
  }

  // ----- Tables -----

  lemma {:induction false} DropWindowMembers(es: seq<Entry>, offset: nat, count: nat)
    ensures forall f :: f in DropWindow(es, offset, count) <==> f in es && !InWindow(f.address, offset, count)
  {
    if es != [] {
      var n := |es| - 1;
      DropWindowMembers(es[..n], offset, count);
      assert forall e :: e in es <==> e in es[..n] || e == es[n];
    }
  }

  lemma {:induction false} PlainRemoveMembers(es: seq<Entry>, offset: nat, count: nat)
    ensures forall f :: f in PlainRemove(es, offset, count) <==>
                        exists e :: e in es && !InWindow(e.address, offset, count) &&
                                    f == e.(address := Lowered(e.address, offset, count))
  {
    var kept, low := DropWindow(es, offset, count), PlainRemove(es, offset, count);
    DropWindowMembers(es, offset, count);
    forall f | f in low
      ensures exists e :: e in es && !InWindow(e.address, offset, count) &&
                          f == e.(address := Lowered(e.address, offset, count))
    {
      var k :| 0 <= k < |low| && low[k] == f;
      assert kept[k] in kept;
    }
    forall e | e in es && !InWindow(e.address, offset, count)
      ensures e.(address := Lowered(e.address, offset, count)) in low
    {
      assert e in kept;
      var k :| 0 <= k < |kept| && kept[k] == e;
      assert low[k] in low;
    }
  }

  lemma {:induction false} DropWindowDistinct(es: seq<Entry>, offset: nat, count: nat)
    requires Distinct(es)
    ensures Distinct(DropWindow(es, offset, count))
  {
    if es != [] {
      var n := |es| - 1;
      DropWindowDistinct(es[..n], offset, count);
      DropWindowMembers(es[..n], offset, count);
      var rest := DropWindow(es[..n], offset, count);
      forall k | 0 <= k < |rest| ensures rest[k].address != es[n].address {
        assert rest[k] in es[..n];
      }
    }
  }

  // ----- Pointers -----

  /** A pointer after a removal from the bin `name`. */
  ghost function LowerInto(c: Cell, name: Name, offset: nat, count: nat): Cell {
    match c
    case Lit(_) => c
    case Ptr(b, a) => if b == name then Ptr(b, Lowered(a, offset, count)) else c
  }

  /** The retargeting loop, which decides by the bin pointed into, gives no two entries one slot. */
  ghost predicate SlotsDiffer(es: seq<Entry>, name: Name, offset: nat, count: nat) {
    forall i, j :: 0 <= i < j < |es| ==>
        RetargetedSlot(es[i], name, offset, count) != RetargetedSlot(es[j], name, offset, count)
  }

  function LoweredValue(e: Entry, value: Word, name: Name, offset: nat, count: nat): Word {
    if e.bin == name then Lowered(value, offset, count) else value
  }

  lemma {:induction false} RetargetPointwise(words: seq<Word>, es: seq<Entry>, n: nat, name: Name, offset: nat,
          count: nat)
    requires n <= |es| && FirstSurvive(words, es, n, name, offset, count) && SlotsDiffer(es, name, offset, count)
    ensures var w := RetargetFirst(words, es, n, name, offset, count).0;
            && (forall k :: 0 <= k < n ==>
                              w[RetargetedSlot(es[k], name, offset, count)] ==
                              LoweredValue(es[k], words[RetargetedSlot(es[k], name, offset, count)], name, offset,
                                           count))
            && (forall a ::
                  0 <= a < |words| && (forall k :: 0 <= k < n ==> RetargetedSlot(es[k], name, offset, count) != a) ==>
                    w[a] == words[a])
  {
    if n > 0 {
      RetargetPointwise(words, es, n - 1, name, offset, count);
      assert forall k :: 0 <= k < n - 1 ==>
          RetargetedSlot(es[k], name, offset, count) != RetargetedSlot(es[n - 1], name, offset, count);
    }
  }

  /** The cell at a place that the retargeting loop makes the slot of entry `k`. */
  lemma {:induction false} RetargetedSlotCell(words: seq<Word>, es: seq<Entry>, name: Name, offset: nat, count: nat,
          k: nat)
    requires SlotsSurvive(words, es, name, offset, count) && SlotsDiffer(es, name, offset, count) && k < |es|
    ensures var (w, es') := RetargetFirst(words, es, |es|, name, offset, count);
            var a := RetargetedSlot(es[k], name, offset, count);
            && Distinct(es') && a < |words|
            && CellAt(w, es', a) == Ptr(es[k].bin, LoweredValue(es[k], words[a], name, offset, count))
  {
    RetargetPointwise(words, es, |es|, name, offset, count);
    RetargetedEntries(words, es, |es|, name, offset, count);
    var (w, es') := RetargetFirst(words, es, |es|, name, offset, count);
    assert RetargetedSlot(es[k], name, offset, count) < |words|;
    CellAtSlot(w, es', k);
  }

  /** The cell at a place that is no slot after the retargeting loop. */
  lemma {:induction false} RetargetedLiteral(words: seq<Word>, es: seq<Entry>, name: Name, offset: nat, count: nat,
          a: nat)
    requires SlotsSurvive(words, es, name, offset, count) && a < |words|
    requires forall k :: 0 <= k < |es| ==> RetargetedSlot(es[k], name, offset, count) != a
    ensures var (w, es') := RetargetFirst(words, es, |es|, name, offset, count);
            CellAt(w, es', a) == Lit(w[a]) && (SlotsDiffer(es, name, offset, count) ==> w[a] == words[a])
  {
    RetargetedEntries(words, es, |es|, name, offset, count);
    if SlotsDiffer(es, name, offset, count) { RetargetPointwise(words, es, |es|, name, offset, count); }
  }

  // ----- The bin that is cut -----

  /** Behind the window the bin has only pointers into itself. */
  predicate OwnBehind(img: Image, end: nat) {
    forall k :: 0 <= k < |img.adjustment| && img.adjustment[k].address >= end ==> img.adjustment[k].bin == img.name
  }

  predicate CanCut(img: Image, offset: nat, count: nat) {
    offset + count <= |img.words| && WellFormed(img) && OwnBehind(img, offset + count)
  }

  /** A removal from a bin that holds all its own pointers, as after flattening. */
  predicate CanRemove(img: Image, offset: nat, count: nat) {
    offset + count <= |img.words| && WellFormed(img) && SelfContained(img)
  }

  lemma {:induction false} CutMembers(img: Image, offset: nat, count: nat)
    requires offset + count <= |img.words| && WellFormed(img)
    ensures var cut := CutImage(img, offset, count);
            && Distinct(cut.adjustment)
            && (forall e :: e in cut.adjustment <==> e in img.adjustment && !InWindow(e.address, offset, count))
  {
    var sorted := SortByAddress(img.adjustment);
    SortKeepsMembers(img.adjustment);
    SortKeepsDistinct(img.adjustment);
    DropWindowMembers(sorted, offset, count);
    DropWindowDistinct(sorted, offset, count);
  }

  lemma {:induction false} CutSlots(img: Image, offset: nat, count: nat)
    requires CanCut(img, offset, count)
    ensures var cut := CutImage(img, offset, count);
            && SlotsSurvive(cut.words, cut.adjustment, img.name, offset, count)
            && SlotsDiffer(cut.adjustment, img.name, offset, count)
            && (forall k :: 0 <= k < |cut.adjustment| ==>
                              cut.adjustment[k] in img.adjustment &&
                                  !InWindow(cut.adjustment[k].address, offset, count) &&
                              RetargetedSlot(cut.adjustment[k], img.name, offset, count) ==
                                  Lowered(cut.adjustment[k].address, offset, count))
  {
    CutMembers(img, offset, count);
    var cut := CutImage(img, offset, count);
    forall k | 0 <= k < |cut.adjustment|
      ensures cut.adjustment[k] in img.adjustment && !InWindow(cut.adjustment[k].address, offset, count)
      ensures RetargetedSlot(cut.adjustment[k], img.name, offset, count) ==
              Lowered(cut.adjustment[k].address, offset, count) < |cut.words|
    {
      assert cut.adjustment[k] in cut.adjustment;
    }
    forall i, j | 0 <= i < j < |cut.adjustment|
      ensures RetargetedSlot(cut.adjustment[i], img.name, offset, count) != RetargetedSlot(cut.adjustment[j], img.name,
              offset, count)
    {
      assert cut.adjustment[i].address != cut.adjustment[j].address;
    }
  }

  /** The bin after `bin_remove`. */
  function RemoveFrom(img: Image, offset: nat, count: nat): Image
    requires CanCut(img, offset, count)
  {
    CutSlots(img, offset, count);
    RetargetImage(CutImage(img, offset, count), img.name, offset, count)
  }

  lemma {:induction false} CutWord(img: Image, offset: nat, count: nat, s: nat)
    requires offset + count <= |img.words| && s < |img.words| && !InWindow(s, offset, count)
    ensures Lowered(s, offset, count) < |CutImage(img, offset, count).words|
    ensures CutImage(img, offset, count).words[Lowered(s, offset, count)] == img.words[s]
  {
  }

  lemma {:induction false} CutSlotCell(img: Image, offset: nat, count: nat, j: nat)
    requires CanCut(img, offset, count) && j < |img.adjustment| && !InWindow(img.adjustment[j].address, offset, count)
    ensures var s := Lowered(img.adjustment[j].address, offset, count);
            && s < |RemoveFrom(img, offset, count).words|
            && View(RemoveFrom(img, offset, count))[s] ==
                LowerInto(View(img)[img.adjustment[j].address], img.name, offset, count)
  {
    var cut := CutImage(img, offset, count);
    CutSlots(img, offset, count);
    CutMembers(img, offset, count);
    CutWord(img, offset, count, img.adjustment[j].address);
    assert img.adjustment[j] in cut.adjustment;
    var k :| 0 <= k < |cut.adjustment| && cut.adjustment[k] == img.adjustment[j];
    RetargetedSlotCell(cut.words, cut.adjustment, img.name, offset, count, k);
    CellAtSlot(img.words, img.adjustment, j);
  }

  lemma {:induction false} CutLiteral(img: Image, offset: nat, count: nat, s: nat)
    requires CanCut(img, offset, count) && s < |img.words| && !InWindow(s, offset, count) && !IsSlot(img.adjustment, s)
    ensures Lowered(s, offset, count) < |RemoveFrom(img, offset, count).words|
    ensures View(RemoveFrom(img, offset, count))[Lowered(s, offset, count)] == Lit(img.words[s])
  {
    var cut := CutImage(img, offset, count);
    CutSlots(img, offset, count);
    CutWord(img, offset, count, s);
    forall k | 0 <= k < |cut.adjustment|
        ensures RetargetedSlot(cut.adjustment[k], img.name, offset, count) != Lowered(s, offset, count) {
      var e := cut.adjustment[k];
      assert e in img.adjustment;
    }
    RetargetedLiteral(cut.words, cut.adjustment, img.name, offset, count, Lowered(s, offset, count));
  }

  lemma {:induction false} CutCell(img: Image, offset: nat, count: nat, s: nat)
    requires CanCut(img, offset, count) && s < |img.words| && !InWindow(s, offset, count)
    ensures Lowered(s, offset, count) < |RemoveFrom(img, offset, count).words|
    ensures View(RemoveFrom(img, offset, count))[Lowered(s, offset, count)] ==
            LowerInto(View(img)[s], img.name, offset, count)
  {
    if j :| 0 <= j < |img.adjustment| && img.adjustment[j].address == s {
      CutSlotCell(img, offset, count, j);
    } else {
      CutLiteral(img, offset, count, s);
    }
  }

  ghost function CutView(cells: seq<Cell>, offset: nat, count: nat): (r: seq<Cell>)
    requires offset + count <= |cells|
    ensures |r| == |cells| - count
    ensures forall a :: 0 <= a < |r| ==> r[a] == cells[if a < offset then a else a + count]
  {
    cells[..offset] + cells[offset + count..]
  }

  ghost function LowerAllInto(cs: seq<Cell>, name: Name, offset: nat, count: nat): (r: seq<Cell>)
    ensures |r| == |cs|
    ensures forall i :: 0 <= i < |cs| ==> r[i] == LowerInto(cs[i], name, offset, count)
  {
    seq(|cs|, i requires 0 <= i < |cs| => LowerInto(cs[i], name, offset, count))
  }

  /** The bin as cells: the window is cut out, and every pointer into the bin and behind the window is lowered. */
  lemma {:induction false} ViewOfRemove(img: Image, offset: nat, count: nat)
    requires CanCut(img, offset, count)
    ensures View(RemoveFrom(img, offset, count)) ==
            LowerAllInto(CutView(View(img), offset, count), img.name, offset, count)
  {
    var r, v := View(RemoveFrom(img, offset, count)), CutView(View(img), offset, count);
    assert |r| == |v|;
    forall a | 0 <= a < |r| ensures r[a] == LowerInto(v[a], img.name, offset, count) {
      CutCell(img, offset, count, if a < offset then a else a + count);
    }
  }

  // ----- A bin that holds all its own pointers -----

  lemma {:induction false} RetargetedDistinct(img: Image, offset: nat, count: nat)
    requires CanRemove(img, offset, count)
    ensures var r := RemoveFrom(img, offset, count);
            WellFormed(r) && SelfContained(r)
  {
    CutSlots(img, offset, count);
    var cut := CutImage(img, offset, count);
    RetargetedEntries(cut.words, cut.adjustment, |cut.adjustment|, img.name, offset, count);
  }

  lemma {:induction false} RemovedCell(img: Image, offset: nat, count: nat, s: nat)
    requires CanRemove(img, offset, count)
    requires s < |img.words| && !InWindow(s, offset, count)
    ensures Lowered(s, offset, count) < |RemoveFrom(img, offset, count).words|
    ensures View(RemoveFrom(img, offset, count))[Lowered(s, offset, count)] == LowerCell(View(img)[s], offset, count)
  {
    CutCell(img, offset, count, s);
  }
}
