/**
 Insertion keeps the meaning of every pointer: the view of each bin after `bin_insert` is the
 spliced view of the bins before it, with every pointer moved along.
 */
module Splicing {
  import opened Words
  import opened BinImages

  // ----- Views -----

  ghost function MapCell(c: Cell, sp: Splice): Cell {
    match c
    case Lit(_) => c
    case Ptr(b, a) => var (b', a') := Repointed(b, a, sp); Ptr(b', a')
  }

  ghost function MapCells(cs: seq<Cell>, sp: Splice): (r: seq<Cell>)
    ensures |r| == |cs|
    ensures forall i :: 0 <= i < |cs| ==> r[i] == MapCell(cs[i], sp)
  {
    seq(|cs|, i requires 0 <= i < |cs| => MapCell(cs[i], sp))
  }

  lemma {:induction false} RepointPointwise(words: seq<Word>, adjustment: seq<Entry>, n: nat, sp: Splice)
    requires n <= |adjustment| && Distinct(adjustment)
    requires forall k :: 0 <= k < |adjustment| ==> adjustment[k].address < |words|
    ensures var (w, es) := RepointFirst(words, adjustment, n, sp);
            && (forall k :: 0 <= k < n ==>
                              (es[k].bin, w[adjustment[k].address]) ==
                                  Repointed(adjustment[k].bin, words[adjustment[k].address], sp))
            && (forall a :: 0 <= a < |words| && (forall k :: 0 <= k < n ==> adjustment[k].address != a) ==>
                              w[a] == words[a])
  {
    if n > 0 {
      RepointPointwise(words, adjustment, n - 1, sp);
    }
  }

  lemma {:induction false} ViewOfRepoint(img: Image, sp: Splice)
    requires WellFormed(img)
    ensures WellFormed(RepointImage(img, sp))
    ensures View(RepointImage(img, sp)) == MapCells(View(img), sp)
  {
    RepointPointwise(img.words, img.adjustment, |img.adjustment|, sp);
    var r := RepointImage(img, sp);
    forall a | 0 <= a < |img.words| ensures View(r)[a] == MapCell(View(img)[a], sp) {
      if k :| 0 <= k < |img.adjustment| && img.adjustment[k].address == a {
        CellAtSlot(img.words, img.adjustment, k);
        CellAtSlot(r.words, r.adjustment, k);
      } else {
        assert !IsSlot(img.adjustment, a) && !IsSlot(r.adjustment, a);
      }
    }
  }

  // ----- Transplanted entries -----

  lemma {:induction false} TransplantMembers(es: seq<Entry>, fromSize: nat, sp: Splice)
    ensures forall f :: f in Transplant(es, fromSize, sp) <==>
                        exists e :: e in es && Taken(e.address, fromSize, sp) && f == Transplanted(e, sp)
  {
    if es != [] {
      var n := |es| - 1;
      TransplantMembers(es[..n], fromSize, sp);
      assert forall e :: e in es <==> e in es[..n] || e == es[n];
    }
  }

  /** Taken addresses land inside the inserted stretch and do not collide. */
  lemma {:induction false} TransplantDistinct(es: seq<Entry>, fromSize: nat, sp: Splice)
    requires Distinct(es)
    requires forall k :: 0 <= k < |es| ==> es[k].address < fromSize
    requires sp.offset + sp.count <= fromSize && sp.at + sp.count <= WORD_COUNT
    ensures Distinct(Transplant(es, fromSize, sp))
    ensures forall f :: f in Transplant(es, fromSize, sp) ==> sp.at <= f.address < sp.at + sp.count
  {
    TransplantMembers(es, fromSize, sp);
    if es != [] {
      var n := |es| - 1;
      TransplantDistinct(es[..n], fromSize, sp);
      TransplantMembers(es[..n], fromSize, sp);
      var rest := Transplant(es[..n], fromSize, sp);
      if Taken(es[n].address, fromSize, sp) {
        forall k | 0 <= k < |rest| ensures rest[k].address != Transplanted(es[n], sp).address {
          assert rest[k] in rest;
          var e :| e in es[..n] && Taken(e.address, fromSize, sp) && rest[k] == Transplanted(e, sp);
          assert e.address != es[n].address;
        }
      }
    }
  }

  // ----- The inserted-into bin -----

  /** Room for the insertion in a 16-bit address space, and sound slots in both bins. */
  predicate CanInsert(to: Image, from: Image, sp: Splice) {
    SpliceFits(to, from, sp) && SlotsIn(to) && SlotsIn(from) &&
    |to.words| + sp.count <= WORD_COUNT
  }

  function SplicedAdjustment(to: Image, from: Image, sp: Splice): seq<Entry> {
    PlainInsert(to.adjustment, from.adjustment, |from.words|, sp)
  }

  lemma {:induction false} TransplantedInStretch(from: Image, sp: Splice)
    requires SlotsIn(from)
    requires sp.offset + sp.count <= |from.words| && sp.at + sp.count <= WORD_COUNT
    ensures forall f :: f in Transplant(SortByAddress(from.adjustment), |from.words|, sp) ==>
                          sp.at <= f.address < sp.at + sp.count
  {
    SortKeepsMembers(from.adjustment);
    TransplantMembers(SortByAddress(from.adjustment), |from.words|, sp);
  }

  lemma {:induction false} SplicedSlots(to: Image, from: Image, sp: Splice)
    requires CanInsert(to, from, sp)
    ensures SlotsIn(to.(words := SplicedWords(to, from, sp), adjustment := SplicedAdjustment(to, from, sp)))
  {
    TransplantedInStretch(from, sp);
    var up := ShiftUp(to.adjustment, sp.at, sp.count);
    var tp := Transplant(SortByAddress(from.adjustment), |from.words|, sp);
    var adj := SplicedAdjustment(to, from, sp);
    forall k | 0 <= k < |adj| ensures adj[k].address < |SplicedWords(to, from, sp)| {
      if k >= |up| { assert adj[k] in tp; }
    }
  }

  lemma {:induction false} SplicedDistinct(to: Image, from: Image, sp: Splice)
    requires CanInsert(to, from, sp) && WellFormed(to) && WellFormed(from)
    ensures Distinct(SplicedAdjustment(to, from, sp))
  {
    var sorted := SortByAddress(from.adjustment);
    SortKeepsDistinct(from.adjustment);
    SortKeepsMembers(from.adjustment);
    forall k | 0 <= k < |sorted| ensures sorted[k].address < |from.words| {
      assert sorted[k] in from.adjustment;
    }
    TransplantDistinct(sorted, |from.words|, sp);
    var up := ShiftUp(to.adjustment, sp.at, sp.count);
    var tp := Transplant(sorted, |from.words|, sp);
    forall i, j | 0 <= i < |up| && 0 <= j < |tp| ensures up[i].address != tp[j].address {
      assert tp[j] in tp;
    }
  }

  /** The target bin after `bin_insert`. */
  function InsertInto(to: Image, from: Image, sp: Splice): Image
    requires CanInsert(to, from, sp)
  {
    SplicedSlots(to, from, sp);
    var spliced := RepointImage(to.(words := SplicedWords(to, from, sp), adjustment := SplicedAdjustment(to, from, sp)),
                                sp);
    var n := |from.words|;
    to.(words := spliced.words, adjustment := spliced.adjustment,
        provided := PlainInsert(to.provided, from.provided, n, sp),
        required := PlainInsert(to.required, from.required, n, sp),
        output := to.output + Transplant(SortByAddress(from.output), n, sp),
        jump := PlainInsert(to.jump, from.jump, n, sp),
        optional := PlainInsert(to.optional, from.optional, n, sp),
        call := PlainInsert(to.call, from.call, n, sp))
  }

  /** One table lists a place exactly when another lists another place, for the same bin. */
  ghost predicate SameSlot(es: seq<Entry>, a: nat, es': seq<Entry>, a': nat) {
    && (forall e :: e in es && e.address == a ==> exists e' :: e' in es' && e'.address == a' && e'.bin == e.bin)
    && (forall e' :: e' in es' && e'.address == a' ==> exists e :: e in es && e.address == a)
  }

  /** Two places hold the same cell when they hold the same word and the same slot. */
  lemma {:induction false} SameCell(w: seq<Word>, es: seq<Entry>, a: nat, w': seq<Word>, es': seq<Entry>, a': nat)
    requires a < |w| && a' < |w'| && w[a] == w'[a']
    requires Distinct(es') && SameSlot(es, a, es', a')
    ensures CellAt(w, es, a) == CellAt(w', es', a')
  {
    if IsSlot(es, a) {
      var k :| 0 <= k < |es| && es[k].address == a && CellAt(w, es, a) == Ptr(es[k].bin, w[a]);
      assert es[k] in es;
      var e' :| e' in es' && e'.address == a' && e'.bin == es[k].bin;
      var k' :| 0 <= k' < |es'| && es'[k'] == e';
      CellAtSlot(w', es', k');
    }
  }

  lemma {:induction false} InsertedSlots(up: seq<Entry>, from: Image, sp: Splice, s: nat)
    requires SlotsIn(from)
    requires sp.offset + sp.count <= |from.words| && sp.at + sp.count <= WORD_COUNT
    requires forall e :: e in up ==> !(sp.at <= e.address < sp.at + sp.count)
    requires sp.offset <= s < sp.offset + sp.count
    ensures SameSlot(up + Transplant(SortByAddress(from.adjustment), |from.words|, sp), sp.at + (s - sp.offset),
                     from.adjustment, s)
  {
    var sorted := SortByAddress(from.adjustment);
    var tp := Transplant(sorted, |from.words|, sp);
    var a := sp.at + (s - sp.offset);
    SortKeepsMembers(from.adjustment);
    TransplantMembers(sorted, |from.words|, sp);
    forall e: Entry | e in up + tp && e.address == a
      ensures exists e' :: e' in from.adjustment && e'.address == s && e'.bin == e.bin
    {
      assert e in tp;
      var e' :| e' in sorted && Taken(e'.address, |from.words|, sp) && e == Transplanted(e', sp);
    }
    forall e' | e' in from.adjustment && e'.address == s ensures exists e: Entry :: e in up + tp && e.address == a {
      assert Transplanted(e', sp) in tp;
    }
  }

  lemma {:induction false} KeptSlots(es: seq<Entry>, tp: seq<Entry>, at: nat, count: nat, s: nat)
    requires forall e :: e in tp ==> at <= e.address < at + count
    requires forall k :: 0 <= k < |es| ==> es[k].address + count < WORD_COUNT
    requires s + count < WORD_COUNT
    ensures SameSlot(ShiftUp(es, at, count) + tp, ShiftedUp(s, at, count), es, s)
  {
    var up, a := ShiftUp(es, at, count), ShiftedUp(s, at, count);
    forall e: Entry | e in up + tp && e.address == a
      ensures exists e' :: e' in es && e'.address == s && e'.bin == e.bin
    {
      assert e in up;
      var k :| 0 <= k < |up| && up[k] == e;
      assert es[k] in es;
    }
    forall e' | e' in es && e'.address == s ensures exists e: Entry :: e in up + tp && e.address == a {
      var k :| 0 <= k < |es| && es[k] == e';
      assert up[k] in up;
    }
  }

  lemma {:induction false} SplicedWord(to: Image, from: Image, sp: Splice, a: nat)
    requires SpliceFits(to, from, sp) && a < |to.words| + sp.count
    ensures SplicedWords(to, from, sp)[a] ==
            if a < sp.at then to.words[a]
            else if a < sp.at + sp.count then from.words[a - sp.at + sp.offset]
            else to.words[a - sp.count]
  {
  }

  lemma {:induction false} ShiftedOutside(es: seq<Entry>, at: nat, count: nat)
    requires forall k :: 0 <= k < |es| ==> es[k].address + count < WORD_COUNT
    ensures forall e :: e in ShiftUp(es, at, count) ==> !(at <= e.address < at + count)
  {
    var up := ShiftUp(es, at, count);
    forall e | e in up ensures !(at <= e.address < at + count) {
      var k :| 0 <= k < |up| && up[k] == e;
    }
  }

  lemma {:induction false} InsertedCell(to: Image, from: Image, sp: Splice, s: nat)
    requires CanInsert(to, from, sp) && WellFormed(to) && WellFormed(from)
    requires sp.offset <= s < sp.offset + sp.count
    ensures CellAt(SplicedWords(to, from, sp), SplicedAdjustment(to, from, sp), sp.at + (s - sp.offset)) ==
            View(from)[s]
  {
    var a := sp.at + (s - sp.offset);
    assert SameSlot(SplicedAdjustment(to, from, sp), a, from.adjustment, s) by {
      ShiftedOutside(to.adjustment, sp.at, sp.count);
      InsertedSlots(ShiftUp(to.adjustment, sp.at, sp.count), from, sp, s);
    }
    SplicedWord(to, from, sp, a);
    SameCell(SplicedWords(to, from, sp), SplicedAdjustment(to, from, sp), a, from.words, from.adjustment, s);
  }

  lemma {:induction false} KeptCell(to: Image, from: Image, sp: Splice, s: nat)
    requires CanInsert(to, from, sp) && WellFormed(to) && WellFormed(from)
    requires s < |to.words|
    ensures CellAt(SplicedWords(to, from, sp), SplicedAdjustment(to, from, sp), ShiftedUp(s, sp.at, sp.count)) ==
            View(to)[s]
  {
    var a := ShiftedUp(s, sp.at, sp.count);
    assert SameSlot(SplicedAdjustment(to, from, sp), a, to.adjustment, s) by {
      TransplantedInStretch(from, sp);
      KeptSlots(to.adjustment, Transplant(SortByAddress(from.adjustment), |from.words|, sp), sp.at, sp.count, s);
    }
    SplicedWord(to, from, sp, a);
    SameCell(SplicedWords(to, from, sp), SplicedAdjustment(to, from, sp), a, to.words, to.adjustment, s);
  }

  ghost function SplicedView(to: seq<Cell>, from: seq<Cell>, sp: Splice): seq<Cell>
    requires sp.at <= |to| && sp.offset + sp.count <= |from|
  {
    to[..sp.at] + from[sp.offset..sp.offset + sp.count] + to[sp.at..]
  }

  lemma {:induction false} SplicedOld(to: seq<Cell>, from: seq<Cell>, sp: Splice, p: nat, p': nat)
    requires sp.at <= |to| && sp.offset + sp.count <= |from|
    requires p < |to| && p' == if p < sp.at then p else p + sp.count
    ensures p' < |SplicedView(to, from, sp)| && SplicedView(to, from, sp)[p'] == to[p]
  {
  }

  lemma {:induction false} SplicedNew(to: seq<Cell>, from: seq<Cell>, sp: Splice, p: nat, p': nat)
    requires sp.at <= |to| && sp.offset + sp.count <= |from|
    requires sp.offset <= p < sp.offset + sp.count && p' == p - sp.offset + sp.at
    ensures p' < |SplicedView(to, from, sp)| && SplicedView(to, from, sp)[p'] == from[p]
  {
  }

  lemma {:induction false} OldCell(to: Image, from: Image, sp: Splice, p: nat, p': nat)
    requires CanInsert(to, from, sp) && WellFormed(to) && WellFormed(from)
    requires p < |to.words| && p' == if p < sp.at then p else p + sp.count
    ensures CellAt(SplicedWords(to, from, sp), SplicedAdjustment(to, from, sp), p') ==
            SplicedView(View(to), View(from), sp)[p']
  {
    KeptCell(to, from, sp, p);
    SplicedOld(View(to), View(from), sp, p, p');
  }

  lemma {:induction false} NewCell(to: Image, from: Image, sp: Splice, p: nat, p': nat)
    requires CanInsert(to, from, sp) && WellFormed(to) && WellFormed(from)
    requires sp.offset <= p < sp.offset + sp.count && p' == p - sp.offset + sp.at
    ensures CellAt(SplicedWords(to, from, sp), SplicedAdjustment(to, from, sp), p') ==
            SplicedView(View(to), View(from), sp)[p']
  {
    InsertedCell(to, from, sp, p);
    SplicedNew(View(to), View(from), sp, p, p');
  }

  lemma {:induction false} SplicedCell(to: Image, from: Image, sp: Splice, a: nat)
    requires CanInsert(to, from, sp) && WellFormed(to) && WellFormed(from) && a < |to.words| + sp.count
    ensures CellAt(SplicedWords(to, from, sp), SplicedAdjustment(to, from, sp), a) ==
            SplicedView(View(to), View(from), sp)[a]
  {
    if a < sp.at {
      OldCell(to, from, sp, a, a);
    } else if a < sp.at + sp.count {
      NewCell(to, from, sp, a - sp.at + sp.offset, a);
    } else {
      OldCell(to, from, sp, a - sp.count, a);
    }
  }

  lemma {:induction false} ViewOfSplice(to: Image, from: Image, sp: Splice)
    requires CanInsert(to, from, sp) && WellFormed(to) && WellFormed(from)
    ensures Cells(SplicedWords(to, from, sp), SplicedAdjustment(to, from, sp)) == SplicedView(View(to), View(from), sp)
  {
    var cells, view := Cells(SplicedWords(to, from, sp), SplicedAdjustment(to, from, sp)),
        SplicedView(View(to), View(from), sp);
    assert |cells| == |view|;
    forall a | 0 <= a < |cells| ensures cells[a] == view[a] {
      SplicedCell(to, from, sp, a);
    }
  }

  lemma {:induction false} ViewOfInsert(to: Image, from: Image, sp: Splice)
    requires CanInsert(to, from, sp) && WellFormed(to) && WellFormed(from)
    ensures WellFormed(InsertInto(to, from, sp))
    ensures View(InsertInto(to, from, sp)) == MapCells(SplicedView(View(to), View(from), sp), sp)
  {
    SplicedSlots(to, from, sp);
    SplicedDistinct(to, from, sp);
    var spliced := to.(words := SplicedWords(to, from, sp), adjustment := SplicedAdjustment(to, from, sp));
    ViewOfRepoint(spliced, sp);
    ViewOfSplice(to, from, sp);
    assert View(spliced) == SplicedView(View(to), View(from), sp);
  }
}
