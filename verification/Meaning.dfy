/**
 What the two editing operations of the linker promise about every pointer and every place.
 */
module Meaning {
  import opened Words
  import opened BinImages
  import opened Splicing
  import opened Removal
  import opened RemovalMeaning
  import Bins

  /** Uniquely named bins, with the splice's source and target among them. */
  ghost predicate Spliceable(world: map<Name, Image>, sp: Splice) {
    && (forall n :: n in world ==> world[n].name == n && WellFormed(world[n]))
    && sp.to in world && sp.from in world && sp.to != sp.from
    && CanInsert(world[sp.to], world[sp.from], sp)
  }

  /** All bins after the insertion. */
  ghost function Inserted(world: map<Name, Image>, sp: Splice): map<Name, Image>
    requires Spliceable(world, sp)
  {
    map n | n in world ::
      if n == sp.to then InsertInto(world[n], world[sp.from], sp)
      else if n == sp.from then Bins.InsertedFrom(world[n], true, sp)
      else RepointImage(world[n], sp)
  }

  lemma {:induction false} ViewOfSorted(img: Image)
    requires WellFormed(img)
    ensures WellFormed(SortTables(img))
    ensures View(SortTables(img)) == View(img)
  {
    Bins.SortTablesSlotsIn(img);
    SortKeepsDistinct(img.adjustment);
    SortKeepsMembers(img.adjustment);
    forall a | 0 <= a < |img.words| ensures View(SortTables(img))[a] == View(img)[a] {
      SameCell(img.words, SortByAddress(img.adjustment), a, img.words, img.adjustment, a);
    }
  }

  /** The cell of the target at `p` is found at `p'` after the insertion. */
  lemma {:induction false} OldCellFound(to: Image, from: Image, sp: Splice, p: nat, p': nat)
    requires CanInsert(to, from, sp) && WellFormed(to) && WellFormed(from) && to.name != from.name
    requires p < |to.words| && p' == if p < sp.at then p else p + sp.count
    ensures p' < |InsertInto(to, from, sp).words| && View(InsertInto(to, from, sp))[p'] == MapCell(View(to)[p], sp)
  {
    ViewOfInsert(to, from, sp);
    SplicedOld(View(to), View(from), sp, p, p');
  }

  /** The cell of the source at `p` is found at `p'`. */
  lemma {:induction false} NewCellFound(to: Image, from: Image, sp: Splice, p: nat, p': nat)
    requires CanInsert(to, from, sp) && WellFormed(to) && WellFormed(from) && to.name != from.name
    requires sp.offset <= p < sp.offset + sp.count && p' == p - sp.offset + sp.at
    ensures p' < |InsertInto(to, from, sp).words| && View(InsertInto(to, from, sp))[p'] == MapCell(View(from)[p], sp)
  {
    ViewOfInsert(to, from, sp);
    SplicedNew(View(to), View(from), sp, p, p');
  }

  lemma {:induction false} InsertIntoCell(to: Image, from: Image, sp: Splice, bin: Name, a: Word)
    requires CanInsert(to, from, sp) && WellFormed(to) && WellFormed(from) && to.name != from.name
    requires (bin == to.name && a < |to.words|) || (bin == from.name && sp.offset <= a < sp.offset + sp.count)
    ensures var (bin', a') := Repointed(bin, a, sp);
            && bin' == to.name && a' < |InsertInto(to, from, sp).words|
            && View(InsertInto(to, from, sp))[a'] == MapCell(View(if bin == to.name then to else from)[a], sp)
  {
    var a' := Repointed(bin, a, sp).1;
    if bin == to.name {
      OldCellFound(to, from, sp, a, a');
    } else {
      NewCellFound(to, from, sp, a, a');
    }
  }

  lemma {:induction false} RepointedCell(world: map<Name, Image>, sp: Splice, bin: Name, a: Word)
    requires Spliceable(world, sp)
    requires bin in world && bin != sp.to && a < |world[bin].words|
    ensures |Inserted(world, sp)[bin].words| == |world[bin].words|
    ensures View(Inserted(world, sp)[bin])[a] == MapCell(View(world[bin])[a], sp)
  {
    ViewOfSorted(world[bin]);
    ViewOfRepoint(if bin == sp.from then SortTables(world[bin]) else world[bin], sp);
  }

  /**
   `bin_insert` keeps the meaning of every pointer: the cell at any place of any bin is found at the
   place's image, and when it is a pointer it points to the image of what it pointed to. Copied cells
   also stay where they were, pointing to the same images.
   */
  lemma {:induction false} InsertKeepsMeaning(world: map<Name, Image>, sp: Splice, bin: Name, a: Word)
    requires Spliceable(world, sp)
    requires bin in world && a < |world[bin].words|
    ensures var (bin', a') := Repointed(bin, a, sp);
            && bin' in Inserted(world, sp) && a' < |Inserted(world, sp)[bin'].words|
            && View(Inserted(world, sp)[bin'])[a'] == MapCell(View(world[bin])[a], sp)
    ensures bin != sp.to ==>
              |Inserted(world, sp)[bin].words| == |world[bin].words| &&
              View(Inserted(world, sp)[bin])[a] == MapCell(View(world[bin])[a], sp)
  {
    if bin != sp.to {
      RepointedCell(world, sp, bin, a);
    }
    if bin == sp.to || (bin == sp.from && sp.offset <= a < sp.offset + sp.count) {
      InsertIntoCell(world[sp.to], world[sp.from], sp, bin, a);
      assert Inserted(world, sp)[sp.to] == InsertInto(world[sp.to], world[sp.from], sp);
    }
  }

  /** An entry of the target after the insertion. */
  function MovedEntry(e: Entry, sp: Splice): Entry {
    e.(address := Repointed(sp.to, e.address, sp).1)
  }

  lemma {:induction false} ShiftUpAt(to: seq<Entry>, sp: Splice, k: nat)
    requires sp.to != sp.from && k < |to|
    ensures ShiftUp(to, sp.at, sp.count)[k] == MovedEntry(to[k], sp)
  {
  }

  lemma {:induction false} ShiftUpMembers(to: seq<Entry>, sp: Splice, f: Entry)
    requires sp.to != sp.from
    ensures f in ShiftUp(to, sp.at, sp.count) <==> exists e :: e in to && f == MovedEntry(e, sp)
  {
    var up := ShiftUp(to, sp.at, sp.count);
    if f in up {
      var k :| 0 <= k < |up| && up[k] == f;
      ShiftUpAt(to, sp, k);
      assert to[k] in to && f == MovedEntry(to[k], sp);
    }
    if e :| e in to && f == MovedEntry(e, sp) {
      var k :| 0 <= k < |to| && to[k] == e;
      ShiftUpAt(to, sp, k);
      assert up[k] in up;
    }
  }

  /**
   The table after the insertion: the target's entries at the images of their places, and the entries that the
   copying loop takes along, transplanted. Of the source's entries those are the ones in the copied stretch, at
   the images of their places, and, when the stretch reaches the end of the source, those at or behind its end.
   */
  lemma {:induction false} InsertMovesLabels(to: seq<Entry>, from: seq<Entry>, fromSize: nat, sp: Splice, f: Entry)
    requires sp.to != sp.from && sp.offset + sp.count <= fromSize
    ensures f in PlainInsert(to, from, fromSize, sp) <==>
            || (exists e :: e in to && f == MovedEntry(e, sp))
            || (exists e :: e in from && Taken(e.address, fromSize, sp) && f == Transplanted(e, sp))
    ensures forall e :: e in from && e.address < fromSize ==>
                          (Taken(e.address, fromSize, sp) <==> sp.offset <= e.address < sp.offset + sp.count) &&
                          (Taken(e.address, fromSize, sp) ==>
                             Transplanted(e, sp) == e.(address := Repointed(sp.from, e.address, sp).1))
  {
    ShiftUpMembers(to, sp, f);
    SortKeepsMembers(from);
    TransplantMembers(SortByAddress(from), fromSize, sp);
  }

  /**
   `bin_remove` with any number of live bins: every place outside the window keeps its cell, with pointers into
   the bin lowered, if and only if the retargeting loop decides rightly in every bin. The linker then survives.
   */
  lemma {:induction false} RemoveKeepsMeaning(world: map<Name, Image>, name: Name, offset: nat, count: nat)
    requires Removable(world, name, offset, count)
    ensures (forall n :: n in world ==> BinKept(world[n], name, offset, count)) <==>
            (forall n :: n in world ==> DecidesRightly(world[n], name, offset, count))
    ensures (forall n :: n in world ==> DecidesRightly(world[n], name, offset, count)) ==>
            Survives(world, name, offset, count)
  {
    forall n | n in world
      ensures BinKept(world[n], name, offset, count) <==> DecidesRightly(world[n], name, offset, count)
      ensures DecidesRightly(world[n], name, offset, count) ==>
                var m := Met(world[n], name, offset, count); SlotsSurvive(m.words, m.adjustment, name, offset, count)
    {
      if DecidesRightly(world[n], name, offset, count) {
        RightIsKept(world[n], name, offset, count);
        RightSurvives(world[n], name, offset, count);
      } else {
        WrongIsNotKept(world[n], name, offset, count);
      }
    }
  }

  /** A pointer to a word outside the window, in whatever bin either is, denotes the same word afterwards. */
  lemma {:induction false} RemoveKeepsTargets(world: map<Name, Image>, name: Name, offset: nat, count: nat, bin: Name,
          s: nat)
    requires Removable(world, name, offset, count) &&
             forall n :: n in world ==> DecidesRightly(world[n], name, offset, count)
    requires bin in world && s < |world[bin].words| && !(bin == name && InWindow(s, offset, count)) &&
             View(world[bin])[s].Ptr?
    requires var c := View(world[bin])[s];
             c.bin in world && c.address < |world[c.bin].words| &&
                 !(c.bin == name && InWindow(c.address, offset, count))
    ensures Survives(world, name, offset, count)
    ensures var c := View(world[bin])[s];
            var after, there := View(Removed(world[bin], name, offset, count)),
                View(Removed(world[c.bin], name, offset, count));
            var a := PlaceAfter(world[bin], name, offset, count, s);
            && a < |after| && after[a].Ptr? && after[a].bin == c.bin && after[a].address < |there|
            && there[after[a].address] == LowerInto(View(world[c.bin])[c.address], name, offset, count)
  {
    RemoveKeepsMeaning(world, name, offset, count);
    var c := View(world[bin])[s];
    assert CellKept(world[bin], name, offset, count, s);
    assert BinKept(world[c.bin], name, offset, count);
    assert CellKept(world[c.bin], name, offset, count, c.address);
  }

  /** Exactly the window's entries leave a table, and the others keep naming their places. */
  lemma {:induction false} RemoveMovesLabels(es: seq<Entry>, offset: nat, count: nat, f: Entry)
    ensures f in RemoveEntries(es, true, offset, count) <==>
            exists e :: e in es && !InWindow(e.address, offset, count) &&
                        f == e.(address := Lowered(e.address, offset, count))
  {
    SortKeepsMembers(es);
    PlainRemoveMembers(SortByAddress(es), offset, count);
  }

  // ----- The end of a bin -----

  /** All of the source is appended to the target. */
  predicate Appends(to: Image, from: Image, sp: Splice) {
    && CanInsert(to, from, sp) && sp.to != sp.from
    && sp.at == |to.words| && sp.offset == 0 && sp.count == |from.words| && 0 < sp.count < WORD_COUNT
  }

  /** No other entry of the table has the label. */
  ghost predicate OnlyLabel(to: seq<Entry>, from: seq<Entry>, e: Entry) {
    (forall f :: f in to && f.symbol == e.symbol ==> f == e) && (forall f :: f in from ==> f.symbol != e.symbol)
  }

  lemma {:induction false} TableOfInsert(to: Image, from: Image, sp: Splice, t: Table)
    requires CanInsert(to, from, sp) && t != Output
    ensures TableOf(InsertInto(to, from, sp), t) == PlainInsert(TableOf(to, t), TableOf(from, t), |from.words|, sp)
  {
  }

  lemma {:induction false} EndAddressMoves(size: nat, fromSize: nat, sp: Splice, e: Entry)
    requires sp.to != sp.from && sp.at == size && 0 < sp.count == fromSize < WORD_COUNT && size + fromSize <= WORD_COUNT
    requires e.address <= size
    ensures e.address < size ==> MovedEntry(e, sp) == e
    ensures e.address == size ==>
              MovedEntry(e, sp) == e.(address := Wrap(size + fromSize)) && MovedEntry(e, sp).address != e.address
  {
  }

  lemma {:induction false} EndEntryMoves(to: seq<Entry>, from: seq<Entry>, size: nat, fromSize: nat, sp: Splice,
          e: Entry)
    requires sp.to != sp.from && sp.at == size && sp.offset == 0 && 0 < sp.count == fromSize < WORD_COUNT &&
             size + fromSize <= WORD_COUNT
    requires e in to && e.address <= size && OnlyLabel(to, from, e)
    ensures e in PlainInsert(to, from, fromSize, sp) <==> e.address < size
    ensures MovedEntry(e, sp) in PlainInsert(to, from, fromSize, sp)
    ensures e.address == size ==> MovedEntry(e, sp) == e.(address := Wrap(size + fromSize))
  {
    InsertMovesLabels(to, from, fromSize, sp, e);
    InsertMovesLabels(to, from, fromSize, sp, MovedEntry(e, sp));
    EndAddressMoves(size, fromSize, sp, e);
    if e in PlainInsert(to, from, fromSize, sp) {
      if f :| f in from && Taken(f.address, fromSize, sp) && e == Transplanted(f, sp) {
        assert f.symbol == e.symbol;
      }
    }
  }

  /**
   A label of the target stays where it is when a bin is appended if and only if a word follows it there: a
   label at the very end is shifted behind the appended words.
   */
  lemma {:induction false} EndLabelIsShifted(to: Image, from: Image, sp: Splice, t: Table, e: Entry)
    requires Appends(to, from, sp) && t != Output && e in TableOf(to, t) && e.address <= |to.words|
    requires OnlyLabel(TableOf(to, t), TableOf(from, t), e)
    ensures e in TableOf(InsertInto(to, from, sp), t) <==> e.address < |to.words|
    ensures e.address == |to.words| ==>
              e.(address := Wrap(|to.words| + |from.words|)) in TableOf(InsertInto(to, from, sp), t)
  {
    TableOfInsert(to, from, sp, t);
    EndEntryMoves(TableOf(to, t), TableOf(from, t), |to.words|, |from.words|, sp, e);
  }

  lemma {:induction false} EndEntryTaken(to: seq<Entry>, from: seq<Entry>, size: nat, fromSize: nat, sp: Splice,
          e: Entry)
    requires sp.to != sp.from && sp.at == size && sp.offset == 0 && sp.count == fromSize
    requires e in from && e.address == fromSize
    ensures e.(address := Wrap(size + fromSize)) in PlainInsert(to, from, fromSize, sp)
  {
    InsertMovesLabels(to, from, fromSize, sp, Transplanted(e, sp));
  }

  /** A label at the very end of the appended bin is taken along to the end of the target. */
  lemma {:induction false} EndLabelIsTaken(to: Image, from: Image, sp: Splice, t: Table, e: Entry)
    requires Appends(to, from, sp) && t != Output && e in TableOf(from, t) && e.address == |from.words|
    ensures e.(address := Wrap(|to.words| + |from.words|)) in TableOf(InsertInto(to, from, sp), t)
  {
    TableOfInsert(to, from, sp, t);
    EndEntryTaken(TableOf(to, t), TableOf(from, t), |to.words|, |from.words|, sp, e);
  }

  /**
   A pointer into the appended bin, wherever it stands, is taken along if and only if it points to a word: one
   that points behind the last word keeps pointing to the bin that is left behind.
   */
  lemma {:induction false} EndPointerIsLeftBehind(world: map<Name, Image>, sp: Splice, bin: Name, a: Word, v: Word)
    requires Spliceable(world, sp) && Appends(world[sp.to], world[sp.from], sp)
    requires bin in world && a < |world[bin].words| && View(world[bin])[a] == Ptr(sp.from, v)
    requires v <= |world[sp.from].words|
    ensures var (bin', a') := Repointed(bin, a, sp);
            && bin' in Inserted(world, sp) && a' < |Inserted(world, sp)[bin'].words|
            && var cell := View(Inserted(world, sp)[bin'])[a'];
            && (cell == Ptr(sp.to, Wrap(|world[sp.to].words| + v)) <==> v < |world[sp.from].words|)
            && (v == |world[sp.from].words| ==> cell == Ptr(sp.from, v))
  {
    InsertKeepsMeaning(world, sp, bin, a);
  }

  /** Writing a word and listing it as an adjustment makes it a pointer and changes nothing else. */
  lemma {:induction false} ViewOfMark(img: Image, e: Entry, value: Word)
    requires WellFormed(img) && e.address < |img.words| && !IsSlot(img.adjustment, e.address)
    ensures var r := img.(words := img.words[e.address := value], adjustment := img.adjustment + [e]);
            WellFormed(r) && View(r) == View(img)[e.address := Ptr(e.bin, value)]
  {
    var r := img.(words := img.words[e.address := value], adjustment := img.adjustment + [e]);
    var n := |img.adjustment|;
    forall k | 0 <= k < n ensures img.adjustment[k].address != e.address {
    }
    forall a | 0 <= a < |img.words| ensures View(r)[a] == View(img)[e.address := Ptr(e.bin, value)][a] {
      if a == e.address {
        CellAtSlot(r.words, r.adjustment, n);
      } else {
        assert SameSlot(r.adjustment, a, img.adjustment, a);
        SameCell(r.words, r.adjustment, a, img.words, img.adjustment, a);
      }
    }
  }

  /** Writing a literal changes nothing else. */
  lemma {:induction false} ViewOfWrite(img: Image, a: nat, value: Word)
    requires WellFormed(img) && a < |img.words| && !IsSlot(img.adjustment, a)
    ensures var r := img.(words := img.words[a := value]);
            WellFormed(r) && View(r) == View(img)[a := Lit(value)]
  {
    var r := img.(words := img.words[a := value]);
    forall p | 0 <= p < |img.words| ensures View(r)[p] == View(img)[a := Lit(value)][p] {
      assert p != a ==> r.words[p] == img.words[p];
    }
  }

  lemma {:induction false} LiteralIsNoSlot(img: Image, a: nat)
    requires WellFormed(img) && a < |img.words| && View(img)[a].Lit?
    ensures !IsSlot(img.adjustment, a)
  {
  }
}
