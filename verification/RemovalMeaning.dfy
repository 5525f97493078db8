/**
 `bin_remove` with any number of live bins (libdcpu-ld/ldbin.c): exactly when every place of every bin keeps its
 meaning.
 */
module RemovalMeaning {
  import opened Words
  import opened BinImages
  import opened Removal

  /** Uniquely named bins, one of which holds the window. */
  ghost predicate Removable(world: map<Name, Image>, name: Name, offset: nat, count: nat) {
    && (forall n :: n in world ==> world[n].name == n && WellFormed(world[n]))
    && name in world && count > 0 && offset + count <= |world[name].words|
  }

  /** A bin as the retargeting loop meets it. */
  function Met(img: Image, name: Name, offset: nat, count: nat): Image
    requires img.name == name ==> offset + count <= |img.words|
  {
    if img.name == name then CutImage(img, offset, count) else img
  }

  /** The linker does not halt. */
  ghost predicate Survives(world: map<Name, Image>, name: Name, offset: nat, count: nat)
    requires Removable(world, name, offset, count)
  {
    forall n :: n in world ==>
                  var m := Met(world[n], name, offset, count); SlotsSurvive(m.words, m.adjustment, name, offset, count)
  }

  /** A bin after the removal. */
  function Removed(img: Image, name: Name, offset: nat, count: nat): Image
    requires img.name == name ==> offset + count <= |img.words|
    requires var m := Met(img, name, offset, count); SlotsSurvive(m.words, m.adjustment, name, offset, count)
  {
    RetargetImage(Met(img, name, offset, count), name, offset, count)
  }

  /** Where a place of a bin is after the removal. */
  function PlaceAfter(img: Image, name: Name, offset: nat, count: nat, s: nat): nat {
    if img.name == name then Lowered(s, offset, count) else s
  }

  /** A place is found where it should be, and its pointer denotes what it denoted. */
  ghost predicate CellKept(img: Image, name: Name, offset: nat, count: nat, s: nat)
    requires img.name == name ==> offset + count <= |img.words|
    requires s < |img.words|
  {
    var m, a := Met(img, name, offset, count), PlaceAfter(img, name, offset, count, s);
    && SlotsSurvive(m.words, m.adjustment, name, offset, count)
    && var r := Removed(img, name, offset, count);
    && a < |r.words| && View(r)[a] == LowerInto(View(img)[s], name, offset, count)
  }

  ghost predicate BinKept(img: Image, name: Name, offset: nat, count: nat)
    requires img.name == name ==> offset + count <= |img.words|
  {
    forall s :: 0 <= s < |img.words| && !(img.name == name && InWindow(s, offset, count)) ==>
        CellKept(img, name, offset, count, s)
  }

  /**
   The loop decides rightly: behind the window the bin itself has only pointers into itself, and at those
   addresses no other bin has a pointer into it.
   */
  predicate DecidesRightly(img: Image, name: Name, offset: nat, count: nat) {
    forall k :: 0 <= k < |img.adjustment| && img.adjustment[k].address >= offset + count ==>
                  (img.adjustment[k].bin == name <==> img.name == name)
  }

  // ----- Sufficient -----

  lemma {:induction false} OtherBinKept(img: Image, name: Name, offset: nat, count: nat, s: nat)
    requires img.name != name && WellFormed(img) && DecidesRightly(img, name, offset, count) && s < |img.words|
    ensures CellKept(img, name, offset, count, s)
  {
    var es := img.adjustment;
    forall k | 0 <= k < |es| ensures RetargetedSlot(es[k], name, offset, count) == es[k].address {
    }
    if j :| 0 <= j < |es| && es[j].address == s {
      RetargetedSlotCell(img.words, es, name, offset, count, j);
      CellAtSlot(img.words, es, j);
    } else {
      RetargetedLiteral(img.words, es, name, offset, count, s);
    }
  }

  lemma {:induction false} RightIsKept(img: Image, name: Name, offset: nat, count: nat)
    requires WellFormed(img) && (img.name == name ==> offset + count <= |img.words|)
    requires DecidesRightly(img, name, offset, count)
    ensures BinKept(img, name, offset, count)
  {
    forall s | 0 <= s < |img.words| && !(img.name == name && InWindow(s, offset, count))
      ensures CellKept(img, name, offset, count, s)
    {
      if img.name == name {
        CutSlots(img, offset, count);
        CutCell(img, offset, count, s);
      } else {
        OtherBinKept(img, name, offset, count, s);
      }
    }
  }

  // ----- Necessary -----

  /** The last slot of another bin that the loop lowers by mistake. */
  lemma {:induction false} LastMistake(es: seq<Entry>, name: Name, end: nat, j: nat) returns (k: nat)
    requires j < |es| && es[j].address >= end && es[j].bin == name
    ensures k < |es| && es[k].address >= end && es[k].bin == name
    ensures forall i :: 0 <= i < |es| && es[i].bin == name ==> es[i].address <= es[k].address || es[i].address < end
  {
    k := j;
    for n := 0 to |es|
      invariant k < |es| && es[k].address >= end && es[k].bin == name
      invariant forall i :: 0 <= i < n && es[i].bin == name ==> es[i].address <= es[k].address || es[i].address < end
    {
      if es[n].bin == name && es[n].address > es[k].address { k := n; }
    }
  }

  /** It is no slot afterwards: no other slot is lowered to its place. */
  lemma {:induction false} OtherBinBroken(img: Image, name: Name, offset: nat, count: nat, j: nat) returns (s: nat)
    requires img.name != name && WellFormed(img) && count > 0 && j < |img.adjustment|
    requires img.adjustment[j].address >= offset + count && img.adjustment[j].bin == name
    ensures s < |img.words| && !CellKept(img, name, offset, count, s)
  {
    var es := img.adjustment;
    var k := LastMistake(es, name, offset + count, j);
    s := es[k].address;
    CellAtSlot(img.words, es, k);
    if SlotsSurvive(img.words, es, name, offset, count) {
      forall i | 0 <= i < |es| ensures RetargetedSlot(es[i], name, offset, count) != s {
      }
      RetargetedLiteral(img.words, es, name, offset, count, s);
    }
  }

  /** The first slot of the cut bin that should be lowered and is not. */
  lemma {:induction false} FirstMistake(es: seq<Entry>, name: Name, end: nat, j: nat) returns (k: nat)
    requires j < |es| && es[j].address >= end && es[j].bin != name
    ensures k < |es| && es[k].address >= end && es[k].bin != name
    ensures forall i :: 0 <= i < |es| && es[i].bin != name ==> es[k].address <= es[i].address || es[i].address < end
  {
    k := j;
    for n := 0 to |es|
      invariant k < |es| && es[k].address >= end && es[k].bin != name
      invariant forall i :: 0 <= i < n && es[i].bin != name ==> es[k].address <= es[i].address || es[i].address < end
    {
      if es[n].bin != name && end <= es[n].address < es[k].address { k := n; }
    }
  }

  /** The place it should have moved to is no slot afterwards. */
  lemma {:induction false} CutBinBroken(img: Image, name: Name, offset: nat, count: nat, j: nat) returns (s: nat)
    requires img.name == name && WellFormed(img) && count > 0 && offset + count <= |img.words| && j < |img.adjustment|
    requires img.adjustment[j].address >= offset + count && img.adjustment[j].bin != name
    ensures s < |img.words| && !InWindow(s, offset, count) && !CellKept(img, name, offset, count, s)
  {
    var es, cut := img.adjustment, CutImage(img, offset, count);
    var k := FirstMistake(es, name, offset + count, j);
    s := es[k].address;
    CellAtSlot(img.words, es, k);
    CutMembers(img, offset, count);
    if SlotsSurvive(cut.words, cut.adjustment, name, offset, count) {
      forall i | 0 <= i < |cut.adjustment| ensures RetargetedSlot(cut.adjustment[i], name, offset, count) != s - count {
        assert cut.adjustment[i] in cut.adjustment;
        var m :| 0 <= m < |es| && es[m] == cut.adjustment[i];
        assert m != k ==> es[m].address != es[k].address;
      }
      RetargetedLiteral(cut.words, cut.adjustment, name, offset, count, s - count);
    }
  }

  lemma {:induction false} WrongIsNotKept(img: Image, name: Name, offset: nat, count: nat)
    requires WellFormed(img) && count > 0 && (img.name == name ==> offset + count <= |img.words|)
    requires !DecidesRightly(img, name, offset, count)
    ensures !BinKept(img, name, offset, count)
  {
    var j :| 0 <= j < |img.adjustment| && img.adjustment[j].address >= offset + count &&
             (img.adjustment[j].bin == name) != (img.name == name);
    if img.name == name {
      var s := CutBinBroken(img, name, offset, count, j);
    } else {
      var s := OtherBinBroken(img, name, offset, count, j);
    }
  }

  lemma {:induction false} RightSurvives(img: Image, name: Name, offset: nat, count: nat)
    requires WellFormed(img) && (img.name == name ==> offset + count <= |img.words|)
    requires DecidesRightly(img, name, offset, count)
    ensures var m := Met(img, name, offset, count); SlotsSurvive(m.words, m.adjustment, name, offset, count)
  {
    if img.name == name { CutSlots(img, offset, count); }
  }

  // ----- A failing case -----

  /** Two words, the second of which points to the second word of the bin "a". */
  function Pointing(): Image {
    Image("b", [5, 1], [], [], [Entry(None, "a", 1)], [], [], [], [])
  }

  /** Removing the first word of "a" turns the literal 5 into a pointer, and the pointer into the literal 1. */
  lemma {:induction false} WrongSlotIsLowered()
    ensures View(Pointing()) == [Lit(5), Ptr("a", 1)] && !DecidesRightly(Pointing(), "a", 0, 1)
    ensures SlotsSurvive(Pointing().words, Pointing().adjustment, "a", 0, 1)
    ensures View(Removed(Pointing(), "a", 0, 1)) == [Ptr("a", 4), Lit(1)]
  {
    var img := Pointing();
    CellAtSlot(img.words, img.adjustment, 0);
    var (w, es) := RetargetFirst(img.words, img.adjustment, 1, "a", 0, 1);
    assert RetargetFirst(img.words, img.adjustment, 0, "a", 0, 1) == (img.words, img.adjustment);
    assert w == [4, 1] && es == [Entry(None, "a", 0)];
    CellAtSlot(w, es, 0);
  }
}
