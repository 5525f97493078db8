/**
 Code that is complete but for the slots of its required and optional labels, and what resolution makes of it.
 */
module OpenCode {
  import opened Words
  import opened BinImages
  import opened Resolving
  import opened ResolutionMeaning
  import Meaning

  /** The symbol is provided, and every provided label of that name is at `x`. */
  ghost predicate Provides(img: Image, symbol: Option<string>, x: Word) {
    && (exists i :: 0 <= i < |img.provided| && img.provided[i].symbol == symbol)
    && forall i :: 0 <= i < |img.provided| && img.provided[i].symbol == symbol ==> img.provided[i].address == x
  }

  /** The slot of a label is empty, and the goal has there a pointer to the provided one. */
  ghost predicate Wanted(img: Image, goal: seq<Cell>, e: Entry)
    requires |goal| == |img.words|
  {
    && e.symbol.Some? && e.address < |goal| && View(img)[e.address] == Lit(0)
    && goal[e.address].Ptr? && goal[e.address].bin == img.name && Provides(img, e.symbol, goal[e.address].address)
  }

  /** Nothing is provided for the label, and the goal has a zero there. */
  ghost predicate Missing(img: Image, goal: seq<Cell>, e: Entry)
    requires |goal| == |img.words|
  {
    && e.symbol.Some? && e.address < |goal| && View(img)[e.address] == goal[e.address] == Lit(0)
    && !Lists(img.provided, e.symbol.value)
  }

  ghost predicate AllWanted(img: Image, goal: seq<Cell>)
    requires |goal| == |img.words|
  {
    forall i :: 0 <= i < |img.required| ==> Wanted(img, goal, img.required[i])
  }

  /** Optional labels are provided or missing; missing ones come before all provided ones. */
  ghost predicate OptionalAnswered(img: Image, goal: seq<Cell>)
    requires |goal| == |img.words|
  {
    forall i :: 0 <= i < |img.optional| ==>
                  || Wanted(img, goal, img.optional[i])
                  || (Missing(img, goal, img.optional[i]) && img.required == [] &&
                      forall j :: 0 <= j < i ==> Missing(img, goal, img.optional[j]))
  }

  /** The bin has the cells of the goal, except at the slots of required and optional labels. */
  ghost predicate OpenFor(img: Image, goal: seq<Cell>) {
    && |goal| == |img.words| && WellFormed(img) && img.jump == []
    && Distinct(img.required + img.optional) && AllWanted(img, goal) && OptionalAnswered(img, goal)
    && forall a :: 0 <= a < |goal| && !IsSlot(img.required + img.optional, a) ==> View(img)[a] == goal[a]
  }

  lemma {:induction false} WantsAre(img: Image)
    ensures |AllWants(img)| == |img.required + img.optional|
    ensures forall i :: 0 <= i < |AllWants(img)| ==>
                          AllWants(img)[i] == Want((img.required + img.optional)[i], i >= |img.required|)
  {
  }

  /** What is known of label `i`. */
  ghost predicate Answered(img: Image, goal: seq<Cell>, i: nat)
    requires |goal| == |img.words| && i < |img.required + img.optional|
  {
    var e := (img.required + img.optional)[i];
    || Wanted(img, goal, e)
    || (Missing(img, goal, e) && i >= |img.required| &&
        forall j :: 0 <= j < i ==> Missing(img, goal, (img.required + img.optional)[j]))
  }

  lemma {:induction false} LabelIsAnswered(img: Image, goal: seq<Cell>, i: nat)
    requires OpenFor(img, goal) && i < |img.required + img.optional|
    ensures Answered(img, goal, i)
  {
    if i < |img.required| {
      assert Wanted(img, goal, img.required[i]);
    } else {
      assert img.optional[i - |img.required|] == (img.required + img.optional)[i];
    }
  }

  lemma {:induction false} SlotsAreFree(img: Image, goal: seq<Cell>)
    requires OpenFor(img, goal)
    ensures SlotsFree(img, AllWants(img))
    ensures forall i :: 0 <= i < |AllWants(img)| ==>
                          InBin(img, AllWants(img)[i]) && !Stops(img, AllWants(img)[i], false)
  {
    var es := img.required + img.optional;
    WantsAre(img);
    forall i | 0 <= i < |es|
      ensures es[i].address < |img.words| && !IsSlot(img.adjustment, es[i].address)
      ensures !Stops(img, AllWants(img)[i], false)
    {
      LabelIsAnswered(img, goal, i);
      Meaning.LiteralIsNoSlot(img, es[i].address);
      GoesOn(img, goal, AllWants(img)[i], i);
    }
  }

  lemma {:induction false} GoesOn(img: Image, goal: seq<Cell>, w: Want, i: nat)
    requires OpenFor(img, goal) && i < |img.required + img.optional| && Answered(img, goal, i)
    requires w == Want((img.required + img.optional)[i], i >= |img.required|)
    ensures !Stops(img, w, false)
  {
    assert !Lists(img.jump, w.entry.symbol.value);
    if Wanted(img, goal, w.entry) { assert Lists(img.provided, w.entry.symbol.value); }
  }

  /** The slot of a label becomes what the goal has. */
  lemma {:induction false} LabelIsClosed(img: Image, goal: seq<Cell>, i: nat, r: Image)
    requires OpenFor(img, goal) && i < |AllWants(img)| && Resolved(img, false, false, false) == Some(r)
    ensures var a := AllWants(img)[i].entry.address;
            a < |goal| == |r.words| && View(r)[a] == goal[a]
  {
    var w := AllWants(img)[i];
    WantsAre(img);
    SlotsAreFree(img, goal);
    LabelIsAnswered(img, goal, i);
    SlotIsResolved(img, false, false, false, i, w.entry.symbol.value, r);
    assert !Lists(img.jump, w.entry.symbol.value);
    if Wanted(img, goal, w.entry) {
      assert Lists(img.provided, w.entry.symbol.value);
    } else {
      NothingBefore(img, goal, i);
    }
  }

  lemma {:induction false} NothingBefore(img: Image, goal: seq<Cell>, i: nat)
    requires OpenFor(img, goal) && i < |AllWants(img)| && |AllWants(img)| == |img.required + img.optional|
    requires forall j :: 0 <= j < i ==> Missing(img, goal, (img.required + img.optional)[j])
    ensures !RelocatesBefore(img, AllWants(img), i)
  {
    WantsAre(img);
    forall j | 0 <= j < i ensures !Relocates(img, AllWants(img)[j]) {
      assert Missing(img, goal, (img.required + img.optional)[j]);
    }
  }

  /** Resolution closes open code. */
  lemma {:induction false} ResolveOpen(img: Image, goal: seq<Cell>)
    requires OpenFor(img, goal)
    ensures var r := Resolved(img, false, false, false); r.Some? && WellFormed(r.value) && View(r.value) == goal
  {
    var ws, es := AllWants(img), img.required + img.optional;
    SlotsAreFree(img, goal);
    HaltsIff(img, false, false, false);
    ResolveLinks(img, false, false, false);
    WantsAre(img);
    var r := Resolved(img, false, false, false).value;
    forall a | 0 <= a < |goal| ensures View(r)[a] == goal[a] {
      if IsSlot(es, a) {
        var i :| 0 <= i < |es| && es[i].address == a;
        LabelIsClosed(img, goal, i, r);
      } else {
        assert NotWanted(ws, |ws|, a);
      }
    }
  }

  /** The bin has no optional labels, and has the cells of the goal except at the slots of required ones. */
  ghost predicate OpenRequired(img: Image, goal: seq<Cell>) {
    && |goal| == |img.words| && WellFormed(img) && img.optional == [] && img.jump == []
    && Distinct(img.required) && AllWanted(img, goal)
    && forall a :: 0 <= a < |goal| && !IsSlot(img.required, a) ==> View(img)[a] == goal[a]
  }

  lemma {:induction false} RequiredIsOpen(img: Image, goal: seq<Cell>)
    requires OpenRequired(img, goal)
    ensures OpenFor(img, goal)
  {
    assert img.required + img.optional == img.required;
  }
}
