/**
 What `bins_resolve` (libdcpu-ld/ldbins.c) does to every label, said by what the provided and the jump table list.
 */
module ResolutionMeaning {
  import opened Words
  import opened BinImages
  import opened Resolving

  ghost predicate Lists(es: seq<Entry>, n: string) {
    exists i :: 0 <= i < |es| && es[i].symbol == Some(n)
  }

  /** The first entry of that name. */
  ghost predicate IsFirst(es: seq<Entry>, n: string, i: nat) {
    i < |es| && es[i].symbol == Some(n) && forall j :: 0 <= j < i ==> es[j].symbol != Some(n)
  }

  ghost predicate HasLabels(es: seq<Entry>) {
    exists i :: 0 <= i < |es| && es[i].symbol.Some?
  }

  /** Something is listed under the symbol; an absent symbol is like any label. */
  ghost predicate Matches(es: seq<Entry>, symbol: Option<string>) {
    match symbol
    case Some(n) => Lists(es, n)
    case None => HasLabels(es)
  }

  /** An optional label far behind the end is left out. */
  predicate LeftOut(img: Image, w: Want) {
    w.optional && w.entry.address > |img.words|
  }

  /** The labels that halt the linker. */
  ghost predicate Stops(img: Image, w: Want, allowMissing: bool) {
    var provided, jump := Matches(img.provided, w.entry.symbol), Matches(img.jump, w.entry.symbol);
    if LeftOut(img, w) then false
    else if provided && jump then true
    else if !provided && !jump then
      !allowMissing && (!w.optional || w.entry.symbol.None? || w.entry.address >= |img.words|)
    else w.entry.symbol.None? || w.entry.address >= |img.words|
  }

  /** The label is provided, so that its slot becomes a pointer. */
  ghost predicate Relocates(img: Image, w: Want) {
    !LeftOut(img, w) && Matches(img.provided, w.entry.symbol)
  }

  /** A label before the `i`-th is provided. */
  ghost predicate RelocatesBefore(img: Image, ws: seq<Want>, i: nat)
    requires i <= |ws|
  {
    exists j :: 0 <= j < i && Relocates(img, ws[j])
  }

  lemma {:induction false} SeekMatches(es: seq<Entry>, symbol: Option<string>)
    ensures Seek(es, symbol, 0).Some? <==> Matches(es, symbol)
  {
    SeekFindsFirst(es, symbol, 0);
    if Matches(es, symbol) {
      var i :| 0 <= i < |es| && es[i].symbol.Some? && (symbol.None? || es[i].symbol == symbol);
      assert Named(es[i], symbol);
    }
  }

  lemma {:induction false} SeekIsFirst(es: seq<Entry>, n: string) returns (i: nat)
    requires Lists(es, n)
    ensures IsFirst(es, n, i) && Seek(es, Some(n), 0) == Some(es[i])
  {
    SeekMatches(es, Some(n));
    SeekFindsFirst(es, Some(n), 0);
    i :| 0 <= i < |es| && Seek(es, Some(n), 0) == Some(es[i]) && Named(es[i], Some(n)) &&
         forall m :: 0 <= m < i ==> !Named(es[m], Some(n));
    forall j | 0 <= j < i ensures es[j].symbol != Some(n) {
      assert !Named(es[j], Some(n));
    }
  }

  lemma {:induction false} StopsIff(img: Image, w: Want, allowMissing: bool)
    ensures Decide(img, w, allowMissing).Halted? <==> Stops(img, w, allowMissing)
  {
    SeekMatches(img.provided, w.entry.symbol);
    SeekMatches(img.jump, w.entry.symbol);
  }

  lemma {:induction false} RelocatesIff(img: Image, w: Want, allowMissing: bool)
    requires !Stops(img, w, allowMissing)
    ensures Decide(img, w, allowMissing).Relative? <==> Relocates(img, w)
  {
    StopsIff(img, w, allowMissing);
    SeekMatches(img.provided, w.entry.symbol);
    SeekMatches(img.jump, w.entry.symbol);
  }

  /** The linker halts if and only if one of the labels stops it. */
  lemma {:induction false} HaltsIff(img: Image, keepProvided: bool, allowMissing: bool, keepOptional: bool)
    requires WellFormed(img) && SlotsFree(img, AllWants(img))
    ensures Resolved(img, keepProvided, allowMissing, keepOptional).None? <==>
            exists i :: 0 <= i < |AllWants(img)| && Stops(img, AllWants(img)[i], allowMissing)
  {
    var ws := AllWants(img);
    ResolveRuns(img, ws, allowMissing, |ws|);
    forall i | 0 <= i < |ws|
      ensures Decide(img, ws[i], allowMissing).Halted? <==> Stops(img, ws[i], allowMissing)
    {
      StopsIff(img, ws[i], allowMissing);
    }
  }

  /** What the slot of a label named `n` should hold, if a pointer comes before it or not. */
  ghost predicate SlotBecomes(img: Image, n: string, old_: Cell, behind: bool, allowMissing: bool, c: Cell) {
    var provided, jump := Lists(img.provided, n), Lists(img.jump, n);
    && (provided ==> exists i: nat :: IsFirst(img.provided, n, i) && c == Ptr(img.name, img.provided[i].address))
    && (!provided && jump ==>
          exists i: nat :: IsFirst(img.jump, n, i) &&
                           c == if behind then Ptr(img.name, img.jump[i].address) else Lit(img.jump[i].address))
    && (!provided && !jump && allowMissing ==> c == old_)
    && (!provided && !jump && !allowMissing ==> c == if behind then Ptr(img.name, 0) else Lit(0))
  }

  lemma {:induction false} ActualBecomes(img: Image, ws: seq<Want>, allowMissing: bool, i: nat, n: string, old_: Cell,
          behind: bool)
    requires i < |ws| && ws[i].entry.symbol == Some(n) && InBin(img, ws[i]) && !Stops(img, ws[i], allowMissing)
    requires behind == exists j :: 0 <= j < i && IsRelative(img, ws, allowMissing, j)
    ensures SlotBecomes(img, n, old_, behind, allowMissing, ActualCell(img, ws, allowMissing, i, old_))
  {
    var w := ws[i];
    SeekMatches(img.provided, Some(n));
    SeekMatches(img.jump, Some(n));
    MarkedStep(img, ws, allowMissing, i);
    if Lists(img.provided, n) { var k := SeekIsFirst(img.provided, n); }
    if Lists(img.jump, n) { var k := SeekIsFirst(img.jump, n); }
  }

  lemma {:induction false} BehindIff(img: Image, ws: seq<Want>, allowMissing: bool, i: nat)
    requires i < |ws| && forall j :: 0 <= j < |ws| ==> !Stops(img, ws[j], allowMissing)
    ensures (exists j :: 0 <= j < i && IsRelative(img, ws, allowMissing, j)) <==> RelocatesBefore(img, ws, i)
  {
    forall j | 0 <= j < i ensures IsRelative(img, ws, allowMissing, j) <==> Relocates(img, ws[j]) {
      RelocatesIff(img, ws[j], allowMissing);
    }
  }

  /**
   What the slot of a required or optional label becomes: a pointer to the first provided label of its name; or
   the address of the first jump entry, or zero, which is a pointer if a provided label comes before; or, where
   missing labels are allowed, what it was.
   */
  lemma {:induction false} SlotIsResolved(img: Image, keepProvided: bool, allowMissing: bool, keepOptional: bool,
          i: nat, n: string, r: Image)
    requires WellFormed(img) && SlotsFree(img, AllWants(img))
    requires Resolved(img, keepProvided, allowMissing, keepOptional) == Some(r)
    requires i < |AllWants(img)| && AllWants(img)[i].entry.symbol == Some(n) && InBin(img, AllWants(img)[i])
    ensures |r.words| == |img.words| && r.name == img.name && WellFormed(r)
    ensures var a := AllWants(img)[i].entry.address;
            SlotBecomes(img, n, View(img)[a], RelocatesBefore(img, AllWants(img), i), allowMissing, View(r)[a])
  {
    var ws := AllWants(img);
    NothingStops(img, keepProvided, allowMissing, keepOptional);
    ResolveLinks(img, keepProvided, allowMissing, keepOptional);
    BehindIff(img, ws, allowMissing, i);
    ActualBecomes(img, ws, allowMissing, i, n, View(img)[ws[i].entry.address], RelocatesBefore(img, ws, i));
    SlotHasActual(img, keepProvided, allowMissing, keepOptional, i, r);
  }

  lemma {:induction false} NothingStops(img: Image, keepProvided: bool, allowMissing: bool, keepOptional: bool)
    requires WellFormed(img) && SlotsFree(img, AllWants(img))
    requires Resolved(img, keepProvided, allowMissing, keepOptional).Some?
    ensures forall j :: 0 <= j < |AllWants(img)| ==> !Stops(img, AllWants(img)[j], allowMissing)
  {
    HaltsIff(img, keepProvided, allowMissing, keepOptional);
  }

  lemma {:induction false} SlotHasActual(img: Image, keepProvided: bool, allowMissing: bool, keepOptional: bool, i: nat,
          r: Image)
    requires WellFormed(img) && SlotsFree(img, AllWants(img))
    requires Resolved(img, keepProvided, allowMissing, keepOptional) == Some(r)
    requires i < |AllWants(img)| && InBin(img, AllWants(img)[i]) && |r.words| == |img.words|
    ensures var a := AllWants(img)[i].entry.address;
            View(r)[a] == ActualCell(img, AllWants(img), allowMissing, i, View(img)[a])
  {
    var ws := AllWants(img);
    ResolveRuns(img, ws, allowMissing, |ws|);
    var p := ResolveFirst(img, ws, allowMissing, |ws|).value;
    assert View(r) == View(p.img);
  }

  // ----- The tables -----

  /** The entry is kept: nothing is listed under its symbol, and missing labels are allowed. */
  ghost predicate Stays(img: Image, e: Entry, allowMissing: bool) {
    allowMissing && !Matches(img.provided, e.symbol) && !Matches(img.jump, e.symbol)
  }

  lemma {:induction false} UnresolvedStay(img: Image, es: seq<Entry>, allowMissing: bool, e: Entry)
    ensures e in Unresolved(img, es, allowMissing) <==> e in es && Stays(img, e, allowMissing)
  {
    if es != [] {
      var last := es[|es| - 1];
      UnresolvedStay(img, es[..|es| - 1], allowMissing, e);
      SeekMatches(img.provided, last.symbol);
      SeekMatches(img.jump, last.symbol);
    }
  }

  /**
   The tables afterwards: the required table keeps the missing labels where these are allowed, and so does the
   optional table unless it is kept whole; the provided table is kept or emptied; the others are as before, but
   for the adjustments that are added.
   */
  lemma {:induction false} TablesAreTidied(img: Image, keepProvided: bool, allowMissing: bool, keepOptional: bool,
          r: Image, e: Entry)
    requires Resolved(img, keepProvided, allowMissing, keepOptional) == Some(r)
    ensures e in r.required <==> e in img.required && Stays(img, e, allowMissing)
    ensures e in r.optional <==> e in img.optional && (keepOptional || Stays(img, e, allowMissing))
    ensures keepOptional ==> r.optional == img.optional
    ensures r.provided == if keepProvided then img.provided else []
    ensures r.jump == img.jump && r.output == img.output && r.call == img.call && r.name == img.name
    ensures img.adjustment <= r.adjustment
  {
    var ws := AllWants(img);
    var p := ResolveFirst(img, ws, allowMissing, |ws|).value;
    OnlyFilled(img, ws, allowMissing, |ws|);
    UnresolvedStay(p.img, p.img.required, allowMissing, e);
    UnresolvedStay(p.img, p.img.optional, allowMissing, e);
  }

  /** The loops change nothing but words and adjustments. */
  ghost predicate Filled(img: Image, r: Image) {
    r == img.(words := r.words, adjustment := r.adjustment) && img.adjustment <= r.adjustment
  }

  lemma {:induction false} OnlyFilled(img: Image, ws: seq<Want>, allowMissing: bool, k: nat)
    requires k <= |ws| && ResolveFirst(img, ws, allowMissing, k).Some?
    ensures Filled(img, ResolveFirst(img, ws, allowMissing, k).value.img)
  {
    if k > 0 { OnlyFilled(img, ws, allowMissing, k - 1); }
  }
}
