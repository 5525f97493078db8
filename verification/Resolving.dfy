/**
 `bins_resolve` (libdcpu-ld/ldbins.c): required and optional labels of the flattened bin are replaced by
 the address of the provided label (a pointer) or of the jump entry (an absolute address) of that name.
 */
module Resolving {
  import opened Words
  import opened BinImages
  import opened Bins
  import Meaning

  /** A required or an optional label. */
  datatype Want = Want(entry: Entry, optional: bool)

  datatype Outcome = Skipped | Halted | Relative(target: Entry) | Absolute(address: Word)

  /** The entry was found under the label; as in the string library, a missing label equals any other. */
  predicate Named(e: Entry, symbol: Option<string>) {
    e.symbol.Some? && (symbol.None? || e.symbol == symbol)
  }

  /** `list_seek`: the first entry of that name from position `i` on. */
  function Seek(es: seq<Entry>, symbol: Option<string>, i: nat): Option<Entry>
    requires i <= |es|
    decreases |es| - i
  {
    if i == |es| then None else if Named(es[i], symbol) then Some(es[i]) else Seek(es, symbol, i + 1)
  }

  lemma {:induction false} SeekFindsFirst(es: seq<Entry>, symbol: Option<string>, i: nat)
    requires i <= |es|
    ensures var r := Seek(es, symbol, i);
            && (r.None? ==> forall j :: i <= j < |es| ==> !Named(es[j], symbol))
            && (r.Some? ==> exists j :: i <= j < |es| && r == Some(es[j]) && Named(es[j], symbol) &&
                                        forall m :: i <= m < j ==> !Named(es[m], symbol))
    decreases |es| - i
  {
    if i < |es| && !Named(es[i], symbol) { SeekFindsFirst(es, symbol, i + 1); }
  }

  /** What the two loops do about one label. */
  function Decide(img: Image, w: Want, allowMissing: bool): Outcome {
    var provided, jump := Seek(img.provided, w.entry.symbol, 0), Seek(img.jump, w.entry.symbol, 0);
    if w.optional && w.entry.address > |img.words| then Skipped
    else if provided.None? && jump.None? && allowMissing then Skipped
    else if provided.None? && jump.None? && !w.optional then Halted
    else if (provided.Some? && jump.Some?) || w.entry.symbol.None? || w.entry.address >= |img.words| then Halted
    else if provided.Some? then Relative(provided.value)
    else if jump.Some? then Absolute(jump.value.address)
    else Absolute(0)
  }

  /** The bin and the adjustment record allocated last; the loops never clear that record. */
  datatype Progress = Progress(img: Image, pending: Option<Entry>)

  function Pending(p: Progress, w: Want, o: Outcome): Option<Entry> {
    match o
    case Relative(t) => Some(Entry(t.symbol, p.img.name, w.entry.address))
    case _ => if p.pending.Some? then Some(p.pending.value.(bin := p.img.name, address := w.entry.address)) else None
  }

  function Fill(img: Image, a: Word, value: Word, pending: Option<Entry>): Image
    requires a < |img.words|
  {
    img.(words := img.words[a := value],
         adjustment := img.adjustment + if pending.Some? then [pending.value] else [])
  }

  predicate InBin(img: Image, w: Want) {
    w.entry.address < |img.words|
  }

  /** One label resolved; none when the linker halts. */
  function ResolveOne(p: Progress, w: Want, allowMissing: bool): (r: Option<Progress>)
    ensures r.Some? ==> |r.value.img.words| == |p.img.words| && r.value.img.name == p.img.name
    ensures r.Some? ==> r.value.img.provided == p.img.provided && r.value.img.jump == p.img.jump
  {
    var o := Decide(p.img, w, allowMissing);
    var pending := Pending(p, w, o);
    match o
    case Skipped => Some(p)
    case Halted => None
    case Relative(t) => Some(Progress(Fill(p.img, w.entry.address, t.address, pending), pending))
    case Absolute(a) => Some(Progress(Fill(p.img, w.entry.address, a, pending), pending))
  }

  function ResolveFirst(img: Image, ws: seq<Want>, allowMissing: bool, k: nat): (r: Option<Progress>)
    requires k <= |ws|
    ensures r.Some? ==> |r.value.img.words| == |img.words| && r.value.img.name == img.name
    ensures r.Some? ==> r.value.img.provided == img.provided && r.value.img.jump == img.jump
  {
    if k == 0 then Some(Progress(img, None))
    else match ResolveFirst(img, ws, allowMissing, k - 1)
         case None => None
         case Some(p) => ResolveOne(p, ws[k - 1], allowMissing)
  }

  function Wants(es: seq<Entry>, optional: bool): (r: seq<Want>)
    ensures |r| == |es| && forall i :: 0 <= i < |es| ==> r[i] == Want(es[i], optional)
  {
    seq(|es|, i requires 0 <= i < |es| => Want(es[i], optional))
  }

  function AllWants(img: Image): seq<Want> {
    Wants(img.required, false) + Wants(img.optional, true)
  }

  /** Entries that stay: unmatched ones, where missing labels are allowed. */
  function Unresolved(img: Image, es: seq<Entry>, allowMissing: bool): seq<Entry> {
    if es == [] then []
    else
      var rest, e := Unresolved(img, es[..|es| - 1], allowMissing), es[|es| - 1];
      if allowMissing && Seek(img.provided, e.symbol, 0).None? && Seek(img.jump, e.symbol, 0).None?
      then rest + [e]
      else rest
  }

  function Tidied(img: Image, keepProvided: bool, allowMissing: bool, keepOptional: bool): Image {
    img.(required := Unresolved(img, img.required, allowMissing),
         optional := if keepOptional then img.optional else Unresolved(img, img.optional, allowMissing),
         provided := if keepProvided then img.provided else [])
  }

  function Resolved(img: Image, keepProvided: bool, allowMissing: bool, keepOptional: bool): Option<Image> {
    match ResolveFirst(img, AllWants(img), allowMissing, |AllWants(img)|)
    case None => None
    case Some(p) => Some(Tidied(p.img, keepProvided, allowMissing, keepOptional))
  }

  // ----- What the loop computes -----

  ghost predicate IsRelative(img: Image, ws: seq<Want>, allowMissing: bool, i: nat)
    requires i < |ws|
  {
    Decide(img, ws[i], allowMissing).Relative?
  }

  /** Some label up to `i` was resolved to a provided one. */
  ghost predicate Marked(img: Image, ws: seq<Want>, allowMissing: bool, i: nat)
    requires i < |ws|
  {
    exists j :: 0 <= j <= i && IsRelative(img, ws, allowMissing, j)
  }

  /** The cell a label's slot should become. */
  function IdealCell(img: Image, o: Outcome, old_: Cell): Cell {
    match o
    case Relative(t) => Ptr(img.name, t.address)
    case Absolute(a) => Lit(a)
    case _ => old_
  }

  ghost function ActualCell(img: Image, ws: seq<Want>, allowMissing: bool, i: nat, old_: Cell): Cell
    requires i < |ws|
  {
    match Decide(img, ws[i], allowMissing)
    case Absolute(a) => if Marked(img, ws, allowMissing, i) then Ptr(img.name, a) else Lit(a)
    case o => IdealCell(img, o, old_)
  }

  /** Different labels have different slots, none of which is a pointer yet. */
  ghost predicate SlotsFree(img: Image, ws: seq<Want>) {
    && (forall i :: 0 <= i < |ws| ==> !IsSlot(img.adjustment, ws[i].entry.address))
    && (forall i, j :: 0 <= i < j < |ws| ==> ws[i].entry.address != ws[j].entry.address)
  }

  ghost predicate NotWanted(ws: seq<Want>, k: nat, a: int)
    requires k <= |ws|
  {
    forall i :: 0 <= i < k ==> ws[i].entry.address != a
  }

  /** The state of the slots after `k` labels. */
  ghost predicate SlotsDone(img: Image, ws: seq<Want>, allowMissing: bool, k: nat, cells: seq<Cell>)
    requires k <= |ws|
  {
    && |cells| == |img.words|
    && (forall i :: 0 <= i < k && InBin(img, ws[i]) ==>
                      cells[ws[i].entry.address] == ActualCell(img, ws, allowMissing, i,
                                                               View(img)[ws[i].entry.address]))
    && forall a :: 0 <= a < |cells| && NotWanted(ws, k, a) ==> cells[a] == View(img)[a]
  }

  lemma {:induction false} DecideSame(img: Image, img': Image, w: Want, allowMissing: bool)
    requires img'.provided == img.provided && img'.jump == img.jump && |img'.words| == |img.words|
    ensures Decide(img', w, allowMissing) == Decide(img, w, allowMissing)
  {
  }

  lemma {:induction false} ViewOfFill(img: Image, a: Word, value: Word, pending: Option<Entry>)
    requires WellFormed(img) && a < |img.words| && !IsSlot(img.adjustment, a)
    requires pending.Some? ==> pending.value.address == a
    ensures WellFormed(Fill(img, a, value, pending))
    ensures View(Fill(img, a, value, pending)) ==
            View(img)[a := if pending.Some? then Ptr(pending.value.bin, value) else Lit(value)]
  {
    var r := Fill(img, a, value, pending);
    if pending.Some? {
      Meaning.ViewOfMark(img, pending.value, value);
    } else {
      assert r.adjustment == img.adjustment;
      Meaning.ViewOfWrite(img, a, value);
    }
  }

  /** What holds after `k` labels, if the linker has not halted. */
  ghost predicate Going(img: Image, ws: seq<Want>, allowMissing: bool, k: nat, p: Progress)
    requires k <= |ws|
  {
    && p.img.provided == img.provided && p.img.jump == img.jump
    && |p.img.words| == |img.words| && p.img.name == img.name
    && WellFormed(p.img) && SlotsDone(img, ws, allowMissing, k, View(p.img))
    && (p.pending.Some? <==> exists j :: 0 <= j < k && IsRelative(img, ws, allowMissing, j))
  }

  lemma {:induction false} SlotStillFree(img: Image, ws: seq<Want>, allowMissing: bool, k: nat, p: Progress)
    requires k < |ws| && WellFormed(img) && SlotsFree(img, ws) && Going(img, ws, allowMissing, k, p)
    requires ws[k].entry.address < |img.words|
    ensures !IsSlot(p.img.adjustment, ws[k].entry.address)
  {
    var a := ws[k].entry.address;
    assert NotWanted(ws, k, a);
    assert View(p.img)[a] == View(img)[a] == Lit(img.words[a]);
    Meaning.LiteralIsNoSlot(p.img, a);
  }

  lemma {:induction false} SlotsStep(img: Image, ws: seq<Want>, allowMissing: bool, k: nat, cells: seq<Cell>, c: Cell)
    requires k < |ws| && SlotsFree(img, ws) && SlotsDone(img, ws, allowMissing, k, cells) && InBin(img, ws[k])
    requires c == ActualCell(img, ws, allowMissing, k, View(img)[ws[k].entry.address])
    ensures SlotsDone(img, ws, allowMissing, k + 1, cells[ws[k].entry.address := c])
  {
    var r := cells[ws[k].entry.address := c];
    forall i | 0 <= i < k + 1 && InBin(img, ws[i])
      ensures r[ws[i].entry.address] == ActualCell(img, ws, allowMissing, i, View(img)[ws[i].entry.address])
    {
      if i < k { assert ws[i].entry.address != ws[k].entry.address; }
    }
    forall a | 0 <= a < |r| && NotWanted(ws, k + 1, a) ensures r[a] == View(img)[a] {
    }
  }

  lemma {:induction false} SkipStep(img: Image, ws: seq<Want>, allowMissing: bool, k: nat, cells: seq<Cell>)
    requires k < |ws| && SlotsFree(img, ws) && SlotsDone(img, ws, allowMissing, k, cells)
    requires Decide(img, ws[k], allowMissing).Skipped?
    ensures SlotsDone(img, ws, allowMissing, k + 1, cells)
  {
    if InBin(img, ws[k]) {
      var a := ws[k].entry.address;
      assert NotWanted(ws, k, a);
      assert cells[a := View(img)[a]] == cells;
      SlotsStep(img, ws, allowMissing, k, cells, View(img)[a]);
    }
  }

  lemma {:induction false} MarkedStep(img: Image, ws: seq<Want>, allowMissing: bool, k: nat)
    requires k < |ws|
    ensures Marked(img, ws, allowMissing, k) <==>
            (exists j :: 0 <= j < k && IsRelative(img, ws, allowMissing, j)) || IsRelative(img, ws, allowMissing, k)
    ensures Marked(img, ws, allowMissing, k) <==> exists j :: 0 <= j < k + 1 && IsRelative(img, ws, allowMissing, j)
  {
    if IsRelative(img, ws, allowMissing, k) { assert 0 <= k <= k; }
  }

  lemma {:induction false} FillStep(img: Image, ws: seq<Want>, allowMissing: bool, k: nat, p: Progress)
    requires k < |ws| && WellFormed(img) && SlotsFree(img, ws) && Going(img, ws, allowMissing, k, p)
    requires var o := Decide(img, ws[k], allowMissing); o.Relative? || o.Absolute?
    ensures var r := ResolveOne(p, ws[k], allowMissing);
            r.Some? && Going(img, ws, allowMissing, k + 1, r.value)
  {
    var o, a := Decide(img, ws[k], allowMissing), ws[k].entry.address;
    DecideSame(img, p.img, ws[k], allowMissing);
    MarkedStep(img, ws, allowMissing, k);
    SlotStillFree(img, ws, allowMissing, k, p);
    var pending, value := Pending(p, ws[k], o), if o.Relative? then o.target.address else o.address;
    assert pending.Some? <==> Marked(img, ws, allowMissing, k);
    ViewOfFill(p.img, a, value, pending);
    SlotsStep(img, ws, allowMissing, k, View(p.img), if pending.Some? then Ptr(img.name, value) else Lit(value));
  }

  ghost predicate NoneHalts(img: Image, ws: seq<Want>, allowMissing: bool, k: nat)
    requires k <= |ws|
  {
    forall i :: 0 <= i < k ==> !Decide(img, ws[i], allowMissing).Halted?
  }

  lemma {:induction false} ResolveStep(img: Image, ws: seq<Want>, allowMissing: bool, k: nat, p: Progress)
    requires k < |ws| && WellFormed(img) && SlotsFree(img, ws) && Going(img, ws, allowMissing, k, p)
    ensures var r := ResolveOne(p, ws[k], allowMissing);
            && (r.Some? <==> !Decide(img, ws[k], allowMissing).Halted?)
            && (r.Some? ==> Going(img, ws, allowMissing, k + 1, r.value))
  {
    var o := Decide(img, ws[k], allowMissing);
    DecideSame(img, p.img, ws[k], allowMissing);
    if o.Skipped? {
      MarkedStep(img, ws, allowMissing, k);
      SkipStep(img, ws, allowMissing, k, View(p.img));
    } else if !o.Halted? {
      FillStep(img, ws, allowMissing, k, p);
    }
  }

  /** The run has got to label `k`, or has halted before it. */
  ghost predicate RunTo(img: Image, ws: seq<Want>, allowMissing: bool, k: nat)
    requires k <= |ws|
  {
    var r := ResolveFirst(img, ws, allowMissing, k);
    && (r.Some? <==> NoneHalts(img, ws, allowMissing, k))
    && (r.Some? ==> Going(img, ws, allowMissing, k, r.value))
  }

  lemma {:induction false} HaltStep(img: Image, ws: seq<Want>, allowMissing: bool, k: nat)
    requires k < |ws|
    ensures NoneHalts(img, ws, allowMissing, k + 1) <==>
            NoneHalts(img, ws, allowMissing, k) && !Decide(img, ws[k], allowMissing).Halted?
  {
  }

  lemma {:induction false} NextLabel(img: Image, ws: seq<Want>, allowMissing: bool, k: nat)
    requires k < |ws|
    ensures ResolveFirst(img, ws, allowMissing, k + 1) ==
            match ResolveFirst(img, ws, allowMissing, k)
            case None => None
            case Some(p) => ResolveOne(p, ws[k], allowMissing)
  {
  }

  lemma {:induction false} ResolveRuns(img: Image, ws: seq<Want>, allowMissing: bool, k: nat)
    requires k <= |ws| && WellFormed(img) && SlotsFree(img, ws)
    ensures RunTo(img, ws, allowMissing, k)
  {
    for i := 0 to k
      invariant RunTo(img, ws, allowMissing, i)
    {
      var r := ResolveFirst(img, ws, allowMissing, i);
      if r.Some? { ResolveStep(img, ws, allowMissing, i, r.value); }
      NextLabel(img, ws, allowMissing, i);
      HaltStep(img, ws, allowMissing, i);
    }
  }

  /** Every slot of a label becomes what it should be: a pointer to a provided label, an absolute jump address. */
  ghost predicate LabelsLinked(img: Image, ws: seq<Want>, allowMissing: bool, cells: seq<Cell>)
    requires |cells| == |img.words|
  {
    forall i :: 0 <= i < |ws| && InBin(img, ws[i]) ==>
                  cells[ws[i].entry.address] ==
                  IdealCell(img, Decide(img, ws[i], allowMissing), View(img)[ws[i].entry.address])
  }

  /** No absolute label comes behind a relative one. */
  ghost predicate AbsoluteFirst(img: Image, ws: seq<Want>, allowMissing: bool) {
    forall i, j :: 0 <= i < j < |ws| && IsRelative(img, ws, allowMissing, i) ==>
        !Decide(img, ws[j], allowMissing).Absolute?
  }

  lemma {:induction false} ActualIsIdeal(img: Image, ws: seq<Want>, allowMissing: bool, i: nat, old_: Cell)
    requires i < |ws|
    ensures ActualCell(img, ws, allowMissing, i, old_) == IdealCell(img, Decide(img, ws[i], allowMissing), old_) <==>
            !(Decide(img, ws[i], allowMissing).Absolute? &&
              exists j :: 0 <= j < i && IsRelative(img, ws, allowMissing, j))
  {
    MarkedStep(img, ws, allowMissing, i);
  }

  /**
   Resolution is total exactly when no label halts it, touches nothing but the slots of the labels, and
   leaves all of them right if and only if no jump or missing label comes behind a provided one: such a
   label inherits the record of the earlier one and its absolute address is listed as a pointer.
   */
  lemma {:induction false} ResolveLinks(img: Image, keepProvided: bool, allowMissing: bool, keepOptional: bool)
    requires WellFormed(img) && SlotsFree(img, AllWants(img))
    ensures var ws, r := AllWants(img), Resolved(img, keepProvided, allowMissing, keepOptional);
            && (r.Some? <==> NoneHalts(img, ws, allowMissing, |ws|))
            && (r.Some? ==>
                  && r.value.name == img.name && r.value.jump == img.jump && |r.value.words| == |img.words|
                  && WellFormed(r.value)
                  && (forall a :: 0 <= a < |img.words| && NotWanted(ws, |ws|, a) ==>
                                    View(r.value)[a] == View(img)[a])
                  && (LabelsLinked(img, ws, allowMissing, View(r.value)) <==> AbsoluteFirst(img, ws, allowMissing)))
  {
    var ws, r := AllWants(img), Resolved(img, keepProvided, allowMissing, keepOptional);
    ResolveRuns(img, ws, allowMissing, |ws|);
    if r.Some? {
      var p := ResolveFirst(img, ws, allowMissing, |ws|).value;
      assert View(r.value) == View(p.img);
      LinkedIff(img, ws, allowMissing, View(r.value));
    }
  }

  lemma {:induction false} LinkedIff(img: Image, ws: seq<Want>, allowMissing: bool, cells: seq<Cell>)
    requires SlotsDone(img, ws, allowMissing, |ws|, cells)
    ensures LabelsLinked(img, ws, allowMissing, cells) <==> AbsoluteFirst(img, ws, allowMissing)
  {
    forall i | 0 <= i < |ws| && InBin(img, ws[i])
      ensures cells[ws[i].entry.address] ==
              IdealCell(img, Decide(img, ws[i], allowMissing), View(img)[ws[i].entry.address]) <==>
              !(Decide(img, ws[i], allowMissing).Absolute? &&
                exists j :: 0 <= j < i && IsRelative(img, ws, allowMissing, j))
    {
      ActualIsIdeal(img, ws, allowMissing, i, View(img)[ws[i].entry.address]);
    }
  }

  /** A bin whose two words refer to a provided label and then to a jump label. */
  function LateJump(): Image {
    Image("b", [0, 0], [Entry(Some("p"), "", 1)], [Entry(Some("p"), "", 0), Entry(Some("j"), "", 1)], [], [],
          [Entry(Some("j"), "", 7)], [], [])
  }

  /** Concretely: a jump label behind a provided one becomes a pointer. */
  lemma {:induction false} LateJumpIsRelocated()
    ensures var r := Resolved(LateJump(), false, false, false);
            r.Some? && View(r.value) == [Ptr("b", 1), Ptr("b", 7)] &&
                Decide(LateJump(), AllWants(LateJump())[1], false) == Absolute(7)
  {
    var img := LateJump();
    var ws := AllWants(img);
    assert ws == [Want(Entry(Some("p"), "", 0), false), Want(Entry(Some("j"), "", 1), false)];
    assert "p" != "j" by { assert "p"[0] != "j"[0]; }
    assert Seek(img.jump, Some("p"), 0) == Seek(img.jump, Some("p"), 1) == None;
    assert Seek(img.provided, Some("j"), 0) == Seek(img.provided, Some("j"), 1) == None;
    assert Decide(img, ws[0], false) == Relative(Entry(Some("p"), "", 1));
    assert Decide(img, ws[1], false) == Absolute(7);
    assert IsRelative(img, ws, false, 0) && Marked(img, ws, false, 1);
    ResolveRuns(img, ws, false, 2);
    var p := ResolveFirst(img, ws, false, 2).value.img;
    assert View(p)[0] == Ptr("b", 1) && View(p)[1] == Ptr("b", 7);
    assert View(p) == [Ptr("b", 1), Ptr("b", 7)];
  }
}
