/**
 The loop of `bins_write_jump` (libdcpu-ld/ldbins.c), run in place on the flattened bin.
 */
module JumpWriter {
  import opened Words
  import opened BinImages
  import opened Splicing
  import opened Bins
  import opened Flattening
  import FlattenMeaning
  import opened JumpTable

  ghost predicate NoneIntoTemp(cells: seq<Cell>) {
    forall k :: 0 <= k < |cells| && cells[k].Ptr? ==> cells[k].bin != TEMP
  }

  /** What the loop needs of the flattened bin, and keeps. */
  ghost predicate Jumpable(img: Image) {
    img.name != TEMP && WellFormed(img) && NoneIntoTemp(View(img))
  }

  lemma {:induction false} StepIsJumpable(img: Image, i: nat, pos: Word)
    requires Jumpable(img) && CanInsert(img, TempImage(), JumpSplice(img, pos)) && i < |img.jump|
    ensures Jumpable(JumpStep(img, i, pos)) && |JumpStep(img, i, pos).jump| == |img.jump|
  {
    JumpStepView(img, i, pos);
    JumpsOfStep(img, i, pos);
  }

  /** Removing the temporary bin's word retargets nothing. */
  lemma {:induction false} TempIsNoTarget(img: Image)
    requires WellFormed(img) && NoneIntoTemp(View(img))
    ensures SlotsSurvive(img.words, img.adjustment, TEMP, 0, 1) && RetargetImage(img, TEMP, 0, 1) == img
  {
    forall k | 0 <= k < |img.adjustment| ensures img.adjustment[k].bin != TEMP {
      CellAtSlot(img.words, img.adjustment, k);
      assert View(img)[img.adjustment[k].address].Ptr?;
    }
    FlattenMeaning.RetargetIdle(img.words, img.adjustment, |img.adjustment|, TEMP, 0, 1);
  }

  lemma {:induction false} InsertedIsNoTarget(img: Image, pos: nat)
    requires Jumpable(img) && CanInsert(img, TempImage(), JumpSplice(img, pos))
    ensures var ins := InsertInto(img, TempImage(), JumpSplice(img, pos));
            SlotsSurvive(ins.words, ins.adjustment, TEMP, 0, 1) && RetargetImage(ins, TEMP, 0, 1) == ins
  {
    TempView();
    ViewOfInsert(img, TempImage(), JumpSplice(img, pos));
    TempIsNoTarget(InsertInto(img, TempImage(), JumpSplice(img, pos)));
  }

  /** `bin_move` of one zero word from a temporary bin into the flattened one. */
  method MoveTemp(bin: Bin, pos: nat)
    requires Jumpable(bin.Value()) && CanInsert(bin.Value(), TempImage(), JumpSplice(bin.Value(), pos))
    modifies bin
    ensures bin.Value() == InsertInto(old(bin.Value()), TempImage(), JumpSplice(old(bin.Value()), pos))
  {
    InsertedIsNoTarget(bin.Value(), pos);
    var empty := new Bin(TEMP);
    empty.Write(0);
    assert empty.Value() == TempImage();
    Insert([bin], bin, empty, pos, 0, 1);
    assert bin in [bin];
    var ok := Remove([bin], empty, 0, 1);
  }

  method FindTableStart(jump: seq<Entry>) returns (r: Option<Entry>)
    ensures r == FindStart(jump, 0)
  {
    var i := 0;
    while i < |jump|
      invariant 0 <= i <= |jump|
      invariant FindStart(jump, 0) == FindStart(jump, i)
    {
      if IsTableStart(jump[i]) { return Some(jump[i]); }
      i := i + 1;
    }
    r := None;
  }

  /** One exported function. */
  method ExportEntry(bin: Bin, i: nat, pos: Word)
    requires Jumpable(bin.Value()) && CanInsert(bin.Value(), TempImage(), JumpSplice(bin.Value(), pos))
    requires i < |bin.jump|
    modifies bin
    ensures bin.Value() == JumpStep(old(bin.Value()), i, pos)
  {
    ghost var img := bin.Value();
    MoveTemp(bin, pos);
    JumpsOfStep(img, i, pos);
    bin.words := bin.words[pos := bin.jump[i].address];
    bin.adjustment := bin.adjustment + [Entry(None, bin.name, pos)];
    bin.jump := bin.jump[i := bin.jump[i].(address := pos)];
  }

  lemma {:induction false} NextRound(img: Image, start: nat, i: nat, s: (Image, nat))
    requires WriteEntries(img, start, i) == Some(s)
    ensures WriteEntries(img, start, i + 1) == JumpRound(s, i)
  {
  }

  // ----- When there is a table, and when it fits -----

  predicate HasName(e: Entry) {
    e.symbol.Some? && |e.symbol.value| > 0
  }

  /** The table starts at the first entry of the jump table that has no name. */
  lemma {:induction false} StartIsFirst(jump: seq<Entry>, i: nat)
    requires i <= |jump|
    ensures match FindStart(jump, i)
            case None => forall j :: i <= j < |jump| ==> HasName(jump[j])
            case Some(e) =>
              exists j :: i <= j < |jump| && jump[j] == e && !HasName(e) && forall k :: i <= k < j ==> HasName(jump[k])
    decreases |jump| - i
  {
    if i < |jump| && HasName(jump[i]) { StartIsFirst(jump, i + 1); }
  }

  /** The words of the first `i` rounds fit in behind the start. */
  predicate TableFits(img: Image, start: nat, i: nat)
    requires i <= |img.jump|
  {
    var n := Exported(img.jump, i);
    n == 0 || (start <= |img.words| && |img.words| + n <= WORD_COUNT)
  }

  ghost predicate SameNames(es: seq<Entry>, fs: seq<Entry>) {
    |es| == |fs| && forall j :: 0 <= j < |es| ==> es[j].symbol == fs[j].symbol
  }

  /** The state of the loop after rounds that have exported `n` functions. */
  ghost predicate Grown(img: Image, start: nat, n: nat, r: Image, pos: nat) {
    Jumpable(r) && SameNames(img.jump, r.jump) && |r.words| == |img.words| + n && pos == start + n
  }

  lemma {:induction false} StepGrows(img: Image, start: nat, n: nat, m: nat, r: Image, i: nat, pos: nat, q: Image)
    requires Grown(img, start, n, r, pos) && i < |r.jump| && m == n + 1
    requires pos < WORD_COUNT && CanInsert(r, TempImage(), JumpSplice(r, pos)) && q == JumpStep(r, i, pos)
    ensures Grown(img, start, m, q, pos + 1)
  {
    StepIsJumpable(r, i, pos);
    JumpsOfStep(r, i, pos);
  }

  lemma {:induction false} RoundFitsIff(img: Image, start: nat, n: nat, r: Image, i: nat, pos: nat)
    requires Grown(img, start, n, r, pos) && i < |img.jump| && !IsTableStart(img.jump[i])
    ensures JumpRound((r, pos), i).Some? <==> start <= |img.words| && |img.words| + n < WORD_COUNT
  {
    assert r.jump[i].symbol == img.jump[i].symbol;
  }

  lemma {:induction false} RoundGrows(img: Image, start: nat, n: nat, m: nat, r: Image, i: nat, pos: nat)
    requires Grown(img, start, n, r, pos) && i < |img.jump| && m == n + if IsTableStart(img.jump[i]) then 0 else 1
    ensures var q := JumpRound((r, pos), i); q.Some? ==> Grown(img, start, m, q.value.0, q.value.1)
  {
    assert r.jump[i].symbol == img.jump[i].symbol;
    var q := JumpRound((r, pos), i);
    if q.Some? && !IsTableStart(img.jump[i]) { StepGrows(img, start, n, m, r, i, pos, q.value.0); }
  }

  /** Rounds succeed if and only if the words fit; every exported function adds one. */
  lemma {:induction false} TableFitsIff(img: Image, start: nat, i: nat)
    requires Jumpable(img) && i <= |img.jump|
    ensures WriteEntries(img, start, i).Some? <==> TableFits(img, start, i)
    ensures var r := WriteEntries(img, start, i);
            r.Some? ==> Grown(img, start, Exported(img.jump, i), r.value.0, r.value.1)
  {
    if i > 0 {
      var k := i - 1;
      TableFitsIff(img, start, k);
      var r := WriteEntries(img, start, k);
      if r.Some? {
        NextRound(img, start, k, r.value);
        RoundGrows(img, start, Exported(img.jump, k), Exported(img.jump, i), r.value.0, k, r.value.1);
        if !IsTableStart(img.jump[k]) {
          RoundFitsIff(img, start, Exported(img.jump, k), r.value.0, k, r.value.1);
        }
      } else {
        HaltedForGood(JumpRound, (img, start), k, i);
      }
    }
  }

  /** One round of the loop; false when the table does not fit. */
  method ExportRound(bin: Bin, i: nat, pos: nat) returns (ok: bool, next: nat)
    requires Jumpable(bin.Value()) && i < |bin.jump|
    modifies bin
    ensures ok ==> Jumpable(bin.Value()) && |bin.jump| == |old(bin.jump)|
    ensures JumpRound((old(bin.Value()), pos), i) == if ok then Some((bin.Value(), next)) else None
  {
    ok, next := true, pos;
    if !IsTableStart(bin.jump[i]) {
      if pos > |bin.words| || |bin.words| >= WORD_COUNT { return false, pos; }
      StepIsJumpable(bin.Value(), i, pos);
      ExportEntry(bin, i, pos);
      next := pos + 1;
    }
  }

  /** The loop over the jump entries; false when the table does not fit. */
  method ExportAll(bin: Bin, start: nat) returns (ok: bool)
    requires Jumpable(bin.Value())
    modifies bin
    ensures var r := WriteEntries(old(bin.Value()), start, |old(bin.jump)|);
            ok == r.Some? && (ok ==> bin.Value() == r.value.0)
  {
    ghost var img, n := bin.Value(), |bin.jump|;
    var pos, i := start, 0;
    while i < |bin.jump|
      invariant i <= n && |bin.jump| == n && Jumpable(bin.Value())
      invariant WriteEntries(img, start, i) == Some((bin.Value(), pos))
    {
      NextRound(img, start, i, (bin.Value(), pos));
      ok, pos := ExportRound(bin, i, pos);
      i := i + 1;
      if !ok {
        HaltedForGood(JumpRound, (img, start), i, n);
        return;
      }
    }
    ok := true;
  }

  /** `bins_write_jump` on the flattened bin; false when the table does not fit. */
  method WriteJump(bin: Bin) returns (ok: bool)
    requires Jumpable(bin.Value())
    modifies bin
    ensures match FindStart(old(bin.jump), 0)
            case None => ok && bin.Value() == old(bin.Value())
            case Some(e) =>
              var r := WriteEntries(old(bin.Value()), e.address, |old(bin.jump)|);
              ok == r.Some? && (ok ==> bin.Value() == r.value.0)
  {
    var start := FindTableStart(bin.jump);
    match start
    case None => ok := true;
    case Some(e) => ok := ExportAll(bin, e.address);
  }
}
