/**
 What the two passes of `aout_write` produce, described item by item.
 */
module AssemblyMeaning {
  import opened Words
  import opened Dcpu
  import opened Expressions
  import opened BinImages
  import opened Assembly

  predicate IsImported(items: seq<Item>, item: Item) {
    item.Value? && item.expr.Ref? && FindImport(items, item.expr.name, 0).Some?
  }

  /** The word is the address of a label of the object itself. */
  predicate IsLocal(items: seq<Item>, item: Item) {
    item.Value? && item.expr.Ref? && FindImport(items, item.expr.name, 0).None?
  }

  function RawOf(items: seq<Item>, base: Word, item: Item): Option<Word> {
    match item
    case Raw(w) => Some(w)
    case Value(e) => if IsImported(items, item) then None else Evaluate(e, Lookup(items, base))
    case _ => None
  }

  function WordOf(items: seq<Item>, base: Word, item: Item): Word {
    match item
    case Opcode(op, b, a) => Create(op, b, a)
    case _ => if RawOf(items, base, item).Some? then RawOf(items, base, item).value else 0
  }

  /** The adjustment an item at `index` makes. */
  function SlotOf(items: seq<Item>, item: Item, index: int): seq<Entry> {
    if IsLocal(items, item) then [At(None, index)] else []
  }

  predicate IsRequired(items: seq<Item>, item: Item) {
    IsImported(items, item) && FindImport(items, item.expr.name, 0).value.Import?
  }

  /** The required label of an item at `index`. */
  function RequirementOf(items: seq<Item>, item: Item, index: int): seq<Entry> {
    if IsRequired(items, item) then [At(Some(item.expr.name), index)] else []
  }

  /** The label an item provides. */
  function ExportOf(items: seq<Item>, base: Word, item: Item): seq<Entry> {
    if item.Export? && LabelAddress(items, base, item.name).Some?
    then [At(Some(item.name), LabelAddress(items, base, item.name).value)] else []
  }

  /** The adjustment table after the first `k` items. */
  function Slots(items: seq<Item>, base: Word, k: nat): seq<Entry>
    requires k <= |items|
  {
    if k == 0 then [] else SlotOf(items, items[k - 1], base + SizeTo(items, k - 1)) + Slots(items, base, k - 1)
  }

  /** The required table after the first `k` items. */
  function Requirements(items: seq<Item>, base: Word, k: nat): seq<Entry>
    requires k <= |items|
  {
    if k == 0 then []
    else RequirementOf(items, items[k - 1], base + SizeTo(items, k - 1)) + Requirements(items, base, k - 1)
  }

  /** The provided table after the first `k` items. */
  function Exports(items: seq<Item>, base: Word, k: nat): seq<Entry>
    requires k <= |items|
  {
    if k == 0 then [] else ExportOf(items, base, items[k - 1]) + Exports(items, base, k - 1)
  }

  /** What the evaluation pass has found out after `k` items. */
  ghost predicate Passed(items: seq<Item>, base: Word, k: nat, p: Progress)
    requires k <= |items|
  {
    && p.index == base + SizeTo(items, k)
    && |p.raws| == k && (forall i :: 0 <= i < k ==> p.raws[i] == RawOf(items, base, items[i]))
    && p.tables.adjustment == Slots(items, base, k)
    && p.tables.required == Requirements(items, base, k)
    && p.tables.provided == Exports(items, base, k)
  }

  /** What one visit adds. */
  ghost predicate Adds(items: seq<Item>, base: Word, p: Progress, item: Item, r: Progress) {
    && r.raws == p.raws + [RawOf(items, base, item)]
    && r.index == p.index + (if IsWord(item) then 1 else 0)
    && r.tables.adjustment == SlotOf(items, item, p.index) + p.tables.adjustment
    && r.tables.required == RequirementOf(items, item, p.index) + p.tables.required
    && r.tables.provided == ExportOf(items, base, item) + p.tables.provided
  }

  lemma {:induction false} VisitAdds(items: seq<Item>, base: Word, intermediate: bool, p: Progress, item: Item)
    requires Visit(items, base, intermediate, p, item).Some?
    ensures Adds(items, base, p, item, Visit(items, base, intermediate, p, item).value)
  {
  }

  lemma {:induction false} PassedStep(items: seq<Item>, base: Word, k: nat, p: Progress, r: Progress)
    requires k < |items| && Passed(items, base, k, p) && Adds(items, base, p, items[k], r)
    ensures Passed(items, base, k + 1, r)
  {
  }

  lemma {:induction false} PassRuns(items: seq<Item>, base: Word, intermediate: bool, k: nat)
    requires k <= |items| && Pass(items, base, intermediate, k).Some?
    ensures Passed(items, base, k, Pass(items, base, intermediate, k).value)
  {
    if k > 0 {
      PassRuns(items, base, intermediate, k - 1);
      var p := Pass(items, base, intermediate, k - 1).value;
      VisitAdds(items, base, intermediate, p, items[k - 1]);
      PassedStep(items, base, k - 1, p, Pass(items, base, intermediate, k).value);
    }
  }

  // ----- The words -----

  lemma {:induction false} SizeMonotone(items: seq<Item>, i: nat, k: nat)
    requires i <= k <= |items|
    ensures SizeTo(items, i) <= SizeTo(items, k)
    ensures i < k && IsWord(items[i]) ==> SizeTo(items, i) < SizeTo(items, k)
  {
    if i < k { SizeMonotone(items, i, k - 1); }
  }

  /** Every address holds the word of one item. */
  lemma {:induction false} Locate(items: seq<Item>, k: nat, a: nat) returns (i: nat)
    requires k <= |items| && a < SizeTo(items, k)
    ensures i < k && IsWord(items[i]) && SizeTo(items, i) == a
  {
    if a < SizeTo(items, k - 1) {
      i := Locate(items, k - 1, a);
    } else {
      i := k - 1;
    }
  }

  lemma {:induction false} EmissionIsWord(items: seq<Item>, base: Word, item: Item)
    ensures Emission(item, RawOf(items, base, item)) == if IsWord(item) then [WordOf(items, base, item)] else []
  {
  }

  lemma {:induction false} EmittedWords(items: seq<Item>, base: Word, raws: seq<Option<Word>>, k: nat)
    requires k <= |items| && |raws| == |items| &&
             forall i :: 0 <= i < |items| ==> raws[i] == RawOf(items, base, items[i])
    ensures EmittedTo(items, base, Emitted(items, raws, k), k)
  {
    for i := 0 to k
      invariant EmittedTo(items, base, Emitted(items, raws, i), i)
    {
      EmissionIsWord(items, base, items[i]);
      EmittedOn(items, base, Emitted(items, raws, i), Emission(items[i], raws[i]), i);
    }
  }

  ghost predicate WordEmitted(items: seq<Item>, base: Word, words: seq<Word>, i: nat)
    requires i < |items|
  {
    IsWord(items[i]) ==>
      SizeTo(items, i) < |words| && words[SizeTo(items, i)] == WordOf(items, base, items[i])
  }

  /** These are the words of the first `k` items. */
  ghost predicate EmittedTo(items: seq<Item>, base: Word, words: seq<Word>, k: nat)
    requires k <= |items|
  {
    |words| == SizeTo(items, k) && forall i :: 0 <= i < k ==> WordEmitted(items, base, words, i)
  }

  lemma {:induction false} EmittedOn(items: seq<Item>, base: Word, words: seq<Word>, more: seq<Word>, k: nat)
    requires k < |items| && EmittedTo(items, base, words, k)
    requires more == if IsWord(items[k]) then [WordOf(items, base, items[k])] else []
    ensures EmittedTo(items, base, words + more, k + 1)
  {
    forall i | 0 <= i < k + 1 ensures WordEmitted(items, base, words + more, i) {
      if i < k { assert WordEmitted(items, base, words, i); }
    }
  }

  /** The object file, described item by item. */
  ghost predicate Describes(items: seq<Item>, base: Word, o: Object) {
    && |o.words| == SizeTo(items, |items|)
    && (forall i :: 0 <= i < |items| && IsWord(items[i]) ==>
                      SizeTo(items, i) < |o.words| && o.words[SizeTo(items, i)] == WordOf(items, base, items[i]))
    && o.tables.adjustment == Slots(items, base, |items|)
    && o.tables.required == Requirements(items, base, |items|)
    && o.tables.provided == Exports(items, base, |items|)
  }

  lemma {:induction false} AssembledDescribed(items: seq<Item>, base: Word, intermediate: bool)
    requires Assembled(items, base, intermediate).Some?
    ensures Describes(items, base, Assembled(items, base, intermediate).value)
  {
    PassRuns(items, base, intermediate, |items|);
    EmittedWords(items, base, Pass(items, base, intermediate, |items|).value.raws, |items|);
    var o := Assembled(items, base, intermediate).value;
    forall i | 0 <= i < |items| && IsWord(items[i])
      ensures SizeTo(items, i) < |o.words| && o.words[SizeTo(items, i)] == WordOf(items, base, items[i])
    {
      assert WordEmitted(items, base, o.words, i);
    }
  }

  // ----- The tables -----

  /** Every adjustment comes from a word that is the address of a label of the object. */
  lemma {:induction false} SlotFrom(items: seq<Item>, base: Word, k: nat, m: nat) returns (i: nat)
    requires k <= |items| && m < |Slots(items, base, k)|
    ensures i < k && IsLocal(items, items[i]) && Slots(items, base, k)[m] == At(None, base + SizeTo(items, i))
  {
    var own := SlotOf(items, items[k - 1], base + SizeTo(items, k - 1));
    if m < |own| {
      i := k - 1;
    } else {
      i := SlotFrom(items, base, k - 1, m - |own|);
    }
  }

  lemma {:induction false} WrapInjective(base: Word, x: nat, y: nat)
    requires x < WORD_COUNT && y < WORD_COUNT && Wrap(base + x) == Wrap(base + y)
    ensures x == y
  {
  }

  /** Different words have different addresses. */
  lemma {:induction false} OneWordEach(items: seq<Item>, base: Word, i: nat, j: nat)
    requires i < |items| && j < |items| && IsWord(items[i]) && IsWord(items[j]) && SizeTo(items, |items|) <= WORD_COUNT
    requires Wrap(base + SizeTo(items, i)) == Wrap(base + SizeTo(items, j))
    ensures i == j
  {
    SizeMonotone(items, i, |items|);
    SizeMonotone(items, j, |items|);
    WrapInjective(base, SizeTo(items, i), SizeTo(items, j));
    if i < j { SizeMonotone(items, i, j); }
    if j < i { SizeMonotone(items, j, i); }
  }

  lemma {:induction false} LocalIsSlot(items: seq<Item>, base: Word, k: nat, i: nat) returns (m: nat)
    requires i < k <= |items| && IsLocal(items, items[i])
    ensures m < |Slots(items, base, k)| && Slots(items, base, k)[m] == At(None, base + SizeTo(items, i))
  {
    if i == k - 1 {
      m := 0;
    } else {
      var n := LocalIsSlot(items, base, k - 1, i);
      m := SlotBehind(SlotOf(items, items[k - 1], base + SizeTo(items, k - 1)), Slots(items, base, k - 1), n);
    }
  }

  lemma {:induction false} SlotBehind(front: seq<Entry>, back: seq<Entry>, n: nat) returns (m: nat)
    requires n < |back|
    ensures m < |front + back| && (front + back)[m] == back[n]
  {
    m := |front| + n;
  }

  /** An address is listed as a pointer exactly when its word is the address of a label of the object. */
  lemma {:induction false} SlotIsLocal(items: seq<Item>, base: Word, i: nat)
    requires i < |items| && IsWord(items[i]) && SizeTo(items, |items|) <= WORD_COUNT
    ensures IsSlot(Slots(items, base, |items|), Wrap(base + SizeTo(items, i))) <==> IsLocal(items, items[i])
  {
    var es, a := Slots(items, base, |items|), Wrap(base + SizeTo(items, i));
    if IsSlot(es, a) {
      var m :| 0 <= m < |es| && es[m].address == a;
      var j := SlotFrom(items, base, |items|, m);
      OneWordEach(items, base, i, j);
    }
    if IsLocal(items, items[i]) {
      var m := LocalIsSlot(items, base, |items|, i);
      assert es[m].address == a;
    }
  }
}
