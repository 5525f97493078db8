/**
 Objects are position independent: assembling at another offset moves every table entry and exactly the
 words listed in the adjustment table.
 */
module PositionIndependence {
  import opened Words
  import opened Expressions
  import opened BinImages
  import opened Assembly
  import opened AssemblyMeaning
  import Offsetting

  // ----- Moving an object -----

  function MovedBy(a: Word, d: int): Word {
    Wrap(a + d)
  }

  /** An expression other than a plain label has the same value, or error, at both offsets. */
  predicate SameValue(items: seq<Item>, c: Word, d: int, item: Item) {
    item.Value? && !item.expr.Ref? ==>
      Evaluate(item.expr, Lookup(items, c)) == Evaluate(item.expr, Lookup(items, MovedBy(c, d)))
  }

  predicate Steady(items: seq<Item>, c: Word, d: int) {
    forall i :: 0 <= i < |items| ==> SameValue(items, c, d, items[i])
  }

  function MovedEntries(es: seq<Entry>, d: int): (r: seq<Entry>)
    ensures |r| == |es| && forall i :: 0 <= i < |es| ==> r[i] == es[i].(address := MovedBy(es[i].address, d))
  {
    seq(|es|, i requires 0 <= i < |es| => es[i].(address := MovedBy(es[i].address, d)))
  }

  function MovedTables(t: Tables, d: int): Tables {
    Tables(MovedEntries(t.provided, d), MovedEntries(t.required, d), MovedEntries(t.adjustment, d),
           MovedEntries(t.section, d), MovedEntries(t.output, d), MovedEntries(t.jump, d),
           MovedEntries(t.optional, d), MovedEntries(t.call, d))
  }

  lemma {:induction false} WrapSum(x: int, y: int)
    ensures Wrap(Wrap(x) + y) == Wrap(x + y)
  {
    var q := (Wrap(x) - x) / WORD_COUNT;
    assert Wrap(x) == x + q * WORD_COUNT;
    Offsetting.WrapPeriodic(x + y, q);
  }

  lemma {:induction false} SearchMoves(items: seq<Item>, name: string, k: nat, mem: Word, d: int)
    requires k <= |items|
    ensures var r, r' := Search(items, name, k, mem), Search(items, name, k, MovedBy(mem, d));
            r'.Some? == r.Some? && (r.Some? ==> r'.value == MovedBy(r.value, d))
    decreases |items| - k
  {
    if k < |items| && items[k] != Definition(name) {
      if IsWord(items[k]) {
        SearchMoves(items, name, k + 1, Wrap(mem + 1), d);
        WrapSum(mem + 1, d);
        WrapSum(mem + d, 1);
      } else {
        SearchMoves(items, name, k + 1, mem, d);
      }
    }
  }

  /** The passes at two offsets correspond in everything but the evaluated words. */
  ghost predicate Corresponds(p: Progress, p': Progress, d: int) {
    Wrap(p'.index) == Wrap(p.index + d) && p'.tables == MovedTables(p.tables, d) && p'.hasOutput == p.hasOutput
  }

  lemma {:induction false} AtMoves(symbol: Option<string>, a: int, a': int, d: int)
    requires Wrap(a') == Wrap(a + d)
    ensures At(symbol, a') == At(symbol, a).(address := MovedBy(At(symbol, a).address, d))
  {
    WrapSum(a, d);
  }

  lemma {:induction false} PrependMoves(e: Entry, e': Entry, es: seq<Entry>, d: int)
    requires e' == e.(address := MovedBy(e.address, d))
    ensures MovedEntries([e] + es, d) == [e'] + MovedEntries(es, d)
  {
  }

  lemma {:induction false} NextIndex(a: int, a': int, d: int)
    requires Wrap(a') == Wrap(a + d)
    ensures Wrap(a' + 1) == Wrap(a + 1 + d)
  {
    WrapSum(a', 1);
    WrapSum(a + d, 1);
  }

  lemma {:induction false} NotedMoves(p: Progress, p': Progress, t: Tables, t': Tables, h: bool, d: int)
    requires Corresponds(p, p', d) && t' == MovedTables(t, d)
    ensures Corresponds(Noted(p, t, h), Noted(p', t', h), d)
  {
  }

  lemma {:induction false} EvaluatedMoves(p: Progress, p': Progress, raw: Option<Word>, raw': Option<Word>,
                                          t: Tables, t': Tables, d: int)
    requires Corresponds(p, p', d) && t' == MovedTables(t, d)
    ensures Corresponds(Evaluated(p, raw, t), Evaluated(p', raw', t'), d)
  {
    NextIndex(p.index, p'.index, d);
  }

  lemma {:induction false} ImportMoves(t: Tables, t': Tables, name: string, a: int, a': int, d: int)
    requires t' == MovedTables(t, d) && Wrap(a') == Wrap(a + d)
    ensures t'.(required := [At(Some(name), a')] + t'.required) ==
            MovedTables(t.(required := [At(Some(name), a)] + t.required), d)
    ensures t'.(optional := [At(Some(name), a')] + t'.optional) ==
            MovedTables(t.(optional := [At(Some(name), a)] + t.optional), d)
    ensures t'.(adjustment := [At(None, a')] + t'.adjustment) ==
            MovedTables(t.(adjustment := [At(None, a)] + t.adjustment), d)
  {
    AtMoves(Some(name), a, a', d);
    AtMoves(None, a, a', d);
    PrependMoves(At(Some(name), a), At(Some(name), a'), t.required, d);
    PrependMoves(At(Some(name), a), At(Some(name), a'), t.optional, d);
    PrependMoves(At(None, a), At(None, a'), t.adjustment, d);
  }

  lemma {:induction false} RefMoves(items: seq<Item>, c: Word, d: int, intermediate: bool, k: nat, p: Progress,
          p': Progress)
    requires k < |items| && items[k].Value? && items[k].expr.Ref? && Corresponds(p, p', d)
    ensures var r, r' := VisitValue(items, c, intermediate, p, items[k].expr),
            VisitValue(items, MovedBy(c, d), intermediate, p', items[k].expr);
            r.Some? == r'.Some? && (r.Some? ==> Corresponds(r.value, r'.value, d))
  {
    var e, t, t' := items[k].expr, p.tables, p'.tables;
    SearchMoves(items, e.name, 0, c, d);
    ImportMoves(t, t', e.name, p.index, p'.index, d);
    var entry, entry' := At(Some(e.name), p.index), At(Some(e.name), p'.index);
    if HasImport(items) && !intermediate {
    } else if FindImport(items, e.name, 0).Some? {
      if FindImport(items, e.name, 0).value.Import? {
        EvaluatedMoves(p, p', None, None, t.(required := [entry] + t.required), t'.(required := [entry'] + t'.required),
                       d);
      } else {
        EvaluatedMoves(p, p', None, None, t.(optional := [entry] + t.optional), t'.(optional := [entry'] + t'.optional),
                       d);
      }
    } else {
      EvaluatedMoves(p, p', LabelAddress(items, c, e.name), LabelAddress(items, MovedBy(c, d), e.name),
                     t.(adjustment := [At(None, p.index)] + t.adjustment),
                         t'.(adjustment := [At(None, p'.index)] + t'.adjustment), d);
    }
  }

  lemma {:induction false} ComputedMoves(items: seq<Item>, c: Word, d: int, intermediate: bool, e: Expr, p: Progress,
          p': Progress)
    requires !e.Ref? && Corresponds(p, p', d)
    ensures var r, r' := VisitValue(items, c, intermediate, p, e),
            VisitValue(items, MovedBy(c, d), intermediate, p', e);
            && (r.Some? && r'.Some? ==> Corresponds(r.value, r'.value, d))
            && (SameValue(items, c, d, Value(e)) ==> r.Some? == r'.Some?)
  {
    var value, value' := Evaluate(e, Lookup(items, c)), Evaluate(e, Lookup(items, MovedBy(c, d)));
    EvaluatedMoves(p, p', value, value', p.tables, p'.tables, d);
  }

  /** The tables that a directive adds an entry to. */
  lemma {:induction false} EntryMoves(t: Tables, t': Tables, symbol: Option<string>, a: int, a': int, d: int)
    requires t' == MovedTables(t, d) && Wrap(a') == Wrap(a + d)
    ensures t'.(section := [At(symbol, a')] + t'.section) == MovedTables(t.(section := [At(symbol, a)] + t.section), d)
    ensures t'.(output := [At(symbol, a')] + t'.output) == MovedTables(t.(output := [At(symbol, a)] + t.output), d)
    ensures t'.(call := [At(symbol, a')] + t'.call) == MovedTables(t.(call := [At(symbol, a)] + t.call), d)
    ensures t'.(provided := [At(symbol, a')] + t'.provided) ==
            MovedTables(t.(provided := [At(symbol, a)] + t.provided), d)
    ensures t'.(jump := [At(symbol, a')] + t'.jump) == MovedTables(t.(jump := [At(symbol, a)] + t.jump), d)
  {
    AtMoves(symbol, a, a', d);
    PrependMoves(At(symbol, a), At(symbol, a'), t.section, d);
    PrependMoves(At(symbol, a), At(symbol, a'), t.output, d);
    PrependMoves(At(symbol, a), At(symbol, a'), t.call, d);
    PrependMoves(At(symbol, a), At(symbol, a'), t.provided, d);
    PrependMoves(At(symbol, a), At(symbol, a'), t.jump, d);
  }

  lemma {:induction false} RecordedMoves(items: seq<Item>, c: Word, d: int, index: nat, index': nat, item: Item)
    requires Wrap(index') == Wrap(index + d)
    ensures var r, r' := Recorded(items, c, index, item), Recorded(items, MovedBy(c, d), index', item);
            && r.Some? == r'.Some?
            && (r.Some? && (NeedsObject(item)) ==> r'.value.0 == r.value.0 && Wrap(r'.value.1) == Wrap(r.value.1 + d))
  {
    WrapSum(index, d);
    match item
    case Export(n) => SearchMoves(items, n, 0, c, d);
    case JumpExport(t) => if t.Some? { SearchMoves(items, t.value, 0, c, d); }
    case _ =>
  }

  lemma {:induction false} DirectiveMoves(items: seq<Item>, c: Word, d: int, k: nat, p: Progress, p': Progress)
    requires k < |items| && !IsWord(items[k]) && Corresponds(p, p', d)
    ensures var r, r' := VisitDirective(items, c, p, items[k]), VisitDirective(items, MovedBy(c, d), p', items[k]);
            r.Some? == r'.Some? && (r.Some? ==> Corresponds(r.value, r'.value, d))
  {
    var item := items[k];
    RecordedMoves(items, c, d, p.index, p'.index, item);
    var r, r' := Recorded(items, c, p.index, item), Recorded(items, MovedBy(c, d), p'.index, item);
    if r.Some? && r'.Some? {
      var (s, a) := r.value;
      var (s', a') := r'.value;
      if NeedsObject(item) { EntryMoves(p.tables, p'.tables, s, a, a', d); }
      NotedMoves(p, p', Added(p.tables, item, At(s, a)), Added(p'.tables, item, At(s', a')),
                 p.hasOutput || item.OutputPoint? || item.KernelCall?, d);
    }
  }

  lemma {:induction false} VisitMoves(items: seq<Item>, c: Word, d: int, intermediate: bool, k: nat, p: Progress,
          p': Progress)
    requires k < |items| && Corresponds(p, p', d)
    ensures var r, r' := Visit(items, c, intermediate, p, items[k]),
            Visit(items, MovedBy(c, d), intermediate, p', items[k]);
            && (r.Some? && r'.Some? ==> Corresponds(r.value, r'.value, d))
            && (SameValue(items, c, d, items[k]) ==> r.Some? == r'.Some?)
  {
    if items[k].Value? {
      if items[k].expr.Ref? {
        RefMoves(items, c, d, intermediate, k, p, p');
      } else {
        ComputedMoves(items, c, d, intermediate, items[k].expr, p, p');
      }
    } else if IsWord(items[k]) {
      NextIndex(p.index, p'.index, d);
    } else {
      DirectiveMoves(items, c, d, k, p, p');
    }
  }

  /** Two passes, one of which may have halted. */
  ghost predicate Parallel(r: Option<Progress>, r': Option<Progress>, d: int, steady: bool) {
    (r.Some? && r'.Some? ==> Corresponds(r.value, r'.value, d)) && (steady ==> r.Some? == r'.Some?)
  }

  function PassOn(items: seq<Item>, base: Word, intermediate: bool, r: Option<Progress>, item: Item): Option<Progress> {
    match r
    case None => None
    case Some(p) => Visit(items, base, intermediate, p, item)
  }

  lemma {:induction false} PassOnMoves(items: seq<Item>, c: Word, d: int, intermediate: bool, k: nat,
          r: Option<Progress>, r': Option<Progress>)
    requires k < |items| && Parallel(r, r', d, Steady(items, c, d))
    ensures Parallel(PassOn(items, c, intermediate, r, items[k]),
                     PassOn(items, MovedBy(c, d), intermediate, r', items[k]), d,
                     Steady(items, c, d))
  {
    if r.Some? && r'.Some? { VisitMoves(items, c, d, intermediate, k, r.value, r'.value); }
  }

  lemma {:induction false} PassMoves(items: seq<Item>, c: Word, d: int, intermediate: bool, k: nat)
    requires k <= |items|
    ensures Parallel(Pass(items, c, intermediate, k), Pass(items, MovedBy(c, d), intermediate, k), d,
                     Steady(items, c, d))
  {
    if k == 0 {
      WrapSum(c + d, 0);
    } else {
      PassMoves(items, c, d, intermediate, k - 1);
      PassOnMoves(items, c, d, intermediate, k - 1, Pass(items, c, intermediate, k - 1),
                  Pass(items, MovedBy(c, d), intermediate, k - 1));
    }
  }

  /** The word of an item moves if it is the address of a label of the object and stays otherwise: exactly then. */
  lemma {:induction false} WordMoves(items: seq<Item>, c: Word, d: int, item: Item)
    requires IsWord(item)
    requires item.Value? && !IsImported(items, item) ==>
             RawOf(items, c, item).Some? && RawOf(items, MovedBy(c, d), item).Some?
    ensures WordOf(items, MovedBy(c, d), item) ==
            (if IsLocal(items, item) then MovedBy(WordOf(items, c, item), d) else WordOf(items, c, item)) <==>
            SameValue(items, c, d, item)
  {
    if item.Value? && item.expr.Ref? && !IsImported(items, item) {
      SearchMoves(items, item.expr.name, 0, c, d);
    }
  }

  /** Where the pass succeeds, every expression has a value. */
  lemma {:induction false} ValuesExist(items: seq<Item>, base: Word, intermediate: bool, k: nat, i: nat)
    requires i < k <= |items| && Pass(items, base, intermediate, k).Some?
    requires items[i].Value? && !IsImported(items, items[i])
    ensures RawOf(items, base, items[i]).Some?
  {
    if i < k - 1 { ValuesExist(items, base, intermediate, k - 1, i); }
  }

  /** The word at an address of the object is moved if the adjustment table lists it, and left alone otherwise. */
  ghost predicate WordIsMoved(o: Object, o': Object, c: Word, d: int, a: nat)
    requires a < |o.words| == |o'.words|
  {
    o'.words[a] == if IsSlot(o.tables.adjustment, Wrap(c + a)) then MovedBy(o.words[a], d) else o.words[a]
  }

  ghost predicate WordsAreMoved(o: Object, o': Object, c: Word, d: int) {
    |o.words| == |o'.words| && forall a :: 0 <= a < |o.words| ==> WordIsMoved(o, o', c, d, a)
  }

  lemma {:induction false} DescribedMoves(items: seq<Item>, c: Word, d: int, i: nat, o: Object, o': Object)
    requires SizeTo(items, |items|) <= WORD_COUNT && i < |items| && IsWord(items[i])
    requires Describes(items, c, o) && Describes(items, MovedBy(c, d), o')
    requires items[i].Value? && !IsImported(items, items[i]) ==>
               RawOf(items, c, items[i]).Some? && RawOf(items, MovedBy(c, d), items[i]).Some?
    ensures SizeTo(items, i) < |o.words| == |o'.words|
    ensures WordIsMoved(o, o', c, d, SizeTo(items, i)) <==> SameValue(items, c, d, items[i])
  {
    WordMoves(items, c, d, items[i]);
    SlotIsLocal(items, c, i);
  }

  lemma {:induction false} ItemMoves(items: seq<Item>, c: Word, d: int, intermediate: bool, i: nat)
    requires SizeTo(items, |items|) <= WORD_COUNT && i < |items| && IsWord(items[i])
    requires Assembled(items, c, intermediate).Some? && Assembled(items, MovedBy(c, d), intermediate).Some?
    ensures var o, o' := Assembled(items, c, intermediate).value, Assembled(items, MovedBy(c, d), intermediate).value;
            && SizeTo(items, i) < |o.words| == |o'.words|
            && (WordIsMoved(o, o', c, d, SizeTo(items, i)) <==> SameValue(items, c, d, items[i]))
  {
    AssembledDescribed(items, c, intermediate);
    AssembledDescribed(items, MovedBy(c, d), intermediate);
    if items[i].Value? && !IsImported(items, items[i]) {
      ValuesExist(items, c, intermediate, |items|, i);
      ValuesExist(items, MovedBy(c, d), intermediate, |items|, i);
    }
    DescribedMoves(items, c, d, i, Assembled(items, c, intermediate).value,
                   Assembled(items, MovedBy(c, d), intermediate).value);
  }

  /**
   Position independence: when assembling at an offset and `d` further on both succeed, every table entry
   moves by `d`, and `d` is added (modulo 0x10000) to exactly the words the adjustment table lists if and only
   if every expression that is not a plain label has the same value at both offsets. In that case one
   succeeds if and only if the other does.
   */
  lemma {:induction false} AssemblyMoves(items: seq<Item>, c: Word, d: int, intermediate: bool)
    requires SizeTo(items, |items|) <= WORD_COUNT
    ensures var r, r' := Assembled(items, c, intermediate), Assembled(items, MovedBy(c, d), intermediate);
            && (Steady(items, c, d) ==> r.Some? == r'.Some?)
            && (r.Some? && r'.Some? ==>
                  && r'.value.tables == MovedTables(r.value.tables, d)
                  && (WordsAreMoved(r.value, r'.value, c, d) <==> Steady(items, c, d)))
  {
    PassMoves(items, c, d, intermediate, |items|);
    var r, r' := Assembled(items, c, intermediate), Assembled(items, MovedBy(c, d), intermediate);
    if r.Some? && r'.Some? {
      WordsMoveIff(items, c, d, intermediate);
    }
  }

  lemma {:induction false} WordsMoveIff(items: seq<Item>, c: Word, d: int, intermediate: bool)
    requires SizeTo(items, |items|) <= WORD_COUNT
    requires Assembled(items, c, intermediate).Some? && Assembled(items, MovedBy(c, d), intermediate).Some?
    ensures var o, o' := Assembled(items, c, intermediate).value, Assembled(items, MovedBy(c, d), intermediate).value;
            WordsAreMoved(o, o', c, d) <==> Steady(items, c, d)
  {
    var o, o' := Assembled(items, c, intermediate).value, Assembled(items, MovedBy(c, d), intermediate).value;
    AssembledDescribed(items, c, intermediate);
    AssembledDescribed(items, MovedBy(c, d), intermediate);
    if Steady(items, c, d) {
      forall a | 0 <= a < |o.words| ensures WordIsMoved(o, o', c, d, a) {
        var i := Locate(items, |items|, a);
        ItemMoves(items, c, d, intermediate, i);
      }
    }
    if WordsAreMoved(o, o', c, d) {
      forall i | 0 <= i < |items| ensures SameValue(items, c, d, items[i]) {
        if IsWord(items[i]) { ItemMoves(items, c, d, intermediate, i); }
      }
    }
  }

  /** Every expression is a plain label or label-free. */
  predicate Portable(items: seq<Item>) {
    forall i :: 0 <= i < |items| && items[i].Value? ==> items[i].expr.Ref? || LabelFree(items[i].expr)
  }

  /** Items whose expressions are plain labels or label-free are position independent everywhere. */
  lemma {:induction false} PortableIsSteady(items: seq<Item>, c: Word, d: int)
    requires Portable(items)
    ensures Steady(items, c, d)
  {
    forall i | 0 <= i < |items| ensures SameValue(items, c, d, items[i]) {
      if items[i].Value? && !items[i].expr.Ref? {
        LabelFreeIsConstant(items[i].expr, Lookup(items, c), Lookup(items, MovedBy(c, d)));
      }
    }
  }

  /** `:l` followed by the word l+1 */
  function Computed(): seq<Item> {
    [Definition("l"), Value(Binary(Ref("l"), Add, Number(1)))]
  }

  /** A computed address is not listed as an adjustment, although it depends on the position. */
  lemma {:induction false} ComputedAddressIsNotListed()
    ensures var r, r' := Assembled(Computed(), 0, true), Assembled(Computed(), 5, true);
            && r.Some? && r'.Some? && r.value.tables.adjustment == [] && r'.value.tables.adjustment == []
            && r.value.words == [1] && r'.value.words == [6]
  {
    var items := Computed();
    forall base: Word | base == 0 || base == 5
      ensures Assembled(items, base, true) == Some(Object([base + 1], NO_TABLES))
    {
      assert LabelAddress(items, base, "l") == Some(base);
      assert Evaluate(items[1].expr, Lookup(items, base)) == Some(base + 1);
      var p := Progress(base, NO_TABLES, false, [None]);
      var none: seq<Option<Word>> := [];
      assert none + [None] == [None];
      assert Visit(items, base, true, Progress(base, NO_TABLES, false, none), items[0]) == Some(p);
      assert Pass(items, base, true, 1) == Some(p);
      var q := Progress(base + 1, NO_TABLES, false, [None, Some(base + 1)]);
      assert p.raws + [Some(base + 1)] == q.raws;
      assert Pass(items, base, true, 2) == Some(q);
      assert Emitted(items, q.raws, 2) == Emitted(items, q.raws, 1) + [base + 1] == [base + 1];
    }
  }
}
