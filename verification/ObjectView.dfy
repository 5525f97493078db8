/**
 An assembled object as the linker sees it: literal words, pointers to its own labels, and zero words
 for imported labels.
 */
module ObjectView {
  import opened Words
  import opened Dcpu
  import opened Expressions
  import opened BinImages
  import opened Assembly
  import opened AssemblyMeaning
  import opened PositionIndependence
  import opened Programs
  import opened Linker
  import Offsetting

  /** The bin that the linker makes of an object file. */
  function ToImage(name: Name, o: Object): Image {
    Image(name, o.words, o.tables.provided, o.tables.required, o.tables.adjustment, o.tables.output,
          o.tables.jump, o.tables.optional, o.tables.call)
  }

  // ----- The cells of a program -----

  function ConstantOf(e: Expr): Word {
    var r := Evaluate(e, n => None);
    if r.Some? then r.value else 0
  }

  /** The cell of a word, given what labels denote. */
  function ItemCell(item: Item, env: string -> Cell): Cell {
    match item
    case Raw(w) => Lit(w)
    case Opcode(op, b, a) => Lit(Create(op, b, a))
    case Value(e) => if e.Ref? then env(e.name) else Lit(ConstantOf(e))
    case _ => Lit(0)
  }

  function CodeCells(items: seq<Item>, env: string -> Cell): seq<Cell> {
    if items == [] then []
    else
      var rest, last := items[..|items| - 1], items[|items| - 1];
      CodeCells(rest, env) + if IsWord(last) then [ItemCell(last, env)] else []
  }

  lemma {:induction false} CodeCellsSize(items: seq<Item>, env: string -> Cell)
    ensures |CodeCells(items, env)| == SizeTo(items, |items|)
  {
    if items != [] {
      var rest, last := items[..|items| - 1], items[|items| - 1];
      CodeCellsSize(rest, env);
      assert items == rest + [last];
      SizeOfAppend(rest, [last], 1);
    }
  }

  lemma {:induction false} CodeCellsAppend(p: seq<Item>, q: seq<Item>, env: string -> Cell)
    ensures CodeCells(p + q, env) == CodeCells(p, env) + CodeCells(q, env)
  {
    if q == [] {
      assert p + q == p;
    } else {
      var rest := q[..|q| - 1];
      CodeCellsAppend(p, rest, env);
      assert (p + q)[..|p + q| - 1] == p + rest;
    }
  }

  lemma {:induction false} CodeCellsAt(items: seq<Item>, env: string -> Cell, i: nat)
    requires i < |items| && IsWord(items[i])
    ensures SizeTo(items, i) < |CodeCells(items, env)| &&
            CodeCells(items, env)[SizeTo(items, i)] == ItemCell(items[i], env)
  {
    var p, q := items[..i], items[i + 1..];
    assert items == p + ([items[i]] + q);
    CodeCellsAppend(p, [items[i]] + q, env);
    CodeCellsAppend([items[i]], q, env);
    CodeCellsSize(p, env);
    SizeOfPrefix(p, [items[i]] + q, i);
    assert CodeCells([items[i]], env) == [ItemCell(items[i], env)];
  }

  lemma {:induction false} CodeCellsStrip(items: seq<Item>, env: string -> Cell)
    ensures CodeCells(Strip(items), env) == CodeCells(items, env)
  {
    if items != [] {
      var rest, last := items[..|items| - 1], items[|items| - 1];
      CodeCellsStrip(rest, env);
      CodeCellsAppend(Strip(rest), [last], env);
      assert CodeCells([last], env) == if IsWord(last) then [ItemCell(last, env)] else [];
    }
  }

  // ----- Programs that assemble -----

  predicate IsPlain(item: Item) {
    IsWord(item) || item.Definition? || item.Import? || item.Export?
  }

  /** A reference to a label that is imported or defined, or a label-free expression that has a value. */
  ghost predicate HasValue(items: seq<Item>, e: Expr) {
    if e.Ref? then FindImport(items, e.name, 0).Some? || Defines(items, e.name)
    else LabelFree(e) && Evaluate(e, n => None).Some?
  }

  /** A program without sections, jumps, calls and optional imports, all of whose labels exist. */
  ghost predicate Complete(items: seq<Item>) {
    && (forall i :: 0 <= i < |items| ==> IsPlain(items[i]))
    && (forall i :: 0 <= i < |items| && items[i].Value? ==> HasValue(items, items[i].expr))
    && (forall i :: 0 <= i < |items| && items[i].Export? ==> Defines(items, items[i].name))
  }

  lemma {:induction false} AddressExists(items: seq<Item>, base: Word, name: string)
    ensures LabelAddress(items, base, name).Some? <==> Defines(items, name)
  {
    AddressAppend(items, [], base, name);
  }

  ghost predicate OtherTablesEmpty(t: Tables) {
    t.section == [] && t.output == [] && t.jump == [] && t.optional == [] && t.call == []
  }

  lemma {:induction false} VisitSucceeds(items: seq<Item>, base: Word, intermediate: bool, p: Progress, item: Item)
    requires item in items && Complete(items) && OtherTablesEmpty(p.tables)
    requires intermediate || (!HasImport(items) && !item.Export?)
    ensures var r := Visit(items, base, intermediate, p, item);
            r.Some? && OtherTablesEmpty(r.value.tables)
  {
    assert IsPlain(item);
    match item
    case Value(e) =>
      assert HasValue(items, e);
      if e.Ref? {
        AddressExists(items, base, e.name);
      } else {
        LabelFreeIsConstant(e, Lookup(items, base), n => None);
      }
    case Export(n) => AddressExists(items, base, n);
    case _ =>
  }

  /** A complete program assembles; outside object files, if it is stripped of imports and exports. */
  lemma {:induction false} PassSucceeds(items: seq<Item>, base: Word, intermediate: bool, k: nat)
    requires k <= |items| && Complete(items)
    requires intermediate || (!HasImport(items) && forall i :: 0 <= i < |items| ==> !items[i].Export?)
    ensures var r := Pass(items, base, intermediate, k);
            r.Some? && OtherTablesEmpty(r.value.tables)
  {
    if k > 0 {
      PassSucceeds(items, base, intermediate, k - 1);
      VisitSucceeds(items, base, intermediate, Pass(items, base, intermediate, k - 1).value, items[k - 1]);
    }
  }

  // ----- The object -----

  /** What labels denote in an object: imports are left open. */
  function ObjectEnv(items: seq<Item>, name: Name): string -> Cell {
    label_ => if FindImport(items, label_, 0).Some? then Lit(0)
              else match LabelAddress(items, 0, label_)
                   case None => Lit(0)
                   case Some(a) => Ptr(name, a)
  }

  /** An assembled program, associated with its bin. */
  function ObjectOf(items: seq<Item>, name: Name, intermediate: bool): Image
    requires Assembled(items, 0, intermediate).Some?
  {
    Associated(ToImage(name, Assembled(items, 0, intermediate).value))
  }

  lemma {:induction false} WordCell(items: seq<Item>, name: Name, item: Item)
    requires IsWord(item) && (item.Value? ==> HasValue(items, item.expr))
    ensures ItemCell(item, ObjectEnv(items, name)) ==
            if IsLocal(items, item) then Ptr(name, WordOf(items, 0, item)) else Lit(WordOf(items, 0, item))
  {
    if item.Value? {
      if item.expr.Ref? {
        AddressExists(items, 0, item.expr.name);
      } else {
        LabelFreeIsConstant(item.expr, Lookup(items, 0), n => None);
      }
    }
  }

  lemma {:induction false} SlotsDistinct(items: seq<Item>, k: nat)
    requires k <= |items| && SizeTo(items, |items|) <= WORD_COUNT
    ensures Distinct(Slots(items, 0, k))
    ensures forall m :: 0 <= m < |Slots(items, 0, k)| ==> Slots(items, 0, k)[m].address < SizeTo(items, k)
  {
    if k > 0 {
      SlotsDistinct(items, k - 1);
      SizeMonotone(items, k - 1, |items|);
      SizeMonotone(items, k, |items|);
    }
  }

  lemma {:induction false} AssociatedCell(img: Image, a: nat)
    requires a < |img.words|
    ensures View(Associated(img))[a] ==
            if IsSlot(img.adjustment, a) then Ptr(img.name, img.words[a]) else Lit(img.words[a])
  {
    var r := Associated(img);
    if IsSlot(img.adjustment, a) {
      var k :| 0 <= k < |img.adjustment| && img.adjustment[k].address == a;
      assert r.adjustment[k].address == a;
    }
    if IsSlot(r.adjustment, a) {
      var k :| 0 <= k < |r.adjustment| && r.adjustment[k].address == a;
      assert img.adjustment[k].address == a;
    }
  }

  /** The word of an item in the assembled object, and whether it is an adjustment. */
  lemma {:induction false} ObjectWord(items: seq<Item>, intermediate: bool, i: nat)
    requires Complete(items) && SizeTo(items, |items|) <= WORD_COUNT && Assembled(items, 0, intermediate).Some?
    requires i < |items| && IsWord(items[i])
    ensures var o, a := Assembled(items, 0, intermediate).value, SizeTo(items, i);
            && a < |o.words| && o.words[a] == WordOf(items, 0, items[i])
            && (IsSlot(o.tables.adjustment, a) <==> IsLocal(items, items[i]))
  {
    AssembledDescribed(items, 0, intermediate);
    SizeMonotone(items, i, |items|);
    SlotIsLocal(items, 0, i);
  }

  lemma {:induction false} ObjectCell(items: seq<Item>, name: Name, intermediate: bool, i: nat)
    requires Complete(items) && SizeTo(items, |items|) <= WORD_COUNT && Assembled(items, 0, intermediate).Some?
    requires i < |items| && IsWord(items[i])
    ensures SizeTo(items, i) < |ObjectOf(items, name, intermediate).words|
    ensures View(ObjectOf(items, name, intermediate))[SizeTo(items, i)] == ItemCell(items[i], ObjectEnv(items, name))
  {
    ObjectWord(items, intermediate, i);
    AssociatedCell(ToImage(name, Assembled(items, 0, intermediate).value), SizeTo(items, i));
    WordCell(items, name, items[i]);
  }

  /** The view of an object is the program with its own labels filled in. */
  lemma {:induction false} ObjectIsCode(items: seq<Item>, name: Name, intermediate: bool)
    requires Complete(items) && SizeTo(items, |items|) <= WORD_COUNT && Assembled(items, 0, intermediate).Some?
    ensures View(ObjectOf(items, name, intermediate)) == CodeCells(items, ObjectEnv(items, name))
    ensures WellFormed(ObjectOf(items, name, intermediate))
  {
    var img, env := ObjectOf(items, name, intermediate), ObjectEnv(items, name);
    AssembledDescribed(items, 0, intermediate);
    CodeCellsSize(items, env);
    SlotsDistinct(items, |items|);
    forall a | 0 <= a < |img.words| ensures View(img)[a] == CodeCells(items, env)[a] {
      var i := Locate(items, |items|, a);
      ObjectCell(items, name, intermediate, i);
      CodeCellsAt(items, env, i);
    }
  }
}
