/**
 Separate assembly with the short literals on: flattening, compressing and resolving the objects gives the
 programs assembled as one from sources whose short literals have been folded.
 */
module CompressedTheorem {
  import opened Words
  import opened Expressions
  import opened BinImages
  import opened Flattening
  import opened Assembly
  import opened Programs
  import opened ObjectView
  import opened SeparateAssembly
  import opened SeparateLinking
  import opened SeparateTheorem
  import opened OpenCode
  import opened CompressedCode
  import opened LineCode
  import opened ShortCode
  import opened LinkedLines
  import opened Resolving
  import Source = Encoding
  import Code = Compression
  import Linker
  import Offsetting

  /** The programs with their short literals folded in the source. */
  function ShortAll(programs: seq<Program>): (r: seq<Program>)
    ensures |r| == |programs| && forall j :: 0 <= j < |programs| ==> r[j] == ShortLines(programs[j])
  {
    seq(|programs|, j requires 0 <= j < |programs| => ShortLines(programs[j]))
  }

  function ShortWhole(programs: seq<Program>): seq<Item> {
    Whole(Sources(ShortAll(programs)), |programs|)
  }

  lemma {:induction false} ShortConcat(a: seq<Line>, b: seq<Line>)
    ensures ShortLines(a + b) == ShortLines(a) + ShortLines(b)
  {
  }

  lemma {:induction false} ShortAllLines(programs: seq<Program>, k: nat)
    requires k <= |programs|
    ensures AllLines(ShortAll(programs), k) == ShortLines(AllLines(programs, k))
  {
    if k > 0 {
      ShortAllLines(programs, k - 1);
      ShortConcat(AllLines(programs, k - 1), programs[k - 1]);
    }
  }

  // ----- The items of the folded lines -----

  lemma {:induction false} ShortEmits(line: Line, item: Item)
    requires item in Source.Emit(ShortLine(line))
    ensures item.Opcode? || item in Source.Emit(line)
  {
  }

  lemma {:induction false} EmittedFrom(lines: seq<Line>, n: nat, item: Item) returns (k: nat)
    requires n <= |lines| && item in Source.EmitAll(lines, n)
    ensures k < n && item in Source.Emit(lines[k])
  {
    if item in Source.EmitAll(lines, n - 1) {
      k := EmittedFrom(lines, n - 1, item);
    } else {
      k := n - 1;
    }
  }

  /** Folding brings in no items but instruction words. */
  lemma {:induction false} ShortItem(lines: seq<Line>, item: Item)
    requires item in AllItems(ShortLines(lines))
    ensures item.Opcode? || item in AllItems(lines)
  {
    var k := EmittedFrom(ShortLines(lines), |lines|, item);
    ShortEmits(lines[k], item);
    if !item.Opcode? { EmittedIn(lines, k, item); }
  }

  lemma {:induction false} OrderedIsDefined(lines: seq<Line>, name: string)
    requires AllSettled(lines) && LabelOrder(lines, |lines|, name).Some?
    ensures Defines(Strip(AllItems(lines)), name)
  {
    LabelAtStart(lines, |lines|, InstsOf(lines), name);
    AddressExists(AllItems(lines), 0, name);
    StripKeepsLabels(AllItems(lines), 0, name);
  }

  /** An expression of the whole program has a value in the folded program. */
  lemma {:induction false} ShortHasValue(names: seq<Name>, programs: seq<Program>, target: Name, lines: seq<Line>,
          e: Expr)
    requires Separable(names, Sources(programs), target) && lines == AllLines(programs, |programs|)
    requires AllSettled(lines) && ArePrograms(programs) && Value(e) in Whole(Sources(programs), |programs|)
    ensures HasValue(ShortWhole(programs), e)
  {
    var w := Whole(Sources(programs), |programs|);
    WholeIsComplete(names, Sources(programs), target);
    ValueOfComplete(w, e);
    if e.Ref? {
      NoImports(Sources(programs), |programs|, e.name);
      WholeIsStripped(programs, |programs|, lines, AllItems(lines));
      StripKeepsLabels(AllItems(lines), 0, e.name);
      var i :| 0 <= i < |AllItems(lines)| && AllItems(lines)[i] == Definition(e.name);
      AreLines(programs, |programs|);
      DefinedIsOrdered(lines, |lines|, e.name);
      ShortIsDefined(programs, lines, e.name);
    }
  }

  lemma {:induction false} ShortIsDefined(programs: seq<Program>, lines: seq<Line>, name: string)
    requires lines == AllLines(programs, |programs|) && AllSettled(lines) && LabelOrder(lines, |lines|, name).Some?
    ensures Defines(ShortWhole(programs), name)
  {
    ShortKeepsLabels(lines, |lines|, name);
    ShortAllSettled(lines);
    OrderedIsDefined(ShortLines(lines), name);
    ShortAllLines(programs, |programs|);
    WholeIsStripped(ShortAll(programs), |programs|, ShortLines(lines), AllItems(ShortLines(lines)));
  }

  lemma {:induction false} StripHas(items: seq<Item>, i: nat) returns (item: Item)
    requires i < |Strip(items)|
    ensures item == Strip(items)[i] && item in items && !IsImport(item) && !item.Export?
  {
    StripDrops(items);
    item := Strip(items)[i];
  }

  /** An item of the folded program is an instruction word or an item of the whole program. */
  lemma {:induction false} ShortWholeItem(programs: seq<Program>, lines: seq<Line>, i: nat) returns (item: Item)
    requires lines == AllLines(programs, |programs|) && i < |ShortWhole(programs)|
    ensures item == ShortWhole(programs)[i] && !IsImport(item) && !item.Export?
    ensures item.Opcode? || item in Whole(Sources(programs), |programs|)
  {
    ShortAllLines(programs, |programs|);
    WholeIsStripped(ShortAll(programs), |programs|, ShortLines(lines), AllItems(ShortLines(lines)));
    WholeIsStripped(programs, |programs|, lines, AllItems(lines));
    item := StripHas(AllItems(ShortLines(lines)), i);
    ShortItem(lines, item);
    if !item.Opcode? { StripKeepsItem(AllItems(lines), item); }
  }

  lemma {:induction false} PlainItem(w: seq<Item>, item: Item)
    requires Complete(w) && item in w
    ensures IsPlain(item)
  {
    var i :| 0 <= i < |w| && w[i] == item;
  }

  /** The folded program is complete. */
  lemma {:induction false} ShortIsComplete(names: seq<Name>, programs: seq<Program>, target: Name, lines: seq<Line>)
    requires Separable(names, Sources(programs), target) && lines == AllLines(programs, |programs|)
    requires AllSettled(lines) && ArePrograms(programs)
    ensures Complete(ShortWhole(programs)) && !HasImport(ShortWhole(programs))
    ensures forall i :: 0 <= i < |ShortWhole(programs)| ==> !ShortWhole(programs)[i].Export?
  {
    var short := ShortWhole(programs);
    WholeIsComplete(names, Sources(programs), target);
    forall i | 0 <= i < |short|
      ensures IsPlain(short[i]) && !IsImport(short[i]) && !short[i].Export?
      ensures short[i].Value? ==> HasValue(short, short[i].expr)
    {
      var item := ShortWholeItem(programs, lines, i);
      if !item.Opcode? {
        PlainItem(Whole(Sources(programs), |programs|), item);
        if item.Value? { ShortHasValue(names, programs, target, lines, item.expr); }
      }
    }
  }

  /** The cells of the folded program are those of the folded instructions. */
  lemma {:induction false} ShortIsLaid(programs: seq<Program>, target: Name, lines: seq<Line>)
    requires lines == AllLines(programs, |programs|) && AllSettled(lines)
    ensures var p := InstsOf(lines);
            LaidCells(Code.FoldFirst(p, |p|), target, WholeCells(Sources(ShortAll(programs)), target))
  {
    ShortAllLines(programs, |programs|);
    ShortAllSettled(lines);
    WholeIsLaid(ShortAll(programs), target, ShortLines(lines));
    ShortInsts(lines);
  }

  /** Code with the cells of the folded program is, at any position, the folded program assembled there. */
  lemma {:induction false} PlacedIsShort(names: seq<Name>, programs: seq<Program>, target: Name, lines: seq<Line>,
          linked: Image, position: int)
    requires Separable(names, Sources(programs), target) && lines == AllLines(programs, |programs|)
    requires AllSettled(lines) && ArePrograms(programs) && |linked.words| <= WORD_COUNT
    requires View(linked) == WholeCells(Sources(ShortAll(programs)), target)
    ensures Assembled(ShortWhole(programs), Wrap(position), false).Some?
    ensures Offsetting.Placed(View(linked), position) ==
            Assembled(ShortWhole(programs), Wrap(position), false).value.words
  {
    var short := ShortWhole(programs);
    ShortIsComplete(names, programs, target, lines);
    CodeCellsSize(short, WholeEnv(Sources(ShortAll(programs)), target));
    CodeAssembles(short, target);
    PlacedIsAssembled(short, target, position);
  }

  /** In the flattened bin the words of the [register + next word] operands are harmless. */
  ghost predicate Compressible(programs: seq<Program>, flat: Image) {
    Code.AllResynchronised(OpenProgram(InstsOf(AllLines(programs, |programs|)), flat))
  }

  /** Compressing and resolving the flattened bin. */
  lemma {:induction false} CompressAndResolve(names: seq<Name>, programs: seq<Program>, images: seq<Image>,
          target: Name, f: Image, lines: seq<Line>)
    returns (c: Image, saved: Word)
    requires Separable(names, Sources(programs), target) && GoodObjects(names, Sources(programs), images)
    requires Flat(Sources(programs), images, target, f) && Compressible(programs, f)
    requires lines == AllLines(programs, |programs|) && ArePrograms(programs) && AllSettled(lines)
    ensures Code.Compressed(f, 0, 0) == Some((c, saved)) && saved == |f.words| - |c.words|
    ensures var r := Resolved(c, false, false, false);
            r.Some? && WellFormed(r.value) && View(r.value) == WholeCells(Sources(ShortAll(programs)), target)
  {
    var p, goal := InstsOf(lines), WholeCells(Sources(programs), target);
    var goal' := WholeCells(Sources(ShortAll(programs)), target);
    FlatHoldsOpen(names, programs, images, target, f, lines);
    ShortIsLaid(programs, target, lines);
    c, saved := CompressOpen(f, p, goal, goal');
    RequiredIsOpen(c, goal');
    ResolveOpen(c, goal');
  }

  /**
   Separate assembly is sound with the short literals on, the linker's default: the objects flatten, compress and
   resolve without halting, and at any position the linked words are those of all programs assembled as one there
   after folding their short literals in the source. The result of the pass is the number of words saved.
   */
  lemma {:induction false} CompressedAssemblyIsSound(names: seq<Name>, programs: seq<Program>, target: Name,
          images: seq<Image>, position: int)
    requires Separable(names, Sources(programs), target) && ArePrograms(programs)
    requires Objects(names, Sources(programs), images)
    requires var flat := Linker.Flattened(Link(images, EmptyImage(target)));
             flat.Some? ==> Compressible(programs, flat.value)
    ensures var flat := Linker.Flattened(Link(images, EmptyImage(target)));
            && flat.Some?
            && var r := Code.Compressed(flat.value, 0, 0);
            && r.Some?
            && var linked := Resolved(r.value.0, false, false, false);
            && linked.Some? && WellFormed(linked.value)
            && r.value.1 == |flat.value.words| - |linked.value.words|
            && Assembled(ShortWhole(programs), Wrap(position), false).Some?
            && Offsetting.Placed(View(linked.value), position) ==
               Assembled(ShortWhole(programs), Wrap(position), false).value.words
  {
    var lines := AllLines(programs, |programs|);
    LinesAreSettled(names, programs, target, lines);
    ObjectsAreTheGood(names, Sources(programs), target, images);
    FlattenObjects(names, Sources(programs), images, target);
    var f := Linker.Flattened(Link(images, EmptyImage(target))).value;
    var c, saved := CompressAndResolve(names, programs, images, target, f, lines);
    PlacedIsShort(names, programs, target, lines, Resolved(c, false, false, false).value, position);
  }

  lemma {:induction false} ObjectsAreTheGood(names: seq<Name>, programs: seq<seq<Item>>, target: Name,
          images: seq<Image>)
    requires Separable(names, programs, target) && Objects(names, programs, images)
    ensures GoodObjects(names, programs, images)
  {
    var good := ObjectsAreGood(names, programs, target);
    ObjectsAreDetermined(names, programs, images, good);
  }

  /** Programs whose [register + next word] operands are harmless in the source are compressible. */
  lemma {:induction false} HarmlessIsCompressible(programs: seq<Program>, flat: Image)
    requires Code.AllResynchronised(InstsOf(AllLines(programs, |programs|)))
    ensures Compressible(programs, flat)
  {
    var p := InstsOf(AllLines(programs, |programs|));
    var q := OpenProgram(p, flat);
    forall k | 0 <= k < |q| ensures Code.Resynchronised(q[k]) {
      assert Code.Resynchronised(p[k]);
      OpenHead(flat, p, k);
      forall j | Code.Measured(q[k].word) - 1 <= j < |q[k].next| ensures Code.HarmlessOperand(q[k].next[j]) {
        assert Code.HarmlessOperand(p[k].next[j]);
        OpenNext(flat, p, k, j, Code.Start(p, k) + 1 + j);
      }
    }
  }
}
