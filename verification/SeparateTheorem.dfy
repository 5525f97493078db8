/**
 The separate-assembly theorem: flattening and resolving the objects gives the whole program.
 */
module SeparateTheorem {
  import opened Words
  import opened Expressions
  import opened BinImages
  import opened Flattening
  import opened FlattenMeaning
  import opened FileTables
  import opened Assembly
  import opened AssemblyMeaning
  import opened Programs
  import opened ObjectView
  import opened SeparateAssembly
  import opened SeparateLinking
  import opened Resolving
  import opened OpenCode
  import Linker
  import Meaning
  import Offsetting
  import PositionIndependence

  // ----- The cells of the flattened bin -----

  lemma {:induction false} FileCellsGrow(images: seq<Image>, k: nat)
    requires k < |images| && !IsSection(images[k].name)
    ensures FileCells(images, k + 1) == FileCells(images, k) + View(images[k])
  {
  }

  lemma {:induction false} BlockAt(front: seq<Cell>, block: seq<Cell>, x: nat, a: nat)
    requires x < |block| && a == |front| + x
    ensures (front + block)[a] == block[x]
  {
  }

  lemma {:induction false} FileCellsKeep(images: seq<Image>, k: nat, n: nat, a: nat)
    requires k < n == k + 1 <= |images| && !IsSection(images[k].name) && a < |FileCells(images, k)|
    ensures a < |FileCells(images, n)| && FileCells(images, n)[a] == FileCells(images, k)[a]
  {
    FileCellsGrow(images, k);
  }

  lemma {:induction false} FileCellsStart(images: seq<Image>, j: nat, x: nat, a: nat)
    requires j < |images| && !IsSection(images[j].name) && x < |images[j].words| && a == FileSize(images, j) + x
    ensures a < |FileCells(images, j + 1)| && FileCells(images, j + 1)[a] == View(images[j])[x]
  {
    FileCellsGrow(images, j);
    BlockAt(FileCells(images, j), View(images[j]), x, a);
  }

  ghost predicate CellIs(cells: seq<Cell>, a: nat, c: Cell) {
    a < |cells| && cells[a] == c
  }

  lemma {:induction false} CellStays(images: seq<Image>, k: nat, n: nat, a: nat, c: Cell)
    requires k < n == k + 1 <= |images| && NoSections(images) && CellIs(FileCells(images, k), a, c)
    ensures CellIs(FileCells(images, n), a, c)
  {
    assert IsFile(images, k);
    FileCellsKeep(images, k, n, a);
  }

  lemma {:induction false} FileCellsStay(images: seq<Image>, i: nat, k: nat, a: nat, c: Cell)
    requires i <= k <= |images| && NoSections(images) && a < |FileCells(images, i)| && FileCells(images, i)[a] == c
    ensures a < |FileCells(images, k)| && FileCells(images, k)[a] == c
  {
    for n := i to k
      invariant CellIs(FileCells(images, n), a, c)
    {
      CellStays(images, n, n + 1, a, c);
    }
  }

  /** Word `x` of bin `j` is at address `a` of the file bins. */
  lemma {:induction false} FileCellsAt(images: seq<Image>, j: nat, x: nat, a: nat)
    requires j < |images| && x < |images[j].words| && a == FileSize(images, j) + x && NoSections(images)
    ensures a < |FileCells(images, |images|)| && FileCells(images, |images|)[a] == View(images[j])[x]
  {
    assert IsFile(images, j);
    FileCellsStart(images, j, x, a);
    FileCellsStay(images, j + 1, |images|, a, View(images[j])[x]);
  }

  lemma {:induction false} FileIndexOf(images: seq<Image>, k: nat, j: nat, target: Name)
    requires j < k <= |images| && NamesApart(images, target) && !IsSection(images[j].name)
    ensures FileIndex(images, k, images[j].name) == Some(j)
  {
    if j < k - 1 { FileIndexOf(images, k - 1, j, target); }
  }

  lemma {:induction false} ObjectCellAt(names: seq<Name>, programs: seq<seq<Item>>, images: seq<Image>, j: nat, i: nat)
    requires j < |names| == |programs| == |images| && GoodAt(names, programs, images, j)
    requires i < |programs[j]| && IsWord(programs[j][i])
    ensures SizeTo(programs[j], i) < |images[j].words|
    ensures View(images[j])[SizeTo(programs[j], i)] == ItemCell(programs[j][i], ObjectEnv(programs[j], names[j]))
  {
    CodeCellsAt(programs[j], ObjectEnv(programs[j], names[j]), i);
  }

  /** Object `j` and its place in the flattened bin. */
  ghost predicate Placed(names: seq<Name>, programs: seq<seq<Item>>, images: seq<Image>, j: nat) {
    && j < |names| == |programs| == |images| && GoodAt(names, programs, images, j)
    && NoSections(images) && FileSize(images, j) == Sizes(programs, j)
  }

  lemma {:induction false} ObjectsArePlaced(names: seq<Name>, programs: seq<seq<Item>>, images: seq<Image>,
          target: Name, j: nat)
    requires NamesOk(names, target) && GoodObjects(names, programs, images) && j < |images|
    ensures Placed(names, programs, images, j)
  {
    ObjectNames(names, programs, images, target);
    FileSizes(names, programs, images, j);
  }

  /** The cell of a word of program `j` in the flattened bin. */
  lemma {:induction false} FlatCellAt(names: seq<Name>, programs: seq<seq<Item>>, images: seq<Image>, target: Name,
          cells: seq<Cell>, j: nat, i: nat, a: nat)
    requires Placed(names, programs, images, j) &&
             cells == FlatCells(images, |images|, target, FileCells(images, |images|))
    requires i < |programs[j]| && IsWord(programs[j][i]) && a == Sizes(programs, j) + SizeTo(programs[j], i)
    ensures a < |cells| && cells[a] == FlatCell(images, |images|, target,
                                                ItemCell(programs[j][i], ObjectEnv(programs[j], names[j])))
  {
    ObjectCellAt(names, programs, images, j, i);
    FileCellsAt(images, j, SizeTo(programs[j], i), a);
  }

  lemma {:induction false} WholeCellsGrow(programs: seq<seq<Item>>, k: nat, env: string -> Cell)
    requires k < |programs|
    ensures CodeCells(Whole(programs, k + 1), env) == CodeCells(Whole(programs, k), env) + CodeCells(programs[k], env)
    ensures |CodeCells(Whole(programs, k), env)| == Sizes(programs, k)
  {
    CodeCellsAppend(Whole(programs, k), Strip(programs[k]), env);
    CodeCellsStrip(programs[k], env);
    SizeOfWhole(programs, k);
    CodeCellsSize(Whole(programs, k), env);
  }

  /** Word `x` of program `j` is at address `a` of the whole. */
  lemma {:induction false} WholeCellsAt(programs: seq<seq<Item>>, env: string -> Cell, j: nat, i: nat, a: nat)
    requires j < |programs| && i < |programs[j]| && IsWord(programs[j][i]) &&
             a == Sizes(programs, j) + SizeTo(programs[j], i)
    ensures var code := CodeCells(Whole(programs, |programs|), env);
            a < |code| && code[a] == ItemCell(programs[j][i], env)
  {
    WholeCellsGrow(programs, j, env);
    CodeCellsAt(programs[j], env, i);
    BlockAt(CodeCells(Whole(programs, j), env), CodeCells(programs[j], env), SizeTo(programs[j], i), a);
    for n := j + 1 to |programs|
      invariant a < |CodeCells(Whole(programs, n), env)| &&
                CodeCells(Whole(programs, n), env)[a] == ItemCell(programs[j][i], env)
    {
      WholeCellsGrow(programs, n, env);
    }
  }

  // ----- Resolution -----

  /** A word that is not imported is already right in the flattened bin. */
  lemma {:induction false} OwnCell(programs: seq<seq<Item>>, images: seq<Image>, target: Name, j: nat, item: Item)
    requires OneHome(programs) && |images| == |programs| && NamesApart(images, target) && j < |programs|
    requires !IsSection(images[j].name) && FileSize(images, j) == Sizes(programs, j)
    requires IsWord(item) && !IsImported(programs[j], item) && (item.Value? ==> HasValue(programs[j], item.expr))
    ensures FlatCell(images, |images|, target, ItemCell(item, ObjectEnv(programs[j], images[j].name))) ==
            ItemCell(item, WholeEnv(programs, target))
  {
    if item.Value? && item.expr.Ref? {
      WholeLabel(programs, target, j, item.expr.name);
      FileIndexOf(images, |images|, j, target);
    }
  }

  lemma {:induction false} LocatePlace(programs: seq<seq<Item>>, k: nat, a: nat) returns (j: nat, i: nat)
    requires k <= |programs| && a < Sizes(programs, k)
    ensures j < k && i < |programs[j]| && IsWord(programs[j][i]) && a == Sizes(programs, j) + SizeTo(programs[j], i)
  {
    if a < Sizes(programs, k - 1) {
      j, i := LocatePlace(programs, k - 1, a);
    } else {
      j := k - 1;
      i := Locate(programs[j], |programs[j]|, a - Sizes(programs, j));
    }
  }

  lemma {:induction false} ImportIsRequired(items: seq<Item>, item: Item)
    requires Complete(items) && IsImported(items, item)
    ensures IsRequired(items, item)
  {
    var d := FindImport(items, item.expr.name, 0).value;
    var i :| 0 <= i < |items| && items[i] == d;
    assert IsPlain(items[i]);
  }

  /** The flattened bin at a word that is not imported. */
  lemma {:induction false} OwnFlat(names: seq<Name>, programs: seq<seq<Item>>, images: seq<Image>, target: Name,
          cells: seq<Cell>, j: nat, i: nat, a: nat)
    requires Placed(names, programs, images, j) &&
             cells == FlatCells(images, |images|, target, FileCells(images, |images|))
    requires OneHome(programs) && NamesApart(images, target) && images[j].name == names[j]
    requires i < |programs[j]| && IsWord(programs[j][i]) && a == Sizes(programs, j) + SizeTo(programs[j], i)
    requires !IsImported(programs[j], programs[j][i]) && Complete(programs[j])
    ensures a < |cells| && cells[a] == ItemCell(programs[j][i], WholeEnv(programs, target))
  {
    FlatCellAt(names, programs, images, target, cells, j, i, a);
    assert IsFile(images, j);
    OwnCell(programs, images, target, j, programs[j][i]);
  }

  /** The cells of the whole program. */
  ghost function WholeCells(programs: seq<seq<Item>>, target: Name): seq<Cell> {
    CodeCells(Whole(programs, |programs|), WholeEnv(programs, target))
  }

  /** Every provided label of that name is where the whole program has it. */
  lemma {:induction false} ExportedIsProvided(programs: seq<seq<Item>>, images: seq<Image>, target: Name, f: Image,
          n: string, x: Word)
    requires OneHome(programs) && Labelled(programs, images) && Flat(programs, images, target, f)
    requires Exported(programs, n) && WholeEnv(programs, target)(n) == Ptr(target, x)
    requires forall j :: 0 <= j < |programs| ==> ProgramOk(programs, j)
    ensures Provides(f, Some(n), x)
  {
    var j :| 0 <= j < |programs| && Export(n) in programs[j];
    var i :| 0 <= i < |programs[j]| && programs[j][i] == Export(n);
    assert ProgramOk(programs, j);
    var e := ProvidedHas(programs, images, j, i);
    var k :| 0 <= k < |f.provided| && f.provided[k] == e;
    forall k | 0 <= k < |f.provided| && f.provided[k].symbol == Some(n) ensures f.provided[k].address == x {
      var n' := ProvidedFrom(programs, images, target, f.provided[k]);
    }
  }

  /** An imported label denotes the place in the whole program that it is exported with. */
  lemma {:induction false} ImportDenotes(names: seq<Name>, programs: seq<seq<Item>>, target: Name, j: nat, i: nat)
    returns (x: Word)
    requires Separable(names, programs, target) && j < |programs| && i < |programs[j]|
    requires IsImported(programs[j], programs[j][i])
    ensures Exported(programs, programs[j][i].expr.name)
    ensures WholeEnv(programs, target)(programs[j][i].expr.name) == Ptr(target, x)
  {
    var n := programs[j][i].expr.name;
    var home := HomeOf(names, programs, target, j, i);
    WholeLabel(programs, target, home, n);
    assert ProgramOk(programs, j);
    x := Wrap(Sizes(programs, home) + LabelAddress(programs[home], 0, n).value);
  }

  /** The slot of a required label of the flattened bin. */
  lemma {:induction false} RequiredIsWanted(names: seq<Name>, programs: seq<seq<Item>>, images: seq<Image>,
          target: Name, f: Image, m: nat)
    requires Separable(names, programs, target) && GoodObjects(names, programs, images)
    requires Flat(programs, images, target, f) && m < |f.required| && |WholeCells(programs, target)| == |f.words|
    ensures Wanted(f, WholeCells(programs, target), f.required[m])
  {
    ObjectsAreLabelled(names, programs, images, target);
    var e := f.required[m];
    var j, i := RequiredFrom(programs, images, e);
    ObjectsArePlaced(names, programs, images, target, j);
    FlatCellAt(names, programs, images, target, View(f), j, i, e.address);
    WholeCellsAt(programs, WholeEnv(programs, target), j, i, e.address);
    var x := ImportDenotes(names, programs, target, j, i);
    ExportedIsProvided(programs, images, target, f, programs[j][i].expr.name, x);
  }

  lemma {:induction false} ImportIsSlot(programs: seq<seq<Item>>, images: seq<Image>, target: Name, f: Image, j: nat,
          i: nat)
    requires Labelled(programs, images) && Flat(programs, images, target, f)
    requires Sizes(programs, |programs|) <= WORD_COUNT && j < |programs| && i < |programs[j]| && Complete(programs[j])
    requires IsImported(programs[j], programs[j][i])
    ensures IsSlot(f.required, Sizes(programs, j) + SizeTo(programs[j], i))
  {
    ImportIsRequired(programs[j], programs[j][i]);
    var e := RequiredHas(programs, images, j, i);
    var k :| 0 <= k < |f.required| && f.required[k] == e;
  }

  /** The flattened bin at a word that is not required. */
  lemma {:induction false} FlatIsWhole(names: seq<Name>, programs: seq<seq<Item>>, images: seq<Image>, target: Name,
          f: Image, a: nat)
    requires Separable(names, programs, target) && GoodObjects(names, programs, images)
    requires Flat(programs, images, target, f) && a < |f.words| && !IsSlot(f.required, a)
    ensures a < |WholeCells(programs, target)| && View(f)[a] == WholeCells(programs, target)[a]
  {
    var j, i := LocatePlace(programs, |programs|, a);
    ObjectsAreLabelled(names, programs, images, target);
    ObjectsArePlaced(names, programs, images, target, j);
    ObjectNames(names, programs, images, target);
    assert ProgramOk(programs, j);
    if IsImported(programs[j], programs[j][i]) {
      ImportIsSlot(programs, images, target, f, j, i);
    }
    OwnFlat(names, programs, images, target, View(f), j, i, a);
    WholeCellsAt(programs, WholeEnv(programs, target), j, i, a);
  }

  /** The flattened objects are the whole program but for the required labels. */
  lemma {:induction false} FlatIsOpen(names: seq<Name>, programs: seq<seq<Item>>, images: seq<Image>, target: Name,
          f: Image)
    requires Separable(names, programs, target) && GoodObjects(names, programs, images)
    requires Flat(programs, images, target, f)
    ensures OpenRequired(f, WholeCells(programs, target))
  {
    var goal := WholeCells(programs, target);
    ObjectsAreLabelled(names, programs, images, target);
    RequiredDistinct(programs, images);
    CodeCellsSize(Whole(programs, |programs|), WholeEnv(programs, target));
    SizeOfWhole(programs, |programs|);
    forall m | 0 <= m < |f.required| ensures Wanted(f, goal, f.required[m]) {
      RequiredIsWanted(names, programs, images, target, f, m);
    }
    forall a | 0 <= a < |goal| && !IsSlot(f.required, a) ensures View(f)[a] == goal[a] {
      FlatIsWhole(names, programs, images, target, f, a);
    }
  }

  // ----- The whole program -----

  /** What the whole program needs of one of its words. */
  lemma {:induction false} WholeHasValue(names: seq<Name>, programs: seq<seq<Item>>, target: Name, j: nat, i: nat)
    requires Separable(names, programs, target) && j < |programs| && i < |programs[j]| && programs[j][i].Value?
    ensures HasValue(Whole(programs, |programs|), programs[j][i].expr)
  {
    var e := programs[j][i].expr;
    assert ProgramOk(programs, j) && HasValue(programs[j], e);
    if e.Ref? {
      var home := HomeOf(names, programs, target, j, i);
      UniqueIn(programs, home, e.name);
      WholeDefines(programs, |programs|, home, e.name);
    }
  }

  /** Every label that is mentioned is defined in some program. */
  lemma {:induction false} HomeOf(names: seq<Name>, programs: seq<seq<Item>>, target: Name, j: nat, i: nat)
    returns (home: nat)
    requires Separable(names, programs, target) && j < |programs| && i < |programs[j]|
    requires programs[j][i].Value? && programs[j][i].expr.Ref?
    ensures home < |programs| && Defines(programs[home], programs[j][i].expr.name)
  {
    var n := programs[j][i].expr.name;
    assert ProgramOk(programs, j) && HasValue(programs[j], programs[j][i].expr);
    if IsImported(programs[j], programs[j][i]) {
      home :| 0 <= home < |programs| && Export(n) in programs[home];
      var m :| 0 <= m < |programs[home]| && programs[home][m] == Export(n);
      assert ProgramOk(programs, home);
    } else {
      home := j;
    }
  }

  lemma {:induction false} WholeIsComplete(names: seq<Name>, programs: seq<seq<Item>>, target: Name)
    requires Separable(names, programs, target)
    ensures Complete(Whole(programs, |programs|)) && !HasImport(Whole(programs, |programs|))
    ensures forall i :: 0 <= i < |Whole(programs, |programs|)| ==> !Whole(programs, |programs|)[i].Export?
  {
    var w := Whole(programs, |programs|);
    NoImports(programs, |programs|, "");
    forall i | 0 <= i < |w| ensures IsPlain(w[i]) && !w[i].Export? && (w[i].Value? ==> HasValue(w, w[i].expr)) {
      var j := WholeItems(programs, |programs|, i);
      var m :| 0 <= m < |programs[j]| && programs[j][m] == w[i];
      assert ProgramOk(programs, j);
      if w[i].Value? { WholeHasValue(names, programs, target, j, m); }
    }
  }

  /** A complete program without imports and exports assembles, and its code is its cells. */
  lemma {:induction false} CodeAssembles(w: seq<Item>, target: Name)
    requires Complete(w) && !HasImport(w) && SizeTo(w, |w|) <= WORD_COUNT
    requires forall i :: 0 <= i < |w| ==> !w[i].Export?
    ensures Assembled(w, 0, false).Some? && WellFormed(ObjectOf(w, target, false))
    ensures View(ObjectOf(w, target, false)) == CodeCells(w, ObjectEnv(w, target))
  {
    PassSucceeds(w, 0, false, |w|);
    ObjectIsCode(w, target, false);
  }

  /** The whole program assembles, and its code is its cells. */
  lemma {:induction false} WholeAssembles(names: seq<Name>, programs: seq<seq<Item>>, target: Name)
    requires Separable(names, programs, target)
    ensures var w := Whole(programs, |programs|);
            && SizeTo(w, |w|) <= WORD_COUNT && Complete(w) && Assembled(w, 0, false).Some?
            && WellFormed(ObjectOf(w, target, false))
            && View(ObjectOf(w, target, false)) == CodeCells(w, WholeEnv(programs, target))
  {
    var w := Whole(programs, |programs|);
    WholeIsComplete(names, programs, target);
    SizeOfWhole(programs, |programs|);
    CodeAssembles(w, target);
  }

  /** Code with the same cells as an assembled program is, at any position, the program assembled there. */
  lemma {:induction false} PlacedIsAssembled(w: seq<Item>, target: Name, position: int)
    requires Complete(w) && SizeTo(w, |w|) <= WORD_COUNT && Assembled(w, 0, false).Some?
    ensures Assembled(w, Wrap(position), false).Some?
    ensures Offsetting.Placed(View(ObjectOf(w, target, false)), position) ==
            Assembled(w, Wrap(position), false).value.words
  {
    CompleteIsPortable(w);
    PositionIndependence.PortableIsSteady(w, 0, position);
    PositionIndependence.AssemblyMoves(w, 0, position, false);
    var o, o', cells := Assembled(w, 0, false).value, Assembled(w, Wrap(position), false).value,
        View(ObjectOf(w, target, false));
    forall a | 0 <= a < |cells| ensures Offsetting.Placed(cells, position)[a] == o'.words[a] {
      assert PositionIndependence.WordIsMoved(o, o', 0, position, a);
      AssociatedCell(ToImage(target, o), a);
      AddressesFit(w, a);
    }
  }

  lemma {:induction false} CompleteIsPortable(w: seq<Item>)
    requires Complete(w)
    ensures PositionIndependence.Portable(w)
  {
    forall i | 0 <= i < |w| && w[i].Value? ensures w[i].expr.Ref? || LabelFree(w[i].expr) {
      assert HasValue(w, w[i].expr);
    }
  }

  lemma {:induction false} AddressesFit(w: seq<Item>, a: nat)
    requires Assembled(w, 0, false).Some? && a < |Assembled(w, 0, false).value.words| && SizeTo(w, |w|) <= WORD_COUNT
    ensures Wrap(0 + a) == a
  {
    AssembledDescribed(w, 0, false);
  }

  /**
   Separate assembly is sound: each program assembles, the objects flatten and resolve without halting,
   and the linked words are exactly the words of all programs assembled as one. Moreover they have the
   same pointers, so that any sequence of `offset()` calls gives the whole program assembled at the last
   position.
   */
  lemma {:induction false} SeparateAssemblyIsSound(names: seq<Name>, programs: seq<seq<Item>>, target: Name,
          position: int) returns (images: seq<Image>)
    requires Separable(names, programs, target)
    ensures Objects(names, programs, images)
    ensures var whole := Whole(programs, |programs|);
            var flat := Linker.Flattened(Link(images, EmptyImage(target)));
            && flat.Some?
            && var linked := Resolved(flat.value, false, false, false);
               && linked.Some? && WellFormed(linked.value)
               && Assembled(whole, 0, false).Some? && linked.value.words == Assembled(whole, 0, false).value.words
               && Assembled(whole, Wrap(position), false).Some?
               && Offsetting.Placed(View(linked.value), position) == Assembled(whole, Wrap(position), false).value.words
  {
    images := ObjectsAreGood(names, programs, target);
    FlattenObjects(names, programs, images, target);
    var f := Linker.Flattened(Link(images, EmptyImage(target))).value;
    FlatIsOpen(names, programs, images, target, f);
    RequiredIsOpen(f, WholeCells(programs, target));
    ResolveOpen(f, WholeCells(programs, target));
    WholeAssembles(names, programs, target);
    var whole, r := Whole(programs, |programs|), Resolved(f, false, false, false).value;
    PlacedIsAssembled(whole, target, position);
    Offsetting.PlacedAtZero(r);
    Offsetting.PlacedAtZero(ObjectOf(whole, target, false));
  }
}
