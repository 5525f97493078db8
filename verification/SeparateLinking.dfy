/**
 The separate-assembly theorem: flattening and resolving the objects gives the cells of the whole program.
 */
module SeparateLinking {
  import opened Words
  import opened Expressions
  import opened BinImages
  import opened Flattening
  import opened FlattenMeaning
  import opened FileTables
  import opened Assembly
  import opened AssemblyMeaning
  import opened Programs
  import opened ObjectView
  import opened SeparateAssembly
  import opened Linker
  import FlattenTheorem

  // ----- Labels of the whole -----

  /** What labels denote in the whole program. */
  function WholeEnv(programs: seq<seq<Item>>, target: Name): string -> Cell {
    ObjectEnv(Whole(programs, |programs|), target)
  }

  lemma {:induction false} StripDrops(items: seq<Item>)
    ensures forall i :: 0 <= i < |Strip(items)| ==>
                          !IsImport(Strip(items)[i]) && !Strip(items)[i].Export? && Strip(items)[i] in items
  {
    if items != [] { StripDrops(items[..|items| - 1]); }
  }

  lemma {:induction false} WholeItems(programs: seq<seq<Item>>, k: nat, i: nat) returns (j: nat)
    requires k <= |programs| && i < |Whole(programs, k)|
    ensures !IsImport(Whole(programs, k)[i]) && !Whole(programs, k)[i].Export?
    ensures j < k && Whole(programs, k)[i] in programs[j]
  {
    var n := |Whole(programs, k - 1)|;
    if i < n {
      j := WholeItems(programs, k - 1, i);
    } else {
      j := k - 1;
      StripDrops(programs[j]);
    }
  }

  lemma {:induction false} NoImports(programs: seq<seq<Item>>, k: nat, name: string)
    requires k <= |programs|
    ensures FindImport(Whole(programs, k), name, 0).None? && !HasImport(Whole(programs, k))
  {
    var w := Whole(programs, k);
    forall i | 0 <= i < |w| ensures !IsImport(w[i]) {
      var j := WholeItems(programs, k, i);
    }
  }

  lemma {:induction false} UniqueIn(programs: seq<seq<Item>>, j: nat, name: string)
    requires OneHome(programs) && j < |programs| && Defines(programs[j], name)
    ensures OnlyIn(programs, j, name)
  {
    forall i | 0 <= i < |programs| && i != j ensures !Defines(programs[i], name) {
      assert !BothDefine(programs, i, j, name);
    }
  }

  /** A label of program `j` in the whole program. */
  lemma {:induction false} WholeLabel(programs: seq<seq<Item>>, target: Name, j: nat, name: string)
    requires OneHome(programs) && j < |programs| && Defines(programs[j], name)
    ensures LabelAddress(programs[j], 0, name).Some?
    ensures WholeEnv(programs, target)(name) ==
            Ptr(target, Wrap(Sizes(programs, j) + LabelAddress(programs[j], 0, name).value))
  {
    UniqueIn(programs, j, name);
    WholeAddress(programs, |programs|, j, name);
    NoImports(programs, |programs|, name);
  }

  // ----- The flattened bin -----

  /** The flattened bin of the objects. */
  ghost predicate Flat(programs: seq<seq<Item>>, images: seq<Image>, target: Name, f: Image) {
    && f.name == target && WellFormed(f) && |f.words| == Sizes(programs, |programs|)
    && View(f) == FlatCells(images, |images|, target, FileCells(images, |images|))
    && f.provided == FileTable(images, |images|, Provided) && f.required == FileTable(images, |images|, Required)
    && f.jump == [] && f.optional == [] && f.call == [] && f.output == []
    && Below(f.provided, |f.words|) && Below(f.required, |f.words|)
  }

  lemma {:induction false} EmptyTables(names: seq<Name>, programs: seq<seq<Item>>, images: seq<Image>, target: Name)
    requires NamesOk(names, target) && GoodObjects(names, programs, images)
    ensures FileTable(images, |images|, Jump) == [] && FileTable(images, |images|, Optional) == []
    ensures FileTable(images, |images|, Call) == [] && FileTable(images, |images|, Output) == []
    ensures FlattenTheorem.OutputsInside(images)
  {
    ObjectNames(names, programs, images, target);
    forall j | 0 <= j < |images|
      ensures images[j].jump == [] && images[j].optional == [] && images[j].output == [] && images[j].call == []
    {
      assert GoodAt(names, programs, images, j);
    }
    EmptyTable(images, Jump);
    EmptyTable(images, Optional);
    EmptyTable(images, Call);
    EmptyTable(images, Output);
  }

  lemma {:induction false} EmptyTable(images: seq<Image>, t: Table)
    requires NoSections(images) && forall j :: 0 <= j < |images| ==> TableOf(images[j], t) == []
    ensures FileTable(images, |images|, t) == []
  {
    var tables, bases := FlatTable(images, t);
    JoinedEmpty(tables, bases, |images|);
  }

  lemma {:induction false} FlattenObjects(names: seq<Name>, programs: seq<seq<Item>>, images: seq<Image>, target: Name)
    requires Separable(names, programs, target) && GoodObjects(names, programs, images)
    ensures var f := Flattened(Link(images, EmptyImage(target)));
            f.Some? && Flat(programs, images, target, f.value)
  {
    ObjectsAreLinkable(names, programs, images, target);
    ObjectNames(names, programs, images, target);
    EmptyTables(names, programs, images, target);
    FileSizes(names, programs, images, |images|);
    FlattenTheorem.FlatteningConcatenates(images, target);
    var f := Flattened(Link(images, EmptyImage(target))).value;
    TablesOfFlat(images, f);
    FileTableInside(images, |images|, Provided);
    FileTableInside(images, |images|, Required);
  }

  lemma {:induction false} TablesOfFlat(images: seq<Image>, f: Image)
    requires forall t :: t != Output ==> TableOf(f, t) == FileTable(images, |images|, t)
    ensures f.provided == FileTable(images, |images|, Provided) && f.required == FileTable(images, |images|, Required)
    ensures f.jump == FileTable(images, |images|, Jump) && f.optional == FileTable(images, |images|, Optional)
    ensures f.call == FileTable(images, |images|, Call)
  {
    assert TableOf(f, Call) == f.call;
    assert TableOf(f, Provided) == f.provided && TableOf(f, Required) == f.required;
    assert TableOf(f, Jump) == f.jump && TableOf(f, Optional) == f.optional;
  }

  /** The provided and required tables of object `j`. */
  ghost predicate LabelledAt(programs: seq<seq<Item>>, images: seq<Image>, j: nat)
    requires j < |programs| == |images|
  {
    && images[j].provided == Exports(programs[j], 0, |programs[j]|)
    && images[j].required == Requirements(programs[j], 0, |programs[j]|)
    && |images[j].words| == SizeTo(programs[j], |programs[j]|)
  }

  ghost predicate Labelled(programs: seq<seq<Item>>, images: seq<Image>) {
    && |programs| == |images| && NoSections(images)
    && forall j :: 0 <= j < |images| ==> LabelledAt(programs, images, j)
  }

  lemma {:induction false} ObjectsAreLabelled(names: seq<Name>, programs: seq<seq<Item>>, images: seq<Image>,
          target: Name)
    requires NamesOk(names, target) && GoodObjects(names, programs, images)
    ensures Labelled(programs, images)
  {
    ObjectNames(names, programs, images, target);
    forall j | 0 <= j < |images| ensures LabelledAt(programs, images, j) {
      assert GoodAt(names, programs, images, j);
    }
  }

  lemma {:induction false} LabelledSizes(programs: seq<seq<Item>>, images: seq<Image>, k: nat)
    requires Labelled(programs, images) && k <= |programs|
    ensures FileSize(images, k) == Sizes(programs, k)
  {
    if k > 0 {
      LabelledSizes(programs, images, k - 1);
      assert LabelledAt(programs, images, k - 1) && IsFile(images, k - 1);
    }
  }

  lemma {:induction false} ExportedBy(programs: seq<seq<Item>>, images: seq<Image>, j: nat, e: Entry)
    returns (n: string)
    requires Labelled(programs, images) && j < |images| && e in images[j].provided
    ensures Defines(programs[j], n) && e.symbol == Some(n) && LabelAddress(programs[j], 0, n) == Some(e.address)
  {
    assert LabelledAt(programs, images, j);
    n := ExportMember(programs[j], e);
  }

  lemma {:induction false} WholeLabelAt(programs: seq<seq<Item>>, target: Name, j: nat, n: string, base: nat, a: Word)
    requires OneHome(programs) && j < |programs| && Defines(programs[j], n) &&
             LabelAddress(programs[j], 0, n) == Some(a)
    requires base == Sizes(programs, j)
    ensures WholeEnv(programs, target)(n) == Ptr(target, Wrap(base + a))
  {
    WholeLabel(programs, target, j, n);
  }

  lemma {:induction false} BaseOf(programs: seq<seq<Item>>, images: seq<Image>, j: nat, base: nat)
    requires Labelled(programs, images) && j < |programs| && base == FileSize(images, j)
    ensures base == Sizes(programs, j)
  {
    LabelledSizes(programs, images, j);
  }

  lemma {:induction false} ProvidedAt(programs: seq<seq<Item>>, images: seq<Image>, target: Name, j: nat, e: Entry,
          base: nat) returns (n: string)
    requires OneHome(programs) && Labelled(programs, images) && j < |images| && e in images[j].provided &&
             base == FileSize(images, j)
    ensures e.symbol == Some(n) && WholeEnv(programs, target)(n) == Ptr(target, Wrap(base + e.address))
  {
    n := ExportedBy(programs, images, j, e);
    BaseOf(programs, images, j, base);
    WholeLabelAt(programs, target, j, n, base, e.address);
  }

  /** Every provided label is where the whole program has it. */
  lemma {:induction false} ProvidedFrom(programs: seq<seq<Item>>, images: seq<Image>, target: Name, e: Entry)
    returns (n: string)
    requires OneHome(programs) && Labelled(programs, images) && e in FileTable(images, |images|, Provided)
    ensures e.symbol == Some(n) && WholeEnv(programs, target)(n) == Ptr(target, e.address)
  {
    var j, e', base := FlatFrom(images, Provided, e);
    n := ProvidedAt(programs, images, target, j, e', base);
  }

  lemma {:induction false} ProvidedHas(programs: seq<seq<Item>>, images: seq<Image>, j: nat, i: nat) returns (e: Entry)
    requires Labelled(programs, images) && j < |programs| && i < |programs[j]| && programs[j][i].Export?
    requires Defines(programs[j], programs[j][i].name)
    ensures e in FileTable(images, |images|, Provided) && e.symbol == Some(programs[j][i].name)
  {
    ExportAt(programs[j], |programs[j]|, i);
    var e' := Entry(Some(programs[j][i].name), "", LabelAddress(programs[j], 0, programs[j][i].name).value);
    assert LabelledAt(programs, images, j);
    assert e' in TableOf(images[j], Provided);
    var base;
    e, base := FlatHas(images, Provided, j, e');
  }

  lemma {:induction false} AddressFits(programs: seq<seq<Item>>, j: nat, i: nat)
    requires j < |programs| && i < |programs[j]| && IsWord(programs[j][i]) && Sizes(programs, |programs|) <= WORD_COUNT
    ensures Sizes(programs, j) + SizeTo(programs[j], i) < Sizes(programs, |programs|)
    ensures Wrap(Sizes(programs, j) + Wrap(SizeTo(programs[j], i))) == Sizes(programs, j) + SizeTo(programs[j], i)
  {
    SizesMonotone(programs, j, |programs|);
    SizeMonotone(programs[j], i, |programs[j]|);
  }

  lemma {:induction false} RequiredBy(programs: seq<seq<Item>>, images: seq<Image>, j: nat, e: Entry) returns (i: nat)
    requires Labelled(programs, images) && j < |images| && e in images[j].required
    ensures i < |programs[j]| && IsRequired(programs[j], programs[j][i])
    ensures e.symbol == Some(programs[j][i].expr.name) && e.address == Wrap(SizeTo(programs[j], i))
  {
    assert LabelledAt(programs, images, j);
    i := RequirementMember(programs[j], e);
  }

  /** Every required slot is an imported label of one program. */
  lemma {:induction false} RequiredFrom(programs: seq<seq<Item>>, images: seq<Image>, e: Entry) returns (j: nat, i: nat)
    requires Labelled(programs, images) && Sizes(programs, |programs|) <= WORD_COUNT &&
             e in FileTable(images, |images|, Required)
    ensures j < |programs| && i < |programs[j]| && IsRequired(programs[j], programs[j][i])
    ensures e.symbol == Some(programs[j][i].expr.name) && e.address == Sizes(programs, j) + SizeTo(programs[j], i)
  {
    var e', base;
    j, e', base := FlatFrom(images, Required, e);
    i := RequiredBy(programs, images, j, e');
    LabelledSizes(programs, images, j);
    AddressFits(programs, j, i);
  }

  lemma {:induction false} RequiredHas(programs: seq<seq<Item>>, images: seq<Image>, j: nat, i: nat) returns (e: Entry)
    requires Labelled(programs, images) && Sizes(programs, |programs|) <= WORD_COUNT
    requires j < |programs| && i < |programs[j]| && IsRequired(programs[j], programs[j][i])
    ensures e in FileTable(images, |images|, Required)
    ensures e.symbol == Some(programs[j][i].expr.name) && e.address == Sizes(programs, j) + SizeTo(programs[j], i)
  {
    RequirementAt(programs[j], |programs[j]|, i);
    var e' := At(Some(programs[j][i].expr.name), SizeTo(programs[j], i));
    assert LabelledAt(programs, images, j);
    assert e' in TableOf(images[j], Required);
    var base;
    e, base := FlatHas(images, Required, j, e');
    LabelledSizes(programs, images, j);
    AddressFits(programs, j, i);
  }

  /** The required slots of one object are distinct and lie in its stretch of the flattened bin. */
  lemma {:induction false} RequiredStretch(programs: seq<seq<Item>>, images: seq<Image>, tables: seq<seq<Entry>>,
          bases: seq<nat>, i: nat)
    requires Labelled(programs, images) && Sizes(programs, |programs|) <= WORD_COUNT && i < |images|
    requires TablesOf(images, Required, tables, bases)
    ensures Distinct(tables[i]) && bases[i] <= Edge(bases, Sizes(programs, |programs|), i + 1) <= Sizes(programs,
            |programs|)
    ensures forall e: Entry :: e in tables[i] ==> bases[i] + e.address < Edge(bases, Sizes(programs, |programs|), i + 1)
  {
    assert LabelledAt(programs, images, i) && TableOf(images[i], Required) == images[i].required;
    LabelledSizes(programs, images, i);
    LabelledSizes(programs, images, i + 1);
    SizesMonotone(programs, i, |programs|);
    SizesMonotone(programs, i + 1, |programs|);
    RequirementsDistinct(programs[i], |programs[i]|);
    assert i + 1 < |images| ==> tables[i + 1] == tables[i + 1] && bases[i + 1] == FileSize(images, i + 1);
  }

  lemma {:induction false} RequiredDistinct(programs: seq<seq<Item>>, images: seq<Image>)
    requires Labelled(programs, images) && Sizes(programs, |programs|) <= WORD_COUNT
    ensures Distinct(FileTable(images, |images|, Required))
  {
    var tables, bases := FlatTable(images, Required);
    var limit := Sizes(programs, |programs|);
    forall i | 0 <= i < |tables| ensures InStretch(tables[i], bases[i], Edge(bases, limit, i + 1), limit) {
      RequiredStretch(programs, images, tables, bases, i);
    }
    JoinedDistinct(tables, bases, |images|, limit);
  }
}
