/**
 Separate assembly: the objects of several programs, associated, flattened and resolved, are the code of
 the programs assembled as one.
 */
module SeparateAssembly {
  import opened Words
  import opened Expressions
  import opened BinImages
  import opened Flattening
  import opened FlattenMeaning
  import opened Assembly
  import opened AssemblyMeaning
  import opened Programs
  import opened ObjectView
  import PositionIndependence

  /** Every label is followed by a word of its own object. */
  ghost predicate Followed(items: seq<Item>) {
    forall i :: 0 <= i < |items| && items[i].Definition? ==> SizeTo(items, i) < SizeTo(items, |items|)
  }

  ghost predicate Exported(programs: seq<seq<Item>>, name: string) {
    exists j :: 0 <= j < |programs| && Export(name) in programs[j]
  }

  /** Program `j` is complete, its labels are followed by words, and what it imports some program exports. */
  ghost predicate ProgramOk(programs: seq<seq<Item>>, j: nat)
    requires j < |programs|
  {
    && Complete(programs[j]) && Followed(programs[j])
    && forall i :: 0 <= i < |programs[j]| && IsImported(programs[j], programs[j][i]) ==>
                     Exported(programs, programs[j][i].expr.name)
  }

  ghost predicate BothDefine(programs: seq<seq<Item>>, i: nat, j: nat, name: string) {
    i < |programs| && j < |programs| && Defines(programs[i], name) && Defines(programs[j], name)
  }

  /** Every label belongs to one program. */
  ghost predicate OneHome(programs: seq<seq<Item>>) {
    forall i, j, n :: BothDefine(programs, i, j, n) ==> i == j
  }

  ghost predicate NamesOk(names: seq<Name>, target: Name) {
    && (forall i, j :: 0 <= i < j < |names| ==> names[i] != names[j])
    && (forall i :: 0 <= i < |names| ==> names[i] != target && !IsSection(names[i]))
  }

  /** Programs that can be linked. */
  ghost predicate Separable(names: seq<Name>, programs: seq<seq<Item>>, target: Name) {
    && |names| == |programs| && NamesOk(names, target) && OneHome(programs) && Sizes(programs, |programs|) <= WORD_COUNT
    && forall j :: 0 <= j < |programs| ==> ProgramOk(programs, j)
  }

  /** The objects of the programs. */
  ghost predicate Objects(names: seq<Name>, programs: seq<seq<Item>>, images: seq<Image>) {
    && |names| == |programs| == |images|
    && forall j :: 0 <= j < |programs| ==>
                     Assembled(programs[j], 0, true).Some? && images[j] == ObjectOf(programs[j], names[j], true)
  }

  // ----- Label addresses -----

  lemma {:induction false} SearchAt(items: seq<Item>, name: string, k: nat, mem: Word) returns (i: nat)
    requires k <= |items| && Search(items, name, k, mem).Some?
    ensures k <= i < |items| && items[i] == Definition(name)
    ensures Search(items, name, k, mem).value == Wrap(mem + SizeTo(items, i) - SizeTo(items, k))
    decreases |items| - k
  {
    if items[k] == Definition(name) {
      i := k;
    } else {
      i := SearchAt(items, name, k + 1, if IsWord(items[k]) then Wrap(mem + 1) else mem);
      PositionIndependence.WrapSum(mem + 1, SizeTo(items, i) - SizeTo(items, k + 1));
    }
  }

  lemma {:induction false} AddressInside(items: seq<Item>, name: string)
    requires Followed(items) && Defines(items, name) && SizeTo(items, |items|) <= WORD_COUNT
    ensures LabelAddress(items, 0, name).Some? && LabelAddress(items, 0, name).value < SizeTo(items, |items|)
  {
    AddressExists(items, 0, name);
    var i := SearchAt(items, name, 0, 0);
  }

  // ----- The tables of an object -----

  lemma {:induction false} RequirementFrom(items: seq<Item>, k: nat, m: nat) returns (i: nat)
    requires k <= |items| && m < |Requirements(items, 0, k)|
    ensures i < k && IsRequired(items, items[i])
    ensures Requirements(items, 0, k)[m] == At(Some(items[i].expr.name), SizeTo(items, i))
  {
    var own := RequirementOf(items, items[k - 1], SizeTo(items, k - 1));
    if m < |own| {
      i := k - 1;
    } else {
      i := RequirementFrom(items, k - 1, m - |own|);
    }
  }

  lemma {:induction false} RequirementAt(items: seq<Item>, k: nat, i: nat)
    requires i < k <= |items| && IsRequired(items, items[i])
    ensures At(Some(items[i].expr.name), SizeTo(items, i)) in Requirements(items, 0, k)
  {
    if i < k - 1 { RequirementAt(items, k - 1, i); }
  }

  lemma {:induction false} RequirementsDistinct(items: seq<Item>, k: nat)
    requires k <= |items| && SizeTo(items, |items|) <= WORD_COUNT
    ensures Distinct(Requirements(items, 0, k))
    ensures forall e :: e in Requirements(items, 0, k) ==> e.address < SizeTo(items, k)
  {
    if k > 0 {
      RequirementsDistinct(items, k - 1);
      SizeMonotone(items, k - 1, |items|);
      SizeMonotone(items, k, |items|);
    }
  }

  lemma {:induction false} ExportFrom(items: seq<Item>, k: nat, m: nat) returns (n: string)
    requires k <= |items| && m < |Exports(items, 0, k)|
    ensures Defines(items, n) && LabelAddress(items, 0, n).Some?
    ensures Exports(items, 0, k)[m] == Entry(Some(n), "", LabelAddress(items, 0, n).value)
  {
    var own := ExportOf(items, 0, items[k - 1]);
    if m < |own| {
      n := items[k - 1].name;
      AddressExists(items, 0, n);
    } else {
      n := ExportFrom(items, k - 1, m - |own|);
    }
  }

  lemma {:induction false} ExportMember(items: seq<Item>, e: Entry) returns (n: string)
    requires e in Exports(items, 0, |items|)
    ensures Defines(items, n) && LabelAddress(items, 0, n).Some? &&
            e == Entry(Some(n), "", LabelAddress(items, 0, n).value)
  {
    var m :| 0 <= m < |Exports(items, 0, |items|)| && Exports(items, 0, |items|)[m] == e;
    n := ExportFrom(items, |items|, m);
  }

  lemma {:induction false} RequirementMember(items: seq<Item>, e: Entry) returns (i: nat)
    requires e in Requirements(items, 0, |items|)
    ensures i < |items| && IsRequired(items, items[i]) && e == At(Some(items[i].expr.name), SizeTo(items, i))
  {
    var m :| 0 <= m < |Requirements(items, 0, |items|)| && Requirements(items, 0, |items|)[m] == e;
    i := RequirementFrom(items, |items|, m);
  }

  lemma {:induction false} ExportAt(items: seq<Item>, k: nat, i: nat)
    requires i < k <= |items| && items[i].Export? && Defines(items, items[i].name)
    ensures LabelAddress(items, 0, items[i].name).Some?
    ensures Entry(Some(items[i].name), "", LabelAddress(items, 0, items[i].name).value) in Exports(items, 0, k)
  {
    AddressExists(items, 0, items[i].name);
    if i < k - 1 { ExportAt(items, k - 1, i); }
  }

  /** Everything the linker relies on in an object. */
  ghost predicate GoodObject(items: seq<Item>, name: Name, img: Image) {
    && img.name == name && WellFormed(img) && |img.words| == SizeTo(items, |items|)
    && View(img) == CodeCells(items, ObjectEnv(items, name))
    && img.provided == Exports(items, 0, |items|) && img.required == Requirements(items, 0, |items|)
    && img.output == [] && img.jump == [] && img.optional == [] && img.call == []
  }

  lemma {:induction false} ObjectIsGood(items: seq<Item>, name: Name)
    requires Complete(items) && SizeTo(items, |items|) <= WORD_COUNT
    ensures Assembled(items, 0, true).Some? && GoodObject(items, name, ObjectOf(items, name, true))
  {
    PassSucceeds(items, 0, true, |items|);
    AssembledDescribed(items, 0, true);
    ObjectIsCode(items, name, true);
  }

  lemma {:induction false} LabelsInside(items: seq<Item>, name: Name, img: Image, t: Table, e: Entry)
    requires GoodObject(items, name, img) && Followed(items) && SizeTo(items, |items|) <= WORD_COUNT &&
             e in TableOf(img, t)
    ensures e.address < |img.words|
  {
    if t == Provided {
      var m :| 0 <= m < |img.provided| && img.provided[m] == e;
      var n := ExportFrom(items, |items|, m);
      AddressInside(items, n);
    }
    if t == Required { RequirementsDistinct(items, |items|); }
  }

  /** Pointers of an object stay inside it. */
  lemma {:induction false} PointersInside(items: seq<Item>, name: Name, img: Image, a: nat)
    requires GoodObject(items, name, img) && Complete(items) && Followed(items) && SizeTo(items, |items|) <= WORD_COUNT
    requires a < |img.words| && View(img)[a].Ptr?
    ensures View(img)[a].bin == name && View(img)[a].address < |img.words|
  {
    var i := Locate(items, |items|, a);
    CodeCellsAt(items, ObjectEnv(items, name), i);
    AddressExists(items, 0, items[i].expr.name);
    AddressInside(items, items[i].expr.name);
  }

  lemma {:induction false} SizesMonotone(programs: seq<seq<Item>>, i: nat, k: nat)
    requires i <= k <= |programs|
    ensures Sizes(programs, i) <= Sizes(programs, k)
    ensures i < k ==> Sizes(programs, i) + SizeTo(programs[i], |programs[i]|) <= Sizes(programs, k)
  {
    if i < k { SizesMonotone(programs, i, k - 1); }
  }

  ghost predicate GoodAt(names: seq<Name>, programs: seq<seq<Item>>, images: seq<Image>, j: nat)
    requires j < |names| == |programs| == |images|
  {
    GoodObject(programs[j], names[j], images[j])
  }

  /** The objects of separable programs. */
  ghost predicate GoodObjects(names: seq<Name>, programs: seq<seq<Item>>, images: seq<Image>) {
    && |names| == |programs| == |images|
    && forall j :: 0 <= j < |programs| ==> GoodAt(names, programs, images, j)
  }

  lemma {:induction false} ObjectsAreGood(names: seq<Name>, programs: seq<seq<Item>>, target: Name)
    returns (images: seq<Image>)
    requires Separable(names, programs, target)
    ensures Objects(names, programs, images) && GoodObjects(names, programs, images)
  {
    forall j | 0 <= j < |programs|
      ensures Assembled(programs[j], 0, true).Some? &&
              GoodObject(programs[j], names[j], ObjectOf(programs[j], names[j], true))
    {
      assert ProgramOk(programs, j);
      SizesMonotone(programs, j, |programs|);
      ObjectIsGood(programs[j], names[j]);
    }
    images := seq(|programs|, j requires 0 <= j < |programs| && Assembled(programs[j], 0, true).Some? =>
                                ObjectOf(programs[j], names[j], true));
  }

  lemma {:induction false} FileSizes(names: seq<Name>, programs: seq<seq<Item>>, images: seq<Image>, k: nat)
    requires GoodObjects(names, programs, images) && k <= |programs|
    requires forall i :: 0 <= i < |names| ==> !IsSection(names[i])
    ensures FileSize(images, k) == Sizes(programs, k)
  {
    if k > 0 {
      FileSizes(names, programs, images, k - 1);
      assert GoodAt(names, programs, images, k - 1);
    }
  }

  lemma {:induction false} ObjectPoints(names: seq<Name>, programs: seq<seq<Item>>, images: seq<Image>, j: nat)
    requires j < |names| == |programs| == |images| && GoodAt(names, programs, images, j) && ProgramOk(programs, j)
    requires SizeTo(programs[j], |programs[j]|) <= WORD_COUNT
    ensures PointsInside(images, View(images[j])) && WellFormed(images[j])
  {
    forall a | 0 <= a < |View(images[j])| && View(images[j])[a].Ptr?
      ensures Place(images, View(images[j])[a].bin, View(images[j])[a].address)
    {
      PointersInside(programs[j], names[j], images[j], a);
    }
  }

  lemma {:induction false} ObjectLabels(names: seq<Name>, programs: seq<seq<Item>>, images: seq<Image>, j: nat)
    requires j < |names| == |programs| == |images| && GoodAt(names, programs, images, j) && ProgramOk(programs, j)
    requires SizeTo(programs[j], |programs[j]|) <= WORD_COUNT
    ensures forall t, e :: e in TableOf(images[j], t) ==> e.address < |images[j].words|
  {
    forall t, e | e in TableOf(images[j], t) ensures e.address < |images[j].words| {
      LabelsInside(programs[j], names[j], images[j], t, e);
    }
  }

  lemma {:induction false} ObjectNames(names: seq<Name>, programs: seq<seq<Item>>, images: seq<Image>, target: Name)
    requires NamesOk(names, target) && GoodObjects(names, programs, images)
    ensures NamesApart(images, target) && forall j :: 0 <= j < |images| ==> images[j].name == names[j]
  {
    forall j | 0 <= j < |images| ensures images[j].name == names[j] {
      assert GoodAt(names, programs, images, j);
    }
  }

  lemma {:induction false} ObjectsAreLinkable(names: seq<Name>, programs: seq<seq<Item>>, images: seq<Image>,
          target: Name)
    requires Separable(names, programs, target) && GoodObjects(names, programs, images)
    ensures Linkable(images, target)
  {
    FileSizes(names, programs, images, |images|);
    ObjectNames(names, programs, images, target);
    forall i | 0 <= i < |images|
      ensures WellFormed(images[i]) && PointsInside(images, View(images[i]))
      ensures forall t, e :: e in TableOf(images[i], t) ==> e.address < |images[i].words|
    {
      assert ProgramOk(programs, i) && GoodAt(names, programs, images, i);
      SizesMonotone(programs, i, |programs|);
      ObjectPoints(names, programs, images, i);
      ObjectLabels(names, programs, images, i);
    }
  }

  lemma {:induction false} ObjectsAreDetermined(names: seq<Name>, programs: seq<seq<Item>>, images: seq<Image>,
          others: seq<Image>)
    requires Objects(names, programs, images) && Objects(names, programs, others)
    ensures images == others
  {
    forall j | 0 <= j < |images| ensures images[j] == others[j] {
    }
  }
}
