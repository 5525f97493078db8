/**
 The passes of the linker (dtld/main.c) on the objects of several programs, in place.
 */
module ProgramLinker {
  import opened Words
  import opened BinImages
  import opened Bins
  import opened Flattening
  import opened FlattenMeaning
  import opened Linker
  import opened Assembly
  import opened Programs
  import opened ObjectView
  import opened SeparateAssembly
  import opened SeparateLinking
  import opened LinkedLines
  import opened CompressedTheorem
  import SeparateTheorem
  import Compression
  import Compressor
  import Resolving
  import Resolver
  import Offsetting

  /** The linker's list holds the object files of the programs, as they were loaded. */
  ghost predicate Loaded(bins: seq<Bin>, names: seq<Name>, programs: seq<seq<Item>>)
    reads set b | b in bins
  {
    && |bins| == |names| == |programs| && Different(bins)
    && forall j :: 0 <= j < |bins| ==>
                     Assembled(programs[j], 0, true).Some? &&
                     bins[j].Value() == ToImage(names[j], Assembled(programs[j], 0, true).value)
  }

  lemma {:induction false} FlattenIsReady(images: seq<Image>, target: Name)
    requires Linkable(images, target) && Flattened(Link(images, EmptyImage(target))).Some?
    ensures FlattenFits(Link(images, EmptyImage(target)))
  {
    LinkableIsSound(images, target);
  }

  /** The flattened bin before resolution, with its short literals folded or not. */
  function Prepared(flat: Image, short: bool): Option<Image> {
    if !short then Some(flat)
    else match Compression.Compressed(flat, 0, 0)
         case None => None
         case Some((c, _)) => Some(c)
  }

  /** The assembler makes these words of the items at that position. */
  ghost predicate AssemblesTo(items: seq<Item>, position: int, words: seq<Word>) {
    var o := Assembled(items, Wrap(position), false);
    o.Some? && o.value.words == words
  }

  /** What the linker makes of the objects. */
  ghost predicate Links(images: seq<Image>, target: Name, short: bool, linked: Image) {
    && FlattenFits(Link(images, EmptyImage(target))) && Flattened(Link(images, EmptyImage(target))).Some?
    && var prepared := Prepared(Flattened(Link(images, EmptyImage(target))).value, short);
    && prepared.Some? && Resolving.Resolved(prepared.value, false, false, false) == Some(linked) && WellFormed(linked)
  }

  lemma {:induction false} ObjectsFlatten(names: seq<Name>, programs: seq<seq<Item>>, target: Name, images: seq<Image>)
    requires Separable(names, programs, target) && Objects(names, programs, images)
    requires Flattened(Link(images, EmptyImage(target))).Some?
    ensures FlattenFits(Link(images, EmptyImage(target)))
  {
    var good := ObjectsAreGood(names, programs, target);
    ObjectsAreDetermined(names, programs, images, good);
    ObjectsAreLinkable(names, programs, images, target);
    FlattenIsReady(images, target);
  }

  lemma {:induction false} ObjectsLink(names: seq<Name>, programs: seq<seq<Item>>, target: Name, position: int,
          images: seq<Image>)
    returns (linked: Image)
    requires Separable(names, programs, target) && Objects(names, programs, images)
    ensures Links(images, target, false, linked)
    ensures AssemblesTo(Whole(programs, |programs|), position, Offsetting.Placed(View(linked), position))
  {
    var others := SeparateTheorem.SeparateAssemblyIsSound(names, programs, target, position);
    ObjectsAreDetermined(names, programs, images, others);
    ObjectsFlatten(names, programs, target, images);
    linked := Resolving.Resolved(Flattened(Link(images, EmptyImage(target))).value, false, false, false).value;
  }

  lemma {:induction false} ObjectsLinkShort(names: seq<Name>, programs: seq<Program>, target: Name, position: int,
          images: seq<Image>)
    returns (linked: Image)
    requires Separable(names, Sources(programs), target) && ArePrograms(programs)
    requires Objects(names, Sources(programs), images) && AreCompressible(names, programs, target)
    ensures Links(images, target, true, linked)
    ensures AssemblesTo(ShortWhole(programs), position, Offsetting.Placed(View(linked), position))
  {
    assert FlatIsCompressible(programs, images, target);
    CompressedAssemblyIsSound(names, programs, target, images, position);
    ObjectsFlatten(names, Sources(programs), target, images);
    var c := Compression.Compressed(Flattened(Link(images, EmptyImage(target))).value, 0, 0).value.0;
    linked := Resolving.Resolved(c, false, false, false).value;
  }

  /** The passes from flattening to resolution; the short literals are folded unless that is turned off. */
  method RunPasses(linker: LinkerState, target: Name, short: bool, ghost images: seq<Image>, ghost linked: Image)
    returns (bin: Bin)
    requires Different(linker.bins) && Values(linker.bins) == images && Links(images, target, short, linked)
    modifies linker, set b | b in linker.bins
    ensures linker.bins == [bin] && fresh(bin) && bin.Value() == linked
  {
    var ok := linker.Flatten(target);
    bin := linker.bins[0];
    if short {
      var saved;
      ok, saved := Compressor.Compress(bin);
    }
    ok := Resolver.Resolve(bin, false, false, false);
  }

  lemma {:induction false} ObjectsListed(bins: seq<Bin>, names: seq<Name>, programs: seq<seq<Item>>)
    requires |bins| == |names| == |programs|
    requires forall j :: 0 <= j < |bins| ==>
                           Assembled(programs[j], 0, true).Some? &&
                               bins[j].Value() == ObjectOf(programs[j], names[j], true)
    ensures Objects(names, programs, Values(bins))
  {
  }

  method AssociateObjects(linker: LinkerState, ghost names: seq<Name>, ghost programs: seq<seq<Item>>)
    requires Loaded(linker.bins, names, programs)
    modifies set b | b in linker.bins
    ensures linker.bins == old(linker.bins) && Objects(names, programs, Values(linker.bins))
  {
    linker.Associate();
    forall j | 0 <= j < |linker.bins| ensures linker.bins[j].Value() == ObjectOf(programs[j], names[j], true) {
      assert linker.bins[j] in linker.bins;
    }
    ObjectsListed(linker.bins, names, programs);
  }

  function LastOf(positions: seq<int>): int {
    if positions == [] then 0 else positions[|positions| - 1]
  }

  /** The calls of `offset()` on the linked bin. */
  method MoveTo(bin: Bin, positions: seq<int>)
    requires WellFormed(bin.Value())
    modifies bin`words
    ensures bin.words == Offsetting.Placed(View(old(bin.Value())), LastOf(positions))
  {
    var policy := new Offsetting.Policy(bin);
    policy.OffsetAll(positions);
  }

  /**
   Association, flattening, resolution and any number of moves turn the objects of separately assembled
   programs into the code of all programs assembled as one at the last position.
   */
  method LinkPrograms(linker: LinkerState, target: Name, positions: seq<int>, ghost names: seq<Name>,
          ghost programs: seq<seq<Item>>)
    requires Separable(names, programs, target) && Loaded(linker.bins, names, programs)
    modifies linker, set b | b in linker.bins
    ensures |linker.bins| == 1
    ensures AssemblesTo(Whole(programs, |programs|), LastOf(positions), linker.bins[0].words)
  {
    AssociateObjects(linker, names, programs);
    ghost var images := Values(linker.bins);
    ghost var linked := ObjectsLink(names, programs, target, LastOf(positions), images);
    var bin := RunPasses(linker, target, false, images, linked);
    MoveTo(bin, positions);
    assert bin.words == Offsetting.Placed(View(linked), LastOf(positions));
  }

  /** The flattened objects have harmless words at their [register + next word] operands. */
  ghost predicate FlatIsCompressible(programs: seq<Program>, images: seq<Image>, target: Name) {
    var flat := Flattened(Link(images, EmptyImage(target)));
    flat.Some? ==> Compressible(programs, flat.value)
  }

  ghost predicate AreCompressible(names: seq<Name>, programs: seq<Program>, target: Name) {
    forall images :: Objects(names, Sources(programs), images) ==> FlatIsCompressible(programs, images, target)
  }

  /** With the short literals on, the code is that of all programs with their short literals folded. */
  method LinkShortPrograms(linker: LinkerState, target: Name, positions: seq<int>, ghost names: seq<Name>,
          ghost programs: seq<Program>)
    requires Separable(names, Sources(programs), target) && ArePrograms(programs)
    requires AreCompressible(names, programs, target) && Loaded(linker.bins, names, Sources(programs))
    modifies linker, set b | b in linker.bins
    ensures |linker.bins| == 1
    ensures AssemblesTo(ShortWhole(programs), LastOf(positions), linker.bins[0].words)
  {
    AssociateObjects(linker, names, Sources(programs));
    ghost var images := Values(linker.bins);
    ghost var linked := ObjectsLinkShort(names, programs, target, LastOf(positions), images);
    var bin := RunPasses(linker, target, true, images, linked);
    MoveTo(bin, positions);
    assert bin.words == Offsetting.Placed(View(linked), LastOf(positions));
  }
}
