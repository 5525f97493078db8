/**
 The loop of `bins_compress` (libdcpu-ld/ldbins.c), run in place on the flattened bin.
 */
module Compressor {
  import opened Words
  import opened Dcpu
  import opened BinImages
  import opened Bins
  import opened Compression

  method IsListed(es: seq<Entry>, a: nat) returns (found: bool)
    ensures found == IsSlot(es, a)
  {
    for j := 0 to |es|
      invariant forall k :: 0 <= k < j ==> es[k].address != a
    {
      if es[j].address == a { return true; }
    }
    found := false;
  }

  method IsProtected(bin: Bin, a: nat) returns (found: bool)
    ensures found == Protected(bin.Value(), a)
  {
    found := IsListed(bin.required, a);
    if !found { found := IsListed(bin.optional, a); }
    if !found { found := IsListed(bin.adjustment, a); }
  }

  /** Rewrites the instruction and removes its literal; false when the linker halts. */
  method Fold(bin: Bin, i: nat, store: Word) returns (ok: bool)
    requires Foldable(bin.Value(), i) && Short(bin.words[i + 1]) == Some(store)
    modifies bin
    ensures var r := FoldAt(old(bin.Value()), i);
            ok == r.Some? && (ok ==> bin.Value() == r.value)
  {
    bin.words := bin.words[i := Shortened(bin.words[i], store)];
    ghost var mid := bin.Value();
    assert bin in [bin];
    ok := Remove([bin], bin, i + 1, 1);
    assert FoldAt(old(bin.Value()), i) == RemoveOnly(mid, i + 1, 1);
  }

  /** One round of the loop. */
  method CompressInst(bin: Bin, i: nat, saved: Word) returns (ok: bool, next: nat, total: Word)
    requires i < |bin.words|
    modifies bin
    ensures var r := CompressOne(old(bin.Value()), i, saved);
            ok == r.Some? && (ok ==> r.value == (bin.Value(), next, total))
  {
    var inst := bin.words[i];
    var size := Measured(inst);
    ok, total := true, saved;
    if GetA(inst) == NXT_LIT {
      if i + 1 >= |bin.words| { return false, i, total; }
      var held := IsProtected(bin, i + 1);
      var store := Short(bin.words[i + 1]);
      if !held && store.Some? {
        ok := Fold(bin, i, store.value);
        size, total := size - 1, Wrap(total + 1);
      }
    }
    next := i + size;
  }

  /** `bins_compress` on the flattened bin; false when the linker fails. */
  method Compress(bin: Bin) returns (ok: bool, saved: Word)
    modifies bin
    ensures var r := Compressed(old(bin.Value()), 0, 0);
            ok == r.Some? && (ok ==> r.value == (bin.Value(), saved))
  {
    var i: nat := 0;
    saved := 0;
    while i < |bin.words|
      invariant Compressed(old(bin.Value()), 0, 0) == Compressed(bin.Value(), i, saved)
      decreases |bin.words| - i
    {
      ok, i, saved := CompressInst(bin, i, saved);
      if !ok { return; }
    }
    ok := true;
  }

  /** SET [A+0x7C01], B; SET A, A */
  function IndexedStore(): Image {
    Image("b", [0x0601, 0x7C01, 0x0001], [], [], [], [], [], [], [])
  }

  /**
   The index of [register + next word] is taken for an instruction: here it reads as SET A, literal, so
   the pass folds the instruction behind it into it, and a store and a move become one store elsewhere.
   */
  lemma {:induction false} IndexIsNotMeasured()
    ensures Measured(0x0601) == 1 && Size(0x0601) == 2
    ensures Compressed(IndexedStore(), 0, 0) == Some((IndexedStore().(words := [0x0601, 0x8801]), 1))
  {
    var img := IndexedStore();
    var mid := img.(words := [0x0601, 0x8801, 0x0001]);
    assert img.words[1 := 0x8801] == mid.words;
    assert mid.words[..2] + mid.words[3..] == [0x0601, 0x8801];
    assert Shortened(0x7C01, 0x22) == 0x8801;
    var r := img.(words := [0x0601, 0x8801]);
    assert FoldAt(img, 1) == RemoveOnly(mid, 2, 1) == Some(r);
    assert Compressed(img, 0, 0) == Compressed(img, 1, 0) == Compressed(r, 2, 1);
  }
}
