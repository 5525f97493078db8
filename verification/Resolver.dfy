/**
 The loops of `bins_resolve` (libdcpu-ld/ldbins.c), run in place on the flattened bin.
 */
module Resolver {
  import opened Words
  import opened BinImages
  import opened Bins
  import opened Resolving

  method SeekEntry(es: seq<Entry>, symbol: Option<string>) returns (r: Option<Entry>)
    ensures r == Seek(es, symbol, 0)
  {
    var i := 0;
    while i < |es|
      invariant 0 <= i <= |es| && Seek(es, symbol, 0) == Seek(es, symbol, i)
    {
      if Named(es[i], symbol) { return Some(es[i]); }
      i := i + 1;
    }
    r := None;
  }

  /** One round of the required or of the optional loop; false when the linker halts. */
  method ResolveEntry(bin: Bin, entry: Entry, optional: bool, pending: Option<Entry>, allowMissing: bool)
    returns (ok: bool, adjustment: Option<Entry>)
    modifies bin`words, bin`adjustment
    ensures var r := ResolveOne(Progress(old(bin.Value()), pending), Want(entry, optional), allowMissing);
            ok == r.Some? && (ok ==> r.value == Progress(bin.Value(), adjustment))
  {
    ghost var p, w := Progress(bin.Value(), pending), Want(entry, optional);
    adjustment := pending;
    var provided := SeekEntry(bin.provided, entry.symbol);
    var jump := SeekEntry(bin.jump, entry.symbol);
    if optional && entry.address > |bin.words| {
      return true, adjustment;
    }
    if provided.None? && jump.None? {
      if allowMissing { return true, adjustment; }
      if !optional { return false, adjustment; }
    }
    if (provided.Some? && jump.Some?) || entry.symbol.None? || entry.address >= |bin.words| {
      return false, adjustment;
    }
    if provided.Some? {
      bin.words := bin.words[entry.address := provided.value.address];
      adjustment := Some(Entry(provided.value.symbol, bin.name, entry.address));
    } else if jump.Some? {
      bin.words := bin.words[entry.address := jump.value.address];
    } else {
      bin.words := bin.words[entry.address := 0];
    }
    if adjustment.Some? {
      adjustment := Some(adjustment.value.(bin := bin.name, address := entry.address));
      bin.adjustment := bin.adjustment + [adjustment.value];
    }
    ok := true;
  }

  lemma {:induction false} UnresolvedStep(img: Image, es: seq<Entry>, allowMissing: bool, j: nat)
    requires j < |es|
    ensures Unresolved(img, es[..j + 1], allowMissing) ==
            Unresolved(img, es[..j], allowMissing) +
            if allowMissing && Seek(img.provided, es[j].symbol, 0).None? && Seek(img.jump, es[j].symbol, 0).None?
            then [es[j]] else []
  {
    assert es[..j + 1][..j] == es[..j];
  }

  lemma {:induction false} DeletedStep(kept: seq<Entry>, es: seq<Entry>, j: nat, keep: bool)
    requires j < |es|
    ensures var r := kept + es[j..];
            && r[|kept|] == es[j]
            && r == kept + [es[j]] + es[j + 1..]
            && r[..|kept|] + r[|kept| + 1..] == kept + [] + es[j + 1..]
  {
  }

  /** The deletion loop behind the required and behind the optional loop. */
  method DeleteResolved(bin: Bin, es: seq<Entry>, allowMissing: bool) returns (r: seq<Entry>)
    ensures r == Unresolved(bin.Value(), es, allowMissing)
  {
    r := es;
    var i := 0;
    ghost var j, kept := 0, [];
    while i < |r|
      invariant 0 <= j <= |es| && i == |kept| && r == kept + es[j..]
      invariant kept == Unresolved(bin.Value(), es[..j], allowMissing)
      decreases |r| - i
    {
      DeletedStep(kept, es, j, allowMissing);
      UnresolvedStep(bin.Value(), es, allowMissing, j);
      var provided := SeekEntry(bin.provided, r[i].symbol);
      var jump := SeekEntry(bin.jump, r[i].symbol);
      if provided.None? && jump.None? && allowMissing {
        kept := kept + [r[i]];
        i := i + 1;
      } else {
        r := r[..i] + r[i + 1..];
      }
      j := j + 1;
    }
    assert es[..j] == es;
  }

  lemma {:induction false} HaltedAt(img: Image, ws: seq<Want>, allowMissing: bool, i: nat, k: nat)
    requires i <= k <= |ws| && ResolveFirst(img, ws, allowMissing, i).None?
    ensures ResolveFirst(img, ws, allowMissing, k).None?
  {
    if i < k { HaltedAt(img, ws, allowMissing, i, k - 1); }
  }

  lemma {:induction false} UnresolvedSame(img: Image, img': Image, es: seq<Entry>, allowMissing: bool)
    requires img'.provided == img.provided && img'.jump == img.jump
    ensures Unresolved(img', es, allowMissing) == Unresolved(img, es, allowMissing)
  {
    if es != [] { UnresolvedSame(img, img', es[..|es| - 1], allowMissing); }
  }

  ghost predicate Lists(ws: seq<Want>, from: nat, es: seq<Entry>, optional: bool) {
    from + |es| <= |ws| && ws[from..from + |es|] == Wants(es, optional)
  }

  lemma {:induction false} ListsAt(ws: seq<Want>, from: nat, es: seq<Entry>, optional: bool, i: nat)
    requires Lists(ws, from, es, optional) && i < |es|
    ensures ws[from + i] == Want(es[i], optional)
  {
    assert ws[from..from + |es|][i] == ws[from + i];
  }

  /** One of the two loops: labels `from` to `from + |es|` of the whole list. */
  method ResolveLoop(bin: Bin, es: seq<Entry>, optional: bool, pending: Option<Entry>, allowMissing: bool,
                     ghost img: Image, ghost ws: seq<Want>, ghost from: nat)
    returns (ok: bool, adjustment: Option<Entry>)
    requires Lists(ws, from, es, optional)
    requires ResolveFirst(img, ws, allowMissing, from) == Some(Progress(bin.Value(), pending))
    modifies bin`words, bin`adjustment
    ensures !ok ==> ResolveFirst(img, ws, allowMissing, |ws|).None?
    ensures ok ==> ResolveFirst(img, ws, allowMissing, from + |es|) == Some(Progress(bin.Value(), adjustment))
  {
    adjustment := pending;
    ghost var k := from;
    for i := 0 to |es|
      invariant k == from + i && ResolveFirst(img, ws, allowMissing, k) == Some(Progress(bin.Value(), adjustment))
    {
      ListsAt(ws, from, es, optional, i);
      NextLabel(img, ws, allowMissing, k);
      k := k + 1;
      ok, adjustment := ResolveEntry(bin, es[i], optional, adjustment, allowMissing);
      if !ok {
        HaltedAt(img, ws, allowMissing, k, |ws|);
        return false, adjustment;
      }
    }
    ok := true;
  }

  /** The deletions behind the loops. */
  method Tidy(bin: Bin, keepProvided: bool, allowMissing: bool, keepOptional: bool)
    modifies bin
    ensures bin.Value() == Tidied(old(bin.Value()), keepProvided, allowMissing, keepOptional)
  {
    ghost var img := bin.Value();
    bin.required := DeleteResolved(bin, bin.required, allowMissing);
    if !keepOptional {
      UnresolvedSame(img, bin.Value(), bin.optional, allowMissing);
      bin.optional := DeleteResolved(bin, bin.optional, allowMissing);
    }
    if !keepProvided {
      bin.provided := [];
    }
  }

  /** The two loops, one after the other. */
  method ResolveLoops(bin: Bin, allowMissing: bool, ghost img: Image, ghost ws: seq<Want>) returns (ok: bool)
    requires bin.Value() == img && |ws| == |bin.required| + |bin.optional|
    requires Lists(ws, 0, bin.required, false) && Lists(ws, |bin.required|, bin.optional, true)
    modifies bin`words, bin`adjustment
    ensures var r := ResolveFirst(img, ws, allowMissing, |ws|);
            ok == r.Some? && (ok ==> bin.Value() == r.value.img)
  {
    var pending: Option<Entry>;
    ok, pending := ResolveLoop(bin, bin.required, false, None, allowMissing, img, ws, 0);
    if ok {
      assert ResolveFirst(img, ws, allowMissing, |bin.required|) == Some(Progress(bin.Value(), pending));
      ok, pending := ResolveLoop(bin, bin.optional, true, pending, allowMissing, img, ws, |bin.required|);
      assert ok ==> ResolveFirst(img, ws, allowMissing, |ws|) == Some(Progress(bin.Value(), pending));
    }
  }

  /** `bins_resolve` on the flattened bin; false when the linker halts. */
  method Resolve(bin: Bin, keepProvided: bool, allowMissing: bool, keepOptional: bool) returns (ok: bool)
    modifies bin
    ensures var r := Resolved(old(bin.Value()), keepProvided, allowMissing, keepOptional);
            ok == r.Some? && (ok ==> bin.Value() == r.value)
  {
    ghost var img := bin.Value();
    assert Lists(AllWants(img), 0, img.required, false) && Lists(AllWants(img), |img.required|, img.optional, true);
    ok := ResolveLoops(bin, allowMissing, bin.Value(), AllWants(bin.Value()));
    if ok {
      Tidy(bin, keepProvided, allowMissing, keepOptional);
    }
  }
}
