/**
 The policy callback `offset()` (libdcpu-ld/ldpolicy.c): the linked code is moved to a position.
 */
module Offsetting {
  import opened Words
  import opened BinImages
  import opened Bins

  /** A cell as it reads when the code starts at `base`. */
  function Concrete(c: Cell, base: int): Word {
    match c
    case Lit(w) => w
    case Ptr(_, a) => Wrap(a + base)
  }

  ghost function Placed(cells: seq<Cell>, base: int): (r: seq<Word>)
    ensures |r| == |cells| && forall i :: 0 <= i < |r| ==> r[i] == Concrete(cells[i], base)
  {
    seq(|cells|, i requires 0 <= i < |cells| => Concrete(cells[i], base))
  }

  /** The words after the first `n` adjustments have been moved by `delta`. */
  function Moved(words: seq<Word>, adjustment: seq<Entry>, n: nat, delta: int): (r: seq<Word>)
    requires n <= |adjustment| && forall k :: 0 <= k < |adjustment| ==> adjustment[k].address < |words|
    ensures |r| == |words|
  {
    if n == 0 then words
    else
      var w, a := Moved(words, adjustment, n - 1, delta), adjustment[n - 1].address;
      w[a := Wrap(w[a] + delta)]
  }

  class Policy {
    var bin: Bin
    var previousOffset: Word

    constructor (bin: Bin)
      ensures this.bin == bin && previousOffset == 0
    {
      this.bin, previousOffset := bin, 0;
    }

    /** One `offset()` call. */
    method Offset(position: int)
      requires SlotsIn(bin.Value())
      modifies this`previousOffset, bin`words
      ensures bin.Value() == old(bin.Value()).(words :=
                               Moved(old(bin.words), bin.adjustment, |bin.adjustment|, position - old(previousOffset)))
      ensures previousOffset == Wrap(position)
    {
      ghost var words := bin.words;
      for k := 0 to |bin.adjustment|
        invariant previousOffset == old(previousOffset)
        invariant bin.words == Moved(words, bin.adjustment, k, position - previousOffset)
      {
        var a := bin.adjustment[k].address;
        bin.words := bin.words[a := Wrap(bin.words[a] + (position - previousOffset))];
      }
      previousOffset := Wrap(position);
    }

    /** Any sequence of `offset()` calls places the linked code at the last position. */
    method OffsetAll(positions: seq<int>)
      requires WellFormed(bin.Value()) && previousOffset == 0
      modifies this`previousOffset, bin`words
      ensures bin.Value() == old(bin.Value()).(words := bin.words)
      ensures bin.words == Placed(View(old(bin.Value())), if positions == [] then 0 else positions[|positions| - 1])
    {
      ghost var img, last := bin.Value(), 0;
      PlacedAtZero(img);
      for k := 0 to |positions|
        invariant bin.Value() == img.(words := bin.words)
        invariant last == (if k == 0 then 0 else positions[k - 1])
        invariant bin.words == Placed(View(img), last) && previousOffset == Wrap(last)
      {
        MovedIsPlaced(img, last, positions[k]);
        Offset(positions[k]);
        last := positions[k];
      }
    }
  }

  lemma {:induction false} PlacedAtZero(img: Image)
    requires WellFormed(img)
    ensures Placed(View(img), 0) == img.words
  {
    forall a | 0 <= a < |img.words| ensures Placed(View(img), 0)[a] == img.words[a] {
    }
  }

  /** One pass over the adjustments moves every slot once and nothing else. */
  lemma {:induction false} MovedPointwise(words: seq<Word>, es: seq<Entry>, n: nat, delta: int, a: nat)
    requires n <= |es| && Distinct(es) && a < |words|
    requires forall k :: 0 <= k < |es| ==> es[k].address < |words|
    ensures Moved(words, es, n, delta)[a] ==
            if exists k :: 0 <= k < n && es[k].address == a then Wrap(words[a] + delta) else words[a]
  {
    if n > 0 {
      MovedPointwise(words, es, n - 1, delta, a);
      assert es[n - 1].address == a ==> forall k :: 0 <= k < n - 1 ==> es[k].address != a;
    }
  }

  lemma {:induction false} WrapMoves(a: int, from: int, to: int)
    ensures Wrap(Wrap(a + from) + (to - Wrap(from))) == Wrap(a + to)
  {
    var p, q := (Wrap(a + from) - (a + from)) / WORD_COUNT, (Wrap(from) - from) / WORD_COUNT;
    assert Wrap(a + from) == a + from + p * WORD_COUNT && Wrap(from) == from + q * WORD_COUNT;
    WrapPeriodic(a + to, p - q);
  }

  lemma {:induction false} WrapPeriodic(x: int, k: int)
    ensures Wrap(x + k * WORD_COUNT) == Wrap(x)
  {
    assert (x + k * WORD_COUNT) % WORD_COUNT == x % WORD_COUNT;
  }

  /** Moving code from one position to another is the same as placing it there. */
  lemma {:induction false} MovedIsPlaced(img: Image, from: int, to: int)
    requires WellFormed(img)
    ensures Moved(Placed(View(img), from), img.adjustment, |img.adjustment|, to - Wrap(from)) == Placed(View(img), to)
  {
    var words, es := Placed(View(img), from), img.adjustment;
    forall a | 0 <= a < |words| ensures Moved(words, es, |es|, to - Wrap(from))[a] == Placed(View(img), to)[a] {
      MovedPointwise(words, es, |es|, to - Wrap(from), a);
      if View(img)[a].Ptr? { WrapMoves(View(img)[a].address, from, to); }
    }
  }
}
