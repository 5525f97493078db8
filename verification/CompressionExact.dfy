/**
 Exactly when `bins_compress` (libdcpu-ld/ldbins.c) preserves a program. The pass does not look for
 [register + next word] operands, so it may take operand words for instructions; that does harm if and only if
 it folds a literal into one of them.
 */
module CompressionExact {
  import opened Words
  import opened Dcpu
  import opened BinImages
  import opened Removal
  import opened Compression
  import Meaning

  /** An instruction starts at word `i`. */
  ghost predicate Starts(p: seq<Inst>, k: nat, i: nat) {
    k < |p| && Start(p, k) == i
  }

  ghost function InstAt(p: seq<Inst>, i: nat): (r: Option<nat>)
    ensures r.Some? ==> Starts(p, r.value, i)
    ensures r.None? ==> forall k: nat :: !Starts(p, k, i)
  {
    if exists k: nat :: Starts(p, k, i) then
      var k: nat :| Starts(p, k, i);
      Some(k)
    else None
  }

  /**
   The guard of the folding branch, followed through the loop from word `i` on in a bin that holds the program
   `p`: it never asks for a literal behind the end of the bin, and wherever it folds, an instruction starts.
   */
  ghost predicate FoldsInstructions(img: Image, p: seq<Inst>, i: nat)
    decreases |img.words| - i
  {
    i >= |img.words| ||
    match CompressOne(img, i, 0)
    case None => false
    case Some((r, next, _)) =>
      if Foldable(img, i) then
        InstAt(p, i).Some? && var k := InstAt(p, i).value; FoldsInstructions(r, p[k := Folded(p[k])], next)
      else FoldsInstructions(img, p, next)
  }

  /** Pointers are below 0x7C00, so that none looks like an instruction with a literal. */
  ghost predicate LowTargets(p: seq<Inst>) {
    forall k, j :: 0 <= k < |p| && 0 <= j < |p[k].next| && p[k].next[j].target.Instruction? ==>
                     Start(p, p[k].next[j].target.index) < 0x7C00
  }

  lemma {:induction false} SameTransitive(p: seq<Inst>, q: seq<Inst>, r: seq<Inst>)
    requires SameProgram(p, q) && SameProgram(q, r)
    ensures SameProgram(p, r)
  {
  }

  lemma {:induction false} SameSelf(p: seq<Inst>)
    requires Whole(p)
    ensures SameProgram(p, p)
  {
  }

  lemma {:induction false} FoldIsSame(p: seq<Inst>, k: nat)
    requires Whole(p) && k < |p| && Folds(p[k])
    ensures var q := p[k := Folded(p[k])]; FoldedAt(p, q, k) && SameProgram(p, q) && SameProgram(q, p)
  {
    FoldKeepsInstruction(p[k], |p|);
    var q := p[k := Folded(p[k])];
    forall m | 0 <= m < |q| ensures WholeInst(q[m], |q|) {
    }
  }

  // ----- The pass as a run of rounds -----

  lemma {:induction false} FoldSucceeds(img: Image, i: nat)
    requires Foldable(img, i) && WellFormed(img) && SelfContained(img)
    ensures FoldAt(img, i) == Some(RemoveFrom(Rewritten(img, i), i + 1, 1))
    ensures WellFormed(FoldAt(img, i).value) && SelfContained(FoldAt(img, i).value)
  {
    FoldIsRemove(img, i);
    RetargetedDistinct(Rewritten(img, i), i + 1, 1);
  }

  // ----- Sufficient -----

  lemma {:induction false} FoldingStart(img: Image, p: seq<Inst>, k: nat)
    requires Holds(img, p) && k < |p| && Foldable(img, Start(p, k))
    ensures Folds(p[k]) && FoldAt(img, Start(p, k)).Some? && Holds(FoldAt(img, Start(p, k)).value, p[k := Folded(p[k])])
  {
    FoldsRightly(img, p, k);
    FoldIsSame(p, k);
    FoldStep(img, p, p[k := Folded(p[k])], k);
  }

  /** Where the guarded loop folds. */
  lemma {:induction false} GuardAtFold(img: Image, p: seq<Inst>, i: nat, r: Image, next: nat) returns (k: nat)
    requires i < |img.words| && Foldable(img, i) && FoldsInstructions(img, p, i)
    requires FoldAt(img, i) == Some(r) && next == i + Measured(img.words[i]) - 1
    ensures Starts(p, k, i) && FoldsInstructions(r, p[k := Folded(p[k])], next)
  {
    assert CompressOne(img, i, 0) == Some((r, next, 1));
    k := InstAt(p, i).value;
  }

  lemma {:induction false} GuardElsewhere(img: Image, p: seq<Inst>, i: nat, next: nat)
    requires i < |img.words| && !Foldable(img, i) && FoldsInstructions(img, p, i) && next == i + Measured(img.words[i])
    ensures FoldsInstructions(img, p, next) && (GetA(img.words[i]) == NXT_LIT ==> i + 1 < |img.words|)
  {
  }

  lemma {:induction false} KeepFinishes(img: Image, i: nat, saved: Word, r: Image, next: nat, total: Word, q: seq<Inst>)
    requires Compressed(img, i, saved) == Compressed(r, next, total) && Finishes(r, next, total, q)
    requires total + |r.words| == saved + |img.words|
    ensures Finishes(img, i, saved, q)
  {
  }

  lemma {:induction false} GuardedFold(img: Image, p: seq<Inst>, i: nat, saved: Word)
    returns (r: Image, next: nat, total: Word, p': seq<Inst>)
    requires Holds(img, p) && FoldsInstructions(img, p, i) && saved + |img.words| <= WORD_COUNT && Foldable(img, i)
    ensures Holds(r, p') && FoldsInstructions(r, p', next) && SameProgram(p, p') && next > i
    ensures Compressed(img, i, saved) == Compressed(r, next, total) && total + |r.words| == saved + |img.words|
    ensures |r.words| < |img.words|
  {
    FoldSucceeds(img, i);
    r, next, total := FoldAt(img, i).value, i + Measured(img.words[i]) - 1, saved + 1;
    var k := GuardAtFold(img, p, i, r, next);
    p' := p[k := Folded(p[k])];
    FoldingStart(img, p, k);
    FoldIsSame(p, k);
    LoopFolds(img, i, saved, r, next, total);
  }

  lemma {:induction false} GuardedKeeps(img: Image, p: seq<Inst>, i: nat, saved: Word) returns (q: seq<Inst>)
    requires Holds(img, p) && FoldsInstructions(img, p, i) && saved + |img.words| <= WORD_COUNT
    ensures SameProgram(p, q) && Finishes(img, i, saved, q)
    decreases |img.words| - i
  {
    if i >= |img.words| {
      q := p;
      SameSelf(p);
    } else if Foldable(img, i) {
      var r, next, total, p' := GuardedFold(img, p, i, saved);
      q := GuardedKeeps(r, p', next, total);
      SameTransitive(p, p', q);
      KeepFinishes(img, i, saved, r, next, total, q);
    } else {
      var next := i + Measured(img.words[i]);
      GuardElsewhere(img, p, i, next);
      q := GuardedKeeps(img, p, next, saved);
      LoopKeeps(img, i, saved, next);
      KeepFinishes(img, i, saved, img, next, saved, q);
    }
  }

  // ----- Necessary -----

  /** Writing at word `i` and removing the word behind it leaves a literal before both where it is. */
  lemma {:induction false} FoldKeepsLiteral(img: Image, i: nat, s: nat, v: Word)
    requires Foldable(img, i) && WellFormed(img) && SelfContained(img) && s < i && View(img)[s] == Lit(v)
    ensures FoldAt(img, i).Some? && s < |FoldAt(img, i).value.words| && View(FoldAt(img, i).value)[s] == Lit(v)
  {
    var mid := Rewritten(img, i);
    FoldSucceeds(img, i);
    Meaning.LiteralIsNoSlot(img, s);
    assert mid.words[s] == img.words[s];
    RemovedCell(mid, i + 1, 1, s);
  }

  /** Literals before word `i` stay where they are. */
  ghost predicate LiteralsStay(img: Image, end: Image, i: nat) {
    forall s, v :: 0 <= s < i && s < |img.words| && View(img)[s] == Lit(v) ==> s < |end.words| && View(end)[s] == Lit(v)
  }

  /** One round of the loop that goes on. */
  lemma {:induction false} Round(img: Image, i: nat, saved: Word) returns (r: Image, next: nat, total: Word)
    requires WellFormed(img) && SelfContained(img) && i < |img.words| && Compressed(img, i, saved).Some?
    ensures WellFormed(r) && SelfContained(r) && next > i && |r.words| <= |img.words|
    ensures Compressed(img, i, saved) == Compressed(r, next, total)
    ensures LiteralsStay(img, r, i)
  {
    if Foldable(img, i) {
      FoldSucceeds(img, i);
      r, next, total := FoldAt(img, i).value, i + Measured(img.words[i]) - 1, Wrap(saved + 1);
      LoopFolds(img, i, saved, r, next, total);
      forall s, v | 0 <= s < i && s < |img.words| && View(img)[s] == Lit(v)
          ensures s < |r.words| && View(r)[s] == Lit(v) {
        FoldKeepsLiteral(img, i, s, v);
      }
    } else {
      r, next, total := img, i + Measured(img.words[i]), saved;
      LoopKeeps(img, i, saved, next);
    }
  }

  lemma {:induction false} LiteralsStayOn(img: Image, r: Image, end: Image, i: nat, next: nat)
    requires LiteralsStay(img, r, i) && LiteralsStay(r, end, next) && i <= next
    ensures LiteralsStay(img, end, i)
  {
  }

  /** What the pass has gone past stays as it is. */
  lemma {:induction false} PassKeepsLiterals(img: Image, i: nat, saved: Word, res: (Image, Word))
    requires WellFormed(img) && SelfContained(img) && Compressed(img, i, saved) == Some(res)
    ensures LiteralsStay(img, res.0, i)
    decreases |img.words| - i
  {
    if i < |img.words| {
      var r, next, total := Round(img, i, saved);
      PassKeepsLiterals(r, next, total, res);
      LiteralsStayOn(img, r, res.0, i, next);
    }
  }

  lemma {:induction false} ShortenedDiffers(w: Word, code: Word)
    requires GetA(w) == NXT_LIT && 0x20 <= code < 64
    ensures Shortened(w, code) != w
  {
    FieldsOfCreate(GetOp(w), GetB(w), code);
  }

  lemma {:induction false} MisfoldedCell(img: Image, i: nat, w: Word)
    requires Foldable(img, i) && WellFormed(img) && SelfContained(img) && View(img)[i] == Lit(w)
    ensures FoldAt(img, i).Some? && i < |FoldAt(img, i).value.words|
    ensures var c := View(FoldAt(img, i).value)[i]; c.Lit? && c.value != w
  {
    var mid := Rewritten(img, i);
    FoldSucceeds(img, i);
    LiteralWord(img, i, w);
    ShortenedDiffers(w, Short(img.words[i + 1]).value);
    Meaning.ViewOfWrite(img, i, mid.words[i]);
    RemovedCell(mid, i + 1, 1, i);
  }

  lemma {:induction false} MisfoldRound(img: Image, i: nat, saved: Word, w: Word)
    returns (r: Image, next: nat, total: Word, w': Word)
    requires Foldable(img, i) && WellFormed(img) && SelfContained(img) && View(img)[i] == Lit(w)
    ensures WellFormed(r) && SelfContained(r) && i < next && i < |r.words| && View(r)[i] == Lit(w') && w' != w
    ensures Compressed(img, i, saved) == Compressed(r, next, total)
  {
    MisfoldedCell(img, i, w);
    FoldSucceeds(img, i);
    r, next, total := FoldAt(img, i).value, i + Measured(img.words[i]) - 1, Wrap(saved + 1);
    w' := View(r)[i].value;
    LoopFolds(img, i, saved, r, next, total);
  }

  /** The literal operand word that the pass has taken for an instruction is another word afterwards. */
  lemma {:induction false} MisfoldChanges(img: Image, i: nat, saved: Word, w: Word, res: (Image, Word))
    requires Foldable(img, i) && WellFormed(img) && SelfContained(img) && View(img)[i] == Lit(w)
    requires Compressed(img, i, saved) == Some(res)
    ensures i < |res.0.words| && View(res.0)[i] != Lit(w)
  {
    var r, next, total, w' := MisfoldRound(img, i, saved, w);
    PassKeepsLiterals(r, next, total, res);
  }

  /** Up to instruction `k` two programs have the same instruction words at the same places. */
  ghost predicate SameUpTo(p: seq<Inst>, q: seq<Inst>, k: nat)
    requires k <= |p| == |q|
  {
    Start(q, k) == Start(p, k) && forall m :: 0 <= m < k ==> q[m].word == p[m].word
  }

  lemma {:induction false} SameWord(img: Image, p: seq<Inst>, q: seq<Inst>, end: Image, i: nat, k: nat)
    requires LaidOut(p, img.name, Spots(img)) && LaidOut(q, end.name, Spots(end)) && k < |p| == |q| &&
             Start(q, k) == Start(p, k)
    requires LiteralsStay(img, end, i) && Start(p, k) < i
    ensures q[k].word == p[k].word
  {
    LaidAt(p, img.name, Spots(img), k, 0);
    LaidAt(q, end.name, Spots(end), k, 0);
  }

  lemma {:induction false} StartsAgree(img: Image, p: seq<Inst>, q: seq<Inst>, end: Image, i: nat, k: nat)
    requires LaidOut(p, img.name, Spots(img)) && LaidOut(q, end.name, Spots(end)) && k <= |p| == |q|
    requires LiteralsStay(img, end, i) && forall m :: 0 <= m < k ==> Start(p, m) < i
    requires forall m :: 0 <= m < k ==> 1 + |p[m].next| == Size(p[m].word) && 1 + |q[m].next| == Size(q[m].word)
    ensures SameUpTo(p, q, k)
  {
    if k > 0 {
      StartsAgree(img, p, q, end, i, k - 1);
      SameWord(img, p, q, end, i, k - 1);
    }
  }

  /** Instructions with the same word and the same meaning have the same operands. */
  lemma {:induction false} SameOperands(x: Inst, y: Inst)
    requires 1 + |x.next| == Size(x.word) && 1 + |y.next| == Size(y.word) && x.word == y.word && Decode(x) == Decode(y)
    ensures x.next == y.next
  {
    assert |x.next| == |y.next| <= 2;
    if |x.next| > 0 {
      assert UsesNext(GetA(x.word)) ==> x.next[0] == y.next[0];
      assert GetOp(x.word) != OP_NONBASIC && UsesNext(GetB(x.word)) ==> x.next[|x.next| - 1] == y.next[|x.next| - 1];
    }
  }

  lemma {:induction false} LowIsNoLiteral(img: Image, p: seq<Inst>, k: nat, j: nat, i: nat)
    requires Holds(img, p) && LowTargets(p) && k < |p| && 0 < j <= |p[k].next| && i == Start(p, k) + j
    requires p[k].next[j - 1].target.Instruction?
    ensures i < |img.words| && GetA(img.words[i]) != NXT_LIT
  {
    LaidAt(p, img.name, Spots(img), k, j);
    var at := Start(p, p[k].next[j - 1].target.index);
    assert at < 0x7C00;
    assert View(img)[i] == Ptr(img.name, at);
    assert img.words[i] == at;
  }

  /** A literal operand that the pass has gone past or stopped at is where the program has it. */
  lemma {:induction false} OperandStays(img: Image, p: seq<Inst>, q: seq<Inst>, end: Image, i: nat, k: nat, j: nat)
    requires LaidOut(p, img.name, Spots(img)) && LaidOut(q, end.name, Spots(end)) && SameProgram(p, q)
    requires LiteralsStay(img, end, i) && k < |p| && 0 < j <= |p[k].next| && i == Start(p, k) + j
    ensures p[k].next[j - 1].target.Plain? ==> i < |end.words| && View(end)[i] == Lit(p[k].next[j - 1].target.value)
  {
    forall m | 0 <= m <= k ensures Start(p, m) < i {
      StartMonotone(p, m, k);
    }
    StartsAgree(img, p, q, end, i, k);
    SameWord(img, p, q, end, i, k);
    SameOperands(p[k], q[k]);
    LaidAt(q, end.name, Spots(end), k, j);
  }

  /** The place of the operand that has been taken for an instruction holds another word than the program says. */
  lemma {:induction false} MisfoldBreaks(img: Image, p: seq<Inst>, i: nat, saved: Word, k: nat, j: nat, q: seq<Inst>,
          res: (Image, Word))
    requires Holds(img, p) && LowTargets(p) && k < |p| && 0 < j <= |p[k].next| && i == Start(p, k) + j &&
             Foldable(img, i)
    requires Compressed(img, i, saved) == Some(res) && Holds(res.0, q)
    ensures !SameProgram(p, q)
  {
    var target := p[k].next[j - 1].target;
    if target.Instruction? {
      LowIsNoLiteral(img, p, k, j, i);
    } else {
      LaidAt(p, img.name, Spots(img), k, j);
      MisfoldChanges(img, i, saved, target.value, res);
      PassKeepsLiterals(img, i, saved, res);
      if SameProgram(p, q) { OperandStays(img, p, q, res.0, i, k, j); }
    }
  }

  lemma {:induction false} LowTargetsFold(p: seq<Inst>, k: nat)
    requires LowTargets(p) && k < |p| && Folds(p[k])
    ensures LowTargets(p[k := Folded(p[k])])
  {
    var q := p[k := Folded(p[k])];
    forall m, j | 0 <= m < |q| && 0 <= j < |q[m].next| && q[m].next[j].target.Instruction?
      ensures Start(q, q[m].next[j].target.index) < 0x7C00
    {
      var j' := if m == k then j + 1 else j;
      assert q[m].next[j] == p[m].next[j'];
      StartOfFold(p, q, k, q[m].next[j].target.index);
    }
  }

  /** A pass that ends with the same program has folded nothing but instructions. */
  lemma {:induction false} KeptIsGuarded(img: Image, p: seq<Inst>, i: nat, saved: Word, q: seq<Inst>,
          res: (Image, Word))
    requires Holds(img, p) && LowTargets(p) && SameProgram(p, q)
    requires Compressed(img, i, saved) == Some(res) && Holds(res.0, q)
    ensures FoldsInstructions(img, p, i)
    decreases |img.words| - i
  {
    if i < |img.words| {
      if Foldable(img, i) {
        KeptFold(img, p, i, saved, q, res);
      } else {
        var next := i + Measured(img.words[i]);
        KeptElsewhere(img, i, saved, res);
        LoopKeeps(img, i, saved, next);
        KeptIsGuarded(img, p, next, saved, q, res);
        GuardedElsewhere(img, p, i, next);
      }
    }
  }

  lemma {:induction false} KeptElsewhere(img: Image, i: nat, saved: Word, res: (Image, Word))
    requires i < |img.words| && !Foldable(img, i) && Compressed(img, i, saved) == Some(res)
    ensures GetA(img.words[i]) == NXT_LIT ==> i + 1 < |img.words|
  {
  }

  lemma {:induction false} GuardedElsewhere(img: Image, p: seq<Inst>, i: nat, next: nat)
    requires i < |img.words| && !Foldable(img, i) && (GetA(img.words[i]) == NXT_LIT ==> i + 1 < |img.words|)
    requires next == i + Measured(img.words[i]) && FoldsInstructions(img, p, next)
    ensures FoldsInstructions(img, p, i)
  {
    assert CompressOne(img, i, 0) == Some((img, next, 0));
  }

  lemma {:induction false} GuardedHere(img: Image, p: seq<Inst>, i: nat, r: Image, next: nat, k: nat)
    requires i < |img.words| && Foldable(img, i) && FoldAt(img, i) == Some(r) && next == i + Measured(img.words[i]) - 1
    requires InstAt(p, i) == Some(k) && FoldsInstructions(r, p[k := Folded(p[k])], next)
    ensures FoldsInstructions(img, p, i)
  {
    assert CompressOne(img, i, 0) == Some((r, next, 1));
  }

  lemma {:induction false} KeptFold(img: Image, p: seq<Inst>, i: nat, saved: Word, q: seq<Inst>, res: (Image, Word))
    requires Holds(img, p) && LowTargets(p) && SameProgram(p, q) && Foldable(img, i)
    requires Compressed(img, i, saved) == Some(res) && Holds(res.0, q)
    ensures FoldsInstructions(img, p, i)
    decreases |img.words| - i, 0
  {
    var k, j := Locate(p, |p|, i);
    if j > 0 {
      MisfoldBreaks(img, p, i, saved, k, j, q, res);
    } else {
      assert Starts(p, k, i);
      k := InstAt(p, i).value;
      var p', r, next, total := p[k := Folded(p[k])], FoldAt(img, i).value, i + Measured(img.words[i]) - 1,
          Wrap(saved + 1);
      FoldingStart(img, p, k);
      FoldSucceeds(img, i);
      FoldIsSame(p, k);
      SameTransitive(p', p, q);
      LowTargetsFold(p, k);
      LoopFolds(img, i, saved, r, next, total);
      KeptIsGuarded(r, p', next, total, q, res);
      GuardedHere(img, p, i, r, next, k);
    }
  }

  /**
   Exactly when `bins_compress` preserves a program: the bin ends up laid out as a program with the same
   instructions, operand values, labels and pointer targets, and the result is the number of words saved, if and
   only if the loop folds no operand word and does not run off the end. (Of programs that point to 0x7C00 and
   above only one half is stated.)
   */
  lemma {:induction false} CompressionIsExact(img: Image, p: seq<Inst>)
    requires Holds(img, p)
    ensures FoldsInstructions(img, p, 0) ==> exists q :: SameProgram(p, q) && Finishes(img, 0, 0, q)
    ensures LowTargets(p) && (exists q :: SameProgram(p, q) && Finishes(img, 0, 0, q)) ==> FoldsInstructions(img, p, 0)
  {
    if FoldsInstructions(img, p, 0) {
      var q := GuardedKeeps(img, p, 0, 0);
    }
    if LowTargets(p) && exists q :: SameProgram(p, q) && Finishes(img, 0, 0, q) {
      var q :| SameProgram(p, q) && Finishes(img, 0, 0, q);
      KeptIsGuarded(img, p, 0, 0, q, Compressed(img, 0, 0).value);
    }
  }
}
