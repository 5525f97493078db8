/**
 `bins_compress` (libdcpu-ld/ldbins.c): literals that fit the operand field are folded into the
 instruction word, and the freed words are removed from the bin.
 */
module Compression {
  import opened Words
  import opened Dcpu
  import opened BinImages
  import opened Removal
  import Meaning

  /** The operand code of a short literal. */
  function Short(value: Word): Option<Word> {
    if value == 0xffff then Some(0x20) else if value <= 0x1e then Some(value + 0x21) else None
  }

  /** The pass finds the short form of a literal whenever there is one. */
  lemma {:induction false} ShortIff(value: Word, code: Word)
    ensures Short(value) == Some(code) <==> 0x20 <= code < 0x40 && ShortLiteral(code) == value
    ensures Short(value).None? <==> 30 < value < 0xFFFF
  {
  }

  /** Operand codes that the pass counts a word for. */
  predicate IsCounted(code: Word) {
    code == NXT_LIT || code == NXT || code == PICK
  }

  /** The size the pass gives an instruction; it does not look for [register + next word]. */
  function Measured(inst: Word): (n: nat)
    ensures 1 <= n <= 3
    ensures GetA(inst) == NXT_LIT ==> n >= 2
  {
    1 + (if IsCounted(GetA(inst)) then 1 else 0) + if IsCounted(GetB(inst)) then 1 else 0
  }

  predicate Protected(img: Image, a: nat) {
    IsSlot(img.required, a) || IsSlot(img.optional, a) || IsSlot(img.adjustment, a)
  }

  /** `bin_remove` on the only bin; none when the linker halts. */
  function RemoveOnly(img: Image, offset: nat, count: nat): (r: Option<Image>)
    requires offset + count <= |img.words|
    ensures r.Some? ==> |r.value.words| == |img.words| - count
  {
    var cut := CutImage(img, offset, count);
    if SlotsSurvive(cut.words, cut.adjustment, img.name, offset, count)
    then Some(RetargetImage(cut, img.name, offset, count))
    else None
  }

  function Shortened(inst: Word, code: Word): Word {
    Create(GetOp(inst), GetB(inst), code)
  }

  /** The word at `i` is an instruction whose literal can be folded. */
  predicate Foldable(img: Image, i: nat) {
    && i + 1 < |img.words| && GetA(img.words[i]) == NXT_LIT
    && !Protected(img, i + 1) && Short(img.words[i + 1]).Some?
  }

  function FoldAt(img: Image, i: nat): (r: Option<Image>)
    requires Foldable(img, i)
    ensures r.Some? ==> |r.value.words| == |img.words| - 1
  {
    var word := Shortened(img.words[i], Short(img.words[i + 1]).value);
    RemoveOnly(img.(words := img.words[i := word]), i + 1, 1)
  }

  /** One round: the bin, the next instruction and the words saved; none when the linker fails. */
  function CompressOne(img: Image, i: nat, saved: Word): (r: Option<(Image, nat, Word)>)
    requires i < |img.words|
    ensures r.Some? ==> i < r.value.1 && |r.value.0.words| <= |img.words|
  {
    var inst := img.words[i];
    if GetA(inst) == NXT_LIT && i + 1 >= |img.words| then None
    else if Foldable(img, i) then
      match FoldAt(img, i)
      case None => None
      case Some(r) => Some((r, i + Measured(inst) - 1, Wrap(saved + 1)))
    else Some((img, i + Measured(inst), saved))
  }

  /** The loop from word `i` on; none when the linker fails. */
  function Compressed(img: Image, i: nat, saved: Word): Option<(Image, Word)>
    decreases |img.words| - i
  {
    if i >= |img.words| then Some((img, saved))
    else match CompressOne(img, i, saved)
         case None => None
         case Some((r, next, total)) => Compressed(r, next, total)
  }

  // ----- Programs whose pointers and labels denote instructions -----

  /** A table entry without its address. */
  datatype Label = Label(table: Table, entry: Entry)

  datatype Target = Plain(value: Word) | Instruction(index: nat)

  datatype Operand = Operand(target: Target, labels: iset<Label>)

  datatype Inst = Inst(word: Word, labels: iset<Label>, next: seq<Operand>)

  /** What a bin has at one address. */
  datatype Spot = Spot(cell: Cell, labels: iset<Label>)

  ghost function LabelsAt(img: Image, a: nat): iset<Label> {
    iset l: Label | a < WORD_COUNT && l.entry.address == 0 && l.entry.(address := a) in TableOf(img, l.table)
  }

  ghost function Spots(img: Image): (r: seq<Spot>)
    ensures |r| == |img.words|
    ensures forall a :: 0 <= a < |r| ==> r[a] == Spot(View(img)[a], LabelsAt(img, a))
  {
    seq(|img.words|, a requires 0 <= a < |img.words| => Spot(View(img)[a], LabelsAt(img, a)))
  }

  ghost function Start(p: seq<Inst>, k: nat): nat {
    if k == 0 then 0 else Start(p, k - 1) + if k <= |p| then 1 + |p[k - 1].next| else 0
  }

  ghost function CellOf(p: seq<Inst>, name: Name, t: Target): Cell {
    match t
    case Plain(v) => Lit(v)
    case Instruction(k) => Ptr(name, Wrap(Start(p, k)))
  }

  /** Word `j` of instruction `x` of program `p`. */
  ghost function SpotOf(p: seq<Inst>, name: Name, x: Inst, j: nat): Spot
    requires j <= |x.next|
  {
    if j == 0 then Spot(Lit(x.word), x.labels)
    else Spot(CellOf(p, name, x.next[j - 1].target), x.next[j - 1].labels)
  }

  ghost predicate InstLaid(p: seq<Inst>, name: Name, spots: seq<Spot>, k: nat)
    requires k < |p|
  {
    && Start(p, k) + |p[k].next| < |spots|
    && forall j :: 0 <= j <= |p[k].next| ==> spots[Start(p, k) + j] == SpotOf(p, name, p[k], j)
  }

  /** The spots are those of the program, laid out instruction by instruction. */
  ghost predicate LaidOut(p: seq<Inst>, name: Name, spots: seq<Spot>) {
    |spots| == Start(p, |p|) && forall k :: 0 <= k < |p| ==> InstLaid(p, name, spots, k)
  }

  predicate IsGuard(l: Label) {
    l.table == Required || l.table == Optional
  }

  ghost predicate Guarded(labels: iset<Label>) {
    exists l :: l in labels && IsGuard(l)
  }

  /** A whole instruction, with pointers to instructions and no labels on its operands other than required and
      optional ones. */
  ghost predicate WholeInst(x: Inst, n: nat) {
    && 1 + |x.next| == Size(x.word)
    && forall o :: o in x.next ==>
                     (o.target.Instruction? ==> o.target.index < n) && forall l :: l in o.labels ==> IsGuard(l)
  }

  ghost predicate Whole(p: seq<Inst>) {
    forall k :: 0 <= k < |p| ==> WholeInst(p[k], |p|)
  }

  /** A word that the pass takes for an instruction of one word, and that has no literal to fold. */
  predicate Harmless(w: Word) {
    !IsCounted(GetA(w)) && !IsCounted(GetB(w))
  }

  ghost predicate HarmlessOperand(o: Operand) {
    o.target.Plain? && Harmless(o.target.value)
  }

  /** The operand words that the pass takes for instructions, those of [register + next word], are harmless. */
  ghost predicate Resynchronised(x: Inst) {
    && Measured(x.word) <= 1 + |x.next|
    && forall j :: Measured(x.word) - 1 <= j < |x.next| ==> HarmlessOperand(x.next[j])
  }

  ghost predicate AllResynchronised(p: seq<Inst>) {
    forall k :: 0 <= k < |p| ==> Resynchronised(p[k])
  }

  ghost predicate Folds(x: Inst) {
    && GetA(x.word) == NXT_LIT && x.next != [] && x.next[0].target.Plain?
    && !Guarded(x.next[0].labels) && Short(x.next[0].target.value).Some?
  }

  ghost function Folded(x: Inst): Inst {
    if Folds(x) then Inst(Shortened(x.word, Short(x.next[0].target.value).value), x.labels, x.next[1..]) else x
  }

  ghost function FoldFirst(p: seq<Inst>, n: nat): (r: seq<Inst>)
    ensures |r| == |p| && forall k :: 0 <= k < |p| ==> r[k] == if k < n then Folded(p[k]) else p[k]
  {
    seq(|p|, k requires 0 <= k < |p| => if k < n then Folded(p[k]) else p[k])
  }

  // ----- What an instruction means -----

  /** The a operand as the machine reads it. */
  datatype Source = Immediate(operand: Operand) | Coded(code: Word, next: Option<Operand>)

  datatype Decoded = Decoded(op: Word, b: Word, a: Source, bNext: Option<Operand>)

  ghost function Decode(x: Inst): Decoded
    requires 1 + |x.next| == Size(x.word)
  {
    var a, op, b := GetA(x.word), GetOp(x.word), GetB(x.word);
    Decoded(op, b,
            if a >= 0x20 then Immediate(Operand(Plain(ShortLiteral(a)), iset{}))
            else if a == NXT_LIT then Immediate(x.next[0])
            else Coded(a, if UsesNext(a) then Some(x.next[0]) else None),
            if op != OP_NONBASIC && UsesNext(b) then Some(x.next[|x.next| - 1]) else None)
  }

  /** Folding keeps the instruction and the values of both operands. */
  lemma {:induction false} FoldKeepsInstruction(x: Inst, n: nat)
    requires WholeInst(x, n)
    ensures WholeInst(Folded(x), n) && Decode(Folded(x)) == Decode(x) && Folded(x).labels == x.labels
    ensures |Folded(x).next| == |x.next| - if Folds(x) then 1 else 0
  {
    if Folds(x) {
      var code := Short(x.next[0].target.value).value;
      FieldsOfCreate(GetOp(x.word), GetB(x.word), code);
      assert x.next[0].labels == iset{} by {
        assert x.next[0] in x.next;
      }
      assert x.next[0] == Operand(Plain(ShortLiteral(code)), iset{});
      assert forall o :: o in x.next[1..] ==> o in x.next;
    }
  }

  /** The pass measures it one word shorter, and takes the same operand words for instructions. */
  lemma {:induction false} FoldKeepsMeasure(x: Inst)
    requires Folds(x)
    ensures Measured(Folded(x).word) == Measured(x.word) - 1
    ensures Resynchronised(x) ==> Resynchronised(Folded(x))
  {
    var code := Short(x.next[0].target.value).value;
    FieldsOfCreate(GetOp(x.word), GetB(x.word), code);
    if Resynchronised(x) {
      var y := Folded(x);
      forall j | Measured(y.word) - 1 <= j < |y.next| ensures HarmlessOperand(y.next[j]) {
        assert y.next[j] == x.next[j + 1];
      }
    }
  }

  // ----- Removing the folded word -----

  lemma {:induction false} EntryOfRemove(es: seq<Entry>, p: nat, s: Word, e: Entry)
    requires s != p && e.address == s
    ensures e.(address := Lowered(s, p, 1)) in RemoveEntries(es, true, p, 1) <==> e in es
  {
    var f := e.(address := Lowered(s, p, 1));
    Meaning.RemoveMovesLabels(es, p, 1, f);
    if f in RemoveEntries(es, true, p, 1) {
      var e' :| e' in es && !InWindow(e'.address, p, 1) && f == e'.(address := Lowered(e'.address, p, 1));
      assert e' == e;
    }
  }

  lemma {:induction false} TablesOfRemove(img: Image, p: nat, t: Table)
    requires CanRemove(img, p, 1)
    ensures TableOf(RemoveFrom(img, p, 1), t) == RemoveEntries(TableOf(img, t), true, p, 1)
  {
  }

  lemma {:induction false} LabelsOfRemove(img: Image, p: nat, s: Word)
    requires CanRemove(img, p, 1) && s != p
    ensures LabelsAt(RemoveFrom(img, p, 1), Lowered(s, p, 1)) == LabelsAt(img, s)
  {
    var r, s' := RemoveFrom(img, p, 1), Lowered(s, p, 1);
    forall l: Label ensures l in LabelsAt(r, s') <==> l in LabelsAt(img, s) {
      TablesOfRemove(img, p, l.table);
      EntryOfRemove(TableOf(img, l.table), p, s, l.entry.(address := s));
    }
  }

  ghost function LowerSpot(s: Spot, p: nat): Spot {
    s.(cell := LowerCell(s.cell, p, 1))
  }

  lemma {:induction false} SpotOfRemove(img: Image, p: nat, s: nat)
    requires CanRemove(img, p, 1) && s < |img.words| <= WORD_COUNT && s != p
    ensures Lowered(s, p, 1) < |RemoveFrom(img, p, 1).words|
    ensures Spots(RemoveFrom(img, p, 1))[Lowered(s, p, 1)] == LowerSpot(Spots(img)[s], p)
  {
    RemovedCell(img, p, 1, s);
    LabelsOfRemove(img, p, s);
  }

  /** The instruction word rewritten, before the literal is removed. */
  function Rewritten(img: Image, i: nat): Image
    requires Foldable(img, i)
  {
    img.(words := img.words[i := Shortened(img.words[i], Short(img.words[i + 1]).value)])
  }

  lemma {:induction false} FoldIsRemove(img: Image, i: nat)
    requires Foldable(img, i) && WellFormed(img) && SelfContained(img)
    ensures CanRemove(Rewritten(img, i), i + 1, 1)
    ensures FoldAt(img, i) == Some(RemoveFrom(Rewritten(img, i), i + 1, 1))
  {
    CutSlots(Rewritten(img, i), i + 1, 1);
  }

  lemma {:induction false} SpotsOfRewrite(img: Image, i: nat)
    requires Foldable(img, i) && WellFormed(img) && !IsSlot(img.adjustment, i)
    ensures Spots(Rewritten(img, i)) == Spots(img)[i := Spot(Lit(Rewritten(img, i).words[i]), Spots(img)[i].labels)]
  {
    var r := Rewritten(img, i);
    Meaning.ViewOfWrite(img, i, r.words[i]);
    forall a: nat | a < |img.words| ensures LabelsAt(r, a) == LabelsAt(img, a) {
      forall t ensures TableOf(r, t) == TableOf(img, t) {
      }
    }
  }

  // ----- The program while the pass runs -----

  lemma {:induction false} StartMonotone(p: seq<Inst>, k: nat, m: nat)
    requires k <= m
    ensures Start(p, k) <= Start(p, m)
    ensures k < m && k < |p| ==> Start(p, k) + 1 + |p[k].next| <= Start(p, m)
  {
    if k < m { StartMonotone(p, k, m - 1); }
  }

  /** Every address of the layout belongs to one word of one instruction. */
  lemma {:induction false} Locate(p: seq<Inst>, n: nat, a: nat) returns (k: nat, j: nat)
    requires n <= |p| && a < Start(p, n)
    ensures k < n && j <= |p[k].next| && a == Start(p, k) + j
  {
    if a >= Start(p, n - 1) {
      k, j := n - 1, a - Start(p, n - 1);
    } else {
      k, j := Locate(p, n - 1, a);
    }
  }

  lemma {:induction false} StartOfFold(p: seq<Inst>, q: seq<Inst>, k: nat, m: nat)
    requires k < |p| && |q| == |p| && (forall i :: 0 <= i < |p| && i != k ==> q[i] == p[i])
    requires |q[k].next| == |p[k].next| - 1
    ensures Start(q, m) == Start(p, m) - if m > k then 1 else 0
  {
    if m > 0 { StartOfFold(p, q, k, m - 1); }
  }

  /** Pointers to instructions follow their instructions. */
  lemma {:induction false} CellOfFold(p: seq<Inst>, q: seq<Inst>, k: nat, name: Name, t: Target)
    requires k < |p| && |q| == |p| && (forall i :: 0 <= i < |p| && i != k ==> q[i] == p[i])
    requires |q[k].next| == |p[k].next| - 1 && Start(p, |p|) <= WORD_COUNT && (t.Instruction? ==> t.index < |p|)
    ensures CellOf(q, name, t) == LowerCell(CellOf(p, name, t), Start(p, k) + 1, 1)
  {
    if t.Instruction? {
      StartOfFold(p, q, k, t.index);
      StartMonotone(p, t.index, |p|);
      if t.index <= k { StartMonotone(p, t.index, k); } else { StartMonotone(p, k, t.index); }
    }
  }

  /** `q` is `p` with the literal of instruction `k` folded. */
  ghost predicate FoldedAt(p: seq<Inst>, q: seq<Inst>, k: nat) {
    && k < |p| && |q| == |p| && Folds(p[k]) && q[k] == Folded(p[k])
    && forall i :: 0 <= i < |p| && i != k ==> q[i] == p[i]
  }

  /** One word of the folded layout. */
  lemma {:induction false} FoldedWord(p: seq<Inst>, q: seq<Inst>, k: nat, name: Name, m: nat, j: nat)
    requires FoldedAt(p, q, k) && Start(p, |p|) <= WORD_COUNT && Whole(p)
    requires m < |q| && j <= |q[m].next|
    ensures var j' := if m == k && j > 0 then j + 1 else j;
            && j' <= |p[m].next| && Start(p, m) + j' != Start(p, k) + 1
            && Lowered(Start(p, m) + j', Start(p, k) + 1, 1) == Start(q, m) + j
            && (m != k || j > 0 ==> SpotOf(q, name, q[m], j) == LowerSpot(SpotOf(p, name, p[m], j'), Start(p, k) + 1))
            && SpotOf(q, name, q[k], 0) == Spot(Lit(q[k].word), p[k].labels)
  {
    var j' := if m == k && j > 0 then j + 1 else j;
    StartOfFold(p, q, k, m);
    if m < k { StartMonotone(p, m, k); } else if m > k { StartMonotone(p, k, m); }
    if j > 0 {
      assert q[m].next[j - 1] == p[m].next[j' - 1];
      assert WholeInst(p[m], |p|) && p[m].next[j' - 1] in p[m].next;
      CellOfFold(p, q, k, name, p[m].next[j' - 1].target);
    }
  }

  ghost predicate CutOf(spots: seq<Spot>, cut: seq<Spot>, p: nat) {
    && |cut| == |spots| - 1
    && forall s :: 0 <= s < |spots| && s != p ==>
                     0 <= Lowered(s, p, 1) < |cut| && cut[Lowered(s, p, 1)] == LowerSpot(spots[s], p)
  }

  lemma {:induction false} FoldedSpot(p: seq<Inst>, q: seq<Inst>, k: nat, name: Name, spots: seq<Spot>, cut: seq<Spot>,
          m: nat, j: nat)
    requires FoldedAt(p, q, k) && Start(p, |p|) <= WORD_COUNT && Whole(p) && LaidOut(p, name, spots)
    requires m < |q| && j <= |q[m].next| && Start(p, k) + 1 < |spots|
    requires CutOf(spots[Start(p, k) := Spot(Lit(q[k].word), p[k].labels)], cut, Start(p, k) + 1)
    ensures Start(q, m) + j < |cut| && cut[Start(q, m) + j] == SpotOf(q, name, q[m], j)
  {
    var i, j' := Start(p, k), if m == k && j > 0 then j + 1 else j;
    var mid := spots[i := Spot(Lit(q[k].word), p[k].labels)];
    FoldedWord(p, q, k, name, m, j);
    LaidAt(p, name, spots, m, j');
    if m < k { StartMonotone(p, m, k); } else if m > k { StartMonotone(p, k, m); }
    assert cut[Lowered(Start(p, m) + j', i + 1, 1)] == LowerSpot(mid[Start(p, m) + j'], i + 1);
  }

  lemma {:induction false} FoldedLayout(p: seq<Inst>, q: seq<Inst>, k: nat, name: Name, spots: seq<Spot>,
          cut: seq<Spot>)
    requires FoldedAt(p, q, k) && Start(p, |p|) <= WORD_COUNT && Whole(p) && LaidOut(p, name, spots)
    requires Start(p, k) + 1 < |spots| &&
             CutOf(spots[Start(p, k) := Spot(Lit(q[k].word), p[k].labels)], cut, Start(p, k) + 1)
    ensures LaidOut(q, name, cut)
  {
    StartOfFold(p, q, k, |p|);
    forall m | 0 <= m < |q| ensures InstLaid(q, name, cut, m) {
      StartMonotone(q, m, |q|);
      forall j | 0 <= j <= |q[m].next| ensures cut[Start(q, m) + j] == SpotOf(q, name, q[m], j) {
        FoldedSpot(p, q, k, name, spots, cut, m, j);
      }
    }
  }

  /** The bin is laid out as the program, and fits the pass. */
  ghost predicate Holds(img: Image, p: seq<Inst>) {
    && WellFormed(img) && SelfContained(img) && |img.words| <= WORD_COUNT
    && LaidOut(p, img.name, Spots(img)) && Whole(p)
  }

  lemma {:induction false} GuardedSpot(img: Image, a: nat)
    requires a < WORD_COUNT
    ensures Guarded(LabelsAt(img, a)) <==> IsSlot(img.required, a) || IsSlot(img.optional, a)
  {
    if IsSlot(img.required, a) {
      var i :| 0 <= i < |img.required| && img.required[i].address == a;
      var l := Label(Required, img.required[i].(address := 0));
      assert l.entry.(address := a) == img.required[i];
      assert l in LabelsAt(img, a) && IsGuard(l);
    }
    if IsSlot(img.optional, a) {
      var i :| 0 <= i < |img.optional| && img.optional[i].address == a;
      var l := Label(Optional, img.optional[i].(address := 0));
      assert l.entry.(address := a) == img.optional[i];
      assert l in LabelsAt(img, a) && IsGuard(l);
    }
  }

  lemma {:induction false} LaidAt(p: seq<Inst>, name: Name, spots: seq<Spot>, k: nat, j: nat)
    requires LaidOut(p, name, spots) && k < |p| && j <= |p[k].next|
    ensures Start(p, k) + j < |spots| && spots[Start(p, k) + j] == SpotOf(p, name, p[k], j)
  {
    assert InstLaid(p, name, spots, k);
  }

  /** A literal operand in the bin and in the program. */
  lemma {:induction false} LiteralSpot(img: Image, x: Operand, p: seq<Inst>, a: nat)
    requires WellFormed(img) && a < |img.words| <= WORD_COUNT
    requires Spots(img)[a] == Spot(CellOf(p, img.name, x.target), x.labels)
    ensures !Protected(img, a) <==> x.target.Plain? && !Guarded(x.labels)
    ensures !Protected(img, a) ==> img.words[a] == x.target.value
  {
    GuardedSpot(img, a);
    if x.target.Plain? { Meaning.LiteralIsNoSlot(img, a); }
  }

  /** The pass folds exactly the instructions it should. */
  lemma {:induction false} FoldsRightly(img: Image, p: seq<Inst>, k: nat)
    requires WellFormed(img) && |img.words| <= WORD_COUNT && LaidOut(p, img.name, Spots(img))
    requires k < |p| && WholeInst(p[k], |p|)
    ensures Start(p, k) < |img.words| && img.words[Start(p, k)] == p[k].word && !IsSlot(img.adjustment, Start(p, k))
    ensures GetA(p[k].word) == NXT_LIT ==> Start(p, k) + 1 < |img.words|
    ensures Foldable(img, Start(p, k)) <==> Folds(p[k])
    ensures Folds(p[k]) ==> img.words[Start(p, k) + 1] == p[k].next[0].target.value
  {
    var i := Start(p, k);
    LaidAt(p, img.name, Spots(img), k, 0);
    Meaning.LiteralIsNoSlot(img, i);
    if GetA(p[k].word) == NXT_LIT {
      LaidAt(p, img.name, Spots(img), k, 1);
      LiteralSpot(img, p[k].next[0], p, i + 1);
    }
  }

  lemma {:induction false} SpotsOfRemove(img: Image, p: nat)
    requires CanRemove(img, p, 1) && |img.words| <= WORD_COUNT
    ensures CutOf(Spots(img), Spots(RemoveFrom(img, p, 1)), p)
  {
    var r := RemoveFrom(img, p, 1);
    assert |r.words| == |img.words| - 1;
    forall s | 0 <= s < |img.words| && s != p
      ensures 0 <= Lowered(s, p, 1) < |r.words| && Spots(r)[Lowered(s, p, 1)] == LowerSpot(Spots(img)[s], p)
    {
      SpotOfRemove(img, p, s);
    }
  }

  lemma {:induction false} SpotsOfFold(img: Image, i: nat)
    requires Foldable(img, i) && WellFormed(img) && SelfContained(img) && |img.words| <= WORD_COUNT
    requires !IsSlot(img.adjustment, i)
    ensures var r := FoldAt(img, i);
            && r.Some? && WellFormed(r.value) && SelfContained(r.value) && r.value.name == img.name
            && CutOf(Spots(img)[i := Spot(Lit(Rewritten(img, i).words[i]), Spots(img)[i].labels)], Spots(r.value),
                     i + 1)
  {
    FoldIsRemove(img, i);
    SpotsOfRewrite(img, i);
    RetargetedDistinct(Rewritten(img, i), i + 1, 1);
    SpotsOfRemove(Rewritten(img, i), i + 1);
  }

  lemma {:induction false} RewrittenSpot(img: Image, p: seq<Inst>, q: seq<Inst>, k: nat)
    requires WellFormed(img) && |img.words| <= WORD_COUNT && LaidOut(p, img.name, Spots(img))
    requires FoldedAt(p, q, k) && WholeInst(p[k], |p|)
    ensures Foldable(img, Start(p, k)) && !IsSlot(img.adjustment, Start(p, k))
    ensures Spot(Lit(Rewritten(img, Start(p, k)).words[Start(p, k)]), Spots(img)[Start(p, k)].labels) ==
            Spot(Lit(q[k].word), p[k].labels)
  {
    FoldsRightly(img, p, k);
    LaidAt(p, img.name, Spots(img), k, 0);
  }

  lemma {:induction false} FoldStep(img: Image, p: seq<Inst>, q: seq<Inst>, k: nat)
    requires Holds(img, p) && FoldedAt(p, q, k) && Whole(q)
    ensures Foldable(img, Start(p, k)) && FoldAt(img, Start(p, k)).Some? && Holds(FoldAt(img, Start(p, k)).value, q)
  {
    var i := Start(p, k);
    RewrittenSpot(img, p, q, k);
    SpotsOfFold(img, i);
    FoldedLayout(p, q, k, img.name, Spots(img), Spots(FoldAt(img, i).value));
  }

  lemma {:induction false} FoldFirstWhole(p: seq<Inst>, k: nat)
    requires Whole(p)
    ensures Whole(FoldFirst(p, k))
  {
    forall i | 0 <= i < |p| ensures WholeInst(FoldFirst(p, k)[i], |p|) {
      FoldKeepsInstruction(p[i], |p|);
    }
  }

  lemma {:induction false} LoopFolds(img: Image, i: nat, saved: Word, r: Image, next: nat, total: Word)
    requires Foldable(img, i) && FoldAt(img, i) == Some(r) && next == i + Measured(img.words[i]) - 1 &&
             total == Wrap(saved + 1)
    ensures Compressed(img, i, saved) == Compressed(r, next, total)
  {
    assert CompressOne(img, i, saved) == Some((r, next, total));
  }

  lemma {:induction false} LoopKeeps(img: Image, i: nat, saved: Word, next: nat)
    requires i < |img.words| && !Foldable(img, i) && (GetA(img.words[i]) == NXT_LIT ==> i + 1 < |img.words|)
    requires next == i + Measured(img.words[i])
    ensures Compressed(img, i, saved) == Compressed(img, next, saved)
  {
    assert CompressOne(img, i, saved) == Some((img, next, saved));
  }

  lemma {:induction false} SameStarts(p: seq<Inst>, q: seq<Inst>, k: nat)
    requires |p| == |q| && forall i :: 0 <= i < k && i < |p| ==> q[i] == p[i]
    ensures Start(q, k) == Start(p, k)
  {
    if k > 0 { SameStarts(p, q, k - 1); }
  }

  lemma {:induction false} NextStart(p: seq<Inst>, q: seq<Inst>, k: nat)
    requires FoldedAt(p, q, k) && WholeInst(p[k], |p|)
    ensures Start(q, k) == Start(p, k) && Measured(q[k].word) == Measured(p[k].word) - 1
  {
    SameStarts(p, q, k);
    FoldKeepsMeasure(p[k]);
  }

  lemma {:induction false} HarmlessMeasure(w: Word)
    requires Harmless(w)
    ensures Measured(w) == 1 && GetA(w) != NXT_LIT
  {
  }

  /** An operand word that is taken for an instruction and left alone. */
  lemma {:induction false} StepOver(img: Image, i: nat, saved: Word)
    requires i < |img.words| && Harmless(img.words[i])
    ensures Compressed(img, i, saved) == Compressed(img, i + 1, saved)
  {
    HarmlessMeasure(img.words[i]);
    LoopKeeps(img, i, saved, i + 1);
  }

  lemma {:induction false} LiteralWord(img: Image, i: nat, w: Word)
    requires WellFormed(img) && i < |img.words| && View(img)[i] == Lit(w)
    ensures img.words[i] == w && !IsSlot(img.adjustment, i)
  {
    Meaning.LiteralIsNoSlot(img, i);
  }

  lemma {:induction false} StepOverOne(img: Image, p: seq<Inst>, k: nat, j: nat, i: nat, saved: Word)
    requires WellFormed(img) && LaidOut(p, img.name, Spots(img)) && k < |p| && Resynchronised(p[k])
    requires Measured(p[k].word) - 1 <= j < |p[k].next| && i == Start(p, k) + 1 + j
    ensures Compressed(img, i, saved) == Compressed(img, i + 1, saved)
  {
    assert HarmlessOperand(p[k].next[j]);
    LaidAt(p, img.name, Spots(img), k, j + 1);
    LiteralWord(img, i, p[k].next[j].target.value);
    StepOver(img, i, saved);
  }

  /** From operand `j` on, all words of instruction `k` are stepped over. */
  lemma {:induction false} StepOverAll(img: Image, p: seq<Inst>, k: nat, j: nat, i: nat, saved: Word)
    requires WellFormed(img) && LaidOut(p, img.name, Spots(img)) && k < |p| && Resynchronised(p[k])
    requires Measured(p[k].word) - 1 <= j <= |p[k].next| && i == Start(p, k) + 1 + j
    ensures Compressed(img, i, saved) == Compressed(img, Start(p, k + 1), saved)
    decreases |p[k].next| - j
  {
    if j < |p[k].next| {
      StepOverOne(img, p, k, j, i, saved);
      StepOverAll(img, p, k, j + 1, i + 1, saved);
    }
  }

  /** From behind the measured words of instruction `k` to the next instruction. */
  lemma {:induction false} ToNext(img: Image, p: seq<Inst>, k: nat, i: nat, saved: Word)
    requires WellFormed(img) && LaidOut(p, img.name, Spots(img)) && k < |p| && Resynchronised(p[k])
    requires i == Start(p, k) + Measured(p[k].word)
    ensures Compressed(img, i, saved) == Compressed(img, Start(p, k + 1), saved)
  {
    StepOverAll(img, p, k, Measured(p[k].word) - 1, i, saved);
  }

  lemma {:induction false} FoldRound(img: Image, p: seq<Inst>, q: seq<Inst>, k: nat, saved: Word)
    requires Holds(img, p) && FoldedAt(p, q, k) && Whole(q) && Resynchronised(p[k])
    ensures Foldable(img, Start(p, k)) && FoldAt(img, Start(p, k)).Some?
    ensures Compressed(img, Start(p, k), saved) ==
            Compressed(FoldAt(img, Start(p, k)).value, Start(q, k + 1), Wrap(saved + 1))
  {
    var i := Start(p, k);
    FoldStep(img, p, q, k);
    FoldsRightly(img, p, k);
    NextStart(p, q, k);
    FoldKeepsMeasure(p[k]);
    var next, total := i + Measured(img.words[i]) - 1, Wrap(saved + 1);
    LoopFolds(img, i, saved, FoldAt(img, i).value, next, total);
    ToNext(FoldAt(img, i).value, q, k, next, total);
  }

  lemma {:induction false} KeepRound(img: Image, p: seq<Inst>, k: nat, saved: Word)
    requires WellFormed(img) && LaidOut(p, img.name, Spots(img)) && k < |p| && Resynchronised(p[k])
    requires Start(p, k) < |img.words| && img.words[Start(p, k)] == p[k].word && !Foldable(img, Start(p, k))
    requires GetA(p[k].word) == NXT_LIT ==> Start(p, k) + 1 < |img.words|
    ensures Compressed(img, Start(p, k), saved) == Compressed(img, Start(p, k + 1), saved)
  {
    var next := Start(p, k) + Measured(p[k].word);
    LoopKeeps(img, Start(p, k), saved, next);
    ToNext(img, p, k, next, saved);
  }

  /** From word `i` on, the pass turns the bin into the program `q`. */
  ghost predicate Finishes(img: Image, i: nat, saved: Word, q: seq<Inst>) {
    var r := Compressed(img, i, saved);
    r.Some? && Holds(r.value.0, q) && r.value.1 == saved + |img.words| - |r.value.0.words|
  }

  lemma {:induction false} FinishesNow(img: Image, p: seq<Inst>, saved: Word)
    requires Holds(img, p)
    ensures Finishes(img, Start(p, |p|), saved, p)
  {
  }

  lemma {:induction false} FinishesFolding(img: Image, p: seq<Inst>, q: seq<Inst>, k: nat, saved: Word, end: seq<Inst>)
    requires Holds(img, p) && FoldedAt(p, q, k) && Whole(q) && saved < WORD_COUNT - 1 && Resynchronised(p[k])
    requires forall r :: Holds(r, q) && saved + 1 + |r.words| <= WORD_COUNT ==>
             Finishes(r, Start(q, k + 1), saved + 1, end)
    requires saved + |img.words| <= WORD_COUNT
    ensures Finishes(img, Start(p, k), saved, end)
  {
    FoldStep(img, p, q, k);
    FoldRound(img, p, q, k, saved);
    assert Finishes(FoldAt(img, Start(p, k)).value, Start(q, k + 1), saved + 1, end);
  }

  lemma {:induction false} FinishesKeeping(img: Image, p: seq<Inst>, k: nat, saved: Word, end: seq<Inst>)
    requires Holds(img, p) && k < |p| && Resynchronised(p[k]) && !Folds(p[k]) &&
             Finishes(img, Start(p, k + 1), saved, end)
    ensures Finishes(img, Start(p, k), saved, end)
  {
    FoldsRightly(img, p, k);
    KeepRound(img, p, k, saved);
  }

  lemma {:induction false} FoldedSize(p: seq<Inst>, k: nat)
    requires k < |p| && Folds(p[k])
    ensures 1 <= Start(FoldFirst(p, k + 1), |p|) == Start(FoldFirst(p, k), |p|) - 1
  {
    StartOfFold(FoldFirst(p, k), FoldFirst(p, k + 1), k, |p|);
    StartMonotone(FoldFirst(p, k), k, |p|);
  }

  /** From instruction `k` on, the pass folds the rest of the program, whatever bin holds it. */
  ghost predicate AllFinish(p: seq<Inst>, k: nat) {
    forall img, saved: Word :: Holds(img, FoldFirst(p, k)) && saved + |img.words| <= WORD_COUNT ==>
                                 Finishes(img, Start(FoldFirst(p, k), k), saved, FoldFirst(p, |p|))
  }

  lemma {:induction false} FoldOne(p: seq<Inst>, k: nat, img: Image, saved: Word)
    requires k < |p| && Whole(p) && AllResynchronised(p) && Folds(p[k]) && AllFinish(p, k + 1)
    requires Holds(img, FoldFirst(p, k)) && saved + |img.words| <= WORD_COUNT
    ensures Finishes(img, Start(FoldFirst(p, k), k), saved, FoldFirst(p, |p|))
  {
    FoldFirstWhole(p, k + 1);
    FoldedSize(p, k);
    FinishesFolding(img, FoldFirst(p, k), FoldFirst(p, k + 1), k, saved, FoldFirst(p, |p|));
  }

  lemma {:induction false} CompressFrom(p: seq<Inst>, k: nat)
    requires k < |p| && Whole(p) && AllResynchronised(p) && AllFinish(p, k + 1)
    ensures AllFinish(p, k)
  {
    forall img, saved: Word | Holds(img, FoldFirst(p, k)) && saved + |img.words| <= WORD_COUNT
      ensures Finishes(img, Start(FoldFirst(p, k), k), saved, FoldFirst(p, |p|))
    {
      if Folds(p[k]) {
        FoldOne(p, k, img, saved);
      } else {
        assert FoldFirst(p, k + 1) == FoldFirst(p, k);
        FinishesKeeping(img, FoldFirst(p, k), k, saved, FoldFirst(p, |p|));
      }
    }
  }

  lemma {:induction false} CompressAll(p: seq<Inst>)
    requires Whole(p) && AllResynchronised(p)
    ensures AllFinish(p, 0)
  {
    forall img, saved: Word | Holds(img, FoldFirst(p, |p|))
      ensures Finishes(img, Start(FoldFirst(p, |p|), |p|), saved, FoldFirst(p, |p|))
    {
      FinishesNow(img, FoldFirst(p, |p|), saved);
    }
    for k := |p| downto 0
      invariant AllFinish(p, k)
    {
      CompressFrom(p, k);
    }
  }

  lemma {:induction false} CompressRuns(img: Image, p: seq<Inst>)
    requires Holds(img, p) && AllResynchronised(p)
    ensures Finishes(img, 0, 0, FoldFirst(p, |p|))
  {
    assert FoldFirst(p, 0) == p;
    CompressAll(p);
    assert Finishes(img, Start(FoldFirst(p, 0), 0), 0, FoldFirst(p, |p|));
  }

  /** The same instructions, reading the same operand values, under the same labels. */
  ghost predicate SameProgram(p: seq<Inst>, q: seq<Inst>) {
    && |p| == |q| && Whole(p) && Whole(q)
    && forall k :: 0 <= k < |p| ==> WholeInst(p[k], |p|) && WholeInst(q[k], |q|) &&
                                    Decode(q[k]) == Decode(p[k]) && q[k].labels == p[k].labels
  }

  /**
   Short-literal compression preserves meaning: a bin laid out as a program whose [register + next word]
   operands are harmless ends up laid out as the program with every foldable literal folded. Instructions,
   operand values, labels and pointers, which denote instructions, stay the same; protected words are not
   folded; and the result is the number of words by which the bin got shorter.
   */
  lemma {:induction false} CompressKeepsMeaning(img: Image, p: seq<Inst>)
    requires Holds(img, p) && AllResynchronised(p)
    ensures SameProgram(p, FoldFirst(p, |p|))
    ensures Finishes(img, 0, 0, FoldFirst(p, |p|))
  {
    CompressRuns(img, p);
    FoldFirstWhole(p, |p|);
    forall k | 0 <= k < |p| ensures Decode(Folded(p[k])) == Decode(p[k]) && Folded(p[k]).labels == p[k].labels {
      FoldKeepsInstruction(p[k], |p|);
    }
  }
}
