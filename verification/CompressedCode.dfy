/**
 Compression before resolution: code that is open for a program is, with its short literals folded, open for
 the program with the same literals folded.
 */
module CompressedCode {
  import opened Words
  import opened Dcpu
  import opened BinImages
  import opened Removal
  import opened Compression
  import opened OpenCode
  import Meaning

  // ----- Cells of a program -----

  ghost predicate InstCells(p: seq<Inst>, name: Name, cells: seq<Cell>, k: nat)
    requires k < |p|
  {
    && Start(p, k) + |p[k].next| < |cells|
    && forall j :: 0 <= j <= |p[k].next| ==> cells[Start(p, k) + j] == SpotOf(p, name, p[k], j).cell
  }

  /** The cells are those of the program, instruction by instruction. */
  ghost predicate LaidCells(p: seq<Inst>, name: Name, cells: seq<Cell>) {
    |cells| == Start(p, |p|) && forall k :: 0 <= k < |p| ==> InstCells(p, name, cells, k)
  }

  lemma {:induction false} CellLaid(p: seq<Inst>, name: Name, cells: seq<Cell>, k: nat, j: nat)
    requires LaidCells(p, name, cells) && k < |p| && j <= |p[k].next|
    ensures Start(p, k) + j < |cells| && cells[Start(p, k) + j] == SpotOf(p, name, p[k], j).cell
  {
    assert InstCells(p, name, cells, k);
  }

  /** A whole instruction without labels, whose pointers denote instructions. */
  ghost predicate BareInst(x: Inst, n: nat) {
    && 1 + |x.next| == Size(x.word) && x.labels == iset{}
    && forall o :: o in x.next ==> o.labels == iset{} && (o.target.Instruction? ==> o.target.index < n)
  }

  ghost predicate Bare(p: seq<Inst>) {
    forall k :: 0 <= k < |p| ==> BareInst(p[k], |p|)
  }

  // ----- The program of an open bin -----

  /** An operand as the bin has it: at the slot of a required label there is a zero. */
  ghost function OpenOperand(o: Operand, labels: iset<Label>): Operand {
    Operand(if Guarded(labels) then Plain(0) else o.target, labels)
  }

  ghost function OpenInst(x: Inst, img: Image, a: nat): (r: Inst)
    ensures |r.next| == |x.next|
  {
    Inst(x.word, LabelsAt(img, a),
         seq(|x.next|, j requires 0 <= j < |x.next| => OpenOperand(x.next[j], LabelsAt(img, a + 1 + j))))
  }

  /** The first `k` instructions as the bin holds them before its required labels are resolved. */
  ghost function OpenFirst(p: seq<Inst>, img: Image, k: nat): (r: seq<Inst>)
    requires k <= |p|
    ensures |r| == k && forall i :: 0 <= i < k ==> |r[i].next| == |p[i].next|
  {
    if k == 0 then [] else OpenFirst(p, img, k - 1) + [OpenInst(p[k - 1], img, Start(p, k - 1))]
  }

  ghost function OpenProgram(p: seq<Inst>, img: Image): (r: seq<Inst>)
    ensures |r| == |p| && forall i :: 0 <= i < |p| ==> |r[i].next| == |p[i].next|
  {
    OpenFirst(p, img, |p|)
  }

  lemma {:induction false} OpenAt(p: seq<Inst>, img: Image, n: nat, k: nat)
    requires k < n <= |p|
    ensures OpenFirst(p, img, n)[k] == OpenInst(p[k], img, Start(p, k))
  {
    if k < n - 1 { OpenAt(p, img, n - 1, k); }
  }

  ghost predicate AtStart(p: seq<Inst>, a: nat) {
    exists m :: 0 <= m < |p| && Start(p, m) == a
  }

  ghost predicate ProvidedStarts(img: Image, p: seq<Inst>) {
    forall i :: 0 <= i < |img.provided| ==> AtStart(p, img.provided[i].address)
  }

  /** All labels are inside the bin, and no two required ones at one address. */
  ghost predicate TablesFit(img: Image) {
    Distinct(img.required) && forall t :: Below(TableOf(img, t), |img.words|)
  }

  /** The bin has the program `p` but for its required labels; its provided labels denote instructions. */
  ghost predicate HoldsOpen(img: Image, p: seq<Inst>, goal: seq<Cell>) {
    && OpenRequired(img, goal) && LaidCells(p, img.name, goal) && Bare(p)
    && SelfContained(img) && |img.words| <= WORD_COUNT && TablesFit(img)
    && ProvidedStarts(img, p) && img.output == [] && img.call == []
  }

  lemma {:induction false} SameSizes(p: seq<Inst>, q: seq<Inst>, k: nat)
    requires |p| == |q| && forall i :: 0 <= i < |p| ==> |q[i].next| == |p[i].next|
    ensures Start(q, k) == Start(p, k)
  {
    if k > 0 { SameSizes(p, q, k - 1); }
  }

  /** Different words of a program have different addresses. */
  lemma {:induction false} SameWord(p: seq<Inst>, k: nat, j: nat, k': nat, j': nat)
    requires k < |p| && j <= |p[k].next| && k' < |p| && j' <= |p[k'].next| && Start(p, k) + j == Start(p, k') + j'
    ensures k == k' && j == j'
  {
    if k < k' { StartMonotone(p, k, k'); }
    if k' < k { StartMonotone(p, k', k); }
  }

  lemma {:induction false} LabelsFrom(img: Image, a: nat, l: Label)
    requires l in LabelsAt(img, a)
    ensures exists i :: 0 <= i < |TableOf(img, l.table)| && TableOf(img, l.table)[i] == l.entry.(address := a)
  {
  }

  /** Only required labels are at operands. */
  lemma {:induction false} OperandLabel(img: Image, p: seq<Inst>, goal: seq<Cell>, k: nat, j: nat, l: Label)
    requires HoldsOpen(img, p, goal) && k < |p| && j < |p[k].next| && l in LabelsAt(img, Start(p, k) + 1 + j)
    ensures l.table == Required
  {
    LabelsFrom(img, Start(p, k) + 1 + j, l);
    if l.table == Provided {
      var m :| 0 <= m < |p| && Start(p, m) == Start(p, k) + 1 + j;
      SameWord(p, m, 0, k, j + 1);
    }
  }

  lemma {:induction false} GuardedIsRequired(img: Image, a: nat)
    requires a < |img.words| <= WORD_COUNT && img.optional == []
    ensures Guarded(LabelsAt(img, a)) <==> IsSlot(img.required, a)
  {
    GuardedSpot(img, a);
  }

  /** The cell of a required label is free, and the goal has a pointer there. */
  lemma {:induction false} RequiredCell(img: Image, goal: seq<Cell>, a: nat)
    requires OpenRequired(img, goal) && a < |img.words|
    ensures if IsSlot(img.required, a) then View(img)[a] == Lit(0) && goal[a].Ptr? && goal[a].bin == img.name
            else View(img)[a] == goal[a]
  {
    if IsSlot(img.required, a) {
      var i :| 0 <= i < |img.required| && img.required[i].address == a;
      assert Wanted(img, goal, img.required[i]);
    }
  }

  lemma {:induction false} OpenNext(img: Image, p: seq<Inst>, k: nat, j: nat, a: nat)
    requires k < |p| && j < |p[k].next| && a == Start(p, k) + 1 + j
    ensures OpenProgram(p, img)[k].next[j] == OpenOperand(p[k].next[j], LabelsAt(img, a))
  {
    OpenAt(p, img, |p|, k);
  }

  lemma {:induction false} OpenHead(img: Image, p: seq<Inst>, k: nat)
    requires k < |p|
    ensures OpenProgram(p, img)[k].word == p[k].word
    ensures OpenProgram(p, img)[k].labels == LabelsAt(img, Start(p, k))
  {
    OpenAt(p, img, |p|, k);
  }

  lemma {:induction false} OpenStart(img: Image, p: seq<Inst>, k: nat)
    ensures Start(OpenProgram(p, img), k) == Start(p, k)
  {
    SameSizes(p, OpenProgram(p, img), k);
  }

  lemma {:induction false} SameCell(p: seq<Inst>, q: seq<Inst>, name: Name, t: Target)
    requires t.Instruction? ==> Start(q, t.index) == Start(p, t.index)
    ensures CellOf(q, name, t) == CellOf(p, name, t)
  {
  }

  lemma {:induction false} OpenSpotCell(img: Image, p: seq<Inst>, goal: seq<Cell>, o: Operand, a: nat)
    requires OpenRequired(img, goal) && a < |img.words| <= WORD_COUNT && goal[a] == CellOf(p, img.name, o.target)
    ensures Spots(img)[a] == Spot(CellOf(p, img.name, OpenOperand(o, LabelsAt(img, a)).target), LabelsAt(img, a))
  {
    RequiredCell(img, goal, a);
    GuardedIsRequired(img, a);
  }

  lemma {:induction false} OpenSpot(img: Image, p: seq<Inst>, goal: seq<Cell>, k: nat, j: nat, q: seq<Inst>, a: nat)
    requires HoldsOpen(img, p, goal) && k < |p| && j <= |p[k].next| && q == OpenProgram(p, img)
    requires a == Start(p, k) + j
    ensures a < |img.words| && Spots(img)[a] == SpotOf(q, img.name, q[k], j)
  {
    CellLaid(p, img.name, goal, k, j);
    if j == 0 {
      RequiredCell(img, goal, a);
      OpenHead(img, p, k);
    } else {
      var o := p[k].next[j - 1];
      OpenSpotCell(img, p, goal, o, a);
      OpenNext(img, p, k, j - 1, a);
      var t := OpenOperand(o, LabelsAt(img, a)).target;
      if t.Instruction? { OpenStart(img, p, t.index); }
      SameCell(p, q, img.name, t);
    }
  }

  ghost predicate GuardsOnly(o: Operand, n: nat) {
    (o.target.Instruction? ==> o.target.index < n) && forall l :: l in o.labels ==> IsGuard(l)
  }

  lemma {:induction false} OpenIsGuard(img: Image, p: seq<Inst>, goal: seq<Cell>, k: nat, j: nat, o: Operand)
    requires HoldsOpen(img, p, goal) && k < |p| && j < |p[k].next|
    requires o == OpenOperand(p[k].next[j], LabelsAt(img, Start(p, k) + 1 + j))
    ensures GuardsOnly(o, |p|)
  {
    assert BareInst(p[k], |p|) && p[k].next[j] in p[k].next;
    forall l | l in o.labels ensures IsGuard(l) {
      OperandLabel(img, p, goal, k, j, l);
    }
  }

  lemma {:induction false} WholeFrom(x: Inst, n: nat)
    requires 1 + |x.next| == Size(x.word) && forall j :: 0 <= j < |x.next| ==> GuardsOnly(x.next[j], n)
    ensures WholeInst(x, n)
  {
  }

  lemma {:induction false} BareSize(p: seq<Inst>, k: nat)
    requires Bare(p) && k < |p|
    ensures 1 + |p[k].next| == Size(p[k].word)
  {
    assert BareInst(p[k], |p|);
  }

  lemma {:induction false} OpenWhole(img: Image, p: seq<Inst>, goal: seq<Cell>, k: nat, x: Inst)
    requires HoldsOpen(img, p, goal) && k < |p| && x == OpenProgram(p, img)[k]
    ensures WholeInst(x, |p|)
  {
    BareSize(p, k);
    OpenHead(img, p, k);
    forall j | 0 <= j < |x.next| ensures GuardsOnly(x.next[j], |p|) {
      OpenNext(img, p, k, j, Start(p, k) + 1 + j);
      OpenIsGuard(img, p, goal, k, j, x.next[j]);
    }
    WholeFrom(x, |p|);
  }

  lemma {:induction false} LaidFrom(q: seq<Inst>, name: Name, spots: seq<Spot>, k: nat, a: nat)
    requires k < |q| && a == Start(q, k) && a + |q[k].next| < |spots|
    requires forall j :: 0 <= j <= |q[k].next| ==> SpotAt(spots, a, j) == SpotOf(q, name, q[k], j)
    ensures InstLaid(q, name, spots, k)
  {
    forall j | 0 <= j <= |q[k].next| ensures spots[a + j] == SpotOf(q, name, q[k], j) {
      assert SpotAt(spots, a, j) == SpotOf(q, name, q[k], j);
    }
  }

  ghost function SpotAt(spots: seq<Spot>, a: nat, j: nat): Spot {
    if a + j < |spots| then spots[a + j] else Spot(Lit(0), iset{})
  }

  lemma {:induction false} OpenLaid(img: Image, p: seq<Inst>, goal: seq<Cell>, k: nat, q: seq<Inst>)
    requires HoldsOpen(img, p, goal) && k < |p| && q == OpenProgram(p, img)
    ensures InstLaid(q, img.name, Spots(img), k)
  {
    var a, n, spots := Start(p, k), |p[k].next|, Spots(img);
    OpenStart(img, p, k);
    OpenSpot(img, p, goal, k, n, q, a + n);
    forall j | 0 <= j <= n ensures SpotAt(spots, a, j) == SpotOf(q, img.name, q[k], j) {
      OpenSpot(img, p, goal, k, j, q, a + j);
    }
    LaidFrom(q, img.name, spots, k, a);
  }

  /** The bin is laid out as its open program. */
  lemma {:induction false} OpenHolds(img: Image, p: seq<Inst>, goal: seq<Cell>, q: seq<Inst>)
    requires HoldsOpen(img, p, goal) && q == OpenProgram(p, img)
    ensures Holds(img, q)
  {
    OpenStart(img, p, |p|);
    forall k | 0 <= k < |q| ensures InstLaid(q, img.name, Spots(img), k) && WholeInst(q[k], |q|) {
      OpenWhole(img, p, goal, k, q[k]);
      OpenLaid(img, p, goal, k, q);
    }
  }

  // ----- The tables while the pass runs -----

  lemma {:induction false} LoweredDistinct(es: seq<Entry>, a: nat)
    requires Distinct(es) && forall i :: 0 <= i < |es| ==> !InWindow(es[i].address, a, 1)
    ensures Distinct(LowerAll(es, a, 1))
  {
  }

  lemma {:induction false} RemovalKeepsDistinct(es: seq<Entry>, a: nat)
    requires Distinct(es)
    ensures Distinct(RemoveEntries(es, true, a, 1))
  {
    var sorted := SortByAddress(es);
    SortKeepsDistinct(es);
    DropWindowDistinct(sorted, a, 1);
    DropWindowMembers(sorted, a, 1);
    var dropped := DropWindow(sorted, a, 1);
    forall i | 0 <= i < |dropped| ensures !InWindow(dropped[i].address, a, 1) {
      assert dropped[i] in dropped;
    }
    LoweredDistinct(dropped, a);
  }

  lemma {:induction false} RemovalKeepsInside(es: seq<Entry>, a: nat, size: nat)
    requires Below(es, size) && a < size
    ensures Below(RemoveEntries(es, true, a, 1), size - 1)
  {
    var r := RemoveEntries(es, true, a, 1);
    forall i | 0 <= i < |r| ensures r[i].address < size - 1 {
      Meaning.RemoveMovesLabels(es, a, 1, r[i]);
      var e :| e in es && !InWindow(e.address, a, 1) && r[i] == e.(address := Lowered(e.address, a, 1));
    }
  }

  lemma {:induction false} FoldKeepsTables(img: Image, i: nat)
    requires Foldable(img, i) && TablesFit(img) && FoldAt(img, i).Some?
    ensures TablesFit(FoldAt(img, i).value) && FoldAt(img, i).value.name == img.name
  {
    var r := FoldAt(img, i).value;
    RemovalKeepsDistinct(img.required, i + 1);
    forall t ensures Below(TableOf(r, t), |r.words|) {
      RemovalKeepsInside(TableOf(img, t), i + 1, |img.words|);
    }
  }

  /** The pass keeps labels inside the bin, and required ones apart. */
  lemma {:induction false} CompressionKeepsTables(img: Image, i: nat, saved: Word)
    requires TablesFit(img) && Compressed(img, i, saved).Some?
    ensures TablesFit(Compressed(img, i, saved).value.0) && Compressed(img, i, saved).value.0.name == img.name
    decreases |img.words| - i
  {
    if i < |img.words| {
      var (r, next, total) := CompressOne(img, i, saved).value;
      if Foldable(img, i) { FoldKeepsTables(img, i); }
      CompressionKeepsTables(r, next, total);
    }
  }

  // ----- The folded program -----

  lemma {:induction false} SameFoldsOf(x: Inst, y: Inst, labels: iset<Label>)
    requires x.word == y.word && |x.next| == |y.next|
    requires y.next != [] ==> y.next[0].labels == iset{} && x.next[0] == OpenOperand(y.next[0], labels) &&
                              (Guarded(labels) ==> y.next[0].target.Instruction?)
    ensures Folds(x) <==> Folds(y)
    ensures Folded(x).word == Folded(y).word && |Folded(x).next| == |Folded(y).next|
  {
  }

  /** What the goal has at an operand. */
  lemma {:induction false} OpenTarget(img: Image, p: seq<Inst>, goal: seq<Cell>, k: nat, j: nat, a: nat, o: Operand)
    requires HoldsOpen(img, p, goal) && k < |p| && j < |p[k].next| && a == Start(p, k) + 1 + j && o == p[k].next[j]
    ensures a < |img.words| && o.labels == iset{} && (o.target.Instruction? ==> o.target.index < |p|)
    ensures goal[a] == CellOf(p, img.name, o.target)
    ensures Guarded(LabelsAt(img, a)) <==> IsSlot(img.required, a)
    ensures Guarded(LabelsAt(img, a)) ==> o.target.Instruction?
  {
    assert BareInst(p[k], |p|) && o in p[k].next;
    CellLaid(p, img.name, goal, k, j + 1);
    RequiredCell(img, goal, a);
    GuardedIsRequired(img, a);
  }

  /** Both programs fold the same instructions. */
  lemma {:induction false} SameFolds(img: Image, p: seq<Inst>, goal: seq<Cell>, k: nat, x: Inst)
    requires HoldsOpen(img, p, goal) && k < |p| && x == OpenProgram(p, img)[k]
    ensures Folds(x) <==> Folds(p[k])
    ensures Folded(x).word == Folded(p[k]).word && |Folded(x).next| == |Folded(p[k]).next|
  {
    var a := Start(p, k) + 1;
    OpenHead(img, p, k);
    if p[k].next != [] {
      OpenTarget(img, p, goal, k, 0, a, p[k].next[0]);
      OpenNext(img, p, k, 0, a);
    }
    SameFoldsOf(x, p[k], LabelsAt(img, a));
  }

  /** Operand `j` of a folded instruction is operand `j` or `j + 1` of the instruction. */
  function Shifted(folds: bool, j: nat): nat {
    if folds then j + 1 else j
  }

  lemma {:induction false} FoldedNext(x: Inst, j: nat)
    requires j < |Folded(x).next|
    ensures Shifted(Folds(x), j) < |x.next| && Folded(x).next[j] == x.next[Shifted(Folds(x), j)]
  {
  }

  /** The folded programs have the same shape. */
  lemma {:induction false} SameShape(img: Image, p: seq<Inst>, goal: seq<Cell>, q: seq<Inst>, n: nat)
    requires HoldsOpen(img, p, goal) && q == OpenProgram(p, img)
    ensures Start(FoldFirst(q, |q|), n) == Start(FoldFirst(p, |p|), n)
  {
    forall k | 0 <= k < |p| ensures |FoldFirst(q, |q|)[k].next| == |FoldFirst(p, |p|)[k].next| {
      SameFolds(img, p, goal, k, q[k]);
    }
    SameSizes(FoldFirst(p, |p|), FoldFirst(q, |q|), n);
  }

  // ----- The compressed bin -----

  /** The bin `c` is what the pass makes of `img`; `goal'` are the cells of the folded program. */
  ghost predicate Compressing(img: Image, p: seq<Inst>, goal: seq<Cell>, c: Image, goal': seq<Cell>) {
    && HoldsOpen(img, p, goal) && Holds(c, FoldFirst(OpenProgram(p, img), |p|)) && TablesFit(c) && c.name == img.name
    && LaidCells(FoldFirst(p, |p|), img.name, goal')
  }

  /** Word `j` of folded instruction `k` was word `i` of the instruction. */
  ghost predicate WordFrom(p: seq<Inst>, k: nat, j: nat, i: nat) {
    && k < |p| && j <= |Folded(p[k]).next| && i <= |p[k].next|
    && i == if j == 0 then 0 else Shifted(Folds(p[k]), j - 1) + 1
  }

  lemma {:induction false} FoldedLabels(img: Image, p: seq<Inst>, k: nat, j: nat, i: nat, x: Inst, b: nat)
    requires WordFrom(p, k, j, i) && x == OpenProgram(p, img)[k] && (Folds(x) <==> Folds(p[k]))
    requires b == Start(p, k) + i
    ensures j <= |Folded(x).next|
    ensures (if j == 0 then Folded(x).labels else Folded(x).next[j - 1].labels) == LabelsAt(img, b)
    ensures j > 0 ==> Folded(p[k]).next[j - 1] == p[k].next[i - 1]
    ensures j > 0 ==> Folded(x).next[j - 1] == OpenOperand(p[k].next[i - 1], LabelsAt(img, b))
  {
    OpenHead(img, p, k);
    if j > 0 {
      FoldedNext(p[k], j - 1);
      FoldedNext(x, j - 1);
      OpenNext(img, p, k, i - 1, b);
    }
  }

  /** A word of the compressed bin, where it was before. */
  lemma {:induction false} FoldedSpotAt(img: Image, p: seq<Inst>, goal: seq<Cell>, c: Image, goal': seq<Cell>, k: nat,
          j: nat, i: nat, a: nat, b: nat)
    requires Compressing(img, p, goal, c, goal') && WordFrom(p, k, j, i)
    requires a == Start(FoldFirst(p, |p|), k) + j && b == Start(p, k) + i
    ensures a < |c.words| && LabelsAt(c, a) == LabelsAt(img, b)
    ensures var q := FoldFirst(OpenProgram(p, img), |p|);
            j <= |q[k].next| && View(c)[a] == SpotOf(q, c.name, q[k], j).cell
  {
    var x, q := OpenProgram(p, img)[k], FoldFirst(OpenProgram(p, img), |p|);
    SameFolds(img, p, goal, k, x);
    SameShape(img, p, goal, OpenProgram(p, img), k);
    FoldedLabels(img, p, k, j, i, x, b);
    HeldSpot(c, q, k, j, a, q[k]);
  }

  lemma {:induction false} HeldSpot(c: Image, q: seq<Inst>, k: nat, j: nat, a: nat, x: Inst)
    requires Holds(c, q) && k < |q| && x == q[k] && j <= |x.next| && a == Start(q, k) + j
    ensures a < |c.words| && View(c)[a] == SpotOf(q, c.name, x, j).cell
    ensures LabelsAt(c, a) == if j == 0 then x.labels else x.next[j - 1].labels
  {
    LaidAt(q, c.name, Spots(c), k, j);
  }

  /** What the compressed bin and the folded program have at an operand. */
  lemma {:induction false} FoldedOperand(img: Image, p: seq<Inst>, goal: seq<Cell>, c: Image, goal': seq<Cell>, k: nat,
          j: nat, i: nat, a: nat, b: nat, o: Operand)
    requires Compressing(img, p, goal, c, goal') && WordFrom(p, k, j, i) && j > 0 && o == p[k].next[i - 1]
    requires a == Start(FoldFirst(p, |p|), k) + j && b == Start(p, k) + i
    ensures a < |c.words| && a < |goal'| && goal'[a] == CellOf(FoldFirst(p, |p|), c.name, o.target)
    ensures View(c)[a] == if Guarded(LabelsAt(img, b)) then Lit(0) else goal'[a]
  {
    var x, q := OpenProgram(p, img)[k], FoldFirst(OpenProgram(p, img), |p|);
    FoldedSpotAt(img, p, goal, c, goal', k, j, i, a, b);
    SameFolds(img, p, goal, k, x);
    FoldedLabels(img, p, k, j, i, x, b);
    CellLaid(FoldFirst(p, |p|), img.name, goal', k, j);
    if o.target.Instruction? { SameShape(img, p, goal, OpenProgram(p, img), o.target.index); }
    SameCell(FoldFirst(p, |p|), q, c.name, o.target);
  }

  lemma {:induction false} FoldedOpcode(img: Image, p: seq<Inst>, goal: seq<Cell>, c: Image, goal': seq<Cell>, k: nat,
          a: nat)
    requires Compressing(img, p, goal, c, goal') && k < |p| && a == Start(FoldFirst(p, |p|), k)
    ensures a < |c.words| && a < |goal'| && View(c)[a] == goal'[a]
  {
    FoldedSpotAt(img, p, goal, c, goal', k, 0, 0, a, Start(p, k));
    SameFolds(img, p, goal, k, OpenProgram(p, img)[k]);
    CellLaid(FoldFirst(p, |p|), img.name, goal', k, 0);
  }

  /** Where a word of the compressed bin was. */
  lemma {:induction false} FoldedFrom(img: Image, p: seq<Inst>, goal: seq<Cell>, c: Image, goal': seq<Cell>, a: nat)
    returns (k: nat, j: nat, i: nat, b: nat)
    requires Compressing(img, p, goal, c, goal') && a < |c.words|
    ensures WordFrom(p, k, j, i) && a == Start(FoldFirst(p, |p|), k) + j && b == Start(p, k) + i
    ensures LabelsAt(c, a) == LabelsAt(img, b)
  {
    SameShape(img, p, goal, OpenProgram(p, img), |p|);
    k, j := Locate(FoldFirst(p, |p|), |p|, a);
    i := 0;
    if j > 0 {
      FoldedNext(p[k], j - 1);
      i := Shifted(Folds(p[k]), j - 1) + 1;
    }
    b := Start(p, k) + i;
    FoldedSpotAt(img, p, goal, c, goal', k, j, i, a, b);
  }

  /** A table entry of the compressed bin comes from one of the bin. */
  lemma {:induction false} EntryFrom(img: Image, c: Image, t: Table, e: Entry, a: nat, b: nat)
    requires LabelsAt(c, a) == LabelsAt(img, b) && e in TableOf(c, t) && e.address == a < WORD_COUNT && b < WORD_COUNT
    ensures e.(address := b) in TableOf(img, t)
  {
    var l := Label(t, e.(address := 0));
    assert l.entry.(address := a) == e;
    assert l in LabelsAt(c, a);
    assert l.entry.(address := b) == e.(address := b);
  }

  lemma {:induction false} StartInside(img: Image, p: seq<Inst>, goal: seq<Cell>, k: nat, i: nat)
    requires HoldsOpen(img, p, goal) && k < |p| && i <= |p[k].next|
    ensures Start(p, k) + i < |img.words| <= WORD_COUNT
  {
    CellLaid(p, img.name, goal, k, i);
  }

  lemma {:induction false} EntryInside(c: Image, t: Table, e: Entry)
    requires TablesFit(c) && e in TableOf(c, t)
    ensures e.address < |c.words|
  {
    var i :| 0 <= i < |TableOf(c, t)| && TableOf(c, t)[i] == e;
    assert Below(TableOf(c, t), |c.words|);
  }

  /** Word `j` of folded instruction `k`, which was word `i`, is at `a` and was at `b`. */
  ghost predicate PlacedAt(img: Image, p: seq<Inst>, c: Image, k: nat, j: nat, i: nat, a: nat, b: nat) {
    && WordFrom(p, k, j, i) && a == Start(FoldFirst(p, |p|), k) + j && b == Start(p, k) + i
    && a < |c.words| && b < |img.words| <= WORD_COUNT && LabelsAt(c, a) == LabelsAt(img, b)
  }

  lemma {:induction false} PlaceOf(img: Image, p: seq<Inst>, goal: seq<Cell>, c: Image, goal': seq<Cell>, a: nat)
    returns (k: nat, j: nat, i: nat, b: nat)
    requires Compressing(img, p, goal, c, goal') && a < |c.words|
    ensures PlacedAt(img, p, c, k, j, i, a, b)
  {
    k, j, i, b := FoldedFrom(img, p, goal, c, goal', a);
    StartInside(img, p, goal, k, i);
  }

  /** Where the word of an instruction, not an operand, has gone. */
  lemma {:induction false} PlaceOfStart(img: Image, p: seq<Inst>, goal: seq<Cell>, c: Image, goal': seq<Cell>, m: nat)
    returns (a: nat)
    requires Compressing(img, p, goal, c, goal') && m < |p|
    ensures PlacedAt(img, p, c, m, 0, 0, a, Start(p, m))
  {
    a := Start(FoldFirst(p, |p|), m);
    FoldedSpotAt(img, p, goal, c, goal', m, 0, 0, a, Start(p, m));
    StartInside(img, p, goal, m, 0);
  }

  /** An entry of a table of one bin is in the table of the other, at the place of the word. */
  lemma {:induction false} SameEntries(img: Image, p: seq<Inst>, c: Image, k: nat, j: nat, i: nat, a: nat, b: nat,
          t: Table, e: Entry)
    requires PlacedAt(img, p, c, k, j, i, a, b) && |c.words| <= WORD_COUNT
    ensures e in TableOf(c, t) && e.address == a ==> e.(address := b) in TableOf(img, t)
    ensures e in TableOf(img, t) && e.address == b ==> e.(address := a) in TableOf(c, t)
  {
    if e in TableOf(c, t) && e.address == a { EntryFrom(img, c, t, e, a, b); }
    if e in TableOf(img, t) && e.address == b { EntryFrom(c, img, t, e, b, a); }
  }

  /** The compressed bin provides the label at the folded instruction. */
  lemma {:induction false} FoldedProvides(img: Image, p: seq<Inst>, goal: seq<Cell>, c: Image, goal': seq<Cell>,
          symbol: Option<string>, m: nat)
    requires Compressing(img, p, goal, c, goal') && |c.words| <= WORD_COUNT && m < |p|
    requires Start(p, m) < WORD_COUNT && Provides(img, symbol, Start(p, m))
    ensures Start(FoldFirst(p, |p|), m) < WORD_COUNT && Provides(c, symbol, Start(FoldFirst(p, |p|), m))
  {
    var a := PlaceOfStart(img, p, goal, c, goal', m);
    var i :| 0 <= i < |img.provided| && img.provided[i].symbol == symbol;
    SameEntries(img, p, c, m, 0, 0, a, Start(p, m), Provided, img.provided[i]);
    ProvidedFound(c, img.provided[i].(address := a));
    forall n | 0 <= n < |c.provided| && c.provided[n].symbol == symbol ensures c.provided[n].address == a {
      var e := c.provided[n];
      EntryInside(c, Provided, e);
      ProvidedOnce(img, p, goal, c, goal', symbol, m, e);
    }
  }

  lemma {:induction false} ProvidedFound(c: Image, e: Entry)
    requires e in TableOf(c, Provided)
    ensures exists n :: 0 <= n < |c.provided| && c.provided[n].symbol == e.symbol
  {
    var n :| 0 <= n < |c.provided| && c.provided[n] == e;
  }

  lemma {:induction false} ProvidedOnce(img: Image, p: seq<Inst>, goal: seq<Cell>, c: Image, goal': seq<Cell>,
          symbol: Option<string>, m: nat, e: Entry)
    requires Compressing(img, p, goal, c, goal') && |c.words| <= WORD_COUNT && m < |p|
    requires Start(p, m) < WORD_COUNT && Provides(img, symbol, Start(p, m))
    requires e in TableOf(c, Provided) && e.symbol == symbol && e.address < |c.words|
    ensures e.address == Start(FoldFirst(p, |p|), m)
  {
    var k, j, i, b := PlaceOf(img, p, goal, c, goal', e.address);
    SameEntries(img, p, c, k, j, i, e.address, b, Provided, e);
    ProvidedAddress(img, symbol, Start(p, m), e.(address := b));
    SameWord(p, k, i, m, 0);
  }

  lemma {:induction false} ProvidedAddress(img: Image, symbol: Option<string>, x: Word, e: Entry)
    requires Provides(img, symbol, x) && e in TableOf(img, Provided) && e.symbol == symbol
    ensures e.address == x
  {
    var n :| 0 <= n < |img.provided| && img.provided[n] == e;
  }

  lemma {:induction false} EmptyStays(img: Image, p: seq<Inst>, goal: seq<Cell>, c: Image, goal': seq<Cell>, t: Table)
    requires Compressing(img, p, goal, c, goal') && |c.words| <= WORD_COUNT && TableOf(img, t) == []
    ensures TableOf(c, t) == []
  {
    if TableOf(c, t) != [] {
      var e := TableOf(c, t)[0];
      EntryInside(c, t, e);
      var k, j, i, b := PlaceOf(img, p, goal, c, goal', e.address);
      SameEntries(img, p, c, k, j, i, e.address, b, t, e);
    }
  }

  /** The slot of a required label is an operand that points to an instruction. */
  lemma {:induction false} RequiredTarget(img: Image, p: seq<Inst>, goal: seq<Cell>, k: nat, i: nat, b: nat, e: Entry)
    returns (m: nat)
    requires HoldsOpen(img, p, goal) && k < |p| && i <= |p[k].next| && b == Start(p, k) + i
    requires e in img.required && e.address == b
    ensures i > 0 && p[k].next[i - 1].target == Instruction(m) && m < |p| && Guarded(LabelsAt(img, b))
    ensures Start(p, m) < WORD_COUNT && Provides(img, e.symbol, Start(p, m)) && e.symbol.Some?
  {
    var n :| 0 <= n < |img.required| && img.required[n] == e;
    assert Wanted(img, goal, e);
    CellLaid(p, img.name, goal, k, i);
    var o := p[k].next[i - 1];
    OpenTarget(img, p, goal, k, i - 1, b, o);
    m := o.target.index;
    StartInside(img, p, goal, m, 0);
  }

  lemma {:induction false} FoldedWanted(img: Image, p: seq<Inst>, goal: seq<Cell>, c: Image, goal': seq<Cell>, e: Entry)
    requires Compressing(img, p, goal, c, goal') && |goal'| == |c.words| <= WORD_COUNT && e in TableOf(c, Required)
    ensures Wanted(c, goal', e)
  {
    EntryInside(c, Required, e);
    var a := e.address;
    var k, j, i, b := PlaceOf(img, p, goal, c, goal', a);
    SameEntries(img, p, c, k, j, i, a, b, Required, e);
    var m := RequiredTarget(img, p, goal, k, i, b, e.(address := b));
    FoldedSlot(img, p, goal, c, goal', k, j, i, a, b, m);
    FoldedProvides(img, p, goal, c, goal', e.symbol, m);
    MakeWanted(c, goal', e, Start(FoldFirst(p, |p|), m));
  }

  lemma {:induction false} FoldedSlot(img: Image, p: seq<Inst>, goal: seq<Cell>, c: Image, goal': seq<Cell>, k: nat,
          j: nat, i: nat, a: nat, b: nat, m: nat)
    requires Compressing(img, p, goal, c, goal') && PlacedAt(img, p, c, k, j, i, a, b) && i > 0
    requires p[k].next[i - 1].target == Instruction(m) && Guarded(LabelsAt(img, b))
    ensures a < |goal'| && View(c)[a] == Lit(0) && goal'[a] == Ptr(c.name, Wrap(Start(FoldFirst(p, |p|), m)))
  {
    FoldedOperand(img, p, goal, c, goal', k, j, i, a, b, p[k].next[i - 1]);
  }

  lemma {:induction false} MakeWanted(c: Image, goal: seq<Cell>, e: Entry, x: Word)
    requires |goal| == |c.words| && e.symbol.Some? && e.address < |goal| && View(c)[e.address] == Lit(0)
    requires goal[e.address] == Ptr(c.name, x) && Provides(c, e.symbol, x)
    ensures Wanted(c, goal, e)
  {
  }

  lemma {:induction false} FoldedCell(img: Image, p: seq<Inst>, goal: seq<Cell>, c: Image, goal': seq<Cell>, a: nat)
    requires Compressing(img, p, goal, c, goal') && |goal'| == |c.words| <= WORD_COUNT && c.optional == []
    requires a < |c.words| && !IsSlot(c.required, a)
    ensures View(c)[a] == goal'[a]
  {
    var k, j, i, b := PlaceOf(img, p, goal, c, goal', a);
    if j == 0 {
      FoldedOpcode(img, p, goal, c, goal', k, a);
    } else {
      GuardedIsRequired(c, a);
      FoldedOperand(img, p, goal, c, goal', k, j, i, a, b, p[k].next[i - 1]);
    }
  }

  lemma {:induction false} FoldedIsOpen(img: Image, p: seq<Inst>, goal: seq<Cell>, c: Image, goal': seq<Cell>)
    requires Compressing(img, p, goal, c, goal') && |goal'| == |c.words| <= WORD_COUNT
    requires WellFormed(c)
    ensures OpenRequired(c, goal')
  {
    assert TableOf(img, Optional) == [] && TableOf(img, Jump) == [];
    EmptyStays(img, p, goal, c, goal', Optional);
    EmptyStays(img, p, goal, c, goal', Jump);
    forall n | 0 <= n < |c.required| ensures Wanted(c, goal', c.required[n]) {
      FoldedWanted(img, p, goal, c, goal', c.required[n]);
    }
    forall a | 0 <= a < |goal'| && !IsSlot(c.required, a) ensures View(c)[a] == goal'[a] {
      FoldedCell(img, p, goal, c, goal', a);
    }
  }

  lemma {:induction false} PassRuns(img: Image, p: seq<Inst>, goal: seq<Cell>, goal': seq<Cell>, q: seq<Inst>)
    returns (c: Image, saved: Word)
    requires HoldsOpen(img, p, goal) && q == OpenProgram(p, img) && AllResynchronised(q)
    requires LaidCells(FoldFirst(p, |p|), img.name, goal')
    ensures Compressed(img, 0, 0) == Some((c, saved)) && Compressing(img, p, goal, c, goal')
    ensures |c.words| <= WORD_COUNT && WellFormed(c) && saved == |img.words| - |c.words|
  {
    OpenHolds(img, p, goal, q);
    CompressKeepsMeaning(img, q);
    CompressionKeepsTables(img, 0, 0);
    c, saved := Compressed(img, 0, 0).value.0, Compressed(img, 0, 0).value.1;
  }

  lemma {:induction false} CompressedSize(img: Image, p: seq<Inst>, goal: seq<Cell>, c: Image, goal': seq<Cell>)
    requires Compressing(img, p, goal, c, goal')
    ensures |goal'| == |c.words|
  {
    SameShape(img, p, goal, OpenProgram(p, img), |p|);
  }

  /**
   Compressing code that waits for its required labels: for a program whose [register + next word] operands are
   harmless, the pass leaves the code of the folded program, open at the same required labels, so that resolving
   it gives the folded program.
   */
  lemma {:induction false} CompressOpen(img: Image, p: seq<Inst>, goal: seq<Cell>, goal': seq<Cell>)
    returns (c: Image, saved: Word)
    requires HoldsOpen(img, p, goal) && AllResynchronised(OpenProgram(p, img))
    requires LaidCells(FoldFirst(p, |p|), img.name, goal')
    ensures Compressed(img, 0, 0) == Some((c, saved)) && saved == |img.words| - |c.words|
    ensures OpenRequired(c, goal') && c.name == img.name
  {
    c, saved := PassRuns(img, p, goal, goal', OpenProgram(p, img));
    CompressedSize(img, p, goal, c, goal');
    FoldedIsOpen(img, p, goal, c, goal');
  }
}
