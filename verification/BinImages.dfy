/**
 The value of a linker bin (libdcpu-ld/ldbin.h) and what the editing operations of
 libdcpu-ld/ldbin.c make of it. The class in Bins.dfy changes bins in place; its methods
 are specified by the functions here.
 */
module BinImages {
  import opened Words

  type Name = string

  /** A linker table entry; `bin` is only meaningful in the adjustment table. */
  datatype Entry = Entry(symbol: Option<string>, bin: Name, address: Word)

  datatype Image = Image(
    name: Name,
    words: seq<Word>,
    provided: seq<Entry>,
    required: seq<Entry>,
    adjustment: seq<Entry>,
    output: seq<Entry>,
    jump: seq<Entry>,
    optional: seq<Entry>,
    call: seq<Entry>)

  /** The parameters of one insertion: `count` words of `from` at `offset` go to `at` in `to`. */
  datatype Splice = Splice(to: Name, from: Name, at: nat, offset: nat, count: nat)

  datatype Cell = Lit(value: Word) | Ptr(bin: Name, address: Word)

  // ----- Sorting by address -----

  predicate Ascending(es: seq<Entry>) {
    forall i, j :: 0 <= i < j < |es| ==> es[i].address <= es[j].address
  }

  function InsertByAddress(e: Entry, es: seq<Entry>): seq<Entry> {
    if es == [] || e.address <= es[0].address then [e] + es else [es[0]] + InsertByAddress(e, es[1..])
  }

  lemma {:induction false} InsertKeepsElements(e: Entry, es: seq<Entry>)
    ensures multiset(InsertByAddress(e, es)) == multiset{e} + multiset(es)
  {
    if es != [] && e.address > es[0].address {
      InsertKeepsElements(e, es[1..]);
      assert es == [es[0]] + es[1..];
    }
  }

  lemma {:induction false} InsertKeepsAscending(e: Entry, es: seq<Entry>)
    requires Ascending(es)
    ensures Ascending(InsertByAddress(e, es))
  {
    if es != [] && e.address > es[0].address {
      InsertKeepsAscending(e, es[1..]);
      InsertKeepsElements(e, es[1..]);
      var rest := InsertByAddress(e, es[1..]);
      forall k | 0 <= k < |rest| ensures es[0].address <= rest[k].address {
        assert rest[k] in multiset(rest);
        assert rest[k] == e || rest[k] in es[1..];
      }
    }
  }

  /** `list_sort(list, 1)` with the address comparator; ties keep their order. */
  function SortByAddress(es: seq<Entry>): (r: seq<Entry>) {
    if es == [] then [] else InsertByAddress(es[0], SortByAddress(es[1..]))
  }

  lemma {:induction false} SortSorts(es: seq<Entry>)
    ensures Ascending(SortByAddress(es))
    ensures multiset(SortByAddress(es)) == multiset(es)
  {
    if es != [] {
      SortSorts(es[1..]);
      assert es == [es[0]] + es[1..];
      InsertKeepsAscending(es[0], SortByAddress(es[1..]));
      InsertKeepsElements(es[0], SortByAddress(es[1..]));
    }
  }

  lemma {:induction false} SortKeepsMembers(es: seq<Entry>)
    ensures forall e :: e in SortByAddress(es) <==> e in es
  {
    SortSorts(es);
    forall e ensures e in SortByAddress(es) <==> e in es {
      assert e in SortByAddress(es) <==> e in multiset(SortByAddress(es));
      assert e in es <==> e in multiset(es);
    }
  }

  lemma {:induction false} SortOfAscending(es: seq<Entry>)
    requires Ascending(es)
    ensures SortByAddress(es) == es
  {
    if es != [] {
      var rest := es[1..];
      SortOfAscending(rest);
      assert rest != [] ==> rest[0] == es[1];
      calc {
        SortByAddress(es);
        InsertByAddress(es[0], rest);
        [es[0]] + rest;
        es;
      }
    }
  }

  /** Entry addresses are pairwise different. */
  predicate Distinct(es: seq<Entry>) {
    forall i, j :: 0 <= i < j < |es| ==> es[i].address != es[j].address
  }

  predicate Below(es: seq<Entry>, limit: nat) {
    forall i :: 0 <= i < |es| ==> es[i].address < limit
  }

  lemma {:induction false} InsertKeepsDistinct(e: Entry, es: seq<Entry>)
    requires Distinct(es)
    requires forall k :: 0 <= k < |es| ==> es[k].address != e.address
    ensures Distinct(InsertByAddress(e, es))
  {
    if es != [] && e.address > es[0].address {
      InsertKeepsDistinct(e, es[1..]);
      InsertKeepsElements(e, es[1..]);
      var rest := InsertByAddress(e, es[1..]);
      forall k | 0 <= k < |rest| ensures rest[k].address != es[0].address {
        assert rest[k] in multiset(rest);
        assert rest[k] == e || rest[k] in es[1..];
      }
    }
  }

  lemma {:induction false} SortKeepsDistinct(es: seq<Entry>)
    requires Distinct(es)
    ensures Distinct(SortByAddress(es))
  {
    if es != [] {
      SortKeepsDistinct(es[1..]);
      SortKeepsMembers(es[1..]);
      forall e | e in SortByAddress(es[1..]) ensures e.address != es[0].address {
        assert e in es[1..];
      }
      InsertKeepsDistinct(es[0], SortByAddress(es[1..]));
    }
  }

  /** Every adjustment slot is a word of the bin; the linker asserts this whenever it reads one. */
  predicate SlotsIn(img: Image) {
    forall k :: 0 <= k < |img.adjustment| ==> img.adjustment[k].address < |img.words|
  }

  /** Bins whose adjustment slots are distinct places inside the bin. */
  predicate WellFormed(img: Image) {
    SlotsIn(img) && Distinct(img.adjustment)
  }

  // ----- Insertion -----

  function ShiftedUp(a: Word, at: nat, count: nat): Word {
    if a >= at then Wrap(a + count) else a
  }

  function ShiftUp(es: seq<Entry>, at: nat, count: nat): (r: seq<Entry>)
    ensures |r| == |es|
    ensures forall i :: 0 <= i < |es| ==> r[i] == es[i].(address := ShiftedUp(es[i].address, at, count))
  {
    seq(|es|, i requires 0 <= i < |es| => es[i].(address := ShiftedUp(es[i].address, at, count)))
  }

  /** Whether the copying loops take an entry at this address along. */
  predicate Taken(address: Word, fromSize: nat, sp: Splice) {
    address >= sp.offset &&
    (address < sp.offset + sp.count || (address >= fromSize && sp.offset + sp.count + 1 >= fromSize))
  }

  function Transplanted(e: Entry, sp: Splice): Entry
  {
    e.(address := Wrap(sp.at + (e.address - sp.offset)))
  }

  function Transplant(es: seq<Entry>, fromSize: nat, sp: Splice): (r: seq<Entry>)
    ensures |r| <= |es|
  {
    if es == [] then []
    else
      var rest := Transplant(es[..|es| - 1], fromSize, sp);
      var e := es[|es| - 1];
      if Taken(e.address, fromSize, sp) then rest + [Transplanted(e, sp)] else rest
  }

  /** Where a pointer that meant `(bin, address)` points after the insertion. */
  function Repointed(bin: Name, address: Word, sp: Splice): (r: (Name, Word)) {
    if sp.offset <= address < sp.offset + sp.count && bin == sp.from
    then (sp.to, Wrap(address - sp.offset + sp.at))
    else if address >= sp.at && bin == sp.to then (bin, Wrap(address + sp.count))
    else (bin, address)
  }

  /** The repointing loop, run over the first `n` adjustment entries. */
  function RepointFirst(words: seq<Word>, adjustment: seq<Entry>, n: nat, sp: Splice): (r: (seq<Word>, seq<Entry>))
    requires n <= |adjustment|
    requires forall k :: 0 <= k < |adjustment| ==> adjustment[k].address < |words|
    ensures |r.0| == |words| && |r.1| == |adjustment|
    ensures forall k :: 0 <= k < |adjustment| ==>
                          r.1[k] == if k < n then adjustment[k].(bin := r.1[k].bin) else adjustment[k]
  {
    if n == 0 then (words, adjustment)
    else
      var (w, es) := RepointFirst(words, adjustment, n - 1, sp);
      var e := es[n - 1];
      var (b, a) := Repointed(e.bin, w[e.address], sp);
      (w[e.address := a], es[n - 1 := e.(bin := b)])
  }

  /** Effect of an insertion on a bin that is neither its source nor its target. */
  function RepointImage(img: Image, sp: Splice): Image
    requires SlotsIn(img)
  {
    var r := RepointFirst(img.words, img.adjustment, |img.adjustment|, sp);
    img.(words := r.0, adjustment := r.1)
  }

  function SortTables(img: Image): Image {
    img.(provided := SortByAddress(img.provided), required := SortByAddress(img.required),
         adjustment := SortByAddress(img.adjustment), output := SortByAddress(img.output),
         jump := SortByAddress(img.jump), optional := SortByAddress(img.optional),
         call := SortByAddress(img.call))
  }

  function PlainInsert(to: seq<Entry>, from: seq<Entry>, fromSize: nat, sp: Splice): seq<Entry> {
    ShiftUp(to, sp.at, sp.count) + Transplant(SortByAddress(from), fromSize, sp)
  }

  predicate SpliceFits(to: Image, from: Image, sp: Splice) {
    sp.to == to.name && sp.from == from.name &&
    sp.at <= |to.words| && sp.offset + sp.count <= |from.words|
  }

  /** The target's words and adjustment table just before pointers are updated. */
  function SplicedWords(to: Image, from: Image, sp: Splice): (r: seq<Word>)
    requires SpliceFits(to, from, sp)
    ensures |r| == |to.words| + sp.count
  {
    to.words[..sp.at] + from.words[sp.offset..sp.offset + sp.count] + to.words[sp.at..]
  }

  // ----- Removal -----

  function Lowered(a: nat, offset: nat, count: nat): (r: nat)
    ensures r <= a
  {
    if a >= offset + count then a - count else a
  }

  predicate InWindow(a: nat, offset: nat, count: nat) {
    offset <= a < offset + count
  }

  function DropWindow(es: seq<Entry>, offset: nat, count: nat): (r: seq<Entry>)
    ensures |r| <= |es|
  {
    if es == [] then []
    else
      var rest := DropWindow(es[..|es| - 1], offset, count);
      if InWindow(es[|es| - 1].address, offset, count) then rest else rest + [es[|es| - 1]]
  }

  function LowerAll(es: seq<Entry>, offset: nat, count: nat): (r: seq<Entry>)
    ensures |r| == |es|
    ensures forall i :: 0 <= i < |es| ==> r[i] == es[i].(address := Lowered(es[i].address, offset, count))
  {
    seq(|es|, i requires 0 <= i < |es| => es[i].(address := Lowered(es[i].address, offset, count)))
  }

  /** Entries of the removed window disappear, later ones move down. */
  function PlainRemove(es: seq<Entry>, offset: nat, count: nat): seq<Entry> {
    LowerAll(DropWindow(es, offset, count), offset, count)
  }

  /** One table after a removal: sorted, cut, and lowered unless it is the adjustment table. */
  function RemoveEntries(es: seq<Entry>, lower: bool, offset: nat, count: nat): seq<Entry> {
    if lower then PlainRemove(SortByAddress(es), offset, count) else DropWindow(SortByAddress(es), offset, count)
  }

  /** The slot address that the retargeting loop gives an entry: decided by the bin pointed into. */
  function RetargetedSlot(e: Entry, name: Name, offset: nat, count: nat): Word {
    if e.bin == name then Lowered(e.address, offset, count) else e.address
  }

  predicate FirstSurvive(words: seq<Word>, adjustment: seq<Entry>, n: nat, name: Name, offset: nat, count: nat)
    requires n <= |adjustment|
  {
    forall k :: 0 <= k < n ==> RetargetedSlot(adjustment[k], name, offset, count) < |words|
  }

  /** No slot leaves its bin; otherwise the linker halts (ERR_BUG_191_WORKAROUND). */
  predicate SlotsSurvive(words: seq<Word>, adjustment: seq<Entry>, name: Name, offset: nat, count: nat) {
    FirstSurvive(words, adjustment, |adjustment|, name, offset, count)
  }

  /** The retargeting loop of a removal from bin `name`, run over the first `n` adjustment entries. */
  function RetargetFirst(words: seq<Word>, adjustment: seq<Entry>, n: nat, name: Name, offset: nat, count: nat)
    : (r: (seq<Word>, seq<Entry>))
    requires n <= |adjustment|
    requires FirstSurvive(words, adjustment, n, name, offset, count)
    ensures |r.0| == |words| && |r.1| == |adjustment|
    ensures forall k :: n <= k < |adjustment| ==> r.1[k] == adjustment[k]
  {
    if n == 0 then (words, adjustment)
    else
      var (w, es) := RetargetFirst(words, adjustment, n - 1, name, offset, count);
      var e := adjustment[n - 1];
      var s := RetargetedSlot(e, name, offset, count);
      var v := if e.bin == name then Lowered(w[s], offset, count) else w[s];
      (w[s := v], es[n - 1 := e.(address := s)])
  }

  lemma {:induction false} RetargetedEntries(words: seq<Word>, adjustment: seq<Entry>, n: nat, name: Name, offset: nat,
          count: nat)
    requires n <= |adjustment|
    requires FirstSurvive(words, adjustment, n, name, offset, count)
    ensures forall k :: 0 <= k < n ==>
                          RetargetFirst(words, adjustment, n, name, offset, count).1[k] ==
                          adjustment[k].(address := RetargetedSlot(adjustment[k], name, offset, count))
  {
    if n > 0 {
      RetargetedEntries(words, adjustment, n - 1, name, offset, count);
    }
  }

  function RetargetImage(img: Image, name: Name, offset: nat, count: nat): Image
    requires SlotsSurvive(img.words, img.adjustment, name, offset, count)
  {
    var r := RetargetFirst(img.words, img.adjustment, |img.adjustment|, name, offset, count);
    img.(words := r.0, adjustment := r.1)
  }

  /** The bin itself after `bin_remove`, before the retargeting loop over all bins. */
  function CutImage(img: Image, offset: nat, count: nat): Image
    requires offset + count <= |img.words|
  {
    img.(words := img.words[..offset] + img.words[offset + count..],
         provided := RemoveEntries(img.provided, true, offset, count),
         required := RemoveEntries(img.required, true, offset, count),
         adjustment := RemoveEntries(img.adjustment, false, offset, count),
         output := RemoveEntries(img.output, true, offset, count),
         jump := RemoveEntries(img.jump, true, offset, count),
         optional := RemoveEntries(img.optional, true, offset, count),
         call := RemoveEntries(img.call, true, offset, count))
  }

  // ----- Labels and pointers as such -----

  datatype Table = Provided | Required | Output | Jump | Optional | Call

  function TableOf(img: Image, t: Table): seq<Entry> {
    match t
    case Provided => img.provided
    case Required => img.required
    case Output => img.output
    case Jump => img.jump
    case Optional => img.optional
    case Call => img.call
  }

  predicate IsSlot(adjustment: seq<Entry>, a: int) {
    exists k :: 0 <= k < |adjustment| && adjustment[k].address == a
  }

  /** The word at `a`, read as a pointer when the adjustment table lists it. */
  ghost function CellAt(words: seq<Word>, adjustment: seq<Entry>, a: nat): Cell
    requires a < |words|
  {
    if IsSlot(adjustment, a) then
      var k :| 0 <= k < |adjustment| && adjustment[k].address == a;
      Ptr(adjustment[k].bin, words[a])
    else Lit(words[a])
  }

  lemma {:induction false} CellAtSlot(words: seq<Word>, adjustment: seq<Entry>, k: nat)
    requires k < |adjustment| && adjustment[k].address < |words|
    requires Distinct(adjustment)
    ensures CellAt(words, adjustment, adjustment[k].address) == Ptr(adjustment[k].bin, words[adjustment[k].address])
  {
    assert IsSlot(adjustment, adjustment[k].address);
  }

  ghost function Cells(words: seq<Word>, adjustment: seq<Entry>): (r: seq<Cell>)
    ensures |r| == |words|
    ensures forall i :: 0 <= i < |r| ==> r[i] == CellAt(words, adjustment, i)
  {
    seq(|words|, i requires 0 <= i < |words| => CellAt(words, adjustment, i))
  }

  /** What a bin means: literal words and pointers to words of named bins. */
  ghost function View(img: Image): (r: seq<Cell>)
    ensures |r| == |img.words|
  {
    Cells(img.words, img.adjustment)
  }
}
