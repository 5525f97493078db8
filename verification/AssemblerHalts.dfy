/**
 When the evaluation pass of `aout_write` (libdcpu-ci-asm/aout.c) halts, and where labels are.
 */
module AssemblerHalts {
  import opened Words
  import opened Expressions
  import opened BinImages
  import opened Assembly

  // ----- Labels -----

  predicate IsFirst(items: seq<Item>, name: string, k: nat) {
    k < |items| && items[k] == Definition(name) && Definition(name) !in items[..k]
  }

  lemma {:induction false} SearchFinds(items: seq<Item>, name: string, k: nat, base: Word, n: nat)
    requires k <= n && IsFirst(items, name, n)
    ensures Search(items, name, k, Wrap(base + SizeTo(items, k))) == Some(Wrap(base + SizeTo(items, n)))
    decreases n - k
  {
    if k < n {
      assert items[k] == items[..n][k];
      NextAddress(items, base, k, k + 1);
      SearchFinds(items, name, k + 1, base, n);
    }
  }

  lemma {:induction false} NextAddress(items: seq<Item>, base: Word, k: nat, n: nat)
    requires k < n == k + 1 <= |items|
    ensures Wrap(base + SizeTo(items, n)) ==
            if IsWord(items[k]) then Wrap(Wrap(base + SizeTo(items, k)) + 1) else Wrap(base + SizeTo(items, k))
  {
    WrapNext(base + SizeTo(items, k));
  }

  lemma {:induction false} WrapNext(x: int)
    ensures Wrap(x + 1) == Wrap(Wrap(x) + 1)
  {
  }

  lemma {:induction false} SearchMisses(items: seq<Item>, name: string, k: nat, mem: Word)
    requires k <= |items| && Definition(name) !in items
    ensures Search(items, name, k, mem).None?
    decreases |items| - k
  {
    if k < |items| { SearchMisses(items, name, k + 1, if IsWord(items[k]) then Wrap(mem + 1) else mem); }
  }

  /** A label is at the address behind all words that come before its first definition. */
  lemma {:induction false} AddressIsFirst(items: seq<Item>, base: Word, name: string, k: nat)
    requires IsFirst(items, name, k)
    ensures LabelAddress(items, base, name) == Some(Wrap(base + SizeTo(items, k)))
  {
    SearchFinds(items, name, 0, base, k);
  }

  lemma {:induction false} FirstDefinition(items: seq<Item>, name: string) returns (k: nat)
    requires Definition(name) in items
    ensures IsFirst(items, name, k)
  {
    k := 0;
    while items[k] != Definition(name)
      invariant k < |items| && Definition(name) !in items[..k]
      decreases |items| - k
    {
      k := k + 1;
    }
  }

  /** A label has an address exactly if it is defined. */
  lemma {:induction false} AddressIff(items: seq<Item>, base: Word, name: string)
    ensures LabelAddress(items, base, name).Some? <==> Definition(name) in items
  {
    if Definition(name) in items {
      var k := FirstDefinition(items, name);
      AddressIsFirst(items, base, name, k);
    } else {
      SearchMisses(items, name, 0, base);
    }
  }

  // ----- Halting -----

  predicate IsImported(items: seq<Item>, name: string) {
    Import(name) in items || ImportOptional(name) in items
  }

  /** A word that the assembler can write; labels are only imported into object files. */
  predicate CanEvaluate(items: seq<Item>, base: Word, intermediate: bool, e: Expr) {
    if !e.Ref? then Evaluate(e, Lookup(items, base)).Some?
    else if HasImport(items) then intermediate && (IsImported(items, e.name) || Definition(e.name) in items)
    else Definition(e.name) in items
  }

  predicate IsOutput(item: Item) {
    item.OutputPoint? || item.KernelCall?
  }

  predicate HasOutput(items: seq<Item>, k: nat)
    requires k <= |items|
  {
    exists i :: 0 <= i < k && IsOutput(items[i])
  }

  /** Item `k` does not halt the assembler. */
  predicate CanPass(items: seq<Item>, base: Word, intermediate: bool, k: nat)
    requires k < |items|
  {
    match items[k]
    case Value(e) => CanEvaluate(items, base, intermediate, e)
    case Export(n) => intermediate && Definition(n) in items
    case JumpExport(t) => intermediate && (t.Some? ==> Definition(t.value) in items)
    case SectionStart(_) => intermediate && !HasOutput(items, k)
    case OutputPoint(_) => intermediate
    case KernelCall(_) => intermediate
    case _ => true
  }

  lemma {:induction false} FindsImport(items: seq<Item>, name: string)
    ensures FindImport(items, name, 0).Some? <==> IsImported(items, name)
    ensures IsImported(items, name) ==> HasImport(items)
  {
  }

  lemma {:induction false} ValueIff(items: seq<Item>, base: Word, intermediate: bool, p: Progress, e: Expr)
    ensures VisitValue(items, base, intermediate, p, e).Some? <==> CanEvaluate(items, base, intermediate, e)
    ensures var r := VisitValue(items, base, intermediate, p, e); r.Some? ==> r.value.hasOutput == p.hasOutput
  {
    if e.Ref? {
      FindsImport(items, e.name);
      AddressIff(items, base, e.name);
    }
  }

  /** An output or a kernel call has been met. */
  ghost predicate Noticed(items: seq<Item>, k: nat, p: Progress)
    requires k <= |items|
  {
    p.hasOutput <==> HasOutput(items, k)
  }

  lemma {:induction false} NoticedNext(items: seq<Item>, k: nat, n: nat, p: Progress, r: Progress)
    requires k < n == k + 1 <= |items| && Noticed(items, k, p) && r.hasOutput == (p.hasOutput || IsOutput(items[k]))
    ensures Noticed(items, n, r)
  {
  }

  lemma {:induction false} DirectiveIff(items: seq<Item>, base: Word, intermediate: bool, p: Progress, k: nat)
    requires k < |items| && Noticed(items, k, p) && !IsWord(items[k])
    ensures var r := Visit(items, base, intermediate, p, items[k]);
            && (r.Some? <==> CanPass(items, base, intermediate, k))
            && (r.Some? ==> r.value.hasOutput == (p.hasOutput || IsOutput(items[k])))
  {
    match items[k]
    case Export(n) => AddressIff(items, base, n);
    case JumpExport(t) => if t.Some? { AddressIff(items, base, t.value); }
    case _ =>
  }

  lemma {:induction false} VisitIff(items: seq<Item>, base: Word, intermediate: bool, p: Progress, k: nat)
    requires k < |items| && Noticed(items, k, p)
    ensures var r := Visit(items, base, intermediate, p, items[k]);
            && (r.Some? <==> CanPass(items, base, intermediate, k))
            && (r.Some? ==> r.value.hasOutput == (p.hasOutput || IsOutput(items[k])))
  {
    if items[k].Value? {
      ValueIff(items, base, intermediate, p, items[k].expr);
    } else if !IsWord(items[k]) {
      DirectiveIff(items, base, intermediate, p, k);
    }
  }

  ghost predicate AllPass(items: seq<Item>, base: Word, intermediate: bool, k: nat)
    requires k <= |items|
  {
    forall i :: 0 <= i < k ==> CanPass(items, base, intermediate, i)
  }

  lemma {:induction false} PassIff(items: seq<Item>, base: Word, intermediate: bool, k: nat)
    requires k <= |items|
    ensures Pass(items, base, intermediate, k).Some? <==> AllPass(items, base, intermediate, k)
    ensures var r := Pass(items, base, intermediate, k); r.Some? ==> Noticed(items, k, r.value)
  {
    if k > 0 {
      PassIff(items, base, intermediate, k - 1);
      var r := Pass(items, base, intermediate, k - 1);
      if r.Some? {
        VisitIff(items, base, intermediate, r.value, k - 1);
        var q := Visit(items, base, intermediate, r.value, items[k - 1]);
        if q.Some? { NoticedNext(items, k - 1, k, r.value, q.value); }
      }
    }
  }

  /**
   Exactly when the assembler halts: at a label that is neither imported nor defined, at an expression without a
   value, at a label in a program with imports and at a directive for the linker when no object file is written, at an
   export of an undefined label, and at a section behind an output or a kernel call.
   */
  lemma {:induction false} AssembledIff(items: seq<Item>, base: Word, intermediate: bool)
    ensures Assembled(items, base, intermediate).Some? <==> AllPass(items, base, intermediate, |items|)
  {
    PassIff(items, base, intermediate, |items|);
  }
}
