/**
 The assembler's output list and the two passes of `aout_write` over it (libdcpu-ci-asm/aout.c).
 */
module Assembler {
  import opened Words
  import opened Dcpu
  import opened Expressions
  import opened BinImages
  import opened Assembly

  class OutputList {
    var items: seq<Item>
    var codeOffset: Word

    constructor (codeOffset: Word)
      ensures items == [] && this.codeOffset == codeOffset
    {
      items, this.codeOffset := [], codeOffset;
    }

    /** `aout_emit` */
    method Emit(item: Item)
      modifies this`items
      ensures items == old(items) + [item]
    {
      items := items + [item];
    }

    /** `aout_get_label_address`; none stands for the two error halts. */
    method GetLabelAddress(name: string) returns (r: Option<Word>)
      ensures r == LabelAddress(items, codeOffset, name)
    {
      var mem: Word, k: nat := codeOffset, 0;
      while k < |items|
        invariant 0 <= k <= |items|
        invariant LabelAddress(items, codeOffset, name) == Search(items, name, k, mem)
      {
        if IsWord(items[k]) {
          mem := Wrap(mem + 1);
        } else if items[k] == Definition(name) {
          return Some(mem);
        }
        k := k + 1;
      }
      r := None;
    }

    /** The search for an import directive. */
    method SearchImport(name: string) returns (r: Option<Item>)
      ensures r == FindImport(items, name, 0)
    {
      var k := 0;
      while k < |items|
        invariant 0 <= k <= |items| && FindImport(items, name, 0) == FindImport(items, name, k)
      {
        if IsImport(items[k]) && items[k].name == name { return Some(items[k]); }
        k := k + 1;
      }
      r := None;
    }

    /** The evaluation pass. */
    method EvaluateAll(intermediate: bool) returns (r: Option<Progress>)
      ensures r == Pass(items, codeOffset, intermediate, |items|)
    {
      var p := Progress(codeOffset, NO_TABLES, false, []);
      for k := 0 to |items|
        invariant Pass(items, codeOffset, intermediate, k) == Some(p)
      {
        var item := items[k];
        var next: Option<Progress>;
        if item.Value? && item.expr.Ref? {
          next := EvaluateLabel(item.expr.name, intermediate, p);
        } else {
          next := Visit(items, codeOffset, intermediate, p, item);
        }
        assert Pass(items, codeOffset, intermediate, k + 1) == next;
        if next.None? {
          Halted(k + 1, intermediate);
          return None;
        }
        p := next.value;
      }
      r := Some(p);
    }

    /** A plain label: imports first, then the labels of the object. */
    method EvaluateLabel(name: string, intermediate: bool, p: Progress) returns (r: Option<Progress>)
      ensures r == VisitValue(items, codeOffset, intermediate, p, Ref(name))
    {
      if !intermediate && HasImport(items) { return None; }
      var found := SearchImport(name);
      var t := p.tables;
      if found.Some? {
        var entry := At(Some(name), p.index);
        if found.value.Import? {
          r := Some(Evaluated(p, None, t.(required := [entry] + t.required)));
        } else {
          r := Some(Evaluated(p, None, t.(optional := [entry] + t.optional)));
        }
      } else {
        var address := GetLabelAddress(name);
        if address.None? { return None; }
        r := Some(Evaluated(p, address, t.(adjustment := [At(None, p.index)] + t.adjustment)));
      }
    }

    lemma {:induction false} Halted(k: nat, intermediate: bool)
      requires k <= |items| && Pass(items, codeOffset, intermediate, k).None?
      ensures Pass(items, codeOffset, intermediate, |items|).None?
    {
      for i := k to |items|
        invariant Pass(items, codeOffset, intermediate, i).None?
      {
      }
    }

    /** The writing pass. */
    method WriteAll(raws: seq<Option<Word>>) returns (words: seq<Word>)
      requires |raws| == |items|
      ensures words == Emitted(items, raws, |items|)
    {
      words := [];
      for k := 0 to |items|
        invariant words == Emitted(items, raws, k)
      {
        words := words + Emission(items[k], raws[k]);
      }
    }

    /** `aout_write`; none when the assembler halts. */
    method Write(intermediate: bool) returns (r: Option<Object>)
      ensures r == Assembled(items, codeOffset, intermediate)
    {
      var p := EvaluateAll(intermediate);
      if p.None? { return None; }
      PassLength(items, codeOffset, intermediate, |items|);
      var words := WriteAll(p.value.raws);
      r := Some(Object(words, p.value.tables));
    }
  }
}
