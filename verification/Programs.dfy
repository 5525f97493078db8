/**
 Programs as the assembler sees them: where labels are in a concatenation of programs, and which cells a
 program stands for once its labels denote something.
 */
module Programs {
  import opened Words
  import opened Dcpu
  import opened Expressions
  import opened BinImages
  import opened Assembly
  import opened AssemblyMeaning
  import opened PositionIndependence

  predicate Defines(items: seq<Item>, name: string) {
    exists i :: 0 <= i < |items| && items[i] == Definition(name)
  }

  /** The program without its import and export directives. */
  function Strip(items: seq<Item>): seq<Item> {
    if items == [] then []
    else
      var rest, last := Strip(items[..|items| - 1]), items[|items| - 1];
      if IsImport(last) || last.Export? then rest else rest + [last]
  }

  /** The first `k` programs as one. */
  function Whole(programs: seq<seq<Item>>, k: nat): seq<Item>
    requires k <= |programs|
  {
    if k == 0 then [] else Whole(programs, k - 1) + Strip(programs[k - 1])
  }

  // ----- Labels -----

  lemma {:induction false} SizeOfPrefix(p: seq<Item>, q: seq<Item>, k: nat)
    requires k <= |p|
    ensures SizeTo(p + q, k) == SizeTo(p, k)
  {
    if k > 0 { SizeOfPrefix(p, q, k - 1); }
  }

  lemma {:induction false} SizeOfAppend(p: seq<Item>, q: seq<Item>, k: nat)
    requires k <= |q|
    ensures SizeTo(p + q, |p| + k) == SizeTo(p, |p|) + SizeTo(q, k)
  {
    if k == 0 {
      SizeOfPrefix(p, q, |p|);
    } else {
      SizeOfAppend(p, q, k - 1);
      assert (p + q)[|p| + k - 1] == q[k - 1];
    }
  }

  lemma {:induction false} SearchBehind(p: seq<Item>, q: seq<Item>, name: string, k: nat, mem: Word)
    requires k <= |q|
    ensures Search(p + q, name, |p| + k, mem) == Search(q, name, k, mem)
    decreases |q| - k
  {
    if k < |q| {
      assert (p + q)[|p| + k] == q[k];
      SearchBehind(p, q, name, k + 1, if IsWord(q[k]) then Wrap(mem + 1) else mem);
    }
  }

  /** A search that fails in `p` goes on in `q`. */
  lemma {:induction false} SearchAppend(p: seq<Item>, q: seq<Item>, name: string, k: nat, mem: Word)
    requires k <= |p|
    ensures Search(p + q, name, k, mem) ==
            if Search(p, name, k, mem).Some? then Search(p, name, k, mem)
            else Search(q, name, 0, Wrap(mem + SizeTo(p, |p|) - SizeTo(p, k)))
    decreases |p| - k
  {
    if k == |p| {
      SearchBehind(p, q, name, 0, mem);
    } else {
      assert (p + q)[k] == p[k];
      if p[k] != Definition(name) {
        SearchAppend(p, q, name, k + 1, if IsWord(p[k]) then Wrap(mem + 1) else mem);
        WrapSum(mem + 1, SizeTo(p, |p|) - SizeTo(p, k + 1));
      }
    }
  }

  /** Labels are found exactly if they are defined. */
  lemma {:induction false} SearchFinds(items: seq<Item>, name: string, k: nat, mem: Word)
    requires k <= |items|
    ensures Search(items, name, k, mem).Some? <==> exists i :: k <= i < |items| && items[i] == Definition(name)
    decreases |items| - k
  {
    if k < |items| && items[k] != Definition(name) {
      SearchFinds(items, name, k + 1, if IsWord(items[k]) then Wrap(mem + 1) else mem);
    }
  }

  lemma {:induction false} AddressAppend(p: seq<Item>, q: seq<Item>, base: Word, name: string)
    ensures LabelAddress(p + q, base, name) ==
            if Defines(p, name) then LabelAddress(p, base, name) else LabelAddress(q, Wrap(base + SizeTo(p, |p|)), name)
    ensures LabelAddress(p, base, name).Some? <==> Defines(p, name)
  {
    SearchAppend(p, q, name, 0, base);
    SearchFinds(p, name, 0, base);
  }

  /** Stripping moves no label. */
  lemma {:induction false} StripKeepsLabels(items: seq<Item>, base: Word, name: string)
    ensures LabelAddress(Strip(items), base, name) == LabelAddress(items, base, name)
    ensures Defines(Strip(items), name) <==> Defines(items, name)
    ensures SizeTo(Strip(items), |Strip(items)|) == SizeTo(items, |items|)
  {
    if items != [] {
      var rest, last := items[..|items| - 1], items[|items| - 1];
      StripKeepsLabels(rest, base, name);
      assert items == rest + [last];
      AddressAppend(rest, [last], base, name);
      AddressAppend(Strip(rest), [last], base, name);
      SizeOfAppend(rest, [last], 1);
      SizeOfAppend(Strip(rest), [last], 1);
      if IsImport(last) || last.Export? {
        assert LabelAddress([last], Wrap(base + SizeTo(rest, |rest|)), name) == None by {
          SearchFinds([last], name, 0, Wrap(base + SizeTo(rest, |rest|)));
        }
      }
      DefinesAppend(rest, [last], name);
      DefinesAppend(Strip(rest), [last], name);
    }
  }

  lemma {:induction false} DefinesAppend(p: seq<Item>, q: seq<Item>, name: string)
    ensures Defines(p + q, name) <==> Defines(p, name) || Defines(q, name)
  {
    if Defines(p, name) {
      var i :| 0 <= i < |p| && p[i] == Definition(name);
      assert (p + q)[i] == Definition(name);
    }
    if Defines(q, name) {
      var i :| 0 <= i < |q| && q[i] == Definition(name);
      assert (p + q)[|p| + i] == Definition(name);
    }
  }

  function Sizes(programs: seq<seq<Item>>, k: nat): nat
    requires k <= |programs|
  {
    if k == 0 then 0 else Sizes(programs, k - 1) + SizeTo(programs[k - 1], |programs[k - 1]|)
  }

  lemma {:induction false} SizeOfWhole(programs: seq<seq<Item>>, k: nat)
    requires k <= |programs|
    ensures SizeTo(Whole(programs, k), |Whole(programs, k)|) == Sizes(programs, k)
  {
    if k > 0 {
      var p, q := Whole(programs, k - 1), Strip(programs[k - 1]);
      SizeOfWhole(programs, k - 1);
      SizeOfAppend(p, q, |q|);
      StripKeepsLabels(programs[k - 1], 0, "");
    }
  }

  /** Only program `j` defines the label. */
  ghost predicate OnlyIn(programs: seq<seq<Item>>, j: nat, name: string) {
    && j < |programs| && Defines(programs[j], name)
    && forall i :: 0 <= i < |programs| && i != j ==> !Defines(programs[i], name)
  }

  lemma {:induction false} WholeDefines(programs: seq<seq<Item>>, k: nat, j: nat, name: string)
    requires k <= |programs| && OnlyIn(programs, j, name)
    ensures Defines(Whole(programs, k), name) <==> j < k
  {
    if k > 0 {
      WholeDefines(programs, k - 1, j, name);
      StripKeepsLabels(programs[k - 1], 0, name);
      DefinesAppend(Whole(programs, k - 1), Strip(programs[k - 1]), name);
    }
  }

  lemma {:induction false} LastAddress(programs: seq<seq<Item>>, j: nat, name: string)
    requires j < |programs| && OnlyIn(programs, j, name)
    ensures LabelAddress(programs[j], 0, name).Some?
    ensures LabelAddress(Strip(programs[j]), Wrap(Sizes(programs, j)), name) ==
            Some(Wrap(Sizes(programs, j) + LabelAddress(programs[j], 0, name).value))
  {
    AddressAppend(programs[j], [], 0, name);
    StripKeepsLabels(programs[j], Wrap(Sizes(programs, j)), name);
    SearchMoves(programs[j], name, 0, 0, Sizes(programs, j));
  }

  /** A label of the whole is at its program's base plus its address there. */
  lemma {:induction false} WholeAddress(programs: seq<seq<Item>>, k: nat, j: nat, name: string)
    requires j < k <= |programs| && OnlyIn(programs, j, name)
    ensures LabelAddress(programs[j], 0, name).Some?
    ensures LabelAddress(Whole(programs, k), 0, name) ==
            Some(Wrap(Sizes(programs, j) + LabelAddress(programs[j], 0, name).value))
  {
    WholeDefines(programs, k - 1, j, name);
    AddressAppend(Whole(programs, k - 1), Strip(programs[k - 1]), 0, name);
    if j < k - 1 {
      WholeAddress(programs, k - 1, j, name);
    } else {
      SizeOfWhole(programs, j);
      LastAddress(programs, j, name);
    }
  }
}
