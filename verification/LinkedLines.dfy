/**
 Several source programs as one list of lines, and the flattened bin of their objects as code that is open for
 the instructions of these lines.
 */
module LinkedLines {
  import opened Words
  import opened Expressions
  import opened BinImages
  import opened Assembly
  import opened AssemblyMeaning
  import opened Programs
  import opened ObjectView
  import opened SeparateAssembly
  import opened SeparateLinking
  import opened SeparateTheorem
  import opened OpenCode
  import opened CompressedCode
  import opened LineCode
  import Source = Encoding
  import Code = Compression
  import Removal

  type Program = seq<Line>

  /** What the assembler emits for each program. */
  function Sources(programs: seq<Program>): (r: seq<seq<Item>>)
    ensures |r| == |programs|
    ensures forall j :: 0 <= j < |programs| ==> r[j] == Source.EmitAll(programs[j], |programs[j]|)
  {
    seq(|programs|, j requires 0 <= j < |programs| => Source.EmitAll(programs[j], |programs[j]|))
  }

  /** The lines of the first `k` programs. */
  function AllLines(programs: seq<Program>, k: nat): seq<Line>
    requires k <= |programs|
  {
    if k == 0 then [] else AllLines(programs, k - 1) + programs[k - 1]
  }

  ghost predicate IsProgram(lines: Program) {
    forall k :: 0 <= k < |lines| ==> Source.IsCode(lines[k])
  }

  ghost predicate ArePrograms(programs: seq<Program>) {
    forall j :: 0 <= j < |programs| ==> IsProgram(programs[j])
  }

  // ----- The items of all lines -----

  lemma {:induction false} EmitPrefix(a: seq<Line>, b: seq<Line>, k: nat)
    requires k <= |a|
    ensures Source.EmitAll(a + b, k) == Source.EmitAll(a, k)
  {
    if k > 0 { EmitPrefix(a, b, k - 1); }
  }

  lemma {:induction false} RegroupTwice(a: seq<Item>, b: seq<Item>, c: seq<Item>, d: seq<Item>)
    ensures a + (b + c) + d == a + (b + (c + d))
  {
  }

  /** Up to line `x`, both lists emit what `a` and the first `k` lines of `b` emit. */
  ghost predicate EmitsBehind(a: seq<Line>, b: seq<Line>, both: seq<Line>, k: nat, x: nat)
    requires k <= |b| && x <= |both|
  {
    Source.EmitAll(both, x) == Source.EmitAll(a, |a|) + Source.EmitAll(b, k)
  }

  lemma {:induction false} BehindOn(a: seq<Line>, b: seq<Line>, both: seq<Line>, k: nat, n: nat, x: nat, y: nat,
          line: Line)
    requires k < n == k + 1 <= |b| && x < y == x + 1 <= |both| && both[x] == b[k] == line
    requires EmitsBehind(a, b, both, k, x)
    ensures EmitsBehind(a, b, both, n, y)
  {
    var p, q, r := Source.EmitAll(a, |a|), Source.EmitAll(b, k), Source.Emit(line);
    Source.EmitNext(b, k, n, line, q);
    Source.EmitNext(both, x, y, line, p + q);
    Source.Regroup(p, q, r);
  }

  lemma {:induction false} BehindStart(a: seq<Line>, b: seq<Line>, both: seq<Line>, x: nat)
    requires both == a + b && x == |a|
    ensures EmitsBehind(a, b, both, 0, x)
  {
    EmitPrefix(a, b, x);
    assert Source.EmitAll(a, x) + [] == Source.EmitAll(a, x);
  }

  lemma {:induction false} BehindTo(a: seq<Line>, b: seq<Line>, both: seq<Line>, k: nat, x: nat)
    requires |both| == |a| + |b| && (forall i :: 0 <= i < |b| ==> both[|a| + i] == b[i])
    requires k <= |b| && x == |a| + k && EmitsBehind(a, b, both, 0, |a|)
    ensures EmitsBehind(a, b, both, k, x)
    decreases k
  {
    if k > 0 {
      var m: nat, y: nat := k - 1, x - 1;
      BehindTo(a, b, both, m, y);
      assert both[y] == b[m];
      BehindOn(a, b, both, m, k, y, x, b[m]);
    }
  }

  /** The items of `b` come behind those of `a`. */
  lemma {:induction false} EmitConcat(a: seq<Line>, b: seq<Line>, both: seq<Line>)
    requires both == a + b
    ensures EmitsBehind(a, b, both, |b|, |both|)
  {
    BehindStart(a, b, both, |a|);
    BehindTo(a, b, both, |b|, |both|);
  }

  lemma {:induction false} StripAppend(p: seq<Item>, q: seq<Item>)
    ensures Strip(p + q) == Strip(p) + Strip(q)
  {
    if q == [] {
      assert p + q == p;
    } else {
      StripAppend(p, q[..|q| - 1]);
      assert (p + q)[..|p + q| - 1] == p + q[..|q| - 1];
    }
  }

  function AllItems(lines: seq<Line>): seq<Item> {
    Source.EmitAll(lines, |lines|)
  }

  lemma {:induction false} ItemsBehind(a: seq<Line>, b: seq<Line>, lines: seq<Line>)
    requires lines == a + b
    ensures AllItems(lines) == AllItems(a) + AllItems(b)
  {
    EmitConcat(a, b, lines);
  }

  lemma {:induction false} ItemsConcat(a: seq<Line>, b: seq<Line>, lines: seq<Line>)
    requires lines == a + b
    ensures Strip(AllItems(lines)) == Strip(AllItems(a)) + Strip(AllItems(b))
  {
    ItemsBehind(a, b, lines);
    StripAppend(AllItems(a), AllItems(b));
  }

  lemma {:induction false} StrippedOn(sources: seq<seq<Item>>, k: nat, n: nat, p: seq<Item>, q: seq<Item>,
          all: seq<Item>)
    requires k < n == k + 1 <= |sources| && sources[k] == q
    requires Whole(sources, k) == Strip(p) && Strip(all) == Strip(p) + Strip(q)
    ensures Whole(sources, n) == Strip(all)
  {
  }

  lemma {:induction false} NextStripped(programs: seq<Program>, k: nat, n: nat, a: seq<Line>, all: seq<Line>,
          front: seq<Item>, items: seq<Item>)
    requires k < n == k + 1 <= |programs| && a == AllLines(programs, k) && all == AllLines(programs, n)
    requires front == AllItems(a) && items == AllItems(all) && Whole(Sources(programs), k) == Strip(front)
    ensures Whole(Sources(programs), n) == Strip(items)
  {
    ItemsConcat(a, programs[k], all);
    StrippedOn(Sources(programs), k, n, front, AllItems(programs[k]), items);
  }

  /** The whole program is what all lines emit, without imports and exports. */
  lemma {:induction false} WholeIsStripped(programs: seq<Program>, k: nat, lines: seq<Line>, items: seq<Item>)
    requires k <= |programs| && lines == AllLines(programs, k) && items == AllItems(lines)
    ensures Whole(Sources(programs), k) == Strip(items)
  {
    if k > 0 {
      var n := k - 1;
      var a := AllLines(programs, n);
      WholeIsStripped(programs, n, a, AllItems(a));
      NextStripped(programs, n, k, a, lines, AllItems(a), items);
    }
  }

  lemma {:induction false} StripKeepsItem(items: seq<Item>, item: Item)
    requires item in items && !IsImport(item) && !item.Export?
    ensures item in Strip(items)
  {
    if item != items[|items| - 1] { StripKeepsItem(items[..|items| - 1], item); }
  }

  lemma {:induction false} AreLines(programs: seq<Program>, k: nat)
    requires k <= |programs| && ArePrograms(programs)
    ensures IsProgram(AllLines(programs, k))
  {
    if k > 0 {
      AreLines(programs, k - 1);
      assert IsProgram(programs[k - 1]);
    }
  }

  // ----- Where labels are -----

  lemma {:induction false} OrderPrefix(a: seq<Line>, b: seq<Line>, k: nat)
    requires k <= |a|
    ensures Order(a + b, k) == Order(a, k)
  {
    if k > 0 { OrderPrefix(a, b, k - 1); }
  }

  lemma {:induction false} OrderConcat(a: seq<Line>, b: seq<Line>, k: nat)
    requires k <= |b|
    ensures Order(a + b, |a| + k) == Order(a, |a|) + Order(b, k)
  {
    if k == 0 {
      OrderPrefix(a, b, |a|);
    } else {
      OrderConcat(a, b, k - 1);
      assert (a + b)[|a| + k - 1] == b[k - 1];
    }
  }

  lemma {:induction false} LabelPrefix(a: seq<Line>, b: seq<Line>, k: nat, name: string)
    requires k <= |a|
    ensures LabelOrder(a + b, k, name) == LabelOrder(a, k, name)
  {
    if k > 0 {
      LabelPrefix(a, b, k - 1, name);
      OrderPrefix(a, b, k - 1);
    }
  }

  lemma {:induction false} LabelConcat(a: seq<Line>, b: seq<Line>, k: nat, name: string)
    requires k <= |b|
    ensures LabelOrder(a + b, |a| + k, name) ==
            match LabelOrder(a, |a|, name)
            case Some(m) => Some(m)
            case None => match LabelOrder(b, k, name) case None => None case Some(m) => Some(Order(a, |a|) + m)
  {
    if k == 0 {
      LabelPrefix(a, b, |a|, name);
    } else {
      LabelConcat(a, b, k - 1, name);
      OrderConcat(a, b, k - 1);
      assert (a + b)[|a| + k - 1] == b[k - 1];
    }
  }

  lemma {:induction false} LabelFrom(lines: seq<Line>, n: nat, name: string) returns (k: nat)
    requires n <= |lines| && LabelOrder(lines, n, name).Some?
    ensures k < n && lines[k] == Source.LabelLine(name) && LabelOrder(lines, n, name).value == Order(lines, k)
  {
    if LabelOrder(lines, n - 1, name).Some? {
      k := LabelFrom(lines, n - 1, name);
    } else {
      k := n - 1;
    }
  }

  function SizeOf(items: seq<Item>): nat {
    SizeTo(items, |items|)
  }

  lemma {:induction false} NoWord(lines: seq<Line>, k: nat, n: nat, front: seq<Item>)
    requires k < n == k + 1 <= |lines| && Source.IsCode(lines[k]) && !lines[k].InstructionLine?
    requires front == Source.EmitAll(lines, k)
    ensures SizeOf(Source.EmitAll(lines, n)) == SizeOf(front)
  {
    var back := Source.Emit(lines[k]);
    Source.EmitNext(lines, k, n, lines[k], front);
    SizeOfLine(lines[k], name => 0);
    SizeOfAppend(front, back, |back|);
  }

  /** Lines without instructions emit no words. */
  lemma {:induction false} NoWords(lines: seq<Line>, k: nat, n: nat)
    requires IsProgram(lines) && k <= n <= |lines| && Order(lines, k) == Order(lines, n)
    ensures SizeOf(Source.EmitAll(lines, n)) == SizeOf(Source.EmitAll(lines, k))
  {
    for i := k to n
      invariant SizeOf(Source.EmitAll(lines, i)) == SizeOf(Source.EmitAll(lines, k))
    {
      OrderMonotone(lines, k, i);
      OrderMonotone(lines, i + 1, n);
      NoWord(lines, i, i + 1, Source.EmitAll(lines, i));
    }
  }

  lemma {:induction false} EmitRest(lines: seq<Line>, k: nat, n: nat) returns (rest: seq<Item>)
    requires k < n <= |lines|
    ensures Source.EmitAll(lines, n) == Source.EmitAll(lines, k) + (Source.Emit(lines[k]) + rest)
  {
    rest := [];
    EmitRestStart(lines, k, k + 1, lines[k]);
    for i := k + 1 to n
      invariant EmittedRest(lines, k, i, rest)
    {
      rest := EmitRestOn(lines, k, i, i + 1, rest);
    }
  }

  ghost predicate EmittedRest(lines: seq<Line>, k: nat, n: nat, rest: seq<Item>)
    requires k < n <= |lines|
  {
    Source.EmitAll(lines, n) == Source.EmitAll(lines, k) + (Source.Emit(lines[k]) + rest)
  }

  lemma {:induction false} EmitRestStart(lines: seq<Line>, k: nat, n: nat, line: Line)
    requires k < n == k + 1 <= |lines| && lines[k] == line
    ensures EmittedRest(lines, k, n, [])
  {
    Source.EmitNext(lines, k, n, line, Source.EmitAll(lines, k));
    assert Source.Emit(line) + [] == Source.Emit(line);
  }

  lemma {:induction false} EmitRestOn(lines: seq<Line>, k: nat, i: nat, n: nat, rest: seq<Item>)
    returns (more: seq<Item>)
    requires k < i < n == i + 1 <= |lines| && EmittedRest(lines, k, i, rest)
    ensures EmittedRest(lines, k, n, more)
  {
    var front, line, last := Source.EmitAll(lines, k), Source.Emit(lines[k]), Source.Emit(lines[i]);
    Source.EmitNext(lines, i, n, lines[i], front + (line + rest));
    RegroupTwice(front, line, rest, last);
    more := rest + last;
  }

  /** A label of a program is followed by an instruction of the program. */
  lemma {:induction false} LabelInside(lines: Program, name: string)
    requires IsProgram(lines) && Followed(Source.EmitAll(lines, |lines|)) && LabelOrder(lines, |lines|, name).Some?
    ensures LabelOrder(lines, |lines|, name).value < Order(lines, |lines|)
  {
    var k := LabelFrom(lines, |lines|, name);
    var items, front := Source.EmitAll(lines, |lines|), Source.EmitAll(lines, k);
    var rest := EmitRest(lines, k, |lines|);
    assert Source.Emit(lines[k]) == [Definition(name)];
    assert items[|front|] == Definition(name);
    SizeOfPrefix(front, [Definition(name)] + rest, |front|);
    OrderMonotone(lines, k, |lines|);
    if Order(lines, k) == Order(lines, |lines|) { NoWords(lines, k, |lines|); }
  }

  ghost predicate LabelsFollowed(lines: seq<Line>, name: string) {
    var m := LabelOrder(lines, |lines|, name);
    m.Some? ==> m.value < Order(lines, |lines|)
  }

  lemma {:induction false} FollowedConcat(a: seq<Line>, b: seq<Line>, name: string)
    requires LabelsFollowed(a, name) && LabelsFollowed(b, name)
    ensures LabelsFollowed(a + b, name)
  {
    OrderConcat(a, b, |b|);
    LabelConcat(a, b, |b|, name);
  }

  lemma {:induction false} LabelsInsideAll(programs: seq<Program>, k: nat, name: string)
    requires ArePrograms(programs) && k <= |programs|
    requires forall j :: 0 <= j < |programs| ==> Followed(Sources(programs)[j])
    ensures LabelsFollowed(AllLines(programs, k), name)
  {
    for i := 0 to k
      invariant LabelsFollowed(AllLines(programs, i), name)
    {
      var b := programs[i];
      assert IsProgram(b) && Followed(Sources(programs)[i]);
      if LabelOrder(b, |b|, name).Some? { LabelInside(b, name); }
      FollowedConcat(AllLines(programs, i), b, name);
    }
  }

  lemma {:induction false} DefinedIsOrdered(lines: seq<Line>, k: nat, name: string)
    requires k <= |lines| && IsProgram(lines) && Definition(name) in Source.EmitAll(lines, k)
    ensures LabelOrder(lines, k, name).Some?
  {
    var m := k - 1;
    var earlier := DefinedEarlier(lines, m, k, name);
    if earlier { DefinedIsOrdered(lines, m, name); }
  }

  lemma {:induction false} DefinedEarlier(lines: seq<Line>, m: nat, k: nat, name: string) returns (earlier: bool)
    requires m < k == m + 1 <= |lines| && IsProgram(lines) && Definition(name) in Source.EmitAll(lines, k)
    ensures earlier ==> Definition(name) in Source.EmitAll(lines, m)
    ensures !earlier ==> lines[m] == Source.LabelLine(name)
  {
    var front := Source.EmitAll(lines, m);
    Source.EmitNext(lines, m, k, lines[m], front);
    earlier := Definition(name) in front;
    if !earlier { DefinitionLine(lines[m], name); }
  }

  lemma {:induction false} DefinitionLine(line: Line, name: string)
    requires Source.IsCode(line) && Definition(name) in Source.Emit(line)
    ensures line == Source.LabelLine(name)
  {
  }

  // ----- The lines of programs that can be linked -----

  lemma {:induction false} EmitsValue(x: Source.Instruction, e: Expr)
    requires UsesExpr(x, e)
    ensures Value(e) in Source.Emit(Source.InstructionLine(x))
  {
  }

  lemma {:induction false} EmittedIn(lines: seq<Line>, k: nat, item: Item)
    requires k < |lines| && item in Source.Emit(lines[k])
    ensures item in AllItems(lines)
  {
    var rest := EmitRest(lines, k, |lines|);
  }

  /** Every operand of the lines is a word of the whole program. */
  lemma {:induction false} OperandHasValue(names: seq<Name>, programs: seq<Program>, target: Name, lines: seq<Line>,
          k: nat, e: Expr)
    requires Separable(names, Sources(programs), target) && lines == AllLines(programs, |programs|)
    requires k < |lines| && lines[k].InstructionLine? && UsesExpr(lines[k].instruction, e)
    ensures if e.Ref? then Defines(AllItems(lines), e.name) else LabelFree(e)
  {
    var w := Whole(Sources(programs), |programs|);
    EmitsValue(lines[k].instruction, e);
    EmittedIn(lines, k, Value(e));
    StripKeepsItem(AllItems(lines), Value(e));
    WholeIsStripped(programs, |programs|, lines, AllItems(lines));
    WholeIsComplete(names, Sources(programs), target);
    ValueOfComplete(w, e);
    if e.Ref? {
      NoImports(Sources(programs), |programs|, e.name);
      StripKeepsLabels(AllItems(lines), 0, e.name);
    }
  }

  lemma {:induction false} ValueOfComplete(w: seq<Item>, e: Expr)
    requires Complete(w) && Value(e) in w
    ensures HasValue(w, e)
  {
    var i :| 0 <= i < |w| && w[i] == Value(e);
  }

  lemma {:induction false} ExprIsSettled(names: seq<Name>, programs: seq<Program>, target: Name, lines: seq<Line>,
          k: nat, e: Expr)
    requires Separable(names, Sources(programs), target) && lines == AllLines(programs, |programs|)
    requires ArePrograms(programs)
    requires k < |lines| && lines[k].InstructionLine? && UsesExpr(lines[k].instruction, e)
    ensures Settled(lines, e)
  {
    OperandHasValue(names, programs, target, lines, k, e);
    if e.Ref? {
      AreLines(programs, |programs|);
      DefinedIsOrdered(lines, |lines|, e.name);
      AllFollowed(names, programs, target);
      LabelsInsideAll(programs, |programs|, e.name);
    }
  }

  lemma {:induction false} AllFollowed(names: seq<Name>, programs: seq<Program>, target: Name)
    requires Separable(names, Sources(programs), target)
    ensures forall j :: 0 <= j < |programs| ==> Followed(Sources(programs)[j])
  {
    forall j | 0 <= j < |programs| ensures Followed(Sources(programs)[j]) {
      assert ProgramOk(Sources(programs), j);
    }
  }

  lemma {:induction false} LinesAreSettled(names: seq<Name>, programs: seq<Program>, target: Name, lines: seq<Line>)
    requires Separable(names, Sources(programs), target) && lines == AllLines(programs, |programs|)
    requires ArePrograms(programs)
    ensures AllSettled(lines)
  {
    AreLines(programs, |programs|);
    forall k | 0 <= k < |lines| ensures Source.IsCode(lines[k]) && LineSettled(lines, k) {
      if lines[k].InstructionLine? {
        forall e | UsesExpr(lines[k].instruction, e) ensures Settled(lines, e) {
          ExprIsSettled(names, programs, target, lines, k, e);
        }
      }
    }
  }

  /** Labels of the whole program are where the instructions they denote are. */
  lemma {:induction false} LabelDenotes(programs: seq<Program>, target: Name, lines: seq<Line>, name: string)
    requires lines == AllLines(programs, |programs|) && AllSettled(lines)
    ensures WholeEnv(Sources(programs), target)(name) ==
            match LabelOrder(lines, |lines|, name)
            case None => Lit(0)
            case Some(m) => Ptr(target, Wrap(Code.Start(InstsOf(lines), m)))
  {
    NoImports(Sources(programs), |programs|, name);
    WholeIsStripped(programs, |programs|, lines, AllItems(lines));
    StripKeepsLabels(AllItems(lines), 0, name);
    LabelAtStart(lines, |lines|, InstsOf(lines), name);
  }

  lemma {:induction false} WholeEnvAgrees(programs: seq<Program>, target: Name, lines: seq<Line>)
    requires lines == AllLines(programs, |programs|) && AllSettled(lines)
    ensures EnvAgrees(lines, InstsOf(lines), target, WholeEnv(Sources(programs), target))
  {
    forall n | LabelOrder(lines, |lines|, n).Some?
      ensures WholeEnv(Sources(programs), target)(n) ==
              Ptr(target, Wrap(Code.Start(InstsOf(lines), LabelOrder(lines, |lines|, n).value)))
    {
      LabelDenotes(programs, target, lines, n);
    }
  }

  /** The cells of the whole program are those of its instructions. */
  lemma {:induction false} WholeIsLaid(programs: seq<Program>, target: Name, lines: seq<Line>)
    requires lines == AllLines(programs, |programs|) && AllSettled(lines)
    ensures LaidCells(InstsOf(lines), target, WholeCells(Sources(programs), target))
  {
    WholeEnvAgrees(programs, target, lines);
    AllLinesLaid(lines, InstsOf(lines), target, WholeEnv(Sources(programs), target));
    WholeIsStripped(programs, |programs|, lines, AllItems(lines));
    CodeCellsStrip(AllItems(lines), WholeEnv(Sources(programs), target));
  }

  // ----- The flattened bin -----

  lemma {:induction false} PointersStay(img: Image, goal: seq<Cell>, k: nat)
    requires OpenRequired(img, goal) && k < |img.adjustment|
    requires forall a :: 0 <= a < |goal| && goal[a].Ptr? ==> goal[a].bin == img.name
    ensures img.adjustment[k].bin == img.name
  {
    var a := img.adjustment[k].address;
    CellAtSlot(img.words, img.adjustment, k);
    RequiredCell(img, goal, a);
  }

  lemma {:induction false} LaidPointers(p: seq<Code.Inst>, name: Name, cells: seq<Cell>, a: nat)
    requires LaidCells(p, name, cells) && a < |cells| && cells[a].Ptr?
    ensures cells[a].bin == name
  {
    var k, j := Code.Locate(p, |p|, a);
    CellLaid(p, name, cells, k, j);
  }

  lemma {:induction false} OpenIsSelfContained(img: Image, p: seq<Code.Inst>, goal: seq<Cell>)
    requires OpenRequired(img, goal) && LaidCells(p, img.name, goal)
    ensures Removal.SelfContained(img)
  {
    forall a | 0 <= a < |goal| && goal[a].Ptr? ensures goal[a].bin == img.name {
      LaidPointers(p, img.name, goal, a);
    }
    forall k | 0 <= k < |img.adjustment| ensures img.adjustment[k].bin == img.name {
      PointersStay(img, goal, k);
    }
  }

  /** A provided label of the flattened bin is at an instruction. */
  lemma {:induction false} ProvidedAtStart(names: seq<Name>, programs: seq<Program>, images: seq<Image>, target: Name,
          f: Image, lines: seq<Line>, e: Entry)
    requires Separable(names, Sources(programs), target) && Labelled(Sources(programs), images)
    requires Flat(Sources(programs), images, target, f) && e in f.provided
    requires lines == AllLines(programs, |programs|) && ArePrograms(programs) && AllSettled(lines)
    requires |f.words| == Code.Start(InstsOf(lines), Order(lines, |lines|)) <= WORD_COUNT
    ensures AtStart(InstsOf(lines), e.address)
  {
    var n := ProvidedFrom(Sources(programs), images, target, e);
    LabelDenotes(programs, target, lines, n);
    AllFollowed(names, programs, target);
    LabelsInsideAll(programs, |programs|, n);
    var m := LabelOrder(lines, |lines|, n).value;
    Code.StartMonotone(InstsOf(lines), m, Order(lines, |lines|));
  }

  lemma {:induction false} FlatTablesFit(f: Image)
    requires Distinct(f.required) && Below(f.provided, |f.words|) && Below(f.required, |f.words|)
    requires f.jump == [] && f.optional == [] && f.call == [] && f.output == []
    ensures TablesFit(f)
  {
    forall t ensures Below(TableOf(f, t), |f.words|) {
    }
  }

  /** The flattened bin holds the instructions of all lines, but for the required labels. */
  lemma {:induction false} FlatHoldsOpen(names: seq<Name>, programs: seq<Program>, images: seq<Image>, target: Name,
          f: Image, lines: seq<Line>)
    requires Separable(names, Sources(programs), target) && GoodObjects(names, Sources(programs), images)
    requires Flat(Sources(programs), images, target, f)
    requires lines == AllLines(programs, |programs|) && ArePrograms(programs) && AllSettled(lines)
    ensures HoldsOpen(f, InstsOf(lines), WholeCells(Sources(programs), target))
  {
    var p, goal := InstsOf(lines), WholeCells(Sources(programs), target);
    FlatIsOpen(names, Sources(programs), images, target, f);
    WholeIsLaid(programs, target, lines);
    InstsAreBare(lines);
    OpenIsSelfContained(f, p, goal);
    FlatTablesFit(f);
    ObjectsAreLabelled(names, Sources(programs), images, target);
    forall i | 0 <= i < |f.provided| ensures AtStart(p, f.provided[i].address) {
      ProvidedAtStart(names, programs, images, target, f, lines, f.provided[i]);
    }
  }
}
