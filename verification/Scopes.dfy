/**
 Preprocessor scopes (libdcpu-pp/ppimpl.c): text printed in an inactive scope disappears when the scope is
 popped, and handlers registered in a scope hide those of the same text until then.
 */
module Scopes {

  datatype Handler = Handler(text: string, id: int)

  datatype Scope = Scope(active: bool, start: nat, hidden: seq<Handler>, added: seq<string>)

  datatype State = State(handlers: seq<Handler>, output: string, scopes: seq<Scope>)

  /** The handlers whose text is, or is not, among the names. */
  function Keep(hs: seq<Handler>, names: seq<string>, among: bool): seq<Handler> {
    if hs == [] then []
    else
      var rest, last := Keep(hs[..|hs| - 1], names, among), hs[|hs| - 1];
      if (last.text in names) == among then rest + [last] else rest
  }

  function Push(st: State, active: bool): State {
    st.(scopes := st.scopes + [Scope(active, |st.output|, [], [])])
  }

  function Print(st: State, text: string): State {
    st.(output := st.output + text)
  }

  /** `ppimpl_register` */
  function Register(st: State, h: Handler): State {
    if st.scopes == [] then st.(handlers := st.handlers + [h])
    else
      var n := |st.scopes| - 1;
      var scope := st.scopes[n];
      State(Keep(st.handlers, [h.text], false) + [h], st.output,
            st.scopes[n := scope.(hidden := scope.hidden + Keep(st.handlers, [h.text], true),
                                  added := scope.added + [h.text])])
  }

  /** The output after a scope is popped; an empty inactive scope deletes nothing. */
  function Cut(output: string, scope: Scope): string {
    if !scope.active && scope.start < |output| then output[..scope.start] else output
  }

  /** `ppimpl_pop_scope` */
  function Pop(st: State): State {
    if st.scopes == [] then st
    else
      var n := |st.scopes| - 1;
      var scope := st.scopes[n];
      State(Keep(st.handlers, scope.added, false) + scope.hidden, Cut(st.output, scope), st.scopes[..n])
  }

  /** `ppimpl_flip_scope`; there is nothing to flip outside scopes. */
  function Flip(st: State): State {
    if st.scopes == [] then st else Push(Pop(st), !st.scopes[|st.scopes| - 1].active)
  }

  datatype Op = Open(active: bool) | Text(text: string) | Add(handler: Handler) | Else | Close

  function Step(st: State, op: Op): State {
    match op
    case Open(active) => Push(st, active)
    case Text(s) => Print(st, s)
    case Add(h) => Register(st, h)
    case Else => Flip(st)
    case Close => Pop(st)
  }

  function Run(st: State, ops: seq<Op>): State {
    if ops == [] then st else Step(Run(st, ops[..|ops| - 1]), ops[|ops| - 1])
  }

  lemma {:induction false} RunAppend(st: State, ops: seq<Op>, more: seq<Op>)
    ensures Run(st, ops + more) == Run(Run(st, ops), more)
  {
    if more == [] {
      assert ops + more == ops;
    } else {
      RunAppend(st, ops, more[..|more| - 1]);
      assert (ops + more)[..|ops + more| - 1] == ops + more[..|more| - 1];
    }
  }

  lemma {:induction false} RunOne(st: State, op: Op)
    ensures Run(st, [op]) == Step(st, op)
  {
    assert [op][..0] == [];
  }

  // ----- Well-nested sequences as trees -----

  /** The contents of a scope, and the parts of a conditional between its flips. */
  datatype Nodes =
    | Done
    | Printed(text: string, rest: Nodes)
    | Defined(handler: Handler, rest: Nodes)
    | Block(active: bool, parts: Parts, rest: Nodes)
  datatype Parts = Last(body: Nodes) | More(body: Nodes, others: Parts)

  function Ops(n: Nodes): seq<Op> {
    match n
    case Done => []
    case Printed(s, rest) => [Text(s)] + Ops(rest)
    case Defined(h, rest) => [Add(h)] + Ops(rest)
    case Block(active, parts, rest) => [Open(active)] + PartOps(parts) + [Close] + Ops(rest)
  }

  function PartOps(p: Parts): seq<Op> {
    match p
    case Last(body) => Ops(body)
    case More(body, others) => Ops(body) + [Else] + PartOps(others)
  }

  /** The text of a tree: inactive parts contribute nothing. */
  function Rendered(n: Nodes): string
    decreases n
  {
    match n
    case Done => ""
    case Printed(s, rest) => s + Rendered(rest)
    case Defined(_, rest) => Rendered(rest)
    case Block(active, parts, rest) => RenderedParts(active, parts) + Rendered(rest)
  }

  function RenderedParts(active: bool, p: Parts): string
    decreases p
  {
    match p
    case Last(body) => if active then Rendered(body) else ""
    case More(body, others) => (if active then Rendered(body) else "") + RenderedParts(!active, others)
  }

  function Texts(hs: seq<Handler>): (r: seq<string>)
    ensures |r| == |hs| && forall i :: 0 <= i < |hs| ==> r[i] == hs[i].text
  {
    seq(|hs|, i requires 0 <= i < |hs| => hs[i].text)
  }

  /** The handlers registered directly in a scope with these contents. */
  function Added(n: Nodes): seq<Handler> {
    match n
    case Done => []
    case Printed(_, rest) => Added(rest)
    case Defined(h, rest) => [h] + Added(rest)
    case Block(_, _, rest) => Added(rest)
  }

  predicate Registers(n: Nodes, text: string) {
    text in Texts(Added(n))
  }

  /**
   The handlers that a scope with these contents leaves behind when it has registered the texts `before`: those
   that the same scope hides later on, and those left by scopes inside it unless it registers their text before
   and not again afterwards.
   */
  function Left(n: Nodes, before: seq<string>): seq<Handler> {
    match n
    case Done => []
    case Printed(_, rest) => Left(rest, before)
    case Defined(h, rest) => (if Registers(rest, h.text) then [h] else []) + Left(rest, before + [h.text])
    case Block(_, parts, rest) => Surviving(LeftBehind(parts), before, rest) + Left(rest, before)
  }

  function Surviving(hs: seq<Handler>, before: seq<string>, rest: Nodes): seq<Handler> {
    if hs == [] then []
    else
      var front, last := Surviving(hs[..|hs| - 1], before, rest), hs[|hs| - 1];
      if Stays(last, before, rest) then front + [last] else front
  }

  /** A handler in force outlasts the scope, of which `rest` is still to be run. */
  predicate Stays(h: Handler, before: seq<string>, rest: Nodes) {
    h.text !in before || Registers(rest, h.text)
  }

  /** The handlers that a conditional leaves behind. */
  function LeftBehind(p: Parts): seq<Handler> {
    match p
    case Last(body) => Left(body, [])
    case More(body, others) => Left(body, []) + LeftBehind(others)
  }

  ghost predicate DistinctTexts(hs: seq<Handler>) {
    forall i, j :: 0 <= i < j < |hs| ==> hs[i].text != hs[j].text
  }

  /** No scope inside registers a text twice. */
  ghost predicate Tidy(n: Nodes) {
    match n
    case Done => true
    case Printed(_, rest) => Tidy(rest)
    case Defined(_, rest) => Tidy(rest)
    case Block(_, parts, rest) => TidyParts(parts) && Tidy(rest)
  }

  ghost predicate TidyParts(p: Parts) {
    match p
    case Last(body) => DistinctTexts(Added(body)) && Tidy(body)
    case More(body, others) => DistinctTexts(Added(body)) && Tidy(body) && TidyParts(others)
  }

  // ----- Handlers, counted -----

  function Count(hs: seq<Handler>, x: Handler): nat {
    if hs == [] then 0 else Count(hs[..|hs| - 1], x) + if hs[|hs| - 1] == x then 1 else 0
  }

  lemma {:induction false} CountAppend(a: seq<Handler>, b: seq<Handler>, x: Handler)
    ensures Count(a + b, x) == Count(a, x) + Count(b, x)
  {
    if b == [] {
      assert a + b == a;
    } else {
      CountAppend(a, b[..|b| - 1], x);
      assert (a + b)[..|a + b| - 1] == a + b[..|b| - 1];
    }
  }

  lemma {:induction false} CountOne(h: Handler, x: Handler)
    ensures Count([h], x) == if h == x then 1 else 0
  {
    assert [h][..0] == [];
  }

  lemma {:induction false} CountKeep(hs: seq<Handler>, names: seq<string>, among: bool, x: Handler)
    ensures Count(Keep(hs, names, among), x) == if (x.text in names) == among then Count(hs, x) else 0
  {
    if hs != [] {
      var rest, last := hs[..|hs| - 1], hs[|hs| - 1];
      CountKeep(rest, names, among, x);
      CountAppend(Keep(rest, names, among), [last], x);
      CountOne(last, x);
    }
  }

  ghost predicate SameHandlers(a: seq<Handler>, b: seq<Handler>) {
    forall x :: Count(a, x) == Count(b, x)
  }

  lemma {:induction false} CountSurviving(hs: seq<Handler>, before: seq<string>, rest: Nodes, x: Handler)
    ensures Count(Surviving(hs, before, rest), x) == if Stays(x, before, rest) then Count(hs, x) else 0
  {
    if hs != [] {
      var front, last := hs[..|hs| - 1], hs[|hs| - 1];
      CountSurviving(front, before, rest, x);
      CountAppend(Surviving(front, before, rest), [last], x);
      CountOne(last, x);
    }
  }

  lemma {:induction false} CountsEmpty(hs: seq<Handler>)
    ensures (forall x :: Count(hs, x) == 0) <==> hs == []
  {
    if hs != [] { assert Count(hs, hs[|hs| - 1]) > 0; }
  }

  // ----- Running a tree -----

  ghost predicate InScope(st: State) {
    st.scopes != [] && Top(st).start <= |st.output|
  }

  function Top(st: State): Scope
    requires st.scopes != []
  {
    st.scopes[|st.scopes| - 1]
  }

  /** The scopes below the top one, and the top one's place, are as they were. */
  ghost predicate SameStack(st: State, t: State)
    requires InScope(st)
  {
    && InScope(t) && t.scopes[..|t.scopes| - 1] == st.scopes[..|st.scopes| - 1]
    && Top(t).active == Top(st).active && Top(t).start == Top(st).start
  }

  /** How often `x` is there once the scope has run `n` and is popped, apart from what `n` leaves behind. */
  function Outlasting(st: State, n: Nodes, x: Handler): nat
    requires st.scopes != []
  {
    Count(Top(st).hidden, x) + if Stays(x, Top(st).added, n) then Count(st.handlers, x) else 0
  }

  /** With what `n` leaves behind. */
  function Promised(st: State, n: Nodes, x: Handler): nat
    requires st.scopes != []
  {
    Outlasting(st, n, x) + Count(Left(n, Top(st).added), x)
  }

  /** With `n` to run `st` promises the handlers that `t` promises with `rest` to run. */
  ghost predicate SamePromise(st: State, n: Nodes, t: State, rest: Nodes)
    requires st.scopes != [] && t.scopes != []
  {
    forall x :: Promised(t, rest, x) == Promised(st, n, x)
  }

  /** The contents `n` of a scope, run from `st` to `t`, print `text` and keep what was promised. */
  ghost predicate Ran(st: State, t: State, n: Nodes, text: string)
    requires InScope(st)
  {
    SameStack(st, t) && t.output == st.output + text && SamePromise(st, n, t, Done)
  }

  lemma {:induction false} PopOutlasting(t: State, x: Handler)
    requires t.scopes != []
    ensures Count(Pop(t).handlers, x) == Promised(t, Done, x)
  {
    CountKeep(t.handlers, Top(t).added, false, x);
    CountAppend(Keep(t.handlers, Top(t).added, false), Top(t).hidden, x);
  }

  /** A whole conditional has been run: nothing is left of it but its text and some handlers. */
  ghost predicate Leaves(st: State, t: State, text: string, hs: seq<Handler>) {
    && t.scopes == st.scopes && t.output == st.output + text
    && forall x :: Count(t.handlers, x) == Count(st.handlers, x) + Count(hs, x)
  }

  lemma {:induction false} LeavesOn(st: State, t: State, u: State, a: string, b: string, hs: seq<Handler>,
          more: seq<Handler>)
    requires Leaves(st, t, a, hs) && Leaves(t, u, b, more)
    ensures Leaves(st, u, a + b, hs + more)
  {
    assert st.output + (a + b) == st.output + a + b;
    forall x ensures Count(u.handlers, x) == Count(st.handlers, x) + Count(hs + more, x) {
      CountAppend(hs, more, x);
    }
  }

  /** Leaving a scope: its text stays if it is active. */
  lemma {:induction false} LeaveScope(st: State, active: bool, t: State, n: Nodes, text: string)
    requires Ran(Push(st, active), t, n, text)
    ensures Leaves(st, Pop(t), if active then text else "", Left(n, []))
  {
    var s := Push(st, active);
    assert s.scopes[..|st.scopes|] == st.scopes;
    assert Cut(t.output, Top(t)) == st.output + if active then text else "";
    forall x ensures Count(Pop(t).handlers, x) == Count(st.handlers, x) + Count(Left(n, []), x) {
      PopOutlasting(t, x);
      assert Promised(s, n, x) == Count(st.handlers, x) + Count(Left(n, []), x);
    }
  }

  lemma {:induction false} RegisterOutlasts(st: State, h: Handler, rest: Nodes, x: Handler)
    requires st.scopes != []
    ensures Promised(Register(st, h), rest, x) == Promised(st, Defined(h, rest), x)
  {
    var scope := Top(st);
    CountKeep(st.handlers, [h.text], false, x);
    CountKeep(st.handlers, [h.text], true, x);
    CountAppend(Keep(st.handlers, [h.text], false), [h], x);
    CountAppend(scope.hidden, Keep(st.handlers, [h.text], true), x);
    CountOne(h, x);
    RegistersFirst(h, rest, x.text);
    LeftOfFirst(h, rest, scope.added, x);
  }

  lemma {:induction false} LeftOfFirst(h: Handler, rest: Nodes, before: seq<string>, x: Handler)
    ensures Count(Left(Defined(h, rest), before), x) ==
            (if x == h && Registers(rest, h.text) then 1 else 0) + Count(Left(rest, before + [h.text]), x)
  {
    CountOne(h, x);
    CountAppend(if Registers(rest, h.text) then [h] else [], Left(rest, before + [h.text]), x);
  }

  lemma {:induction false} RegistersFirst(h: Handler, rest: Nodes, text: string)
    ensures Registers(Defined(h, rest), text) <==> text == h.text || Registers(rest, text)
  {
    assert Texts([h] + Added(rest)) == [h.text] + Texts(Added(rest));
  }

  lemma {:induction false} BlockOutlasts(st: State, active: bool, parts: Parts, t: State, text: string, rest: Nodes,
          x: Handler)
    requires InScope(st) && Leaves(st, t, text, LeftBehind(parts))
    ensures Promised(t, rest, x) == Promised(st, Block(active, parts, rest), x)
  {
    CountSurviving(LeftBehind(parts), Top(st).added, rest, x);
    CountAppend(Surviving(LeftBehind(parts), Top(st).added, rest), Left(rest, Top(st).added), x);
  }

  lemma {:induction false} PromiseOn(st: State, n: Nodes, t: State, rest: Nodes, u: State)
    requires st.scopes != [] && t.scopes != [] && u.scopes != []
    requires SamePromise(st, n, t, rest) && SamePromise(t, rest, u, Done)
    ensures SamePromise(st, n, u, Done)
  {
    forall x ensures Promised(u, Done, x) == Promised(st, n, x) {
      assert Promised(t, rest, x) == Promised(st, n, x);
    }
  }

  /** One step has been run, and then the rest of the contents. */
  lemma {:induction false} RanThen(st: State, t: State, u: State, n: Nodes, rest: Nodes, a: string, b: string)
    requires InScope(st) && SameStack(st, t) && t.output == st.output + a
    requires SamePromise(st, n, t, rest) && Ran(t, u, rest, b)
    ensures Ran(st, u, n, a + b)
  {
    assert st.output + (a + b) == st.output + a + b;
    PromiseOn(st, n, t, rest, u);
  }

  lemma {:induction false} RunThen(st: State, ops: seq<Op>, t: State, text: string, n: Nodes, rest: Nodes)
    requires InScope(st) && Run(st, ops) == t && SameStack(st, t) && t.output == st.output + text
    requires SamePromise(st, n, t, rest) && Ran(t, Run(t, Ops(rest)), rest, Rendered(rest))
    ensures Ran(st, Run(st, ops + Ops(rest)), n, text + Rendered(rest))
  {
    RunAppend(st, ops, Ops(rest));
    RanThen(st, t, Run(t, Ops(rest)), n, rest, text, Rendered(rest));
  }

  /** The contents of a scope: the text is printed, and it is known what a pop would leave. */
  lemma {:induction false} RunNodes(st: State, n: Nodes)
    requires InScope(st)
    ensures Ran(st, Run(st, Ops(n)), n, Rendered(n))
    decreases n, 0
  {
    match n
    case Done =>
      assert st.output + "" == st.output;
    case Printed(s, rest) =>
      RunOne(st, Text(s));
      RunNodes(Print(st, s), rest);
      RunThen(st, [Text(s)], Print(st, s), s, n, rest);
    case Defined(h, rest) =>
      RunOne(st, Add(h));
      RunNodes(Register(st, h), rest);
      forall x ensures Promised(Register(st, h), rest, x) == Promised(st, n, x) {
        RegisterOutlasts(st, h, rest, x);
      }
      assert "" + Rendered(rest) == Rendered(rest) && st.output + "" == st.output;
      RunThen(st, [Add(h)], Register(st, h), "", n, rest);
    case Block(active, parts, rest) =>
      var ops := [Open(active)] + PartOps(parts) + [Close];
      var t := Run(st, ops);
      RunParts(st, active, parts);
      RunNodes(t, rest);
      forall x ensures Promised(t, rest, x) == Promised(st, n, x) {
        BlockOutlasts(st, active, parts, t, RenderedParts(active, parts), rest, x);
      }
      RunThen(st, ops, t, RenderedParts(active, parts), n, rest);
  }

  /** One scope. */
  lemma {:induction false} RunScope(st: State, active: bool, body: Nodes, t: State)
    requires t == Run(Push(st, active), Ops(body))
    ensures Leaves(st, Pop(t), if active then Rendered(body) else "", Left(body, []))
    ensures t.scopes != [] && Top(t).active == active
    decreases body, 1
  {
    RunNodes(Push(st, active), body);
    LeaveScope(st, active, t, body, Rendered(body));
  }

  lemma {:induction false} RunEnclosed(st: State, first: Op, ops: seq<Op>, last: Op)
    ensures Run(st, [first] + ops + [last]) == Step(Run(Step(st, first), ops), last)
  {
    RunAppend(st, [first] + ops, [last]);
    RunAppend(st, [first], ops);
    RunOne(st, first);
    RunOne(Run(st, [first] + ops), last);
  }

  /** A conditional with all its parts: scope by scope, flipping in between. */
  lemma {:induction false} RunParts(st: State, active: bool, p: Parts)
    ensures Leaves(st, Run(st, [Open(active)] + PartOps(p) + [Close]), RenderedParts(active, p), LeftBehind(p))
    decreases p, 2
  {
    match p
    case Last(body) =>
      RunEnclosed(st, Open(active), Ops(body), Close);
      RunScope(st, active, body, Run(Push(st, active), Ops(body)));
    case More(body, others) =>
      var t := Run(Push(st, active), Ops(body));
      RunScope(st, active, body, t);
      var u := Pop(t);
      RunParts(u, !active, others);
      FlipIsPopPush(st, active, body, others, t);
      var text := if active then Rendered(body) else "";
      LeavesOn(st, u, Run(u, [Open(!active)] + PartOps(others) + [Close]), text, RenderedParts(!active, others),
               Left(body, []), LeftBehind(others));
  }

  lemma {:induction false} FlipIsPopPush(st: State, active: bool, body: Nodes, others: Parts, t: State)
    requires t == Run(Push(st, active), Ops(body)) && t.scopes != [] && Top(t).active == active
    ensures Run(st, [Open(active)] + (Ops(body) + [Else] + PartOps(others)) + [Close]) ==
            Run(Pop(t), [Open(!active)] + PartOps(others) + [Close])
  {
    RunEnclosed(st, Open(active), Ops(body) + [Else] + PartOps(others), Close);
    RunAppend(Push(st, active), Ops(body) + [Else], PartOps(others));
    RunAppend(Push(st, active), Ops(body), [Else]);
    RunOne(t, Else);
    RunEnclosed(Pop(t), Open(!active), PartOps(others), Close);
  }

  // ----- The main results -----

  /**
   A conditional with anything nested in it closes its scopes, prints its tree with every inactive part
   contributing nothing, and leaves behind the handlers `LeftBehind`; so the handlers, counted, are as before if
   and only if there are none.
   */
  lemma {:induction false} ScopesAreTransparent(st: State, active: bool, p: Parts)
    ensures var t := Run(st, [Open(active)] + PartOps(p) + [Close]);
            && t.scopes == st.scopes && t.output == st.output + RenderedParts(active, p)
            && (forall x :: Count(t.handlers, x) == Count(st.handlers, x) + Count(LeftBehind(p), x))
            && (SameHandlers(t.handlers, st.handlers) <==> LeftBehind(p) == [])
  {
    RunParts(st, active, p);
    CountsEmpty(LeftBehind(p));
  }

  lemma {:induction false} DistinctFirst(h: Handler, rest: Nodes)
    ensures DistinctTexts(Added(Defined(h, rest))) <==> !Registers(rest, h.text) && DistinctTexts(Added(rest))
  {
    var hs := Added(rest);
    var all := [h] + hs;
    if DistinctTexts(all) {
      forall i | 0 <= i < |hs| ensures hs[i].text != h.text {
        assert all[0].text != all[i + 1].text;
      }
      forall i, j | 0 <= i < j < |hs| ensures hs[i].text != hs[j].text {
        assert all[i + 1].text != all[j + 1].text;
      }
    }
    if !Registers(rest, h.text) && DistinctTexts(hs) {
      forall i, j | 0 <= i < j < |all| ensures all[i].text != all[j].text {
        assert Texts(hs)[j - 1] == hs[j - 1].text;
      }
    }
  }

  /** A scope with nothing left behind inside leaves nothing behind if and only if it registers no text twice. */
  lemma {:induction false} LeftIff(n: Nodes, before: seq<string>)
    requires Tidy(n)
    ensures Left(n, before) == [] <==> DistinctTexts(Added(n))
    decreases n, 0
  {
    match n
    case Done =>
    case Printed(_, rest) => LeftIff(rest, before);
    case Defined(h, rest) =>
      LeftIff(rest, before + [h.text]);
      DistinctFirst(h, rest);
    case Block(_, parts, rest) =>
      TidyLeavesNothing(parts);
      LeftIff(rest, before);
  }

  lemma {:induction false} TidyLeavesNothing(p: Parts)
    requires TidyParts(p)
    ensures LeftBehind(p) == []
    decreases p, 1
  {
    match p
    case Last(body) => LeftIff(body, []);
    case More(body, others) =>
      LeftIff(body, []);
      TidyLeavesNothing(others);
  }

  /** A scope with tidy contents restores the handlers if and only if it does not register a text twice. */
  lemma {:induction false} RestoredIff(st: State, active: bool, body: Nodes)
    requires Tidy(body)
    ensures SameHandlers(Run(st, [Open(active)] + Ops(body) + [Close]).handlers, st.handlers) <==>
            DistinctTexts(Added(body))
  {
    assert PartOps(Last(body)) == Ops(body);
    ScopesAreTransparent(st, active, Last(body));
    LeftIff(body, []);
  }

  /** A handler left behind inside is deleted with the scope around if that has registered its text before. */
  lemma {:induction false} UntidyIsRestored(h: Handler, outer: Handler)
    requires h.text == outer.text
    ensures var twice := Last(Defined(h, Defined(h, Done)));
            var p := Last(Defined(outer, Block(true, twice, Done)));
            !TidyParts(p) && LeftBehind(twice) == [h] && LeftBehind(p) == []
  {
    var one := Defined(h, Done);
    var two, names: seq<string> := Defined(h, one), [outer.text];
    var around := Block(true, Last(two), Done);
    RegistersFirst(h, Done, h.text);
    DistinctFirst(h, one);
    assert Left(one, [] + [h.text]) == [];
    assert Left(two, []) == [h] + Left(one, [] + [h.text]);
    assert [h][..0] == [] && [] + names == names;
    assert Surviving([h], names, Done) == [];
    assert Left(around, names) == [];
    assert !Registers(around, outer.text);
    assert !TidyParts(Last(two));
    assert !Tidy(around);
    assert !Tidy(Defined(outer, around));
  }

  // ----- In place -----

  class Preprocessor {
    var handlers: seq<Handler>
    var output: string
    var scopes: seq<Scope>

    function Value(): State
      reads this
    {
      State(handlers, output, scopes)
    }

    method PushScope(active: bool)
      modifies this`scopes
      ensures Value() == Push(old(Value()), active)
    {
      scopes := scopes + [Scope(active, |output|, [], [])];
    }

    /** Handlers of the given text are taken out of the list and returned. */
    method Extract(text: string) returns (taken: seq<Handler>)
      modifies this`handlers
      ensures handlers == Keep(old(handlers), [text], false) && taken == Keep(old(handlers), [text], true)
    {
      ghost var all, j, kept := handlers, 0, [];
      var a := 0;
      taken := [];
      while a < |handlers|
        invariant 0 <= j <= |all| && a == |kept| && handlers == kept + all[j..]
        invariant kept == Keep(all[..j], [text], false) && taken == Keep(all[..j], [text], true)
        decreases |handlers| - a
      {
        SplitAt(kept, all, j);
        KeepStep(all, j, [text], false);
        KeepStep(all, j, [text], true);
        var other := handlers[a];
        if other.text == text {
          taken := taken + [other];
          handlers := handlers[..a] + handlers[a + 1..];
        } else {
          kept := kept + [other];
          a := a + 1;
        }
        j := j + 1;
      }
      assert all[..j] == all;
    }

    /** `ppimpl_register` */
    method RegisterHandler(h: Handler)
      modifies this`handlers, this`scopes
      ensures Value() == Register(old(Value()), h)
    {
      if scopes == [] {
        handlers := handlers + [h];
        return;
      }
      var n := |scopes| - 1;
      var taken := Extract(h.text);
      handlers := handlers + [h];
      scopes := scopes[n := scopes[n].(hidden := scopes[n].hidden + taken, added := scopes[n].added + [h.text])];
    }

    /** `ppimpl_pop_scope` */
    method PopScope()
      modifies this
      ensures Value() == Pop(old(Value()))
    {
      if scopes == [] { return; }
      var n := |scopes| - 1;
      var scope := scopes[n];
      scopes := scopes[..n];
      if !scope.active && scope.start < |output| { output := output[..scope.start]; }
      KeepNone(handlers);
      for i := 0 to |scope.added|
        invariant handlers == Keep(old(handlers), scope.added[..i], false)
        invariant output == Cut(old(output), scope) && scopes == old(scopes)[..n]
      {
        KeepMore(old(handlers), scope.added, i);
        var gone := Extract(scope.added[i]);
      }
      assert scope.added[..|scope.added|] == scope.added;
      handlers := handlers + scope.hidden;
    }

    /** `ppimpl_flip_scope` */
    method FlipScope()
      modifies this
      ensures Value() == Flip(old(Value()))
    {
      if scopes == [] { return; }
      var active := scopes[|scopes| - 1].active;
      PopScope();
      PushScope(!active);
    }
  }

  lemma {:induction false} SplitAt(kept: seq<Handler>, all: seq<Handler>, j: nat)
    requires j < |all|
    ensures var r := kept + all[j..];
            && r[|kept|] == all[j] && r == kept + [all[j]] + all[j + 1..]
            && r[..|kept|] + r[|kept| + 1..] == kept + all[j + 1..]
  {
  }

  lemma {:induction false} KeepStep(all: seq<Handler>, j: nat, names: seq<string>, among: bool)
    requires j < |all|
    ensures Keep(all[..j + 1], names, among) ==
            Keep(all[..j], names, among) + if (all[j].text in names) == among then [all[j]] else []
  {
    assert all[..j + 1][..j] == all[..j];
  }

  lemma {:induction false} KeepNone(hs: seq<Handler>)
    ensures Keep(hs, [], false) == hs
  {
    if hs != [] { KeepNone(hs[..|hs| - 1]); }
  }

  lemma {:induction false} KeepMore(hs: seq<Handler>, names: seq<string>, i: nat)
    requires i < |names|
    ensures Keep(Keep(hs, names[..i], false), [names[i]], false) == Keep(hs, names[..i + 1], false)
  {
    if hs != [] {
      var last := hs[|hs| - 1];
      KeepMore(hs[..|hs| - 1], names, i);
      assert last.text in names[..i + 1] <==> last.text in names[..i] || last.text == names[i];
      KeepOne(Keep(hs[..|hs| - 1], names[..i], false), last, names[i]);
    }
  }

  lemma {:induction false} KeepOne(hs: seq<Handler>, last: Handler, name: string)
    ensures Keep(hs + [last], [name], false) == Keep(hs, [name], false) + if last.text == name then [] else [last]
  {
    assert (hs + [last])[..|hs|] == hs;
  }
}
