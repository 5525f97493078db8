/**
 Interrupts over every run of the machine (libdcpu-vm/vm.c): the queue is bounded and first-in first-out,
 and a handler is not interrupted before it re-enables delivery.
 */
module InterruptSafety {
  import opened Words
  import opened Dcpu
  import opened Machine

  /** Where in `vm_cycle` the machine is: between two cycles, past the sleep check, or past the delivery. */
  datatype Phase = Between | Awake | Delivered

  datatype Moment = Moment(state: State, phase: Phase)

  /** What can happen next: the next part of the cycle, an interrupt raised by a device or a hook, a device's write. */
  datatype Action = Step | Raise(message: Word) | Write(place: Place, value: Word)

  /** The next part of the cycle; hooks run before the delivery and before the instruction. */
  function NextPart(x: Moment): Option<(Moment, seq<Event>)> {
    var s := x.state;
    match x.phase
    case Between =>
      if s.sleep > 0 then Some((Moment(s.(sleep := s.sleep - 1), Between), [])) else Some((Moment(s, Awake), []))
    case Awake => At(TakeMessage(s), Delivered)
    case Delivered => if s.halted then Some((Moment(s, Between), [])) else At(Execute(s), Between)
  }

  function At(r: Option<(State, seq<Event>)>, phase: Phase): Option<(Moment, seq<Event>)> {
    match r
    case None => None
    case Some((t, es)) => Some((Moment(t, phase), es))
  }

  function Act(x: Moment, action: Action): Option<(Moment, seq<Event>)> {
    match action
    case Step => NextPart(x)
    case Raise(m) => At(Interrupt(x.state, m), x.phase)
    case Write(p, w) => Some((x.(state := Store(x.state, p, w)), []))
  }

  /** The machine and the events after a run; none if the machine hangs in it. */
  function Run(x: Moment, actions: seq<Action>): Option<(Moment, seq<Event>)> {
    if actions == [] then Some((x, []))
    else
      match Run(x, actions[..|actions| - 1])
      case None => None
      case Some((y, es)) =>
        match Act(y, actions[|actions| - 1])
        case None => None
        case Some((z, fs)) => Some((z, es + fs))
  }

  lemma {:induction false} RunStep(x: Moment, actions: seq<Action>)
    ensures Run(x, actions + [Step]) == match Run(x, actions)
                                        case None => None
                                        case Some((y, es)) =>
                                          match NextPart(y)
                                          case None => None
                                          case Some((z, fs)) => Some((z, es + fs))
  {
    assert (actions + [Step])[..|actions|] == actions;
  }

  /** The parts of one cycle. */
  function Parts(s: State): seq<Action> {
    if s.sleep > 0 then [Step] else [Step] + [Step] + [Step]
  }

  lemma {:induction false} FirstStep(x: Moment)
    ensures Run(x, [Step]) == NextPart(x)
  {
    var none: seq<Action> := [];
    RunStep(x, none);
    assert none + [Step] == [Step];
    if NextPart(x).Some? { assert [] + NextPart(x).value.1 == NextPart(x).value.1; }
  }

  lemma {:induction false} ThreeSteps(x: Moment, y: Moment)
    requires NextPart(x) == Some((y, []))
    ensures Run(x, [Step] + [Step] + [Step]) == match NextPart(y)
                                                case None => None
                                                case Some((z, es)) =>
                                                  match NextPart(z)
                                                  case None => None
                                                  case Some((w, fs)) => Some((w, es + fs))
  {
    FirstStep(x);
    RunStep(x, [Step]);
    RunStep(x, [Step] + [Step]);
    if NextPart(y).Some? { assert [] + NextPart(y).value.1 == NextPart(y).value.1; }
  }

  /** Without any hook in between, the parts of a cycle make up `vm_cycle`. */
  lemma {:induction false} PartsMakeTheCycle(s: State)
    ensures Run(Moment(s, Between), Parts(s)) == At(Cycle(s), Between)
  {
    if s.sleep > 0 {
      FirstStep(Moment(s, Between));
    } else {
      ThreeSteps(Moment(s, Between), Moment(s, Awake));
      if TakeMessage(s).Some? { assert TakeMessage(s).value.1 + [] == TakeMessage(s).value.1; }
    }
  }

  // ----- Reading the log -----

  /** The messages that were queued, in order. */
  function QueuedIn(log: seq<Event>): seq<Word> {
    if log == [] then []
    else QueuedIn(log[..|log| - 1]) + if log[|log| - 1].Queued? then [log[|log| - 1].message] else []
  }

  /** The messages that left the queue, in order. */
  function LeftIn(log: seq<Event>): seq<Word> {
    if log == [] then []
    else LeftIn(log[..|log| - 1]) + if log[|log| - 1].Left? then [log[|log| - 1].message] else []
  }

  /** Whether delivery is off after the log. */
  function Masked(masked: bool, log: seq<Event>): bool {
    if log == [] then masked
    else match log[|log| - 1]
         case Dispatched(_) => true
         case Disabled => true
         case Enabled => false
         case _ => Masked(masked, log[..|log| - 1])
  }

  /** No message is dispatched while delivery is off. */
  ghost predicate Orderly(masked: bool, log: seq<Event>) {
    forall i :: 0 <= i < |log| && log[i].Dispatched? ==> !Masked(masked, log[..i])
  }

  lemma {:induction false} LogsAppend(es: seq<Event>, fs: seq<Event>, masked: bool)
    ensures QueuedIn(es + fs) == QueuedIn(es) + QueuedIn(fs) && LeftIn(es + fs) == LeftIn(es) + LeftIn(fs)
    ensures Masked(masked, es + fs) == Masked(Masked(masked, es), fs)
  {
    QueuedAppend(es, fs);
    LeftAppend(es, fs);
    MaskedAppend(es, fs, masked);
  }

  lemma {:induction false} QueuedAppend(es: seq<Event>, fs: seq<Event>)
    ensures QueuedIn(es + fs) == QueuedIn(es) + QueuedIn(fs)
  {
    if fs == [] {
      assert es + fs == es;
    } else {
      QueuedAppend(es, fs[..|fs| - 1]);
      assert (es + fs)[..|es + fs| - 1] == es + fs[..|fs| - 1];
    }
  }

  lemma {:induction false} LeftAppend(es: seq<Event>, fs: seq<Event>)
    ensures LeftIn(es + fs) == LeftIn(es) + LeftIn(fs)
  {
    if fs == [] {
      assert es + fs == es;
    } else {
      LeftAppend(es, fs[..|fs| - 1]);
      assert (es + fs)[..|es + fs| - 1] == es + fs[..|fs| - 1];
    }
  }

  lemma {:induction false} MaskedAppend(es: seq<Event>, fs: seq<Event>, masked: bool)
    ensures Masked(masked, es + fs) == Masked(Masked(masked, es), fs)
  {
    if fs == [] {
      assert es + fs == es;
    } else {
      MaskedAppend(es, fs[..|fs| - 1], masked);
      assert (es + fs)[..|es + fs| - 1] == es + fs[..|fs| - 1];
    }
  }

  lemma {:induction false} OrderlyAppend(es: seq<Event>, fs: seq<Event>, masked: bool)
    requires Orderly(masked, es) && Orderly(Masked(masked, es), fs)
    ensures Orderly(masked, es + fs)
  {
    var log := es + fs;
    forall i | 0 <= i < |log| && log[i].Dispatched? ensures !Masked(masked, log[..i]) {
      if i < |es| {
        assert log[..i] == es[..i];
      } else {
        assert log[..i] == es + fs[..i - |es|];
        LogsAppend(es, fs[..i - |es|], masked);
      }
    }
  }

  // ----- One step -----

  /** A step keeps the queue bounded and in order, and dispatches only while delivery is on. */
  ghost predicate Good(s: State, t: State, es: seq<Event>) {
    && (|s.queue| <= INTERRUPT_MAX ==> |t.queue| <= INTERRUPT_MAX)
    && LeftIn(es) + t.queue == s.queue + QueuedIn(es)
    && t.queueing == Masked(s.queueing, es) && Orderly(s.queueing, es)
  }

  /** The step leaves the interrupt machinery alone. */
  ghost predicate Apart(s: State, t: State) {
    t.queue == s.queue && t.queueing == s.queueing && t.ia == s.ia
  }

  lemma {:induction false} GoodSteps(s: State, t: State, u: State, es: seq<Event>, fs: seq<Event>)
    requires Good(s, t, es) && Good(t, u, fs)
    ensures Good(s, u, es + fs)
  {
    LogsAppend(es, fs, s.queueing);
    OrderlyAppend(es, fs, s.queueing);
    var a, b := LeftIn(es), LeftIn(fs);
    assert a + b + u.queue == a + (b + u.queue) == a + (t.queue + QueuedIn(fs)) == (a + t.queue) + QueuedIn(fs);
    assert (s.queue + QueuedIn(es)) + QueuedIn(fs) == s.queue + (QueuedIn(es) + QueuedIn(fs));
  }

  lemma {:induction false} ApartIsGood(s: State, t: State)
    requires t.queue == s.queue && t.queueing == s.queueing
    ensures Good(s, t, [])
  {
  }

  lemma {:induction false} ResolveApart(s: State, code: Word, pos: Position)
    ensures Apart(s, Resolve(s, code, pos).0)
  {
  }

  lemma {:induction false} GetStoreApart(s: State, code: Word, pos: Position)
    ensures Apart(s, GetStore(s, code, pos).0)
  {
  }

  lemma {:induction false} OperateApart(s: State, op: Word, p: Place, a: Word)
    ensures Apart(s, Operate(s, op, p, a))
  {
    var (value, ex) := Compute(op, Load(s, p), a, s.ex);
    assert Apart(s, Store(s, p, value));
  }

  lemma {:induction false} ArithmeticApart(s: State, op: Word, b: Word, a: Word)
    ensures Apart(s, Arithmetic(s, op, b, a))
  {
    ResolveApart(s, a, PosA);
    var (t, valA) := Resolve(s, a, PosA);
    GetStoreApart(t, b, PosB);
    var (u, p) := GetStore(t, b, PosB);
    OperateApart(Sleep(u, ExtraCycles(op)), op, p, valA);
  }

  lemma {:induction false} BranchApart(s: State, op: Word, b: Word, a: Word)
    ensures Apart(s, Branch(s, op, b, a))
  {
    ResolveApart(s, a, PosA);
    ResolveApart(Resolve(s, a, PosA).0, b, PosB);
  }

  lemma {:induction false} StoreAndStepApart(s: State, step: int, b: Word, a: Word)
    ensures Apart(s, StoreAndStep(s, step, b, a))
  {
    ResolveApart(s, a, PosA);
    GetStoreApart(Resolve(s, a, PosA).0, b, PosB);
  }

  lemma {:induction false} PassOverApart(s: State)
    ensures Apart(s, PassOver(s).0)
  {
    var (t, inst) := Consume(s);
    ResolveApart(t, GetA(inst), PosA);
    ResolveApart(Resolve(t, GetA(inst), PosA).0, GetB(inst), PosB);
  }

  lemma {:induction false} PassChainApart(s: State, n: nat)
    ensures PassChain(s, n).Some? ==> Apart(s, PassChain(s, n).value)
    decreases n
  {
    if n > 0 {
      PassOverApart(s);
      if PassOver(s).1 { PassChainApart(PassOver(s).0, n - 1); }
    }
  }

  lemma {:induction false} OneEvent(e: Event, masked: bool)
    ensures QueuedIn([e]) == (if e.Queued? then [e.message] else []) &&
            LeftIn([e]) == (if e.Left? then [e.message] else [])
    ensures Masked(masked, [e]) == if e.Dispatched? || e.Disabled? then true else if e.Enabled? then false else masked
    ensures Orderly(masked, [e]) <==> !(e.Dispatched? && masked)
  {
    assert [e][..0] == [];
    if Orderly(masked, [e]) && e.Dispatched? {
      assert !Masked(masked, [e][..0]);
    }
  }

  lemma {:induction false} InterruptGood(s: State, m: Word)
    requires Interrupt(s, m).Some?
    ensures Good(s, Interrupt(s, m).value.0, Interrupt(s, m).value.1)
  {
    if s.queueing {
      OneEvent(Overflowed(m), s.queueing);
      OneEvent(Queued(m), s.queueing);
    } else if s.ia == 0 {
      OneEvent(Ignored(m), s.queueing);
    } else {
      PassChainApart(s, 0x10000);
      OneEvent(Dispatched(m), s.queueing);
    }
  }

  lemma {:induction false} SoftwareInterruptGood(s: State, a: Word)
    requires SoftwareInterrupt(s, a).Some?
    ensures Good(s, SoftwareInterrupt(s, a).value.0, SoftwareInterrupt(s, a).value.1)
  {
    ResolveApart(s, a, PosA);
    var (t, m) := Resolve(s, a, PosA);
    var u := Sleep(t, 3);
    ApartIsGood(s, u);
    InterruptGood(u, m);
    var (v, es) := Interrupt(u, m).value;
    GoodSteps(s, u, v, [], es);
    assert [] + es == es;
  }

  lemma {:induction false} MaskingGood(s: State, a: Word)
    ensures Good(s, ReturnFromInterrupt(s, a).0, ReturnFromInterrupt(s, a).1)
    ensures Good(s, SetQueueing(s, a).0, SetQueueing(s, a).1)
  {
    ResolveApart(s, a, PosA);
    OneEvent(Enabled, s.queueing);
    OneEvent(Disabled, s.queueing);
  }

  lemma {:induction false} StoreSpecialApart(s: State, a: Word, cycles: nat, value: Word)
    ensures Apart(s, StoreSpecial(s, a, cycles, value))
  {
    GetStoreApart(s, a, PosA);
  }

  lemma {:induction false} OthersApart(s: State, a: Word)
    ensures Apart(s, JumpSubroutine(s, a))
    ensures SetHandler(s, a).queue == s.queue && SetHandler(s, a).queueing == s.queueing
    ensures Apart(s, QueryHardware(s, a)) && Apart(s, HardwareInterrupt(s, a))
  {
    ResolveApart(s, a, PosA);
  }

  lemma {:induction false} SpecialGood(s: State, nbop: Word, a: Word)
    requires Special(s, nbop, a).Some?
    ensures Good(s, Special(s, nbop, a).value.0, Special(s, nbop, a).value.1)
  {
    if nbop == NBOP_INT {
      SoftwareInterruptGood(s, a);
    } else if nbop == NBOP_RFI || nbop == NBOP_IAQ {
      MaskingGood(s, a);
    } else {
      var t := PlainSpecial(s, nbop, a);
      ApartIsGood(s, t);
    }
  }

  /** The other special instructions leave the queue alone. */
  lemma {:induction false} PlainSpecial(s: State, nbop: Word, a: Word) returns (t: State)
    requires nbop != NBOP_INT && nbop != NBOP_RFI && nbop != NBOP_IAQ
    ensures Special(s, nbop, a) == Some((t, [])) && t.queue == s.queue && t.queueing == s.queueing
  {
    t := Special(s, nbop, a).value.0;
    if nbop == NBOP_IAG {
      StoreSpecialApart(s, a, 0, s.ia);
    } else if nbop == NBOP_HWN {
      StoreSpecialApart(s, a, 1, Wrap(|s.devices|));
    } else {
      OthersApart(s, a);
    }
  }

  lemma {:induction false} ExecuteGood(s: State)
    requires Execute(s).Some?
    ensures Good(s, Execute(s).value.0, Execute(s).value.1)
  {
    var (t, inst) := Consume(s);
    var op, b, a := GetOp(inst), GetB(inst), GetA(inst);
    if IsArithmetic(op) {
      ArithmeticApart(t, op, b, a);
    } else if IsBranch(op) {
      BranchApart(t, op, b, a);
    } else if op == OP_STI {
      StoreAndStepApart(t, 1, b, a);
    } else if op == OP_STD {
      StoreAndStepApart(t, -1, b, a);
    } else if op == OP_NONBASIC {
      SpecialGood(t, b, a);
    }
  }

  lemma {:induction false} TakeGood(s: State)
    requires TakeMessage(s).Some?
    ensures Good(s, TakeMessage(s).value.0, TakeMessage(s).value.1)
  {
    if !s.queueing && |s.queue| > 0 {
      var m, t := s.queue[0], s.(queue := s.queue[1..]);
      OneEvent(Left(m), s.queueing);
      assert [m] + s.queue[1..] == s.queue;
      InterruptGood(t, m);
      var (u, es) := Interrupt(t, m).value;
      GoodSteps(s, t, u, [Left(m)], es);
    } else {
      ApartIsGood(s, s);
    }
  }

  lemma {:induction false} ActGood(x: Moment, action: Action)
    requires Act(x, action).Some?
    ensures Good(x.state, Act(x, action).value.0.state, Act(x, action).value.1)
  {
    var s := x.state;
    match action
    case Step =>
      match x.phase {
        case Between => ApartIsGood(s, NextPart(x).value.0.state);
        case Awake => TakeGood(s);
        case Delivered => if s.halted { ApartIsGood(s, s); } else { ExecuteGood(s); }
      }
    case Raise(m) => InterruptGood(s, m);
    case Write(p, w) => ApartIsGood(s, Store(s, p, w));
  }

  // ----- Every run -----

  lemma {:induction false} RunGood(x: Moment, actions: seq<Action>)
    requires Run(x, actions).Some?
    ensures Good(x.state, Run(x, actions).value.0.state, Run(x, actions).value.1)
  {
    if actions == [] {
      ApartIsGood(x.state, x.state);
    } else {
      var rest, last := actions[..|actions| - 1], actions[|actions| - 1];
      RunGood(x, rest);
      var (y, es) := Run(x, rest).value;
      ActGood(y, last);
      var (z, fs) := Act(y, last).value;
      GoodSteps(x.state, y.state, z.state, es, fs);
    }
  }

  /**
   Interrupt safety over every run, with interrupts raised and memory written between any two parts of a
   cycle: the queue never holds more than 255 messages; the messages that left the queue followed by those
   still in it are the initial ones followed by those queued, so each leaves once and in order; delivery is
   off exactly if the log says so; and nothing is dispatched while it is.
   */
  lemma {:induction false} RunIsSafe(x: Moment, actions: seq<Action>)
    requires Run(x, actions).Some? && |x.state.queue| <= INTERRUPT_MAX
    ensures var (y, log) := Run(x, actions).value;
            && |y.state.queue| <= INTERRUPT_MAX
            && LeftIn(log) + y.state.queue == x.state.queue + QueuedIn(log)
            && y.state.queueing == Masked(x.state.queueing, log) && Orderly(x.state.queueing, log)
  {
    RunGood(x, actions);
  }

  /** Between two dispatches of any run, delivery is re-enabled by RFI or by IAQ with zero. */
  lemma {:induction false} DispatchesAreSeparated(x: Moment, actions: seq<Action>, i: nat, j: nat)
    requires Run(x, actions).Some?
    requires i < j < |Run(x, actions).value.1|
    requires Run(x, actions).value.1[i].Dispatched? && Run(x, actions).value.1[j].Dispatched?
    ensures exists k :: i < k < j && Run(x, actions).value.1[k] == Enabled
  {
    RunGood(x, actions);
    var log := Run(x, actions).value.1;
    UnmaskedSince(x.state.queueing, log[..j], i);
    var k :| i < k < j && log[..j][k] == Enabled;
    assert log[k] == Enabled;
  }

  lemma {:induction false} UnmaskedSince(masked: bool, log: seq<Event>, i: nat)
    requires i < |log| && log[i].Dispatched? && !Masked(masked, log)
    ensures exists k :: i < k < |log| && log[k] == Enabled
  {
    var n := |log| - 1;
    if log[n] != Enabled {
      UnmaskedSince(masked, log[..n], i);
      var k :| i < k < |log[..n]| && log[..n][k] == Enabled;
      assert log[k] == Enabled;
    }
  }
}
