/** What the dispatch and wait counters mean, over every interleaving of calls, toggles and resets. */
module WaitAccounting {
  import opened QueueTable
  import opened ShimCore
  import E = ExperimentalShim
  import P = ProductionShim
  import ShimEquivalence
  import opened Wrappers

  /** The process has just been loaded. */
  predicate Initial(c: Core) {
    var m, h, z := c.memory, c.history, c.history.zeroed;
    && AllIdle(c.threads)
    && !m.enabled && m.dispatches == m.waits == m.totalNs == m.maxNs == 0
    && h.begun == |h.recorded| == h.failed == h.unwaited == h.unresolved == h.backwards == h.waitsZeroedAt == 0
    && z.begun == z.recorded == z.inFlight == z.lost == 0
  }

  /** Every counted call is recorded, still in flight, or lost for one of four reasons; the counters
      show what happened since each of them was last zeroed. */
  ghost predicate Balanced(c: Core) {
    && (forall t | 0 <= t < |c.threads| && c.threads[t].Submitting? && c.threads[t].wait :: c.threads[t].counted)
    && Accounts(c.memory, c.history, InFlight(c.threads))
  }

  predicate Accounts(m: Memory, h: History, inFlight: nat) {
    var z := h.zeroed;
    && h.begun == |h.recorded| + inFlight + Lost(h)
    && m.dispatches + z.begun == h.begun
    && m.waits + h.waitsZeroedAt == |h.recorded|
    && z.begun == z.recorded + z.inFlight + z.lost
    && z.recorded <= |h.recorded| && z.lost <= Lost(h)
    && (h.waitsZeroedLast ==> z.recorded <= h.waitsZeroedAt)
  }

  function One(pc: Pc): nat {
    if MayRecord(pc) then 1 else 0
  }

  lemma {:induction false} InFlightUpdate(threads: seq<Pc>, t: Thread, pc: Pc)
    requires t < |threads|
    ensures InFlight(threads[t := pc]) == InFlight(threads) - One(threads[t]) + One(pc)
    ensures InFlight(threads) >= One(threads[t])
  {
    var n := |threads| - 1;
    if t == n {
      assert threads[t := pc][..n] == threads[..n];
    } else {
      InFlightUpdate(threads[..n], t, pc);
      assert threads[t := pc][..n] == threads[..n][t := pc];
    }
  }

  lemma {:induction false} IdleMeansNoneInFlight(threads: seq<Pc>)
    requires AllIdle(threads)
    ensures InFlight(threads) == 0
  {
    if threads != [] { IdleMeansNoneInFlight(threads[..|threads| - 1]); }
  }

  /** A step of one thread moves the count in flight by that thread alone. */
  lemma Moved(c: Core, c': Core, t: Thread)
    requires t < |c.threads| && |c'.threads| == |c.threads| && c'.threads == c.threads[t := c'.threads[t]]
    ensures InFlight(c'.threads) == InFlight(c.threads) - One(c.threads[t]) + One(c'.threads[t])
  {
    InFlightUpdate(c.threads, t, c'.threads[t]);
  }

  lemma CommonKeepsBalanced(c: Core, l: Label)
    requires Balanced(c) && CommonStep(c, l).Some?
    ensures Balanced(CommonStep(c, l).value)
  {
    match l
    case Enqueue(t, status, returned) => EnqueueKeepsBalanced(c, t, status, returned);
    case Wait(t, status, started, ended) => WaitKeepsBalanced(c, t, status, started, ended);
    case Record(t, spurious) => RecordKeepsBalanced(c, t, spurious);
    case Enter(t, _) => Moved(c, CommonStep(c, l).value, t);
    case Release(t, _) => Moved(c, CommonStep(c, l).value, t);
    case Reset(t) => Moved(c, CommonStep(c, l).value, t);
    case _ =>
  }

  /** An enqueue turns a call in flight into a lost one, or leaves it in flight. */
  lemma EnqueueAccounts(c: Core, t: Thread, status: int, returned: bool, c': Core)
    requires EnqueueStep(c, t, status, returned) == Some(c')
    requires c.threads[t].wait ==> c.threads[t].counted
    ensures c'.memory == c.memory && c'.history.recorded == c.history.recorded && c'.history.zeroed == c.history.zeroed
    ensures c'.history.begun == c.history.begun && c'.history.waitsZeroedAt == c.history.waitsZeroedAt
    ensures c'.history.waitsZeroedLast == c.history.waitsZeroedLast
    ensures Lost(c'.history) + One(c'.threads[t]) == Lost(c.history) + One(c.threads[t])
    ensures One(c'.threads[t]) <= One(c.threads[t]) && !c'.threads[t].Submitting?
  {
  }

  lemma EnqueueKeepsBalanced(c: Core, t: Thread, status: int, returned: bool)
    requires Balanced(c) && EnqueueStep(c, t, status, returned).Some?
    ensures Balanced(EnqueueStep(c, t, status, returned).value)
  {
    var c' := EnqueueStep(c, t, status, returned).value;
    EnqueueAccounts(c, t, status, returned, c');
    Moved(c, c', t);
  }

  lemma WaitKeepsBalanced(c: Core, t: Thread, status: int, started: nat, ended: nat)
    requires Balanced(c) && WaitStep(c, t, status, started, ended).Some?
    ensures Balanced(WaitStep(c, t, status, started, ended).value)
  {
    Moved(c, WaitStep(c, t, status, started, ended).value, t);
  }

  /** Recording a wait moves a call from in flight to recorded; the rest of record_wait moves nothing. */
  lemma RecordAccounts(c: Core, t: Thread, spurious: bool, c': Core)
    requires RecordStep(c, t, spurious) == Some(c')
    ensures c'.history == c.history.(recorded := c'.history.recorded)
    ensures c'.memory.dispatches == c.memory.dispatches
    ensures |c'.history.recorded| - |c.history.recorded| == c'.memory.waits - c.memory.waits
    ensures c'.memory.waits - c.memory.waits == One(c.threads[t]) - One(c'.threads[t])
    ensures c'.memory.waits >= c.memory.waits && !c'.threads[t].Submitting?
  {
  }

  lemma RecordKeepsBalanced(c: Core, t: Thread, spurious: bool)
    requires Balanced(c) && RecordStep(c, t, spurious).Some?
    ensures Balanced(RecordStep(c, t, spurious).value)
  {
    var c' := RecordStep(c, t, spurious).value;
    RecordAccounts(c, t, spurious, c');
    Moved(c, c', t);
  }

  lemma ZeroKeepsBalanced(c: Core, t: Thread, cell: Cell)
    requires Balanced(c) && ZeroStep(c, t, cell, Clearing).Some?
    ensures Balanced(ZeroStep(c, t, cell, Clearing).value)
  {
    Moved(c, ZeroStep(c, t, cell, Clearing).value, t);
  }

  lemma StepKeepsBalanced(s: E.State, l: Label)
    requires Balanced(s.core) && E.Step(s, l).Some?
    ensures Balanced(E.Step(s, l).value.core)
  {
    match l
    case Zero(t, cell) => ZeroKeepsBalanced(s.core, t, cell);
    case Bump(t) => Moved(s.core, E.Step(s, l).value.core, t);
    case LoadFlag(_) => DecisionKeepsBalanced(s, l);
    case Tick(_) => DecisionKeepsBalanced(s, l);
    case Clear(_) => DecisionKeepsBalanced(s, l);
    case _ => CommonKeepsBalanced(s.core, l);
  }

  lemma DecisionKeepsBalanced(s: E.State, l: Label)
    requires Balanced(s.core) && E.Step(s, l).Some? && (l.LoadFlag? || l.Tick? || l.Clear?)
    ensures Balanced(E.Step(s, l).value.core)
  {
    Moved(s.core, E.Step(s, l).value.core, l.thread);
  }

  lemma {:induction false} AlwaysBalanced(s: E.State, ls: seq<Label>)
    requires Balanced(s.core) && E.Run(s, ls).Some?
    ensures Balanced(E.Run(s, ls).value.core)
  {
    if ls != [] {
      AlwaysBalanced(s, ls[..|ls| - 1]);
      StepKeepsBalanced(E.Run(s, ls[..|ls| - 1]).value, ls[|ls| - 1]);
    }
  }

  lemma {:induction false} ProductionAlwaysBalanced(c: Core, ls: seq<Label>)
    requires Balanced(c) && P.Run(c, ls).Some?
    ensures Balanced(P.Run(c, ls).value)
  {
    var s := E.State(c, 1, Cleared(), []);
    ShimEquivalence.ProductionRefinesExperimental(s, ls);
    AlwaysBalanced(s, ShimEquivalence.ExpandAll(ls));
  }

  lemma InitiallyBalanced(c: Core)
    requires Initial(c)
    ensures Balanced(c)
  {
    IdleMeansNoneInFlight(c.threads);
  }

  /** Some run of either shim, from the moment the process was loaded, ends here. */
  ghost predicate Reached(c: Core) {
    || (exists s: E.State, ls :: Initial(s.core) && E.Run(s, ls).Some? && E.Run(s, ls).value.core == c)
    || (exists p: Core, ls :: Initial(p) && P.Run(p, ls) == Some(c))
  }

  lemma ReachedIsBalanced(c: Core)
    requires Reached(c)
    ensures Balanced(c)
  {
    hide Initial, Balanced;
    if s: E.State, ls :| Initial(s.core) && E.Run(s, ls).Some? && E.Run(s, ls).value.core == c {
      InitiallyBalanced(s.core);
      AlwaysBalanced(s, ls);
    } else {
      var p: Core, ls :| Initial(p) && P.Run(p, ls) == Some(c);
      InitiallyBalanced(p);
      ProductionAlwaysBalanced(p, ls);
    }
  }

  /** Calls that were counted since the dispatch counter was last zeroed, or in flight then, and ended
      without a recorded wait. */
  function LostSinceZero(h: History): int {
    Lost(h) - h.zeroed.lost
  }

  /** Once a reset has zeroed the wait counter after the dispatch counter, however many calls and other
      resets it interleaved with, waits exceed dispatches by at most the calls that were in flight
      when the dispatch counter was zeroed. */
  lemma WaitsNeverOutrunDispatches(c: Core)
    requires Reached(c) && c.history.waitsZeroedLast
    ensures c.memory.waits <= c.memory.dispatches + c.history.zeroed.inFlight
  {
    hide Reached;
    ReachedIsBalanced(c);
  }

  /** The last reset found no call in flight and recorded no wait between its two stores. */
  predicate QuiescentReset(h: History) {
    h.zeroed.inFlight == 0 && h.waitsZeroedAt == h.zeroed.recorded
  }

  /** From a quiescent reset the counters account for every counted call, at every moment. */
  lemma QuiescentAccounting(c: Core)
    requires Reached(c) && QuiescentReset(c.history)
    ensures c.memory.dispatches == c.memory.waits + InFlight(c.threads) + LostSinceZero(c.history)
  {
    hide Reached;
    ReachedIsBalanced(c);
  }

  /** What equal counts at quiescence say, for any run: the waits carried over from calls in flight at
      the reset make up exactly for the calls lost since and the waits dropped between the zeroings. */
  lemma EqualCounts(c: Core)
    requires Reached(c) && AllIdle(c.threads)
    ensures c.memory.dispatches == c.memory.waits <==>
            c.history.zeroed.inFlight
            == LostSinceZero(c.history) + (c.history.waitsZeroedAt - c.history.zeroed.recorded)
  {
    hide Reached;
    ReachedIsBalanced(c);
    IdleMeansNoneInFlight(c.threads);
  }

  /** The calls in flight when the last reset zeroed the dispatch counter account for just the waits
      recorded before it zeroed the wait counter: none was carried over, and none was dropped. */
  predicate NothingCarried(h: History) {
    h.zeroed.inFlight == h.waitsZeroedAt - h.zeroed.recorded
  }

  /** When equal counts mean one wait per counted submission. With equal counts at quiescence no call was
      lost, for any of the four reasons, if and only if the last reset carried nothing over. And after
      such a reset, quiescent or not, counts are equal if and only if no call was lost. */
  lemma EqualCountsMeanOneWaitEach(c: Core)
    requires Reached(c) && AllIdle(c.threads)
    ensures c.memory.dispatches == c.memory.waits ==> (LostSinceZero(c.history) == 0 <==> NothingCarried(c.history))
    ensures NothingCarried(c.history) ==> (c.memory.dispatches == c.memory.waits <==> LostSinceZero(c.history) == 0)
  {
    hide Reached;
    EqualCounts(c);
  }

  /** In particular after a reset that found nothing in flight. */
  lemma QuiescentResetsCarryNothing(c: Core)
    requires Reached(c) && AllIdle(c.threads) && QuiescentReset(c.history)
    ensures c.memory.dispatches == c.memory.waits <==>
            c.history.failed + c.history.unwaited + c.history.unresolved + c.history.backwards
            == c.history.zeroed.lost
  {
    hide Reached;
    EqualCountsMeanOneWaitEach(c);
  }

  // ---------------------------------------------------------------- a reset that was not quiescent

  /** Two threads, everything resolved, nothing counted yet. */
  function Loaded(): Core {
    Core(Symbols(true, true, true), [Idle, Idle], Memory(false, 0, 0, 0, 0), Device(map[], []), [],
         History(0, [], 0, 0, 0, 0, Snapshot(0, 0, 0, 0), 0, false))
  }

  /** Thread 0's call is counted. */
  lemma CountedCall(call: Call) returns (ls: seq<Label>, c: Core)
    ensures P.Run(Loaded(), ls) == Some(c)
    ensures c == Loaded().(threads := [Submitting(call, true, true), Idle], memory := Memory(true, 1, 0, 0, 0),
                           history := Loaded().history.(begun := 1))
  {
    var s := Loaded();
    ls, c := [], s;
    var calling := [Exchange(true), Enter(0, call), LoadFlag(0), Bump(0)];
    var pcs := [Idle, Entered(call), Counting(call), Submitting(call, true, true)];
    for i := 0 to 4
      invariant P.Run(s, ls) == Some(c)
      invariant c == s.(threads := [if i == 0 then Idle else pcs[i - 1], Idle],
                        memory := Memory(i > 0, if i == 4 then 1 else 0, 0, 0, 0),
                        history := s.history.(begun := if i == 4 then 1 else 0))
    {
      var c' := P.Step(c, calling[i]).value;
      P.Extend(s, ls, c, calling[i], c');
      ls, c := ls + [calling[i]], c';
    }
  }

  /** Thread 1 resets while it is in flight. */
  lemma ResetInFlight(call: Call) returns (ls: seq<Label>, c: Core)
    ensures P.Run(Loaded(), ls) == Some(c)
    ensures c == Loaded().(threads := [Submitting(call, true, true), Idle],
                           history := History(1, [], 0, 0, 0, 0, Snapshot(1, 0, 1, 0), 0, true))
  {
    ls, c := CountedCall(call);
    var c' := P.Step(c, Reset(1)).value;
    P.Extend(Loaded(), ls, c, Reset(1), c');
    ls, c := FirstStores(call, ls + [Reset(1)], c');
    ls, c := LastStores(call, ls, c);
  }

  lemma FirstStores(call: Call, ls: seq<Label>, c: Core) returns (ls': seq<Label>, c': Core)
    requires P.Run(Loaded(), ls) == Some(c)
    requires c == Loaded().(threads := [Submitting(call, true, true), Resetting(FlagCell)],
                            memory := Memory(true, 1, 0, 0, 0), history := Loaded().history.(begun := 1))
    ensures P.Run(Loaded(), ls') == Some(c')
    ensures c' == Loaded().(threads := [Submitting(call, true, true), Resetting(WaitCell)],
                            history := History(1, [], 0, 0, 0, 0, Snapshot(1, 0, 1, 0), 0, false))
  {
    hide P.Run;
    OneInFlight(Submitting(call, true, true), Resetting(DispatchCell));
    ls', c' := ZeroNext(ls, c, FlagCell, Resetting(DispatchCell));
    ls', c' := ZeroNext(ls', c', DispatchCell, Resetting(WaitCell));
  }

  lemma LastStores(call: Call, ls: seq<Label>, c: Core) returns (ls': seq<Label>, c': Core)
    requires P.Run(Loaded(), ls) == Some(c)
    requires c == Loaded().(threads := [Submitting(call, true, true), Resetting(WaitCell)],
                            history := History(1, [], 0, 0, 0, 0, Snapshot(1, 0, 1, 0), 0, false))
    ensures P.Run(Loaded(), ls') == Some(c')
    ensures c' == Loaded().(threads := [Submitting(call, true, true), Idle],
                            history := History(1, [], 0, 0, 0, 0, Snapshot(1, 0, 1, 0), 0, true))
  {
    hide P.Run;
    ls', c' := ZeroNext(ls, c, WaitCell, Resetting(TotalCell));
    ls', c' := ZeroNext(ls', c', TotalCell, Resetting(MaximumCell));
    ls', c' := ZeroNext(ls', c', MaximumCell, Idle);
  }

  /** Thread 1's next store. */
  lemma ZeroNext(ls: seq<Label>, c: Core, cell: Cell, next: Pc) returns (ls': seq<Label>, c': Core)
    requires P.Run(Loaded(), ls) == Some(c) && |c.threads| == 2 && c.threads[1] == Resetting(cell)
    requires next == match cell
                     case FlagCell => Resetting(DispatchCell)
                     case DispatchCell => Resetting(WaitCell)
                     case WaitCell => Resetting(TotalCell)
                     case TotalCell => Resetting(MaximumCell)
                     case MaximumCell => Idle
    ensures P.Run(Loaded(), ls') == Some(c') && ZeroStep(c, 1, cell, Idle) == Some(c')
    ensures c'.threads == [c.threads[0], next]
  {
    hide InFlight;
    c' := ZeroStep(c, 1, cell, Idle).value;
    ls' := ls + [Zero(1, cell)];
    P.Extend(Loaded(), ls, c, Zero(1, cell), c');
  }

  lemma OneInFlight(a: Pc, b: Pc)
    requires MayRecord(a) && !MayRecord(b)
    ensures InFlight([a, b]) == 1
  {
    assert [a, b][..1] == [a] && [a][..0] == [];
    assert InFlight([a]) == 1;
  }

  lemma AcceptedBoundary(c: Core, call: Call) returns (c': Core)
    requires c.threads == [Submitting(call, true, true), Idle] && c.symbols == Symbols(true, true, true)
    requires c.device == Device(map[], []) && !call.hasEvent
    ensures P.Step(c, Enqueue(0, CL_SUCCESS, true)) == Some(c')
    ensures c' == c.(threads := [Waiting(call, 1), Idle], trace := c'.trace,
                     device := Device(map[call.queue := Line([true], 0)], [EventRecord(call.queue, 0, true, 0, 0)]))
  {
    c' := P.Step(c, Enqueue(0, CL_SUCCESS, true)).value;
    assert c.threads[0 := Waiting(call, 1)] == [Waiting(call, 1), Idle];
    assert LineOf(c.device, call.queue).counted + [true] == [true];
    assert c'.device.lines == map[call.queue := Line([true], 0)];
    assert c'.device.events == [EventRecord(call.queue, 0, true, 0, 0)];
  }

  /** The call counted before the reset is enqueued and finishes. */
  lemma CarriedKernel(call: Call, ls: seq<Label>, c: Core) returns (ls': seq<Label>, c': Core)
    requires P.Run(Loaded(), ls) == Some(c) && !call.hasEvent
    requires c == Loaded().(threads := [Submitting(call, true, true), Idle],
                            history := History(1, [], 0, 0, 0, 0, Snapshot(1, 0, 1, 0), 0, true))
    ensures P.Run(Loaded(), ls') == Some(c')
    ensures c'.symbols == c.symbols && c'.threads == [Waiting(call, 1), Idle] && c'.memory == Memory(true, 0, 0, 0, 0)
    ensures c'.history == c.history && EventComplete(c'.device, 1)
  {
    hide P.Run, InFlight;
    var s := Loaded();
    var a := P.Step(c, Exchange(true)).value;
    P.Extend(s, ls, c, Exchange(true), a);
    var b := AcceptedBoundary(a, call);
    P.Extend(s, ls + [Exchange(true)], a, Enqueue(0, CL_SUCCESS, true), b);
    c' := P.Step(b, Complete(call.queue)).value;
    P.Extend(s, ls + [Exchange(true)] + [Enqueue(0, CL_SUCCESS, true)], b, Complete(call.queue), c');
    ls' := ls + [Exchange(true)] + [Enqueue(0, CL_SUCCESS, true)] + [Complete(call.queue)];
  }

  /** Its wait is recorded after the wait counter was zeroed. */
  lemma CarriedWait(call: Call, ls: seq<Label>, c: Core) returns (ls': seq<Label>, c': Core)
    requires P.Run(Loaded(), ls) == Some(c) && !call.hasEvent && EventComplete(c.device, 1)
    requires c.threads == [Waiting(call, 1), Idle] && c.memory == Memory(true, 0, 0, 0, 0)
    ensures P.Run(Loaded(), ls') == Some(c')
    ensures c'.threads == [Idle, Idle] && c'.memory == Memory(true, 0, 1, 0, 0) && c'.symbols == c.symbols
    ensures c'.history == c.history.(recorded := c.history.recorded + [0])
  {
    var s := Loaded();
    c' := P.Step(c, Wait(0, CL_SUCCESS, 0, 0)).value;
    P.Extend(s, ls, c, Wait(0, CL_SUCCESS, 0, 0), c');
    ls' := ls + [Wait(0, CL_SUCCESS, 0, 0)];
    var todos := [AddWait(0), AddTotal(0), LoadMax(0)];
    var waited := c';
    for i := 0 to 3
      invariant P.Run(s, ls') == Some(c')
      invariant c' == waited.(
        threads := [if i < 3 then Recording(call, 1, CL_SUCCESS, todos[i]) else Releasing(call, 1, CL_SUCCESS), Idle],
        memory := Memory(true, 0, if i == 0 then 0 else 1, 0, 0),
        history := if i == 0 then c.history else c.history.(recorded := c.history.recorded + [0]))
    {
      var m := P.Step(c', Record(0, false)).value;
      P.Extend(s, ls', c', Record(0, false), m);
      ls', c' := ls' + [Record(0, false)], m;
    }
    var m := P.Step(c', Release(0, CL_SUCCESS)).value;
    P.Extend(s, ls', c', Release(0, CL_SUCCESS), m);
    ls', c' := ls' + [Release(0, CL_SUCCESS)], m;
  }

  /** Why the reset must be quiescent. A run of the production shim that ends idle with equal counts, one
      dispatch and one wait, although the only call counted since the reset failed and was never waited
      for: the wait belongs to a call counted before the reset. */
  lemma CarriedWaitHidesLoss(call: Call) returns (ls: seq<Label>, final: Core)
    requires !call.hasEvent
    ensures Initial(Loaded()) && P.Run(Loaded(), ls) == Some(final) && AllIdle(final.threads)
    ensures final.memory.dispatches == final.memory.waits == 1
    ensures LostSinceZero(final.history) == 1 && !NothingCarried(final.history)
  {
    var c;
    ls, c := ResetInFlight(call);
    ls, c := CarriedKernel(call, ls, c);
    ls, c := CarriedWait(call, ls, c);
    var failing := [Enter(1, call), LoadFlag(1), Bump(1), Enqueue(1, -5, false)];
    var pcs := [Idle, Entered(call), Counting(call), Submitting(call, true, true), Idle];
    var before := c;
    for i := 0 to 4
      invariant P.Run(Loaded(), ls) == Some(c) && c.symbols == before.symbols && c.threads == [Idle, pcs[i]]
      invariant c.memory == Memory(true, if i < 3 then 0 else 1, 1, 0, 0)
      invariant c.history == before.history.(begun := before.history.begun + if i < 3 then 0 else 1,
                                             failed := before.history.failed + if i < 4 then 0 else 1)
    {
      var m := P.Step(c, failing[i]).value;
      P.Extend(Loaded(), ls, c, failing[i], m);
      ls, c := ls + [failing[i]], m;
    }
    final := c;
  }
}
