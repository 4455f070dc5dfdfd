/** Which calls the shims count, and what becomes of every call. While inference is enabled each kernel is
    counted, whatever its arguments and whether or not its caller asked for an event; and at all times each
    call reaches the vendor once, unchanged and in its thread's order. */
module Coverage {
  import opened Counting
  import opened QueueTable
  import opened ShimCore
  import E = ExperimentalShim
  import P = ProductionShim
  import W = BoundedWindow
  import ShimEquivalence
  import opened KernelBound
  import opened HandleLimit
  import opened Schedules
  import opened WaitTrace
  import opened Wrappers

  // ---------------------------------------------------------------- every call reaches the vendor

  /** The calls a thread makes in a run. */
  function CallsMade(ls: seq<Label>, t: Thread): seq<Call> {
    if ls == [] then []
    else
      var l := ls[|ls| - 1];
      CallsMade(ls[..|ls| - 1], t) + if l.Enter? && l.thread == t then [l.call] else []
  }

  /** The calls of a thread that the vendor saw. */
  function CallsSeen(trace: seq<Observation>, t: Thread): seq<Call> {
    if trace == [] then []
    else
      var o := trace[|trace| - 1];
      CallsSeen(trace[..|trace| - 1], t) + if o.VendorEnqueue? && o.thread == t then [o.call] else []
  }

  /** A call that has been made and not passed on yet. */
  function OnItsWay(pc: Pc): seq<Call> {
    if pc.Entered? || pc.Counting? || pc.Ticking? || pc.Submitting? then [pc.call] else []
  }

  /** A caller's event pointer is always passed on. */
  predicate PassesEvents(trace: seq<Observation>) {
    forall o | o in trace && o.VendorEnqueue? && o.call.hasEvent :: o.wantsEvent
  }

  lemma {:induction false} SeenAddUp(a: seq<Observation>, b: seq<Observation>, t: Thread)
    ensures CallsSeen(a + b, t) == CallsSeen(a, t) + CallsSeen(b, t)
  {
    if b == [] {
      assert a + b == a;
    } else {
      SeenAddUp(a, b[..|b| - 1], t);
      assert (a + b)[..|a + b| - 1] == a + b[..|b| - 1];
    }
  }

  /** How many enqueues the vendor saw. */
  function Enqueues(trace: seq<Observation>): nat {
    if trace == [] then 0
    else Enqueues(trace[..|trace| - 1]) + if trace[|trace| - 1].VendorEnqueue? then 1 else 0
  }

  lemma {:induction false} EnqueuesAddUp(a: seq<Observation>, b: seq<Observation>)
    ensures Enqueues(a + b) == Enqueues(a) + Enqueues(b)
  {
    if b == [] {
      assert a + b == a;
    } else {
      EnqueuesAddUp(a, b[..|b| - 1]);
      assert (a + b)[..|a + b| - 1] == a + b[..|b| - 1];
    }
  }

  lemma EnqueuesOne(o: Observation)
    ensures Enqueues([o]) == if o.VendorEnqueue? then 1 else 0
  {
    assert [o][..0] == [];
  }

  /** What a step adds to the trace: an enqueue and a return at most. */
  ghost predicate News(news: seq<Observation>, enqueues: bool, mover: Thread, call: Call) {
    && |news| <= 2
    && if enqueues
       then |news| > 0 && news[0].VendorEnqueue? && news[0].thread == mover && news[0].call == call
            && (call.hasEvent ==> news[0].wantsEvent) && (|news| == 2 ==> news[1].Returned?)
       else forall o | o in news :: !o.VendorEnqueue?
  }

  lemma NewsSeen(news: seq<Observation>, enqueues: bool, mover: Thread, call: Call, t: Thread)
    requires News(news, enqueues, mover, call)
    ensures PassesEvents(news) && CallsSeen(news, t) == (if enqueues && mover == t then [call] else [])
    ensures Enqueues(news) == if enqueues then 1 else 0
  {
    if |news| == 1 {
      SeenOne(news[0], t);
      EnqueuesOne(news[0]);
      assert news == [news[0]];
    } else if |news| == 2 {
      SeenOne(news[0], t);
      SeenOne(news[1], t);
      SeenAddUp([news[0]], [news[1]], t);
      EnqueuesOne(news[0]);
      EnqueuesOne(news[1]);
      EnqueuesAddUp([news[0]], [news[1]]);
      assert news == [news[0]] + [news[1]];
    }
  }

  /** What one step shows: at most one enqueue, of the call its thread carries. */
  lemma StepSees(s: E.State, l: Label, s': E.State, t: Thread)
    requires E.Step(s, l) == Some(s') && t < |s.core.threads|
    ensures s.core.trace <= s'.core.trace
    ensures var news := s'.core.trace[|s.core.trace|..];
            && PassesEvents(news)
            && CallsSeen(news, t) == (if l.Enqueue? && l.thread == t then OnItsWay(s.core.threads[t]) else [])
            && Enqueues(news) == if l.Enqueue? then 1 else 0
  {
    hide E.Step, PassesEvents, CallsSeen, Enqueues, News;
    TraceGrows(s, l);
    var mover, call := NewObservations(s, l, s');
    NewsSeen(s'.core.trace[|s.core.trace|..], l.Enqueue?, mover, call, t);
  }

  lemma SeenOne(o: Observation, t: Thread)
    ensures CallsSeen([o], t) == if o.VendorEnqueue? && o.thread == t then [o.call] else []
  {
    assert [o][..0] == [];
  }

  lemma NewObservations(s: E.State, l: Label, s': E.State) returns (mover: Thread, call: Call)
    requires E.Step(s, l) == Some(s') && s.core.trace <= s'.core.trace
    ensures News(s'.core.trace[|s.core.trace|..], l.Enqueue?, mover, call)
    ensures l.Enqueue? ==> mover == l.thread < |s.core.threads| && OnItsWay(s.core.threads[mover]) == [call]
  {
    mover, call := 0, Call(0, 0, false);
    if l.Enqueue? {
      mover, call := l.thread, s.core.threads[l.thread].call;
      EnqueueNews(s.core, l.thread, l.status, l.returned);
    } else {
      OtherNews(s, l, s');
    }
  }

  lemma EnqueueNews(c: Core, t: Thread, status: int, returned: bool)
    requires EnqueueStep(c, t, status, returned).Some?
    ensures c.trace <= EnqueueStep(c, t, status, returned).value.trace
    ensures var news := EnqueueStep(c, t, status, returned).value.trace[|c.trace|..];
            && t < |c.threads| && c.threads[t].Submitting?
            && 0 < |news| <= 2 && news[0].VendorEnqueue? && news[0].thread == t
            && news[0].call == c.threads[t].call && (news[0].call.hasEvent ==> news[0].wantsEvent)
            && (|news| == 2 ==> news[1].Returned?)
  {
    hide LineOf, Append;
  }

  lemma OtherNews(s: E.State, l: Label, s': E.State)
    requires E.Step(s, l) == Some(s') && s.core.trace <= s'.core.trace && !l.Enqueue?
    ensures var news := s'.core.trace[|s.core.trace|..];
            |news| <= 2 && forall o | o in news :: !o.VendorEnqueue?
  {
    hide CountAfter, QueueTable.Tick, InFlight, Lost, EventComplete, LineOf, EnqueueStep;
  }

  /** How a thread's place and the call it carries change. */
  lemma StepCarries(s: E.State, l: Label, s': E.State, t: Thread)
    requires E.Step(s, l) == Some(s') && s.core.symbols.enqueue && t < |s.core.threads|
    ensures t < |s'.core.threads|
    ensures OnItsWay(s.core.threads[t]) + (if l.Enter? && l.thread == t then [l.call] else [])
         == (if l.Enqueue? && l.thread == t then OnItsWay(s.core.threads[t]) else [])
            + OnItsWay(s'.core.threads[t])
  {
    StepKeepsShape(s, l);
    if CommonStep(s.core, l).Some? { CommonCarries(s.core, l, t); } else { OwnCarries(s, l, s', t); }
  }

  lemma CommonCarries(c: Core, l: Label, t: Thread)
    requires CommonStep(c, l).Some? && c.symbols.enqueue && t < |c.threads|
    ensures |CommonStep(c, l).value.threads| == |c.threads|
    ensures OnItsWay(c.threads[t]) + (if l.Enter? && l.thread == t then [l.call] else [])
         == (if l.Enqueue? && l.thread == t then OnItsWay(c.threads[t]) else [])
            + OnItsWay(CommonStep(c, l).value.threads[t])
  {
    hide RecordStep, EventComplete, Append, LineOf;
    if l.Record? { RecordCarries(c, l.thread, l.spurious, t); }
  }

  lemma RecordCarries(c: Core, mover: Thread, spurious: bool, t: Thread)
    requires RecordStep(c, mover, spurious).Some? && t < |c.threads|
    ensures |RecordStep(c, mover, spurious).value.threads| == |c.threads|
    ensures OnItsWay(RecordStep(c, mover, spurious).value.threads[t]) == OnItsWay(c.threads[t])
  {
  }

  lemma OwnCarries(s: E.State, l: Label, s': E.State, t: Thread)
    requires E.Step(s, l) == Some(s') && CommonStep(s.core, l).None? && t < |s.core.threads|
    ensures t < |s'.core.threads| && OnItsWay(s'.core.threads[t]) == OnItsWay(s.core.threads[t])
    ensures !l.Enter? && !l.Enqueue?
  {
    hide CountAfter, QueueTable.Tick, InFlight, Lost;
  }

  /** Over every run, resets and toggles included: a thread's calls reach the vendor once each, in order and
      with their own arguments, but for the one still on its way; and no caller's event pointer is dropped. */
  lemma {:induction false} CallsReachTheVendor(s: E.State, ls: seq<Label>, final: E.State, t: Thread)
    requires E.Run(s, ls) == Some(final) && s.core.symbols.enqueue && t < |s.core.threads| && s.core.threads[t] == Idle
    ensures s.core.trace <= final.core.trace && t < |final.core.threads|
    ensures CallsMade(ls, t) == CallsSeen(final.core.trace[|s.core.trace|..], t) + OnItsWay(final.core.threads[t])
    ensures PassesEvents(final.core.trace[|s.core.trace|..])
  {
    if ls == [] {
      assert s.core.trace[|s.core.trace|..] == [];
    } else {
      hide E.Run, E.Step, CallsSeen, OnItsWay, PassesEvents;
      var before, l := ls[..|ls| - 1], ls[|ls| - 1];
      E.LastStep(s, ls);
      var m := E.Run(s, before).value;
      CallsReachTheVendor(s, before, m, t);
      RunKeepsSymbols(s, before);
      StepSees(m, l, final, t);
      StepCarries(m, l, final, t);
      Telescope(s.core.trace, m.core.trace, final.core.trace);
      SeenAddUp(m.core.trace[|s.core.trace|..], final.core.trace[|m.core.trace|..], t);
      EventsAddUp(m.core.trace[|s.core.trace|..], final.core.trace[|m.core.trace|..]);
      Conserve(CallsMade(before, t), CallsSeen(m.core.trace[|s.core.trace|..], t), OnItsWay(m.core.threads[t]),
               if l.Enter? && l.thread == t then [l.call] else [],
               if l.Enqueue? && l.thread == t then OnItsWay(m.core.threads[t]) else [], OnItsWay(final.core.threads[t]));
    }
  }

  lemma EventsAddUp(a: seq<Observation>, b: seq<Observation>)
    requires PassesEvents(a) && PassesEvents(b)
    ensures PassesEvents(a + b)
  {
  }

  /** What was made and is carried is what was seen and is still carried. */
  lemma Conserve(made: seq<Call>, seen: seq<Call>, carried: seq<Call>, entered: seq<Call>, passed: seq<Call>, carries: seq<Call>)
    requires made == seen + carried && carried + entered == passed + carries
    ensures made + entered == seen + passed + carries
  {
    assert made + entered == seen + (carried + entered);
    assert seen + (passed + carries) == seen + passed + carries;
  }

  lemma Telescope(a: seq<Observation>, b: seq<Observation>, c: seq<Observation>)
    requires a <= b <= c
    ensures c[|a|..] == b[|a|..] + c[|b|..]
  {
  }

  /** The same for production. */
  lemma ProductionCallsReachTheVendor(c: Core, ls: seq<Label>, final: Core, t: Thread)
    requires P.Run(c, ls) == Some(final) && c.symbols.enqueue && t < |c.threads| && c.threads[t] == Idle
    ensures c.trace <= final.trace && t < |final.threads|
    ensures CallsMade(ls, t) == CallsSeen(final.trace[|c.trace|..], t) + OnItsWay(final.threads[t])
    ensures PassesEvents(final.trace[|c.trace|..])
  {
    var s := E.State(c, 1, Cleared(), []);
    var e := ShimEquivalence.ExpandedRun(s, ls, final);
    CallsReachTheVendor(s, ShimEquivalence.ExpandAll(ls), e, t);
    ExpansionMakesNoCalls(ls, t);
  }

  lemma CallsOneMore(ls: seq<Label>, l: Label, t: Thread)
    ensures CallsMade(ls + [l], t) == CallsMade(ls, t) + if l.Enter? && l.thread == t then [l.call] else []
  {
    assert (ls + [l])[..|ls|] == ls;
  }

  lemma {:induction false} ExpansionMakesNoCalls(ls: seq<Label>, t: Thread)
    ensures CallsMade(ShimEquivalence.ExpandAll(ls), t) == CallsMade(ls, t)
  {
    if ls != [] {
      var before, l := ls[..|ls| - 1], ls[|ls| - 1];
      ExpansionMakesNoCalls(before, t);
      var all, more := ShimEquivalence.ExpandAll(before), ShimEquivalence.Expand(l);
      CallsOneMore(all, l, t);
      if |more| == 2 {
        CallsOneMore(all + [l], more[1], t);
        assert all + more == (all + [l]) + [more[1]];
      } else {
        assert more == [l];
      }
    }
  }

  // ---------------------------------------------------------------- every kernel is counted

  /** Nobody resets and nobody lowers the flag. */
  predicate StaysEnabled(ls: seq<Label>) {
    forall l | l in ls :: !l.Reset? && l != Exchange(false)
  }

  /** A call that is counted and not yet passed on. */
  const ToEnqueue: Pc -> bool := (pc: Pc) => pc.Ticking? || pc.Submitting?

  /** No thread is in a reset, and none passes on an uncounted call. */
  predicate InStep(pc: Pc) {
    !pc.Resetting? && !pc.Clearing? && (pc.Submitting? ==> pc.counted)
  }

  ghost predicate Enabled(s: E.State) {
    && s.window > 0 && s.core.memory.enabled && s.core.symbols.enqueue
    && forall t | 0 <= t < |s.core.threads| :: InStep(s.core.threads[t])
  }

  /** How one step counts: the thread in step, the dispatch counter against the enqueues seen. */
  ghost predicate CountsStep(s: E.State, l: Label, s': E.State) {
    && Enabled(s') && !l.Clear? && s.core.trace <= s'.core.trace
    && s'.core.memory.dispatches + HowMany(s.core.threads, ToEnqueue)
       == s.core.memory.dispatches + HowMany(s'.core.threads, ToEnqueue) + Enqueues(s'.core.trace[|s.core.trace|..])
  }

  /** The same for the thread that moves. */
  ghost predicate CountsAt(s: E.State, l: Label, s': E.State, t: Thread)
    requires t < |s.core.threads| && t < |s'.core.threads|
  {
    && InStep(s'.core.threads[t]) && s'.core.memory.enabled && !l.Clear?
    && s'.core.memory.dispatches + (if ToEnqueue(s.core.threads[t]) then 1 else 0)
       == s.core.memory.dispatches + (if ToEnqueue(s'.core.threads[t]) then 1 else 0) + (if l.Enqueue? then 1 else 0)
  }

  /** What the mover's step needs: the other threads stay where they are. */
  lemma MoverCounts(s: E.State, l: Label, s': E.State)
    requires Enabled(s) && E.Step(s, l) == Some(s') && !l.Reset? && !l.Exchange? && !l.Complete?
    ensures l.thread < |s.core.threads| == |s'.core.threads|
    ensures s'.core.threads == s.core.threads[l.thread := s'.core.threads[l.thread]]
    ensures CountsAt(s, l, s', l.thread) && s'.window == s.window && s'.core.symbols == s.core.symbols
  {
    hide CountAfter, QueueTable.Tick, InFlight, Lost, EventComplete, LineOf, Append;
    if l.thread < |s.core.threads| { assert InStep(s.core.threads[l.thread]); }
    if CommonStep(s.core, l).Some? { CommonMover(s.core, l); }
  }

  lemma CommonMover(c: Core, l: Label)
    requires CommonStep(c, l).Some? && !l.Reset? && !l.Exchange? && !l.Complete? && c.symbols.enqueue && c.memory.enabled
    requires l.thread < |c.threads| ==> InStep(c.threads[l.thread])
    ensures var c' := CommonStep(c, l).value; var t := l.thread;
            && t < |c.threads| == |c'.threads| && c'.threads == c.threads[t := c'.threads[t]]
            && InStep(c'.threads[t]) && c'.memory.enabled && c'.symbols == c.symbols
            && c'.memory.dispatches == c.memory.dispatches
            && (if ToEnqueue(c.threads[t]) then 1 else 0)
               == (if ToEnqueue(c'.threads[t]) then 1 else 0) + (if l.Enqueue? then 1 else 0)
  {
    hide EventComplete, LineOf, Append, RecordStep;
    if l.Record? { RecordMover(c, l.thread, l.spurious); }
  }

  lemma RecordMover(c: Core, t: Thread, spurious: bool)
    requires RecordStep(c, t, spurious).Some?
    ensures var c' := RecordStep(c, t, spurious).value;
            && t < |c.threads| == |c'.threads| && c'.threads == c.threads[t := c'.threads[t]]
            && InStep(c'.threads[t]) && !ToEnqueue(c'.threads[t]) && !ToEnqueue(c.threads[t])
            && c'.memory.enabled == c.memory.enabled && c'.symbols == c.symbols
            && c'.memory.dispatches == c.memory.dispatches
  {
  }

  lemma SeesEnqueues(s: E.State, l: Label, s': E.State)
    requires E.Step(s, l) == Some(s')
    ensures s.core.trace <= s'.core.trace
    ensures Enqueues(s'.core.trace[|s.core.trace|..]) == if l.Enqueue? then 1 else 0
  {
    hide E.Step, Enqueues, News;
    TraceGrows(s, l);
    var mover, call := NewObservations(s, l, s');
    NewsSeen(s'.core.trace[|s.core.trace|..], l.Enqueue?, mover, call, 0);
  }

  lemma StepCounts(s: E.State, l: Label, s': E.State)
    requires Enabled(s) && E.Step(s, l) == Some(s') && !l.Reset? && l != Exchange(false)
    ensures CountsStep(s, l, s')
  {
    SeesEnqueues(s, l, s');
    if l.Exchange? || l.Complete? {
      Bystanders(s, l, s');
    } else {
      MoverCounts(s, l, s');
      hide E.Step;
      OneThreadMoves(s.core.threads, l.thread, s'.core.threads[l.thread], ToEnqueue);
    }
  }

  lemma Bystanders(s: E.State, l: Label, s': E.State)
    requires E.Step(s, l) == Some(s') && ((l.Exchange? && l.enabled) || l.Complete?)
    ensures s'.core.threads == s.core.threads && s'.core.memory.dispatches == s.core.memory.dispatches
    ensures s'.window == s.window && s'.core.symbols == s.core.symbols
    ensures s.core.memory.enabled ==> s'.core.memory.enabled
  {
  }

  /** Every command this line gained is a counted kernel. */
  ghost predicate GainsCounted(before: Line, after: Line) {
    && before.counted <= after.counted
    && forall p | |before.counted| <= p < |after.counted| :: after.counted[p]
  }

  lemma StepGainsCounted(s: E.State, l: Label, s': E.State, q: Queue)
    requires Enabled(s) && E.Step(s, l) == Some(s')
    ensures GainsCounted(LineOf(s.core.device, q), LineOf(s'.core.device, q))
  {
    hide CountAfter, QueueTable.Tick, InFlight, Lost, EventComplete;
    if l.Enqueue? {
      assert InStep(s.core.threads[l.thread]);
      EnqueueEffect(s.core, l.thread, l.status, l.returned);
    }
  }

  /** While inference stays enabled every command that any queue gains is counted, and the dispatch counter
      grows by one for each enqueue the vendor sees, but for the calls still on their way there. No call is
      exempt: not one whose caller passes an event pointer either. */
  lemma {:induction false} EveryKernelIsCounted(s: E.State, ls: seq<Label>, final: E.State, q: Queue)
    requires AllIdle(s.core.threads) && s.window > 0 && s.core.memory.enabled && s.core.symbols.enqueue
    requires E.Run(s, ls) == Some(final) && StaysEnabled(ls)
    ensures Enabled(final) && NeverClears(ls) && s.core.trace <= final.core.trace
    ensures GainsCounted(LineOf(s.core.device, q), LineOf(final.core.device, q))
    ensures final.core.memory.dispatches
         == s.core.memory.dispatches + Enqueues(final.core.trace[|s.core.trace|..])
            + HowMany(final.core.threads, ToEnqueue)
  {
    if ls == [] {
      assert s.core.trace[|s.core.trace|..] == [];
      NobodyToEnqueue(s.core.threads);
    } else {
      hide E.Run, E.Step, Enabled, HowMany, Enqueues, LineOf;
      var before, l := ls[..|ls| - 1], ls[|ls| - 1];
      E.LastStep(s, ls);
      var m := E.Run(s, before).value;
      EveryKernelIsCounted(s, before, m, q);
      StepCounts(m, l, final);
      StepGainsCounted(m, l, final, q);
      Telescope(s.core.trace, m.core.trace, final.core.trace);
      EnqueuesAddUp(m.core.trace[|s.core.trace|..], final.core.trace[|m.core.trace|..]);
    }
  }

  lemma {:induction false} NobodyToEnqueue(threads: seq<Pc>)
    requires AllIdle(threads)
    ensures HowMany(threads, ToEnqueue) == 0
  {
    if threads != [] { NobodyToEnqueue(threads[..|threads| - 1]); }
  }

  /** The same for production. */
  lemma EveryProductionKernelIsCounted(c: Core, ls: seq<Label>, final: Core, q: Queue)
    requires AllIdle(c.threads) && c.memory.enabled && c.symbols.enqueue
    requires P.Run(c, ls) == Some(final) && StaysEnabled(ls)
    ensures c.trace <= final.trace && GainsCounted(LineOf(c.device, q), LineOf(final.device, q))
    ensures final.memory.dispatches
         == c.memory.dispatches + Enqueues(final.trace[|c.trace|..]) + HowMany(final.threads, ToEnqueue)
  {
    var s := E.State(c, 1, Cleared(), []);
    var e := ShimEquivalence.ExpandedRun(s, ls, final);
    ExpansionStaysEnabled(ls);
    EveryKernelIsCounted(s, ShimEquivalence.ExpandAll(ls), e, q);
  }

  lemma {:induction false} ExpansionStaysEnabled(ls: seq<Label>)
    requires StaysEnabled(ls)
    ensures StaysEnabled(ShimEquivalence.ExpandAll(ls))
  {
    if ls != [] {
      assert ls == ls[..|ls| - 1] + [ls[|ls| - 1]] && ls[|ls| - 1] in ls;
      assert forall l | l in ls[..|ls| - 1] :: l in ls;
      ExpansionStaysEnabled(ls[..|ls| - 1]);
    }
  }

  // ---------------------------------------------------------------- the bound on all kernels

  /** All commands of the queue, enqueued at or after a position, that are not finished. */
  ghost function AllUnfinished(c: Core, q: Queue, from: nat): set<nat> {
    var line := LineOf(c.device, q);
    set p | p in Interval(0, |line.counted|) && from <= p && line.done <= p
  }

  lemma AllAreCounted(c: Core, q: Queue, before: Line)
    requires GainsCounted(before, LineOf(c.device, q))
    ensures AllUnfinished(c, q, |before.counted|) == Unfinished(c, q, |before.counted|)
  {
  }

  /** While inference stays enabled the bound is one on all commands of the queue. */
  lemma EveryKernelIsBounded(s: E.State, ls: seq<Label>, q: Queue, final: E.State)
    requires Start(s, q) && s.core.memory.enabled && s.core.symbols.enqueue && |s.core.threads| > 0
    requires E.Run(s, ls) == Some(final) && StaysEnabled(ls) && CountsExactly(final, q)
    ensures |AllUnfinished(final.core, q, Backlog(s, q))|
            <= W.Limit(|s.core.threads|, |RecentMisses(LedgerOf(s, ls, q))|, s.window)
  {
    EveryKernelIsCounted(s, ls, final, q);
    AllAreCounted(final.core, q, LineOf(s.core.device, q));
    UnclearedIsBounded(s, ls, q, final);
  }

  /** In particular with at most 32 queue handles in use, NULL included. */
  lemma FewHandlesBoundEveryKernel(s: E.State, ls: seq<Label>, used: set<Queue>, q: Queue, final: E.State)
    requires Start(s, q) && s.core.memory.enabled && s.core.symbols.enqueue && |s.core.threads| > 0
    requires E.Run(s, ls) == Some(final) && StaysEnabled(ls)
    requires CallsUse(ls, used) && |used| <= 32 && q != NO_QUEUE
    ensures |AllUnfinished(final.core, q, Backlog(s, q))|
            <= W.Limit(|s.core.threads|, |RecentMisses(LedgerOf(s, ls, q))|, s.window)
  {
    StartUses(s, q, used);
    FewHandlesCount(s, ls, used, q);
    EveryKernelIsBounded(s, ls, q, final);
  }

  /** And for production, on any queue. */
  lemma EveryProductionKernelIsBounded(c: Core, ls: seq<Label>, q: Queue, final: Core)
    requires AllIdle(c.threads) && LineOf(c.device, q).done <= |LineOf(c.device, q).counted|
    requires c.memory.enabled && c.symbols.enqueue && P.Run(c, ls) == Some(final) && StaysEnabled(ls)
    ensures |AllUnfinished(final, q, |LineOf(c.device, q).counted|)|
            <= |c.threads| + |Unsettled(ProductionPlaces(c, ls, q))|
  {
    EveryProductionKernelIsCounted(c, ls, final, q);
    AllAreCounted(final, q, LineOf(c.device, q));
    ProductionIsBounded(c, ls, q, final);
  }
}
