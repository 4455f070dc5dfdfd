/** What equal counters say about the vendor calls themselves: between two idle moments of the production
    shim the counters grow alike exactly when the vendor saw one wait for each counted enqueue and no clock
    ran backwards. */
module WaitTrace {
  import opened ShimCore
  import P = ProductionShim
  import opened WaitAccounting
  import opened Wrappers

  /** The enqueues of counted calls that the vendor saw in a run. */
  function CountedEnqueues(c: Core, ls: seq<Label>): nat {
    if ls == [] then 0
    else
      var before := P.Run(c, ls[..|ls| - 1]);
      CountedEnqueues(c, ls[..|ls| - 1])
      + if before.Some? && EnqueuesCounted(before.value, ls[|ls| - 1]) then 1 else 0
  }

  predicate EnqueuesCounted(c: Core, l: Label) {
    l.Enqueue? && l.thread < |c.threads| && c.threads[l.thread].Submitting? && c.threads[l.thread].counted
  }

  /** The waits the vendor saw. */
  function VendorWaits(trace: seq<Observation>): nat {
    if trace == [] then 0
    else VendorWaits(trace[..|trace| - 1]) + if trace[|trace| - 1].VendorWait? then 1 else 0
  }

  lemma {:induction false} VendorWaitsAddUp(a: seq<Observation>, b: seq<Observation>)
    ensures VendorWaits(a + b) == VendorWaits(a) + VendorWaits(b)
  {
    if b == [] {
      assert a + b == a;
    } else {
      VendorWaitsAddUp(a, b[..|b| - 1]);
      assert (a + b)[..|a + b| - 1] == a + b[..|b| - 1];
    }
  }

  // ---------------------------------------------------------------- threads between two vendor calls

  function HowMany(threads: seq<Pc>, here: Pc -> bool): nat {
    if threads == [] then 0
    else HowMany(threads[..|threads| - 1], here) + if here(threads[|threads| - 1]) then 1 else 0
  }

  const ToWait: Pc -> bool := (pc: Pc) => pc.Waiting?
  const ToRecord: Pc -> bool := (pc: Pc) => pc.Recording? && pc.todo.AddWait?

  lemma {:induction false} OneThreadMoves(threads: seq<Pc>, t: Thread, pc: Pc, here: Pc -> bool)
    requires t < |threads|
    ensures HowMany(threads[t := pc], here)
         == HowMany(threads, here) - (if here(threads[t]) then 1 else 0) + if here(pc) then 1 else 0
  {
    var n := |threads| - 1;
    if t == n {
      assert threads[t := pc][..n] == threads[..n];
    } else {
      OneThreadMoves(threads[..n], t, pc, here);
      assert threads[t := pc][..n] == threads[..n][t := pc];
    }
  }

  lemma {:induction false} NobodyWhenIdle(threads: seq<Pc>)
    requires AllIdle(threads)
    ensures HowMany(threads, ToWait) == 0 && HowMany(threads, ToRecord) == 0
  {
    if threads != [] { NobodyWhenIdle(threads[..|threads| - 1]); }
  }

  /** Counted calls that ended before they could wait. */
  function Abandoned(h: History): nat {
    h.failed + h.unwaited + h.unresolved
  }

  /** How one step of one thread moves the two groups, the history and the trace. */
  ghost predicate Accounted(c: Core, l: Label, c': Core) {
    var waits := if l.Wait? then 1 else 0;
    && HowMany(c'.threads, ToWait) + waits + Abandoned(c'.history)
       == HowMany(c.threads, ToWait) + Abandoned(c.history) + (if EnqueuesCounted(c, l) then 1 else 0)
    && HowMany(c'.threads, ToRecord) + c'.history.backwards + |c'.history.recorded|
       == HowMany(c.threads, ToRecord) + c.history.backwards + |c.history.recorded| + waits
    && c.trace <= c'.trace && VendorWaits(c'.trace[|c.trace|..]) == waits
  }

  /** The moved thread's part in that. */
  ghost predicate AccountedAt(c: Core, l: Label, c': Core, t: Thread)
    requires t < |c.threads| && t < |c'.threads|
  {
    var waits := if l.Wait? then 1 else 0;
    && (if ToWait(c'.threads[t]) then 1 else 0) + waits + Abandoned(c'.history)
       == (if ToWait(c.threads[t]) then 1 else 0) + Abandoned(c.history) + (if EnqueuesCounted(c, l) then 1 else 0)
    && (if ToRecord(c'.threads[t]) then 1 else 0) + c'.history.backwards + |c'.history.recorded|
       == (if ToRecord(c.threads[t]) then 1 else 0) + c.history.backwards + |c.history.recorded| + waits
  }

  lemma Assemble(c: Core, l: Label, c': Core, t: Thread)
    requires t < |c.threads| && |c'.threads| == |c.threads| && c'.threads == c.threads[t := c'.threads[t]]
    requires AccountedAt(c, l, c', t)
    requires c.trace <= c'.trace && VendorWaits(c'.trace[|c.trace|..]) == if l.Wait? then 1 else 0
    ensures Accounted(c, l, c')
  {
    OneThreadMoves(c.threads, t, c'.threads[t], ToWait);
    OneThreadMoves(c.threads, t, c'.threads[t], ToRecord);
  }

  lemma StepAccounts(c: Core, l: Label, c': Core)
    requires Balanced(c) && P.Step(c, l) == Some(c')
    ensures Accounted(c, l, c')
  {
    match l
    case Enqueue(t, _, _) => EnqueueTrace(c, l, c');
    case Wait(t, _, _, _) => WaitSeen(c, l, c');
    case Exchange(_) => Unseen(c, c');
    case Complete(_) => Unseen(c, c');
    case _ => OtherSteps(c, l, c');
  }

  lemma Unseen(c: Core, c': Core)
    requires c'.trace == c.trace
    ensures c.trace <= c'.trace && VendorWaits(c'.trace[|c.trace|..]) == 0
  {
    assert c'.trace[|c.trace|..] == [];
  }

  lemma Seen(c: Core, c': Core, a: Observation, b: Observation)
    requires c'.trace == c.trace + [a] || c'.trace == c.trace + [a] + [b]
    requires !b.VendorWait?
    ensures c.trace <= c'.trace && VendorWaits(c'.trace[|c.trace|..]) == if a.VendorWait? then 1 else 0
  {
    assert [a][..0] == [] && [b][..0] == [];
    VendorWaitsAddUp([a], [b]);
    assert c'.trace[|c.trace|..] == if c'.trace == c.trace + [a] then [a] else [a] + [b];
  }

  lemma EnqueueTrace(c: Core, l: Label, c': Core)
    requires Balanced(c) && l.Enqueue? && P.Step(c, l) == Some(c')
    ensures Accounted(c, l, c')
  {
    var call := c.threads[l.thread].call;
    var wants := c.threads[l.thread].wait || call.hasEvent;
    var returned := Returned(l.thread, if l.status != CL_SUCCESS || !c.threads[l.thread].wait then l.status else CL_INVALID_OPERATION);
    Seen(c, c', VendorEnqueue(l.thread, call, wants, l.status), returned);
    Assemble(c, l, c', l.thread);
  }

  lemma WaitSeen(c: Core, l: Label, c': Core)
    requires l.Wait? && P.Step(c, l) == Some(c')
    ensures Accounted(c, l, c')
  {
    Seen(c, c', VendorWait(l.thread, c.threads[l.thread].event, l.status), Returned(l.thread, l.status));
    Assemble(c, l, c', l.thread);
  }

  lemma OtherSteps(c: Core, l: Label, c': Core)
    requires P.Step(c, l) == Some(c') && !l.Enqueue? && !l.Wait? && !l.Exchange? && !l.Complete?
    ensures Accounted(c, l, c')
  {
    hide InFlight, Lost, VendorWaits, HowMany, LineOf, Append, EventComplete;
    var t := l.thread;
    assert c'.threads == c.threads[t := c'.threads[t]];
    NoWaitSeen(c, l, c');
    assert AccountedAt(c, l, c', t);
    Assemble(c, l, c', t);
  }

  lemma NoWaitSeen(c: Core, l: Label, c': Core)
    requires P.Step(c, l) == Some(c') && !l.Enqueue? && !l.Wait? && !l.Exchange? && !l.Complete?
    ensures c.trace <= c'.trace && VendorWaits(c'.trace[|c.trace|..]) == 0
  {
    if |c'.trace| == |c.trace| + 2 {
      Seen(c, c', c'.trace[|c.trace|], c'.trace[|c.trace| + 1]);
    } else if |c'.trace| == |c.trace| + 1 {
      var seen := c'.trace[|c.trace|];
      Seen(c, c', seen, seen);
    } else {
      Unseen(c, c');
    }
  }

  /** The totals of a run. */
  lemma {:induction false} RunAccounts(c: Core, ls: seq<Label>, c': Core)
    requires Balanced(c) && P.Run(c, ls) == Some(c')
    ensures c.trace <= c'.trace
    ensures HowMany(c'.threads, ToWait) + VendorWaits(c'.trace[|c.trace|..]) + Abandoned(c'.history)
         == HowMany(c.threads, ToWait) + Abandoned(c.history) + CountedEnqueues(c, ls)
    ensures HowMany(c'.threads, ToRecord) + c'.history.backwards + |c'.history.recorded|
         == HowMany(c.threads, ToRecord) + c.history.backwards + |c.history.recorded|
            + VendorWaits(c'.trace[|c.trace|..])
  {
    hide Balanced, HowMany;
    if ls == [] {
      assert c.trace[|c.trace|..] == [];
    } else {
      var before, l := ls[..|ls| - 1], ls[|ls| - 1];
      var m := P.Run(c, before).value;
      ProductionAlwaysBalanced(c, before);
      RunAccounts(c, before, m);
      StepAccounts(m, l, c');
      VendorWaitsAddUp(m.trace[|c.trace|..], c'.trace[|m.trace|..]);
      assert c'.trace[|c.trace|..] == m.trace[|c.trace|..] + c'.trace[|m.trace|..];
    }
  }

  predicate ZeroesDispatches(l: Label) {
    l.Zero? && l.cell == DispatchCell
  }

  lemma {:induction false} ResetsChangeZeroes(c: Core, ls: seq<Label>, c': Core)
    requires P.Run(c, ls) == Some(c') && forall l | l in ls :: !ZeroesDispatches(l)
    ensures c'.history.zeroed == c.history.zeroed
    ensures (forall l | l in ls :: !l.Zero?) ==> c'.history.waitsZeroedAt == c.history.waitsZeroedAt
    ensures c'.history.backwards >= c.history.backwards && Abandoned(c'.history) >= Abandoned(c.history)
  {
    if ls != [] {
      hide ZeroesDispatches, P.Step;
      var before, l := ls[..|ls| - 1], ls[|ls| - 1];
      assert ls == before + [l] && l in ls && forall x | x in before :: x in ls;
      ResetsChangeZeroes(c, before, P.Run(c, before).value);
      StepKeepsZeroes(P.Run(c, before).value, l, c');
    }
  }

  lemma StepKeepsZeroes(c: Core, l: Label, c': Core)
    requires P.Step(c, l) == Some(c') && !ZeroesDispatches(l)
    ensures c'.history.zeroed == c.history.zeroed
    ensures !l.Zero? ==> c'.history.waitsZeroedAt == c.history.waitsZeroedAt
    ensures c'.history.backwards >= c.history.backwards && Abandoned(c'.history) >= Abandoned(c.history)
  {
    hide LineOf, Append, EventComplete;
  }

  // ---------------------------------------------------------------- equal counts

  /** A reset has just zeroed the dispatch counter. */
  predicate JustZeroed(c: Core) {
    c.history.zeroed == Snapshot(c.history.begun, |c.history.recorded|, InFlight(c.threads), Lost(c.history))
  }

  /** From the moment the dispatch counter was last zeroed, calls and other resets in flight or not, to any
      idle one: what equal counts say about the vendor calls in between. When the reset carried nothing over
      they are equal if and only if the vendor saw one wait for each counted enqueue and for each call that
      stood between its enqueue and its wait then, and no clock ran backwards. */
  lemma EqualCountsSinceZeroing(c: Core, ls: seq<Label>, c': Core)
    requires Reached(c) && JustZeroed(c) && AllIdle(c'.threads)
    requires P.Run(c, ls) == Some(c') && forall l | l in ls :: !ZeroesDispatches(l)
    ensures c.trace <= c'.trace
    ensures var h, seen := c'.history, VendorWaits(c'.trace[|c.trace|..]);
            var due := CountedEnqueues(c, ls) + HowMany(c.threads, ToWait);
            && (c'.memory.dispatches == c'.memory.waits <==>
                  seen + h.zeroed.inFlight
                  == due + (h.backwards - c.history.backwards) + (h.waitsZeroedAt - h.zeroed.recorded))
            && (NothingCarried(h) ==>
                  (c'.memory.dispatches == c'.memory.waits <==> seen == due && h.backwards == c.history.backwards))
  {
    hide Reached, HowMany, P.Run, CountedEnqueues, VendorWaits, ZeroesDispatches;
    ReachedIsBalanced(c);
    ProductionAlwaysBalanced(c, ls);
    RunAccounts(c, ls, c');
    ResetsChangeZeroes(c, ls, c');
    NobodyWhenIdle(c'.threads);
    IdleMeansNoneInFlight(c'.threads);
  }

  /** Between two idle moments without a reset, the first of them reached by any run: every counted call was
      enqueued, and the counters grow alike if and only if the vendor saw exactly one wait per counted
      enqueue and no clock ran backwards over one. */
  lemma EqualCountsAreSeen(c: Core, ls: seq<Label>, c': Core)
    requires Reached(c) && AllIdle(c.threads) && AllIdle(c'.threads)
    requires P.Run(c, ls) == Some(c') && forall l | l in ls :: !l.Zero?
    ensures c.trace <= c'.trace && CountedEnqueues(c, ls) == c'.memory.dispatches - c.memory.dispatches
    ensures c'.memory.dispatches - c.memory.dispatches == c'.memory.waits - c.memory.waits <==>
            VendorWaits(c'.trace[|c.trace|..]) == CountedEnqueues(c, ls)
            && c'.history.backwards == c.history.backwards
  {
    hide Reached, HowMany, P.Run, CountedEnqueues, VendorWaits;
    ReachedIsBalanced(c);
    ProductionAlwaysBalanced(c, ls);
    RunAccounts(c, ls, c');
    ResetsChangeZeroes(c, ls, c');
    NobodyWhenIdle(c.threads);
    NobodyWhenIdle(c'.threads);
    IdleMeansNoneInFlight(c.threads);
    IdleMeansNoneInFlight(c'.threads);
  }
}
