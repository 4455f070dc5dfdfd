/** When the shims only forward: window 0, or inference never enabled. */
module Passthrough {
  import opened QueueTable
  import opened ShimCore
  import E = ExperimentalShim
  import P = ProductionShim
  import ShimEquivalence

  /** The shim adds no event of its own, never waits or releases, and returns what the vendor's enqueue
      just returned. */
  ghost predicate Forwards(trace: seq<Observation>, from: nat) {
    forall i | from <= i < |trace| :: ForwardsAt(trace, from, i)
  }

  predicate ForwardsAt(trace: seq<Observation>, from: nat, i: nat)
    requires i < |trace|
  {
    match trace[i]
    case VendorEnqueue(_, call, wantsEvent, _) => wantsEvent == call.hasEvent
    case Returned(t, status) =>
      i > from && trace[i - 1].VendorEnqueue? && trace[i - 1].thread == t && trace[i - 1].status == status
    case _ => false
  }

  predicate Uninvolved(pc: Pc) {
    match pc
    case Submitting(_, counted, wait) => !counted && !wait
    case Idle => true
    case Entered(_) => true
    case Resetting(_) => true
    case Clearing => true
    case _ => false
  }

  /** A counter has not moved, unless a reset zeroed it. */
  predicate StandsStill(counter: nat, start: nat) {
    counter == start || counter == 0
  }

  /** No call is counted, nothing but forwarding has been observed, and the counters stand still. */
  ghost predicate Transparent(c: Core, from: nat, start: Memory) {
    && c.symbols.enqueue
    && (forall t | 0 <= t < |c.threads| :: Uninvolved(c.threads[t]))
    && from <= |c.trace| && Forwards(c.trace, from)
    && StandsStill(c.memory.dispatches, start.dispatches) && StandsStill(c.memory.waits, start.waits)
    && StandsStill(c.memory.totalNs, start.totalNs) && StandsStill(c.memory.maxNs, start.maxNs)
  }

  lemma ForwardsOneMore(trace: seq<Observation>, from: nat, t: Thread, call: Call, status: int)
    requires from <= |trace| && Forwards(trace, from)
    ensures Forwards(trace + [VendorEnqueue(t, call, call.hasEvent, status), Returned(t, status)], from)
  {
    var more := trace + [VendorEnqueue(t, call, call.hasEvent, status), Returned(t, status)];
    forall i | from <= i < |more| ensures ForwardsAt(more, from, i) {
      if i < |trace| {
        assert ForwardsAt(trace, from, i);
        assert more[i] == trace[i] && (i > 0 ==> more[i - 1] == trace[i - 1]);
      }
    }
  }

  lemma CommonKeepsTransparent(c: Core, l: Label, from: nat, start: Memory)
    requires Transparent(c, from, start) && CommonStep(c, l).Some?
    ensures Transparent(CommonStep(c, l).value, from, start)
  {
    if l.Enqueue? {
      var call := c.threads[l.thread].call;
      ForwardsOneMore(c.trace, from, l.thread, call, l.status);
      assert CommonStep(c, l).value.trace ==
          c.trace + [VendorEnqueue(l.thread, call, call.hasEvent, l.status), Returned(l.thread, l.status)];
    }
  }

  lemma ZeroKeepsTransparent(c: Core, t: Thread, cell: Cell, from: nat, start: Memory)
    requires Transparent(c, from, start) && ZeroStep(c, t, cell, Clearing).Some?
    ensures Transparent(ZeroStep(c, t, cell, Clearing).value, from, start)
    ensures !c.memory.enabled ==> !ZeroStep(c, t, cell, Clearing).value.memory.enabled
  {
    hide InFlight, Lost, Forwards;
  }

  lemma CommonKeepsFlag(c: Core, l: Label)
    ensures CommonStep(c, l).Some? && l != Exchange(true) && !c.memory.enabled ==>
              !CommonStep(c, l).value.memory.enabled
  {
  }

  lemma StepKeepsTransparent(s: E.State, l: Label, from: nat, start: Memory)
    requires Transparent(s.core, from, start) && E.Step(s, l).Some?
    requires s.window == 0 || (!s.core.memory.enabled && l != Exchange(true))
    ensures Transparent(E.Step(s, l).value.core, from, start) && E.Step(s, l).value.window == s.window
    ensures !s.core.memory.enabled && l != Exchange(true) ==> !E.Step(s, l).value.core.memory.enabled
  {
    hide CommonStep, ZeroStep, StandsStill, Forwards;
    if CommonStep(s.core, l).Some? { CommonKeepsTransparent(s.core, l, from, start); }
    if l.Zero? { ZeroKeepsTransparent(s.core, l.thread, l.cell, from, start); }
    CommonKeepsFlag(s.core, l);
  }

  /** With window 0, or while inference stays disabled, the shim is invisible: every run only forwards. */
  lemma {:induction false} OnlyForwards(s: E.State, ls: seq<Label>)
    requires AllIdle(s.core.threads) && s.core.symbols.enqueue && E.Run(s, ls).Some?
    requires s.window == 0 || (!s.core.memory.enabled && Exchange(true) !in ls)
    ensures Transparent(E.Run(s, ls).value.core, |s.core.trace|, s.core.memory)
    ensures E.Run(s, ls).value.window == s.window
    ensures !s.core.memory.enabled && Exchange(true) !in ls ==> !E.Run(s, ls).value.core.memory.enabled
  {
    if ls != [] {
      var before, l := ls[..|ls| - 1], ls[|ls| - 1];
      OnlyForwards(s, before);
      StepKeepsTransparent(E.Run(s, before).value, l, |s.core.trace|, s.core.memory);
    }
  }

  lemma ProductionOnlyForwards(c: Core, ls: seq<Label>)
    requires AllIdle(c.threads) && c.symbols.enqueue && P.Run(c, ls).Some?
    requires !c.memory.enabled && Exchange(true) !in ls
    ensures Transparent(P.Run(c, ls).value, |c.trace|, c.memory)
  {
    var s := E.State(c, 1, Cleared(), []);
    ShimEquivalence.ProductionRefinesExperimental(s, ls);
    ExpandKeepsDisabled(ls);
    OnlyForwards(s, ShimEquivalence.ExpandAll(ls));
  }

  lemma {:induction false} ExpandKeepsDisabled(ls: seq<Label>)
    requires Exchange(true) !in ls
    ensures Exchange(true) !in ShimEquivalence.ExpandAll(ls)
  {
    if ls != [] {
      ExpandKeepsDisabled(ls[..|ls| - 1]);
      assert ls[|ls| - 1] in ls;
    }
  }
}
