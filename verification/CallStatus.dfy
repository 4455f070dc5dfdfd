/** What callers are told: the status a shim returns, against the vendor calls it made for that call. */
module CallStatus {
  import opened QueueTable
  import opened ShimCore
  import E = ExperimentalShim
  import P = ProductionShim
  import EventOwnership
  import ShimEquivalence
  import opened Wrappers

  /** The statuses of the vendor calls a thread has made since its last return. */
  function Since(trace: seq<Observation>, t: Thread): seq<int> {
    if trace == [] then []
    else
      var before, last := trace[..|trace| - 1], trace[|trace| - 1];
      if last.thread != t then Since(before, t)
      else if last.Returned? then []
      else Since(before, t) + [last.status]
  }

  function FirstFailure(statuses: seq<int>): int {
    if statuses == [] then CL_SUCCESS
    else if statuses[0] != CL_SUCCESS then statuses[0]
    else FirstFailure(statuses[1..])
  }

  /** A call with these vendor statuses is told the first failure; without one it is told success, or
      that a symbol it needed was never resolved. */
  predicate Told(symbols: Symbols, calls: seq<int>, status: int) {
    if FirstFailure(calls) != CL_SUCCESS then status == FirstFailure(calls)
    else
      || (status == CL_SUCCESS && calls != [])
      || (status == CL_INVALID_OPERATION && calls == [] && !symbols.enqueue)
      || (status == CL_INVALID_OPERATION && |calls| == 1 && !(symbols.wait && symbols.release))
  }

  ghost predicate Truthful(symbols: Symbols, trace: seq<Observation>) {
    forall i | 0 <= i < |trace| && trace[i].Returned? ::
      Told(symbols, Since(trace[..i], trace[i].thread), trace[i].status)
  }

  /** The vendor statuses of a call that has come this far. */
  function SoFar(pc: Pc): seq<int> {
    match pc
    case Waiting(_, _) => [CL_SUCCESS]
    case Recording(_, _, status, _) => [CL_SUCCESS, status]
    case Releasing(_, _, status) => [CL_SUCCESS, status]
    case _ => []
  }

  ghost predicate Reporting(c: Core) {
    && Truthful(c.symbols, c.trace)
    && forall t | 0 <= t < |c.threads| :: Since(c.trace, t) == SoFar(c.threads[t])
  }

  lemma OneMore(symbols: Symbols, trace: seq<Observation>, o: Observation)
    requires Truthful(symbols, trace)
    requires o.Returned? ==> Told(symbols, Since(trace, o.thread), o.status)
    ensures Truthful(symbols, trace + [o])
    ensures forall t :: Since(trace + [o], t) ==
              if o.thread != t then Since(trace, t) else if o.Returned? then [] else Since(trace, t) + [o.status]
  {
    var more := trace + [o];
    assert more[..|trace|] == trace;
    forall i | 0 <= i < |more| && more[i].Returned?
      ensures Told(symbols, Since(more[..i], more[i].thread), more[i].status)
    {
      assert more[..i] == trace[..i];
    }
  }

  /** One thread makes a vendor call. */
  lemma Called(c: Core, c': Core, t: Thread, o: Observation)
    requires Reporting(c) && t < |c.threads| && c'.symbols == c.symbols && c'.trace == c.trace + [o]
    requires |c'.threads| == |c.threads| && c'.threads == c.threads[t := c'.threads[t]]
    requires o.thread == t && !o.Returned? && SoFar(c'.threads[t]) == SoFar(c.threads[t]) + [o.status]
    ensures Reporting(c')
  {
    OneMore(c.symbols, c.trace, o);
  }

  /** One thread returns. */
  lemma Answered(c: Core, c': Core, t: Thread, status: int)
    requires Reporting(c) && t < |c.threads| && c'.symbols == c.symbols && c'.trace == c.trace + [Returned(t, status)]
    requires c'.threads == c.threads[t := Idle] && Told(c.symbols, SoFar(c.threads[t]), status)
    ensures Reporting(c')
  {
    OneMore(c.symbols, c.trace, Returned(t, status));
  }

  /** One thread makes its last vendor call and returns. */
  lemma CalledAndAnswered(c: Core, c': Core, t: Thread, o: Observation, status: int)
    requires Reporting(c) && t < |c.threads| && c'.symbols == c.symbols
    requires c'.trace == c.trace + [o] + [Returned(t, status)] && c'.threads == c.threads[t := Idle]
    requires o.thread == t && !o.Returned? && Told(c.symbols, SoFar(c.threads[t]) + [o.status], status)
    ensures Reporting(c')
  {
    OneMore(c.symbols, c.trace, o);
    OneMore(c.symbols, c.trace + [o], Returned(t, status));
  }

  /** A thread moves and nobody observes it. */
  lemma Silent(c: Core, c': Core, t: Thread)
    requires Reporting(c) && c'.symbols == c.symbols && c'.trace == c.trace && |c'.threads| == |c.threads|
    requires c'.threads == if t < |c.threads| then c.threads[t := c'.threads[t]] else c.threads
    requires t < |c.threads| ==> SoFar(c'.threads[t]) == SoFar(c.threads[t])
    ensures Reporting(c')
  {
  }

  lemma FirstOfTwo(a: int, b: int)
    ensures FirstFailure([a]) == a && FirstFailure([a] + [b]) == if a != CL_SUCCESS then a else b
  {
    assert [a][1..] == [] && ([a] + [b])[1..] == [b] && [b][1..] == [];
  }

  lemma EnqueueReports(c: Core, t: Thread, status: int, returned: bool)
    requires Reporting(c) && EnqueueStep(c, t, status, returned).Some?
    ensures Reporting(EnqueueStep(c, t, status, returned).value)
  {
    hide Reporting;
    var c' := EnqueueStep(c, t, status, returned).value;
    var Submitting(call, counted, wait) := c.threads[t];
    var o := VendorEnqueue(t, call, wait || call.hasEvent, status);
    FirstOfTwo(status, 0);
    assert [] + [status] == [status];
    if c'.threads[t].Waiting? {
      Called(c, c', t, o);
    } else {
      CalledAndAnswered(c, c', t, o, c'.trace[|c'.trace| - 1].status);
    }
  }

  lemma WaitReports(c: Core, t: Thread, status: int, started: nat, ended: nat)
    requires Reporting(c) && WaitStep(c, t, status, started, ended).Some?
    ensures Reporting(WaitStep(c, t, status, started, ended).value)
  {
    hide Reporting;
    var c' := WaitStep(c, t, status, started, ended).value;
    var o := VendorWait(t, c.threads[t].event, status);
    FirstOfTwo(CL_SUCCESS, status);
    assert [CL_SUCCESS] + [status] == [CL_SUCCESS, status];
    if c'.threads[t].Idle? {
      CalledAndAnswered(c, c', t, o, status);
    } else {
      Called(c, c', t, o);
    }
  }

  lemma RecordReports(c: Core, t: Thread, spurious: bool)
    requires Reporting(c) && RecordStep(c, t, spurious).Some?
    ensures Reporting(RecordStep(c, t, spurious).value)
  {
    hide Reporting;
    var c' := RecordStep(c, t, spurious).value;
    FirstOfTwo(CL_SUCCESS, c.threads[t].status);
    assert [CL_SUCCESS] + [c.threads[t].status] == [CL_SUCCESS, c.threads[t].status];
    if c'.threads[t].Idle? {
      Answered(c, c', t, c.threads[t].status);
    } else {
      Silent(c, c', t);
    }
  }

  lemma ReleaseReports(c: Core, t: Thread, status: int)
    requires Reporting(c) && ReleaseStep(c, t, status).Some?
    ensures Reporting(ReleaseStep(c, t, status).value)
  {
    hide Reporting;
    var waited := c.threads[t].status;
    var calls := [CL_SUCCESS, waited] + [status];
    assert calls[1..] == [waited] + [status];
    FirstOfTwo(waited, status);
    CalledAndAnswered(c, ReleaseStep(c, t, status).value, t, VendorRelease(t, c.threads[t].event, status),
                      if waited == CL_SUCCESS && status != CL_SUCCESS then status else waited);
  }

  lemma CommonReports(c: Core, l: Label)
    requires Reporting(c) && CommonStep(c, l).Some?
    ensures Reporting(CommonStep(c, l).value)
  {
    hide Reporting;
    var c' := CommonStep(c, l).value;
    match l
    case Enqueue(t, status, returned) => EnqueueReports(c, t, status, returned);
    case Wait(t, status, started, ended) => WaitReports(c, t, status, started, ended);
    case Record(t, spurious) => RecordReports(c, t, spurious);
    case Release(t, status) => ReleaseReports(c, t, status);
    case Enter(t, _) => if c.symbols.enqueue { Silent(c, c', t); } else { Answered(c, c', t, CL_INVALID_OPERATION); }
    case Reset(t) => Silent(c, c', t);
    case Exchange(_) => Silent(c, c', |c.threads|);
    case Complete(_) => Silent(c, c', |c.threads|);
    case _ =>
  }

  lemma StepReports(s: E.State, l: Label)
    requires Reporting(s.core) && E.Step(s, l).Some?
    ensures Reporting(E.Step(s, l).value.core)
  {
    hide Reporting;
    if CommonStep(s.core, l).Some? {
      CommonReports(s.core, l);
    } else {
      Silent(s.core, E.Step(s, l).value.core, l.thread);
    }
  }

  /** No call has been made yet. */
  predicate Unused(c: Core) {
    AllIdle(c.threads) && c.trace == []
  }

  lemma {:induction false} AlwaysReporting(s: E.State, ls: seq<Label>)
    requires Unused(s.core) && E.Run(s, ls).Some?
    ensures Reporting(E.Run(s, ls).value.core) && E.Run(s, ls).value.core.symbols == s.core.symbols
  {
    if ls != [] {
      hide Reporting, E.Step;
      var m := E.Run(s, ls[..|ls| - 1]).value;
      AlwaysReporting(s, ls[..|ls| - 1]);
      StepReports(m, ls[|ls| - 1]);
      EventOwnership.StepKeepsSymbols(m, ls[|ls| - 1]);
    }
  }

  /** Over every run, every return tells the first failure among the vendor calls made for it. It tells
      success only when there was at least one and all succeeded, and invents a status of its own only for
      a symbol that was never resolved. */
  lemma StatusesAreTruthful(s: E.State, ls: seq<Label>, final: E.State)
    requires Unused(s.core) && E.Run(s, ls) == Some(final)
    ensures Truthful(s.core.symbols, final.core.trace)
  {
    hide E.Run;
    AlwaysReporting(s, ls);
  }

  lemma ProductionStatusesAreTruthful(c: Core, ls: seq<Label>, final: Core)
    requires Unused(c) && P.Run(c, ls) == Some(final)
    ensures Truthful(c.symbols, final.trace)
  {
    hide E.Run;
    var s := E.State(c, 1, Cleared(), []);
    ShimEquivalence.ProductionRefinesExperimental(s, ls);
    AlwaysReporting(s, ShimEquivalence.ExpandAll(ls));
  }
}
