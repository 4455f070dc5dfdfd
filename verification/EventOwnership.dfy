/** Who waits on and releases the events the vendor returns, over every interleaving. */
module EventOwnership {
  import opened QueueTable
  import opened ShimCore
  import E = ExperimentalShim
  import P = ProductionShim
  import ShimEquivalence
  import opened Wrappers

  /** The event a call is still responsible for; 0 when there is none. */
  function HeldEvent(pc: Pc): Event {
    if pc.Waiting? || pc.Recording? || pc.Releasing? then pc.event else 0
  }

  predicate Resolved(c: Core) {
    c.symbols.wait && c.symbols.release
  }

  /** The event a thread holds is its own kind, waited on once it left the wait, not yet released. */
  ghost predicate HoldsProperly(c: Core, pc: Pc) {
    HeldEvent(pc) != 0 ==>
      && HeldEvent(pc) <= |c.device.events|
      && var record := c.device.events[HeldEvent(pc) - 1];
         record.shim == !pc.call.hasEvent && record.releases == 0
         && record.waits == (if pc.Waiting? then 0 else 1)
         && (pc.Releasing? ==> record.shim)
  }

  ghost predicate IsHeld(c: Core, event: Event) {
    exists t :: 0 <= t < |c.threads| && HeldEvent(c.threads[t]) == event
  }

  /** What has happened to an event nobody holds: a shim event was waited on and released exactly once,
      unless the vendor symbols were missing and it was abandoned; a caller's event was never released
      and waited on at most once. */
  ghost predicate Settled(c: Core, record: EventRecord) {
    if record.shim
    then (record.waits == 1 && record.releases == 1)
         || (!Resolved(c) && record.waits == 0 && record.releases == 0)
    else record.releases == 0 && record.waits <= 1
  }

  ghost predicate Owned(c: Core) {
    && (forall t | 0 <= t < |c.threads| :: HoldsProperly(c, c.threads[t]))
    && (forall t, u | 0 <= t < u < |c.threads| && HeldEvent(c.threads[t]) != 0 ::
          HeldEvent(c.threads[t]) != HeldEvent(c.threads[u]))
    && (forall e | 0 <= e < |c.device.events| :: Settled(c, c.device.events[e]) || IsHeld(c, e + 1))
  }

  /** A step that keeps every event record, by a thread that holds what it held. */
  lemma SameEvents(c: Core, c': Core, t: Thread)
    requires Owned(c) && c'.symbols == c.symbols && c'.device.events == c.device.events
    requires |c'.threads| == |c.threads| && forall u | 0 <= u < |c.threads| && u != t :: c'.threads[u] == c.threads[u]
    requires t < |c.threads| ==> HeldEvent(c'.threads[t]) == HeldEvent(c.threads[t]) && HoldsProperly(c', c'.threads[t])
    ensures Owned(c')
  {
    forall u | 0 <= u < |c'.threads| ensures HoldsProperly(c', c'.threads[u]) {
      assert HoldsProperly(c, c.threads[u]);
    }
    forall e | 0 <= e < |c'.device.events| ensures Settled(c', c'.device.events[e]) || IsHeld(c', e + 1) {
      if !Settled(c, c.device.events[e]) {
        var u :| 0 <= u < |c.threads| && HeldEvent(c.threads[u]) == e + 1;
        assert HeldEvent(c'.threads[u]) == e + 1;
      }
    }
  }

  /** A step that changes only the record of the event this thread holds, or lets it go. */
  lemma OwnEvent(c: Core, c': Core, t: Thread)
    requires Owned(c) && c'.symbols == c.symbols && t < |c.threads|
    requires |c'.threads| == |c.threads| && forall u | 0 <= u < |c.threads| && u != t :: c'.threads[u] == c.threads[u]
    requires |c'.device.events| == |c.device.events|
    requires forall e | 0 <= e < |c.device.events| && e + 1 != HeldEvent(c.threads[t]) ::
               c'.device.events[e] == c.device.events[e]
    requires HoldsProperly(c', c'.threads[t])
    requires HeldEvent(c'.threads[t]) == HeldEvent(c.threads[t])
             || (HeldEvent(c'.threads[t]) == 0
                 && (0 < HeldEvent(c.threads[t]) <= |c'.device.events| ==>
                       Settled(c', c'.device.events[HeldEvent(c.threads[t]) - 1])))
    ensures Owned(c')
  {
    forall u | 0 <= u < |c'.threads| ensures HoldsProperly(c', c'.threads[u]) {
      if u != t {
        assert HoldsProperly(c, c.threads[u]);
        assert HeldEvent(c.threads[u]) == 0 || HeldEvent(c.threads[u]) != HeldEvent(c.threads[t]);
      }
    }
    forall e | 0 <= e < |c'.device.events| ensures Settled(c', c'.device.events[e]) || IsHeld(c', e + 1) {
      if e + 1 == HeldEvent(c.threads[t]) {
        if HeldEvent(c'.threads[t]) == e + 1 { assert IsHeld(c', e + 1); }
      } else if !Settled(c, c.device.events[e]) {
        var u :| 0 <= u < |c.threads| && HeldEvent(c.threads[u]) == e + 1;
        assert HeldEvent(c'.threads[u]) == e + 1;
      }
    }
  }

  /** A step that adds one fresh event, held by this thread or already settled. */
  lemma NewEvent(c: Core, c': Core, t: Thread, record: EventRecord)
    requires Owned(c) && c'.symbols == c.symbols && t < |c.threads| && HeldEvent(c.threads[t]) == 0
    requires |c'.threads| == |c.threads| && forall u | 0 <= u < |c.threads| && u != t :: c'.threads[u] == c.threads[u]
    requires c'.device.events == c.device.events + [record]
    requires HoldsProperly(c', c'.threads[t])
    requires HeldEvent(c'.threads[t]) == |c'.device.events|
             || (HeldEvent(c'.threads[t]) == 0 && Settled(c', record))
    ensures Owned(c')
  {
    forall u | 0 <= u < |c'.threads| ensures HoldsProperly(c', c'.threads[u]) {
      if u != t { assert HoldsProperly(c, c.threads[u]); }
    }
    forall e | 0 <= e < |c'.device.events| ensures Settled(c', c'.device.events[e]) || IsHeld(c', e + 1) {
      if e < |c.device.events| {
        if !Settled(c, c.device.events[e]) {
          var u :| 0 <= u < |c.threads| && HeldEvent(c.threads[u]) == e + 1;
          assert HeldEvent(c'.threads[u]) == e + 1;
        }
      } else if HeldEvent(c'.threads[t]) == e + 1 {
        assert IsHeld(c', e + 1);
      }
    }
  }

  lemma EnqueueKeepsOwned(c: Core, t: Thread, status: int, returned: bool)
    requires Owned(c) && EnqueueStep(c, t, status, returned).Some?
    ensures Owned(EnqueueStep(c, t, status, returned).value)
  {
    var c' := EnqueueStep(c, t, status, returned).value;
    var pc := c.threads[t];
    if status == CL_SUCCESS && (pc.wait || pc.call.hasEvent) && returned {
      var position := |LineOf(c.device, pc.call.queue).counted|;
      NewEvent(c, c', t, EventRecord(pc.call.queue, position, !pc.call.hasEvent, 0, 0));
    } else {
      SameEvents(c, c', t);
    }
  }

  lemma WaitKeepsOwned(c: Core, t: Thread, status: int, started: nat, ended: nat)
    requires Owned(c) && WaitStep(c, t, status, started, ended).Some?
    ensures Owned(WaitStep(c, t, status, started, ended).value)
  {
    assert HoldsProperly(c, c.threads[t]);
    OwnEvent(c, WaitStep(c, t, status, started, ended).value, t);
  }

  lemma RecordKeepsOwned(c: Core, t: Thread, spurious: bool)
    requires Owned(c) && RecordStep(c, t, spurious).Some?
    ensures Owned(RecordStep(c, t, spurious).value)
  {
    assert HoldsProperly(c, c.threads[t]);
    OwnEvent(c, RecordStep(c, t, spurious).value, t);
  }

  lemma ReleaseKeepsOwned(c: Core, t: Thread, status: int)
    requires Owned(c) && ReleaseStep(c, t, status).Some?
    ensures Owned(ReleaseStep(c, t, status).value)
  {
    assert HoldsProperly(c, c.threads[t]);
    OwnEvent(c, ReleaseStep(c, t, status).value, t);
  }

  lemma CommonKeepsOwned(c: Core, l: Label)
    requires Owned(c) && CommonStep(c, l).Some?
    ensures Owned(CommonStep(c, l).value)
  {
    match l
    case Enqueue(t, status, returned) => EnqueueKeepsOwned(c, t, status, returned);
    case Wait(t, status, started, ended) => WaitKeepsOwned(c, t, status, started, ended);
    case Record(t, spurious) => RecordKeepsOwned(c, t, spurious);
    case Release(t, status) => ReleaseKeepsOwned(c, t, status);
    case Enter(t, _) => SameEvents(c, CommonStep(c, l).value, t);
    case Reset(t) => SameEvents(c, CommonStep(c, l).value, t);
    case Exchange(_) => SameEvents(c, CommonStep(c, l).value, |c.threads|);
    case Complete(_) => SameEvents(c, CommonStep(c, l).value, |c.threads|);
    case _ =>
  }

  lemma StepKeepsOwned(s: E.State, l: Label)
    requires Owned(s.core) && E.Step(s, l).Some?
    ensures Owned(E.Step(s, l).value.core)
  {
    if CommonStep(s.core, l).Some? { CommonKeepsOwned(s.core, l); }
    else { SameEvents(s.core, E.Step(s, l).value.core, l.thread); }
  }

  /** No vendor event exists yet and no call is running. */
  predicate NoEvents(c: Core) {
    AllIdle(c.threads) && c.device.events == []
  }

  lemma {:induction false} AlwaysOwned(s: E.State, ls: seq<Label>)
    requires NoEvents(s.core) && E.Run(s, ls).Some?
    ensures Owned(E.Run(s, ls).value.core)
    ensures E.Run(s, ls).value.core.symbols == s.core.symbols
  {
    if ls != [] {
      AlwaysOwned(s, ls[..|ls| - 1]);
      StepKeepsOwned(E.Run(s, ls[..|ls| - 1]).value, ls[|ls| - 1]);
      StepKeepsSymbols(E.Run(s, ls[..|ls| - 1]).value, ls[|ls| - 1]);
    }
  }

  lemma StepKeepsSymbols(s: E.State, l: Label)
    requires E.Step(s, l).Some?
    ensures E.Step(s, l).value.core.symbols == s.core.symbols
  {
  }

  /** The records of events the shim created and has not released. */
  ghost function Live(c: Core): set<nat> {
    set e | 0 <= e < |c.device.events| && c.device.events[e].shim && c.device.events[e].releases == 0
  }

  /** Threads inside a boundary call, between its successful enqueue and its return. */
  ghost function BoundaryCalls(c: Core): set<Thread> {
    set t | 0 <= t < |c.threads| && (c.threads[t].Waiting? || c.threads[t].Recording? || c.threads[t].Releasing?)
  }

  /** The record each thread holds, or one past the last when it holds none. */
  function HeldRecords(c: Core): seq<nat> {
    seq(|c.threads|, t requires 0 <= t < |c.threads| =>
      if HeldEvent(c.threads[t]) == 0 then |c.device.events| else HeldEvent(c.threads[t]) - 1)
  }

  /** With resolved symbols the live shim events are no more than the boundary calls in flight. */
  lemma LiveEventsAreHeld(c: Core)
    requires Owned(c) && Resolved(c)
    ensures |Live(c)| <= |BoundaryCalls(c)|
  {
    forall e | e in Live(c) ensures exists t :: t in BoundaryCalls(c) && HeldRecords(c)[t] == e {
      assert !Settled(c, c.device.events[e]);
      var t :| 0 <= t < |c.threads| && HeldEvent(c.threads[t]) == e + 1;
      assert t in BoundaryCalls(c) && HeldRecords(c)[t] == e;
    }
    SurjectionIsLarger(BoundaryCalls(c), HeldRecords(c), Live(c));
  }

  /** Every value is an element at one of the indexes. */
  lemma {:induction false} SurjectionIsLarger(indexes: set<nat>, s: seq<nat>, values: set<nat>)
    requires forall t | t in indexes :: t < |s|
    requires forall e | e in values :: exists t :: t in indexes && s[t] == e
    ensures |values| <= |indexes|
  {
    if values != {} {
      var e :| e in values;
      var t :| t in indexes && s[t] == e;
      forall x | x in values - {e} ensures exists u :: u in indexes - {t} && s[u] == x {
        var u :| u in indexes && s[u] == x;
        assert u in indexes - {t};
      }
      SurjectionIsLarger(indexes - {t}, s, values - {e});
    }
  }

  /** Over all runs: every event the shim made is waited on once and then released once, unless it is
      still held or the symbols were missing; a caller's event is never released. At quiescence with
      resolved symbols nothing the shim created is left. */
  lemma EventsAreOwned(s: E.State, ls: seq<Label>, final: E.State)
    requires NoEvents(s.core) && E.Run(s, ls) == Some(final)
    ensures forall e | 0 <= e < |final.core.device.events| && !final.core.device.events[e].shim ::
              final.core.device.events[e].releases == 0 && final.core.device.events[e].waits <= 1
    ensures forall e | 0 <= e < |final.core.device.events| ::
              final.core.device.events[e].releases <= final.core.device.events[e].waits <= 1
    ensures Resolved(s.core) ==> |Live(final.core)| <= |BoundaryCalls(final.core)|
    ensures Resolved(s.core) && AllIdle(final.core.threads) ==>
              forall e | 0 <= e < |final.core.device.events| && final.core.device.events[e].shim ::
                final.core.device.events[e].waits == 1 && final.core.device.events[e].releases == 1
  {
    AlwaysOwned(s, ls);
    OwnedFacts(final.core);
    if Resolved(s.core) { LiveEventsAreHeld(final.core); }
  }

  lemma OwnedFacts(c: Core)
    requires Owned(c)
    ensures forall e | 0 <= e < |c.device.events| && !c.device.events[e].shim ::
              c.device.events[e].releases == 0 && c.device.events[e].waits <= 1
    ensures forall e | 0 <= e < |c.device.events| ::
              c.device.events[e].releases <= c.device.events[e].waits <= 1
    ensures Resolved(c) && AllIdle(c.threads) ==>
              forall e | 0 <= e < |c.device.events| && c.device.events[e].shim ::
                c.device.events[e].waits == 1 && c.device.events[e].releases == 1
  {
    forall e | 0 <= e < |c.device.events|
      ensures c.device.events[e].releases <= c.device.events[e].waits <= 1
      ensures !c.device.events[e].shim ==> c.device.events[e].releases == 0
      ensures Resolved(c) && AllIdle(c.threads) && c.device.events[e].shim ==>
                c.device.events[e].waits == 1 && c.device.events[e].releases == 1
    {
      if !Settled(c, c.device.events[e]) {
        var t :| 0 <= t < |c.threads| && HeldEvent(c.threads[t]) == e + 1;
        assert HoldsProperly(c, c.threads[t]);
      }
    }
  }

  /** The same for every run of the production shim. */
  lemma ProductionEventsAreOwned(c: Core, ls: seq<Label>, final: Core)
    requires NoEvents(c) && P.Run(c, ls) == Some(final)
    ensures Owned(final) && final.symbols == c.symbols
    ensures Resolved(c) ==> |Live(final)| <= |BoundaryCalls(final)|
  {
    var s := E.State(c, 1, Cleared(), []);
    ShimEquivalence.ProductionRefinesExperimental(s, ls);
    AlwaysOwned(s, ShimEquivalence.ExpandAll(ls));
    if Resolved(c) { LiveEventsAreHeld(final); }
  }
}
