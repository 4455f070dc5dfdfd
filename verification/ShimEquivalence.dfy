/** The production shim and the experimental shim with window 1 simulate each other: the same runs
    up to the table's own steps, hence the same vendor calls, statuses, counters and device. */
module ShimEquivalence {
  import opened ShimCore
  import E = ExperimentalShim
  import P = ProductionShim
  import opened Wrappers

  /** A thread inside the table's critical section is, for production, already past it. */
  function Hide(pc: Pc): Pc {
    match pc
    case Ticking(call) => Submitting(call, true, true)
    case Clearing => Idle
    case _ => pc
  }

  function HideAll(threads: seq<Pc>): seq<Pc> {
    seq(|threads|, i requires 0 <= i < |threads| => Hide(threads[i]))
  }

  function Abstract(c: Core): Core {
    c.(threads := HideAll(c.threads))
  }

  /** The production run that an experimental run shows: without the table's steps. */
  function Erase(ls: seq<Label>): seq<Label> {
    if ls == [] then []
    else
      var l := ls[|ls| - 1];
      Erase(ls[..|ls| - 1]) + if l.Tick? || l.Clear? then [] else [l]
  }

  /** The experimental run that a production run comes from. */
  function Expand(l: Label): seq<Label> {
    match l
    case Bump(t) => [l, Tick(t)]
    case Zero(t, MaximumCell) => [l, Clear(t)]
    case _ => [l]
  }

  function ExpandAll(ls: seq<Label>): seq<Label> {
    if ls == [] then [] else ExpandAll(ls[..|ls| - 1]) + Expand(ls[|ls| - 1])
  }

  lemma HideUpdate(threads: seq<Pc>, t: Thread, pc: Pc)
    requires t < |threads|
    ensures HideAll(threads[t := pc]) == HideAll(threads)[t := Hide(pc)]
  {
  }

  lemma {:induction false} HideKeepsInFlight(threads: seq<Pc>)
    ensures InFlight(HideAll(threads)) == InFlight(threads)
  {
    if threads != [] {
      HideKeepsInFlight(threads[..|threads| - 1]);
      assert HideAll(threads)[..|threads| - 1] == HideAll(threads[..|threads| - 1]);
    }
  }

  /** A step of one thread, from a place both shims have, looks the same when other threads are hidden. */
  lemma ThreadStepCommutes(c: Core, t: Thread, threads': seq<Pc>)
    requires t < |c.threads| && |threads'| == |c.threads| && threads' == c.threads[t := threads'[t]]
    ensures HideAll(threads') == HideAll(c.threads)[t := Hide(threads'[t])]
    ensures HideAll(c.threads)[t] == Hide(c.threads[t])
  {
    HideUpdate(c.threads, t, threads'[t]);
  }

  lemma CommonStepCommutes(c: Core, l: Label)
    requires CommonStep(c, l).Some?
    ensures CommonStep(Abstract(c), l) == Some(Abstract(CommonStep(c, l).value))
  {
    if l.Enqueue? {
      EnqueueCommutes(c, l.thread, l.status, l.returned);
    } else if l.Wait? {
      WaitCommutes(c, l);
    } else if l.Record? {
      RecordCommutes(c, l.thread, l.spurious);
    } else if l.Enter? || l.Release? || l.Reset? {
      ThreadStepCommutes(c, l.thread, CommonStep(c, l).value.threads);
    }
  }

  lemma EnqueueCommutes(c: Core, t: Thread, status: int, returned: bool)
    requires EnqueueStep(c, t, status, returned).Some?
    ensures EnqueueStep(Abstract(c), t, status, returned) == Some(Abstract(EnqueueStep(c, t, status, returned).value))
  {
    ThreadStepCommutes(c, t, EnqueueStep(c, t, status, returned).value.threads);
  }

  lemma WaitCommutes(c: Core, l: Label)
    requires l.Wait? && CommonStep(c, l).Some?
    ensures CommonStep(Abstract(c), l) == Some(Abstract(CommonStep(c, l).value))
  {
    ThreadStepCommutes(c, l.thread, CommonStep(c, l).value.threads);
  }

  lemma RecordCommutes(c: Core, t: Thread, spurious: bool)
    requires RecordStep(c, t, spurious).Some?
    ensures RecordStep(Abstract(c), t, spurious) == Some(Abstract(RecordStep(c, t, spurious).value))
  {
    ThreadStepCommutes(c, t, RecordStep(c, t, spurious).value.threads);
  }

  lemma ZeroStepCommutes(c: Core, t: Thread, cell: Cell)
    requires ZeroStep(c, t, cell, Clearing).Some?
    ensures ZeroStep(Abstract(c), t, cell, Idle) == Some(Abstract(ZeroStep(c, t, cell, Clearing).value))
  {
    var c' := ZeroStep(c, t, cell, Clearing).value;
    HideUpdate(c.threads, t, c'.threads[t]);
    HideKeepsInFlight(c.threads);
  }

  lemma ExperimentalStepIsProductionStep(s: E.State, l: Label)
    requires s.window == 1 && E.Step(s, l).Some?
    ensures E.Step(s, l).value.window == 1
    ensures if l.Tick? || l.Clear? then Abstract(E.Step(s, l).value.core) == Abstract(s.core)
            else P.Step(Abstract(s.core), l) == Some(Abstract(E.Step(s, l).value.core))
  {
    var s' := E.Step(s, l).value;
    match l
    case Tick(t) => HideUpdate(s.core.threads, t, s'.core.threads[t]);
    case Clear(t) => HideUpdate(s.core.threads, t, s'.core.threads[t]);
    case LoadFlag(t) => HideUpdate(s.core.threads, t, s'.core.threads[t]);
    case Bump(t) => HideUpdate(s.core.threads, t, s'.core.threads[t]);
    case Zero(t, cell) => ZeroStepCommutes(s.core, t, cell);
    case _ => CommonStepCommutes(s.core, l);
  }

  /** Every run of the experimental shim with window 1, over any number of queues and whatever the
      table evicts, is a run of the production shim with the same observations and counters. */
  lemma {:induction false} ExperimentalRefinesProduction(s: E.State, ls: seq<Label>)
    requires s.window == 1 && E.Run(s, ls).Some?
    ensures P.Run(Abstract(s.core), Erase(ls)) == Some(Abstract(E.Run(s, ls).value.core))
    ensures E.Run(s, ls).value.window == 1
  {
    if ls != [] {
      var before, l := ls[..|ls| - 1], ls[|ls| - 1];
      ExperimentalRefinesProduction(s, before);
      ExperimentalStepIsProductionStep(E.Run(s, before).value, l);
      if l.Tick? || l.Clear? {
        assert Erase(ls) == Erase(before);
      } else {
        assert Erase(ls)[..|Erase(ls)| - 1] == Erase(before);
      }
    }
  }

  lemma ProductionStepIsExperimentalSteps(s: E.State, l: Label, c': Core) returns (s': E.State)
    requires s.window == 1 && P.Step(s.core, l) == Some(c')
    ensures E.Run(s, Expand(l)) == Some(s') && s'.core == c' && s'.window == 1
  {
    var first := E.Step(s, l);
    assert [l][..0] == [];
    assert E.Run(s, [l]) == first;
    if |Expand(l)| == 1 {
      s' := first.value;
    } else {
      var t, second := l.thread, Expand(l)[1];
      assert [l, second][..1] == [l];
      assert first.value.core.threads[t := c'.threads[t]] == c'.threads;
      s' := E.Step(first.value, second).value;
    }
  }

  /** Every run of the production shim comes from a run of the experimental shim with window 1 that
      ends in the very same shared state, and erasing that run gives the production run back. */
  lemma ProductionRefinesExperimental(s: E.State, ls: seq<Label>)
    requires s.window == 1 && P.Run(s.core, ls).Some?
    ensures E.Run(s, ExpandAll(ls)).Some?
    ensures E.Run(s, ExpandAll(ls)).value.core == P.Run(s.core, ls).value
    ensures E.Run(s, ExpandAll(ls)).value.window == 1
    ensures Erase(ExpandAll(ls)) == ls
  {
    var e := ExpandedRun(s, ls, P.Run(s.core, ls).value);
    ErasingProduction(s.core, ls);
    ErasingExpanded(ls);
  }

  lemma {:induction false} ExpandedRun(s: E.State, ls: seq<Label>, final: Core) returns (e: E.State)
    requires s.window == 1 && P.Run(s.core, ls) == Some(final)
    ensures E.Run(s, ExpandAll(ls)) == Some(e) && e.core == final && e.window == 1
  {
    if ls == [] {
      e := s;
    } else {
      var before, l := ls[..|ls| - 1], ls[|ls| - 1];
      var m := ExpandedRun(s, before, P.Run(s.core, before).value);
      e := ProductionStepIsExperimentalSteps(m, l, final);
      E.RunsCompose(s, ExpandAll(before), Expand(l));
    }
  }

  lemma {:induction false} ErasingProduction(c: Core, ls: seq<Label>)
    requires P.Run(c, ls).Some?
    ensures Erase(ls) == ls
  {
    if ls != [] {
      ErasingProduction(c, ls[..|ls| - 1]);
      assert ls == ls[..|ls| - 1] + [ls[|ls| - 1]];
    }
  }

  lemma {:induction false} ErasingExpanded(ls: seq<Label>)
    ensures Erase(ExpandAll(ls)) == Erase(ls)
  {
    if ls != [] {
      ErasingExpanded(ls[..|ls| - 1]);
      EraseExpanded(ExpandAll(ls[..|ls| - 1]), ls[|ls| - 1]);
    }
  }

  lemma EraseExpanded(before: seq<Label>, l: Label)
    ensures Erase(before + Expand(l)) == Erase(before) + if l.Tick? || l.Clear? then [] else [l]
  {
    var once := before + [l];
    assert once[..|once| - 1] == before;
    if |Expand(l)| == 2 {
      var twice := before + Expand(l);
      assert twice[..|twice| - 1] == once;
    }
  }

  /** What any two runs matched this way show the outside world. */
  ghost predicate SameOutside(e: E.State, p: Core) {
    e.core.trace == p.trace && e.core.memory == p.memory && e.core.device == p.device
  }

  /** Each shim can do exactly what the other can, seen from the vendor library and the callers. */
  lemma ShimsAreEquivalent(s: E.State)
    requires s.window == 1 && AllIdle(s.core.threads)
    ensures forall ls | E.Run(s, ls).Some? ::
              P.Run(s.core, Erase(ls)).Some? && SameOutside(E.Run(s, ls).value, P.Run(s.core, Erase(ls)).value)
    ensures forall ls | P.Run(s.core, ls).Some? ::
              E.Run(s, ExpandAll(ls)).Some? && SameOutside(E.Run(s, ExpandAll(ls)).value, P.Run(s.core, ls).value)
  {
    assert HideAll(s.core.threads) == s.core.threads;
    forall ls | E.Run(s, ls).Some?
      ensures P.Run(s.core, Erase(ls)).Some? && SameOutside(E.Run(s, ls).value, P.Run(s.core, Erase(ls)).value)
    {
      ExperimentalRefinesProduction(s, ls);
    }
    forall ls | P.Run(s.core, ls).Some?
      ensures E.Run(s, ExpandAll(ls)).Some? && SameOutside(E.Run(s, ExpandAll(ls)).value, P.Run(s.core, ls).value)
    {
      ProductionRefinesExperimental(s, ls);
    }
  }
}
