/** The running maximum and total of the wait durations, under any interleaving of record_wait. */
module WaitMaximum {
  import opened QueueTable
  import opened ShimCore
  import E = ExperimentalShim
  import P = ProductionShim
  import ShimEquivalence
  import opened Wrappers

  /** The thread has counted its wait but not settled this duration yet. */
  predicate Unsettled(pc: Pc, ns: nat) {
    pc.Recording? && !pc.todo.AddWait? && pc.todo.ns == ns
  }

  function PendingTotal(threads: seq<Pc>): nat {
    if threads == [] then 0
    else
      var pc := threads[|threads| - 1];
      PendingTotal(threads[..|threads| - 1]) + if pc.Recording? && pc.todo.AddTotal? then pc.todo.ns else 0
  }

  function Sum(durations: seq<nat>): nat {
    if durations == [] then 0 else Sum(durations[..|durations| - 1]) + durations[|durations| - 1]
  }

  /** Since a moment when `from` waits had been recorded and the cells were zero: the maximum is 0 or a
      recorded duration; every recorded duration is at most the maximum or not settled yet; a racing
      thread saw an older maximum below its own duration; the total lacks only what is pending. */
  ghost predicate Settling(c: Core, from: nat) {
    && from <= |c.history.recorded|
    && (c.memory.maxNs == 0 || c.memory.maxNs in c.history.recorded[from..])
    && (forall k | from <= k < |c.history.recorded| ::
          c.history.recorded[k] <= c.memory.maxNs
          || exists t :: 0 <= t < |c.threads| && Unsettled(c.threads[t], c.history.recorded[k]))
    && (forall t | 0 <= t < |c.threads| :: ThreadSettles(c, from, c.threads[t]))
    && c.memory.totalNs + PendingTotal(c.threads) == Sum(c.history.recorded[from..])
  }

  ghost predicate ThreadSettles(c: Core, from: nat, pc: Pc)
    requires from <= |c.history.recorded|
  {
    pc.Recording? && !pc.todo.AddWait? ==>
      && pc.todo.ns in c.history.recorded[from..]
      && (pc.todo.Race? ==> pc.todo.seen < pc.todo.ns && pc.todo.seen <= c.memory.maxNs)
  }

  function PendingOf(pc: Pc): nat {
    if pc.Recording? && pc.todo.AddTotal? then pc.todo.ns else 0
  }

  lemma {:induction false} PendingUpdate(threads: seq<Pc>, t: Thread, pc: Pc)
    requires t < |threads|
    ensures PendingTotal(threads[t := pc]) == PendingTotal(threads) - PendingOf(threads[t]) + PendingOf(pc)
    ensures PendingTotal(threads) >= PendingOf(threads[t])
  {
    var n := |threads| - 1;
    if t == n {
      assert threads[t := pc][..n] == threads[..n];
    } else {
      PendingUpdate(threads[..n], t, pc);
      assert threads[t := pc][..n] == threads[..n][t := pc];
    }
  }

  lemma {:induction false} IdlePendsNothing(threads: seq<Pc>)
    requires AllIdle(threads)
    ensures PendingTotal(threads) == 0
  {
    if threads != [] { IdlePendsNothing(threads[..|threads| - 1]); }
  }

  /** A step that touches neither the recorded durations nor the two cells, by a thread that was not
      settling and is not settling after. */
  lemma StillSettling(c: Core, c': Core, t: Thread, from: nat)
    requires Settling(c, from) && c'.history.recorded == c.history.recorded
    requires c'.memory.maxNs == c.memory.maxNs && c'.memory.totalNs == c.memory.totalNs
    requires |c'.threads| == |c.threads|
    requires c'.threads == if t < |c.threads| then c.threads[t := c'.threads[t]] else c.threads
    requires t < |c.threads| ==>
               (c.threads[t].Recording? ==> c.threads[t].todo.AddWait?)
               && (c'.threads[t].Recording? ==> c'.threads[t].todo.AddWait?)
    ensures Settling(c', from)
  {
    if t < |c.threads| { PendingUpdate(c.threads, t, c'.threads[t]); }
    forall k | from <= k < |c.history.recorded| && c.history.recorded[k] > c.memory.maxNs
      ensures exists u :: 0 <= u < |c'.threads| && Unsettled(c'.threads[u], c.history.recorded[k])
    {
      var u :| 0 <= u < |c.threads| && Unsettled(c.threads[u], c.history.recorded[k]);
      assert Unsettled(c'.threads[u], c.history.recorded[k]);
    }
  }

  lemma SumOne(durations: seq<nat>, ns: nat)
    ensures Sum(durations + [ns]) == Sum(durations) + ns
  {
    assert (durations + [ns])[..|durations|] == durations;
  }

  /** Another thread's settling survives when this thread keeps its own duration or settles it. */
  lemma OthersStillUnsettled(c: Core, c': Core, t: Thread, from: nat, settled: bool)
    requires Settling(c, from) && t < |c.threads| == |c'.threads| && c'.threads == c.threads[t := c'.threads[t]]
    requires c.memory.maxNs <= c'.memory.maxNs && c'.history.recorded == c.history.recorded
    requires c.threads[t].Recording? && !c.threads[t].todo.AddWait?
    requires settled ==> c.threads[t].todo.ns <= c'.memory.maxNs
    requires !settled ==> Unsettled(c'.threads[t], c.threads[t].todo.ns)
    ensures forall k | from <= k < |c'.history.recorded| ::
              c'.history.recorded[k] <= c'.memory.maxNs
              || exists u :: 0 <= u < |c'.threads| && Unsettled(c'.threads[u], c'.history.recorded[k])
  {
    forall k | from <= k < |c.history.recorded| && c.history.recorded[k] > c'.memory.maxNs
      ensures exists u :: 0 <= u < |c'.threads| && Unsettled(c'.threads[u], c.history.recorded[k])
    {
      var u :| 0 <= u < |c.threads| && Unsettled(c.threads[u], c.history.recorded[k]);
      assert Unsettled(c'.threads[u], c.history.recorded[k]);
    }
  }

  lemma AddWaitSettles(c: Core, t: Thread, spurious: bool, from: nat)
    requires Settling(c, from) && RecordStep(c, t, spurious).Some? && c.threads[t].todo.AddWait?
    ensures Settling(RecordStep(c, t, spurious).value, from)
  {
    hide Sum, PendingTotal;
    var c', ns := RecordStep(c, t, spurious).value, c.threads[t].todo.ns;
    var before, after := c.history.recorded, c'.history.recorded;
    PendingUpdate(c.threads, t, c'.threads[t]);
    SumOne(before[from..], ns);
    assert after[from..] == before[from..] + [ns];
    assert forall x | x in before[from..] :: x in after[from..];
    forall k | from <= k < |after| && after[k] > c'.memory.maxNs
      ensures exists u :: 0 <= u < |c'.threads| && Unsettled(c'.threads[u], after[k])
    {
      if k < |before| {
        var u :| 0 <= u < |c.threads| && Unsettled(c.threads[u], before[k]);
        assert Unsettled(c'.threads[u], after[k]);
      } else {
        assert Unsettled(c'.threads[t], after[k]);
      }
    }
    forall u | 0 <= u < |c'.threads| ensures ThreadSettles(c', from, c'.threads[u]) {
      if u != t { assert ThreadSettles(c, from, c.threads[u]); }
    }
  }

  lemma AddTotalSettles(c: Core, t: Thread, spurious: bool, from: nat)
    requires Settling(c, from) && RecordStep(c, t, spurious).Some? && c.threads[t].todo.AddTotal?
    ensures Settling(RecordStep(c, t, spurious).value, from)
  {
    var c' := RecordStep(c, t, spurious).value;
    PendingUpdate(c.threads, t, c'.threads[t]);
    OthersStillUnsettled(c, c', t, from, false);
    assert ThreadSettles(c, from, c.threads[t]);
  }

  /** Loading the maximum or trying to swap it: the thread is done once the maximum covers its duration. */
  lemma RaceEffect(c: Core, t: Thread, spurious: bool, c': Core)
    requires RecordStep(c, t, spurious) == Some(c')
    requires var todo := c.threads[t].todo; todo.LoadMax? || (todo.Race? && todo.seen < todo.ns)
    ensures c'.threads == c.threads[t := c'.threads[t]] && c'.history == c.history
    ensures c'.memory.totalNs == c.memory.totalNs
    ensures var ns := c.threads[t].todo.ns;
            && (c'.memory.maxNs == c.memory.maxNs || (c'.memory.maxNs == ns && c.memory.maxNs < ns))
            && if c'.threads[t].Recording?
               then c'.threads[t].todo == Race(ns, c.memory.maxNs) && c.memory.maxNs < ns
               else ns <= c'.memory.maxNs
  {
  }

  lemma RaceSettles(c: Core, t: Thread, spurious: bool, from: nat)
    requires Settling(c, from) && RecordStep(c, t, spurious).Some?
    requires c.threads[t].todo.LoadMax? || c.threads[t].todo.Race?
    ensures Settling(RecordStep(c, t, spurious).value, from)
    ensures RecordStep(c, t, spurious).value.memory.maxNs >= c.memory.maxNs
  {
    var c' := RecordStep(c, t, spurious).value;
    assert ThreadSettles(c, from, c.threads[t]);
    RaceEffect(c, t, spurious, c');
    PendingUpdate(c.threads, t, c'.threads[t]);
    OthersStillUnsettled(c, c', t, from, !c'.threads[t].Recording?);
  }

  /** Whatever a step is, short of a reset's zeroing, it keeps the invariant. */
  lemma StepKeepsSettling(s: E.State, l: Label, from: nat)
    requires Settling(s.core, from) && E.Step(s, l).Some? && !l.Zero?
    ensures Settling(E.Step(s, l).value.core, from)
  {
    var c, c' := s.core, E.Step(s, l).value.core;
    if l.Record? {
      if c.threads[l.thread].todo.AddWait? { AddWaitSettles(c, l.thread, l.spurious, from); }
      else if c.threads[l.thread].todo.AddTotal? { AddTotalSettles(c, l.thread, l.spurious, from); }
      else { RaceSettles(c, l.thread, l.spurious, from); }
    } else {
      OtherStepSettles(s, l, from);
    }
  }

  lemma OtherStepSettles(s: E.State, l: Label, from: nat)
    requires Settling(s.core, from) && E.Step(s, l).Some? && !l.Zero? && !l.Record?
    ensures Settling(E.Step(s, l).value.core, from)
  {
    if CommonStep(s.core, l).Some? {
      CommonStepSettles(s.core, l, from);
    } else {
      StillSettling(s.core, E.Step(s, l).value.core, l.thread, from);
    }
  }

  lemma CommonStepSettles(c: Core, l: Label, from: nat)
    requires Settling(c, from) && CommonStep(c, l).Some? && !l.Record?
    ensures Settling(CommonStep(c, l).value, from)
  {
    match l
    case Enqueue(t, status, returned) => EnqueueStillSettling(c, t, status, returned, from);
    case Wait(t, _, _, _) => StillSettling(c, CommonStep(c, l).value, t, from);
    case Enter(t, _) => StillSettling(c, CommonStep(c, l).value, t, from);
    case Release(t, _) => StillSettling(c, CommonStep(c, l).value, t, from);
    case Reset(t) => StillSettling(c, CommonStep(c, l).value, t, from);
    case Exchange(_) => StillSettling(c, CommonStep(c, l).value, |c.threads|, from);
    case Complete(_) => StillSettling(c, CommonStep(c, l).value, |c.threads|, from);
    case _ =>
  }

  lemma EnqueueStillSettling(c: Core, t: Thread, status: int, returned: bool, from: nat)
    requires Settling(c, from) && EnqueueStep(c, t, status, returned).Some?
    ensures Settling(EnqueueStep(c, t, status, returned).value, from)
  {
    StillSettling(c, EnqueueStep(c, t, status, returned).value, t, from);
  }

  predicate NeverZeroes(ls: seq<Label>) {
    forall l | l in ls :: !l.Zero?
  }

  /** After a quiescent reset, or at the start: no thread inside a call and both cells zero. */
  predicate Quiet(c: Core) {
    AllIdle(c.threads) && c.memory.maxNs == 0 && c.memory.totalNs == 0
  }

  lemma {:induction false} AlwaysSettling(s: E.State, ls: seq<Label>)
    requires Quiet(s.core) && E.Run(s, ls).Some? && NeverZeroes(ls)
    ensures Settling(E.Run(s, ls).value.core, |s.core.history.recorded|)
  {
    if ls == [] {
      IdlePendsNothing(s.core.threads);
    } else {
      var before, l := ls[..|ls| - 1], ls[|ls| - 1];
      AlwaysSettling(s, before);
      StepKeepsSettling(E.Run(s, before).value, l, |s.core.history.recorded|);
    }
  }

  /** The durations recorded by a run that started with `from` recorded ones. */
  function RecordedSince(c: Core, from: nat): seq<nat>
    requires from <= |c.history.recorded|
  {
    c.history.recorded[from..]
  }

  /** At quiescence the maximum is the true maximum and the total the true sum of the durations
      recorded since the cells were zero. */
  lemma QuiescentMaximum(s: E.State, ls: seq<Label>, final: E.State)
    requires Quiet(s.core) && E.Run(s, ls) == Some(final) && NeverZeroes(ls) && AllIdle(final.core.threads)
    ensures |s.core.history.recorded| <= |final.core.history.recorded|
    ensures var durations := RecordedSince(final.core, |s.core.history.recorded|);
            && (forall ns | ns in durations :: ns <= final.core.memory.maxNs)
            && (if durations == [] then final.core.memory.maxNs == 0 else final.core.memory.maxNs in durations)
            && final.core.memory.totalNs == Sum(durations)
  {
    AlwaysSettling(s, ls);
    SettledMaximum(final.core, |s.core.history.recorded|);
  }

  lemma SettledMaximum(c: Core, from: nat)
    requires Settling(c, from) && AllIdle(c.threads)
    ensures var durations := RecordedSince(c, from);
            && (forall ns | ns in durations :: ns <= c.memory.maxNs)
            && (if durations == [] then c.memory.maxNs == 0 else c.memory.maxNs in durations)
            && c.memory.totalNs == Sum(durations)
  {
    IdlePendsNothing(c.threads);
    var durations := RecordedSince(c, from);
    forall ns | ns in durations ensures ns <= c.memory.maxNs {
      var k :| 0 <= k < |durations| && durations[k] == ns;
      assert c.history.recorded[from + k] == ns;
    }
    if durations != [] { assert durations[0] in durations; }
  }

  lemma StepKeepsMaximum(s: E.State, l: Label, from: nat)
    requires Settling(s.core, from) && E.Step(s, l).Some? && !l.Zero?
    ensures E.Step(s, l).value.core.memory.maxNs >= s.core.memory.maxNs
  {
    if l.Record? {
      assert ThreadSettles(s.core, from, s.core.threads[l.thread]);
    }
  }

  /** Between resets the maximum never decreases, from any moment of a run to any later one. */
  lemma {:induction false} MaximumNeverDecreases(s: E.State, ls: seq<Label>, more: seq<Label>, m: E.State, final: E.State)
    requires Quiet(s.core) && NeverZeroes(ls + more)
    requires E.Run(s, ls) == Some(m) && E.Run(s, ls + more) == Some(final)
    ensures final.core.memory.maxNs >= m.core.memory.maxNs
    decreases more
  {
    hide E.Run, E.Step, Settling, Quiet;
    if more == [] {
      assert ls + more == ls;
    } else {
      var all, l := ls + more, more[|more| - 1];
      var before := ls + more[..|more| - 1];
      assert all[..|all| - 1] == before && all[|all| - 1] == l;
      E.LastStep(s, all);
      MaximumNeverDecreases(s, ls, more[..|more| - 1], m, E.Run(s, before).value);
      AlwaysSettling(s, before);
      StepKeepsMaximum(E.Run(s, before).value, l, |s.core.history.recorded|);
    }
  }

  /** At any moment of a run, a compare-and-swap that fails because the maximum moved leaves less to race
      for: the thread is done with the race, or the gap to its duration is strictly smaller. */
  lemma GenuineFailureMakesProgress(s: E.State, ls: seq<Label>, final: E.State, t: Thread, spurious: bool)
    requires Quiet(s.core) && E.Run(s, ls) == Some(final) && NeverZeroes(ls)
    requires t < |final.core.threads| && final.core.threads[t].Recording? && final.core.threads[t].todo.Race?
    requires final.core.memory.maxNs != final.core.threads[t].todo.seen
    ensures RecordStep(final.core, t, spurious).Some?
    ensures var todo, pc := final.core.threads[t].todo, RecordStep(final.core, t, spurious).value.threads[t];
            pc.Recording? ==> pc.todo.Race? && pc.todo.ns == todo.ns && pc.todo.ns - pc.todo.seen < todo.ns - todo.seen
  {
    hide E.Run;
    AlwaysSettling(s, ls);
    assert ThreadSettles(final.core, |s.core.history.recorded|, final.core.threads[t]);
  }

  /** The production shim inherits both: its runs are runs of the experimental shim. */
  lemma ProductionMaximum(c: Core, ls: seq<Label>, final: Core)
    requires Quiet(c) && P.Run(c, ls) == Some(final) && NeverZeroes(ls)
    ensures Settling(final, |c.history.recorded|)
  {
    var s := E.State(c, 1, Cleared(), []);
    ShimEquivalence.ProductionRefinesExperimental(s, ls);
    ExpandNeverZeroes(ls);
    AlwaysSettling(s, ShimEquivalence.ExpandAll(ls));
  }

  lemma {:induction false} ExpandNeverZeroes(ls: seq<Label>)
    requires NeverZeroes(ls)
    ensures NeverZeroes(ShimEquivalence.ExpandAll(ls))
  {
    if ls != [] {
      ExpandNeverZeroes(ls[..|ls| - 1]);
      assert ls[|ls| - 1] in ls;
    }
  }
}
