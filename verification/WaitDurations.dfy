/** Where the recorded durations come from: each is the difference of the two clock readings around one
    wait, and at quiescence none is missing. */
module WaitDurations {
  import opened QueueTable
  import opened ShimCore
  import opened WaitMaximum
  import E = ExperimentalShim
  import P = ProductionShim
  import ShimEquivalence
  import opened Wrappers

  /** How long the waits of a run took by their clock readings, where the clock did not go backwards. */
  function Durations(ls: seq<Label>): seq<nat> {
    if ls == [] then [] else Durations(ls[..|ls| - 1]) + DurationOf(ls[|ls| - 1])
  }

  /** A wait of this length. */
  predicate Took(l: Label, ns: nat) {
    l.Wait? && l.started <= l.ended && l.ended - l.started == ns
  }

  function DurationOf(l: Label): seq<nat> {
    if l.Wait? && l.started <= l.ended then [l.ended - l.started] else []
  }

  /** Durations that are measured and not recorded yet. */
  function Measured(threads: seq<Pc>): multiset<nat> {
    if threads == [] then multiset{} else Measured(threads[..|threads| - 1]) + MeasuredBy(threads[|threads| - 1])
  }

  function MeasuredBy(pc: Pc): multiset<nat> {
    if pc.Recording? && pc.todo.AddWait? then multiset{pc.todo.ns} else multiset{}
  }

  lemma {:induction false} MeasuredUpdate(threads: seq<Pc>, t: Thread, pc: Pc)
    requires t < |threads|
    ensures Measured(threads[t := pc]) + MeasuredBy(threads[t]) == Measured(threads) + MeasuredBy(pc)
  {
    hide MeasuredBy;
    var n, more := |threads| - 1, threads[t := pc];
    if t == n {
      assert more[..n] == threads[..n];
    } else {
      MeasuredUpdate(threads[..n], t, pc);
      assert more[..n] == threads[..n][t := pc] && more[n] == threads[n];
      Swapped(Measured(more[..n]), MeasuredBy(threads[t]), Measured(threads[..n]), MeasuredBy(pc), MeasuredBy(more[n]));
    }
  }

  lemma Swapped(a: multiset<nat>, b: multiset<nat>, c: multiset<nat>, d: multiset<nat>, last: multiset<nat>)
    requires a + b == c + d
    ensures a + last + b == c + last + d
  {
    assert a + last + b == a + b + last && c + last + d == c + d + last;
  }

  lemma {:induction false} IdleMeasuresNothing(threads: seq<Pc>)
    requires AllIdle(threads)
    ensures Measured(threads) == multiset{}
  {
    if threads != [] { IdleMeasuresNothing(threads[..|threads| - 1]); }
  }

  /** What was recorded since some moment, and what is measured and still to be recorded. */
  ghost predicate Accounts(c: Core, from: nat, durations: multiset<nat>) {
    from <= |c.history.recorded| && multiset(c.history.recorded[from..]) + Measured(c.threads) == durations
  }

  /** A step by one thread that records nothing. */
  lemma NothingRecorded(c: Core, c': Core, t: Thread, from: nat, durations: multiset<nat>, more: multiset<nat>)
    requires Accounts(c, from, durations) && c'.history.recorded == c.history.recorded
    requires |c'.threads| == |c.threads|
    requires c'.threads == if t < |c.threads| then c.threads[t := c'.threads[t]] else c.threads
    requires if t < |c.threads| then MeasuredBy(c'.threads[t]) == MeasuredBy(c.threads[t]) + more else more == multiset{}
    ensures Accounts(c', from, durations + more)
  {
    hide Measured, MeasuredBy;
    if t < |c.threads| {
      MeasuredUpdate(c.threads, t, c'.threads[t]);
      Added(Measured(c'.threads), MeasuredBy(c.threads[t]), Measured(c.threads), more);
      assert multiset(c'.history.recorded[from..]) + (Measured(c.threads) + more) == durations + more;
    } else {
      assert durations + more == durations;
    }
  }

  lemma Added(a: multiset<nat>, b: multiset<nat>, c: multiset<nat>, more: multiset<nat>)
    requires a + b == c + (b + more)
    ensures a == c + more
  {
    assert forall ns :: a[ns] + b[ns] == (a + b)[ns] == (c + (b + more))[ns] == c[ns] + b[ns] + more[ns];
  }

  /** A wait measures its duration. */
  lemma WaitMeasures(c: Core, l: Label, from: nat, durations: multiset<nat>)
    requires Accounts(c, from, durations) && l.Wait? && WaitStep(c, l.thread, l.status, l.started, l.ended).Some?
    ensures Accounts(WaitStep(c, l.thread, l.status, l.started, l.ended).value, from, durations + multiset(DurationOf(l)))
  {
    hide Measured, Accounts;
    NothingRecorded(c, WaitStep(c, l.thread, l.status, l.started, l.ended).value, l.thread, from, durations,
                    multiset(DurationOf(l)));
  }

  /** The first store of record_wait records it. */
  lemma RecordKeepsAccounts(c: Core, t: Thread, spurious: bool, from: nat, durations: multiset<nat>)
    requires Accounts(c, from, durations) && RecordStep(c, t, spurious).Some?
    ensures Accounts(RecordStep(c, t, spurious).value, from, durations)
  {
    hide Measured;
    var c' := RecordStep(c, t, spurious).value;
    if c.threads[t].todo.AddWait? {
      AddWaitAccounts(c, t, spurious, from, durations);
    } else {
      NothingRecorded(c, c', t, from, durations, multiset{});
      assert durations + multiset{} == durations;
    }
  }

  lemma AddWaitAccounts(c: Core, t: Thread, spurious: bool, from: nat, durations: multiset<nat>)
    requires Accounts(c, from, durations) && RecordStep(c, t, spurious).Some? && c.threads[t].todo.AddWait?
    ensures Accounts(RecordStep(c, t, spurious).value, from, durations)
  {
    hide Measured;
    var c', ns := RecordStep(c, t, spurious).value, c.threads[t].todo.ns;
    MeasuredUpdate(c.threads, t, c'.threads[t]);
    assert c'.history.recorded[from..] == c.history.recorded[from..] + [ns];
    Added(Measured(c.threads), multiset{}, Measured(c'.threads), multiset{ns});
  }

  lemma CommonStepAccounts(c: Core, l: Label, from: nat, durations: multiset<nat>)
    requires Accounts(c, from, durations) && CommonStep(c, l).Some?
    ensures Accounts(CommonStep(c, l).value, from, durations + multiset(DurationOf(l)))
  {
    hide Measured, Accounts;
    var c', none := CommonStep(c, l).value, multiset(DurationOf(l));
    match l
    case Wait(_, _, _, _) => WaitMeasures(c, l, from, durations);
    case Record(t, spurious) =>
      RecordKeepsAccounts(c, t, spurious, from, durations);
      assert durations + none == durations;
    case Enqueue(t, status, returned) =>
      EnqueueRecordsNothing(c, t, status, returned, from, durations);
      assert durations + none == durations;
    case Enter(t, _) => NothingRecorded(c, c', t, from, durations, none);
    case Release(t, _) => NothingRecorded(c, c', t, from, durations, none);
    case Reset(t) => NothingRecorded(c, c', t, from, durations, none);
    case Exchange(_) => NothingRecorded(c, c', |c.threads|, from, durations, none);
    case Complete(_) => NothingRecorded(c, c', |c.threads|, from, durations, none);
    case _ =>
  }

  lemma EnqueueRecordsNothing(c: Core, t: Thread, status: int, returned: bool, from: nat, durations: multiset<nat>)
    requires Accounts(c, from, durations) && EnqueueStep(c, t, status, returned).Some?
    ensures Accounts(EnqueueStep(c, t, status, returned).value, from, durations)
  {
    hide Measured, Accounts;
    NothingRecorded(c, EnqueueStep(c, t, status, returned).value, t, from, durations, multiset{});
    assert durations + multiset{} == durations;
  }

  lemma StepAccounts(s: E.State, l: Label, from: nat, durations: multiset<nat>)
    requires Accounts(s.core, from, durations) && E.Step(s, l).Some?
    ensures Accounts(E.Step(s, l).value.core, from, durations + multiset(DurationOf(l)))
  {
    hide Measured, Accounts;
    if CommonStep(s.core, l).Some? {
      CommonStepAccounts(s.core, l, from, durations);
    } else {
      NothingRecorded(s.core, E.Step(s, l).value.core, l.thread, from, durations, multiset(DurationOf(l)));
    }
  }

  /** At every moment of every run, resets included, the recorded durations and those about to be recorded are
      just the durations of its waits. */
  lemma {:induction false} AlwaysAccounted(s: E.State, ls: seq<Label>, final: E.State)
    requires AllIdle(s.core.threads) && E.Run(s, ls) == Some(final)
    ensures Accounts(final.core, |s.core.history.recorded|, multiset(Durations(ls)))
  {
    hide E.Step, DurationOf;
    if ls == [] {
      IdleMeasuresNothing(s.core.threads);
    } else {
      var before, l := ls[..|ls| - 1], ls[|ls| - 1];
      AlwaysAccounted(s, before, E.Run(s, before).value);
      StepAccounts(E.Run(s, before).value, l, |s.core.history.recorded|, multiset(Durations(before)));
    }
  }

  /** A sum does not depend on the order. */
  lemma {:induction false} SumIsOrderless(a: seq<nat>, b: seq<nat>)
    requires multiset(a) == multiset(b)
    ensures Sum(a) == Sum(b) && |a| == |b|
    decreases |a|
  {
    assert |multiset(a)| == |a| && |multiset(b)| == |b|;
    if a != [] {
      var rest, ns := a[..|a| - 1], a[|a| - 1];
      assert a == rest + [ns];
      assert ns in multiset(b);
      var k :| 0 <= k < |b| && b[k] == ns;
      assert b == b[..k] + [ns] + b[k + 1..];
      assert multiset(a) == multiset(rest) + multiset{ns};
      assert multiset(b) == multiset(b[..k] + b[k + 1..]) + multiset{ns};
      Added(multiset(rest), multiset{ns}, multiset(b[..k] + b[k + 1..]), multiset{});
      SumIsOrderless(rest, b[..k] + b[k + 1..]);
      SumWithout(b[..k], ns, b[k + 1..]);
    }
  }

  lemma {:induction false} SumWithout(a: seq<nat>, ns: nat, b: seq<nat>)
    ensures Sum(a + [ns] + b) == Sum(a + b) + ns
    decreases b
  {
    if b == [] {
      SumOne(a, ns);
      assert a + [ns] + b == a + [ns] && a + b == a;
    } else {
      var rest, last := b[..|b| - 1], b[|b| - 1];
      SumWithout(a, ns, rest);
      SumOne(a + [ns] + rest, last);
      SumOne(a + rest, last);
      assert a + [ns] + b == a + [ns] + rest + [last] && a + b == a + rest + [last];
    }
  }

  lemma {:induction false} DurationsAre(ls: seq<Label>)
    ensures forall ns :: ns in Durations(ls) <==> exists i :: 0 <= i < |ls| && Took(ls[i], ns)
  {
    if ls != [] {
      var before, l := ls[..|ls| - 1], ls[|ls| - 1];
      DurationsAre(before);
      hide Took;
      assert forall ns :: ns in DurationOf(l) <==> Took(l, ns) by { DurationIs(l); }
      forall ns ensures ns in Durations(ls) <==> exists i :: 0 <= i < |ls| && Took(ls[i], ns) {
        if ns in Durations(before) {
          var i :| 0 <= i < |before| && Took(before[i], ns);
          assert ls[i] == before[i];
        }
        if i :| 0 <= i < |ls| && Took(ls[i], ns) {
          if i < |before| { assert before[i] == ls[i]; }
        }
      }
    }
  }

  lemma DurationIs(l: Label)
    ensures forall ns :: ns in DurationOf(l) <==> Took(l, ns)
  {
  }

  /** At quiescence the maximum is the longest time a wait took by its clock readings, and the total the sum of
      the times of all waits of the run. */
  lemma QuiescentDurations(s: E.State, ls: seq<Label>, final: E.State)
    requires Quiet(s.core) && E.Run(s, ls) == Some(final) && NeverZeroes(ls) && AllIdle(final.core.threads)
    ensures forall i, ns: nat | 0 <= i < |ls| && Took(ls[i], ns) :: ns <= final.core.memory.maxNs
    ensures final.core.memory.maxNs == 0 || exists i :: 0 <= i < |ls| && Took(ls[i], final.core.memory.maxNs)
    ensures final.core.memory.totalNs == Sum(Durations(ls))
    ensures |final.core.history.recorded| == |s.core.history.recorded| + |Durations(ls)|
  {
    hide E.Run, E.Step, Sum, Accounts, Measured, Durations, NeverZeroes, Took;
    QuiescentMaximum(s, ls, final);
    AlwaysAccounted(s, ls, final);
    AccountedAtRest(s, final, Durations(ls));
    DurationsAre(ls);
    forall i, ns: nat | 0 <= i < |ls| && Took(ls[i], ns) ensures ns <= final.core.memory.maxNs {
      assert ns in Durations(ls);
    }
  }

  lemma AccountedAtRest(s: E.State, final: E.State, durations: seq<nat>)
    requires |s.core.history.recorded| <= |final.core.history.recorded| && AllIdle(final.core.threads)
    requires Accounts(final.core, |s.core.history.recorded|, multiset(durations))
    ensures var recorded := RecordedSince(final.core, |s.core.history.recorded|);
            && Sum(recorded) == Sum(durations) && |recorded| == |durations|
            && forall ns :: ns in recorded <==> ns in durations
  {
    hide Sum, Measured;
    var recorded := RecordedSince(final.core, |s.core.history.recorded|);
    IdleMeasuresNothing(final.core.threads);
    SumIsOrderless(recorded, durations);
    forall ns ensures ns in recorded <==> ns in durations {
      assert ns in multiset(recorded) <==> ns in multiset(durations);
    }
  }

  /** The same for production runs. */
  lemma ProductionDurations(c: Core, ls: seq<Label>, final: Core)
    requires Quiet(c) && P.Run(c, ls) == Some(final) && NeverZeroes(ls) && AllIdle(final.threads)
    ensures forall i, ns: nat | 0 <= i < |ls| && Took(ls[i], ns) :: ns <= final.memory.maxNs
    ensures final.memory.maxNs == 0 || exists i :: 0 <= i < |ls| && Took(ls[i], final.memory.maxNs)
    ensures final.memory.totalNs == Sum(Durations(ls))
    ensures |final.history.recorded| == |c.history.recorded| + |Durations(ls)|
  {
    hide E.Run, E.Step, P.Run, Sum, Durations, NeverZeroes, ShimEquivalence.ExpandAll, Took;
    var s := E.State(c, 1, Cleared(), []);
    ShimEquivalence.ProductionRefinesExperimental(s, ls);
    ExpandNeverZeroes(ls);
    ExpandKeepsDurations(ls);
    var all := ShimEquivalence.ExpandAll(ls);
    QuiescentDurations(s, all, E.Run(s, all).value);
    DurationsAre(ls);
    DurationsAre(all);
    forall i, ns: nat | 0 <= i < |ls| && Took(ls[i], ns) ensures ns <= final.memory.maxNs {
      assert ns in Durations(all);
    }
    if final.memory.maxNs != 0 { assert final.memory.maxNs in Durations(all); }
  }

  lemma {:induction false} ExpandKeepsDurations(ls: seq<Label>)
    ensures Durations(ShimEquivalence.ExpandAll(ls)) == Durations(ls)
  {
    hide ShimEquivalence.Expand, DurationOf;
    if ls != [] {
      ExpandKeepsDurations(ls[..|ls| - 1]);
      ExpandedDurations(ShimEquivalence.ExpandAll(ls[..|ls| - 1]), ls[|ls| - 1]);
    }
  }

  lemma ExpandedDurations(more: seq<Label>, l: Label)
    ensures Durations(more + ShimEquivalence.Expand(l)) == Durations(more) + DurationOf(l)
  {
    hide ShimEquivalence.Expand, Durations, DurationOf;
    var expanded := ShimEquivalence.Expand(l);
    ExpandedIs(l);
    OneMoreDuration(more, l);
    if expanded != [l] {
      OneMoreDuration(more + [l], expanded[1]);
      assert more + expanded == more + [l] + [expanded[1]];
    }
  }

  lemma ExpandedIs(l: Label)
    ensures var expanded := ShimEquivalence.Expand(l);
            expanded == [l] || (|expanded| == 2 && expanded == [l, expanded[1]] && DurationOf(expanded[1]) == [])
  {
  }

  lemma OneMoreDuration(more: seq<Label>, l: Label)
    ensures Durations(more + [l]) == Durations(more) + DurationOf(l)
  {
    assert (more + [l])[..|more|] == more;
  }
}
