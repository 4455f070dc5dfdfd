/** How many queue handles the experimental shim can bound at once. The table has 32 slots: as long as the
    calls use at most 32 handles, the NULL handle included, every queue is bounded; with 33 a run in which
    nothing but NULL enqueues fails and nothing is ever waited for leaves any number of kernels unfinished
    on one queue. */
module HandleLimit {
  import opened Counting
  import opened QueueTable
  import opened ShimCore
  import E = ExperimentalShim
  import W = BoundedWindow
  import opened KernelBound
  import opened Schedules
  import EventOwnership
  import opened Wrappers

  /** Nothing failed but, perhaps, enqueues on the NULL queue, which the vendor refuses. */
  predicate Clean(trace: seq<Observation>) {
    forall o | o in trace :: CleanObservation(o)
  }

  predicate CleanObservation(o: Observation) {
    match o
    case VendorEnqueue(_, call, _, status) => call.queue == NO_QUEUE || status == CL_SUCCESS
    case VendorWait(_, _, status) => status == CL_SUCCESS
    case VendorRelease(_, _, status) => status == CL_SUCCESS
    case Returned(_, _) => true
  }

  // ---------------------------------------------------------------- few handles

  /** A call that is on its way to be counted. */
  predicate Coming(pc: Pc, used: set<Queue>) {
    pc.Entered? || pc.Counting? || pc.Ticking? ==> pc.call.queue in used
  }

  ghost predicate Using(s: E.State, used: set<Queue>) {
    && (forall q | q in s.ticked :: q in used)
    && (forall t | 0 <= t < |s.core.threads| :: Coming(s.core.threads[t], used))
  }

  /** The thread that moves stays within the used handles, and the others do not move. */
  lemma OneComes(s: E.State, l: Label, used: set<Queue>, t: Thread)
    requires Using(s, used) && E.Step(s, l).Some? && (l.Enter? ==> l.call.queue in used) && t < |s.core.threads|
    ensures |E.Step(s, l).value.core.threads| == |s.core.threads| && Coming(E.Step(s, l).value.core.threads[t], used)
  {
    hide CountAfter, QueueTable.Tick, InFlight, Lost, EventComplete, Append, LineOf;
    assert Coming(s.core.threads[t], used);
    if CommonStep(s.core, l).Some? { CommonComes(s.core, l, used, t); }
  }

  lemma CommonComes(c: Core, l: Label, used: set<Queue>, t: Thread)
    requires t < |c.threads| && Coming(c.threads[t], used)
    requires CommonStep(c, l).Some? && (l.Enter? ==> l.call.queue in used)
    ensures |CommonStep(c, l).value.threads| == |c.threads| && Coming(CommonStep(c, l).value.threads[t], used)
  {
    hide RecordStep, EventComplete, Append, LineOf;
    if l.Record? { RecordComes(c, l.thread, l.spurious, used, t); }
  }

  lemma RecordComes(c: Core, mover: Thread, spurious: bool, used: set<Queue>, t: Thread)
    requires t < |c.threads| && Coming(c.threads[t], used) && RecordStep(c, mover, spurious).Some?
    ensures |RecordStep(c, mover, spurious).value.threads| == |c.threads|
    ensures Coming(RecordStep(c, mover, spurious).value.threads[t], used)
  {
  }

  lemma StepKeepsUsing(s: E.State, l: Label, used: set<Queue>)
    requires Using(s, used) && E.Step(s, l).Some? && (l.Enter? ==> l.call.queue in used)
    ensures Using(E.Step(s, l).value, used)
  {
    var s' := E.Step(s, l).value;
    forall t | 0 <= t < |s'.core.threads| ensures Coming(s'.core.threads[t], used) {
      StepKeepsShape(s, l);
      OneComes(s, l, used, t);
    }
    forall q | q in s'.ticked ensures q in used { TickedIsUsed(s, l, used, q); }
  }

  lemma TickedIsUsed(s: E.State, l: Label, used: set<Queue>, q: Queue)
    requires Using(s, used) && E.Step(s, l).Some? && q in E.Step(s, l).value.ticked
    ensures q in used
  {
    hide CountAfter, QueueTable.Tick, InFlight, Lost, EventComplete, Append, LineOf;
    if l.Tick? { assert Coming(s.core.threads[l.thread], used); }
  }

  lemma {:induction false} RunKeepsUsing(s: E.State, ls: seq<Label>, used: set<Queue>)
    requires Using(s, used) && E.Run(s, ls).Some? && CallsUse(ls, used)
    ensures Using(E.Run(s, ls).value, used)
  {
    if ls != [] {
      hide E.Run, E.Step, Using;
      var before, l := ls[..|ls| - 1], ls[|ls| - 1];
      E.LastStep(s, ls);
      RunKeepsUsing(s, before, used);
      StepKeepsUsing(E.Run(s, before).value, l, used);
    }
  }

  lemma DistinctAreFew(s: seq<Queue>, values: set<Queue>)
    requires Distinct(s) && forall q | q in s :: q in values
    ensures |s| <= |values|
  {
    InjectionIsSmaller(Interval(0, |s|), s, values);
  }

  /** Dispatches on at most 32 handles fit, NULL dispatches included. */
  lemma {:induction false} FewHandlesFit(h: seq<Queue>, used: set<Queue>)
    requires |used| <= MAX_TRACKED_QUEUES && forall q | q in h :: q in used
    ensures Fits(h)
  {
    if h != [] {
      var before, q := h[..|h| - 1], h[|h| - 1];
      assert h == before + [q] && q in h && forall x | x in before :: x in h;
      FewHandlesFit(before, used);
      FirstSeenFacts(before);
      if q !in FirstSeen(before) {
        DistinctAreFew(FirstSeen(before), used - {q});
        assert |used - {q}| == |used| - 1;
      }
    }
  }

  /** At every moment the table counts every queue exactly, however often it is cleared. */
  lemma {:induction false} FewHandlesCount(s: E.State, ls: seq<Label>, used: set<Queue>, q: Queue)
    requires Using(s, used) && E.Run(s, ls).Some? && CallsUse(ls, used)
    requires |used| <= MAX_TRACKED_QUEUES && q != NO_QUEUE
    ensures CountsThroughout(s, ls, q) && Tracked(E.Run(s, ls).value.ticked, q)
  {
    hide E.Run, E.Step, Tracked, Fits;
    RunKeepsUsing(s, ls, used);
    FewHandlesFit(E.Run(s, ls).value.ticked, used);
    FitMeansTracked(E.Run(s, ls).value.ticked, q);
    if ls != [] {
      E.LastStep(s, ls);
      FewHandlesCount(s, ls[..|ls| - 1], used, q);
    }
  }

  lemma StartUses(s: E.State, q: Queue, used: set<Queue>)
    requires Start(s, q)
    ensures Using(s, used)
  {
  }

  /** The bound without looking at the table: with at most 32 handles in use every queue is bounded, however
      often and whenever the table is cleared. */
  lemma FewHandlesAreBounded(s: E.State, ls: seq<Label>, used: set<Queue>, q: Queue, final: E.State)
    requires Start(s, q) && E.Run(s, ls) == Some(final) && |s.core.threads| > 0
    requires CallsUse(ls, used) && |used| <= MAX_TRACKED_QUEUES && q != NO_QUEUE
    ensures CountsThroughout(s, ls, q)
    ensures var ledger := LedgerOf(s, ls, q);
            |Unfinished(final.core, q, Backlog(s, q))|
            <= W.RestartedLimit(|s.core.threads|, |RecentMisses(ledger)|, RecentClears(ledger), s.window)
  {
    hide Start, Using;
    StartUses(s, q, used);
    FewHandlesCount(s, ls, used, q);
    KernelsAreBounded(s, ls, q, final);
  }

  lemma TraceGrows(s: E.State, l: Label)
    requires E.Step(s, l).Some?
    ensures s.core.trace <= E.Step(s, l).value.core.trace
  {
  }

  lemma {:induction false} CleanBefore(s: E.State, ls: seq<Label>)
    requires E.Run(s, ls).Some? && Clean(E.Run(s, ls).value.core.trace)
    ensures Clean(s.core.trace)
  {
    if ls != [] {
      var m := E.Run(s, ls[..|ls| - 1]).value;
      TraceGrows(m, ls[|ls| - 1]);
      var trace, trace' := m.core.trace, E.Run(s, ls).value.core.trace;
      forall o | o in trace ensures CleanObservation(o) { assert o in trace'; }
      CleanBefore(s, ls[..|ls| - 1]);
    }
  }

  lemma CleanStep(s: E.State, l: Label, q: Queue)
    requires E.Step(s, l).Some? && s.core.symbols.wait && s.core.symbols.release && q != NO_QUEUE
    requires Clean(E.Step(s, l).value.core.trace)
    ensures !Misses(s.core, l, q)
  {
    var trace, trace' := s.core.trace, E.Step(s, l).value.core.trace;
    TraceGrows(s, l);
    if |trace| < |trace'| { assert CleanObservation(trace'[|trace|]); }
  }

  lemma {:induction false} CleanMissesNothing(s: E.State, ls: seq<Label>, q: Queue)
    requires E.Run(s, ls).Some? && s.core.symbols.wait && s.core.symbols.release && q != NO_QUEUE
    requires Clean(E.Run(s, ls).value.core.trace)
    ensures AllMisses(s, ls, q) == 0
  {
    if ls != [] {
      var before, l := ls[..|ls| - 1], ls[|ls| - 1];
      var m := E.Run(s, before).value;
      RunKeepsSymbols(s, before);
      CleanStep(m, l, q);
      E.OneStep(m, l, E.Run(s, ls).value);
      CleanBefore(m, [l]);
      CleanMissesNothing(s, before, q);
    }
  }

  lemma {:induction false} RunKeepsSymbols(s: E.State, ls: seq<Label>)
    requires E.Run(s, ls).Some?
    ensures E.Run(s, ls).value.core.symbols == s.core.symbols
  {
    if ls != [] {
      RunKeepsSymbols(s, ls[..|ls| - 1]);
      EventOwnership.StepKeepsSymbols(E.Run(s, ls[..|ls| - 1]).value, ls[|ls| - 1]);
    }
  }

  // ---------------------------------------------------------------- many handles

  /** A run in which every call is on a used handle and nothing is cleared. */
  ghost predicate Goes(s: E.State, ls: seq<Label>, s': E.State, used: set<Queue>) {
    E.Run(s, ls) == Some(s') && NeverClears(ls) && CallsUse(ls, used)
  }

  lemma GoOn(s: E.State, a: seq<Label>, m: E.State, b: seq<Label>, s': E.State, used: set<Queue>)
    requires Goes(s, a, m, used) && Goes(m, b, s', used)
    ensures Goes(s, a + b, s', used)
  {
    hide E.Run;
    E.Join(s, a, m, b, s');
  }

  lemma GoNowhere(s: E.State, used: set<Queue>)
    ensures Goes(s, [], s, used)
  {
  }

  /** Different handles, none of them NULL, that can fill the table. */
  ghost predicate Fillers(qs: seq<Queue>) {
    |qs| == MAX_TRACKED_QUEUES && Distinct(qs) && NO_QUEUE !in qs
  }

  /** The first j fillers have one dispatch each and the other slots are empty. */
  ghost predicate FilledTo(s: Table, qs: seq<Queue>, j: nat)
    requires |qs| == MAX_TRACKED_QUEUES
  {
    && (forall i | 0 <= i < |s| && i < j :: s[i] == Slot(qs[i], 1))
    && (forall i | j <= i < |s| :: s[i] == Slot(NO_QUEUE, 0))
  }

  /** Thread 0 is free, nothing failed, nothing was waited for, and nothing of the queue's line has run. */
  ghost predicate Unwaited(s: E.State, size: nat, q: Queue, n: nat) {
    && Ready(s, size) && size >= 2 && IsAt(s.core, 0, Idle)
    && Clean(s.core.trace) && (forall o | o in s.core.trace :: !o.VendorWait?)
    && LineOf(s.core.device, q) == Line(seq(n, _ => true), 0)
  }

  /** Thread 0's kernel when the count reaches no boundary: accepted, or refused on the NULL queue, and not
      waited for. */
  lemma KernelWithoutWait(s: E.State, x: Queue, size: nat, q: Queue, n: nat, used: set<Queue>)
    returns (ls: seq<Label>, s': E.State)
    requires Unwaited(s, size, q, n) && CountAfter(s.table, x) % size != 0 && x in used && q != NO_QUEUE
    ensures Goes(s, ls, s', used) && Unwaited(s', size, q, if x == q then n + 1 else n)
    ensures s'.table == QueueTable.Tick(s.table, x) && s'.ticked == s.ticked + [x]
    ensures s'.core.threads == s.core.threads
  {
    hide LineOf, Clean;
    var a, m := Count(s, x, size, 0);
    assert Goes(s, a, m, used);
    var b, o;
    if x == NO_QUEUE {
      b, o := Refuse(m, x, size, 0, false, CL_INVALID_COMMAND_QUEUE);
      StillUnwaited(s.core.trace, x, false, CL_INVALID_COMMAND_QUEUE);
    } else {
      b, o := Submit(m, x, size, 0, false);
      StillUnwaited(s.core.trace, x, false, CL_SUCCESS);
      assert x == q ==> seq(n, _ => true) + [true] == seq(n + 1, _ => true);
    }
    assert LineOf(m.core.device, q) == LineOf(s.core.device, q);
    GoOn(s, a, m, b, o, used);
    ls, s' := a + b, o;
  }

  lemma StillUnwaited(trace: seq<Observation>, x: Queue, wait: bool, status: int)
    requires Clean(trace) && (forall o | o in trace :: !o.VendorWait?) && (x == NO_QUEUE || status == CL_SUCCESS)
    ensures var more := trace + [VendorEnqueue(0, TheCall(x), wait, status), Returned(0, status)];
            Clean(more) && forall o | o in more :: !o.VendorWait?
  {
  }

  lemma NextFiller(s: Table, qs: seq<Queue>, j: nat)
    requires Fillers(qs) && j < MAX_TRACKED_QUEUES && FilledTo(s, qs, j)
    ensures CountAfter(s, qs[j]) == 1 && FilledTo(QueueTable.Tick(s, qs[j]), qs, j + 1)
  {
    assert forall i | 0 <= i < |s| && i < j :: s[i].queue == qs[i] && qs[i] != qs[j] && qs[i] != NO_QUEUE;
    assert Find(s, qs[j]) == |s|;
    assert s[j].queue == NO_QUEUE && Find(s, NO_QUEUE) == j;
  }

  /** One kernel on each of the first j fillers. */
  lemma {:induction false} Fill(s: E.State, qs: seq<Queue>, size: nat, j: nat, used: set<Queue>)
    returns (ls: seq<Label>, s': E.State)
    requires Fillers(qs) && (forall q | q in qs :: q in used) && j <= MAX_TRACKED_QUEUES
    requires size >= 2 && Unwaited(s, size, qs[0], 0) && s.table == Cleared()
    ensures Goes(s, ls, s', used) && Unwaited(s', size, qs[0], if j == 0 then 0 else 1) && FilledTo(s'.table, qs, j)
  {
    hide Unwaited, Goes;
    if j == 0 {
      ls, s' := [], s;
      GoNowhere(s, used);
    } else {
      var a, m := Fill(s, qs, size, j - 1, used);
      NextFiller(m.table, qs, j - 1);
      QuotientIs(1, size, 0, 1);
      var b, o := KernelWithoutWait(m, qs[j - 1], size, qs[0], if j == 1 then 0 else 1, used);
      GoOn(s, a, m, b, o, used);
      ls, s' := a + b, o;
    }
  }

  /** A handle the full table does not hold takes slot 0, and the first filler takes it back: both are
      counted as if seen for the first time. */
  lemma SlotZeroChangesHands(s: Table, qs: seq<Queue>, x: Queue)
    requires Fillers(qs) && FilledTo(s, qs, MAX_TRACKED_QUEUES) && x !in qs
    ensures CountAfter(s, x) == 1 && CountAfter(QueueTable.Tick(s, x), qs[0]) == 1
    ensures QueueTable.Tick(QueueTable.Tick(s, x), qs[0]) == s
  {
    assert forall i | 0 <= i < |s| :: s[i].queue == qs[i] && qs[i] != x && qs[i] != NO_QUEUE;
    assert Find(s, x) == |s| && Find(s, NO_QUEUE) == |s|;
    var t := QueueTable.Tick(s, x);
    assert t == s[0 := Slot(x, 1)];
    assert forall i | 0 <= i < |t| :: t[i].queue != qs[0];
    assert Find(t, qs[0]) == |t|;
    assert Selected(t, qs[0]) == 0;
  }

  /** Kernels on x and on the first filler, alternating k times. */
  lemma {:induction false} Alternate(
    s: E.State, qs: seq<Queue>, x: Queue, size: nat, n: nat, k: nat, used: set<Queue>)
    returns (ls: seq<Label>, s': E.State)
    requires Fillers(qs) && qs[0] in used && x in used && x !in qs
    requires size >= 2 && Unwaited(s, size, qs[0], n) && FilledTo(s.table, qs, MAX_TRACKED_QUEUES)
    ensures Goes(s, ls, s', used) && Unwaited(s', size, qs[0], n + k) && s'.table == s.table
  {
    hide Unwaited, Goes, FilledTo;
    if k == 0 {
      ls, s' := [], s;
      GoNowhere(s, used);
    } else {
      var a, m := Alternate(s, qs, x, size, n, k - 1, used);
      SlotZeroChangesHands(s.table, qs, x);
      QuotientIs(1, size, 0, 1);
      assert x != qs[0];
      var b, o := KernelWithoutWait(m, x, size, qs[0], n + k - 1, used);
      GoOn(s, a, m, b, o, used);
      var c, r := KernelWithoutWait(o, qs[0], size, qs[0], n + k - 1, used);
      GoOn(s, a + b, o, c, r, used);
      ls, s' := a + b + c, r;
    }
  }

  /** Some members of a set, in some order. */
  lemma {:induction false} Listing(values: set<Queue>, n: nat) returns (qs: seq<Queue>)
    requires n <= |values|
    ensures |qs| == n && Distinct(qs) && forall q | q in qs :: q in values
  {
    if n == 0 {
      qs := [];
    } else {
      var q :| q in values;
      var rest := Listing(values - {q}, n - 1);
      qs := rest + [q];
    }
  }

  lemma NothingEnqueued(size: nat, threads: nat, q: Queue)
    requires size >= 2 && threads > 0
    ensures Unwaited(JustEnabled(size, threads), size, q, 0) && JustEnabled(size, threads).table == Cleared()
  {
    assert seq(0, _ => true) == [];
  }

  /** With more handles than slots: any number of kernels can pile up on one queue although nothing fails,
      nothing is cleared, and the shim never waits at all. */
  lemma ManyHandlesOverrun(used: set<Queue>, size: nat, threads: nat, k: nat)
    returns (q: Queue, ls: seq<Label>, final: E.State)
    requires |used| > MAX_TRACKED_QUEUES && size >= 2 && threads > 0
    ensures q in used && q != NO_QUEUE && Goes(JustEnabled(size, threads), ls, final, used)
    ensures Clean(final.core.trace) && forall o | o in final.core.trace :: !o.VendorWait?
    ensures |Unfinished(final.core, q, 0)| > k
  {
    var x: Queue := NO_QUEUE;
    if NO_QUEUE !in used { x :| x in used; }
    var qs := Listing(used - {x}, MAX_TRACKED_QUEUES);
    q := qs[0];
    var s := JustEnabled(size, threads);
    NothingEnqueued(size, threads, q);
    var a, m := Fill(s, qs, size, MAX_TRACKED_QUEUES, used);
    var b, o := Alternate(m, qs, x, size, 1, k, used);
    GoOn(s, a, m, b, o, used);
    ls, final := a + b, o;
    UnfinishedAre(final, q);
  }

  // ---------------------------------------------------------------- exactly 32 handles

  /** In every clean run without a Clear whose calls are on used handles, at most this many counted kernels
      of any one queue are ever unfinished. */
  ghost predicate LimitHolds(used: set<Queue>, size: nat, threads: nat, limit: nat) {
    forall q: Queue, ls, final |
      q != NO_QUEUE && Goes(JustEnabled(size, threads), ls, final, used) && Clean(final.core.trace) ::
      |Unfinished(final.core, q, 0)| <= limit
  }

  lemma LimitWhileItFits(used: set<Queue>, size: nat, threads: nat, q: Queue, ls: seq<Label>, final: E.State)
    requires size > 0 && threads > 0 && (size == 1 || |used| <= MAX_TRACKED_QUEUES)
    requires q != NO_QUEUE && Goes(JustEnabled(size, threads), ls, final, used) && Clean(final.core.trace)
    ensures |Unfinished(final.core, q, 0)| <= W.Limit(threads, 0, size)
  {
    var s := JustEnabled(size, threads);
    CleanMissesNothing(s, ls, q);
    FewMisses(s, ls, q);
    RunKeepsWindow(s, ls);
    if size > 1 {
      FewHandlesCount(s, ls, used, q);
    }
    UnclearedIsBounded(s, ls, q, final);
  }

  /** Counted kernels have a common limit exactly when the calls use at most 32 handles, NULL included, or
      every kernel is waited for. */
  lemma BoundedExactlyUpToTheTable(used: set<Queue>, size: nat, threads: nat)
    requires size > 0 && threads > 0
    ensures (exists limit: nat :: LimitHolds(used, size, threads, limit))
            <==> size == 1 || |used| <= 32
  {
    if size == 1 || |used| <= MAX_TRACKED_QUEUES {
      forall q: Queue, ls, final |
        q != NO_QUEUE && Goes(JustEnabled(size, threads), ls, final, used) && Clean(final.core.trace)
        ensures |Unfinished(final.core, q, 0)| <= W.Limit(threads, 0, size)
      {
        LimitWhileItFits(used, size, threads, q, ls, final);
      }
      assert LimitHolds(used, size, threads, W.Limit(threads, 0, size));
    } else {
      forall limit: nat ensures !LimitHolds(used, size, threads, limit) {
        var q, ls, final := ManyHandlesOverrun(used, size, threads, limit);
      }
    }
  }
}
