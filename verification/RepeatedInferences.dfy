/** Inferences run one after the other, each after a reset and with the flag raised again. A reset empties
    the table, so a queue's count starts over: the kernels left unfinished stay bounded over all inferences
    exactly when one inference fills a window or counts nothing. */
module RepeatedInferences {
  import opened Counting
  import opened QueueTable
  import opened ShimCore
  import E = ExperimentalShim
  import W = BoundedWindow
  import opened KernelBound
  import opened Schedules
  import opened HandleLimit
  import opened Wrappers

  /** A reset and the steps of an inference after it, whose calls are all on used handles. */
  ghost predicate Infers(s: E.State, body: seq<Label>, s': E.State, used: set<Queue>) {
    exists m :: E.Run(s, ResetAndEnable(0)) == Some(m) && Goes(m, body, s', used)
  }

  /** The inference is over, and counted d dispatches of the queue. */
  ghost predicate Over(s: E.State, q: Queue, d: nat) {
    AllIdle(s.core.threads) && Dispatches(s.ticked, q) == d
  }

  /** Whole inferences one after the other, each counting d dispatches of the queue. */
  ghost predicate InferAll(s: E.State, rounds: nat, s': E.State, q: Queue, d: nat, used: set<Queue>) {
    if rounds == 0 then s' == s
    else exists m, body :: InferAll(s, rounds - 1, m, q, d, used) && Infers(m, body, s', used) && Over(s', q, d)
  }

  /** The inferences are one run of the machine. */
  lemma {:induction false} InferencesAreARun(
    s: E.State, rounds: nat, s': E.State, q: Queue, d: nat, used: set<Queue>) returns (ls: seq<Label>)
    requires InferAll(s, rounds, s', q, d, used)
    ensures E.Run(s, ls) == Some(s')
  {
    if rounds == 0 {
      ls := [];
    } else {
      var m, body :| InferAll(s, rounds - 1, m, q, d, used) && Infers(m, body, s', used) && Over(s', q, d);
      var before := InferencesAreARun(s, rounds - 1, m, q, d, used);
      var begun :| E.Run(m, ResetAndEnable(0)) == Some(begun) && Goes(begun, body, s', used);
      E.Join(m, ResetAndEnable(0), begun, body, s');
      E.Join(s, before, m, ResetAndEnable(0) + body, s');
      ls := before + (ResetAndEnable(0) + body);
    }
  }

  // ---------------------------------------------------------------- lines only grow

  lemma LineGrows(s: E.State, l: Label, q: Queue)
    requires E.Step(s, l).Some?
    ensures var line, line' := LineOf(s.core.device, q), LineOf(E.Step(s, l).value.core.device, q);
            line.counted <= line'.counted && line.done <= line'.done
  {
    if l.Enqueue? { EnqueueEffect(s.core, l.thread, l.status, l.returned); }
  }

  lemma {:induction false} LinesGrow(s: E.State, ls: seq<Label>, q: Queue)
    requires E.Run(s, ls).Some?
    ensures var line, line' := LineOf(s.core.device, q), LineOf(E.Run(s, ls).value.core.device, q);
            line.counted <= line'.counted && line.done <= line'.done
  {
    if ls != [] {
      LinesGrow(s, ls[..|ls| - 1], q);
      LineGrows(E.Run(s, ls[..|ls| - 1]).value, ls[|ls| - 1], q);
    }
  }

  /** What was unfinished at the start, and what the inference added. */
  lemma UnfinishedSplit(s: E.State, ls: seq<Label>, final: E.State, q: Queue)
    requires E.Run(s, ls) == Some(final)
    ensures Unfinished(final.core, q, 0) <= Unfinished(s.core, q, 0) + Unfinished(final.core, q, Backlog(s, q))
  {
    LinesGrow(s, ls, q);
  }

  // ---------------------------------------------------------------- one inference

  lemma TicketOfStep(s: E.State, l: Label, q: Queue, ledger: Ledger)
    requires E.Step(s, l).Some? && !l.Clear?
    ensures l.Tick? ==> l.thread < |s.core.threads| && s.core.threads[l.thread].Ticking?
    ensures E.Step(s, l).value.ticked
         == if l.Tick? then s.ticked + [s.core.threads[l.thread].call.queue] else s.ticked
    ensures Note(s.core, l, q, ledger).ticks
         == ledger.ticks + if l.Tick? && s.core.threads[l.thread].call.queue == q then 1 else 0
    ensures Note(s.core, l, q, ledger).clears == ledger.clears
  {
    hide CountAfter, QueueTable.Tick, InFlight, Lost, EventComplete, Append, LineOf, Misses, Succeeds;
  }

  lemma {:induction false} TicketsAreDispatches(s: E.State, ls: seq<Label>, q: Queue)
    requires s.ticked == [] && NeverClears(ls) && E.Run(s, ls).Some?
    ensures LedgerOf(s, ls, q).ticks == Dispatches(E.Run(s, ls).value.ticked, q) && LedgerOf(s, ls, q).clears == []
  {
    if ls != [] {
      hide E.Run, E.Step, Note, Dispatches, FirstSeen, Fits;
      var before, l := ls[..|ls| - 1], ls[|ls| - 1];
      E.LastStep(s, ls);
      TicketsAreDispatches(s, before, q);
      var m := E.Run(s, before).value;
      TicketOfStep(m, l, q, LedgerOf(s, before, q));
      if l.Tick? { OneMore(m.ticked, m.core.threads[l.thread].call.queue); }
    }
  }

  /** Where an inference may start: just reset, nothing missing. */
  ghost predicate Begun(s: E.State, q: Queue, size: nat, threads: nat) {
    Start(s, q) && s.window == size && |s.core.threads| == threads > 0 && s.ticked == []
    && s.core.symbols == Symbols(true, true, true)
  }

  /** The window beside a clean inference. */
  lemma CleanWindow(
    s: E.State, body: seq<Label>, final: E.State, q: Queue, size: nat, threads: nat, used: set<Queue>)
    returns (w: W.Window)
    requires Begun(s, q, size, threads) && Goes(s, body, final, used) && Clean(final.core.trace)
    requires |used| <= MAX_TRACKED_QUEUES && q != NO_QUEUE
    ensures W.Inv(w) && w.size == size && w.threads == threads && w.missed == {} && w.restarts == []
    ensures CoreMatches(final.core, q, Backlog(s, q), w) && w.ticks == Dispatches(final.ticked, q)
  {
    hide W.Inv, CoreMatches, W.Limit;
    CleanMissesNothing(s, body, q);
    FewMisses(s, body, q);
    StartUses(s, q, used);
    FewHandlesCount(s, body, used, q);
    w := RunMatches(s, body, q);
    TicketsAreDispatches(s, body, q);
  }

  lemma CleanInferenceIsBounded(
    s: E.State, body: seq<Label>, final: E.State, q: Queue, size: nat, threads: nat, used: set<Queue>)
    requires Begun(s, q, size, threads) && Goes(s, body, final, used) && Clean(final.core.trace)
    requires |used| <= MAX_TRACKED_QUEUES && q != NO_QUEUE
    ensures |Unfinished(final.core, q, Backlog(s, q))| <= W.Limit(threads, 0, size)
  {
    var w := CleanWindow(s, body, final, q, size, threads, used);
    MatchedUnfinished(final.core, q, Backlog(s, q), w);
    assert W.MissedSince(w) == {};
    W.OutstandingIsWithinLimit(w, 0, 0);
    assert (size - 1) * 0 == 0;
  }

  /** What holds of a queue's line between inferences: little is unfinished, and nothing was ever counted
      if the inferences count nothing. */
  ghost predicate Settled(s: E.State, q: Queue, d: nat, size: nat, threads: nat) {
    var line := LineOf(s.core.device, q);
    && s.window == size && |s.core.threads| == threads > 0 && AllIdle(s.core.threads)
    && s.core.symbols == Symbols(true, true, true) && line.done <= |line.counted|
    && |Unfinished(s.core, q, 0)| <= W.Limit(threads, 0, size)
    && (d == 0 ==> forall p | 0 <= p < |line.counted| :: !line.counted[p])
  }

  /** A full window was waited for, so everything of earlier inferences is finished. */
  lemma FullInferenceFinishesBacklog(c: Core, q: Queue, from: nat, w: W.Window)
    requires W.Inv(w) && CoreMatches(c, q, from, w) && AllIdle(c.threads)
    requires w.restarts == [] && w.missed == {} && w.ticks >= w.size
    ensures LineOf(c.device, q).done > from && Unfinished(c, q, 0) == Unfinished(c, q, from)
  {
    NobodyHolds(c, q, from, w);
    W.QuietWindowHasWaited(w);
  }

  lemma NobodyHolds(c: Core, q: Queue, from: nat, w: W.Window)
    requires W.Inv(w) && CoreMatches(c, q, from, w) && AllIdle(c.threads)
    ensures w.holders == map[]
  {
    forall t | 0 <= t < |c.threads| ensures t !in w.holders { assert ThreadMatches(c, q, w, t); }
    assert forall t | t in w.holders :: t < |c.threads|;
  }

  /** An inference that counts nothing adds no counted command. */
  lemma EmptyInferenceAddsNothing(c: Core, q: Queue, from: nat, w: W.Window)
    requires W.Inv(w) && CoreMatches(c, q, from, w) && w.ticks == 0
    ensures forall p | from <= p < |LineOf(c.device, q).counted| :: !LineOf(c.device, q).counted[p]
  {
  }

  lemma InferenceSettles(
    s: E.State, m: E.State, body: seq<Label>, s': E.State, q: Queue, d: nat, size: nat, threads: nat, used: set<Queue>)
    requires Settled(s, q, d, size, threads) && Begun(m, q, size, threads) && m.core.device == s.core.device
    requires Goes(m, body, s', used) && Clean(s'.core.trace) && Over(s', q, d)
    requires |used| <= MAX_TRACKED_QUEUES && q != NO_QUEUE && (d == 0 || d >= size)
    ensures Settled(s', q, d, size, threads)
  {
    hide W.Inv, CoreMatches, W.Limit, Goes;
    var from := Backlog(m, q);
    var w := CleanWindow(m, body, s', q, size, threads, used);
    CleanInferenceIsBounded(m, body, s', q, size, threads, used);
    KeepsShape(m, body, s', q, size, threads, used, w);
    if d >= size {
      FullInferenceFinishesBacklog(s'.core, q, from, w);
    } else {
      EmptyInferenceAddsNothing(s'.core, q, from, w);
      NothingCounted(m, body, s', q, used);
    }
  }

  lemma KeepsShape(
    m: E.State, body: seq<Label>, s': E.State, q: Queue, size: nat, threads: nat, used: set<Queue>, w: W.Window)
    requires Begun(m, q, size, threads) && Goes(m, body, s', used)
    requires W.Inv(w) && CoreMatches(s'.core, q, Backlog(m, q), w) && w.threads == threads
    ensures s'.window == size && |s'.core.threads| == threads && s'.core.symbols == Symbols(true, true, true)
    ensures LineOf(s'.core.device, q).done <= |LineOf(s'.core.device, q).counted|
  {
    RunKeepsWindow(m, body);
    RunKeepsSymbols(m, body);
  }

  lemma NothingCounted(m: E.State, body: seq<Label>, s': E.State, q: Queue, used: set<Queue>)
    requires Goes(m, body, s', used)
    requires forall p | 0 <= p < Backlog(m, q) :: !LineOf(m.core.device, q).counted[p]
    requires forall p | Backlog(m, q) <= p < |LineOf(s'.core.device, q).counted| :: !LineOf(s'.core.device, q).counted[p]
    ensures forall p | 0 <= p < |LineOf(s'.core.device, q).counted| :: !LineOf(s'.core.device, q).counted[p]
    ensures Unfinished(s'.core, q, 0) == {}
  {
    LinesGrow(m, body, q);
  }

  // ---------------------------------------------------------------- all inferences

  /** Unfolds one inference: the state after its reset. */
  lemma AfterReset(s: E.State, body: seq<Label>, s': E.State, used: set<Queue>) returns (m: E.State)
    requires Infers(s, body, s', used) && IsAt(s.core, 0, Idle)
    ensures Goes(m, body, s', used) && m.core.device == s.core.device && m.core.trace == s.core.trace
    ensures m.core.threads == s.core.threads && m.core.symbols == s.core.symbols && m.window == s.window
    ensures m.table == Cleared() && m.ticked == []
  {
    m := ResetEffect(s);
  }

  lemma CleanUntil(s: E.State, body: seq<Label>, s': E.State, used: set<Queue>)
    requires Infers(s, body, s', used) && Clean(s'.core.trace)
    ensures Clean(s.core.trace)
  {
    var m :| E.Run(s, ResetAndEnable(0)) == Some(m) && Goes(m, body, s', used);
    CleanBefore(m, body);
    CleanBefore(s, ResetAndEnable(0));
  }

  lemma {:induction false} InferencesSettle(
    s: E.State, rounds: nat, s': E.State, q: Queue, d: nat, size: nat, threads: nat, used: set<Queue>)
    requires Settled(s, q, d, size, threads) && InferAll(s, rounds, s', q, d, used) && Clean(s'.core.trace) && size > 0
    requires |used| <= MAX_TRACKED_QUEUES && q != NO_QUEUE && (d == 0 || d >= size)
    ensures Settled(s', q, d, size, threads)
  {
    if rounds > 0 {
      hide Clean, W.Limit, Goes, Infers, Unfinished, LineOf;
      var m, body :| InferAll(s, rounds - 1, m, q, d, used) && Infers(m, body, s', used) && Over(s', q, d);
      CleanUntil(m, body, s', used);
      InferencesSettle(s, rounds - 1, m, q, d, size, threads, used);
      var begun := AfterReset(m, body, s', used);
      InferenceSettles(m, begun, body, s', q, d, size, threads, used);
    }
  }

  /** In every clean sequence of inferences, the last of which may still be running, at most this many
      counted kernels of the queue are unfinished. */
  ghost predicate LimitHolds(q: Queue, d: nat, size: nat, threads: nat, used: set<Queue>, limit: nat) {
    forall rounds: nat, m, body, final |
      InferAll(JustEnabled(size, threads), rounds, m, q, d, used) && Infers(m, body, final, used)
      && Clean(final.core.trace) ::
      |Unfinished(final.core, q, 0)| <= limit
  }

  lemma NothingYet(q: Queue, d: nat, size: nat, threads: nat)
    requires threads > 0
    ensures Settled(JustEnabled(size, threads), q, d, size, threads)
  {
  }

  lemma LimitWhenWindowsFill(
    rounds: nat, m: E.State, body: seq<Label>, final: E.State, q: Queue, d: nat, size: nat, threads: nat,
    used: set<Queue>)
    requires InferAll(JustEnabled(size, threads), rounds, m, q, d, used) && Infers(m, body, final, used)
    requires Clean(final.core.trace) && size > 0 && threads > 0
    requires |used| <= MAX_TRACKED_QUEUES && q != NO_QUEUE && (d == 0 || d >= size)
    ensures |Unfinished(final.core, q, 0)| <= 2 * W.Limit(threads, 0, size)
  {
    hide Clean, W.Limit, Infers, LineOf, InferAll;
    NothingYet(q, d, size, threads);
    CleanUntil(m, body, final, used);
    InferencesSettle(JustEnabled(size, threads), rounds, m, q, d, size, threads, used);
    var begun := AfterReset(m, body, final, used);
    CleanInferenceIsBounded(begun, body, final, q, size, threads, used);
    UnfinishedSplit(begun, body, final, q);
    SubsetIsSmaller(Unfinished(final.core, q, 0),
                    Unfinished(begun.core, q, 0) + Unfinished(final.core, q, Backlog(begun, q)));
  }

  // ---------------------------------------------------------------- windows that never fill

  /** j kernels on the queue after a reset, fewer than a window. */
  lemma {:induction false} FewKernels(s: E.State, q: Queue, size: nat, n: nat, j: nat, used: set<Queue>)
    returns (ls: seq<Label>, s': E.State)
    requires Unwaited(s, size, q, n) && s.ticked == [] && j < size && q in used && q != NO_QUEUE
    ensures Goes(s, ls, s', used) && Unwaited(s', size, q, n + j) && s'.ticked == seq(j, _ => q)
    ensures s'.core.threads == s.core.threads
  {
    hide Goes;
    if j == 0 {
      ls, s' := [], s;
      GoNowhere(s, used);
    } else {
      var a, m := FewKernels(s, q, size, n, j - 1, used);
      CountIs(m.ticked, q);
      QuotientIs(j, size, 0, j);
      var b, o := KernelWithoutWait(m, q, size, q, n + j - 1, used);
      GoOn(s, a, m, b, o, used);
      assert seq(j - 1, _ => q) + [q] == seq(j, _ => q);
      ls, s' := a + b, o;
    }
  }

  /** One inference with fewer kernels than a window: none is waited for. */
  lemma SmallInference(s: E.State, q: Queue, d: nat, size: nat, n: nat, used: set<Queue>)
    returns (body: seq<Label>, s': E.State)
    requires Unwaited(s, size, q, n) && AllIdle(s.core.threads) && d < size && q in used && q != NO_QUEUE
    ensures Infers(s, body, s', used) && Over(s', q, d)
    ensures Unwaited(s', size, q, n + d) && AllIdle(s'.core.threads)
  {
    var m := ResetEffect(s);
    body, s' := FewKernels(m, q, size, n, d, used);
    OnlyThisQueue(s'.ticked, q);
  }

  /** Any number of them: every inference leaves its kernels behind. */
  lemma {:induction false} SmallInferences(
    q: Queue, d: nat, size: nat, threads: nat, rounds: nat, used: set<Queue>)
    returns (s': E.State, n: nat)
    requires 0 < d < size && threads > 0 && q in used && q != NO_QUEUE
    ensures InferAll(JustEnabled(size, threads), rounds, s', q, d, used)
    ensures Unwaited(s', size, q, n) && AllIdle(s'.core.threads) && n >= rounds
  {
    if rounds == 0 {
      s', n := JustEnabled(size, threads), 0;
      NothingEnqueued(size, threads, q);
    } else {
      hide Unwaited, Infers;
      var m, before := SmallInferences(q, d, size, threads, rounds - 1, used);
      var body;
      body, s' := SmallInference(m, q, d, size, before, used);
      n := before + d;
    }
  }

  /** Counted kernels of a queue have a limit over all inferences exactly when one inference counts at least
      a window of them, or none. */
  lemma BoundedExactlyWhenWindowsFill(q: Queue, d: nat, size: nat, threads: nat, used: set<Queue>)
    requires size > 0 && threads > 0 && q in used && q != NO_QUEUE && |used| <= MAX_TRACKED_QUEUES
    ensures (exists limit: nat :: LimitHolds(q, d, size, threads, used, limit)) <==> d == 0 || d >= size
  {
    if d == 0 || d >= size {
      forall rounds: nat, m, body, final |
        InferAll(JustEnabled(size, threads), rounds, m, q, d, used) && Infers(m, body, final, used)
        && Clean(final.core.trace)
        ensures |Unfinished(final.core, q, 0)| <= 2 * W.Limit(threads, 0, size)
      {
        LimitWhenWindowsFill(rounds, m, body, final, q, d, size, threads, used);
      }
      assert LimitHolds(q, d, size, threads, used, 2 * W.Limit(threads, 0, size));
    } else {
      forall limit: nat ensures !LimitHolds(q, d, size, threads, used, limit) {
        var m, n := SmallInferences(q, d, size, threads, limit, used);
        var body, final := SmallInference(m, q, d, size, n, used);
        UnfinishedAre(final, q);
      }
    }
  }
}
