/** The bound on unfinished kernels cannot be improved: for every number of threads, every window of at least
    two, every number of missed boundaries and every number of resets there is a run of the shim that reaches
    it. */
module BoundExactness {
  import opened Counting
  import opened QueueTable
  import opened ShimCore
  import E = ExperimentalShim
  import W = BoundedWindow
  import opened KernelBound
  import opened Schedules
  import opened HandleLimit
  import opened Wrappers

  /** The window is counting dispatches of this queue alone. */
  ghost predicate Running(s: E.State, q: Queue, size: nat) {
    && Ready(s, size) && size >= 2 && q != NO_QUEUE && (forall x | x in s.ticked :: x == q)
    && var line := LineOf(s.core.device, q);
       line.done <= |line.counted| && forall p | 0 <= p < |line.counted| :: line.counted[p]
  }

  // ---------------------------------------------------------------- the moves of a schedule

  /** A thread's call on the queue is counted; every size-th one is a boundary. */
  lemma CountHere(s: E.State, q: Queue, size: nat, t: Thread) returns (ls: seq<Label>, s': E.State)
    requires Running(s, q, size) && IsAt(s.core, t, Idle)
    ensures Leads(s, ls, s', q) && Running(s', q, size) && |s'.ticked| == |s.ticked| + 1
    ensures s'.core.threads == s.core.threads[t := Submitting(TheCall(q), true, (|s.ticked| + 1) % size == 0)]
    ensures s'.core.device == s.core.device
  {
    CountIs(s.ticked, q);
    ls, s' := Count(s, q, size, t);
  }

  lemma SubmitHere(s: E.State, q: Queue, size: nat, t: Thread, wait: bool) returns (ls: seq<Label>, s': E.State)
    requires Running(s, q, size) && IsAt(s.core, t, Submitting(TheCall(q), true, wait))
    ensures Leads(s, ls, s', q) && Running(s', q, size) && s'.ticked == s.ticked
    ensures var line, event := LineOf(s.core.device, q), |s.core.device.events| + 1;
            && LineOf(s'.core.device, q) == Line(line.counted + [true], line.done)
            && s'.core.threads == s.core.threads[t := if wait then Waiting(TheCall(q), event) else Idle]
            && (wait ==> Stands(s'.core.device, event, q, |line.counted|))
  {
    ls, s' := Submit(s, q, size, t, wait);
  }

  // ---------------------------------------------------------------- the schedule

  /** Thread 0 is free, threads 1 to u are at one place and the later ones at another. */
  ghost predicate Split(s: E.State, threads: nat, u: nat, early: Pc -> bool, late: Pc -> bool) {
    && threads > u && |s.core.threads| == threads && s.core.threads[0] == Idle
    && (forall t | 1 <= t <= u :: early(s.core.threads[t]))
    && (forall t | u < t < threads :: late(s.core.threads[t]))
  }

  function Pending(q: Queue): Pc -> bool {
    pc => pc == Submitting(TheCall(q), true, false)
  }

  const Free: Pc -> bool := (pc: Pc) => pc == Idle
  const InWait: Pc -> bool := (pc: Pc) => pc.Waiting?

  /** Thread 0 submits one more kernel alone and, if it is a boundary, waits for everything. */
  lemma SoloKernel(s: E.State, q: Queue, size: nat) returns (ls: seq<Label>, s': E.State)
    requires Running(s, q, size) && IsAt(s.core, 0, Idle) && Outstanding(s, q) == 0
    ensures Leads(s, ls, s', q) && Running(s', q, size) && |s'.ticked| == |s.ticked| + 1
    ensures Outstanding(s', q) == 0 && s'.core.threads == s.core.threads
  {
    var wait := (|s.ticked| + 1) % size == 0;
    var a, m := CountHere(s, q, size, 0);
    var b, n := SubmitHere(m, q, size, 0, wait);
    Join(s, a, m, b, n, q);
    var c, f := FinishOne(n, q, size);
    Join(s, a + b, n, c, f, q);
    ls, s' := a + b + c, f;
    if wait {
      var event := |m.core.device.events| + 1;
      assert EventComplete(f.core.device, event);
      var d, e := EndWait(f, q, size, 0, event);
      Join(s, a + b + c, f, d, e, q);
      ls, s' := a + b + c + d, e;
    }
    assert s'.core.threads == s.core.threads;
  }

  /** Two consecutive dispatches are not both boundaries. */
  lemma NotTwice(n: nat, size: nat)
    requires size >= 2 && (n + 1) % size == 0
    ensures (n + 2) % size != 0
  {
    NextQuotient(n + 1, size);
  }

  /** The next thread is counted for a kernel that is no boundary and holds it back. */
  lemma HoldBack(s: E.State, q: Queue, size: nat, threads: nat, u: nat) returns (ls: seq<Label>, s': E.State)
    requires Running(s, q, size) && Split(s, threads, u, Pending(q), Free) && u + 1 < threads && Outstanding(s, q) == 0
    ensures Leads(s, ls, s', q) && Running(s', q, size) && Split(s', threads, u + 1, Pending(q), Free)
    ensures Outstanding(s', q) == 0
  {
    hide Leads, E.Coherent, LineOf;
    if (|s.ticked| + 1) % size == 0 {
      NotTwice(|s.ticked|, size);
      var a, m := SoloKernel(s, q, size);
      var b, n := CountHere(m, q, size, u + 1);
      Join(s, a, m, b, n, q);
      ls, s' := a + b, n;
    } else {
      ls, s' := CountHere(s, q, size, u + 1);
    }
  }

  lemma {:induction false} AllHoldBack(s: E.State, q: Queue, size: nat, threads: nat, u: nat)
    returns (ls: seq<Label>, s': E.State)
    requires Running(s, q, size) && Split(s, threads, u, Pending(q), Free) && Outstanding(s, q) == 0
    ensures Leads(s, ls, s', q) && Running(s', q, size) && Split(s', threads, threads - 1, Pending(q), Free)
    ensures Outstanding(s', q) == 0
    decreases threads - u
  {
    hide Leads, E.Coherent, LineOf;
    if u + 1 == threads {
      NoSteps(s, q);
      ls, s' := [], s;
    } else {
      var a, m := HoldBack(s, q, size, threads, u);
      var b, n := AllHoldBack(m, q, size, threads, u + 1);
      Join(s, a, m, b, n, q);
      ls, s' := a + b, n;
    }
  }

  /** Thread 0 goes on until it has just waited for a boundary. */
  lemma {:induction false} ToBoundary(s: E.State, q: Queue, size: nat) returns (ls: seq<Label>, s': E.State)
    requires Running(s, q, size) && IsAt(s.core, 0, Idle) && Outstanding(s, q) == 0
    ensures Leads(s, ls, s', q) && Running(s', q, size) && s'.core.threads == s.core.threads
    ensures Outstanding(s', q) == 0 && |s'.ticked| % size == 0
    decreases if |s.ticked| % size == 0 then 0 else size - |s.ticked| % size
  {
    hide Leads, E.Coherent, LineOf;
    if |s.ticked| % size == 0 {
      NoSteps(s, q);
      ls, s' := [], s;
    } else {
      NextQuotient(|s.ticked|, size);
      var a, m := SoloKernel(s, q, size);
      var b, n := ToBoundary(m, q, size);
      Join(s, a, m, b, n, q);
      ls, s' := a + b, n;
    }
  }

  /** The kernels held back are submitted at last, and nobody waits for them. */
  lemma {:induction false} AllLate(s: E.State, q: Queue, size: nat, threads: nat, j: nat)
    returns (ls: seq<Label>, s': E.State)
    requires Running(s, q, size) && Split(s, threads, j, Free, Pending(q)) && Outstanding(s, q) == j
    ensures Leads(s, ls, s', q) && Running(s', q, size) && Split(s', threads, 0, InWait, Free)
    ensures Outstanding(s', q) == threads - 1 && s'.ticked == s.ticked
    decreases threads - j
  {
    hide Leads, E.Coherent, LineOf;
    if j + 1 == threads {
      NoSteps(s, q);
      ls, s' := [], s;
    } else {
      var a, m := SubmitHere(s, q, size, j + 1, false);
      var b, n := AllLate(m, q, size, threads, j + 1);
      Join(s, a, m, b, n, q);
      ls, s' := a + b, n;
    }
  }

  /** Thread 0 submits the k kernels that follow a boundary. */
  lemma {:induction false} Fill(s: E.State, q: Queue, size: nat, k: nat) returns (ls: seq<Label>, s': E.State)
    requires Running(s, q, size) && IsAt(s.core, 0, Idle) && |s.ticked| % size == 0 && k < size
    ensures Leads(s, ls, s', q) && Running(s', q, size) && s'.core.threads == s.core.threads
    ensures Outstanding(s', q) == Outstanding(s, q) + k && |s'.ticked| % size == k
  {
    hide Leads, E.Coherent, LineOf;
    if k == 0 {
      NoSteps(s, q);
      ls, s' := [], s;
    } else {
      var a, m := Fill(s, q, size, k - 1);
      NextQuotient(|m.ticked|, size);
      var b, n := CountHere(m, q, size, 0);
      var c, f := SubmitHere(n, q, size, 0, false);
      Join(s, a, m, b, n, q);
      Join(s, a + b, n, c, f, q);
      ls, s' := a + b + c, f;
      assert s'.core.threads == s.core.threads;
    }
  }

  /** The thread waits for a boundary of its own. */
  predicate Stuck(s: E.State, t: Thread, q: Queue) {
    t < |s.core.threads| && s.core.threads[t].Waiting? && s.core.threads[t].call == TheCall(q)
    && 0 < s.core.threads[t].event <= |s.core.device.events|
  }

  /** A whole window: thread 0 fills it and thread t waits at its boundary. */
  lemma OneWindow(s: E.State, q: Queue, size: nat, t: Thread) returns (ls: seq<Label>, s': E.State)
    requires Running(s, q, size) && IsAt(s.core, 0, Idle) && IsAt(s.core, t, Idle) && |s.ticked| % size == 0
    ensures Leads(s, ls, s', q) && Running(s', q, size) && |s'.ticked| % size == 0
    ensures Outstanding(s', q) == Outstanding(s, q) + size
    ensures |s'.core.threads| == |s.core.threads| && s'.core.threads == s.core.threads[t := s'.core.threads[t]]
    ensures Stuck(s', t, q)
  {
    hide Leads, E.Coherent, LineOf;
    var a, m := Fill(s, q, size, size - 1);
    NextQuotient(|m.ticked|, size);
    var b, n := CountHere(m, q, size, t);
    var c, f := SubmitHere(n, q, size, t, true);
    Join(s, a, m, b, n, q);
    Join(s, a + b, n, c, f, q);
    ls, s' := a + b + c, f;
  }

  function Windows(k: nat, size: nat): nat {
    if k == 0 then 0 else Windows(k - 1, size) + size
  }

  lemma {:induction false} WindowsAreProduct(k: nat, size: nat)
    ensures Windows(k, size) == k * size
  {
    if k > 0 {
      WindowsAreProduct(k - 1, size);
      assert k * size == (k - 1) * size + size;
    }
  }

  /** Every thread ends up waiting at a boundary of its own, thread 0 last. */
  lemma {:induction false} AllWindows(s: E.State, q: Queue, size: nat, threads: nat, u: nat)
    returns (ls: seq<Label>, s': E.State)
    requires Running(s, q, size) && Split(s, threads, u, InWait, Free) && |s.ticked| % size == 0
    ensures Leads(s, ls, s', q) && Running(s', q, size)
    ensures Outstanding(s', q) == Outstanding(s, q) + Windows(threads - u, size)
    decreases threads - u
  {
    hide Leads, E.Coherent, LineOf;
    if u + 1 == threads {
      ls, s' := OneWindow(s, q, size, 0);
      assert Windows(1, size) == Windows(0, size) + size;
    } else {
      var a, m := OneWindow(s, q, size, u + 1);
      var b, n := AllWindows(m, q, size, threads, u + 1);
      Join(s, a, m, b, n, q);
      ls, s' := a + b, n;
    }
  }

  // ---------------------------------------------------------------- missed windows and clearings

  lemma StartsRunning(q: Queue, size: nat, threads: nat)
    requires q != NO_QUEUE && size >= 2 && threads > 0
    ensures var s := JustEnabled(size, threads);
            Running(s, q, size) && Split(s, threads, 0, Pending(q), Free) && Outstanding(s, q) == 0
  {
  }

  /** CL_EXEC_STATUS_ERROR_FOR_EVENTS_IN_WAIT_LIST */
  const CL_WAIT_FAILED := -14

  /** A run with calls on this queue alone, in which so many of its boundaries are missed and the table is
      cleared so often. */
  ghost predicate Tallies(s: E.State, ls: seq<Label>, s': E.State, q: Queue, misses: nat, clears: nat) {
    && E.Run(s, ls) == Some(s') && CallsUse(ls, {q})
    && AllMisses(s, ls, q) == misses && AllClears(ls) == clears
  }

  lemma {:induction false} TalliesAddUp(s: E.State, a: seq<Label>, m: E.State, b: seq<Label>, q: Queue)
    requires E.Run(s, a) == Some(m)
    ensures AllMisses(s, a + b, q) == AllMisses(s, a, q) + AllMisses(m, b, q)
    ensures AllClears(a + b) == AllClears(a) + AllClears(b)
    decreases b
  {
    if b == [] {
      assert a + b == a;
    } else {
      hide Misses, E.Run, E.Step;
      TalliesAddUp(s, a, m, b[..|b| - 1], q);
      assert (a + b)[..|a + b| - 1] == a + b[..|b| - 1];
      E.RunsCompose(s, a, b[..|b| - 1]);
    }
  }

  lemma JoinTallies(
    s: E.State, a: seq<Label>, m: E.State, b: seq<Label>, s': E.State, q: Queue, i: nat, j: nat, k: nat, n: nat)
    requires Tallies(s, a, m, q, i, j) && Tallies(m, b, s', q, k, n)
    ensures Tallies(s, a + b, s', q, i + k, j + n)
  {
    hide E.Run, AllMisses, AllClears;
    E.Join(s, a, m, b, s');
    TalliesAddUp(s, a, m, b, q);
  }

  /** Steps that are no failing vendor calls miss nothing. */
  lemma {:induction false} NothingMissed(s: E.State, ls: seq<Label>, q: Queue)
    requires E.Run(s, ls).Some? && s.core.symbols.wait && s.core.symbols.release
    requires forall l | l in ls :: (l.Enqueue? ==> l.status == CL_SUCCESS) && (l.Wait? ==> l.status == CL_SUCCESS)
    ensures AllMisses(s, ls, q) == 0
  {
    if ls != [] {
      hide E.Run, E.Step;
      var before, l := ls[..|ls| - 1], ls[|ls| - 1];
      E.LastStep(s, ls);
      NothingMissed(s, before, q);
      RunKeepsSymbols(s, before);
    }
  }

  lemma NothingTallied(s: E.State, ls: seq<Label>, s': E.State, q: Queue, size: nat)
    requires Leads(s, ls, s', q) && Ready(s, size)
    ensures Tallies(s, ls, s', q, 0, 0)
  {
    NothingMissed(s, ls, q);
    NoClears(s, ls);
  }

  lemma OneMissed(s: E.State, l: Label, q: Queue)
    requires E.Step(s, l).Some? && Misses(s.core, l, q) && !l.Clear? && !l.Enter?
    ensures Tallies(s, [l], E.Step(s, l).value, q, 1, 0)
  {
    E.OneStep(s, l, E.Step(s, l).value);
    assert [l][..0] == [];
    assert AllMisses(s, [], q) == 0;
  }

  lemma OneReset(s: E.State, s': E.State, q: Queue)
    requires E.Run(s, ResetAndEnable(0)) == Some(s') && s.core.symbols.wait && s.core.symbols.release
    ensures Tallies(s, ResetAndEnable(0), s', q, 0, 1)
  {
    var labels := ResetAndEnable(0);
    NothingMissed(s, labels, q);
    NoClears(s, labels[..6]);
    assert labels[..7][..6] == labels[..6] && labels[..8][..7] == labels[..7] && labels[..8] == labels;
    assert AllClears(labels[..7]) == AllClears(labels[..6]) + 1;
    assert AllClears(labels) == AllClears(labels[..7]);
  }

  /** A wait that fails: one boundary missed, the command still unfinished. */
  lemma FailWait(s: E.State, q: Queue, size: nat, t: Thread) returns (ls: seq<Label>, s': E.State)
    requires Running(s, q, size) && Stuck(s, t, q)
    ensures Tallies(s, ls, s', q, 1, 0) && Running(s', q, size) && s'.ticked == s.ticked
    ensures s'.core.threads == s.core.threads[t := Idle]
    ensures LineOf(s'.core.device, q) == LineOf(s.core.device, q)
  {
    var event := s.core.threads[t].event;
    var failing := Wait(t, CL_WAIT_FAILED, 0, 0);
    var a := E.Step(s, failing).value;
    E.OneStep(s, failing, a);
    OneMissed(s, failing, q);
    var b := E.Step(a, Record(t, false)).value;
    OneStep(a, Record(t, false), b, q);
    var more, c := EndRecord(b, q, size, t, event, CL_WAIT_FAILED);
    Join(a, [Record(t, false)], b, more, c, q);
    NothingTallied(a, [Record(t, false)] + more, c, q, size);
    JoinTallies(s, [failing], a, [Record(t, false)] + more, c, q, 1, 0, 0, 0);
    ls, s' := [failing] + ([Record(t, false)] + more), c;
  }

  /** Thread 0 fills windows whose waits all fail. */
  lemma {:induction false} MissWindows(s: E.State, q: Queue, size: nat, misses: nat)
    returns (ls: seq<Label>, s': E.State)
    requires Running(s, q, size) && IsAt(s.core, 0, Idle) && |s.ticked| % size == 0
    ensures Tallies(s, ls, s', q, misses, 0) && Running(s', q, size) && |s'.ticked| % size == 0
    ensures s'.core.threads == s.core.threads && Outstanding(s', q) == Outstanding(s, q) + Windows(misses, size)
  {
    hide Leads, Tallies, E.Coherent, LineOf;
    if misses == 0 {
      NoSteps(s, q);
      NothingTallied(s, [], s, q, size);
      ls, s' := [], s;
    } else {
      var a, m := MissWindows(s, q, size, misses - 1);
      var b, n := OneWindow(m, q, size, 0);
      NothingTallied(m, b, n, q, size);
      var c, f := FailWait(n, q, size, 0);
      JoinTallies(s, a, m, b, n, q, misses - 1, 0, 0, 0);
      JoinTallies(s, a + b, n, c, f, q, misses - 1, 0, 1, 0);
      assert f.core.threads == s.core.threads;
      assert Outstanding(f, q) == Outstanding(n, q) by { SameLine(n, f, q); }
      ls, s' := a + b + c, f;
    }
  }

  lemma SameLine(s: E.State, s': E.State, q: Queue)
    requires LineOf(s'.core.device, q) == LineOf(s.core.device, q)
    ensures Outstanding(s', q) == Outstanding(s, q)
  {
  }

  /** Thread 0 resets: the count starts over and the queue does not notice. */
  lemma ResetHere(s: E.State, q: Queue, size: nat) returns (s': E.State)
    requires Running(s, q, size) && IsAt(s.core, 0, Idle)
    ensures Tallies(s, ResetAndEnable(0), s', q, 0, 1) && Running(s', q, size) && s'.ticked == []
    ensures s'.core.threads == s.core.threads && Outstanding(s', q) == Outstanding(s, q)
  {
    s' := ResetEffect(s);
    OneReset(s, s', q);
  }

  /** Thread 0 almost fills windows and resets before their boundaries. */
  lemma {:induction false} ClearWindows(s: E.State, q: Queue, size: nat, clears: nat)
    returns (ls: seq<Label>, s': E.State)
    requires Running(s, q, size) && IsAt(s.core, 0, Idle) && |s.ticked| % size == 0
    ensures Tallies(s, ls, s', q, 0, clears) && Running(s', q, size) && |s'.ticked| % size == 0
    ensures s'.core.threads == s.core.threads && Outstanding(s', q) == Outstanding(s, q) + Windows(clears, size - 1)
  {
    hide Leads, Tallies, E.Coherent, LineOf;
    if clears == 0 {
      NoSteps(s, q);
      NothingTallied(s, [], s, q, size);
      ls, s' := [], s;
    } else {
      var a, m := ClearWindows(s, q, size, clears - 1);
      var b, n := Fill(m, q, size, size - 1);
      NothingTallied(m, b, n, q, size);
      var f := ResetHere(n, q, size);
      JoinTallies(s, a, m, b, n, q, 0, clears - 1, 0, 0);
      JoinTallies(s, a + b, n, ResetAndEnable(0), f, q, 0, clears - 1, 0, 1);
      QuotientIs(0, size, 0, 0);
      ls, s' := a + b + ResetAndEnable(0), f;
    }
  }

  /** The whole schedule: hold kernels back, wait for a boundary, let them go, clear some windows before they
      are full, miss some, fill the last ones. */
  lemma FullSchedule(q: Queue, size: nat, threads: nat, misses: nat, clears: nat)
    returns (ls: seq<Label>, final: E.State)
    requires q != NO_QUEUE && size >= 2 && threads > 0
    ensures Tallies(JustEnabled(size, threads), ls, final, q, misses, clears) && Running(final, q, size)
    ensures Outstanding(final, q)
         == threads - 1 + Windows(clears, size - 1) + Windows(misses, size) + Windows(threads, size)
  {
    hide Leads, Tallies, E.Coherent, LineOf;
    var s := JustEnabled(size, threads);
    StartsRunning(q, size, threads);
    var a, m := AllHoldBack(s, q, size, threads, 0);
    var b, n := ToBoundary(m, q, size);
    Join(s, a, m, b, n, q);
    var c, f := AllLate(n, q, size, threads, 0);
    Join(s, a + b, n, c, f, q);
    NothingTallied(s, a + b + c, f, q, size);
    var d, g := ClearWindows(f, q, size, clears);
    JoinTallies(s, a + b + c, f, d, g, q, 0, 0, 0, clears);
    var e, h := MissWindows(g, q, size, misses);
    JoinTallies(s, a + b + c + d, g, e, h, q, 0, clears, misses, 0);
    var r, u := AllWindows(h, q, size, threads, 0);
    NothingTallied(h, r, u, q, size);
    JoinTallies(s, a + b + c + d + e, h, r, u, q, misses, clears, 0, 0);
    ls, final := a + b + c + d + e + r, u;
  }

  lemma ScheduleLeaves(threads: nat, misses: nat, clears: nat, size: nat)
    requires threads > 0 && size > 0
    ensures threads - 1 + Windows(clears, size - 1) + Windows(misses, size) + Windows(threads, size)
         == W.RestartedLimit(threads, misses, clears, size)
  {
    WindowsAreProduct(threads, size);
    WindowsAreProduct(misses, size);
    WindowsAreProduct(clears, size - 1);
    assert (threads + misses) * size == threads * size + misses * size;
    assert (size - 1) * clears == clears * (size - 1);
  }

  /** The limit is reached: by any number of threads, on any queue, with any window of two or more, with any
      number of missed boundaries and any number of clearings. */
  lemma BoundIsReached(q: Queue, size: nat, threads: nat, misses: nat, clears: nat)
    returns (ls: seq<Label>, final: E.State)
    requires q != NO_QUEUE && size >= 2 && threads > 0
    ensures Start(JustEnabled(size, threads), q) && E.Run(JustEnabled(size, threads), ls) == Some(final)
    ensures CountsThroughout(JustEnabled(size, threads), ls, q)
    ensures AllMisses(JustEnabled(size, threads), ls, q) == misses && AllClears(ls) == clears
    ensures |Unfinished(final.core, q, 0)| == W.RestartedLimit(threads, misses, clears, size)
  {
    ls, final := FullSchedule(q, size, threads, misses, clears);
    hide E.Run, AllMisses, AllClears, CountsThroughout, Using, W.RestartedLimit, Windows, Tracked;
    StartUses(JustEnabled(size, threads), q, {q});
    FewHandlesCount(JustEnabled(size, threads), ls, {q}, q);
    UnfinishedAre(final, q);
    ScheduleLeaves(threads, misses, clears, size);
  }
}
