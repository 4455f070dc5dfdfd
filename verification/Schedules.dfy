/** The moves that concrete runs of the experimental shim are built from. */
module Schedules {
  import opened Counting
  import opened QueueTable
  import opened ShimCore
  import E = ExperimentalShim
  import opened KernelBound
  import opened Wrappers

  /** CL_INVALID_COMMAND_QUEUE, the answer to a NULL queue. */
  const CL_INVALID_COMMAND_QUEUE := -36

  function TheCall(q: Queue): Call {
    Call(q, 0, false)
  }

  /** Nothing is cleared and nothing fails. */
  predicate Fine(l: Label) {
    !l.Clear? && (l.Enqueue? ==> l.status == CL_SUCCESS) && (l.Wait? ==> l.status == CL_SUCCESS)
  }

  /** Every call is on one of these queues. */
  predicate CallsUse(ls: seq<Label>, used: set<Queue>) {
    forall l | l in ls && l.Enter? :: l.call.queue in used
  }

  /** A run in which nothing is cleared, nothing fails, and every call is on this queue. */
  ghost predicate Leads(s: E.State, ls: seq<Label>, s': E.State, q: Queue) {
    E.Run(s, ls) == Some(s') && (forall l | l in ls :: Fine(l)) && CallsUse(ls, {q})
  }

  /** The shim counts: a window, every symbol, the flag up. */
  ghost predicate Ready(s: E.State, size: nat) {
    && size > 0 && s.window == size
    && s.core.symbols == Symbols(true, true, true) && s.core.memory.enabled && E.Coherent(s)
  }

  function Outstanding(s: E.State, q: Queue): int {
    var line := LineOf(s.core.device, q);
    |line.counted| - line.done
  }

  lemma Join(s: E.State, a: seq<Label>, m: E.State, b: seq<Label>, s': E.State, q: Queue)
    requires Leads(s, a, m, q) && Leads(m, b, s', q)
    ensures Leads(s, a + b, s', q)
  {
    hide E.Run;
    E.Join(s, a, m, b, s');
  }

  lemma NoSteps(s: E.State, q: Queue)
    ensures Leads(s, [], s, q)
  {
  }

  lemma OneStep(s: E.State, l: Label, s': E.State, q: Queue)
    requires E.Step(s, l) == Some(s') && Fine(l) && (l.Enter? ==> l.call.queue == q)
    ensures Leads(s, [l], s', q)
  {
    E.OneStep(s, l, s');
  }

  /** A thread enters a call on a queue and is counted. */
  lemma Count(s: E.State, q: Queue, size: nat, t: Thread) returns (ls: seq<Label>, s': E.State)
    requires Ready(s, size) && IsAt(s.core, t, Idle)
    ensures Leads(s, ls, s', q) && Ready(s', size)
    ensures s'.ticked == s.ticked + [q] && s'.table == QueueTable.Tick(s.table, q)
    ensures s'.core.threads == s.core.threads[t := Submitting(TheCall(q), true, CountAfter(s.table, q) % size == 0)]
    ensures s'.core.device == s.core.device && s'.core.trace == s.core.trace
  {
    hide E.Coherent;
    var call := TheCall(q);
    var a := s.(core := Goto(s.core, t, Entered(call)));
    OneStep(s, Enter(t, call), a, q);
    var b := a.(core := Goto(a.core, t, Counting(call)));
    OneStep(a, LoadFlag(t), b, q);
    var c := E.Step(b, Bump(t)).value;
    OneStep(b, Bump(t), c, q);
    s' := E.Step(c, Tick(t)).value;
    OneStep(c, Tick(t), s', q);
    E.StepKeepsCoherent(c, Tick(t)) by { SameTable(s, c); }
    Join(s, [Enter(t, call)], a, [LoadFlag(t)], b, q);
    Join(s, [Enter(t, call)] + [LoadFlag(t)], b, [Bump(t)], c, q);
    ls := [Enter(t, call)] + [LoadFlag(t)] + [Bump(t)] + [Tick(t)];
    Join(s, [Enter(t, call)] + [LoadFlag(t)] + [Bump(t)], c, [Tick(t)], s', q);
  }

  lemma SameTable(s: E.State, s': E.State)
    requires E.Coherent(s) && s'.table == s.table && s'.ticked == s.ticked
    ensures E.Coherent(s')
  {
  }

  /** What is seen of an accepted kernel that is no boundary. */
  function Accepted(q: Queue, t: Thread): seq<Observation> {
    [VendorEnqueue(t, TheCall(q), false, CL_SUCCESS), Returned(t, CL_SUCCESS)]
  }

  /** Its kernel is accepted; a boundary is then waited for. */
  lemma Submit(s: E.State, q: Queue, size: nat, t: Thread, wait: bool) returns (ls: seq<Label>, s': E.State)
    requires Ready(s, size) && IsAt(s.core, t, Submitting(TheCall(q), true, wait))
    ensures Leads(s, ls, s', q) && Ready(s', size) && s'.ticked == s.ticked && s'.table == s.table
    ensures var line, event := LineOf(s.core.device, q), |s.core.device.events| + 1;
            && LineOf(s'.core.device, q) == Line(line.counted + [true], line.done)
            && (forall x | x != q :: LineOf(s'.core.device, x) == LineOf(s.core.device, x))
            && s'.core.threads == s.core.threads[t := if wait then Waiting(TheCall(q), event) else Idle]
            && (wait ==> Stands(s'.core.device, event, q, |line.counted|))
    ensures !wait ==> s'.core.trace == s.core.trace + Accepted(q, t)
  {
    var l := Enqueue(t, CL_SUCCESS, true);
    s' := E.Step(s, l).value;
    ls := [l];
    OneStep(s, l, s', q);
    EnqueueEffect(s.core, t, CL_SUCCESS, true);
    SameTable(s, s');
  }

  /** Its kernel is refused. */
  lemma Refuse(s: E.State, q: Queue, size: nat, t: Thread, wait: bool, status: int)
    returns (ls: seq<Label>, s': E.State)
    requires Ready(s, size) && IsAt(s.core, t, Submitting(TheCall(q), true, wait)) && status != CL_SUCCESS
    ensures E.Run(s, ls) == Some(s') && NeverClears(ls) && CallsUse(ls, {})
    ensures Ready(s', size) && s'.ticked == s.ticked && s'.table == s.table
    ensures s'.core.threads == s.core.threads[t := Idle] && s'.core.device == s.core.device
    ensures s'.core.trace == s.core.trace + [VendorEnqueue(t, TheCall(q), wait, status), Returned(t, status)]
  {
    var l := Enqueue(t, status, false);
    s' := E.Step(s, l).value;
    ls := [l];
    E.OneStep(s, l, s');
    SameTable(s, s');
  }

  /** The device finishes the oldest command. */
  lemma FinishOne(s: E.State, q: Queue, size: nat) returns (ls: seq<Label>, s': E.State)
    requires Ready(s, size) && Outstanding(s, q) > 0
    ensures Leads(s, ls, s', q) && Ready(s', size) && s'.ticked == s.ticked && s'.core.threads == s.core.threads
    ensures var line := LineOf(s.core.device, q); LineOf(s'.core.device, q) == Line(line.counted, line.done + 1)
    ensures s'.core.device.events == s.core.device.events
  {
    var l := Complete(q);
    s' := E.Step(s, l).value;
    ls := [l];
    OneStep(s, l, s', q);
  }

  /** A waiting thread whose command is complete records a wait of no time, releases and returns. */
  lemma EndWait(s: E.State, q: Queue, size: nat, t: Thread, event: Event) returns (ls: seq<Label>, s': E.State)
    requires Ready(s, size) && IsAt(s.core, t, Waiting(TheCall(q), event)) && EventComplete(s.core.device, event)
    ensures Leads(s, ls, s', q) && Ready(s', size) && s'.ticked == s.ticked
    ensures s'.core.threads == s.core.threads[t := Idle]
    ensures LineOf(s'.core.device, q) == LineOf(s.core.device, q)
  {
    var call := TheCall(q);
    var a := E.Step(s, Wait(t, CL_SUCCESS, 0, 0)).value;
    OneStep(s, Wait(t, CL_SUCCESS, 0, 0), a, q);
    var b := E.Step(a, Record(t, false)).value;
    OneStep(a, Record(t, false), b, q);
    Join(s, [Wait(t, CL_SUCCESS, 0, 0)], a, [Record(t, false)], b, q);
    var more;
    more, s' := EndRecord(b, q, size, t, event, CL_SUCCESS);
    ls := [Wait(t, CL_SUCCESS, 0, 0)] + [Record(t, false)] + more;
    Join(s, [Wait(t, CL_SUCCESS, 0, 0)] + [Record(t, false)], b, more, s', q);
  }

  lemma EndRecord(s: E.State, q: Queue, size: nat, t: Thread, event: Event, status: int)
    returns (ls: seq<Label>, s': E.State)
    requires Ready(s, size) && 0 < event <= |s.core.device.events|
    requires IsAt(s.core, t, Recording(TheCall(q), event, status, AddTotal(0)))
    ensures Leads(s, ls, s', q) && Ready(s', size) && s'.ticked == s.ticked
    ensures s'.core.threads == s.core.threads[t := Idle]
    ensures LineOf(s'.core.device, q) == LineOf(s.core.device, q)
  {
    var c := E.Step(s, Record(t, false)).value;
    OneStep(s, Record(t, false), c, q);
    var d := E.Step(c, Record(t, false)).value;
    OneStep(c, Record(t, false), d, q);
    s' := E.Step(d, Release(t, CL_SUCCESS)).value;
    OneStep(d, Release(t, CL_SUCCESS), s', q);
    Join(s, [Record(t, false)], c, [Record(t, false)], d, q);
    ls := [Record(t, false)] + [Record(t, false)] + [Release(t, CL_SUCCESS)];
    Join(s, [Record(t, false)] + [Record(t, false)], d, [Release(t, CL_SUCCESS)], s', q);
  }

  /** Inference has just been enabled and nothing was ever enqueued. */
  function JustEnabled(size: nat, threads: nat): E.State {
    E.State(
      Core(Symbols(true, true, true), seq(threads, _ => Idle), Memory(true, 0, 0, 0, 0), Device(map[], []), [],
           History(0, [], 0, 0, 0, 0, Snapshot(0, 0, 0, 0), 0, true)),
      size, Cleared(), [])
  }

  /** On a line of counted kernels alone, the unfinished ones are those not done. */
  lemma UnfinishedAre(s: E.State, q: Queue)
    requires LineOf(s.core.device, q).done <= |LineOf(s.core.device, q).counted|
    requires forall p | 0 <= p < |LineOf(s.core.device, q).counted| :: LineOf(s.core.device, q).counted[p]
    ensures |Unfinished(s.core, q, 0)| == Outstanding(s, q)
  {
    var line := LineOf(s.core.device, q);
    assert Unfinished(s.core, q, 0) == Interval(line.done, |line.counted|);
  }

  // ---------------------------------------------------------------- a reset

  /** nativeReset on an idle thread, then nativeSetInferenceEnabled(true). */
  function ResetAndEnable(t: Thread): seq<Label> {
    [Reset(t), Zero(t, FlagCell), Zero(t, DispatchCell), Zero(t, WaitCell), Zero(t, TotalCell),
     Zero(t, MaximumCell), Clear(t), Exchange(true)]
  }

  /** So far the reset has moved thread 0 to this place and changed no more than the counters. */
  ghost predicate OnlyCounters(s: E.State, m: E.State, pc: Pc) {
    && m.core.device == s.core.device && m.core.trace == s.core.trace && m.core.symbols == s.core.symbols
    && m.window == s.window && |s.core.threads| > 0 && m.core.threads == s.core.threads[0 := pc]
  }

  /** Where the thread is before the k-th step of the reset. */
  function PlaceBefore(k: nat): Pc {
    match k
    case 0 => Idle
    case 1 => Resetting(FlagCell)
    case 2 => Resetting(DispatchCell)
    case 3 => Resetting(WaitCell)
    case 4 => Resetting(TotalCell)
    case 5 => Resetting(MaximumCell)
    case 6 => Clearing
    case _ => Idle
  }

  lemma ResetStepMoves(s: E.State, m: E.State, k: nat)
    requires k < 6 && OnlyCounters(s, m, PlaceBefore(k))
    ensures E.Step(m, ResetAndEnable(0)[k]).Some?
    ensures OnlyCounters(s, E.Step(m, ResetAndEnable(0)[k]).value, PlaceBefore(k + 1))
  {
    hide InFlight, Lost;
  }

  lemma {:induction false} ResetMoves(s: E.State, k: nat) returns (m: E.State)
    requires IsAt(s.core, 0, Idle) && k <= 6
    ensures E.Run(s, ResetAndEnable(0)[..k]) == Some(m) && OnlyCounters(s, m, PlaceBefore(k))
  {
    hide E.Step;
    if k == 0 {
      m := s;
    } else {
      var before := ResetMoves(s, k - 1);
      ResetStepMoves(s, before, k - 1);
      m := NextStep(s, ResetAndEnable(0), k - 1, before);
    }
  }

  lemma ClearMoves(s: E.State, m: E.State)
    requires OnlyCounters(s, m, Clearing)
    ensures E.Step(m, Clear(0)).Some? && OnlyCounters(s, E.Step(m, Clear(0)).value, Idle)
    ensures E.Step(m, Clear(0)).value.table == Cleared() && E.Step(m, Clear(0)).value.ticked == []
  {
  }

  lemma EnableMoves(s: E.State, m: E.State)
    requires OnlyCounters(s, m, Idle)
    ensures E.Step(m, Exchange(true)).Some? && OnlyCounters(s, E.Step(m, Exchange(true)).value, Idle)
    ensures var m' := E.Step(m, Exchange(true)).value;
            m'.table == m.table && m'.ticked == m.ticked && m'.core.memory.enabled
  {
  }

  lemma ResetEffect(s: E.State) returns (m: E.State)
    requires IsAt(s.core, 0, Idle)
    ensures E.Run(s, ResetAndEnable(0)) == Some(m)
    ensures m.core.device == s.core.device && m.core.trace == s.core.trace && m.core.threads == s.core.threads
    ensures m.core.symbols == s.core.symbols && m.core.memory.enabled && m.window == s.window
    ensures m.table == Cleared() && m.ticked == []
  {
    hide E.Step;
    var labels := ResetAndEnable(0);
    var a := ResetMoves(s, 6);
    ClearMoves(s, a);
    var b := NextStep(s, labels, 6, a);
    EnableMoves(s, b);
    m := NextStep(s, labels, 7, b);
    assert labels[..8] == labels;
    assert m.core.threads == s.core.threads;
  }

  lemma NextStep(s: E.State, ls: seq<Label>, k: nat, m: E.State) returns (m': E.State)
    requires k < |ls| && E.Run(s, ls[..k]) == Some(m) && E.Step(m, ls[k]).Some?
    ensures E.Step(m, ls[k]) == Some(m') && E.Run(s, ls[..k + 1]) == Some(m')
  {
    m' := E.Step(m, ls[k]).value;
    E.Extend(s, ls[..k], m, ls[k], m');
    assert ls[..k] + [ls[k]] == ls[..k + 1];
  }
}
