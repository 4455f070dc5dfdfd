/** The patched dispatch loop of the OpenCL delegate: kernels go to the queue in batches, and with a
    positive window the loop waits for an event after every `window` batches. */
module DispatchLoop {
  import opened Counting
  import W = BoundedWindow
  import opened Wrappers

  const OK := 0

  /** What a call of AddToQueue does: it enqueues the kernels from the offset up to `end`, and either
      fails or succeeds. The loop sees -1 instead of the end when that was the last kernel. */
  datatype Addition = Failed(end: nat, status: int) | Added(end: nat)

  /** What the queue shows: a batch of kernels, the marker event, the flush, the wait for the marker. */
  datatype Event = Batch(first: nat, end: nat) | Marker | Flush | Wait(succeeded: bool)

  datatype Outcome = Outcome(trace: seq<Event>, status: int)

  /** The inference context and its driver, as the loop meets them: `kernels` to run, and the results
      of AddToQueue, EnqueueEvent and Wait for a batch that starts or ends at an offset. */
  datatype Plan = Plan(kernels: nat, add: nat -> Addition, mark: nat -> int, wait: nat -> bool)

  /** The contract of AddToQueue, whose source is not part of this model: it stays within the kernels
      and makes progress while any are left. */
  ghost predicate Honest(plan: Plan) {
    forall o: nat | o <= plan.kernels ::
      && o <= plan.add(o).end <= plan.kernels
      && (plan.add(o).Failed? ==> plan.add(o).status != OK)
      && (plan.add(o).Added? && o < plan.kernels ==> o < plan.add(o).end)
  }

  function Prepend(events: seq<Event>, outcome: Outcome): Outcome {
    outcome.(trace := events + outcome.trace)
  }

  predicate IsBoundary(window: int, since: nat) {
    window > 0 && since + 1 >= window
  }

  function BatchEvents(first: nat, end: nat, boundary: bool, succeeded: bool): seq<Event> {
    [Batch(first, end)] + (if boundary then [Marker] else []) + [Flush] + (if boundary then [Wait(succeeded)] else [])
  }

  /** The loop from an offset, with `since` batches submitted since the last wait. */
  function Patched(plan: Plan, window: int, offset: nat, since: nat): Outcome
    requires Honest(plan) && offset <= plan.kernels
    decreases plan.kernels - offset
  {
    match plan.add(offset)
    case Failed(end, status) => Outcome([Batch(offset, end)], status)
    case Added(end) =>
      var boundary := IsBoundary(window, since);
      if boundary && plan.mark(end) != OK then Outcome([Batch(offset, end)], plan.mark(end))
      else
        var events := BatchEvents(offset, end, boundary, plan.wait(end));
        if end == plan.kernels then Outcome(events, OK)
        else Prepend(events, Patched(plan, window, end, if boundary then 0 else since + 1))
  }

  /** The loop before the patch. */
  function Unpatched(plan: Plan, offset: nat): Outcome
    requires Honest(plan) && offset <= plan.kernels
    decreases plan.kernels - offset
  {
    match plan.add(offset)
    case Failed(end, status) => Outcome([Batch(offset, end)], status)
    case Added(end) =>
      var events := [Batch(offset, end), Flush];
      if end == plan.kernels then Outcome(events, OK) else Prepend(events, Unpatched(plan, end))
  }

  /** One turn of the loop after the events seen so far. */
  lemma OneTurn(plan: Plan, window: int, offset: nat, since: nat, before: seq<Event>)
    requires Honest(plan) && offset <= plan.kernels
    ensures var added := plan.add(offset);
            var boundary := IsBoundary(window, since);
            var after := before + BatchEvents(offset, added.end, boundary, plan.wait(added.end));
            Prepend(before, Patched(plan, window, offset, since))
            == if added.Failed? then Outcome(before + [Batch(offset, added.end)], added.status)
               else if boundary && plan.mark(added.end) != OK
               then Outcome(before + [Batch(offset, added.end)], plan.mark(added.end))
               else if added.end == plan.kernels then Outcome(after, OK)
               else Prepend(after, Patched(plan, window, added.end, if boundary then 0 else since + 1))
  {
    var added := plan.add(offset);
    if added.Added? && added.end != plan.kernels {
      var boundary := IsBoundary(window, since);
      var events := BatchEvents(offset, added.end, boundary, plan.wait(added.end));
      var rest := Patched(plan, window, added.end, if boundary then 0 else since + 1).trace;
      assert before + (events + rest) == (before + events) + rest;
    }
  }

  class InferenceContext {
    var trace: seq<Event>

    /** GpuInferenceContextOpenClLitert::Dispatch with the patch applied. */
    method Dispatch(plan: Plan, window: int) returns (status: int)
      requires Honest(plan)
      modifies this
      ensures Outcome(trace, status) == Prepend(old(trace), Patched(plan, window, 0, 0))
    {
      var offset, batchesSinceWait := 0, 0;
      var more := true;
      status := OK;
      while more
        invariant 0 <= offset <= plan.kernels && 0 <= batchesSinceWait
        invariant status == OK
        invariant Prepend(old(trace), Patched(plan, window, 0, 0))
               == if more then Prepend(trace, Patched(plan, window, offset, batchesSinceWait)) else Outcome(trace, OK)
        decreases more, plan.kernels - offset
      {
        ghost var before := trace;
        OneTurn(plan, window, offset, batchesSinceWait, before);
        var first := offset;
        var added := plan.add(first);
        trace := trace + [Batch(first, added.end)];
        if added.Failed? {
          return added.status;
        }
        offset := added.end;
        batchesSinceWait := batchesSinceWait + 1;
        var waitForBoundary := window > 0 && batchesSinceWait >= window;
        if waitForBoundary {
          if plan.mark(offset) != OK {
            return plan.mark(offset);
          }
          trace := trace + [Marker];
        }
        trace := trace + [Flush];
        if waitForBoundary {
          trace := trace + [Wait(plan.wait(offset))];
          batchesSinceWait := 0;
        }
        assert trace == before + BatchEvents(first, offset, waitForBoundary, plan.wait(offset));
        more := offset != plan.kernels;
      }
    }

    /** The same loop before the patch. */
    method DispatchUnpatched(plan: Plan) returns (status: int)
      requires Honest(plan)
      modifies this
      ensures Outcome(trace, status) == Prepend(old(trace), Unpatched(plan, 0))
    {
      var offset := 0;
      var more := true;
      status := OK;
      while more
        invariant 0 <= offset <= plan.kernels
        invariant status == OK
        invariant Prepend(old(trace), Unpatched(plan, 0))
               == if more then Prepend(trace, Unpatched(plan, offset)) else Outcome(trace, OK)
        decreases more, plan.kernels - offset
      {
        var added := plan.add(offset);
        trace := trace + [Batch(offset, added.end)];
        if added.Failed? {
          return added.status;
        }
        offset := added.end;
        trace := trace + [Flush];
        more := offset != plan.kernels;
      }
    }
  }

  /** Queue window 0 is behaviourally equivalent to the unpatched loop: the same commands in the same
      order and the same status, errors included. */
  lemma {:induction false} WindowZeroIsUnpatched(plan: Plan, window: int, offset: nat, since: nat)
    requires Honest(plan) && offset <= plan.kernels && window <= 0
    ensures Patched(plan, window, offset, since) == Unpatched(plan, offset)
    decreases plan.kernels - offset
  {
    var added := plan.add(offset);
    if added.Added? && added.end != plan.kernels {
      WindowZeroIsUnpatched(plan, window, added.end, since + 1);
    }
  }

  // ---------------------------------------------------------------- every kernel, once and in order

  function Range(first: nat, end: nat): seq<nat>
    requires first <= end
  {
    seq(end - first, i => first + i)
  }

  function KernelsOf(event: Event): seq<nat> {
    if event.Batch? && event.first <= event.end then Range(event.first, event.end) else []
  }

  function Kernels(trace: seq<Event>): seq<nat> {
    if trace == [] then [] else KernelsOf(trace[0]) + Kernels(trace[1..])
  }

  lemma Associative(a: seq<nat>, b: seq<nat>, c: seq<nat>)
    ensures a + (b + c) == (a + b) + c
  {
  }

  lemma {:induction false} KernelsConcat(a: seq<Event>, b: seq<Event>)
    ensures Kernels(a + b) == Kernels(a) + Kernels(b)
  {
    if a == [] {
      assert a + b == b;
    } else {
      KernelsConcat(a[1..], b);
      assert (a + b)[1..] == a[1..] + b && (a + b)[0] == a[0];
      assert Kernels(a + b) == KernelsOf(a[0]) + (Kernels(a[1..]) + Kernels(b));
      Associative(KernelsOf(a[0]), Kernels(a[1..]), Kernels(b));
    }
  }

  lemma BatchKernels(first: nat, end: nat, boundary: bool, succeeded: bool)
    requires first <= end
    ensures Kernels(BatchEvents(first, end, boundary, succeeded)) == Range(first, end)
    ensures Kernels([Batch(first, end)]) == Range(first, end)
  {
    var tail := (if boundary then [Marker] else []) + [Flush] + (if boundary then [Wait(succeeded)] else []);
    assert BatchEvents(first, end, boundary, succeeded) == [Batch(first, end)] + tail;
    KernelsConcat([Batch(first, end)], tail);
    if boundary {
      assert tail == [Marker, Flush, Wait(succeeded)] && Kernels([Wait(succeeded)]) == [];
      assert tail[1..] == [Flush, Wait(succeeded)] && tail[1..][1..] == [Wait(succeeded)];
      assert Kernels(tail[1..]) == [];
    } else {
      assert tail == [Flush];
    }
  }

  /** The kernels reach the queue in order, each once; all of them unless the loop reports an error. */
  lemma {:induction false} KernelsInOrder(plan: Plan, window: int, offset: nat, since: nat) returns (end: nat)
    requires Honest(plan) && offset <= plan.kernels
    ensures offset <= end <= plan.kernels
    ensures Kernels(Patched(plan, window, offset, since).trace) == Range(offset, end)
    ensures Patched(plan, window, offset, since).status == OK ==> end == plan.kernels
    decreases plan.kernels - offset
  {
    hide Kernels, BatchEvents;
    var added := plan.add(offset);
    var boundary := IsBoundary(window, since);
    BatchKernels(offset, added.end, boundary, plan.wait(added.end));
    if added.Failed? || (boundary && plan.mark(added.end) != OK) || added.end == plan.kernels {
      end := added.end;
    } else {
      var since' := if boundary then 0 else since + 1;
      end := KernelsInOrder(plan, window, added.end, since');
      KernelsConcat(BatchEvents(offset, added.end, boundary, plan.wait(added.end)),
                    Patched(plan, window, added.end, since').trace);
      assert Range(offset, added.end) + Range(added.end, end) == Range(offset, end);
    }
  }

  // ---------------------------------------------------------------- waits

  function Batches(trace: seq<Event>): nat {
    if trace == [] then 0 else (if trace[0].Batch? then 1 else 0) + Batches(trace[1..])
  }

  function Waits(trace: seq<Event>): nat {
    if trace == [] then 0 else (if trace[0].Wait? then 1 else 0) + Waits(trace[1..])
  }

  /** Batches submitted and not followed by a wait, when `before` were outstanding already. */
  function Unwaited(before: nat, trace: seq<Event>): nat
    decreases trace
  {
    if trace == [] then before
    else Unwaited(if trace[0].Batch? then before + 1 else if trace[0].Wait? then 0 else before, trace[1..])
  }

  function Confirm(before: nat, event: Event): nat {
    if event.Batch? then before + 1 else if event == Wait(true) then 0 else before
  }

  /** Batches submitted and not followed by a successful wait, when `before` were outstanding already. */
  function Unconfirmed(before: nat, trace: seq<Event>): nat
    decreases trace
  {
    if trace == [] then before else Unconfirmed(Confirm(before, trace[0]), trace[1..])
  }

  function Fail(row: nat, event: Event): nat {
    if event == Wait(false) then row + 1 else if event == Wait(true) then 0 else row
  }

  /** Waits failed in a row at the end of a trace, when `row` had failed before it. */
  function FailedInARow(row: nat, trace: seq<Event>): nat
    decreases trace
  {
    if trace == [] then row else FailedInARow(Fail(row, trace[0]), trace[1..])
  }

  lemma {:induction false} ConfirmedConcat(before: nat, row: nat, a: seq<Event>, b: seq<Event>)
    ensures Unconfirmed(before, a + b) == Unconfirmed(Unconfirmed(before, a), b)
    ensures FailedInARow(row, a + b) == FailedInARow(FailedInARow(row, a), b)
    decreases a
  {
    if a == [] {
      assert a + b == b;
    } else {
      ConfirmedConcat(Confirm(before, a[0]), Fail(row, a[0]), a[1..], b);
      assert (a + b)[1..] == a[1..] + b;
    }
  }

  lemma {:induction false} FewUnconfirmed(before: nat, trace: seq<Event>)
    ensures Unconfirmed(before, trace) <= before + Batches(trace)
    decreases trace
  {
    if trace != [] { FewUnconfirmed(Confirm(before, trace[0]), trace[1..]); }
  }

  lemma {:induction false} TraceConcat(before: nat, a: seq<Event>, b: seq<Event>)
    ensures Batches(a + b) == Batches(a) + Batches(b) && Waits(a + b) == Waits(a) + Waits(b)
    ensures Unwaited(before, a + b) == Unwaited(Unwaited(before, a), b)
    decreases a
  {
    if a == [] {
      assert a + b == b;
    } else {
      TraceConcat(if a[0].Batch? then before + 1 else if a[0].Wait? then 0 else before, a[1..], b);
      assert (a + b)[1..] == a[1..] + b;
    }
  }

  /** The counts of a trace from those of its tail. */
  lemma CountsOf(trace: seq<Event>)
    requires trace != []
    ensures Batches(trace) == (if trace[0].Batch? then 1 else 0) + Batches(trace[1..])
    ensures Waits(trace) == (if trace[0].Wait? then 1 else 0) + Waits(trace[1..])
    ensures forall before: nat :: Unwaited(before, trace) ==
              Unwaited(if trace[0].Batch? then before + 1 else if trace[0].Wait? then 0 else before, trace[1..])
  {
  }

  lemma BatchCounts(before: nat, first: nat, end: nat, boundary: bool, succeeded: bool)
    ensures var events := BatchEvents(first, end, boundary, succeeded);
            && Batches(events) == 1 && Waits(events) == (if boundary then 1 else 0)
            && Unwaited(before, events) == (if boundary then 0 else before + 1)
            && forall i | 0 <= i <= |events| :: Unwaited(before, events[..i]) <= before + 1
    ensures Batches([Batch(first, end)]) == 1 && Waits([Batch(first, end)]) == 0
    ensures Unwaited(before, [Batch(first, end)]) == before + 1
  {
    var events := BatchEvents(first, end, boundary, succeeded);
    if boundary {
      assert events == [Batch(first, end), Marker, Flush, Wait(succeeded)];
      assert events[1..] == [Marker, Flush, Wait(succeeded)];
      assert events[1..][1..] == [Flush, Wait(succeeded)];
      assert events[1..][1..][1..] == [Wait(succeeded)];
      CountsOf([Wait(succeeded)]);
      CountsOf([Flush, Wait(succeeded)]);
      CountsOf([Marker, Flush, Wait(succeeded)]);
      CountsOf(events);
    } else {
      assert events == [Batch(first, end), Flush];
      assert events[1..] == [Flush];
      CountsOf([Flush]);
      CountsOf(events);
    }
    forall i | 0 <= i <= |events| ensures Unwaited(before, events[..i]) <= before + 1 {
      FewBatches(before, events[..i]);
      TraceConcat(before, events[..i], events[i..]);
      assert events == events[..i] + events[i..];
    }
  }

  lemma {:induction false} FewBatches(before: nat, trace: seq<Event>)
    ensures Unwaited(before, trace) <= before + Batches(trace)
    decreases trace
  {
    if trace != [] {
      FewBatches(if trace[0].Batch? then before + 1 else if trace[0].Wait? then 0 else before, trace[1..]);
    }
  }

  /** An error-free run waits after exactly every window-th batch, and the reset counter ends as the
      number of batches modulo the window. */
  lemma {:induction false} WaitsExactly(plan: Plan, window: nat, offset: nat, since: nat)
    requires Honest(plan) && offset <= plan.kernels && since < window
    requires Patched(plan, window, offset, since).status == OK
    ensures var trace := Patched(plan, window, offset, since).trace;
            && Waits(trace) == (since + Batches(trace)) / window
            && Unwaited(since, trace) == (since + Batches(trace)) % window
    decreases plan.kernels - offset
  {
    var added := plan.add(offset);
    var boundary := IsBoundary(window, since);
    var events := BatchEvents(offset, added.end, boundary, plan.wait(added.end));
    var since' := if boundary then 0 else since + 1;
    BatchCounts(since, offset, added.end, boundary, plan.wait(added.end));
    if added.end == plan.kernels {
      QuotientIs(since + 1, window, if boundary then 1 else 0, since');
    } else {
      var rest := Patched(plan, window, added.end, since').trace;
      WaitsExactly(plan, window, added.end, since');
      TraceConcat(since, events, rest);
      if boundary { OneMoreWindow(Batches(rest), window); }
    }
  }

  lemma OneMoreWindow(d: nat, n: nat)
    requires n > 0
    ensures (n + d) / n == d / n + 1 && (n + d) % n == d % n
  {
    assert n + d == n * (d / n + 1) + d % n;
    QuotientIs(n + d, n, d / n + 1, d % n);
  }

  lemma PrefixOfBoth(a: seq<Event>, b: seq<Event>, i: nat)
    requires |a| <= i <= |a| + |b|
    ensures (a + b)[..i] == a + b[..i - |a|]
  {
  }

  /** At every moment of every run, errors included, at most `window` batches are not waited for. */
  lemma {:induction false} NeverMoreThanWindow(plan: Plan, window: nat, offset: nat, since: nat, i: nat)
    requires Honest(plan) && offset <= plan.kernels && since < window
    requires i <= |Patched(plan, window, offset, since).trace|
    ensures Unwaited(since, Patched(plan, window, offset, since).trace[..i]) <= window
    decreases plan.kernels - offset
  {
    var added := plan.add(offset);
    var boundary := IsBoundary(window, since);
    var events := BatchEvents(offset, added.end, boundary, plan.wait(added.end));
    var trace := Patched(plan, window, offset, since).trace;
    BatchCounts(since, offset, added.end, boundary, plan.wait(added.end));
    if added.Failed? || (boundary && plan.mark(added.end) != OK) {
      assert trace[..i] == [] || trace[..i] == trace;
    } else if added.end != plan.kernels && i > |events| {
      var since' := if boundary then 0 else since + 1;
      var rest := Patched(plan, window, added.end, since').trace;
      NeverMoreThanWindow(plan, window, added.end, since', i - |events|);
      TraceConcat(since, events, rest[..i - |events|]);
      assert trace == events + rest;
      PrefixOfBoth(events, rest, i);
    } else {
      assert trace[..i] == events[..i];
    }
  }

  /** What one turn leaves unconfirmed: nothing after a successful wait, a whole window more after one
      that failed. */
  lemma TurnConfirms(window: nat, since: nat, row: nat, before: nat, first: nat, end: nat, succeeded: bool)
    requires since < window && before == row * window + since
    ensures var boundary := IsBoundary(window, since);
            var events := BatchEvents(first, end, boundary, succeeded);
            && FailedInARow(row, events) == (if !boundary then row else if succeeded then 0 else row + 1)
            && Unconfirmed(before, events)
               == FailedInARow(row, events) * window + if boundary then 0 else since + 1
  {
    var boundary := IsBoundary(window, since);
    var events := BatchEvents(first, end, boundary, succeeded);
    assert (row + 1) * window == row * window + window;
    if boundary {
      var quiet := [Batch(first, end), Marker, Flush];
      BatchThenQuiet(before, row, quiet);
      ConfirmedConcat(before, row, quiet, [Wait(succeeded)]);
      assert events == quiet + [Wait(succeeded)];
    } else {
      BatchThenQuiet(before, row, events);
    }
  }

  lemma BatchThenQuiet(before: nat, row: nat, trace: seq<Event>)
    requires trace != [] && trace[0].Batch? && forall e | e in trace[1..] :: !e.Batch? && !e.Wait?
    ensures Unconfirmed(before, trace) == before + 1 && FailedInARow(row, trace) == row
  {
    WithoutWaits(before + 1, row, trace[1..]);
  }

  /** During a turn a window more than the failed waits account for is never exceeded. */
  lemma TurnWithinLimit(
    window: nat, since: nat, row: nat, before: nat, first: nat, end: nat, succeeded: bool, i: nat)
    requires since < window && before == row * window + since
    requires i <= |BatchEvents(first, end, IsBoundary(window, since), succeeded)|
    ensures var seen := BatchEvents(first, end, IsBoundary(window, since), succeeded)[..i];
            Unconfirmed(before, seen) <= (1 + FailedInARow(row, seen)) * window
  {
    var events := BatchEvents(first, end, IsBoundary(window, since), succeeded);
    assert (1 + row) * window == row * window + window;
    if i == |events| {
      assert events[..i] == events;
      TurnConfirms(window, since, row, before, first, end, succeeded);
      assert (1 + FailedInARow(row, events)) * window == FailedInARow(row, events) * window + window;
    } else if i > 0 {
      BatchThenQuiet(before, row, events[..i]);
    }
  }

  lemma {:induction false} WithoutWaits(before: nat, row: nat, trace: seq<Event>)
    requires forall e | e in trace :: !e.Batch? && !e.Wait?
    ensures Unconfirmed(before, trace) == before && FailedInARow(row, trace) == row
    decreases trace
  {
    if trace != [] {
      assert trace[0] in trace && forall e | e in trace[1..] :: e in trace;
      WithoutWaits(before, row, trace[1..]);
    }
  }

  /** The loop ignores the result of Wait(): at every moment the batches without a successful wait are at
      most one window, and one window more for each wait that failed since the last successful one. */
  lemma {:induction false} UnconfirmedAreBounded(
    plan: Plan, window: nat, offset: nat, since: nat, row: nat, before: nat, i: nat)
    requires Honest(plan) && offset <= plan.kernels && since < window && before == row * window + since
    requires i <= |Patched(plan, window, offset, since).trace|
    ensures var trace := Patched(plan, window, offset, since).trace[..i];
            Unconfirmed(before, trace) <= (1 + FailedInARow(row, trace)) * window
    decreases plan.kernels - offset
  {
    hide BatchEvents, Unconfirmed, FailedInARow;
    var added := plan.add(offset);
    var boundary := IsBoundary(window, since);
    var events := BatchEvents(offset, added.end, boundary, plan.wait(added.end));
    var trace := Patched(plan, window, offset, since).trace;
    if added.Failed? || (boundary && plan.mark(added.end) != OK) {
      BatchesAlone(window, since, row, before, offset, added.end, plan.wait(added.end), trace[..i]);
    } else if added.end != plan.kernels && i > |events| {
      TurnConfirms(window, since, row, before, offset, added.end, plan.wait(added.end));
      var since' := if boundary then 0 else since + 1;
      var rest := Patched(plan, window, added.end, since').trace;
      UnconfirmedAreBounded(plan, window, added.end, since', FailedInARow(row, events),
                            Unconfirmed(before, events), i - |events|);
      ConfirmedConcat(before, row, events, rest[..i - |events|]);
      assert trace == events + rest;
      PrefixOfBoth(events, rest, i);
    } else {
      TurnWithinLimit(window, since, row, before, offset, added.end, plan.wait(added.end), i);
      assert trace[..i] == events[..i];
    }
  }

  /** A turn that ends in an error shows the beginning of its batch at most. */
  lemma BatchesAlone(
    window: nat, since: nat, row: nat, before: nat, first: nat, end: nat, succeeded: bool, seen: seq<Event>)
    requires since < window && before == row * window + since
    requires seen == [] || seen == [Batch(first, end)]
    ensures Unconfirmed(before, seen) <= (1 + FailedInARow(row, seen)) * window
  {
    var events := BatchEvents(first, end, IsBoundary(window, since), succeeded);
    assert events[..|seen|] == seen;
    TurnWithinLimit(window, since, row, before, first, end, succeeded, |seen|);
  }

  /** The loop that counts all batches and waits at the multiples of the window. */
  function ByCount(plan: Plan, window: nat, offset: nat, batches: nat): Outcome
    requires Honest(plan) && offset <= plan.kernels && window > 0
    decreases plan.kernels - offset
  {
    match plan.add(offset)
    case Failed(end, status) => Outcome([Batch(offset, end)], status)
    case Added(end) =>
      var boundary := (batches + 1) % window == 0;
      if boundary && plan.mark(end) != OK then Outcome([Batch(offset, end)], plan.mark(end))
      else
        var events := BatchEvents(offset, end, boundary, plan.wait(end));
        if end == plan.kernels then Outcome(events, OK)
        else Prepend(events, ByCount(plan, window, end, batches + 1))
  }

  /** The counter that is reset at each wait and the count taken modulo the window, as the shim does,
      make the same decision at every step. */
  lemma {:induction false} ResetCounterIsModulo(plan: Plan, window: nat, offset: nat, batches: nat)
    requires Honest(plan) && offset <= plan.kernels && window > 0
    ensures Patched(plan, window, offset, batches % window) == ByCount(plan, window, offset, batches)
    decreases plan.kernels - offset
  {
    NextQuotient(batches, window);
    var added := plan.add(offset);
    assert IsBoundary(window, batches % window) <==> (batches + 1) % window == 0;
    if added.Added? && added.end != plan.kernels {
      ResetCounterIsModulo(plan, window, added.end, batches + 1);
    }
  }

  // ---------------------------------------------------------------- the order of commands

  /** The batch an offset begins, as the driver enqueued it, and what waiting for it gives. */
  predicate IsBatchOf(plan: Plan, event: Event) {
    event.Batch? && event.end == plan.add(event.first).end
  }

  /** What must stand before and after an event: a wait follows the flush of the marker of a batch, and its
      result is that batch's; a marker was enqueued without an error and is flushed and waited for; a flush
      follows a batch or its marker; and a batch that succeeded is flushed before anything else happens. */
  predicate InPlace(plan: Plan, trace: seq<Event>, i: nat)
    requires i < |trace|
  {
    match trace[i]
    case Wait(succeeded) =>
      i >= 3 && trace[i - 1] == Flush && trace[i - 2] == Marker && IsBatchOf(plan, trace[i - 3])
      && succeeded == plan.wait(trace[i - 3].end)
    case Marker =>
      i >= 1 && IsBatchOf(plan, trace[i - 1]) && plan.mark(trace[i - 1].end) == OK
      && i + 2 < |trace| && trace[i + 1] == Flush && trace[i + 2].Wait?
    case Flush => i >= 1 && (trace[i - 1] == Marker || IsBatchOf(plan, trace[i - 1]))
    case Batch(first, _) =>
      && IsBatchOf(plan, trace[i])
      && (i + 1 < |trace| ==>
            plan.add(first).Added? && (trace[i + 1] == Flush || (trace[i + 1] == Marker && i + 2 < |trace| && trace[i + 2] == Flush)))
  }

  /** Every event is in place, and the trace ends as its status says: after a flush or a wait when all went
      well, or with the batch whose adding or marking gave the error. */
  ghost predicate WellShaped(plan: Plan, outcome: Outcome) {
    var trace := outcome.trace;
    && trace != [] && trace[0].Batch? && (forall i | 0 <= i < |trace| :: InPlace(plan, trace, i))
    && var last := trace[|trace| - 1];
       if outcome.status == OK then (last == Flush || last.Wait?) && LastBatch(trace) == plan.kernels
       else IsBatchOf(plan, last)
            && match plan.add(last.first)
               case Failed(_, status) => outcome.status == status
               case Added(end) => outcome.status == plan.mark(end)
  }

  /** Where the last batch ends. */
  function LastBatch(trace: seq<Event>): nat {
    if trace == [] then 0
    else if trace[|trace| - 1].Batch? then trace[|trace| - 1].end
    else LastBatch(trace[..|trace| - 1])
  }

  lemma {:induction false} LastBatchConcat(a: seq<Event>, b: seq<Event>)
    requires b != [] && b[0].Batch?
    ensures LastBatch(a + b) == LastBatch(b)
  {
    assert (a + b)[..|a + b| - 1] == a + b[..|b| - 1];
    if |b| > 1 && !b[|b| - 1].Batch? { LastBatchConcat(a, b[..|b| - 1]); }
  }

  lemma LastBatchStays(trace: seq<Event>, event: Event)
    requires !event.Batch?
    ensures LastBatch(trace + [event]) == LastBatch(trace)
  {
    assert (trace + [event])[..|trace|] == trace;
  }

  lemma TurnIsInPlace(plan: Plan, first: nat, boundary: bool)
    requires plan.add(first).Added? && (boundary ==> plan.mark(plan.add(first).end) == OK)
    ensures var end := plan.add(first).end;
            var events := BatchEvents(first, end, boundary, plan.wait(end));
            && (forall i | 0 <= i < |events| :: InPlace(plan, events, i))
            && events != [] && events[0].Batch? && LastBatch(events) == end
            && (events[|events| - 1] == Flush || events[|events| - 1].Wait?)
  {
    var end := plan.add(first).end;
    var events := BatchEvents(first, end, boundary, plan.wait(end));
    if boundary {
      assert events == [Batch(first, end), Marker, Flush, Wait(plan.wait(end))];
      var batch := [Batch(first, end)];
      LastBatchStays(batch, Marker);
      LastBatchStays(batch + [Marker], Flush);
      LastBatchStays(batch + [Marker] + [Flush], Wait(plan.wait(end)));
      assert events == batch + [Marker] + [Flush] + [Wait(plan.wait(end))];
    } else {
      assert events == [Batch(first, end), Flush];
      assert events[..1] == [Batch(first, end)];
    }
  }

  /** A complete turn before a trace that begins with a batch moves nothing out of place. */
  lemma StillInPlace(plan: Plan, a: seq<Event>, b: seq<Event>)
    requires a != [] && b != [] && b[0].Batch? && (a[|a| - 1] == Flush || a[|a| - 1].Wait?)
    requires forall i | 0 <= i < |a| :: InPlace(plan, a, i)
    requires forall i | 0 <= i < |b| :: InPlace(plan, b, i)
    ensures forall i | 0 <= i < |a + b| :: InPlace(plan, a + b, i)
  {
    forall i | 0 <= i < |a + b| ensures InPlace(plan, a + b, i) {
      if i < |a| { assert InPlace(plan, a, i); } else { assert InPlace(plan, b, i - |a|); }
    }
  }

  lemma ErrorIsInPlace(plan: Plan, first: nat, status: int)
    requires status != OK && match plan.add(first) case Failed(_, s) => s == status case Added(end) => plan.mark(end) == status
    ensures WellShaped(plan, Outcome([Batch(first, plan.add(first).end)], status))
  {
  }

  lemma LastTurnIsInPlace(plan: Plan, first: nat, boundary: bool)
    requires plan.add(first).Added? && (boundary ==> plan.mark(plan.add(first).end) == OK)
    requires plan.add(first).end == plan.kernels
    ensures WellShaped(plan, Outcome(BatchEvents(first, plan.kernels, boundary, plan.wait(plan.kernels)), OK))
  {
    hide BatchEvents, InPlace;
    TurnIsInPlace(plan, first, boundary);
  }

  lemma TurnBefore(plan: Plan, first: nat, boundary: bool, rest: Outcome)
    requires plan.add(first).Added? && (boundary ==> plan.mark(plan.add(first).end) == OK) && WellShaped(plan, rest)
    ensures WellShaped(plan, Prepend(BatchEvents(first, plan.add(first).end, boundary, plan.wait(plan.add(first).end)), rest))
  {
    hide BatchEvents, InPlace;
    var events := BatchEvents(first, plan.add(first).end, boundary, plan.wait(plan.add(first).end));
    TurnIsInPlace(plan, first, boundary);
    StillInPlace(plan, events, rest.trace);
    LastBatchConcat(events, rest.trace);
  }

  /** The shape of every run of the patched loop, whatever the window. */
  lemma {:induction false} CommandsAreInPlace(plan: Plan, window: int, offset: nat, since: nat)
    requires Honest(plan) && offset <= plan.kernels
    ensures WellShaped(plan, Patched(plan, window, offset, since))
    decreases plan.kernels - offset
  {
    hide WellShaped, BatchEvents;
    var added := plan.add(offset);
    var boundary := IsBoundary(window, since);
    if added.Failed? {
      ErrorIsInPlace(plan, offset, added.status);
    } else if boundary && plan.mark(added.end) != OK {
      ErrorIsInPlace(plan, offset, plan.mark(added.end));
    } else if added.end == plan.kernels {
      LastTurnIsInPlace(plan, offset, boundary);
    } else {
      var since' := if boundary then 0 else since + 1;
      CommandsAreInPlace(plan, window, added.end, since');
      TurnBefore(plan, offset, boundary, Patched(plan, window, added.end, since'));
    }
  }

  /** Before the patch there are no markers and no waits. */
  lemma {:induction false} UnpatchedCommandsAreInPlace(plan: Plan, offset: nat)
    requires Honest(plan) && offset <= plan.kernels
    ensures WellShaped(plan, Unpatched(plan, offset))
    ensures forall e | e in Unpatched(plan, offset).trace :: e.Batch? || e == Flush
    decreases plan.kernels - offset
  {
    WindowZeroIsUnpatched(plan, 0, offset, 0);
    CommandsAreInPlace(plan, 0, offset, 0);
    var added := plan.add(offset);
    if added.Added? && added.end != plan.kernels { UnpatchedCommandsAreInPlace(plan, added.end); }
  }

  // ---------------------------------------------------------------- repeated inferences

  function Repeat(trace: seq<Event>, runs: nat): seq<Event> {
    if runs == 0 then [] else Repeat(trace, runs - 1) + trace
  }

  /** The batches without a successful wait stay bounded, at every moment of any number of inferences. */
  ghost predicate Bounded(trace: seq<Event>, limit: nat) {
    forall runs: nat, i: nat | i <= |Repeat(trace, runs)| :: Unconfirmed(0, Repeat(trace, runs)[..i]) <= limit
  }

  lemma {:induction false} ConfirmationForgets(a: nat, b: nat, trace: seq<Event>)
    requires Wait(true) in trace
    ensures Unconfirmed(a, trace) == Unconfirmed(b, trace)
    decreases trace
  {
    if trace[0] != Wait(true) {
      ConfirmationForgets(Confirm(a, trace[0]), Confirm(b, trace[0]), trace[1..]);
    }
  }

  lemma {:induction false} UnconfirmedAddUp(before: nat, trace: seq<Event>)
    requires Wait(true) !in trace
    ensures Unconfirmed(before, trace) == before + Batches(trace)
    decreases trace
  {
    if trace != [] { UnconfirmedAddUp(Confirm(before, trace[0]), trace[1..]); }
  }

  lemma {:induction false} AfterRuns(trace: seq<Event>, runs: nat)
    ensures Wait(true) in trace ==> Unconfirmed(0, Repeat(trace, runs)) <= Batches(trace)
    ensures Wait(true) !in trace ==> Unconfirmed(0, Repeat(trace, runs)) == runs * Batches(trace)
  {
    if runs > 0 {
      var before := Unconfirmed(0, Repeat(trace, runs - 1));
      AfterRuns(trace, runs - 1);
      ConfirmedConcat(0, 0, Repeat(trace, runs - 1), trace);
      if Wait(true) in trace {
        ConfirmationForgets(before, 0, trace);
        FewUnconfirmed(0, trace);
      } else {
        UnconfirmedAddUp(before, trace);
        assert runs * Batches(trace) == (runs - 1) * Batches(trace) + Batches(trace);
      }
    }
  }

  lemma {:induction false} DuringRuns(trace: seq<Event>, runs: nat, i: nat)
    requires Wait(true) in trace && i <= |Repeat(trace, runs)|
    ensures Unconfirmed(0, Repeat(trace, runs)[..i]) <= 2 * Batches(trace)
  {
    if runs > 0 {
      var before := Repeat(trace, runs - 1);
      if i <= |before| {
        DuringRuns(trace, runs - 1, i);
        assert Repeat(trace, runs)[..i] == before[..i];
      } else {
        var j := i - |before|;
        assert Repeat(trace, runs)[..i] == before + trace[..j];
        AfterRuns(trace, runs - 1);
        ConfirmedConcat(0, 0, before, trace[..j]);
        FewUnconfirmed(Unconfirmed(0, before), trace[..j]);
        TraceConcat(0, trace[..j], trace[j..]);
        assert trace == trace[..j] + trace[j..];
      }
    }
  }

  /** Whatever an inference does, if it submits batches at all: repeating it is bounded exactly when it
      sees a wait succeed. */
  lemma BoundedExactlyWhenConfirmed(trace: seq<Event>)
    requires Batches(trace) > 0
    ensures (exists limit: nat :: Bounded(trace, limit)) <==> Wait(true) in trace
  {
    if Wait(true) in trace {
      forall runs: nat, i: nat | i <= |Repeat(trace, runs)|
        ensures Unconfirmed(0, Repeat(trace, runs)[..i]) <= 2 * Batches(trace)
      {
        DuringRuns(trace, runs, i);
      }
      assert Bounded(trace, 2 * Batches(trace));
    } else {
      forall limit: nat ensures !Bounded(trace, limit) {
        var runs := limit + 1;
        AfterRuns(trace, runs);
        Multiples(runs, 0, Batches(trace));
        assert Repeat(trace, runs)[..|Repeat(trace, runs)|] == Repeat(trace, runs);
      }
    }
  }

  lemma {:induction false} AtLeastOneBatch(plan: Plan, window: int, offset: nat, since: nat)
    requires Honest(plan) && offset <= plan.kernels
    ensures Batches(Patched(plan, window, offset, since).trace) > 0
  {
    assert Patched(plan, window, offset, since).trace[0].Batch?;
  }

  lemma {:induction false} WaitsSeen(trace: seq<Event>)
    ensures Waits(trace) > 0 <==> Wait(true) in trace || Wait(false) in trace
  {
    if trace != [] { WaitsSeen(trace[1..]); }
  }

  /** The counter is local to one inference and the result of Wait() is ignored: over repeated error-free
      inferences the batches without a successful wait stay bounded exactly when some wait of one
      inference succeeds, for which it needs at least `window` batches. */
  lemma RepeatedInferencesAreBounded(plan: Plan, window: nat)
    requires Honest(plan) && window > 0 && Patched(plan, window, 0, 0).status == OK
    ensures var trace := Patched(plan, window, 0, 0).trace;
            && ((exists limit: nat :: Bounded(trace, limit)) <==> Wait(true) in trace)
            && (Wait(true) in trace ==> Batches(trace) >= window)
  {
    var trace := Patched(plan, window, 0, 0).trace;
    AtLeastOneBatch(plan, window, 0, 0);
    BoundedExactlyWhenConfirmed(trace);
    WaitsExactly(plan, window, 0, 0);
    WaitsSeen(trace);
    if Batches(trace) < window { QuotientIs(Batches(trace), window, 0, Batches(trace)); }
  }

  lemma {:induction false} OnlyTheseWaits(plan: Plan, window: nat, offset: nat, since: nat, result: bool)
    requires Honest(plan) && offset <= plan.kernels && forall o: nat | o <= plan.kernels :: plan.wait(o) == result
    ensures Wait(!result) !in Patched(plan, window, offset, since).trace
    decreases plan.kernels - offset
  {
    var added := plan.add(offset);
    if added.Added? && added.end != plan.kernels {
      OnlyTheseWaits(plan, window, added.end, if IsBoundary(window, since) then 0 else since + 1, result);
    }
  }

  /** When every wait succeeds the number of batches alone decides. */
  lemma BoundedWithoutFailedWaits(plan: Plan, window: nat)
    requires Honest(plan) && window > 0 && Patched(plan, window, 0, 0).status == OK
    requires forall o: nat | o <= plan.kernels :: plan.wait(o)
    ensures var trace := Patched(plan, window, 0, 0).trace;
            (exists limit: nat :: Bounded(trace, limit)) <==> Batches(trace) >= window
  {
    var trace := Patched(plan, window, 0, 0).trace;
    RepeatedInferencesAreBounded(plan, window);
    OnlyTheseWaits(plan, window, 0, 0, true);
    WaitsExactly(plan, window, 0, 0);
    WaitsSeen(trace);
    if Batches(trace) >= window { OneMoreWindow(Batches(trace) - window, window); }
  }

  /** One kernel per batch, no errors, and every wait fails. */
  function Failing(kernels: nat): (plan: Plan)
    ensures Honest(plan)
  {
    Plan(kernels, (o: nat) => Added(if o < kernels then o + 1 else kernels), _ => OK, _ => false)
  }

  /** Any number of batches and no successful wait: nothing bounds what is outstanding. */
  lemma FailedWaitsAreUnbounded(kernels: nat, window: nat)
    requires window > 0
    ensures !exists limit: nat :: Bounded(Patched(Failing(kernels), window, 0, 0).trace, limit)
  {
    AtLeastOneBatch(Failing(kernels), window, 0, 0);
    OnlyTheseWaits(Failing(kernels), window, 0, 0, false);
    BoundedExactlyWhenConfirmed(Patched(Failing(kernels), window, 0, 0).trace);
  }

  // ---------------------------------------------------------------- refinement of the bounded window

  /** The device finishes everything submitted. */
  function Drain(w: W.Window): W.Window {
    w.(done := |w.line|)
  }

  /** What one event of the loop, run by the only thread, does to the abstract window. */
  function Advance(w: W.Window, event: Event): W.Window
    requires w.size > 0 && Allowed(w, event)
  {
    match event
    case Batch(_, _) => W.Apply(W.Apply(w, W.Tick(0)), W.Submit(0))
    case Wait(succeeded) => if succeeded then W.Apply(Drain(w), W.Waited(0)) else W.Apply(w, W.Drop(0))
    case _ => w
  }

  /** The window allows a batch only when no boundary is owed, and a wait only when one is. */
  predicate Allowed(w: W.Window, event: Event) {
    match event
    case Batch(_, _) => W.Enabled(w, W.Tick(0))
    case Wait(_) => 0 in w.holders && w.holders[0].Held? && w.holders[0].pos < |w.line|
    case _ => true
  }

  /** The window after the events of a trace, if it allows them all. */
  function Follow(w: W.Window, trace: seq<Event>): (r: Option<W.Window>)
    requires w.size > 0
    ensures r.Some? ==> r.value.size == w.size
  {
    if trace == [] then Some(w)
    else
      match Follow(w, trace[..|trace| - 1])
      case Some(m) => if Allowed(m, trace[|trace| - 1]) then Some(Advance(m, trace[|trace| - 1])) else None
      case None => None
  }

  lemma DrainKeepsInv(w: W.Window)
    requires W.Inv(w)
    ensures W.Inv(Drain(w))
    decreases |w.line| - w.done
  {
    if w.done < |w.line| {
      W.ApplyKeepsInv(w, W.Complete);
      DrainKeepsInv(W.Apply(w, W.Complete));
    } else {
      assert Drain(w) == w;
    }
  }

  lemma AdvanceKeepsInv(w: W.Window, event: Event)
    requires W.Inv(w) && Allowed(w, event)
    ensures W.Inv(Advance(w, event)) && Advance(w, event).threads == w.threads
  {
    match event
    case Batch(_, _) =>
      W.ApplyKeepsInv(w, W.Tick(0));
      W.ApplyKeepsInv(W.Apply(w, W.Tick(0)), W.Submit(0));
    case Wait(succeeded) =>
      DrainKeepsInv(w);
      if succeeded { W.ApplyKeepsInv(Drain(w), W.Waited(0)); } else { W.ApplyKeepsInv(w, W.Drop(0)); }
    case _ =>
  }

  lemma SuccessForgets(w: W.Window)
    requires W.Inv(w) && w.threads == 1 && Allowed(w, Wait(true))
    ensures W.MissedSince(Advance(w, Wait(true))) == {}
  {
    hide W.Inv, W.MissedSince;
    DrainKeepsInv(w);
    W.NothingUnfinishedAfterWait(Drain(w), 0);
  }

  lemma OthersAddMisses(w: W.Window, event: Event)
    requires w.size > 0 && Allowed(w, event) && event != Wait(true)
    ensures |W.MissedSince(Advance(w, event))| <= |W.MissedSince(w)| + if event == Wait(false) then 1 else 0
  {
    var ticket := if event == Wait(false) then {w.holders[0].ticket} else {};
    SubsetIsSmaller(W.MissedSince(Advance(w, event)), W.MissedSince(w) + ticket);
  }

  /** A failed wait is one more miss; a successful one forgets them all. */
  lemma AdvanceMisses(w: W.Window, event: Event, row: nat)
    requires w.size > 0 && W.Inv(w) && w.threads == 1 && Allowed(w, event) && |W.MissedSince(w)| <= row
    ensures |W.MissedSince(Advance(w, event))| <= Fail(row, event)
  {
    hide W.Inv, W.MissedSince, Advance, Allowed;
    if event == Wait(true) { SuccessForgets(w); } else { OthersAddMisses(w, event); }
  }

  lemma {:induction false} FollowingKeepsInv(w: W.Window, trace: seq<Event>, row: nat)
    requires w.size > 0 && W.Inv(w) && w.threads == 1 && Follow(w, trace).Some? && |W.MissedSince(w)| <= row
    ensures W.Inv(Follow(w, trace).value) && Follow(w, trace).value.threads == 1
    ensures |W.MissedSince(Follow(w, trace).value)| <= FailedInARow(row, trace)
  {
    hide W.Inv, W.MissedSince, Advance, Allowed;
    if trace != [] {
      var before, event := trace[..|trace| - 1], trace[|trace| - 1];
      FollowingKeepsInv(w, before, row);
      var m := Follow(w, before).value;
      AdvanceKeepsInv(m, event);
      AdvanceMisses(m, event, FailedInARow(row, before));
      ConfirmedConcat(0, row, before, [event]);
      assert trace == before + [event] && FailedInARow(row, trace) == Fail(FailedInARow(row, before), event);
    }
  }

  /** A trace and one more event. */
  function FollowNext(m: Option<W.Window>, event: Event): Option<W.Window> {
    match m
    case Some(w) => if w.size > 0 && Allowed(w, event) then Some(Advance(w, event)) else None
    case None => None
  }

  lemma FollowStep(w: W.Window, trace: seq<Event>, event: Event)
    requires w.size > 0
    ensures Follow(w, trace + [event]) == FollowNext(Follow(w, trace), event)
  {
    hide Advance, Allowed;
    assert (trace + [event])[..|trace|] == trace;
  }

  lemma FollowNothing(w: W.Window)
    requires w.size > 0
    ensures Follow(w, []) == Some(w)
  {
  }

  lemma {:induction false} FollowConcat(w: W.Window, a: seq<Event>, b: seq<Event>)
    requires w.size > 0 && Follow(w, a).Some?
    ensures Follow(w, a + b) == Follow(Follow(w, a).value, b)
  {
    hide *;
    if b == [] {
      FollowNothing(Follow(w, a).value);
      assert a + b == a;
    } else {
      var before, event := b[..|b| - 1], b[|b| - 1];
      FollowConcat(w, a, before);
      FollowStep(w, a + before, event);
      FollowStep(Follow(w, a).value, before, event);
      assert b == before + [event] && a + b == (a + before) + [event];
    }
  }

  lemma FollowOne(w: W.Window, before: seq<Event>, event: Event)
    requires w.size > 0 && Follow(w, before).Some? && Allowed(Follow(w, before).value, event)
    ensures Follow(w, before + [event]) == Some(Advance(Follow(w, before).value, event))
  {
    assert (before + [event])[..|before|] == before;
  }

  lemma {:induction false} FollowPrefix(w: W.Window, trace: seq<Event>, i: nat)
    requires w.size > 0 && Follow(w, trace).Some? && i <= |trace|
    ensures Follow(w, trace[..i]).Some?
  {
    if i < |trace| {
      FollowPrefix(w, trace[..|trace| - 1], i);
      assert trace[..|trace| - 1][..i] == trace[..i];
    } else {
      assert trace[..i] == trace;
    }
  }

  /** The loop's counter is the window's ticket count modulo the size, and no boundary is owed. */
  ghost predicate InStep(w: W.Window, window: nat, since: nat) {
    W.Inv(w) && w.restarts == [] && w.size == window && w.threads == 1 && w.holders == map[] && since < window && w.ticks % window == since
  }

  /** What a batch does to a window without holders. */
  lemma BatchFacts(w: W.Window, batch: Event)
    requires W.Aligned(w) && w.threads == 1 && w.holders == map[] && batch.Batch?
    ensures Allowed(w, batch)
    ensures var w', due := Advance(w, batch), (w.ticks + 1 - W.Base(w)) % w.size == 0;
            && w'.ticks == w.ticks + 1 && w'.restarts == w.restarts && w'.size == w.size && w'.threads == 1
            && (if due then w'.holders.Keys == {0} && Allowed(w', Wait(true)) else w'.holders == map[])
  {
    var due := (w.ticks + 1 - W.Base(w)) % w.size == 0;
    assert w.ticks + 1 !in w.boundaries;
    assert w.ticks + 1 in W.Apply(w, W.Tick(0)).boundaries <==> due;
  }

  /** A batch in step: the thread owes a boundary afterwards exactly when the loop is about to wait. */
  lemma BatchInStep(w: W.Window, window: nat, since: nat, batch: Event)
    requires InStep(w, window, since) && batch.Batch?
    ensures Allowed(w, batch)
    ensures var w' := Advance(w, batch);
            if IsBoundary(window, since)
            then W.Inv(w') && w'.restarts == [] && w'.size == window && w'.threads == 1 && w'.ticks % window == 0
                 && w'.holders.Keys == {0} && Allowed(w', Wait(true))
            else InStep(w', window, since + 1)
  {
    hide W.Tickets, W.Accounted, W.Ordered, W.Newest, W.Spaced, Advance, Allowed;
    NextQuotient(w.ticks, window);
    BatchFacts(w, batch);
    AdvanceKeepsInv(w, batch);
  }

  lemma WaitInStep(w: W.Window, window: nat, succeeded: bool)
    requires W.Inv(w) && w.restarts == [] && w.size == window > 0 && w.threads == 1 && w.ticks % window == 0
    requires w.holders.Keys == {0} && Allowed(w, Wait(succeeded))
    ensures InStep(Advance(w, Wait(succeeded)), window, 0)
  {
    AdvanceKeepsInv(w, Wait(succeeded));
  }

  /** One turn: its events are allowed, and the next turn is in step again. */
  lemma TurnFollows(w: W.Window, window: nat, since: nat, first: nat, end: nat, succeeded: bool)
    requires InStep(w, window, since)
    ensures Follow(w, [Batch(first, end)]).Some?
    ensures var boundary := IsBoundary(window, since);
            var after := Follow(w, BatchEvents(first, end, boundary, succeeded));
            after.Some? && InStep(after.value, window, if boundary then 0 else since + 1)
  {
    hide W.Inv;
    var batch := Batch(first, end);
    BatchInStep(w, window, since, batch);
    var w' := Advance(w, batch);
    assert [] + [batch] == [batch];
    FollowOne(w, [], batch);
    if IsBoundary(window, since) {
      FollowOne(w, [batch], Marker);
      FollowOne(w, [batch] + [Marker], Flush);
      FollowOne(w, [batch] + [Marker] + [Flush], Wait(succeeded));
      WaitInStep(w', window, succeeded);
    } else {
      FollowOne(w, [batch], Flush);
      assert BatchEvents(first, end, false, succeeded) == [batch] + [Flush];
    }
  }

  /** Every run of the loop, errors included, is a run of the abstract bounded window. */
  lemma {:induction false} LoopRefinesWindow(plan: Plan, window: nat, offset: nat, since: nat, w: W.Window)
    requires Honest(plan) && offset <= plan.kernels && InStep(w, window, since)
    ensures Follow(w, Patched(plan, window, offset, since).trace).Some?
    decreases plan.kernels - offset
  {
    var added := plan.add(offset);
    var boundary := IsBoundary(window, since);
    TurnFollows(w, window, since, offset, added.end, plan.wait(added.end));
    if added.Added? && !(boundary && plan.mark(added.end) != OK) && added.end != plan.kernels {
      var events := BatchEvents(offset, added.end, boundary, plan.wait(added.end));
      var since' := if boundary then 0 else since + 1;
      LoopRefinesWindow(plan, window, added.end, since', Follow(w, events).value);
      FollowConcat(w, events, Patched(plan, window, added.end, since').trace);
    }
  }

  lemma {:induction false} NeverRestarts(w: W.Window, trace: seq<Event>)
    requires w.size > 0 && Follow(w, trace).Some?
    ensures Follow(w, trace).value.restarts == w.restarts
  {
    if trace != [] { NeverRestarts(w, trace[..|trace| - 1]); }
  }

  /** So at every moment of every inference the unfinished batches are within the abstract limit for
      one thread: the window, and one more window for each wait that failed since one succeeded. */
  lemma BatchesAreBounded(plan: Plan, window: nat, i: nat)
    requires Honest(plan) && window > 0 && i <= |Patched(plan, window, 0, 0).trace|
    ensures var trace := Patched(plan, window, 0, 0).trace[..i];
            var after := Follow(W.Fresh(window, 1, 0, 0), trace);
            after.Some? && |W.Unfinished(after.value)| <= W.Limit(1, FailedInARow(0, trace), window)
  {
    var w := W.Fresh(window, 1, 0, 0);
    var trace := Patched(plan, window, 0, 0).trace[..i];
    W.FreshInv(window, 1, 0, 0);
    QuotientIs(0, window, 0, 0);
    LoopRefinesWindow(plan, window, 0, 0, w);
    FollowPrefix(w, Patched(plan, window, 0, 0).trace, i);
    assert W.MissedSince(w) == {};
    FollowingKeepsInv(w, trace, 0);
    NeverRestarts(w, trace);
    W.OutstandingIsWithinLimit(Follow(w, trace).value, FailedInARow(0, trace), 0);
    assert (window - 1) * 0 == 0;
  }

  // ---------------------------------------------------------------- the limit is reached

  /** While no wait succeeds the device need not finish anything. */
  lemma {:induction false} NothingFinished(w: W.Window, trace: seq<Event>)
    requires w.size > 0 && Follow(w, trace).Some? && Wait(true) !in trace
    requires W.InRange(w) && forall p | 0 <= p < |w.line| :: w.line[p] != 0
    ensures var w' := Follow(w, trace).value;
            && w'.done == w.done && |w'.line| == |w.line| + Batches(trace) && W.InRange(w')
            && forall p | 0 <= p < |w'.line| :: w'.line[p] != 0
    ensures FailedInARow(0, trace) == Waits(trace)
  {
    if trace != [] {
      var before, event := trace[..|trace| - 1], trace[|trace| - 1];
      assert trace == before + [event];
      NothingFinished(w, before);
      TraceConcat(0, before, [event]);
      ConfirmedConcat(0, 0, before, [event]);
    }
  }

  lemma {:induction false} OneKernelEach(kernels: nat, window: nat, offset: nat, since: nat)
    requires offset < kernels && window > 0
    ensures var outcome := Patched(Failing(kernels), window, offset, since);
            outcome.status == OK && Batches(outcome.trace) == kernels - offset
    decreases kernels - offset
  {
    hide BatchEvents;
    var boundary := IsBoundary(window, since);
    BatchCounts(since, offset, offset + 1, boundary, false);
    if offset + 1 < kernels {
      var since' := if boundary then 0 else since + 1;
      OneKernelEach(kernels, window, offset + 1, since');
      TraceConcat(since, BatchEvents(offset, offset + 1, boundary, false),
                  Patched(Failing(kernels), window, offset + 1, since').trace);
    }
  }

  /** An error-free run that leaves nothing unwaited ends with its last wait. */
  lemma {:induction false} EndsWithWait(plan: Plan, window: nat, offset: nat, since: nat)
    requires Honest(plan) && offset <= plan.kernels && since < window
    requires var outcome := Patched(plan, window, offset, since);
             outcome.status == OK && Unwaited(since, outcome.trace) == 0
    ensures var trace := Patched(plan, window, offset, since).trace;
            trace != [] && trace[|trace| - 1].Wait?
    decreases plan.kernels - offset
  {
    var end := plan.add(offset).end;
    var boundary := IsBoundary(window, since);
    var events := BatchEvents(offset, end, boundary, plan.wait(end));
    BatchCounts(since, offset, end, boundary, plan.wait(end));
    if end != plan.kernels {
      hide BatchEvents;
      var since' := if boundary then 0 else since + 1;
      TraceConcat(since, events, Patched(plan, window, end, since').trace);
      EndsWithWait(plan, window, end, since');
    }
  }

  /** The limit is reached for every window and every number of failed waits. */
  lemma FailedWaitsReachTheLimit(window: nat, misses: nat) returns (plan: Plan, i: nat)
    requires window > 0
    ensures Honest(plan) && i <= |Patched(plan, window, 0, 0).trace|
    ensures var trace := Patched(plan, window, 0, 0).trace[..i];
            var after := Follow(W.Fresh(window, 1, 0, 0), trace);
            && FailedInARow(0, trace) == misses && after.Some?
            && |W.Unfinished(after.value)| == W.Limit(1, misses, window)
  {
    hide Patched, Follow, Unwaited, Batches, Waits, FailedInARow, W.Inv, W.Unfinished;
    var kernels := (misses + 1) * window;
    assert kernels == misses * window + window;
    plan := Failing(kernels);
    var whole := Patched(plan, window, 0, 0).trace;
    OneKernelEach(kernels, window, 0, 0);
    WaitsExactly(plan, window, 0, 0);
    QuotientIs(kernels, window, misses + 1, 0);
    EndsWithWait(plan, window, 0, 0);
    OnlyTheseWaits(plan, window, 0, 0, false);
    i := |whole| - 1;
    var trace := whole[..i];
    LastWait(whole);
    var w := W.Fresh(window, 1, 0, 0);
    W.FreshInv(window, 1, 0, 0);
    QuotientIs(0, window, 0, 0);
    LoopRefinesWindow(plan, window, 0, 0, w);
    FollowPrefix(w, whole, i);
    NothingFinished(w, trace);
    AllUnfinished(Follow(w, trace).value);
  }

  lemma LastWait(trace: seq<Event>)
    requires trace != [] && trace[|trace| - 1].Wait?
    ensures Batches(trace[..|trace| - 1]) == Batches(trace) && Waits(trace[..|trace| - 1]) == Waits(trace) - 1
  {
    var before, wait := trace[..|trace| - 1], trace[|trace| - 1];
    assert trace == before + [wait];
    TraceConcat(0, before, [wait]);
    CountsOf([wait]);
  }

  lemma AllUnfinished(w: W.Window)
    requires w.done == 0 && forall p | 0 <= p < |w.line| :: w.line[p] != 0
    ensures |W.Unfinished(w)| == |w.line|
  {
    assert W.Unfinished(w) == Interval(0, |w.line|);
  }
}
