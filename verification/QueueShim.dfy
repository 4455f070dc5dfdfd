/** The experimental shim as the code is written: the shared counters and the table of queues, updated in
    place. Each exported function, run by a thread alone, is proved to be a run of the step machine. */
module QueueShim {
  import opened QueueTable
  import Counters = QueueCounters
  import opened ShimCore
  import opened ShimCalls
  import E = ExperimentalShim
  import opened Wrappers

  /** A run followed by a run of the shared code. */
  lemma Continue(s: E.State, ls: seq<Label>, m: E.State, more: seq<Label>, c: Core)
    requires E.Run(s, ls) == Some(m) && CommonRun(m.core, more) == Some(c)
    ensures E.Run(s, ls + more) == Some(m.(core := c))
  {
    CommonRunsAreBoth(m, more, c);
    E.RunsCompose(s, ls, more);
  }

  class QueueShim {
    const window: nat
    const counters: Counters.QueueCounters
    const calls: Calls
    ghost var ticked: seq<Queue>

    constructor (symbols: Symbols, window: nat, device: Device)
      ensures Valid() && fresh(counters) && fresh(counters.slots) && fresh(calls)
      ensures this.window == window && calls.symbols == symbols && calls.device == device && calls.trace == []
      ensures !calls.inferenceEnabled && calls.dispatchCount == calls.waitCount == 0
      ensures calls.totalWaitNs == calls.maxWaitNs == 0
      ensures counters.Contents() == Cleared() && ticked == []
    {
      this.window := window;
      calls := new Calls(symbols, device);
      counters := new Counters.QueueCounters();
      ticked := [];
    }

    ghost predicate Valid()
      reads this, counters
    {
      counters.Valid()
    }

    /** The step machine's state when the only thread is at pc. */
    ghost function State(pc: Pc): E.State
      requires Valid()
      reads this, counters, counters.slots, calls
    {
      E.State(calls.CoreAt(pc), window, counters.Contents(), ticked)
    }

    /** should_wait_after_dispatch; `counted` only tells the model's device which kernels were counted. */
    method ShouldWaitAfterDispatch(call: Call) returns (wait: bool, counted: bool, ghost labels: seq<Label>)
      requires Valid()
      modifies calls`dispatchCount, calls`history, this`ticked, counters.slots
      ensures E.Run(old(State(Entered(call))), labels) == Some(State(Submitting(call, counted, wait)))
    {
      ghost var s := State(Entered(call));
      Alone();
      if window == 0 || !calls.inferenceEnabled {
        E.Extend(s, [], s, LoadFlag(0), State(Submitting(call, false, false)));
        return false, false, [] + [LoadFlag(0)];
      }
      ghost var m := State(Counting(call));
      E.Extend(s, [], s, LoadFlag(0), m);
      labels := [] + [LoadFlag(0)];
      calls.dispatchCount := calls.dispatchCount + 1;
      calls.history := calls.history.(begun := calls.history.begun + 1);
      E.Extend(s, labels, m, Bump(0), State(Ticking(call)));
      labels := labels + [Bump(0)];
      m := State(Ticking(call));
      var dispatches := counters.CountDispatch(call.queue);
      ticked := ticked + [call.queue];
      wait, counted := dispatches % window == 0, true;
      E.Extend(s, labels, m, Tick(0), State(Submitting(call, counted, wait)));
      labels := labels + [Tick(0)];
    }

    /** clEnqueueNDRangeKernel */
    method EnqueueNDRangeKernel(call: Call, answers: Answers) returns (status: int, ghost labels: seq<Label>)
      requires Valid() && LineOf(calls.device, call.queue).done <= |LineOf(calls.device, call.queue).counted|
      requires answers.wait == CL_SUCCESS ==> answers.returned
      modifies this, calls, counters.slots
      ensures Valid() && E.Run(old(State(Idle)), labels) == Some(State(Idle))
      ensures calls.trace != [] && calls.trace[|calls.trace| - 1] == Returned(0, status)
    {
      hide CommonRun, LineOf;
      ghost var s := State(Idle);
      Alone();
      if !calls.symbols.enqueue {
        status := CL_INVALID_OPERATION;
        calls.trace := calls.trace + [Returned(0, status)];
        E.Extend(s, [], s, Enter(0, call), State(Idle));
        labels := [] + [Enter(0, call)];
        return;
      }
      ghost var m := State(Entered(call));
      E.Extend(s, [], s, Enter(0, call), m);
      labels := [] + [Enter(0, call)];
      ghost var more;
      var wait, counted;
      wait, counted, more := ShouldWaitAfterDispatch(call);
      E.RunsCompose(s, labels, more);
      labels := labels + more;
      m := State(Submitting(call, counted, wait));
      status, more := calls.Finish(call, counted, wait, answers);
      Continue(s, labels, m, more, calls.CoreAt(Idle));
      labels := labels + more;
    }

    /** nativeReset: the stores to the counters and the loop that clears the table. */
    method NativeReset() returns (ghost labels: seq<Label>)
      requires Valid()
      modifies this, calls, counters.slots
      ensures Valid() && E.Run(old(State(Idle)), labels) == Some(State(Idle))
      ensures !calls.inferenceEnabled && calls.dispatchCount == calls.waitCount == 0
      ensures calls.totalWaitNs == calls.maxWaitNs == 0 && counters.Contents() == Cleared()
      ensures calls.trace == old(calls.trace) && calls.device == old(calls.device)
    {
      ghost var s := State(Idle);
      Alone();
      ghost var zeroing := State(Resetting(FlagCell));
      E.Extend(s, [], s, Reset(0), zeroing);
      labels := [] + [Reset(0)];
      ghost var states := calls.ZeroCounters(Clearing);
      labels := ZeroRun(s, labels, zeroing, states);
      ghost var m := State(Clearing);
      counters.Clear();
      ticked := [];
      E.Extend(s, labels, m, Clear(0), State(Idle));
      labels := labels + [Clear(0)];
    }

    /** nativeSetInferenceEnabled */
    method SetInferenceEnabled(enabled: bool) returns (ghost labels: seq<Label>)
      requires Valid()
      modifies calls`inferenceEnabled
      ensures E.Run(old(State(Idle)), labels) == Some(State(Idle))
      ensures calls.inferenceEnabled == enabled
    {
      ghost var s := State(Idle);
      labels := calls.SetInferenceEnabled(enabled);
      CommonRunsAreBoth(s, labels, calls.CoreAt(Idle));
    }
  }

  /** The stores of a reset as steps of a run. */
  lemma ZeroRun(s: E.State, ls: seq<Label>, m: E.State, states: seq<Core>) returns (labels: seq<Label>)
    requires E.Run(s, ls) == Some(m) && |states| == 6 && states[0] == m.core && Zeroes(states, Clearing)
    ensures E.Run(s, labels) == Some(m.(core := states[5]))
  {
    hide ZeroStep;
    labels := ls;
    for i := 0 to 5
      invariant E.Run(s, labels) == Some(m.(core := states[i]))
    {
      E.Extend(s, labels, m.(core := states[i]), Zero(0, CELLS[i]), m.(core := states[i + 1]));
      labels := labels + [Zero(0, CELLS[i])];
    }
  }
}
