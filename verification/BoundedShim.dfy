/** The production shim as the code is written: the shared counters alone, with one wait per kernel. Each
    exported function, run by a thread alone, is proved to be a run of the step machine. */
module BoundedShim {
  import opened QueueTable
  import opened ShimCore
  import opened ShimCalls
  import E = ExperimentalShim
  import P = ProductionShim
  import opened Wrappers

  /** A run followed by a run of the shared code. */
  lemma Continue(c: Core, ls: seq<Label>, m: Core, more: seq<Label>, m': Core)
    requires P.Run(c, ls) == Some(m) && CommonRun(m, more) == Some(m')
    ensures P.Run(c, ls + more) == Some(m')
  {
    CommonRunsAreBoth(E.State(m, 1, Cleared(), []), more, m');
    P.RunsCompose(c, ls, more);
  }

  class BoundedShim {
    const calls: Calls

    constructor (symbols: Symbols, device: Device)
      ensures fresh(calls) && calls.symbols == symbols && calls.device == device && calls.trace == []
      ensures !calls.inferenceEnabled && calls.dispatchCount == calls.waitCount == 0
      ensures calls.totalWaitNs == calls.maxWaitNs == 0
    {
      calls := new Calls(symbols, device);
    }

    /** clEnqueueNDRangeKernel: every kernel counted is a boundary. */
    method EnqueueNDRangeKernel(call: Call, answers: Answers) returns (status: int, ghost labels: seq<Label>)
      requires LineOf(calls.device, call.queue).done <= |LineOf(calls.device, call.queue).counted|
      requires answers.wait == CL_SUCCESS ==> answers.returned
      modifies calls
      ensures P.Run(old(calls.CoreAt(Idle)), labels) == Some(calls.CoreAt(Idle))
      ensures calls.trace != [] && calls.trace[|calls.trace| - 1] == Returned(0, status)
    {
      hide CommonRun, P.Run, LineOf;
      ghost var c := calls.CoreAt(Idle);
      Alone();
      labels := [Enter(0, call)];
      if !calls.symbols.enqueue {
        status := CL_INVALID_OPERATION;
        calls.trace := calls.trace + [Returned(0, status)];
        P.OneStep(c, Enter(0, call), calls.CoreAt(Idle));
        return;
      }
      ghost var m := calls.CoreAt(Entered(call));
      P.OneStep(c, Enter(0, call), m);
      ghost var more;
      var shouldWait;
      shouldWait, more := CountIfEnabled(call);
      ghost var m' := calls.CoreAt(Submitting(call, shouldWait, shouldWait));
      P.Join(c, labels, m, more, m');
      labels := labels + more;
      status, more := calls.Finish(call, shouldWait, shouldWait, answers);
      Continue(c, labels, m', more, calls.CoreAt(Idle));
      labels := labels + more;
    }

    /** The flag decides whether the call is counted and will wait. */
    method CountIfEnabled(call: Call) returns (shouldWait: bool, ghost labels: seq<Label>)
      modifies calls`dispatchCount, calls`history
      ensures shouldWait == calls.inferenceEnabled
      ensures P.Run(old(calls.CoreAt(Entered(call))), labels)
           == Some(calls.CoreAt(Submitting(call, shouldWait, shouldWait)))
    {
      shouldWait := calls.inferenceEnabled;
      ghost var c := calls.CoreAt(Entered(call));
      Alone();
      ghost var decided := calls.CoreAt(if shouldWait then Counting(call) else Submitting(call, false, false));
      P.Extend(c, [], c, LoadFlag(0), decided);
      labels := [] + [LoadFlag(0)];
      if shouldWait {
        calls.dispatchCount := calls.dispatchCount + 1;
        calls.history := calls.history.(begun := calls.history.begun + 1);
        P.Extend(c, labels, decided, Bump(0), calls.CoreAt(Submitting(call, true, true)));
        labels := labels + [Bump(0)];
      }
    }

    /** reset_counters, as nativeReset calls it. */
    method NativeReset() returns (ghost labels: seq<Label>)
      modifies calls
      ensures P.Run(old(calls.CoreAt(Idle)), labels) == Some(calls.CoreAt(Idle))
      ensures !calls.inferenceEnabled && calls.dispatchCount == calls.waitCount == 0
      ensures calls.totalWaitNs == calls.maxWaitNs == 0
      ensures calls.trace == old(calls.trace) && calls.device == old(calls.device)
    {
      ghost var c := calls.CoreAt(Idle);
      Alone();
      ghost var zeroing := calls.CoreAt(Resetting(FlagCell));
      P.Extend(c, [], c, Reset(0), zeroing);
      labels := [] + [Reset(0)];
      ghost var states := calls.ZeroCounters(Idle);
      labels := ZeroRun(c, labels, states);
    }

    /** nativeSetInferenceEnabled */
    method SetInferenceEnabled(enabled: bool) returns (ghost labels: seq<Label>)
      modifies calls`inferenceEnabled
      ensures P.Run(old(calls.CoreAt(Idle)), labels) == Some(calls.CoreAt(Idle))
      ensures calls.inferenceEnabled == enabled
    {
      ghost var c := calls.CoreAt(Idle);
      labels := calls.SetInferenceEnabled(enabled);
      CommonRunsAreBoth(E.State(c, 1, Cleared(), []), labels, calls.CoreAt(Idle));
    }
  }

  /** The stores of a reset as steps of a run. */
  lemma ZeroRun(c: Core, ls: seq<Label>, states: seq<Core>) returns (labels: seq<Label>)
    requires |states| == 6 && P.Run(c, ls) == Some(states[0]) && Zeroes(states, Idle)
    ensures P.Run(c, labels) == Some(states[5])
  {
    hide ZeroStep;
    labels := ls;
    for i := 0 to 5
      invariant P.Run(c, labels) == Some(states[i])
    {
      P.Extend(c, labels, states[i], Zero(0, CELLS[i]), states[i + 1]);
      labels := labels + [Zero(0, CELLS[i])];
    }
  }
}
