/** The code the two shims have in common, as it is written: one object that holds the process-wide
    counters and calls the vendor library. Each method, run by a thread alone, is proved to be a run of
    the steps that the two step machines share. */
module ShimCalls {
  import opened QueueTable
  import opened ShimCore
  import E = ExperimentalShim
  import P = ProductionShim
  import opened Wrappers

  /** How the vendor answers one call: the enqueue's status and whether it stores an event, the wait's
      status and the clock around it, the release's status, and the spurious failures of the race. */
  datatype Answers = Answers(
    enqueue: int, returned: bool, wait: int, started: nat, ended: nat, release: int, spurious: nat)

  /** A run of shared steps. */
  function CommonRun(c: Core, ls: seq<Label>): Option<Core> {
    if ls == [] then Some(c)
    else
      match CommonRun(c, ls[..|ls| - 1])
      case Some(m) => CommonStep(m, ls[|ls| - 1])
      case None => None
  }

  /** It is a run of either shim. */
  lemma {:induction false} CommonRunsAreBoth(s: E.State, ls: seq<Label>, c: Core)
    requires CommonRun(s.core, ls) == Some(c)
    ensures E.Run(s, ls) == Some(s.(core := c)) && P.Run(s.core, ls) == Some(c)
  {
    if ls != [] {
      hide CommonStep;
      var before, l := ls[..|ls| - 1], ls[|ls| - 1];
      var m := CommonRun(s.core, before).value;
      CommonRunsAreBoth(s, before, m);
      CommonStepsAreBoth(s.(core := m), l, c);
    }
  }

  lemma CommonStepsAreBoth(s: E.State, l: Label, c: Core)
    requires CommonStep(s.core, l) == Some(c)
    ensures E.Step(s, l) == Some(s.(core := c)) && P.Step(s.core, l) == Some(c)
  {
    hide EnterStep, EnqueueStep, WaitStep, RecordStep, ReleaseStep, ResetStep, CompleteStep;
  }

  /** One more step of a run, from one known state to the next. */
  lemma Extend(c: Core, ls: seq<Label>, m: Core, l: Label, m': Core)
    requires CommonRun(c, ls) == Some(m) && CommonStep(m, l) == Some(m')
    ensures CommonRun(c, ls + [l]) == Some(m')
  {
    assert (ls + [l])[..|ls|] == ls;
  }

  lemma FirstStep(c: Core, l: Label, c': Core)
    requires CommonStep(c, l) == Some(c')
    ensures CommonRun(c, [l]) == Some(c')
  {
    assert [l][..0] == [];
  }

  /** Two runs, one after the other. */
  lemma {:induction false} Join(c: Core, ls: seq<Label>, m: Core, more: seq<Label>, m': Core)
    requires CommonRun(c, ls) == Some(m) && CommonRun(m, more) == Some(m')
    ensures CommonRun(c, ls + more) == Some(m')
    decreases more
  {
    if more == [] {
      assert ls + more == ls;
    } else {
      hide CommonStep;
      Join(c, ls, m, more[..|more| - 1], CommonRun(m, more[..|more| - 1]).value);
      assert (ls + more)[..|ls + more| - 1] == ls + more[..|more| - 1];
    }
  }

  /** The only thread moves. */
  lemma Alone()
    ensures forall a: Pc, b: Pc :: [a][0 := b] == [b]
  {
  }

  /** The event stands for a command that the queue holds. */
  predicate OnLine(d: Device, event: Event, q: Queue) {
    0 < event <= |d.events| && d.events[event - 1].queue == q
    && d.events[event - 1].position < |LineOf(d, q).counted|
  }

  /** The event of an accepted command, and the device that holds both. */
  function AcceptedEvent(d: Device, wants: bool, returned: bool): Event {
    if wants && returned then |d.events| + 1 else 0
  }

  function Accepted(d: Device, call: Call, counted: bool, wants: bool, returned: bool): Device {
    var position := |LineOf(d, call.queue).counted|;
    var appended := Append(d, call.queue, counted);
    if AcceptedEvent(d, wants, returned) == 0 then appended
    else appended.(events := appended.events + [EventRecord(call.queue, position, !call.hasEvent, 0, 0)])
  }

  lemma AcceptedStep(c: Core, call: Call, counted: bool, wait: bool, returned: bool)
    requires c.threads == [Submitting(call, counted, wait)]
    ensures var wants := wait || call.hasEvent;
            var c' := c.(device := Accepted(c.device, call, counted, wants, returned),
                         trace := c.trace + [VendorEnqueue(0, call, wants, CL_SUCCESS)]);
            var h := c.history;
            EnqueueStep(c, 0, CL_SUCCESS, returned) == Some(
              if !wait then c'.(threads := [Idle], trace := c'.trace + [Returned(0, CL_SUCCESS)],
                                history := if counted then h.(unwaited := h.unwaited + 1) else h)
              else if !c.symbols.wait || !c.symbols.release
              then c'.(threads := [Idle], trace := c'.trace + [Returned(0, CL_INVALID_OPERATION)],
                       history := h.(unresolved := h.unresolved + 1))
              else c'.(threads := [Waiting(call, AcceptedEvent(c.device, wants, returned))]))
  {
    Alone();
  }

  class Calls {
    const symbols: Symbols
    var inferenceEnabled: bool
    var dispatchCount: nat
    var waitCount: nat
    var totalWaitNs: nat
    var maxWaitNs: nat
    var device: Device
    var trace: seq<Observation>
    ghost var history: History

    /** Loading the library and its one-time initialisation. */
    constructor (symbols: Symbols, device: Device)
      ensures this.symbols == symbols && this.device == device && trace == []
      ensures !inferenceEnabled && dispatchCount == waitCount == totalWaitNs == maxWaitNs == 0
    {
      this.symbols, this.device := symbols, device;
      inferenceEnabled, dispatchCount, waitCount, totalWaitNs, maxWaitNs := false, 0, 0, 0, 0;
      trace := [];
      history := History(0, [], 0, 0, 0, 0, Snapshot(0, 0, 0, 0), 0, true);
    }

    /** The shared state when the only thread is at pc. */
    ghost function CoreAt(pc: Pc): Core
      reads this
    {
      Core(symbols, [pc], Memory(inferenceEnabled, dispatchCount, waitCount, totalWaitNs, maxWaitNs),
                device, trace, history)
    }

    /** Where the call goes once its wait is recorded. */
    ghost function Done(call: Call, event: Event, status: int): Core
      reads this
    {
      if !call.hasEvent && event != 0 then CoreAt(Releasing(call, event, status))
      else CoreAt(Idle).(trace := trace + [Returned(0, status)])
    }

    /** record_wait, entered with the wait's status still to be returned. */
    method RecordWait(call: Call, event: Event, status: int, ns: nat, spurious: nat) returns (ghost labels: seq<Label>)
      modifies this`waitCount, this`totalWaitNs, this`maxWaitNs, this`history
      ensures CommonRun(old(CoreAt(Recording(call, event, status, AddWait(ns)))), labels) == Some(Done(call, event, status))
      ensures waitCount == old(waitCount) + 1 && totalWaitNs == old(totalWaitNs) + ns
      ensures maxWaitNs == if ns > old(maxWaitNs) then ns else old(maxWaitNs)
    {
      ghost var c := CoreAt(Recording(call, event, status, AddWait(ns)));
      Alone();
      waitCount := waitCount + 1;
      history := history.(recorded := history.recorded + [ns]);
      ghost var m := CoreAt(Recording(call, event, status, AddTotal(ns)));
      Extend(c, [], c, Record(0, false), m);
      labels := [] + [Record(0, false)];
      totalWaitNs := totalWaitNs + ns;
      ghost var loading := CoreAt(Recording(call, event, status, LoadMax(ns)));
      Extend(c, labels, m, Record(0, false), loading);
      labels := labels + [Record(0, false)];
      ghost var more := RaiseMaximum(call, event, status, ns, spurious);
      Join(c, labels, loading, more, Done(call, event, status));
      labels := labels + more;
    }

    /** The load and the compare-and-swap loop of record_wait; `spurious` swaps fail for no reason. */
    method RaiseMaximum(call: Call, event: Event, status: int, ns: nat, spurious: nat)
      returns (ghost labels: seq<Label>)
      modifies this`maxWaitNs
      ensures CommonRun(old(CoreAt(Recording(call, event, status, LoadMax(ns)))), labels) == Some(Done(call, event, status))
      ensures maxWaitNs == if ns > old(maxWaitNs) then ns else old(maxWaitNs)
    {
      ghost var c := CoreAt(Recording(call, event, status, LoadMax(ns)));
      Alone();
      var previousMax := maxWaitNs;
      var failures, swapped := spurious, false;
      ghost var racing := CoreAt(Recording(call, event, status, Race(ns, previousMax)));
      Extend(c, [], c, Record(0, false), if ns > previousMax then racing else Done(call, event, status));
      labels := [] + [Record(0, false)];
      while ns > previousMax && !swapped
        invariant previousMax == old(maxWaitNs)
        invariant maxWaitNs == (if swapped then ns else previousMax) && (swapped ==> ns > previousMax)
        invariant !swapped ==> racing == CoreAt(Recording(call, event, status, Race(ns, previousMax)))
        invariant CommonRun(c, labels) == Some(if ns > previousMax && !swapped then racing else Done(call, event, status))
        decreases !swapped, failures
      {
        ghost var fails := failures > 0;
        if failures > 0 {
          failures := failures - 1;
          previousMax := maxWaitNs;
        } else {
          maxWaitNs := ns;
          swapped := true;
        }
        Extend(c, labels, racing, Record(0, fails), if swapped then Done(call, event, status) else racing);
        labels := labels + [Record(0, fails)];
      }
    }

    /** The device finishes everything on a queue while a thread waits. */
    method DrainQueue(queue: Queue, pc: Pc) returns (ghost labels: seq<Label>)
      requires LineOf(device, queue).done <= |LineOf(device, queue).counted|
      modifies this`device
      ensures CommonRun(old(CoreAt(pc)), labels) == Some(CoreAt(pc))
      ensures device.events == old(device.events) && LineOf(device, queue).counted == old(LineOf(device, queue).counted)
      ensures LineOf(device, queue).done == |LineOf(device, queue).counted|
    {
      ghost var c := CoreAt(pc);
      labels := [];
      while LineOf(device, queue).done < |LineOf(device, queue).counted|
        invariant CommonRun(c, labels) == Some(CoreAt(pc))
        invariant device.events == old(device.events)
        invariant LineOf(device, queue).counted == old(LineOf(device, queue).counted)
        invariant LineOf(device, queue).done <= |LineOf(device, queue).counted|
        decreases |LineOf(device, queue).counted| - LineOf(device, queue).done
      {
        ghost var m := CoreAt(pc);
        var line := LineOf(device, queue);
        device := device.(lines := device.lines[queue := line.(done := line.done + 1)]);
        Extend(c, labels, m, Complete(queue), CoreAt(pc));
        labels := labels + [Complete(queue)];
      }
    }

    /** There is a boundary to wait for. */
    predicate MustWait(wait: bool, enqueued: int) {
      enqueued == CL_SUCCESS && wait && symbols.wait && symbols.release
    }

    /** clEnqueueNDRangeKernel after the decision to wait. Before a successful wait the device drains the
        queue; a wait on a NULL event cannot succeed. */
    method Finish(call: Call, counted: bool, wait: bool, answers: Answers) returns (status: int, ghost labels: seq<Label>)
      requires LineOf(device, call.queue).done <= |LineOf(device, call.queue).counted|
      requires answers.wait == CL_SUCCESS ==> answers.returned
      modifies this`device, this`trace, this`history, this`waitCount, this`totalWaitNs, this`maxWaitNs
      ensures CommonRun(old(CoreAt(Submitting(call, counted, wait))), labels) == Some(CoreAt(Idle))
      ensures trace != [] && trace[|trace| - 1] == Returned(0, status)
    {
      ghost var c := CoreAt(Submitting(call, counted, wait));
      var event;
      status, event, labels := Submit(call, counted, wait, answers);
      if MustWait(wait, answers.enqueue) {
        ghost var m := CoreAt(Waiting(call, event));
        ghost var more;
        status, more := WaitAndRelease(call, event, answers);
        Join(c, labels, m, more, CoreAt(Idle));
        labels := labels + more;
      }
    }

    /** The call of the vendor's enqueue, and the return unless there is a boundary to wait for. */
    method Submit(call: Call, counted: bool, wait: bool, answers: Answers)
      returns (status: int, event: Event, ghost labels: seq<Label>)
      modifies this`device, this`trace, this`history
      ensures CommonRun(old(CoreAt(Submitting(call, counted, wait))), labels)
           == Some(if MustWait(wait, answers.enqueue) then CoreAt(Waiting(call, event)) else CoreAt(Idle))
      ensures !MustWait(wait, answers.enqueue) ==> trace != [] && trace[|trace| - 1] == Returned(0, status)
      ensures event != 0 ==> OnLine(device, event, call.queue)
      ensures LineOf(device, call.queue).done == old(LineOf(device, call.queue).done)
      ensures |LineOf(device, call.queue).counted| >= old(|LineOf(device, call.queue).counted|)
      ensures answers.enqueue == CL_SUCCESS && wait && answers.returned ==> event != 0
    {
      hide CommonRun, OnLine, LineOf;
      ghost var c := CoreAt(Submitting(call, counted, wait));
      Alone();
      event := 0;
      status := answers.enqueue;
      if answers.enqueue != CL_SUCCESS {
        trace := trace + [VendorEnqueue(0, call, wait || call.hasEvent, answers.enqueue)];
        if counted { history := history.(failed := history.failed + 1); }
        trace := trace + [Returned(0, status)];
        ghost var l := Enqueue(0, answers.enqueue, answers.returned);
        FirstStep(c, l, CoreAt(Idle));
        labels := [l];
      } else {
        status, event, labels := SubmitAccepted(call, counted, wait, answers.returned);
      }
    }

    /** The same when the vendor accepts the command. */
    method SubmitAccepted(call: Call, counted: bool, wait: bool, returned: bool)
      returns (status: int, event: Event, ghost labels: seq<Label>)
      modifies this`device, this`trace, this`history
      ensures CommonRun(old(CoreAt(Submitting(call, counted, wait))), labels)
           == Some(if MustWait(wait, CL_SUCCESS) then CoreAt(Waiting(call, event)) else CoreAt(Idle))
      ensures !MustWait(wait, CL_SUCCESS) ==> trace != [] && trace[|trace| - 1] == Returned(0, status)
      ensures event != 0 ==> OnLine(device, event, call.queue)
      ensures LineOf(device, call.queue).done == old(LineOf(device, call.queue).done)
      ensures |LineOf(device, call.queue).counted| == old(|LineOf(device, call.queue).counted|) + 1
      ensures wait && returned ==> event != 0
    {
      ghost var c := CoreAt(Submitting(call, counted, wait));
      AcceptedStep(c, call, counted, wait, returned);
      var wants := wait || call.hasEvent;
      trace := trace + [VendorEnqueue(0, call, wants, CL_SUCCESS)];
      event := AcceptedEvent(device, wants, returned);
      device := Accepted(device, call, counted, wants, returned);
      status := CL_SUCCESS;
      if !wait {
        if counted { history := history.(unwaited := history.unwaited + 1); }
        trace := trace + [Returned(0, status)];
      } else if !symbols.wait || !symbols.release {
        history := history.(unresolved := history.unresolved + 1);
        status := CL_INVALID_OPERATION;
        trace := trace + [Returned(0, status)];
      }
      ghost var l := Enqueue(0, CL_SUCCESS, returned);
      Extend(c, [], c, l, if MustWait(wait, CL_SUCCESS) then CoreAt(Waiting(call, event)) else CoreAt(Idle));
      labels := [] + [l];
    }

    /** Where the call goes once its wait has returned: to record the wait, unless the clock ran backwards. */
    ghost function Timed(call: Call, event: Event, answers: Answers): Core
      reads this
    {
      if answers.ended >= answers.started
      then CoreAt(Recording(call, event, answers.wait, AddWait(answers.ended - answers.started)))
      else Done(call, event, answers.wait)
    }

    /** The call of the vendor's wait between the two clock readings. */
    method CallWait(call: Call, event: Event, answers: Answers) returns (ghost labels: seq<Label>)
      requires LineOf(device, call.queue).done <= |LineOf(device, call.queue).counted|
      requires event != 0 ==> OnLine(device, event, call.queue)
      requires answers.wait == CL_SUCCESS ==> event != 0
      modifies this`device, this`trace, this`history
      ensures CommonRun(old(CoreAt(Waiting(call, event))), labels) == Some(Timed(call, event, answers))
      ensures |device.events| == |old(device.events)|
    {
      ghost var c := CoreAt(Waiting(call, event));
      labels := [];
      if answers.wait == CL_SUCCESS {
        labels := DrainQueue(call.queue, Waiting(call, event));
      }
      ghost var m := CoreAt(Waiting(call, event));
      ReturnFromWait(call, event, answers);
      ghost var l := Wait(0, answers.wait, answers.started, answers.ended);
      Extend(c, labels, m, l, Timed(call, event, answers));
      labels := labels + [l];
    }

    /** The wait returns: what the vendor observes, and the event it waited on. */
    method ReturnFromWait(call: Call, event: Event, answers: Answers)
      requires event <= |device.events|
      requires answers.wait == CL_SUCCESS ==> EventComplete(device, event)
      modifies this`device, this`trace, this`history
      ensures WaitStep(old(CoreAt(Waiting(call, event))), 0, answers.wait, answers.started, answers.ended)
           == Some(Timed(call, event, answers))
      ensures |device.events| == |old(device.events)|
    {
      Alone();
      trace := trace + [VendorWait(0, event, answers.wait)];
      if event != 0 {
        var record := device.events[event - 1];
        device := device.(events := device.events[event - 1 := record.(waits := record.waits + 1)]);
      }
      if answers.ended < answers.started {
        history := history.(backwards := history.backwards + 1);
      }
    }

    /** The wait and, when the clock allows it, record_wait. */
    method WaitAndRecord(call: Call, event: Event, answers: Answers) returns (ghost labels: seq<Label>)
      requires LineOf(device, call.queue).done <= |LineOf(device, call.queue).counted|
      requires event != 0 ==> OnLine(device, event, call.queue)
      requires answers.wait == CL_SUCCESS ==> event != 0
      modifies this`device, this`trace, this`history, this`waitCount, this`totalWaitNs, this`maxWaitNs
      ensures CommonRun(old(CoreAt(Waiting(call, event))), labels) == Some(Done(call, event, answers.wait))
      ensures |device.events| == |old(device.events)|
    {
      hide CommonRun, OnLine;
      ghost var c := CoreAt(Waiting(call, event));
      labels := CallWait(call, event, answers);
      if answers.ended >= answers.started {
        ghost var recording := Timed(call, event, answers);
        ghost var more := RecordWait(call, event, answers.wait, answers.ended - answers.started, answers.spurious);
        Join(c, labels, recording, more, Done(call, event, answers.wait));
        labels := labels + more;
      }
    }

    /** The second half of the call: wait, record, release. */
    method WaitAndRelease(call: Call, event: Event, answers: Answers) returns (status: int, ghost labels: seq<Label>)
      requires LineOf(device, call.queue).done <= |LineOf(device, call.queue).counted|
      requires event != 0 ==> OnLine(device, event, call.queue)
      requires answers.wait == CL_SUCCESS ==> event != 0
      modifies this`device, this`trace, this`history, this`waitCount, this`totalWaitNs, this`maxWaitNs
      ensures CommonRun(old(CoreAt(Waiting(call, event))), labels) == Some(CoreAt(Idle))
      ensures trace != [] && trace[|trace| - 1] == Returned(0, status)
    {
      hide CommonRun, LineOf;
      ghost var c := CoreAt(Waiting(call, event));
      labels := WaitAndRecord(call, event, answers);
      ghost var done := Done(call, event, answers.wait);
      ghost var last;
      status, last := ReleaseBoundary(call, event, answers);
      Join(c, labels, done, last, CoreAt(Idle));
      labels := labels + last;
    }

    /** The release of the shim's own event, if it made one, and the return. */
    method ReleaseBoundary(call: Call, event: Event, answers: Answers) returns (status: int, ghost labels: seq<Label>)
      requires event <= |device.events|
      modifies this`device, this`trace
      ensures CommonRun(old(Done(call, event, answers.wait)), labels) == Some(CoreAt(Idle))
      ensures trace != [] && trace[|trace| - 1] == Returned(0, status)
    {
      ghost var c := Done(call, event, answers.wait);
      Alone();
      labels := [];
      status := answers.wait;
      if !call.hasEvent && event != 0 {
        var record := device.events[event - 1];
        device := device.(events := device.events[event - 1 := record.(releases := record.releases + 1)]);
        trace := trace + [VendorRelease(0, event, answers.release)];
        if status == CL_SUCCESS && answers.release != CL_SUCCESS {
          status := answers.release;
        }
        trace := trace + [Returned(0, status)];
        Extend(c, labels, c, Release(0, answers.release), CoreAt(Idle));
        labels := labels + [Release(0, answers.release)];
      } else {
        trace := trace + [Returned(0, status)];
      }
    }

    /** nativeSetInferenceEnabled; the summary it logs is not modelled. */
    method SetInferenceEnabled(enabled: bool) returns (ghost labels: seq<Label>)
      modifies this`inferenceEnabled
      ensures CommonRun(old(CoreAt(Idle)), labels) == Some(CoreAt(Idle))
      ensures inferenceEnabled == enabled
    {
      ghost var c := CoreAt(Idle);
      inferenceEnabled := enabled;
      Extend(c, [], c, Exchange(enabled), CoreAt(Idle));
      labels := [] + [Exchange(enabled)];
    }

    /** The five stores of a reset, one at a time; `last` is where the caller goes afterwards. */
    method ZeroCounters(ghost last: Pc) returns (ghost states: seq<Core>)
      modifies this`inferenceEnabled, this`dispatchCount, this`waitCount, this`totalWaitNs, this`maxWaitNs, this`history
      ensures !inferenceEnabled && dispatchCount == waitCount == totalWaitNs == maxWaitNs == 0
      ensures |states| == 6 && states[0] == old(CoreAt(Resetting(FlagCell))) && states[5] == CoreAt(last)
      ensures Zeroes(states, last)
    {
      hide ZeroStep, InFlight;
      ghost var s0 := CoreAt(Resetting(FlagCell));
      inferenceEnabled := false;
      ghost var s1 := CoreAt(Resetting(DispatchCell));
      dispatchCount := 0;
      history := history.(
        zeroed := Snapshot(history.begun, |history.recorded|, 0, Lost(history)), waitsZeroedLast := false);
      ghost var s2 := CoreAt(Resetting(WaitCell));
      waitCount := 0;
      history := history.(waitsZeroedAt := |history.recorded|, waitsZeroedLast := true);
      ghost var s3 := CoreAt(Resetting(TotalCell));
      totalWaitNs := 0;
      ghost var s4 := CoreAt(Resetting(MaximumCell));
      maxWaitNs := 0;
      states := [s0, s1, s2, s3, s4, CoreAt(last)];
      FirstStores(s0, s1, s2, last);
      LastStores(s2, s3, s4, CoreAt(last), last);
      InOrder(states, last);
    }
  }

  lemma InOrder(states: seq<Core>, last: Pc)
    requires |states| == 6
    requires ZeroStep(states[0], 0, FlagCell, last) == Some(states[1])
    requires ZeroStep(states[1], 0, DispatchCell, last) == Some(states[2])
    requires ZeroStep(states[2], 0, WaitCell, last) == Some(states[3])
    requires ZeroStep(states[3], 0, TotalCell, last) == Some(states[4])
    requires ZeroStep(states[4], 0, MaximumCell, last) == Some(states[5])
    ensures Zeroes(states, last)
  {
    hide ZeroStep;
  }

  lemma FirstStores(s0: Core, s1: Core, s2: Core, last: Pc)
    requires s0.threads == [Resetting(FlagCell)]
    requires s1 == s0.(threads := [Resetting(DispatchCell)], memory := s0.memory.(enabled := false))
    requires s2 == s1.(threads := [Resetting(WaitCell)], memory := s1.memory.(dispatches := 0),
                       history := s1.history.(
                         zeroed := Snapshot(s1.history.begun, |s1.history.recorded|, 0, Lost(s1.history)),
                         waitsZeroedLast := false))
    ensures ZeroStep(s0, 0, FlagCell, last) == Some(s1) && ZeroStep(s1, 0, DispatchCell, last) == Some(s2)
  {
    Alone();
    NoneInFlight(Resetting(DispatchCell));
  }

  lemma LastStores(s2: Core, s3: Core, s4: Core, s5: Core, last: Pc)
    requires s2.threads == [Resetting(WaitCell)]
    requires s3 == s2.(threads := [Resetting(TotalCell)], memory := s2.memory.(waits := 0),
                       history := s2.history.(waitsZeroedAt := |s2.history.recorded|, waitsZeroedLast := true))
    requires s4 == s3.(threads := [Resetting(MaximumCell)], memory := s3.memory.(totalNs := 0))
    requires s5 == s4.(threads := [last], memory := s4.memory.(maxNs := 0))
    ensures ZeroStep(s2, 0, WaitCell, last) == Some(s3) && ZeroStep(s3, 0, TotalCell, last) == Some(s4)
    ensures ZeroStep(s4, 0, MaximumCell, last) == Some(s5)
  {
    Alone();
  }

  const CELLS := [FlagCell, DispatchCell, WaitCell, TotalCell, MaximumCell]

  /** Each state follows from the one before by the next store. */
  ghost predicate Zeroes(states: seq<Core>, last: Pc)
    requires |states| == 6
  {
    forall i | 0 <= i < 5 :: ZeroStep(states[i], 0, CELLS[i], last) == Some(states[i + 1])
  }

  lemma NoneInFlight(pc: Pc)
    requires !MayRecord(pc)
    ensures InFlight([pc]) == 0
  {
    assert [pc][..0] == [];
  }
}
