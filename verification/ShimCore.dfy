/** What the two OpenCL queue shims share: their atomic counters, the vendor library as an
    environment, and the code of clEnqueueNDRangeKernel after the decision to wait. Threads
    interleave; every label is one atomic step of one thread or of the device. */
module ShimCore {
  import opened QueueTable
  import opened Wrappers

  type Thread = nat

  /** Event 0 is the NULL event; event e > 0 is described by the record at index e - 1. */
  type Event = nat

  const CL_SUCCESS := 0
  const CL_INVALID_OPERATION := -59

  /** Which vendor symbols were resolved when the shim was initialised. */
  datatype Symbols = Symbols(enqueue: bool, wait: bool, release: bool)

  /** One call of clEnqueueNDRangeKernel. `arguments` stands for the kernel, sizes and wait list,
      which are forwarded untouched; `hasEvent` says whether the caller passed an event pointer. */
  datatype Call = Call(queue: Queue, arguments: nat, hasEvent: bool)

  /** What is left to record after a wait: the three shared cells, then the compare-and-swap race. */
  datatype Todo =
    | AddWait(ns: nat)
    | AddTotal(ns: nat)
    | LoadMax(ns: nat)
    | Race(ns: nat, seen: nat)

  /** The shared cells in the order a reset zeroes them. */
  datatype Cell = FlagCell | DispatchCell | WaitCell | TotalCell | MaximumCell

  /** Where a thread is. */
  datatype Pc =
    | Idle
    | Entered(call: Call)
    | Counting(call: Call)
    | Ticking(call: Call)
    | Submitting(call: Call, counted: bool, wait: bool)
    | Waiting(call: Call, event: Event)
    | Recording(call: Call, event: Event, status: int, todo: Todo)
    | Releasing(call: Call, event: Event, status: int)
    | Resetting(cell: Cell)
    | Clearing

  /** The process-wide atomics. */
  datatype Memory = Memory(enabled: bool, dispatches: nat, waits: nat, totalNs: nat, maxNs: nat)

  /** An in-order command queue: whether each command was a counted kernel, and how many of the
      commands, from the front, are complete (section 3.2.1 of OpenCL 1.2). */
  datatype Line = Line(counted: seq<bool>, done: nat)

  /** An event returned by the vendor: the command it stands for, whether the shim asked for it, and
      how often the shim has waited on it and released it. */
  datatype EventRecord = EventRecord(queue: Queue, position: nat, shim: bool, waits: nat, releases: nat)

  datatype Device = Device(lines: map<Queue, Line>, events: seq<EventRecord>)

  /** What the vendor library and the callers observe. */
  datatype Observation =
    | VendorEnqueue(thread: Thread, call: Call, wantsEvent: bool, status: int)
    | VendorWait(thread: Thread, event: Event, status: int)
    | VendorRelease(thread: Thread, event: Event, status: int)
    | Returned(thread: Thread, status: int)

  /** What a reset found when it zeroed the dispatch counter. */
  datatype Snapshot = Snapshot(begun: nat, recorded: nat, inFlight: nat, lost: nat)

  /** History, never read by the shims: all counted calls and all recorded waits since the process
      started, why counted calls ended without a recorded wait, and the last two zeroings. */
  datatype History = History(
    begun: nat, recorded: seq<nat>,
    failed: nat, unwaited: nat, unresolved: nat, backwards: nat,
    zeroed: Snapshot, waitsZeroedAt: nat, waitsZeroedLast: bool)

  datatype Core = Core(
    symbols: Symbols, threads: seq<Pc>, memory: Memory, device: Device,
    trace: seq<Observation>, history: History)

  datatype Label =
    | Enter(thread: Thread, call: Call)
    | LoadFlag(thread: Thread)
    | Bump(thread: Thread)
    | Tick(thread: Thread)
    | Enqueue(thread: Thread, status: int, returned: bool)
    | Wait(thread: Thread, status: int, started: nat, ended: nat)
    | Record(thread: Thread, spurious: bool)
    | Release(thread: Thread, status: int)
    | Reset(thread: Thread)
    | Zero(thread: Thread, cell: Cell)
    | Clear(thread: Thread)
    | Exchange(enabled: bool)
    | Complete(queue: Queue)

  // ---------------------------------------------------------------- helpers

  predicate IsAt(c: Core, t: Thread, pc: Pc) {
    t < |c.threads| && c.threads[t] == pc
  }

  function Goto(c: Core, t: Thread, pc: Pc): Core
    requires t < |c.threads|
  {
    c.(threads := c.threads[t := pc])
  }

  function LineOf(d: Device, q: Queue): Line {
    if q in d.lines then d.lines[q] else Line([], 0)
  }

  function Append(d: Device, q: Queue, counted: bool): Device {
    var line := LineOf(d, q);
    d.(lines := d.lines[q := line.(counted := line.counted + [counted])])
  }

  /** The call ends: the caller sees the status. */
  function Return(c: Core, t: Thread, status: int): Core
    requires t < |c.threads|
  {
    Goto(c, t, Idle).(trace := c.trace + [Returned(t, status)])
  }

  /** After the wait has been recorded: release the shim's own event, if there is one, or return. */
  function Finish(c: Core, t: Thread, call: Call, event: Event, status: int): Core
    requires t < |c.threads|
  {
    if !call.hasEvent && event != 0 then Goto(c, t, Releasing(call, event, status))
    else Return(c, t, status)
  }

  /** A counted call that may still record a wait. */
  predicate MayRecord(pc: Pc) {
    pc.Ticking? || (pc.Submitting? && pc.counted) || pc.Waiting? || (pc.Recording? && pc.todo.AddWait?)
  }

  function InFlight(threads: seq<Pc>): nat {
    if threads == [] then 0
    else InFlight(threads[..|threads| - 1]) + if MayRecord(threads[|threads| - 1]) then 1 else 0
  }

  function Lost(h: History): nat {
    h.failed + h.unwaited + h.unresolved + h.backwards
  }

  // ---------------------------------------------------------------- steps both shims share

  function EnterStep(c: Core, t: Thread, call: Call): Option<Core> {
    if !IsAt(c, t, Idle) then None
    else if !c.symbols.enqueue then Some(Return(c, t, CL_INVALID_OPERATION))
    else Some(Goto(c, t, Entered(call)))
  }

  /** The call of the vendor's enqueue. A success with an event pointer stores an event, which the
      driver may leave NULL only against the rules of OpenCL. */
  function EnqueueStep(c: Core, t: Thread, status: int, returned: bool): Option<Core> {
    if t >= |c.threads| || !c.threads[t].Submitting? then None
    else
      var Submitting(call, counted, wait) := c.threads[t];
      var wants := wait || call.hasEvent;
      var seen := c.(trace := c.trace + [VendorEnqueue(t, call, wants, status)]);
      if status != CL_SUCCESS then
        var h := if counted then c.history.(failed := c.history.failed + 1) else c.history;
        Some(Return(seen.(history := h), t, status))
      else
        var position := |LineOf(c.device, call.queue).counted|;
        var appended := Append(c.device, call.queue, counted);
        var event := if wants && returned then |c.device.events| + 1 else 0;
        var device :=
          if event != 0
          then appended.(events := appended.events + [EventRecord(call.queue, position, !call.hasEvent, 0, 0)])
          else appended;
        var next := seen.(device := device);
        if !wait then
          var h := if counted then c.history.(unwaited := c.history.unwaited + 1) else c.history;
          Some(Return(next.(history := h), t, status))
        else if !c.symbols.wait || !c.symbols.release then
          var h := c.history.(unresolved := c.history.unresolved + 1);
          Some(Return(next.(history := h), t, CL_INVALID_OPERATION))
        else Some(Goto(next, t, Waiting(call, event)))
  }

  /** The command an event stands for is complete. */
  predicate EventComplete(d: Device, event: Event) {
    0 < event <= |d.events| && d.events[event - 1].position < LineOf(d, d.events[event - 1].queue).done
  }

  /** The call of the vendor's wait between two clock readings. It succeeds only once the command is
      complete (section 5.9 of OpenCL 1.2), and may fail at any time. */
  function WaitStep(c: Core, t: Thread, status: int, started: nat, ended: nat): Option<Core> {
    if t >= |c.threads| || !c.threads[t].Waiting? then None
    else
      var Waiting(call, event) := c.threads[t];
      if status == CL_SUCCESS && !EventComplete(c.device, event) then None
      else
        var events := c.device.events;
        var device :=
          if 0 < event <= |events|
          then c.device.(events := events[event - 1 := events[event - 1].(waits := events[event - 1].waits + 1)])
          else c.device;
        var next := c.(device := device, trace := c.trace + [VendorWait(t, event, status)]);
        if ended >= started then Some(Goto(next, t, Recording(call, event, status, AddWait(ended - started))))
        else
          var h := c.history.(backwards := c.history.backwards + 1);
          Some(Finish(next.(history := h), t, call, event, status))
  }

  /** One atomic access of record_wait. In the race a weak compare-and-swap may fail spuriously. */
  function RecordStep(c: Core, t: Thread, spurious: bool): Option<Core> {
    if t >= |c.threads| || !c.threads[t].Recording? then None
    else
      var Recording(call, event, status, todo) := c.threads[t];
      match todo
      case AddWait(ns) =>
        var m := c.memory.(waits := c.memory.waits + 1);
        var h := c.history.(recorded := c.history.recorded + [ns]);
        Some(Goto(c.(memory := m, history := h), t, Recording(call, event, status, AddTotal(ns))))
      case AddTotal(ns) =>
        var m := c.memory.(totalNs := c.memory.totalNs + ns);
        Some(Goto(c.(memory := m), t, Recording(call, event, status, LoadMax(ns))))
      case LoadMax(ns) =>
        Some(Compare(c, t, call, event, status, ns, c.memory.maxNs))
      case Race(ns, seen) =>
        if c.memory.maxNs == seen && !spurious
        then Some(Finish(c.(memory := c.memory.(maxNs := ns)), t, call, event, status))
        else Some(Compare(c, t, call, event, status, ns, c.memory.maxNs))
  }

  /** The loop guard: race on while the duration exceeds the maximum just read. */
  function Compare(c: Core, t: Thread, call: Call, event: Event, status: int, ns: nat, seen: nat): Core
    requires t < |c.threads|
  {
    if ns > seen then Goto(c, t, Recording(call, event, status, Race(ns, seen)))
    else Finish(c, t, call, event, status)
  }

  function ReleaseStep(c: Core, t: Thread, status: int): Option<Core> {
    if t >= |c.threads| || !c.threads[t].Releasing? then None
    else
      var Releasing(_, event, waited) := c.threads[t];
      var events := c.device.events;
      var device :=
        if 0 < event <= |events|
        then c.device.(events := events[event - 1 := events[event - 1].(releases := events[event - 1].releases + 1)])
        else c.device;
      var next := c.(device := device, trace := c.trace + [VendorRelease(t, event, status)]);
      Some(Return(next, t, if waited == CL_SUCCESS && status != CL_SUCCESS then status else waited))
  }

  function ResetStep(c: Core, t: Thread): Option<Core> {
    if IsAt(c, t, Idle) then Some(Goto(c, t, Resetting(FlagCell))) else None
  }

  /** One store of a reset; `last` is where the thread goes after the fifth. */
  function ZeroStep(c: Core, t: Thread, cell: Cell, last: Pc): Option<Core> {
    if !IsAt(c, t, Resetting(cell)) then None
    else
      var m, h := c.memory, c.history;
      match cell
      case FlagCell => Some(Goto(c.(memory := m.(enabled := false)), t, Resetting(DispatchCell)))
      case DispatchCell =>
        var snapshot := Snapshot(h.begun, |h.recorded|, InFlight(c.threads), Lost(h));
        Some(Goto(c.(memory := m.(dispatches := 0),
                     history := h.(zeroed := snapshot, waitsZeroedLast := false)), t, Resetting(WaitCell)))
      case WaitCell =>
        Some(Goto(c.(memory := m.(waits := 0),
                     history := h.(waitsZeroedAt := |h.recorded|, waitsZeroedLast := true)), t, Resetting(TotalCell)))
      case TotalCell => Some(Goto(c.(memory := m.(totalNs := 0)), t, Resetting(MaximumCell)))
      case MaximumCell => Some(Goto(c.(memory := m.(maxNs := 0)), t, last))
  }

  /** The device finishes the oldest unfinished command of a queue. */
  function CompleteStep(c: Core, q: Queue): Option<Core> {
    var line := LineOf(c.device, q);
    if line.done >= |line.counted| then None
    else Some(c.(device := c.device.(lines := c.device.lines[q := line.(done := line.done + 1)])))
  }

  function BumpStep(c: Core, t: Thread, next: Pc): Option<Core> {
    if t >= |c.threads| || !c.threads[t].Counting? then None
    else
      var m := c.memory.(dispatches := c.memory.dispatches + 1);
      Some(Goto(c.(memory := m, history := c.history.(begun := c.history.begun + 1)), t, next))
  }

  /** The steps whose code is the same in both shims. */
  function CommonStep(c: Core, l: Label): Option<Core> {
    match l
    case Enter(t, call) => EnterStep(c, t, call)
    case Enqueue(t, status, returned) => EnqueueStep(c, t, status, returned)
    case Wait(t, status, started, ended) => WaitStep(c, t, status, started, ended)
    case Record(t, spurious) => RecordStep(c, t, spurious)
    case Release(t, status) => ReleaseStep(c, t, status)
    case Reset(t) => ResetStep(c, t)
    case Exchange(enabled) => Some(c.(memory := c.memory.(enabled := enabled)))
    case Complete(q) => CompleteStep(c, q)
    case _ => None
  }

  predicate AllIdle(threads: seq<Pc>) {
    forall t | 0 <= t < |threads| :: threads[t] == Idle
  }
}
