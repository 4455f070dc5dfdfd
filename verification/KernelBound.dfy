/** The bound the queue shims exist for: how many counted kernels of one in-order queue can be
    unfinished, over every interleaving, every failure and any number of other queues. The proof
    runs the abstract bounded window beside the shim. */
module KernelBound {
  import opened Counting
  import opened QueueTable
  import opened ShimCore
  import E = ExperimentalShim
  import P = ProductionShim
  import W = BoundedWindow
  import ShimEquivalence
  import opened Wrappers

  /** Counted kernels of the queue, enqueued at or after a position, that are not finished. */
  ghost function Unfinished(c: Core, q: Queue, from: nat): set<nat> {
    var line := LineOf(c.device, q);
    set p | from <= p < |line.counted| && line.done <= p && line.counted[p]
  }

  /** This step ends a boundary call on the queue without a successful wait. */
  predicate Misses(c: Core, l: Label, q: Queue) {
    match l
    case Enqueue(t, status, _) =>
      t < |c.threads| && c.threads[t].Submitting? && c.threads[t].call.queue == q && c.threads[t].wait
      && (status != CL_SUCCESS || !c.symbols.wait || !c.symbols.release)
    case Wait(t, status, _, _) =>
      t < |c.threads| && c.threads[t].Waiting? && c.threads[t].call.queue == q && status != CL_SUCCESS
    case _ => false
  }

  /** This step is a successful boundary wait on the queue. */
  predicate Succeeds(c: Core, l: Label, q: Queue) {
    l.Wait? && l.status == CL_SUCCESS
    && l.thread < |c.threads| && c.threads[l.thread].Waiting? && c.threads[l.thread].call.queue == q
  }

  /** All missed boundaries of a run. */
  function AllMisses(s: E.State, ls: seq<Label>, q: Queue): nat {
    if ls == [] then 0
    else
      var before := E.Run(s, ls[..|ls| - 1]);
      AllMisses(s, ls[..|ls| - 1], q)
      + if before.Some? && Misses(before.value.core, ls[|ls| - 1], q) then 1 else 0
  }

  /** Boundaries missed in a row at the end of a run. */
  function MissesInARow(s: E.State, ls: seq<Label>, q: Queue): nat {
    if ls == [] then 0
    else
      var before, l := E.Run(s, ls[..|ls| - 1]), ls[|ls| - 1];
      var row := MissesInARow(s, ls[..|ls| - 1], q);
      if before.Some? && Succeeds(before.value.core, l, q) then 0
      else if before.Some? && Misses(before.value.core, l, q) then row + 1
      else row
  }

  /** The table decides this queue's waits as if it kept true counts. */
  predicate CountsExactly(s: E.State, q: Queue) {
    s.window == 1 || Tracked(s.ticked, q)
  }

  // ---------------------------------------------------------------- simulation

  /** The event stands for the command at this position of the queue. */
  predicate Stands(d: Device, event: Event, q: Queue, position: nat) {
    0 < event <= |d.events| && d.events[event - 1].queue == q && d.events[event - 1].position == position
  }

  /** The thread is inside a counted submission to the queue, or waiting for one. */
  predicate Holding(pc: Pc, q: Queue) {
    ((pc.Submitting? && pc.counted) || pc.Waiting?) && pc.call.queue == q
  }

  ghost predicate ThreadMatches(c: Core, q: Queue, w: W.Window, t: Thread)
    requires t < |c.threads|
  {
    var pc := c.threads[t];
    (pc.Submitting? && pc.wait ==> pc.counted) &&
    if !Holding(pc, q) then t !in w.holders
    else if pc.Submitting? then
      t in w.holders && w.holders[t].Pending? && (pc.wait <==> w.holders[t].ticket in w.boundaries)
    else
      t in w.holders && w.holders[t].Held?
      && (pc.event != 0 ==> Stands(c.device, pc.event, q, w.holders[t].pos))
  }

  ghost predicate LineMatches(line: Line, from: nat, w: W.Window) {
    && |w.line| == |line.counted| && w.done == line.done && from <= |w.line|
    && (forall p | 0 <= p < |w.line| :: w.line[p] != 0 <==> from <= p && line.counted[p])
  }

  ghost predicate CoreMatches(c: Core, q: Queue, from: nat, w: W.Window) {
    && w.threads == |c.threads|
    && LineMatches(LineOf(c.device, q), from, w)
    && (forall t | 0 <= t < |c.threads| :: ThreadMatches(c, q, w, t))
  }

  ghost predicate Matches(s: E.State, q: Queue, from: nat, w: W.Window) {
    && w.size == s.window > 0
    && (s.window == 1 || w.ticks - W.Base(w) == Dispatches(s.ticked, q))
    && CoreMatches(s.core, q, from, w)
  }

  // ---------------------------------------------------------------- what one step changes

  /** Only thread t moved, and no event changed the command it stands for. */
  ghost predicate OnlyMoved(c: Core, c': Core, t: Thread) {
    && |c'.threads| == |c.threads|
    && (forall u | 0 <= u < |c.threads| && u != t :: c'.threads[u] == c.threads[u])
    && |c.device.events| <= |c'.device.events|
    && (forall e | 0 <= e < |c.device.events| ::
          && c'.device.events[e].queue == c.device.events[e].queue
          && c'.device.events[e].position == c.device.events[e].position)
  }

  /** No other thread's ticket changed hands. */
  ghost predicate OnlyHeldBy(w: W.Window, w': W.Window, t: Thread) {
    && w'.threads == w.threads
    && (forall u | u != t ::
          (u in w'.holders <==> u in w.holders) && (u in w.holders ==> w'.holders[u] == w.holders[u]))
    && (forall b | 0 <= b <= w.ticks :: b in w'.boundaries <==> b in w.boundaries)
  }

  lemma Rejoin(c: Core, c': Core, q: Queue, from: nat, w: W.Window, w': W.Window, t: Thread)
    requires CoreMatches(c, q, from, w) && W.InRange(w)
    requires OnlyMoved(c, c', t) && OnlyHeldBy(w, w', t)
    requires LineMatches(LineOf(c'.device, q), from, w')
    requires t < |c.threads| ==> ThreadMatches(c', q, w', t)
    ensures CoreMatches(c', q, from, w')
  {
    forall u | 0 <= u < |c'.threads| ensures ThreadMatches(c', q, w', u) {
      if u != t { assert ThreadMatches(c, q, w, u); }
    }
  }

  lemma EnqueueEffect(c: Core, t: Thread, status: int, returned: bool)
    requires EnqueueStep(c, t, status, returned).Some?
    ensures var c' := EnqueueStep(c, t, status, returned).value;
            var pc := c.threads[t]; var line := LineOf(c.device, pc.call.queue);
            && OnlyMoved(c, c', t)
            && (forall q :: LineOf(c'.device, q) ==
                  if status == CL_SUCCESS && q == pc.call.queue
                  then Line(line.counted + [pc.counted], line.done) else LineOf(c.device, q))
            && if status == CL_SUCCESS && pc.wait && c.symbols.wait && c.symbols.release
               then c'.threads[t].Waiting? && c'.threads[t].call == pc.call
                    && (c'.threads[t].event != 0 ==>
                          Stands(c'.device, c'.threads[t].event, pc.call.queue, |line.counted|))
               else c'.threads[t] == Idle
  {
  }

  lemma WaitEffect(c: Core, t: Thread, status: int, started: nat, ended: nat)
    requires WaitStep(c, t, status, started, ended).Some?
    ensures var c' := WaitStep(c, t, status, started, ended).value;
            && OnlyMoved(c, c', t) && c'.device.lines == c.device.lines
            && (c'.threads[t].Idle? || c'.threads[t].Recording? || c'.threads[t].Releasing?)
            && (status == CL_SUCCESS ==> EventComplete(c.device, c.threads[t].event))
  {
  }

  /** The step is a counting, an enqueue, a wait or a completion on this queue. */
  predicate Touches(c: Core, l: Label, q: Queue) {
    match l
    case Tick(t) => t < |c.threads| && c.threads[t].Ticking? && c.threads[t].call.queue == q
    case Enqueue(t, _, _) => t < |c.threads| && c.threads[t].Submitting? && c.threads[t].call.queue == q
    case Wait(t, _, _, _) => t < |c.threads| && c.threads[t].Waiting? && c.threads[t].call.queue == q
    case Complete(x) => x == q
    case _ => false
  }

  /** What a step that does not touch the queue leaves alone. */
  ghost predicate Untouched(c: Core, c': Core, t: Thread, q: Queue) {
    && OnlyMoved(c, c', t) && LineOf(c'.device, q) == LineOf(c.device, q)
    && (t < |c.threads| ==>
          !Holding(c.threads[t], q) && !Holding(c'.threads[t], q)
          && (c'.threads[t].Submitting? && c'.threads[t].wait ==> c'.threads[t].counted))
  }

  lemma CommonUntouched(c: Core, l: Label, q: Queue)
    requires CommonStep(c, l).Some? && !Touches(c, l, q)
    ensures Untouched(c, CommonStep(c, l).value, if l.Exchange? || l.Complete? then |c.threads| else l.thread, q)
  {
    match l
    case Enqueue(t, status, returned) => EnqueueEffect(c, t, status, returned);
    case Wait(t, status, started, ended) => WaitEffect(c, t, status, started, ended);
    case Record(t, spurious) => RecordUntouched(c, t, spurious, q);
    case _ =>
  }

  lemma RecordUntouched(c: Core, t: Thread, spurious: bool, q: Queue)
    requires RecordStep(c, t, spurious).Some?
    ensures Untouched(c, RecordStep(c, t, spurious).value, t, q)
  {
  }

  lemma OtherEffect(s: E.State, l: Label, q: Queue)
    requires E.Step(s, l).Some? && !Touches(s.core, l, q)
    ensures Untouched(s.core, E.Step(s, l).value.core,
                      if l.Exchange? || l.Complete? then |s.core.threads| else l.thread, q)
  {
    if CommonStep(s.core, l).Some? { CommonUntouched(s.core, l, q); }
  }

  /** How one step of the shim moves the tickets of the window beside it. */
  ghost predicate Follows(c: Core, l: Label, q: Queue, w: W.Window, w': W.Window) {
    && (Misses(c, l, q) || Succeeds(c, l, q) ==> l.thread in w.holders)
    && w'.ticks == (if l.Tick? && Touches(c, l, q) then w.ticks + 1 else w.ticks)
    && w'.restarts == (if l.Clear? then w.restarts + [w.ticks] else w.restarts)
    && w'.best == (if Succeeds(c, l, q) && w.holders[l.thread].ticket > w.best then w.holders[l.thread].ticket else w.best)
    && w'.missed == (if Misses(c, l, q) then w.missed + {w.holders[l.thread].ticket} else w.missed)
    && (Succeeds(c, l, q) ==> w.holders[l.thread].Held? && w.holders[l.thread].pos < w.done)
    && (forall u | u in w'.holders :: HolderFollows(c, l, q, w, w', u))
    && (w'.line == w.line || LineFollows(c, l, q, w, w')) && w'.done >= w.done
  }

  /** The line grows by an accepted command: an uncounted one or the thread's ticket. */
  ghost predicate LineFollows(c: Core, l: Label, q: Queue, w: W.Window, w': W.Window) {
    && l.Enqueue? && Touches(c, l, q) && l.status == CL_SUCCESS
    && (w'.line == w.line + [0]
        || (l.thread in w.holders && w'.line == w.line + [w.holders[l.thread].ticket]))
  }

  ghost predicate HolderFollows(c: Core, l: Label, q: Queue, w: W.Window, w': W.Window, u: Thread)
    requires u in w'.holders
  {
    if l.Tick? && Touches(c, l, q) && u == l.thread then w'.holders[u] == W.Pending(w.ticks + 1)
    else
      && u in w.holders && w'.holders[u].ticket == w.holders[u].ticket
      && (w.holders[u].Held? ==> w'.holders[u] == w.holders[u])
      && (w.holders[u].Pending? && w'.holders[u].Held? ==>
            && l.Enqueue? && Touches(c, l, q) && u == l.thread && w'.holders[u].pos == |w.line|
            && c.threads[u].wait && !Misses(c, l, q))
  }

  // ---------------------------------------------------------------- simulation of each step

  lemma TickFollows(c: Core, t: Thread, q: Queue, w: W.Window)
    requires Touches(c, Tick(t), q) && w.size > 0 && W.Enabled(w, W.Tick(t))
    ensures Follows(c, Tick(t), q, w, W.Apply(w, W.Tick(t)))
  {
  }

  lemma CompleteFollows(c: Core, q: Queue, w: W.Window)
    requires w.size > 0 && W.Enabled(w, W.Complete)
    ensures Follows(c, Complete(q), q, w, W.Apply(w, W.Complete))
  {
  }

  lemma OtherFollows(c: Core, l: Label, q: Queue, w: W.Window)
    requires !Touches(c, l, q) && !l.Clear?
    ensures Follows(c, l, q, w, w)
  {
  }

  lemma ClearFollows(c: Core, t: Thread, q: Queue, w: W.Window)
    requires w.size > 0
    ensures Follows(c, Clear(t), q, w, W.Apply(w, W.Restart))
  {
  }

  /** The next ticket is a boundary when it completes a window since counting last started. */
  lemma Ticked(w: W.Window, t: Thread) returns (w': W.Window)
    requires W.Inv(w) && W.Enabled(w, W.Tick(t))
    ensures w' == W.Apply(w, W.Tick(t)) && W.Inv(w') && OnlyHeldBy(w, w', t)
    ensures w'.line == w.line && w'.done == w.done && w'.size == w.size && w'.ticks == w.ticks + 1
    ensures W.Base(w') == W.Base(w) && t in w'.holders && w'.holders[t] == W.Pending(w.ticks + 1)
    ensures w.ticks + 1 in w'.boundaries <==> (w.ticks + 1 - W.Base(w)) % w.size == 0
    ensures w.size == 1 ==> w.ticks + 1 in w'.boundaries
  {
    hide W.Accounted, W.Ordered, W.Newest, W.Placed, W.DistinctHolders, W.DistinctLine, W.Spaced;
    w' := W.Apply(w, W.Tick(t));
    W.ApplyKeepsInv(w, W.Tick(t));
  }

  lemma TickMatches(s: E.State, t: Thread, q: Queue, from: nat, w: W.Window) returns (w': W.Window)
    requires Matches(s, q, from, w) && W.Inv(w) && E.Coherent(s) && E.Step(s, Tick(t)).Some?
    requires CountsExactly(E.Step(s, Tick(t)).value, q)
    requires s.core.threads[t].call.queue == q
    ensures Matches(E.Step(s, Tick(t)).value, q, from, w') && W.Inv(w')
    ensures Follows(s.core, Tick(t), q, w, w')
  {
    hide W.Inv, W.Apply, W.Base, Dispatches, FirstSeen, Follows;
    var s' := E.Step(s, Tick(t)).value;
    assert ThreadMatches(s.core, q, w, t);
    w' := Ticked(w, t);
    TickFollows(s.core, t, q, w);
    InvInRange(w);
    OneMore(s.ticked, q);
    if s.window != 1 { TrackedCountIsExact(s.ticked, q); }
    assert ThreadMatches(s'.core, q, w', t);
    Rejoin(s.core, s'.core, q, from, w, w', t);
  }

  lemma Submitted(w: W.Window, t: Thread, line: Line, from: nat) returns (w': W.Window)
    requires W.Inv(w) && W.Enabled(w, W.Submit(t)) && LineMatches(line, from, w)
    ensures W.Inv(w') && OnlyHeldBy(w, w', t) && LineMatches(Line(line.counted + [true], line.done), from, w')
    ensures w'.(line := w.line, holders := w.holders) == w && w'.line == w.line + [w.holders[t].ticket]
    ensures if w.holders[t].ticket in w.boundaries
            then t in w'.holders && w'.holders[t].Held? && w'.holders[t].pos == |line.counted|
                 && w'.holders[t].ticket == w.holders[t].ticket
            else t !in w'.holders
  {
    w' := W.Apply(w, W.Submit(t));
    W.ApplyKeepsInv(w, W.Submit(t));
  }

  lemma Dropped(w: W.Window, t: Thread) returns (w': W.Window)
    requires W.Inv(w) && W.Enabled(w, W.Drop(t))
    ensures W.Inv(w') && OnlyHeldBy(w, w', t) && t !in w'.holders
    ensures w'.(missed := w.missed, holders := w.holders) == w
    ensures w'.missed == if w.holders[t].ticket in w.boundaries then w.missed + {w.holders[t].ticket} else w.missed
  {
    w' := W.Apply(w, W.Drop(t));
    W.ApplyKeepsInv(w, W.Drop(t));
  }

  lemma Queued(w: W.Window, t: Thread, line: Line, from: nat) returns (w': W.Window)
    requires W.Inv(w) && LineMatches(line, from, w)
    ensures W.Inv(w') && OnlyHeldBy(w, w', t) && LineMatches(Line(line.counted + [false], line.done), from, w')
    ensures w'.(line := w.line) == w && w'.line == w.line + [0]
  {
    w' := W.Apply(w, W.Foreign);
    W.ApplyKeepsInv(w, W.Foreign);
  }

  /** What enqueuing a command of this queue does to the window: it is uncounted, rejected, or counted and
      then held as a boundary, abandoned as a missed one, or let go. */
  ghost predicate Enqueued(w: W.Window, w': W.Window, t: Thread, counted: bool, ok: bool, missed: bool) {
    && (counted ==> t in w.holders && w.holders[t].Pending?)
    && OnlyHeldBy(w, w', t) && w'.best == w.best && w'.size == w.size && w'.ticks == w.ticks && w'.done == w.done
    && w'.restarts == w.restarts
    && w'.line == (if ok then w.line + [if counted then w.holders[t].ticket else 0] else w.line)
    && (if counted && ok && !missed && w.holders[t].ticket in w.boundaries
        then t in w'.holders && w'.holders[t].Held? && w'.holders[t].pos == |w.line|
             && w'.holders[t].ticket == w.holders[t].ticket
        else t !in w'.holders)
    && w'.missed == if counted && w.holders[t].ticket in w.boundaries && (missed || !ok)
                    then w.missed + {w.holders[t].ticket} else w.missed
  }

  lemma AfterEnqueue(w: W.Window, t: Thread, counted: bool, ok: bool, missed: bool, line: Line, from: nat)
    returns (w': W.Window)
    requires W.Inv(w) && (counted ==> t in w.holders && w.holders[t].Pending?) && (!counted ==> t !in w.holders)
    requires missed ==> counted && w.holders[t].ticket in w.boundaries
    requires LineMatches(line, from, w)
    ensures W.Inv(w') && Enqueued(w, w', t, counted, ok, missed)
    ensures LineMatches(if ok then Line(line.counted + [counted], line.done) else line, from, w')
  {
    hide W.Inv;
    if counted && ok {
      w' := Submitted(w, t, line, from);
      if missed { w' := Dropped(w', t); }
    } else if counted {
      w' := Dropped(w, t);
    } else if ok {
      w' := Queued(w, t, line, from);
    } else {
      w' := w;
    }
  }

  lemma EnqueueFollows(c: Core, t: Thread, status: int, returned: bool, q: Queue, w: W.Window, w': W.Window)
    requires Touches(c, Enqueue(t, status, returned), q) && ThreadMatches(c, q, w, t)
    requires Enqueued(w, w', t, c.threads[t].counted, status == CL_SUCCESS, Misses(c, Enqueue(t, status, returned), q))
    ensures Follows(c, Enqueue(t, status, returned), q, w, w')
  {
  }

  lemma EnqueueMatches(s: E.State, t: Thread, status: int, returned: bool, q: Queue, from: nat, w: W.Window)
    returns (w': W.Window)
    requires Matches(s, q, from, w) && W.Inv(w) && E.Step(s, Enqueue(t, status, returned)).Some?
    requires s.core.threads[t].call.queue == q
    ensures Matches(E.Step(s, Enqueue(t, status, returned)).value, q, from, w') && W.Inv(w')
    ensures Follows(s.core, Enqueue(t, status, returned), q, w, w')
  {
    hide W.Inv, CoreMatches, Follows;
    w' := EnqueueKeepsMatch(s.core, t, status, returned, q, from, w,
                            E.Step(s, Enqueue(t, status, returned)).value.core);
  }

  lemma InvInRange(w: W.Window)
    requires W.Inv(w)
    ensures W.InRange(w)
  {
  }

  lemma EnqueueKeepsMatch(
    c: Core, t: Thread, status: int, returned: bool, q: Queue, from: nat, w: W.Window, c': Core)
    returns (w': W.Window)
    requires CoreMatches(c, q, from, w) && W.Inv(w) && EnqueueStep(c, t, status, returned) == Some(c')
    requires c.threads[t].call.queue == q
    ensures CoreMatches(c', q, from, w') && W.Inv(w')
    ensures w'.size == w.size && w'.ticks == w.ticks && w'.restarts == w.restarts
    ensures Follows(c, Enqueue(t, status, returned), q, w, w')
  {
    hide W.Inv, Follows;
    var pc := c.threads[t];
    assert ThreadMatches(c, q, w, t);
    var missed := Misses(c, Enqueue(t, status, returned), q);
    w' := AfterEnqueue(w, t, pc.counted, status == CL_SUCCESS, missed, LineOf(c.device, q), from);
    EnqueueFollows(c, t, status, returned, q, w, w');
    InvInRange(w);
    EnqueueEffect(c, t, status, returned);
    Rejoin(c, c', q, from, w, w', t);
  }

  /** The window after a wait on this queue returned. */
  lemma AfterWait(w: W.Window, t: Thread, ok: bool) returns (w': W.Window)
    requires W.Inv(w) && t in w.holders && w.holders[t].Held? && (ok ==> w.holders[t].pos < w.done)
    ensures W.Inv(w') && OnlyHeldBy(w, w', t) && t !in w'.holders
    ensures w'.line == w.line && w'.done == w.done && w'.size == w.size && w'.ticks == w.ticks
    ensures w'.restarts == w.restarts
    ensures if ok then w'.missed == w.missed
                       && w'.best == if w.holders[t].ticket > w.best then w.holders[t].ticket else w.best
            else w'.missed == w.missed + {w.holders[t].ticket} && w'.best == w.best
    ensures ok && w.threads == 1 ==> W.MissedSince(w') == {} && W.Unfinished(w') == {}
  {
    var op := if ok then W.Waited(t) else W.Drop(t);
    w' := W.Apply(w, op);
    W.ApplyKeepsInv(w, op);
    if ok && w.threads == 1 { W.NothingUnfinishedAfterWait(w, t); }
  }

  lemma WaitMatches(s: E.State, l: Label, q: Queue, from: nat, w: W.Window) returns (w': W.Window)
    requires l.Wait? && Matches(s, q, from, w) && W.Inv(w) && E.Step(s, l).Some?
    requires s.core.threads[l.thread].call.queue == q
    ensures Matches(E.Step(s, l).value, q, from, w') && W.Inv(w')
    ensures Follows(s.core, l, q, w, w')
    ensures !Misses(s.core, l, q) && w.threads == 1 ==> W.MissedSince(w') == {} && W.Unfinished(w') == {}
  {
    hide W.Inv, CoreMatches, Follows;
    w' := WaitKeepsMatch(s.core, l.thread, l.status, l.started, l.ended, q, from, w, E.Step(s, l).value.core);
  }

  lemma WaitKeepsMatch(
    c: Core, t: Thread, status: int, started: nat, ended: nat, q: Queue, from: nat, w: W.Window, c': Core)
    returns (w': W.Window)
    requires CoreMatches(c, q, from, w) && W.Inv(w) && WaitStep(c, t, status, started, ended) == Some(c')
    requires c.threads[t].call.queue == q
    ensures CoreMatches(c', q, from, w') && W.Inv(w')
    ensures w'.size == w.size && w'.ticks == w.ticks && w'.restarts == w.restarts
    ensures Follows(c, Wait(t, status, started, ended), q, w, w')
    ensures status == CL_SUCCESS && w.threads == 1 ==> W.MissedSince(w') == {} && W.Unfinished(w') == {}
  {
    hide W.Accounted, W.Ordered, W.Newest, W.BoundariesAreDue, W.Placed, W.DistinctHolders, W.DistinctLine;
    assert ThreadMatches(c, q, w, t);
    WaitEffect(c, t, status, started, ended);
    w' := AfterWait(w, t, status == CL_SUCCESS);
    Rejoin(c, c', q, from, w, w', t);
  }

  lemma CompleteMatches(s: E.State, q: Queue, from: nat, w: W.Window) returns (w': W.Window)
    requires Matches(s, q, from, w) && W.Inv(w) && E.Step(s, Complete(q)).Some?
    ensures Matches(E.Step(s, Complete(q)).value, q, from, w') && W.Inv(w')
    ensures Follows(s.core, Complete(q), q, w, w')
  {
    hide W.Accounted, W.Ordered, W.Newest, W.Placed, W.DistinctHolders, W.DistinctLine, Follows;
    w' := W.Apply(w, W.Complete);
    W.ApplyKeepsInv(w, W.Complete);
    CompleteFollows(s.core, q, w);
    Rejoin(s.core, E.Step(s, Complete(q)).value.core, q, from, w, w', |s.core.threads|);
  }

  /** A step that is none of the queue's own leaves the window as it is. */
  lemma OtherStepMatches(s: E.State, l: Label, q: Queue, from: nat, w: W.Window)
    requires Matches(s, q, from, w) && W.Inv(w) && E.Step(s, l).Some?
    requires !Touches(s.core, l, q) && !l.Clear?
    ensures Matches(E.Step(s, l).value, q, from, w)
  {
    var s' := E.Step(s, l).value;
    var t := if l.Exchange? || l.Complete? then |s.core.threads| else l.thread;
    if l.Tick? { OneMore(s.ticked, s.core.threads[t].call.queue); }
    OtherEffect(s, l, q);
    if t < |s.core.threads| { assert ThreadMatches(s.core, q, w, t); }
    Rejoin(s.core, s'.core, q, from, w, w, t);
  }

  /** Clearing the table starts the count over, whatever the threads are doing. */
  lemma ClearMatches(s: E.State, t: Thread, q: Queue, from: nat, w: W.Window) returns (w': W.Window)
    requires Matches(s, q, from, w) && W.Inv(w) && E.Step(s, Clear(t)).Some?
    ensures Matches(E.Step(s, Clear(t)).value, q, from, w') && W.Inv(w')
    ensures Follows(s.core, Clear(t), q, w, w')
  {
    hide W.Accounted, W.Ordered, W.Newest, W.Placed, W.DistinctHolders, W.DistinctLine, W.Spaced, Follows;
    w' := W.Apply(w, W.Restart);
    W.ApplyKeepsInv(w, W.Restart);
    ClearFollows(s.core, t, q, w);
    assert ThreadMatches(s.core, q, w, t);
    Rejoin(s.core, E.Step(s, Clear(t)).value.core, q, from, w, w', t);
  }

  // ---------------------------------------------------------------- tickets of a run

  /** The tickets of a run: how many dispatches of the queue were counted, the ticket each thread took
      last, the highest one waited for successfully, those whose boundary was missed, and the tickets after
      which the table was cleared. */
  datatype Ledger = Ledger(ticks: nat, held: map<Thread, nat>, best: nat, missed: set<nat>, clears: seq<nat>)

  function Note(c: Core, l: Label, q: Queue, ledger: Ledger): Ledger {
    if l.Tick? && Touches(c, l, q) then
      ledger.(ticks := ledger.ticks + 1, held := ledger.held[l.thread := ledger.ticks + 1])
    else if Misses(c, l, q) && l.thread in ledger.held then
      ledger.(missed := ledger.missed + {ledger.held[l.thread]})
    else if Succeeds(c, l, q) && l.thread in ledger.held && ledger.held[l.thread] > ledger.best then
      ledger.(best := ledger.held[l.thread])
    else if l.Clear? then ledger.(clears := ledger.clears + [ledger.ticks])
    else ledger
  }

  function LedgerOf(s: E.State, ls: seq<Label>, q: Queue): Ledger {
    if ls == [] then Ledger(0, map[], 0, {}, [])
    else
      var before := LedgerOf(s, ls[..|ls| - 1], q);
      match E.Run(s, ls[..|ls| - 1])
      case Some(m) => Note(m.core, ls[|ls| - 1], q, before)
      case None => before
  }

  /** The misses that no successful wait has made harmless: their tickets are above every one waited for. */
  function RecentMisses(ledger: Ledger): set<nat> {
    set m | m in ledger.missed && m > ledger.best
  }

  /** How often the table was cleared since. */
  function RecentClears(ledger: Ledger): nat {
    W.Since(ledger.clears, ledger.best)
  }

  /** The window beside the run hands out the same tickets. */
  ghost predicate Agrees(w: W.Window, ledger: Ledger) {
    && w.ticks == ledger.ticks && w.best == ledger.best && w.missed == ledger.missed
    && w.restarts == ledger.clears
    && forall u | u in w.holders :: u in ledger.held && ledger.held[u] == w.holders[u].ticket
  }

  lemma NoteAgrees(c: Core, l: Label, q: Queue, w: W.Window, w': W.Window, ledger: Ledger)
    requires Agrees(w, ledger) && Follows(c, l, q, w, w')
    ensures Agrees(w', Note(c, l, q, ledger))
  {
    hide Touches, Misses, Succeeds;
    assert l.Tick? ==> !Misses(c, l, q) && !Succeeds(c, l, q) by { NeverBoth(c, l, q); }
    NeverBoth(c, l, q);
    forall u | u in w'.holders ensures HolderFollows(c, l, q, w, w', u) {}
  }

  lemma NeverBoth(c: Core, l: Label, q: Queue)
    ensures !(Misses(c, l, q) && Succeeds(c, l, q))
    ensures l.Tick? || l.Clear? ==> !Misses(c, l, q) && !Succeeds(c, l, q)
  {
  }

  lemma {:induction false} FewMisses(s: E.State, ls: seq<Label>, q: Queue)
    ensures |LedgerOf(s, ls, q).missed| <= AllMisses(s, ls, q)
    ensures |RecentMisses(LedgerOf(s, ls, q))| <= AllMisses(s, ls, q)
  {
    hide Misses, Succeeds, Touches;
    if ls != [] { FewMisses(s, ls[..|ls| - 1], q); }
    SubsetIsSmaller(RecentMisses(LedgerOf(s, ls, q)), LedgerOf(s, ls, q).missed);
  }

  /** The places of a run on a queue's line: where each thread's boundary stands, the boundaries nobody
      will wait for any more, and one past the last one waited for successfully. */
  datatype Places = Places(at: map<Thread, nat>, abandoned: set<nat>, reached: nat)

  function Mark(c: Core, l: Label, q: Queue, places: Places): Places {
    if !Touches(c, l, q) then places
    else
      match l
      case Enqueue(t, status, _) =>
        var position := |LineOf(c.device, q).counted|;
        if status != CL_SUCCESS || !c.threads[t].wait then places
        else if c.symbols.wait && c.symbols.release then places.(at := places.at[t := position])
        else places.(abandoned := places.abandoned + {position})
      case Wait(t, status, _, _) =>
        if t !in places.at then places
        else if status != CL_SUCCESS then places.(abandoned := places.abandoned + {places.at[t]})
        else if places.at[t] >= places.reached then places.(reached := places.at[t] + 1)
        else places
      case _ => places
  }

  function PlacesOf(s: E.State, ls: seq<Label>, q: Queue): Places {
    if ls == [] then Places(map[], {}, 0)
    else
      var before := PlacesOf(s, ls[..|ls| - 1], q);
      match E.Run(s, ls[..|ls| - 1])
      case Some(m) => Mark(m.core, ls[|ls| - 1], q, before)
      case None => before
  }

  /** The abandoned boundaries that no successful wait on a later command has shown to be finished. */
  function Unsettled(places: Places): set<nat> {
    set p | p in places.abandoned && p >= places.reached
  }

  /** The window beside the run has its commands at these places. */
  ghost predicate Located(w: W.Window, places: Places) {
    && (forall u | u in w.holders && w.holders[u].Held? :: u in places.at && places.at[u] == w.holders[u].pos)
    && (forall p | 0 <= p < |w.line| && w.line[p] in w.missed :: p in places.abandoned)
    && places.reached <= w.done
  }


  lemma MarkLocates(c: Core, l: Label, q: Queue, from: nat, w: W.Window, w': W.Window, places: Places)
    requires Located(w, places) && Follows(c, l, q, w, w') && CoreMatches(c, q, from, w)
    requires W.Placed(w) && W.MissesLetGo(w) && 0 !in w.missed
    ensures Located(w', Mark(c, l, q, places))
  {
    if Touches(c, l, q) && !l.Complete? { assert ThreadMatches(c, q, w, l.thread); }
    forall u | u in w'.holders && w'.holders[u].Held?
      ensures u in Mark(c, l, q, places).at && Mark(c, l, q, places).at[u] == w'.holders[u].pos
    {
      assert HolderFollows(c, l, q, w, w', u);
    }
    forall p | 0 <= p < |w'.line| && w'.line[p] in w'.missed ensures p in Mark(c, l, q, places).abandoned {
      if p < |w.line| { assert w'.line[p] == w.line[p]; }
    }
  }

  // ---------------------------------------------------------------- whole runs

  /** Threads idle, table clear: counting starts here. */
  ghost predicate Start(s: E.State, q: Queue) {
    && s.window > 0 && AllIdle(s.core.threads) && s.table == Cleared() && s.ticked == []
    && LineOf(s.core.device, q).done <= |LineOf(s.core.device, q).counted|
  }

  /** The end of the queue's line when counting starts. */
  function Backlog(s: E.State, q: Queue): nat {
    |LineOf(s.core.device, q).counted|
  }

  predicate NeverClears(ls: seq<Label>) {
    forall l | l in ls :: !l.Clear?
  }

  lemma StepMatches(s: E.State, l: Label, s': E.State, q: Queue, from: nat, w: W.Window) returns (w': W.Window)
    requires Matches(s, q, from, w) && W.Inv(w) && E.Coherent(s) && E.Step(s, l) == Some(s')
    requires CountsExactly(s', q)
    ensures Matches(s', q, from, w') && W.Inv(w') && E.Coherent(s') && w'.threads == w.threads
    ensures Follows(s.core, l, q, w, w')
    ensures Succeeds(s.core, l, q) && w.threads == 1 ==> W.MissedSince(w') == {} && W.Unfinished(w') == {}
  {
    hide W.Inv, LineMatches, ThreadMatches, E.Coherent, Follows;
    if l.Clear? {
      w' := ClearMatches(s, l.thread, q, from, w);
    } else if !Touches(s.core, l, q) {
      OtherStepMatches(s, l, q, from, w);
      OtherFollows(s.core, l, q, w);
      w' := w;
    } else if l.Tick? {
      w' := TickMatches(s, l.thread, q, from, w);
    } else if l.Enqueue? {
      w' := EnqueueMatches(s, l.thread, l.status, l.returned, q, from, w);
    } else if l.Wait? {
      w' := WaitMatches(s, l, q, from, w);
    } else {
      w' := CompleteMatches(s, q, from, w);
    }
    E.StepKeepsCoherent(s, l);
    StepKeepsShape(s, l);
  }

  lemma MissesAreSteps(c: Core, l: Label, q: Queue)
    ensures Misses(c, l, q) ==> l.Enqueue? || l.Wait?
    ensures Succeeds(c, l, q) ==> l.Wait?
  {
  }

  /** A step adds at most the boundary it misses. */
  lemma MissesFollow(c: Core, l: Label, q: Queue, w: W.Window, w': W.Window)
    requires Follows(c, l, q, w, w')
    ensures |W.MissedSince(w')| <= |W.MissedSince(w)| + if Misses(c, l, q) then 1 else 0
  {
    MissesAreSteps(c, l, q);
    hide Misses, Succeeds, Touches, HolderFollows, LineFollows;
    var extra := if Misses(c, l, q) then {w.holders[l.thread].ticket} else {};
    SubsetIsSmaller(W.MissedSince(w'), W.MissedSince(w) + extra);
  }

  lemma StepKeepsShape(s: E.State, l: Label)
    requires E.Step(s, l).Some?
    ensures |E.Step(s, l).value.core.threads| == |s.core.threads| && E.Step(s, l).value.window == s.window
  {
  }

  /** At every moment of the run the table decides this queue's waits as if it kept true counts. */
  ghost predicate CountsThroughout(s: E.State, ls: seq<Label>, q: Queue) {
    && E.Run(s, ls).Some? && CountsExactly(E.Run(s, ls).value, q)
    && (ls == [] || CountsThroughout(s, ls[..|ls| - 1], q))
  }

  /** Every run has a run of the abstract window beside it. */
  lemma {:induction false} RunMatches(s: E.State, ls: seq<Label>, q: Queue) returns (w: W.Window)
    requires Start(s, q) && CountsThroughout(s, ls, q)
    ensures Matches(E.Run(s, ls).value, q, Backlog(s, q), w) && W.Inv(w)
    ensures E.Coherent(E.Run(s, ls).value) && E.Run(s, ls).value.window == s.window
    ensures Located(w, PlacesOf(s, ls, q))
    ensures Agrees(w, LedgerOf(s, ls, q)) && w.threads == |s.core.threads|
    ensures |s.core.threads| == 1 ==> |W.MissedSince(w)| <= MissesInARow(s, ls, q)
  {
    if ls == [] {
      w := StartMatches(s, q);
    } else {
      var before, l := ls[..|ls| - 1], ls[|ls| - 1];
      RunKeepsWindow(s, ls);
      StepFacts(s, ls, q);
      var v := RunMatches(s, before, q);
      w := StepMatches(E.Run(s, before).value, l, E.Run(s, ls).value, q, Backlog(s, q), v);
      MissesFollow(E.Run(s, before).value.core, l, q, v, w);
      NoteAgrees(E.Run(s, before).value.core, l, q, v, w, LedgerOf(s, before, q));
      MarkLocates(E.Run(s, before).value.core, l, q, Backlog(s, q), v, w, PlacesOf(s, before, q));
    }
  }

  lemma StartMatches(s: E.State, q: Queue) returns (w: W.Window)
    requires Start(s, q)
    ensures Matches(s, q, Backlog(s, q), w) && W.Inv(w) && E.Coherent(s)
    ensures w.missed == {} && W.MissedSince(w) == {} && w.threads == |s.core.threads|
    ensures w.holders == map[] && w.ticks == w.best == 0 && w.restarts == []
  {
    hide W.Inv;
    var line := LineOf(s.core.device, q);
    W.FreshInv(s.window, |s.core.threads|, |line.counted|, line.done);
    w := W.Fresh(s.window, |s.core.threads|, |line.counted|, line.done);
  }

  /** The last step of a run and how it counts. */
  lemma StepFacts(s: E.State, ls: seq<Label>, q: Queue)
    requires ls != [] && CountsThroughout(s, ls, q)
    ensures var before, l := ls[..|ls| - 1], ls[|ls| - 1];
            && CountsThroughout(s, before, q) && E.Step(E.Run(s, before).value, l) == E.Run(s, ls)
            && CountsExactly(E.Run(s, ls).value, q)
            && AllMisses(s, ls, q) == AllMisses(s, before, q)
                 + (if Misses(E.Run(s, before).value.core, l, q) then 1 else 0)
            && MissesInARow(s, ls, q) ==
                 if Succeeds(E.Run(s, before).value.core, l, q) then 0
                 else MissesInARow(s, before, q) + if Misses(E.Run(s, before).value.core, l, q) then 1 else 0
  {
  }

  lemma {:induction false} RunKeepsWindow(s: E.State, ls: seq<Label>)
    requires E.Run(s, ls).Some?
    ensures E.Run(s, ls).value.window == s.window
  {
    if ls != [] {
      RunKeepsWindow(s, ls[..|ls| - 1]);
      StepKeepsShape(E.Run(s, ls[..|ls| - 1]).value, ls[|ls| - 1]);
    }
  }

  lemma CountedBefore(s: E.State, l: Label, q: Queue)
    requires E.Step(s, l).Some? && CountsExactly(E.Step(s, l).value, q) && (l.Clear? ==> s.window == 1)
    ensures CountsExactly(s, q) && E.Step(s, l).value.window == s.window
  {
    StepKeepsShape(s, l);
    if l.Tick? && s.window != 1 { TrackedBefore(s.ticked, s.core.threads[l.thread].call.queue, q); }
  }

  /** Unless the table is cleared, a queue tracked at the end was tracked all along; with window 1 every
      queue is. */
  lemma {:induction false} CountedAllAlong(s: E.State, ls: seq<Label>, q: Queue)
    requires E.Run(s, ls).Some? && CountsExactly(E.Run(s, ls).value, q) && (s.window == 1 || NeverClears(ls))
    ensures CountsThroughout(s, ls, q)
  {
    if ls != [] {
      hide E.Run, E.Step, CountsExactly;
      var before, l := ls[..|ls| - 1], ls[|ls| - 1];
      E.LastStep(s, ls);
      RunKeepsWindow(s, before);
      CountedBefore(E.Run(s, before).value, l, q);
      CountedAllAlong(s, before, q);
    }
  }

  lemma MatchedUnfinished(c: Core, q: Queue, from: nat, w: W.Window)
    requires CoreMatches(c, q, from, w)
    ensures Unfinished(c, q, from) == W.Unfinished(w)
  {
  }

  /** What the bounds need of the window beside a run. */
  lemma WindowBeside(s: E.State, ls: seq<Label>, q: Queue, final: E.State) returns (w: W.Window)
    requires Start(s, q) && E.Run(s, ls) == Some(final) && CountsThroughout(s, ls, q)
    ensures W.Inv(w) && w.size == s.window && w.threads == |s.core.threads|
    ensures |W.Unfinished(w)| == |Unfinished(final.core, q, Backlog(s, q))|
    ensures W.MissedSince(w) == RecentMisses(LedgerOf(s, ls, q))
    ensures W.Since(w.restarts, w.best) == RecentClears(LedgerOf(s, ls, q))
    ensures |s.core.threads| == 1 ==> |W.MissedSince(w)| <= MissesInARow(s, ls, q)
  {
    hide W.Inv, CoreMatches, Located, W.Since, W.Unfinished, Unfinished;
    w := RunMatches(s, ls, q);
    MatchedUnfinished(final.core, q, Backlog(s, q), w);
  }

  /** The bound. With T threads and window N, a tracked queue has at most T*N + T - 1 unfinished
      counted kernels at every moment of every run, whatever other queues, toggles of the flag and
      uncounted kernels interleave. Each boundary missed since the best successful wait adds at most one
      more window, and each time any thread cleared the table since, whatever the others were doing, one
      kernel less than that; earlier misses and clearings add nothing. */
  lemma KernelsAreBounded(s: E.State, ls: seq<Label>, q: Queue, final: E.State)
    requires Start(s, q) && E.Run(s, ls) == Some(final) && CountsThroughout(s, ls, q) && |s.core.threads| > 0
    ensures var ledger := LedgerOf(s, ls, q);
            |Unfinished(final.core, q, Backlog(s, q))|
            <= W.RestartedLimit(|s.core.threads|, |RecentMisses(ledger)|, RecentClears(ledger), s.window)
    ensures |RecentMisses(LedgerOf(s, ls, q))| <= AllMisses(s, ls, q)
    ensures RecentClears(LedgerOf(s, ls, q)) <= AllClears(ls)
  {
    var w := WindowBeside(s, ls, q, final);
    W.OutstandingIsWithinLimit(w, |RecentMisses(LedgerOf(s, ls, q))|, RecentClears(LedgerOf(s, ls, q)));
    FewMisses(s, ls, q);
    FewClears(s, ls, q);
  }

  /** How often the table is cleared. */
  function AllClears(ls: seq<Label>): nat {
    if ls == [] then 0 else AllClears(ls[..|ls| - 1]) + if ls[|ls| - 1].Clear? then 1 else 0
  }

  lemma {:induction false} SomeSince(clears: seq<nat>, b: nat)
    ensures W.Since(clears, b) <= |clears|
  {
    if clears != [] { SomeSince(clears[..|clears| - 1], b); }
  }

  lemma {:induction false} FewClears(s: E.State, ls: seq<Label>, q: Queue)
    ensures |LedgerOf(s, ls, q).clears| <= AllClears(ls) && RecentClears(LedgerOf(s, ls, q)) <= AllClears(ls)
  {
    hide Misses, Succeeds, Touches, W.Since;
    if ls != [] { FewClears(s, ls[..|ls| - 1], q); }
    SomeSince(LedgerOf(s, ls, q).clears, LedgerOf(s, ls, q).best);
  }

  lemma {:induction false} NoClears(s: E.State, ls: seq<Label>)
    requires NeverClears(ls)
    ensures AllClears(ls) == 0
  {
    if ls != [] {
      assert ls == ls[..|ls| - 1] + [ls[|ls| - 1]] && ls[|ls| - 1] in ls;
      assert forall x | x in ls[..|ls| - 1] :: x in ls;
      NoClears(s, ls[..|ls| - 1]);
    }
  }

  /** Without clearings being tracked at the end is enough. */
  lemma UnclearedIsBounded(s: E.State, ls: seq<Label>, q: Queue, final: E.State)
    requires Start(s, q) && E.Run(s, ls) == Some(final) && CountsExactly(final, q)
    requires NeverClears(ls) && |s.core.threads| > 0
    ensures |Unfinished(final.core, q, Backlog(s, q))|
            <= W.Limit(|s.core.threads|, |RecentMisses(LedgerOf(s, ls, q))|, s.window)
  {
    CountedAllAlong(s, ls, q);
    NoClears(s, ls);
    KernelsAreBounded(s, ls, q, final);
    assert (s.window - 1) * 0 == 0;
  }

  /** One thread: the limit is N, and N more for each of the boundaries missed in a row. */
  lemma OneThreadIsBounded(s: E.State, ls: seq<Label>, q: Queue, final: E.State)
    requires Start(s, q) && E.Run(s, ls) == Some(final) && Tracked(final.ticked, q)
    requires NeverClears(ls) && |s.core.threads| == 1
    ensures |Unfinished(final.core, q, Backlog(s, q))| <= W.Limit(1, MissesInARow(s, ls, q), s.window)
  {
    CountedAllAlong(s, ls, q);
    NoClears(s, ls);
    FewClears(s, ls, q);
    var w := WindowBeside(s, ls, q, final);
    W.OutstandingIsWithinLimit(w, MissesInARow(s, ls, q), 0);
    assert (s.window - 1) * 0 == 0;
  }

  /** One thread: nothing counted is unfinished when a boundary wait has just succeeded. */
  lemma NothingUnfinishedAfterBoundary(s: E.State, ls: seq<Label>, q: Queue)
    requires Start(s, q) && CountsThroughout(s, ls, q) && |s.core.threads| == 1 && ls != []
    requires Succeeds(E.Run(s, ls[..|ls| - 1]).value.core, ls[|ls| - 1], q)
    ensures Unfinished(E.Run(s, ls).value.core, q, Backlog(s, q)) == {}
  {
    var before, l := ls[..|ls| - 1], ls[|ls| - 1];
    var m := E.Run(s, before).value;
    var v := RunMatches(s, before, q);
    var w := StepMatches(m, l, E.Run(s, ls).value, q, Backlog(s, q), v);
    MatchedUnfinished(E.Run(s, ls).value.core, q, Backlog(s, q), w);
  }

  // ---------------------------------------------------------------- production

  function ProductionPlaces(c: Core, ls: seq<Label>, q: Queue): Places {
    if ls == [] then Places(map[], {}, 0)
    else
      var before := ProductionPlaces(c, ls[..|ls| - 1], q);
      match P.Run(c, ls[..|ls| - 1])
      case Some(m) => Mark(m, ls[|ls| - 1], q, before)
      case None => before
  }

  lemma PlacesOfOneMore(s: E.State, ls: seq<Label>, m: E.State, l: Label, q: Queue)
    requires E.Run(s, ls) == Some(m)
    ensures PlacesOf(s, ls + [l], q) == Mark(m.core, l, q, PlacesOf(s, ls, q))
  {
    assert (ls + [l])[..|ls|] == ls;
  }

  /** The steps of the table, and those before them, mark nothing. */
  lemma ExpansionMarksNothing(m: E.State, l: Label, q: Queue, places: Places)
    requires m.window == 1 && P.Step(m.core, l).Some? && |ShimEquivalence.Expand(l)| == 2
    ensures ShimEquivalence.Expand(l)[0] == l && E.Step(m, l).Some?
    ensures Mark(m.core, l, q, places) == places
    ensures Mark(E.Step(m, l).value.core, ShimEquivalence.Expand(l)[1], q, places) == places
  {
    hide InFlight, Lost;
  }

  lemma PlacesOfExpansion(s: E.State, ls: seq<Label>, m: E.State, l: Label, q: Queue)
    requires E.Run(s, ls) == Some(m) && m.window == 1 && P.Step(m.core, l).Some?
    ensures PlacesOf(s, ls + ShimEquivalence.Expand(l), q) == Mark(m.core, l, q, PlacesOf(s, ls, q))
  {
    hide E.Run, E.Step, P.Step, Mark, PlacesOf;
    PlacesOfOneMore(s, ls, m, l, q);
    if |ShimEquivalence.Expand(l)| == 2 {
      var second := ShimEquivalence.Expand(l)[1];
      ExpansionMarksNothing(m, l, q, PlacesOf(s, ls, q));
      E.Extend(s, ls, m, l, E.Step(m, l).value);
      PlacesOfOneMore(s, ls + [l], E.Step(m, l).value, second, q);
      assert ls + ShimEquivalence.Expand(l) == (ls + [l]) + [second];
    }
  }

  lemma {:induction false} ExpandedPlaces(s: E.State, ls: seq<Label>, q: Queue)
    requires s.window == 1 && P.Run(s.core, ls).Some?
    ensures PlacesOf(s, ShimEquivalence.ExpandAll(ls), q) == ProductionPlaces(s.core, ls, q)
  {
    if ls != [] {
      var before, l := ls[..|ls| - 1], ls[|ls| - 1];
      ExpandedPlaces(s, before, q);
      var m := ShimEquivalence.ExpandedRun(s, before, P.Run(s.core, before).value);
      PlacesOfExpansion(s, ShimEquivalence.ExpandAll(before), m, l, q);
    }
  }

  /** The production shim: with T threads at most T kernels submitted while counting are unfinished on
      any one queue, plus one for each boundary that was abandoned at or after the last place a wait
      succeeded for. Earlier abandoned ones add nothing, and resets do not matter. */
  lemma ProductionIsBounded(c: Core, ls: seq<Label>, q: Queue, final: Core)
    requires AllIdle(c.threads) && LineOf(c.device, q).done <= |LineOf(c.device, q).counted|
    requires P.Run(c, ls) == Some(final)
    ensures |Unfinished(final, q, |LineOf(c.device, q).counted|)|
            <= |c.threads| + |Unsettled(ProductionPlaces(c, ls, q))|
  {
    var s := E.State(c, 1, Cleared(), []);
    var e := ShimEquivalence.ExpandedRun(s, ls, final);
    var runs := ShimEquivalence.ExpandAll(ls);
    CountedAllAlong(s, runs, q);
    var w := RunMatches(s, runs, q);
    MatchedUnfinished(final, q, Backlog(s, q), w);
    ExpandedPlaces(s, ls, q);
    var places := ProductionPlaces(c, ls, q);
    W.OutstandingWithWindowOne(w, places.abandoned);
    SubsetIsSmaller((set p | p in places.abandoned && p >= w.done), Unsettled(places));
  }
}
