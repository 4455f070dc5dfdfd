/** The abstract bounded window on one in-order queue, which the shims and the patched dispatch loop
    refine. Every counted submission takes the next ticket; every size-th one since counting last started
    over is a boundary, and the thread that submitted it waits for it before it goes on. */
module BoundedWindow {
  import opened Counting

  type Thread = nat

  /** What a thread is doing with its ticket: about to submit it, or waiting for it at a position of
      the line. `late` is the set of smaller tickets not yet submitted at that moment. */
  datatype Hold =
    | Pending(ticket: nat)
    | Held(ticket: nat, pos: nat, late: set<nat>)

  /** `restarts` are the numbers of tickets handed out when counting started over. `line` holds the submitted
      tickets in queue order, 0 for commands that were never counted; the first `done` of them are
      finished. `missed` are boundaries that ended without a successful
      wait. `best` is the highest ticket waited for, `cut` the position after it, `behind` its `late`.
      `last` is the thread that took the newest ticket. */
  datatype Window = Window(
    size: nat, threads: nat, ticks: nat, restarts: seq<nat>, boundaries: set<nat>, holders: map<Thread, Hold>,
    line: seq<nat>, done: nat, missed: set<nat>, best: nat, cut: nat, behind: set<nat>, last: Thread)

  datatype Op =
    | Tick(thread: Thread)
    | Submit(thread: Thread)
    | Drop(thread: Thread)     // a failed submission, a failed wait, or no wait possible
    | Waited(thread: Thread)
    | Foreign                  // an uncounted command enters the line
    | Restart                  // counting starts over
    | Complete

  function Fresh(size: nat, threads: nat, backlog: nat, done: nat): Window {
    Window(size, threads, 0, [], {}, map[], seq(backlog, _ => 0), done, {}, 0, 0, {}, 0)
  }

  /** The ticket after which counting last started. */
  function Base(w: Window): nat {
    if w.restarts == [] then 0 else w.restarts[|w.restarts| - 1]
  }

  function PendingBelow(holders: map<Thread, Hold>, ticket: nat): set<nat> {
    set t | t in holders && holders[t].Pending? && holders[t].ticket < ticket :: holders[t].ticket
  }

  predicate Enabled(w: Window, op: Op) {
    match op
    case Tick(t) => t < w.threads && t !in w.holders
    case Submit(t) => t in w.holders && w.holders[t].Pending?
    case Drop(t) => t in w.holders
    case Waited(t) => t in w.holders && w.holders[t].Held? && w.holders[t].pos < w.done
    case Foreign => true
    case Restart => true
    case Complete => w.done < |w.line|
  }

  function Apply(w: Window, op: Op): Window
    requires w.size > 0 && Enabled(w, op)
  {
    match op
    case Tick(t) =>
      var ticket := w.ticks + 1;
      w.(ticks := ticket,
         boundaries := if (ticket - Base(w)) % w.size == 0 then w.boundaries + {ticket} else w.boundaries,
         holders := w.holders[t := Pending(ticket)],
         last := t)
    case Submit(t) =>
      var ticket := w.holders[t].ticket;
      var others := w.holders - {t};
      w.(line := w.line + [ticket],
         holders := if ticket in w.boundaries
                    then others[t := Held(ticket, |w.line|, PendingBelow(others, ticket))] else others)
    case Drop(t) =>
      var ticket := w.holders[t].ticket;
      w.(holders := w.holders - {t},
         missed := if ticket in w.boundaries then w.missed + {ticket} else w.missed)
    case Waited(t) =>
      var h := w.holders[t];
      var w' := w.(holders := w.holders - {t});
      if h.ticket > w.best then w'.(best := h.ticket, cut := h.pos + 1, behind := h.late) else w'
    case Foreign => w.(line := w.line + [0])
    case Restart => w.(restarts := w.restarts + [w.ticks])
    case Complete => w.(done := w.done + 1)
  }

  // ---------------------------------------------------------------- the invariant

  ghost predicate InRange(w: Window) {
    && (forall t | t in w.holders :: t < w.threads && 0 < w.holders[t].ticket <= w.ticks)
    && (forall p | 0 <= p < |w.line| :: w.line[p] <= w.ticks)
    && w.done <= |w.line|
  }

  /** A ticket still with a thread is on the line only as that thread's held boundary. */
  ghost predicate Placed(w: Window) {
    && (forall t, p | t in w.holders && 0 <= p < |w.line| && w.line[p] == w.holders[t].ticket ::
          w.holders[t].Held? && w.holders[t].pos == p)
    && (forall t | t in w.holders && w.holders[t].Held? ::
          && w.holders[t].pos < |w.line| && w.line[w.holders[t].pos] == w.holders[t].ticket
          && w.holders[t].ticket in w.boundaries)
  }

  ghost predicate DistinctHolders(w: Window) {
    forall t, u | t in w.holders && u in w.holders && t != u :: w.holders[t].ticket != w.holders[u].ticket
  }

  ghost predicate DistinctLine(w: Window) {
    forall p, r | 0 <= p < r < |w.line| :: w.line[p] == w.line[r] ==> w.line[p] == 0
  }

  /** Tickets are handed out once: each is with one thread or at one position. */
  ghost predicate Tickets(w: Window) {
    InRange(w) && Placed(w) && DistinctHolders(w) && DistinctLine(w)
  }

  /** Since counting last started, every size-th ticket is a boundary. */
  ghost predicate Aligned(w: Window) {
    && w.size > 0 && Base(w) <= w.ticks
    && (forall b | b in w.boundaries :: 0 < b <= w.ticks)
    && (forall b | Base(w) < b <= w.ticks :: b in w.boundaries <==> (b - Base(w)) % w.size == 0)
    && (w.size == 1 ==> forall b | 0 < b <= w.ticks :: b in w.boundaries)
  }

  ghost function Later(w: Window, b: nat): set<nat> {
    set x | x in w.boundaries && x > b
  }

  /** How often counting started over at or after a ticket. */
  function Since(restarts: seq<nat>, b: nat): nat {
    if restarts == [] then 0
    else Since(restarts[..|restarts| - 1], b) + if restarts[|restarts| - 1] >= b then 1 else 0
  }

  /** The tickets that so many boundaries and restarts leave room for. */
  function Room(size: nat, boundaries: nat, restarts: nat): nat
    requires size > 0
  {
    size * boundaries + (size - 1) * restarts
  }

  lemma RoomGrows(size: nat, boundaries: nat, restarts: nat)
    requires size > 0
    ensures Room(size, boundaries + 1, restarts) == Room(size, boundaries, restarts) + size
    ensures Room(size, boundaries, restarts + 1) == Room(size, boundaries, restarts) + size - 1
  {
    assert size * (boundaries + 1) == size * boundaries + size;
    assert (size - 1) * (restarts + 1) == (size - 1) * restarts + (size - 1);
  }

  /** From any boundary on, few tickets lie between the later boundaries, however often counting started
      over. */
  ghost predicate SpacedFrom(w: Window, b: nat)
    requires w.size > 0
  {
    w.ticks - b <= Room(w.size, |Later(w, b)|, Since(w.restarts, b)) + (w.ticks - Base(w)) % w.size
  }

  ghost predicate Spaced(w: Window)
    requires w.size > 0
  {
    SpacedFrom(w, 0) && forall b | b in w.boundaries :: SpacedFrom(w, b)
  }

  /** Where the boundaries lie. */
  ghost predicate BoundariesAreDue(w: Window) {
    Aligned(w) && Spaced(w)
  }

  ghost predicate InFlight(w: Window, ticket: nat) {
    exists t :: t in w.holders && w.holders[t].ticket == ticket
  }

  /** The best waited boundary is a finished command of the line. */
  ghost predicate BestStands(w: Window) {
    && (w.best == 0 || (w.best in w.boundaries && 0 < w.cut <= |w.line| && w.line[w.cut - 1] == w.best))
    && w.cut <= w.done
  }

  /** A missed ticket was a boundary, and nobody holds it any more. */
  ghost predicate MissesLetGo(w: Window) {
    w.missed <= w.boundaries && (forall t | t in w.holders :: w.holders[t].ticket !in w.missed)
  }

  /** Every boundary is at or below the best waited one, still with its thread, or missed; and so is
      every boundary whose command is unfinished. */
  ghost predicate Accounted(w: Window) {
    && BestStands(w) && MissesLetGo(w)
    && (forall b | b in w.boundaries && w.best < b :: b in w.missed || InFlight(w, b))
    && (forall p | w.done <= p < |w.line| && w.line[p] in w.boundaries ::
          w.line[p] in w.missed || InFlight(w, w.line[p]))
  }

  /** Nothing submitted after a position carries a smaller ticket, except the few known to be late. */
  ghost predicate OrderedAfter(w: Window, ticket: nat, pos: nat, late: set<nat>) {
    && (forall p | pos <= p < |w.line| && w.line[p] != 0 :: w.line[p] > ticket || w.line[p] in late)
    && (forall t | t in w.holders && w.holders[t].Pending? ::
          w.holders[t].ticket > ticket || w.holders[t].ticket in late)
    && (w.threads > 0 ==> |late| < w.threads)
    && (w.threads == 0 ==> late == {})
  }

  ghost predicate Ordered(w: Window) {
    && OrderedAfter(w, w.best, w.cut, w.behind)
    && (forall t | t in w.holders && w.holders[t].Held? ::
          OrderedAfter(w, w.holders[t].ticket, w.holders[t].pos + 1, w.holders[t].late))
  }

  /** The thread that took the newest ticket holds no older one. */
  ghost predicate Newest(w: Window) {
    && (w.ticks > 0 ==> w.last < w.threads)
    && (w.last in w.holders ==> w.holders[w.last].ticket == w.ticks)
  }

  ghost predicate Inv(w: Window) {
    BoundariesAreDue(w) && Tickets(w) && Accounted(w) && Ordered(w) && Newest(w)
  }

  lemma FreshInv(size: nat, threads: nat, backlog: nat, done: nat)
    requires size > 0 && done <= backlog
    ensures Inv(Fresh(size, threads, backlog, done))
  {
  }

  ghost function HeldTickets(holders: map<Thread, Hold>): set<nat> {
    set t | t in holders :: holders[t].ticket
  }

  lemma {:induction false} OneTicketEach(holders: map<Thread, Hold>)
    ensures |HeldTickets(holders)| <= |holders|
  {
    if holders == map[] {
      assert HeldTickets(holders) == {};
    } else {
      var t :| t in holders;
      var rest := holders - {t};
      OneTicketEach(rest);
      forall k | k in HeldTickets(holders) ensures k in HeldTickets(rest) + {holders[t].ticket} {
        var u :| u in holders && holders[u].ticket == k;
        if u != t { assert u in rest; }
      }
      SubsetIsSmaller(HeldTickets(holders), HeldTickets(rest) + {holders[t].ticket});
      assert |rest| == |holders| - 1 by { assert rest.Keys == holders.Keys - {t}; }
    }
  }

  lemma ApplyKeepsInv(w: Window, op: Op)
    requires Inv(w) && Enabled(w, op)
    ensures Inv(Apply(w, op))
  {
    ApplyKeepsTickets(w, op);
    ApplyKeepsAccounted(w, op);
    ApplyKeepsOrdered(w, op);
    ApplyKeepsNewest(w, op);
  }

  lemma ApplyKeepsNewest(w: Window, op: Op)
    requires BoundariesAreDue(w) && Newest(w) && Enabled(w, op)
    ensures BoundariesAreDue(Apply(w, op)) && Newest(Apply(w, op))
  {
    hide Room, Since;
    ApplyKeepsAligned(w, op);
    SpacedStep(w, op, 0);
    forall b | b in Apply(w, op).boundaries ensures SpacedFrom(Apply(w, op), b) { SpacedStep(w, op, b); }
  }

  lemma ApplyKeepsAligned(w: Window, op: Op)
    requires Aligned(w) && Enabled(w, op)
    ensures Aligned(Apply(w, op))
  {
    if w.size == 1 && op.Tick? { QuotientIs(w.ticks + 1 - Base(w), 1, w.ticks + 1 - Base(w), 0); }
  }

  lemma SpacedStep(w: Window, op: Op, b: nat)
    requires BoundariesAreDue(w) && Enabled(w, op) && (b == 0 || b in Apply(w, op).boundaries)
    ensures SpacedFrom(Apply(w, op), b)
  {
    hide Room;
    if op.Tick? {
      SpacedTick(w, op.thread, b);
    } else if op.Restart? {
      var w' := Apply(w, op);
      assert w'.restarts[..|w'.restarts| - 1] == w.restarts;
      RoomGrows(w.size, |Later(w, b)|, Since(w.restarts, b));
      assert Later(w', b) == Later(w, b);
    } else {
      assert Later(Apply(w, op), b) == Later(w, b);
    }
  }

  lemma OneMoreTicket(size: nat, ticks: nat, base: nat, b: nat, before: nat, after: nat, restarts: nat)
    requires size > 0 && base <= ticks && b <= ticks
    requires ticks - b <= Room(size, before, restarts) + (ticks - base) % size
    requires after == before + if (ticks + 1 - base) % size == 0 then 1 else 0
    ensures ticks + 1 - b <= Room(size, after, restarts) + (ticks + 1 - base) % size
  {
    NextQuotient(ticks - base, size);
    RoomGrows(size, before, restarts);
  }

  lemma LaterTick(w: Window, t: Thread, b: nat)
    requires Aligned(w) && Enabled(w, Tick(t)) && b <= w.ticks
    ensures var w' := Apply(w, Tick(t));
            && w'.ticks == w.ticks + 1 && w'.size == w.size && w'.restarts == w.restarts && Base(w') == Base(w)
            && |Later(w', b)| == |Later(w, b)| + if (w.ticks + 1 - Base(w)) % w.size == 0 then 1 else 0
  {
    var w', ticket := Apply(w, Tick(t)), w.ticks + 1;
    assert ticket !in w.boundaries;
    assert Later(w', b) == if (ticket - Base(w)) % w.size == 0 then Later(w, b) + {ticket} else Later(w, b);
  }

  lemma SpacedTick(w: Window, t: Thread, b: nat)
    requires BoundariesAreDue(w) && Enabled(w, Tick(t)) && (b == 0 || b in Apply(w, Tick(t)).boundaries)
    ensures SpacedFrom(Apply(w, Tick(t)), b)
  {
    hide Room, Since, Base, Later;
    if b <= w.ticks {
      assert SpacedFrom(w, b);
      LaterTick(w, t, b);
      BaseIsPast(w);
      OneMoreTicket(w.size, w.ticks, Base(w), b, |Later(w, b)|, |Later(Apply(w, Tick(t)), b)|, Since(w.restarts, b));
    }
  }

  lemma BaseIsPast(w: Window)
    requires Aligned(w)
    ensures 0 <= Base(w) <= w.ticks
  {
  }

  lemma ApplyKeepsTickets(w: Window, op: Op)
    requires BoundariesAreDue(w) && Tickets(w) && Enabled(w, op)
    ensures Tickets(Apply(w, op))
  {
    ApplyKeepsPlaced(w, op);
    ApplyKeepsInRange(w, op);
    ApplyKeepsDistinctHolders(w, op);
    ApplyKeepsDistinctLine(w, op);
  }

  lemma ApplyKeepsInRange(w: Window, op: Op)
    requires w.size > 0 && InRange(w) && Enabled(w, op)
    ensures InRange(Apply(w, op))
  {
  }

  lemma ApplyKeepsDistinctHolders(w: Window, op: Op)
    requires w.size > 0 && InRange(w) && DistinctHolders(w) && Enabled(w, op)
    ensures DistinctHolders(Apply(w, op))
  {
  }

  lemma ApplyKeepsDistinctLine(w: Window, op: Op)
    requires w.size > 0 && Placed(w) && DistinctLine(w) && Enabled(w, op)
    ensures DistinctLine(Apply(w, op))
  {
    if op.Submit? {
      assert forall p | 0 <= p < |w.line| :: w.line[p] != w.holders[op.thread].ticket;
    }
  }

  lemma ApplyKeepsPlaced(w: Window, op: Op)
    requires w.size > 0 && InRange(w) && Placed(w) && DistinctHolders(w) && Enabled(w, op)
    ensures Placed(Apply(w, op))
  {
    if op.Submit? { SubmitKeepsPlaced(w, op.thread); }
  }

  lemma SubmitKeepsPlaced(w: Window, t: Thread)
    requires w.size > 0 && InRange(w) && Placed(w) && DistinctHolders(w) && Enabled(w, Submit(t))
    ensures Placed(Apply(w, Submit(t)))
  {
  }

  lemma StillInFlight(w: Window, op: Op, b: nat)
    requires w.size > 0 && Enabled(w, op) && InFlight(w, b) && b in w.boundaries
    ensures InFlight(Apply(w, op), b)
            || (op.Drop? && b in Apply(w, op).missed)
            || (op.Waited? && b == w.holders[op.thread].ticket)
  {
    var w' := Apply(w, op);
    var u :| u in w.holders && w.holders[u].ticket == b;
    if (op.Drop? || op.Waited?) && u == op.thread {
    } else {
      assert u in w'.holders && w'.holders[u].ticket == b;
    }
  }

  lemma ApplyKeepsBest(w: Window, op: Op)
    requires w.size > 0 && InRange(w) && Placed(w) && BestStands(w) && Enabled(w, op)
    ensures BestStands(Apply(w, op))
  {
  }

  lemma ApplyKeepsMisses(w: Window, op: Op)
    requires BoundariesAreDue(w) && InRange(w) && DistinctHolders(w) && MissesLetGo(w) && Enabled(w, op)
    ensures MissesLetGo(Apply(w, op))
  {
  }

  lemma ApplyKeepsAccounted(w: Window, op: Op)
    requires Inv(w) && Enabled(w, op)
    ensures Accounted(Apply(w, op))
  {
    ApplyKeepsBest(w, op);
    ApplyKeepsMisses(w, op);
    hide Ordered, Newest, DistinctLine;
    var w' := Apply(w, op);
    forall b | b in w'.boundaries && w'.best < b
      ensures b in w'.missed || InFlight(w', b)
    {
      if b in w.boundaries {
        if b !in w.missed { StillInFlight(w, op, b); }
      } else {
        assert op.thread in w'.holders && w'.holders[op.thread].ticket == b;
      }
    }
    forall p | w'.done <= p < |w'.line| && w'.line[p] in w'.boundaries
      ensures w'.line[p] in w'.missed || InFlight(w', w'.line[p])
    {
      if p < |w.line| {
        if w.line[p] !in w.missed { StillInFlight(w, op, w.line[p]); }
      } else {
        assert op.Submit? && op.thread in w'.holders && w'.holders[op.thread].ticket == w'.line[p];
      }
    }
  }

  lemma StillOrderedAfter(w: Window, op: Op, ticket: nat, pos: nat, late: set<nat>)
    requires w.size > 0 && OrderedAfter(w, ticket, pos, late) && Enabled(w, op)
    requires ticket <= w.ticks && pos <= |w.line|
    ensures OrderedAfter(Apply(w, op), ticket, pos, late)
  {
  }

  lemma ApplyKeepsOrdered(w: Window, op: Op)
    requires Inv(w) && Enabled(w, op)
    ensures Ordered(Apply(w, op))
  {
    BestIsOrdered(w, op);
    var w' := Apply(w, op);
    forall u | u in w'.holders && w'.holders[u].Held?
      ensures OrderedAfter(w', w'.holders[u].ticket, w'.holders[u].pos + 1, w'.holders[u].late)
    {
      HeldIsOrdered(w, op, u);
    }
  }

  lemma BestIsOrdered(w: Window, op: Op)
    requires BoundariesAreDue(w) && Tickets(w) && Accounted(w) && Ordered(w) && Enabled(w, op)
    ensures var w' := Apply(w, op); OrderedAfter(w', w'.best, w'.cut, w'.behind)
  {
    StillOrderedAfter(w, op, w.best, w.cut, w.behind);
    if op.Waited? {
      var h := w.holders[op.thread];
      StillOrderedAfter(w, op, h.ticket, h.pos + 1, h.late);
    }
  }

  lemma HeldIsOrdered(w: Window, op: Op, u: Thread)
    requires Inv(w) && Enabled(w, op)
    requires u in Apply(w, op).holders && Apply(w, op).holders[u].Held?
    ensures var w' := Apply(w, op); var h := w'.holders[u]; OrderedAfter(w', h.ticket, h.pos + 1, h.late)
  {
    if op.Submit? && u == op.thread {
      SubmitIsOrdered(w, u);
    } else {
      HeldBefore(w, op, u);
      var h := w.holders[u];
      StillOrderedAfter(w, op, h.ticket, h.pos + 1, h.late);
    }
  }

  lemma HeldBefore(w: Window, op: Op, u: Thread)
    requires w.size > 0 && Enabled(w, op) && !(op.Submit? && u == op.thread)
    requires u in Apply(w, op).holders && Apply(w, op).holders[u].Held?
    ensures u in w.holders && w.holders[u] == Apply(w, op).holders[u]
  {
  }

  lemma SubmitIsOrdered(w: Window, t: Thread)
    requires InRange(w) && DistinctHolders(w) && Enabled(w, Submit(t)) && w.size > 0 && w.holders[t].ticket in w.boundaries
    ensures var w' := Apply(w, Submit(t)); var h := w'.holders[t];
            h.Held? && OrderedAfter(w', h.ticket, h.pos + 1, h.late)
  {
    var others := w.holders - {t};
    assert PendingBelow(others, w.holders[t].ticket) <= HeldTickets(others);
    SubsetIsSmaller(PendingBelow(others, w.holders[t].ticket), HeldTickets(others));
    OneTicketEach(others);
    NumbersBelow(others.Keys, w.threads);
    forall u | u in others && others[u].Pending?
      ensures others[u].ticket > w.holders[t].ticket || others[u].ticket in PendingBelow(others, w.holders[t].ticket)
    {
      assert u in w.holders && others[u].ticket != w.holders[t].ticket;
    }
  }

  // ---------------------------------------------------------------- the bound

  /** The positions of counted commands that are not finished. */
  ghost function Unfinished(w: Window): set<nat> {
    set p | w.done <= p < |w.line| && w.line[p] != 0
  }

  /** The boundaries after the best waited one that ended without a successful wait. */
  ghost function MissedSince(w: Window): set<nat> {
    set m | m in w.missed && m > w.best
  }

  /** At most threads * size + threads - 1 counted commands are unfinished at any time, plus one window for
      every boundary missed since the best waited one, and one command less than that for every time counting
      started over since. */
  lemma OutstandingIsBounded(w: Window)
    requires Inv(w) && w.threads > 0
    ensures |Unfinished(w)| <= (w.threads + |MissedSince(w)|) * w.size + w.threads - 1
                               + (w.size - 1) * Since(w.restarts, w.best)
  {
    var values := Above(w.best, w.ticks) + w.behind;
    InjectionIsSmaller(Unfinished(w), w.line, values);
    TicketsSinceBest(w);
  }

  /** The most that may be unfinished: one window for each thread and each miss, and one late
      command for each other thread. */
  function Limit(threads: nat, misses: nat, size: nat): nat
    requires threads > 0
  {
    (threads + misses) * size + threads - 1
  }

  /** The same when counting started over in between: a window that was not filled each time. */
  function RestartedLimit(threads: nat, misses: nat, restarts: nat, size: nat): nat
    requires threads > 0 && size > 0
  {
    Limit(threads, misses, size) + (size - 1) * restarts
  }

  lemma LimitGrows(threads: nat, m: nat, misses: nat, r: nat, restarts: nat, size: nat)
    requires threads > 0 && size > 0 && m <= misses && r <= restarts
    ensures (threads + m) * size + threads - 1 + (size - 1) * r <= RestartedLimit(threads, misses, restarts, size)
  {
    if m < misses { Multiples(size, threads + m, threads + misses); }
    assert (size - 1) * (restarts - r) >= 0;
    assert (size - 1) * restarts == (size - 1) * r + (size - 1) * (restarts - r);
  }

  lemma OutstandingIsWithinLimit(w: Window, misses: nat, restarts: nat)
    requires w.size > 0 && Inv(w) && w.threads > 0
    requires |MissedSince(w)| <= misses && Since(w.restarts, w.best) <= restarts
    ensures |Unfinished(w)| <= RestartedLimit(w.threads, misses, restarts, w.size)
  {
    hide Inv, RestartedLimit, Since, Unfinished, MissedSince;
    OutstandingIsBounded(w);
    LimitGrows(w.threads, |MissedSince(w)|, misses, Since(w.restarts, w.best), restarts, w.size);
  }

  /** Tickets taken since the best waited boundary: one window for each thread and each miss, and almost
      one for each time counting started over. */
  lemma TicketsSinceBest(w: Window)
    requires Inv(w) && w.threads > 0
    ensures w.ticks - w.best
            <= (w.threads + |MissedSince(w)|) * w.size + (w.size - 1) * Since(w.restarts, w.best)
  {
    var values := DueValues(w);
    SubsetIsSmaller(Later(w, w.best), values);
    var rest := (w.ticks - Base(w)) % w.size;
    assert w.ticks - w.best <= Room(w.size, |Later(w, w.best)|, Since(w.restarts, w.best)) + rest;
    if rest > 0 { assert w.ticks !in w.boundaries && w.ticks > 0; }
    RoomWithin(w.size, |Later(w, w.best)|, Since(w.restarts, w.best), w.threads + |MissedSince(w)|, rest);
  }

  lemma RoomWithin(size: nat, boundaries: nat, restarts: nat, limit: nat, rest: nat)
    requires size > 0 && rest < size && (if rest > 0 then boundaries < limit else boundaries <= limit)
    ensures Room(size, boundaries, restarts) + rest <= limit * size + (size - 1) * restarts
  {
    if boundaries < limit { Multiples(size, boundaries, limit); }
  }

  /** The boundaries due since the best waited one are missed ones and ones held by threads. A newest
      ticket that is no boundary keeps its thread away from them. */
  lemma DueValues(w: Window) returns (values: set<nat>)
    requires Aligned(w) && InRange(w) && Accounted(w) && Newest(w) && w.threads > 0
    ensures Later(w, w.best) <= values
    ensures |values| <= w.threads + |MissedSince(w)|
    ensures w.ticks > 0 && w.ticks !in w.boundaries ==> |values| < w.threads + |MissedSince(w)|
  {
    var idle := if w.ticks in w.boundaries then {} else {w.last};
    values := MissedSince(w) + HeldTickets(w.holders - idle);
    DueAreHeld(w, idle);
    BusyThreads(w, idle);
  }

  lemma DueAreHeld(w: Window, idle: set<Thread>)
    requires Aligned(w) && Accounted(w) && Newest(w)
    requires idle == if w.ticks in w.boundaries then {} else {w.last}
    ensures Later(w, w.best) <= MissedSince(w) + HeldTickets(w.holders - idle)
  {
    forall b | b in w.boundaries && w.best < b ensures b in MissedSince(w) + HeldTickets(w.holders - idle) {
      if b !in w.missed {
        var t :| t in w.holders && w.holders[t].ticket == b;
        assert t in w.holders - idle;
      }
    }
  }

  lemma BusyThreads(w: Window, idle: set<Thread>)
    requires InRange(w) && Newest(w) && w.threads > 0 && (idle == {} || idle == {w.last})
    ensures |HeldTickets(w.holders - idle)| <= w.threads
    ensures idle != {} && w.ticks > 0 ==> |HeldTickets(w.holders - idle)| < w.threads
  {
    var busy := w.holders - idle;
    OneTicketEach(busy);
    assert forall t | t in busy.Keys :: t < w.threads;
    NumbersBelow(busy.Keys, w.threads);
    if idle != {} && w.ticks > 0 {
      assert w.last < w.threads && w.last !in busy.Keys;
    }
  }

  /** Nobody holds a ticket, nothing was missed and a whole window was handed out: then a boundary was
      waited for, and its command is finished. */
  lemma QuietWindowHasWaited(w: Window)
    requires Inv(w) && w.restarts == [] && w.holders == map[] && w.missed == {} && w.ticks >= w.size
    ensures w.best > 0 && 0 < w.cut <= w.done && w.line[w.cut - 1] == w.best
  {
    QuotientIs(w.size, w.size, 1, 0);
    assert w.size in w.boundaries;
  }

  /** With window size 1 every unfinished counted command is still with its thread or was missed. */
  lemma OutstandingWithWindowOne(w: Window, abandoned: set<nat>)
    requires Inv(w) && w.size == 1
    requires forall p | 0 <= p < |w.line| && w.line[p] in w.missed :: p in abandoned
    ensures |Unfinished(w)| <= w.threads + |set p | p in abandoned && p >= w.done|
  {
    var late := set p | p in abandoned && p >= w.done;
    var kept := set p | p in Unfinished(w) && w.line[p] in HeldTickets(w.holders);
    forall p | p in Unfinished(w) ensures p in kept + late {
      assert w.line[p] in w.boundaries;
      if w.line[p] !in w.missed {
        var t :| t in w.holders && w.holders[t].ticket == w.line[p];
      }
    }
    InjectionIsSmaller(kept, w.line, HeldTickets(w.holders));
    OneTicketEach(w.holders);
    NumbersBelow(w.holders.Keys, w.threads);
    SubsetIsSmaller(Unfinished(w), kept + late);
  }

  /** With one thread nothing counted is unfinished, and no miss is remembered, right after a
      successful wait. */
  lemma NothingUnfinishedAfterWait(w: Window, t: Thread)
    requires Inv(w) && w.threads == 1 && Enabled(w, Waited(t))
    ensures Unfinished(Apply(w, Waited(t))) == {} && MissedSince(Apply(w, Waited(t))) == {}
  {
    var h := w.holders[t];
    assert t == 0 && w.last == 0;
    assert OrderedAfter(w, h.ticket, h.pos + 1, h.late);
    assert h.late == {};
  }
}
