/** The rule the experiment's documentation states, that every N-th successful enqueue on a queue is waited
    for, against the shim, which counts a dispatch before it knows whether the vendor accepts it. */
module DocumentedRule {
  import opened Counting
  import opened QueueTable
  import opened ShimCore
  import E = ExperimentalShim
  import opened KernelBound
  import opened Schedules
  import opened HandleLimit
  import opened Wrappers

  /** One counted call: its queue, and whether the vendor accepted the kernel. */
  datatype Attempt = Attempt(queue: Queue, succeeded: bool)

  /** The dispatches the table has seen. */
  function QueuesOf(h: seq<Attempt>): (s: seq<Queue>)
    ensures |s| == |h|
  {
    seq(|h|, i requires 0 <= i < |h| => h[i].queue)
  }

  /** How many calls on the queue the vendor accepted, or refused. */
  function Outcomes(h: seq<Attempt>, q: Queue, succeeded: bool): nat {
    if h == [] then 0
    else Outcomes(h[..|h| - 1], q, succeeded) + if h[|h| - 1] == Attempt(q, succeeded) then 1 else 0
  }

  /** The shim's choice for the next dispatch on the queue. */
  predicate ShimWaits(h: seq<Attempt>, q: Queue, n: nat)
    requires n > 0
  {
    CountAfter(Replay(QueuesOf(h)), q) % n == 0
  }

  /** The documented choice, should the vendor accept it. */
  predicate RuleWaits(h: seq<Attempt>, q: Queue, n: nat)
    requires n > 0
  {
    (Outcomes(h, q, true) + 1) % n == 0
  }

  /** As long as nothing fails any more, the shim follows the rule at every later dispatch on the queue. */
  ghost predicate Agree(h: seq<Attempt>, q: Queue, n: nat)
    requires n > 0
  {
    forall later: seq<Attempt> | (forall a | a in later :: a.succeeded) && Tracked(QueuesOf(h + later) + [q], q) ::
      ShimWaits(h + later, q, n) <==> RuleWaits(h + later, q, n)
  }

  lemma OneMoreAttempt(h: seq<Attempt>, a: Attempt, q: Queue)
    ensures QueuesOf(h + [a]) == QueuesOf(h) + [a.queue]
    ensures forall b :: Outcomes(h + [a], q, b) == Outcomes(h, q, b) + if a == Attempt(q, b) then 1 else 0
  {
    assert (h + [a])[..|h|] == h;
  }

  lemma {:induction false} AttemptsAddUp(h: seq<Attempt>, q: Queue)
    ensures Dispatches(QueuesOf(h), q) == Outcomes(h, q, true) + Outcomes(h, q, false)
  {
    if h != [] {
      var before, a := h[..|h| - 1], h[|h| - 1];
      AttemptsAddUp(before, q);
      assert h == before + [a];
      OneMoreAttempt(before, a, q);
      OneMore(QueuesOf(before), a.queue);
    }
  }

  lemma {:induction false} NoMoreFailures(h: seq<Attempt>, later: seq<Attempt>, q: Queue)
    requires forall a | a in later :: a.succeeded
    ensures Outcomes(h + later, q, false) == Outcomes(h, q, false)
  {
    if later == [] {
      assert h + later == h;
    } else {
      var before, a := later[..|later| - 1], later[|later| - 1];
      assert a in later && forall x | x in before :: x in later;
      NoMoreFailures(h, before, q);
      assert h + later == (h + before) + [a];
      OneMoreAttempt(h + before, a, q);
    }
  }

  /** k accepted dispatches more on the queue. */
  function Again(q: Queue, k: nat): seq<Attempt> {
    seq(k, _ => Attempt(q, true))
  }

  lemma {:induction false} AgainCounts(h: seq<Attempt>, q: Queue, k: nat)
    requires Tracked(QueuesOf(h) + [q], q)
    ensures Outcomes(h + Again(q, k), q, true) == Outcomes(h, q, true) + k
    ensures Tracked(QueuesOf(h + Again(q, k)) + [q], q)
  {
    if k == 0 {
      assert h + Again(q, 0) == h;
    } else {
      AgainCounts(h, q, k - 1);
      assert h + Again(q, k) == (h + Again(q, k - 1)) + [Attempt(q, true)];
      OneMoreAttempt(h + Again(q, k - 1), Attempt(q, true), q);
      TrackedStays(QueuesOf(h + Again(q, k - 1)), q);
    }
  }

  /** A queue tracked at a dispatch of its own is tracked at the next one. */
  lemma TrackedStays(h: seq<Queue>, q: Queue)
    requires Tracked(h + [q], q)
    ensures Tracked(h + [q] + [q], q)
  {
    FirstSeenFacts(h + [q]);
    OneMore(h + [q], q);
  }

  /** The shim's choice in terms of accepted and refused dispatches. */
  lemma ChoicesAre(h: seq<Attempt>, q: Queue, n: nat)
    requires n > 0 && Tracked(QueuesOf(h) + [q], q)
    ensures ShimWaits(h, q, n) <==> (Outcomes(h, q, true) + 1 + Outcomes(h, q, false)) % n == 0
  {
    hide CountAfter, Replay, Tracked, Dispatches, Outcomes, FirstSeen, Fits, QueuesOf;
    TrackedCountIsExact(QueuesOf(h), q);
    OneMore(QueuesOf(h), q);
    AttemptsAddUp(h, q);
  }

  lemma NeverBreaks(h: seq<Attempt>, later: seq<Attempt>, q: Queue, n: nat)
    requires n > 0 && Outcomes(h, q, false) % n == 0
    requires (forall a | a in later :: a.succeeded) && Tracked(QueuesOf(h + later) + [q], q)
    ensures ShimWaits(h + later, q, n) <==> RuleWaits(h + later, q, n)
  {
    hide Tracked, ShimWaits, Outcomes;
    NoMoreFailures(h, later, q);
    ChoicesAre(h + later, q, n);
    Shifted(Outcomes(h + later, q, true) + 1, Outcomes(h, q, false), n);
  }

  /** Accepted dispatches up to the next multiple of N of them: the rule waits there, the shim does not. */
  lemma BreaksLater(h: seq<Attempt>, q: Queue, n: nat) returns (later: seq<Attempt>, k: nat)
    requires n > 0 && Tracked(QueuesOf(h) + [q], q) && Outcomes(h, q, false) % n != 0
    ensures later == Again(q, k) && (forall a | a in later :: a.succeeded) && Tracked(QueuesOf(h + later) + [q], q)
    ensures RuleWaits(h + later, q, n) && !ShimWaits(h + later, q, n)
  {
    hide Tracked, ShimWaits, Outcomes;
    k := n - 1 - Outcomes(h, q, true) % n;
    later := Again(q, k);
    AgainCounts(h, q, k);
    NoMoreFailures(h, later, q);
    ChoicesAre(h + later, q, n);
    FullWindow(Outcomes(h, q, true), n);
    var accepted := Outcomes(h + later, q, true) + 1;
    if (accepted + Outcomes(h, q, false)) % n == 0 {
      MultiplesDiffer(accepted + Outcomes(h, q, false), accepted, n);
      assert false;
    }
  }

  /** The documented rule is what the shim does from here on exactly when the failures on the queue so far
      are a multiple of N. */
  lemma RuleHoldsExactly(h: seq<Attempt>, q: Queue, n: nat)
    requires n > 0 && Tracked(QueuesOf(h) + [q], q)
    ensures Agree(h, q, n) <==> Outcomes(h, q, false) % n == 0
  {
    hide Tracked, ShimWaits, RuleWaits, Outcomes;
    if Outcomes(h, q, false) % n == 0 {
      forall later: seq<Attempt> | (forall a | a in later :: a.succeeded) && Tracked(QueuesOf(h + later) + [q], q)
        ensures ShimWaits(h + later, q, n) <==> RuleWaits(h + later, q, n)
      {
        NeverBreaks(h, later, q, n);
      }
    } else {
      var later, k := BreaksLater(h, q, n);
      assert !Agree(h, q, n);
    }
  }

  lemma Shifted(a: nat, b: nat, n: nat)
    requires n > 0 && b % n == 0
    ensures (a + b) % n == 0 <==> a % n == 0
  {
    if a % n == 0 { MultiplesAdd(a, b, n); }
    if (a + b) % n == 0 { MultiplesDiffer(a + b, b, n); }
  }

  lemma FullWindow(a: nat, n: nat)
    requires n > 0
    ensures (a + (n - 1 - a % n) + 1) % n == 0
  {
    var k := a / n;
    assert a + (n - 1 - a % n) + 1 == n * (k + 1);
    QuotientIs(n * (k + 1), n, k + 1, 0);
  }

  /** CL_OUT_OF_RESOURCES */
  const CL_OUT_OF_RESOURCES := -5

  /** Window 2, and the second of three kernels refused: two kernels are accepted and none is waited for. */
  lemma TwoSuccessesWithoutWait(q: Queue) returns (ls: seq<Label>, final: E.State)
    requires q != NO_QUEUE
    ensures E.Run(JustEnabled(2, 1), ls) == Some(final)
    ensures final.core.trace
         == Accepted(q, 0)
          + [VendorEnqueue(0, TheCall(q), true, CL_OUT_OF_RESOURCES), Returned(0, CL_OUT_OF_RESOURCES)]
          + Accepted(q, 0)
    ensures final.core.threads == [Idle]
  {
    hide CallsUse, CountAfter, QueueTable.Tick, E.Step;
    var s := JustEnabled(2, 1);
    SameQueue(q);
    var a, m := Count(s, q, 2, 0);
    var b, n := Submit(m, q, 2, 0, false);
    E.Join(s, a, m, b, n);
    var c, o := Count(n, q, 2, 0);
    E.Join(s, a + b, n, c, o);
    var d, p := Refuse(o, q, 2, 0, true, CL_OUT_OF_RESOURCES);
    E.Join(s, a + b + c, o, d, p);
    var e, r := Count(p, q, 2, 0);
    E.Join(s, a + b + c + d, p, e, r);
    var f, u := Submit(r, q, 2, 0, false);
    E.Join(s, a + b + c + d + e, r, f, u);
    ls, final := a + b + c + d + e + f, u;
    assert final.core.threads == [Idle];
  }

  lemma SameQueue(q: Queue)
    requires q != NO_QUEUE
    ensures CountAfter(Cleared(), q) == 1
    ensures CountAfter(QueueTable.Tick(Cleared(), q), q) == 2
    ensures CountAfter(QueueTable.Tick(QueueTable.Tick(Cleared(), q), q), q) == 3
  {
    var s := Cleared();
    assert Find(s, NO_QUEUE) == 0;
  }

  // ---------------------------------------------------------------- runs of one thread

  /** The attempt that a step ends, if it is the enqueue of a counted call. */
  function AttemptOf(c: Core, l: Label): seq<Attempt> {
    if l.Enqueue? && l.thread < |c.threads| && c.threads[l.thread].Submitting? && c.threads[l.thread].counted
    then [Attempt(c.threads[l.thread].call.queue, l.status == CL_SUCCESS)] else []
  }

  /** The attempts of a run, as the vendor answered them. */
  function AttemptsOf(s: E.State, ls: seq<Label>): seq<Attempt> {
    if ls == [] then []
    else
      match E.Run(s, ls[..|ls| - 1])
      case Some(m) => AttemptsOf(s, ls[..|ls| - 1]) + AttemptOf(m.core, ls[|ls| - 1])
      case None => AttemptsOf(s, ls[..|ls| - 1])
  }

  /** The thread has just been counted for a kernel on the queue, and the shim has chosen. */
  predicate AtChoice(s: E.State, q: Queue) {
    |s.core.threads| == 1 && s.core.threads[0].Submitting? && s.core.threads[0].counted
    && s.core.threads[0].call.queue == q
  }

  /** The table has seen the attempts, and the one that is on its way. */
  ghost predicate Tied(s: E.State, h: seq<Attempt>) {
    && |s.core.threads| == 1 && s.window > 0 && E.Coherent(s)
    && var pc := s.core.threads[0];
       if pc.Submitting? && pc.counted
       then s.ticked == QueuesOf(h) + [pc.call.queue] && (pc.wait <==> ShimWaits(h, pc.call.queue, s.window))
       else s.ticked == QueuesOf(h)
  }

  lemma EnqueueIsTied(s: E.State, l: Label, s': E.State, h: seq<Attempt>)
    requires Tied(s, h) && E.Step(s, l) == Some(s') && l.Enqueue?
    ensures Tied(s', h + AttemptOf(s.core, l))
  {
    hide CountAfter, LineOf, Append, QueuesOf, Replay, ShimWaits;
    if AttemptOf(s.core, l) != [] {
      OneMoreAttempt(h, AttemptOf(s.core, l)[0], 0);
    } else {
      assert h + AttemptOf(s.core, l) == h;
    }
  }

  lemma OthersAreTied(s: E.State, l: Label, s': E.State, h: seq<Attempt>)
    requires Tied(s, h) && E.Step(s, l) == Some(s') && !l.Clear? && !l.Enqueue?
    ensures Tied(s', h)
  {
    hide CountAfter, InFlight, Lost, EventComplete, QueuesOf, Replay, QueueTable.Tick;
    E.StepKeepsCoherent(s, l);
  }

  lemma StepKeepsTied(s: E.State, l: Label, s': E.State, h: seq<Attempt>)
    requires Tied(s, h) && E.Step(s, l) == Some(s') && !l.Clear?
    ensures Tied(s', h + AttemptOf(s.core, l))
  {
    hide Tied, E.Step;
    if l.Enqueue? {
      EnqueueIsTied(s, l, s', h);
    } else {
      OthersAreTied(s, l, s', h);
      assert h + AttemptOf(s.core, l) == h;
    }
  }

  lemma {:induction false} RunIsTied(s: E.State, ls: seq<Label>, m: E.State, q: Queue)
    requires Start(s, q) && |s.core.threads| == 1 && E.Run(s, ls) == Some(m) && NeverClears(ls)
    ensures Tied(m, AttemptsOf(s, ls)) && m.window == s.window
  {
    hide E.Step;
    if ls != [] {
      hide E.Run, Tied;
      var before, l := ls[..|ls| - 1], ls[|ls| - 1];
      E.LastStep(s, ls);
      RunIsTied(s, before, E.Run(s, before).value, q);
      StepKeepsTied(E.Run(s, before).value, l, m, AttemptsOf(s, before));
      StepKeepsShape(E.Run(s, before).value, l);
    }
  }

  /** The attempts of one more step. */
  lemma AttemptsStep(s: E.State, ls: seq<Label>, l: Label)
    ensures AttemptsOf(s, ls + [l])
         == AttemptsOf(s, ls) + if E.Run(s, ls).Some? then AttemptOf(E.Run(s, ls).value.core, l) else []
  {
    hide AttemptOf;
    assert (ls + [l])[..|ls|] == ls;
  }

  lemma NoAttempts(s: E.State)
    ensures AttemptsOf(s, []) == []
  {
  }

  lemma {:induction false} AttemptsAddOn(s: E.State, a: seq<Label>, m: E.State, b: seq<Label>)
    requires E.Run(s, a) == Some(m)
    ensures AttemptsOf(s, a + b) == AttemptsOf(s, a) + AttemptsOf(m, b)
    decreases b
  {
    hide *;
    if b == [] {
      NoAttempts(m);
      assert a + b == a;
    } else {
      var before, l := b[..|b| - 1], b[|b| - 1];
      AttemptsAddOn(s, a, m, before);
      E.RunsCompose(s, a, before);
      AttemptsStep(s, a + before, l);
      AttemptsStep(m, before, l);
      assert b == before + [l] && a + b == (a + before) + [l];
      var x := if E.Run(m, before).Some? then AttemptOf(E.Run(m, before).value.core, l) else [];
      AttemptsAssociate(AttemptsOf(s, a), AttemptsOf(m, before), x);
    }
  }

  lemma AttemptsAssociate(a: seq<Attempt>, b: seq<Attempt>, c: seq<Attempt>)
    ensures (a + b) + c == a + (b + c)
  {
  }

  lemma {:induction false} AcceptedAttempts(s: E.State, ls: seq<Label>)
    requires E.Run(s, ls).Some? && forall l | l in ls :: Fine(l)
    ensures forall a | a in AttemptsOf(s, ls) :: a.succeeded
  {
    if ls != [] {
      hide E.Run, E.Step;
      var before, l := ls[..|ls| - 1], ls[|ls| - 1];
      E.LastStep(s, ls);
      AcceptedAttempts(s, before);
    }
  }

  lemma {:induction false} LineStands(s: E.State, ls: seq<Label>, q: Queue)
    requires E.Run(s, ls).Some? && Outstanding(s, q) >= 0
    ensures Outstanding(E.Run(s, ls).value, q) >= 0
  {
    if ls != [] {
      hide E.Step, Outstanding;
      LineStands(s, ls[..|ls| - 1], q);
      LineStandsStep(E.Run(s, ls[..|ls| - 1]).value, ls[|ls| - 1], q);
    }
  }

  lemma LineStandsStep(s: E.State, l: Label, q: Queue)
    requires E.Step(s, l).Some? && Outstanding(s, q) >= 0
    ensures Outstanding(E.Step(s, l).value, q) >= 0
  {
    hide CountAfter, InFlight, Lost, EventComplete;
    if l.Enqueue? { EnqueueEffect(s.core, l.thread, l.status, l.returned); }
  }

  // ---------------------------------------------------------------- a run to the next disagreement

  /** The device finishes everything on the queue. */
  lemma {:induction false} FinishAll(s: E.State, q: Queue, size: nat) returns (ls: seq<Label>, s': E.State)
    requires Ready(s, size) && Outstanding(s, q) >= 0
    ensures Leads(s, ls, s', q) && Ready(s', size) && s'.ticked == s.ticked && s'.core.threads == s.core.threads
    ensures var line := LineOf(s.core.device, q); LineOf(s'.core.device, q) == Line(line.counted, |line.counted|)
    ensures s'.core.device.events == s.core.device.events
    decreases Outstanding(s, q)
  {
    hide Leads, E.Coherent, LineOf;
    if Outstanding(s, q) == 0 {
      NoSteps(s, q);
      ls, s' := [], s;
    } else {
      var a, m := FinishOne(s, q, size);
      var b, n := FinishAll(m, q, size);
      Join(s, a, m, b, n, q);
      ls, s' := a + b, n;
    }
  }

  /** A kernel that is accepted, and waited for if the shim so chooses. */
  lemma AcceptOne(s: E.State, q: Queue, size: nat) returns (ls: seq<Label>, s': E.State)
    requires Ready(s, size) && s.core.threads == [Idle] && Outstanding(s, q) >= 0
    ensures Leads(s, ls, s', q) && Ready(s', size) && s'.core.threads == [Idle] && Outstanding(s', q) >= 0
    ensures s'.ticked == s.ticked + [q]
  {
    hide Leads, E.Coherent;
    var wait := CountAfter(s.table, q) % size == 0;
    var a, m := Count(s, q, size, 0);
    var b, n := Submit(m, q, size, 0, wait);
    Join(s, a, m, b, n, q);
    ls, s' := a + b, n;
    if wait {
      var event := |m.core.device.events| + 1;
      var c, f := FinishAll(n, q, size);
      Join(s, a + b, n, c, f, q);
      assert EventComplete(f.core.device, event);
      var d, g := EndWait(f, q, size, 0, event);
      Join(s, a + b + c, f, d, g, q);
      ls, s' := a + b + c + d, g;
    }
    assert s'.core.threads == [Idle];
  }

  lemma {:induction false} AcceptMany(s: E.State, q: Queue, size: nat, k: nat) returns (ls: seq<Label>, s': E.State)
    requires Ready(s, size) && s.core.threads == [Idle] && Outstanding(s, q) >= 0
    ensures Leads(s, ls, s', q) && Ready(s', size) && s'.core.threads == [Idle] && Outstanding(s', q) >= 0
    ensures s'.ticked == s.ticked + seq(k, _ => q)
  {
    hide Leads, E.Coherent, Outstanding, Ready;
    if k == 0 {
      NoSteps(s, q);
      ls, s' := [], s;
    } else {
      var a, m := AcceptMany(s, q, size, k - 1);
      var b, n := AcceptOne(m, q, size);
      Join(s, a, m, b, n, q);
      assert seq(k - 1, _ => q) + [q] == seq(k, _ => q);
      ls, s' := a + b, n;
    }
  }

  /** From an idle moment: inference is enabled, k kernels are accepted and the next one is counted. */
  lemma ToChoice(s: E.State, q: Queue, k: nat) returns (ls: seq<Label>, s': E.State)
    requires s.core.threads == [Idle] && s.core.symbols == Symbols(true, true, true) && s.window > 0
    requires E.Coherent(s) && Outstanding(s, q) >= 0
    ensures Leads(s, ls, s', q) && AtChoice(s', q) && s'.ticked == s.ticked + seq(k, _ => q) + [q]
  {
    var a := E.Step(s, Exchange(true)).value;
    OneStep(s, Exchange(true), a, q);
    var b, m := AcceptMany(a, q, s.window, k);
    Join(s, [Exchange(true)], a, b, m, q);
    var c, n := Count(m, q, s.window, 0);
    Join(s, [Exchange(true)] + b, m, c, n, q);
    ls, s' := [Exchange(true)] + b + c, n;
  }

  // ---------------------------------------------------------------- the rule over runs

  /** However the run goes on without another failure on the queue, the shim chooses as the rule says. */
  ghost predicate RunsAgree(s: E.State, ls: seq<Label>, q: Queue) {
    forall more, m |
      E.Run(s, ls + more) == Some(m) && NeverClears(more) && AtChoice(m, q) && Tracked(m.ticked, q) && s.window > 0
      && Outcomes(AttemptsOf(s, ls + more), q, false) == Outcomes(AttemptsOf(s, ls), q, false) ::
      m.core.threads[0].wait <==> RuleWaits(AttemptsOf(s, ls + more), q, s.window)
  }

  lemma ChoiceOfRun(s: E.State, ls: seq<Label>, m: E.State, q: Queue)
    requires Start(s, q) && |s.core.threads| == 1 && E.Run(s, ls) == Some(m) && NeverClears(ls)
    requires AtChoice(m, q) && Tracked(m.ticked, q)
    ensures var h := AttemptsOf(s, ls);
            && Tracked(QueuesOf(h) + [q], q) && m.ticked == QueuesOf(h) + [q]
            && (m.core.threads[0].wait <==> ShimWaits(h, q, s.window))
            && (m.core.threads[0].wait <==> (Outcomes(h, q, true) + 1 + Outcomes(h, q, false)) % s.window == 0)
  {
    hide Tracked, ShimWaits, E.Run, AttemptsOf, Outcomes;
    RunIsTied(s, ls, m, q);
    ChoicesAre(AttemptsOf(s, ls), q, s.window);
  }

  /** Once a run of accepted kernels ends in a choice, its attempts are that many accepted ones. */
  lemma AttemptsToChoice(s: E.State, ls: seq<Label>, m: E.State, more: seq<Label>, n: E.State, q: Queue, k: nat)
    requires Start(s, q) && |s.core.threads| == 1 && E.Run(s, ls) == Some(m) && NeverClears(ls) && m.core.threads == [Idle]
    requires Leads(m, more, n, q) && AtChoice(n, q) && n.ticked == m.ticked + seq(k, _ => q) + [q]
    ensures E.Run(s, ls + more) == Some(n) && NeverClears(ls + more)
    ensures AttemptsOf(s, ls + more) == AttemptsOf(s, ls) + Again(q, k)
  {
    hide E.Step, AttemptOf, ShimWaits;
    E.Join(s, ls, m, more, n);
    RunIsTied(s, ls, m, q);
    RunIsTied(s, ls + more, n, q);
    AttemptsAddOn(s, ls, m, more);
    AcceptedAttempts(m, more);
    var h, later := AttemptsOf(s, ls), AttemptsOf(m, more);
    assert QueuesOf(h + later) == QueuesOf(h) + QueuesOf(later);
    assert QueuesOf(h + later) + [q] == QueuesOf(h) + seq(k, _ => q) + [q];
    SameTail(QueuesOf(h), QueuesOf(later), seq(k, _ => q), q);
    forall i | 0 <= i < k ensures later[i] == Attempt(q, true) {
      assert QueuesOf(later)[i] == q && later[i] in later;
    }
    assert later == Again(q, k);
  }

  lemma SameTail(a: seq<Queue>, b: seq<Queue>, c: seq<Queue>, q: Queue)
    requires a + b + [q] == a + c + [q]
    ensures b == c
  {
    assert (a + b + [q])[|a|..] == b + [q] && (a + c + [q])[|a|..] == c + [q];
    assert (b + [q])[..|b|] == b && (c + [q])[..|c|] == c;
  }

  /** Over all runs of one thread, from any moment between two calls: the shim goes on as documented exactly
      when the failures on the queue so far are a multiple of N. */
  lemma RunsFollowTheRule(s: E.State, ls: seq<Label>, m: E.State, q: Queue)
    requires Start(s, q) && |s.core.threads| == 1 && s.core.symbols == Symbols(true, true, true)
    requires E.Run(s, ls) == Some(m) && NeverClears(ls) && m.core.threads == [Idle] && Tracked(m.ticked + [q], q)
    ensures RunsAgree(s, ls, q) <==> Outcomes(AttemptsOf(s, ls), q, false) % s.window == 0
  {
    hide Tracked, ShimWaits, RuleWaits, Outcomes, E.Run, AttemptsOf;
    if Outcomes(AttemptsOf(s, ls), q, false) % s.window == 0 {
      RuleKept(s, ls, q);
    } else {
      RuleBroken(s, ls, m, q);
    }
  }

  lemma RuleKept(s: E.State, ls: seq<Label>, q: Queue)
    requires Start(s, q) && |s.core.threads| == 1 && NeverClears(ls)
    requires Outcomes(AttemptsOf(s, ls), q, false) % s.window == 0
    ensures RunsAgree(s, ls, q)
  {
    hide Tracked, ShimWaits, Outcomes, E.Run, AttemptsOf;
    forall more, m |
      E.Run(s, ls + more) == Some(m) && NeverClears(more) && AtChoice(m, q) && Tracked(m.ticked, q)
      && Outcomes(AttemptsOf(s, ls + more), q, false) == Outcomes(AttemptsOf(s, ls), q, false)
      ensures m.core.threads[0].wait <==> RuleWaits(AttemptsOf(s, ls + more), q, s.window)
    {
      ChoiceOfRun(s, ls + more, m, q);
      Shifted(Outcomes(AttemptsOf(s, ls + more), q, true) + 1, Outcomes(AttemptsOf(s, ls), q, false), s.window);
    }
  }

  lemma RuleBroken(s: E.State, ls: seq<Label>, m: E.State, q: Queue)
    requires Start(s, q) && |s.core.threads| == 1 && s.core.symbols == Symbols(true, true, true)
    requires E.Run(s, ls) == Some(m) && NeverClears(ls) && m.core.threads == [Idle] && Tracked(m.ticked + [q], q)
    requires Outcomes(AttemptsOf(s, ls), q, false) % s.window != 0
    ensures !RunsAgree(s, ls, q)
  {
    hide Tracked, ShimWaits, RuleWaits, Outcomes, E.Run, AttemptsOf, QueuesOf, Again;
    var h := AttemptsOf(s, ls);
    RunIsTied(s, ls, m, q);
    RunKeepsSymbols(s, ls);
    LineStands(s, ls, q);
    var later, k := BreaksLater(h, q, s.window);
    var more, n := ToChoice(m, q, k);
    AttemptsToChoice(s, ls, m, more, n, q, k);
    NoMoreFailures(h, later, q);
    SeenAgain(h, q, k, m.ticked);
    ChoiceOfRun(s, ls + more, n, q);
    assert NeverClears(more) && RuleWaits(AttemptsOf(s, ls + more), q, s.window) && !n.core.threads[0].wait;
  }

  lemma SeenAgain(h: seq<Attempt>, q: Queue, k: nat, ticked: seq<Queue>)
    requires ticked == QueuesOf(h)
    ensures QueuesOf(h + Again(q, k)) + [q] == ticked + seq(k, _ => q) + [q]
  {
  }
}
