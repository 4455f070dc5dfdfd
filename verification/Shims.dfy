/** The experimental shim: a window read once at start-up and the table of per-queue counters. */
module ExperimentalShim {
  import opened QueueTable
  import opened ShimCore
  import opened Wrappers

  /** `ticked` is history: the queues of the dispatches counted since the table was last cleared. */
  datatype State = State(core: Core, window: nat, table: Table, ticked: seq<Queue>)

  function Lift(s: State, c: Option<Core>): Option<State> {
    match c
    case Some(core) => Some(s.(core := core))
    case None => None
  }

  function LoadFlagStep(s: State, t: Thread): Option<Core> {
    if t >= |s.core.threads| || !s.core.threads[t].Entered? then None
    else
      var call := s.core.threads[t].call;
      if s.window == 0 || !s.core.memory.enabled then Some(Goto(s.core, t, Submitting(call, false, false)))
      else Some(Goto(s.core, t, Counting(call)))
  }

  /** The critical section of should_wait_after_dispatch and the decision it returns. */
  function TickStep(s: State, t: Thread): Option<State> {
    if t >= |s.core.threads| || !s.core.threads[t].Ticking? || s.window == 0 then None
    else
      var call := s.core.threads[t].call;
      var wait := CountAfter(s.table, call.queue) % s.window == 0;
      Some(s.(core := Goto(s.core, t, Submitting(call, true, wait)),
              table := QueueTable.Tick(s.table, call.queue),
              ticked := s.ticked + [call.queue]))
  }

  function ClearStep(s: State, t: Thread): Option<State> {
    if !IsAt(s.core, t, Clearing) then None
    else Some(s.(core := Goto(s.core, t, Idle), table := Cleared(), ticked := []))
  }

  function Step(s: State, l: Label): Option<State> {
    match l
    case LoadFlag(t) => Lift(s, LoadFlagStep(s, t))
    case Bump(t) =>
      if t < |s.core.threads| && s.core.threads[t].Counting?
      then Lift(s, BumpStep(s.core, t, Ticking(s.core.threads[t].call))) else None
    case Tick(t) => TickStep(s, t)
    case Zero(t, cell) => Lift(s, ZeroStep(s.core, t, cell, Clearing))
    case Clear(t) => ClearStep(s, t)
    case _ => Lift(s, CommonStep(s.core, l))
  }

  function Run(s: State, ls: seq<Label>): Option<State> {
    if ls == [] then Some(s)
    else
      match Run(s, ls[..|ls| - 1])
      case Some(m) => Step(m, ls[|ls| - 1])
      case None => None
  }

  /** A run and one more step. */
  lemma Extend(s: State, ls: seq<Label>, m: State, l: Label, m': State)
    requires Run(s, ls) == Some(m) && Step(m, l) == Some(m')
    ensures Run(s, ls + [l]) == Some(m')
  {
    assert (ls + [l])[..|ls|] == ls;
  }

  /** The last step of a run. */
  lemma LastStep(s: State, ls: seq<Label>)
    requires ls != [] && Run(s, ls).Some?
    ensures ls == ls[..|ls| - 1] + [ls[|ls| - 1]] && ls[|ls| - 1] in ls
    ensures forall l | l in ls[..|ls| - 1] :: l in ls
    ensures Run(s, ls[..|ls| - 1]).Some? && Step(Run(s, ls[..|ls| - 1]).value, ls[|ls| - 1]) == Run(s, ls)
  {
    hide Step;
  }

  lemma OneStep(s: State, l: Label, s': State)
    requires Step(s, l) == Some(s')
    ensures Run(s, [l]) == Some(s')
  {
    assert [l][..0] == [];
  }

  lemma {:induction false} RunsCompose(s: State, a: seq<Label>, b: seq<Label>)
    requires Run(s, a).Some?
    ensures Run(s, a + b) == Run(Run(s, a).value, b)
  {
    if b == [] {
      assert a + b == a;
    } else {
      RunsCompose(s, a, b[..|b| - 1]);
      assert (a + b)[..|a + b| - 1] == a + b[..|b| - 1];
    }
  }

  /** Two runs, one after the other. */
  lemma Join(s: State, ls: seq<Label>, m: State, more: seq<Label>, m': State)
    requires Run(s, ls) == Some(m) && Run(m, more) == Some(m')
    ensures Run(s, ls + more) == Some(m')
  {
    RunsCompose(s, ls, more);
  }

  /** The history and the table agree. */
  ghost predicate Coherent(s: State) {
    s.table == Replay(s.ticked)
  }

  lemma StepKeepsCoherent(s: State, l: Label)
    requires Coherent(s) && Step(s, l).Some?
    ensures Coherent(Step(s, l).value)
  {
    if l.Tick? {
      var q := s.core.threads[l.thread].call.queue;
      assert (s.ticked + [q])[..|s.ticked|] == s.ticked;
    }
  }
}

/** The production shim: the same protocol fixed at one wait per kernel, without a table. */
module ProductionShim {
  import opened ShimCore
  import opened Wrappers

  function LoadFlagStep(c: Core, t: Thread): Option<Core> {
    if t >= |c.threads| || !c.threads[t].Entered? then None
    else if c.memory.enabled then Some(Goto(c, t, Counting(c.threads[t].call)))
    else Some(Goto(c, t, Submitting(c.threads[t].call, false, false)))
  }

  function Step(c: Core, l: Label): Option<Core> {
    match l
    case LoadFlag(t) => LoadFlagStep(c, t)
    case Bump(t) =>
      if t < |c.threads| && c.threads[t].Counting?
      then BumpStep(c, t, Submitting(c.threads[t].call, true, true)) else None
    case Zero(t, cell) => ZeroStep(c, t, cell, Idle)
    case Tick(_) => None
    case Clear(_) => None
    case _ => CommonStep(c, l)
  }

  function Run(c: Core, ls: seq<Label>): Option<Core> {
    if ls == [] then Some(c)
    else
      match Run(c, ls[..|ls| - 1])
      case Some(m) => Step(m, ls[|ls| - 1])
      case None => None
  }

  /** A run and one more step. */
  lemma Extend(c: Core, ls: seq<Label>, m: Core, l: Label, m': Core)
    requires Run(c, ls) == Some(m) && Step(m, l) == Some(m')
    ensures Run(c, ls + [l]) == Some(m')
  {
    assert (ls + [l])[..|ls|] == ls;
  }

  lemma OneStep(c: Core, l: Label, c': Core)
    requires Step(c, l) == Some(c')
    ensures Run(c, [l]) == Some(c')
  {
    assert [l][..0] == [];
  }

  lemma {:induction false} RunsCompose(c: Core, a: seq<Label>, b: seq<Label>)
    requires Run(c, a).Some?
    ensures Run(c, a + b) == Run(Run(c, a).value, b)
  {
    if b == [] {
      assert a + b == a;
    } else {
      RunsCompose(c, a, b[..|b| - 1]);
      assert (a + b)[..|a + b| - 1] == a + b[..|b| - 1];
    }
  }

  /** Two runs, one after the other. */
  lemma Join(c: Core, ls: seq<Label>, m: Core, more: seq<Label>, m': Core)
    requires Run(c, ls) == Some(m) && Run(m, more) == Some(m')
    ensures Run(c, ls + more) == Some(m')
  {
    RunsCompose(c, ls, more);
  }
}
