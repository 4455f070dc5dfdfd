/** The per-queue dispatch table of the experimental shim: 32 slots, filled in first-seen order,
    with slot 0 reused once the table is full. */
module QueueTable {
  import opened Counting

  /** A cl_command_queue handle; 0 is the NULL handle. */
  type Queue = nat

  const NO_QUEUE: Queue := 0
  const MAX_TRACKED_QUEUES := 32

  datatype Slot = Slot(queue: Queue, dispatches: nat)

  type Table = s: seq<Slot> | |s| == MAX_TRACKED_QUEUES witness seq(MAX_TRACKED_QUEUES, _ => Slot(NO_QUEUE, 0))

  function Cleared(): (s: Table)
    ensures forall i | 0 <= i < |s| :: s[i] == Slot(NO_QUEUE, 0)
  {
    seq(MAX_TRACKED_QUEUES, _ => Slot(NO_QUEUE, 0))
  }

  /** The first index that holds the queue, or the length when there is none. */
  function Find(s: seq<Slot>, q: Queue): (i: nat)
    ensures i <= |s|
    ensures i < |s| ==> s[i].queue == q
    ensures forall j | 0 <= j < i :: s[j].queue != q
  {
    if s == [] then 0
    else if s[0].queue == q then 0
    else 1 + Find(s[1..], q)
  }

  /** The slot a dispatch on the queue selects: its own, else the first empty one, else slot 0. */
  function Selected(s: Table, q: Queue): (i: nat)
    ensures i < MAX_TRACKED_QUEUES
  {
    var own := Find(s, q);
    if own < |s| then own
    else
      var empty := Find(s, NO_QUEUE);
      if empty < |s| then empty else 0
  }

  /** The count the selected slot holds after this dispatch. */
  function CountAfter(s: Table, q: Queue): nat {
    if Find(s, q) < |s| then s[Find(s, q)].dispatches + 1 else 1
  }

  function Tick(s: Table, q: Queue): Table {
    s[Selected(s, q) := Slot(q, CountAfter(s, q))]
  }

  // ---------------------------------------------------------------- histories

  /** The table after the dispatches of h, in order, since it was last cleared. */
  function Replay(h: seq<Queue>): Table {
    if h == [] then Cleared() else Tick(Replay(h[..|h| - 1]), h[|h| - 1])
  }

  /** The true number of dispatches of the queue in h. */
  function Dispatches(h: seq<Queue>, q: Queue): nat {
    if h == [] then 0
    else Dispatches(h[..|h| - 1], q) + if h[|h| - 1] == q then 1 else 0
  }

  /** The distinct non-NULL queues of h in the order they first appear. */
  function FirstSeen(h: seq<Queue>): seq<Queue> {
    if h == [] then []
    else
      var before := FirstSeen(h[..|h| - 1]);
      var q := h[|h| - 1];
      if q == NO_QUEUE || q in before then before else before + [q]
  }

  /** No dispatch of h finds the table full of other queues. A NULL dispatch needs an empty slot too. */
  predicate Fits(h: seq<Queue>) {
    h == [] ||
    (Fits(h[..|h| - 1]) &&
     (h[|h| - 1] in FirstSeen(h[..|h| - 1]) || |FirstSeen(h[..|h| - 1])| < MAX_TRACKED_QUEUES))
  }

  /** The queue was never dispatched, or was first seen 2nd to 32nd, or was first seen 1st and no
      dispatch evicted it. */
  predicate Tracked(h: seq<Queue>, q: Queue) {
    var seen := FirstSeen(h);
    q != NO_QUEUE &&
    (q in seen ==>
       || q in seen[1..if |seen| < MAX_TRACKED_QUEUES then |seen| else MAX_TRACKED_QUEUES]
       || (q == seen[0] && Fits(h)))
  }

  ghost predicate Distinct(s: seq<Queue>) {
    forall i, j | 0 <= i < j < |s| :: s[i] != s[j]
  }

  /** What the table says about the history: slots 1 to 31 are exact, slot 0 may only under-count. */
  ghost predicate Represents(s: Table, h: seq<Queue>) {
    RepresentsSeen(s, h, FirstSeen(h))
  }

  ghost predicate RepresentsSeen(s: Table, h: seq<Queue>, seen: seq<Queue>) {
    && (forall i | 1 <= i < |s| && i < |seen| :: s[i] == Slot(seen[i], Dispatches(h, seen[i])))
    && (forall i | |seen| <= i < |s| :: s[i].queue == NO_QUEUE)
    && (Fits(h) && seen != [] ==> s[0] == Slot(seen[0], Dispatches(h, seen[0])))
    && (!Fits(h) ==>
          && |seen| >= MAX_TRACKED_QUEUES
          && (forall i | 1 <= i < |s| :: s[0].queue != s[i].queue)
          && (s[0].queue != NO_QUEUE ==> s[0].queue in seen && s[0].dispatches <= Dispatches(h, s[0].queue))
          && (s[0].queue == seen[0] ==> s[0].dispatches < Dispatches(h, seen[0])))
  }

  lemma {:induction false} FirstSeenFacts(h: seq<Queue>)
    ensures Distinct(FirstSeen(h))
    ensures forall q :: q in FirstSeen(h) <==> q in h && q != NO_QUEUE
  {
    if h != [] {
      FirstSeenFacts(h[..|h| - 1]);
      assert h == h[..|h| - 1] + [h[|h| - 1]];
    }
  }

  lemma {:induction false} DispatchesPositive(h: seq<Queue>, q: Queue)
    ensures q in h <==> Dispatches(h, q) > 0
  {
    if h != [] {
      DispatchesPositive(h[..|h| - 1], q);
      assert h == h[..|h| - 1] + [h[|h| - 1]];
    }
  }

  /** A history that does not fit has already filled all slots, and one that fits fills at most all. */
  lemma {:induction false} UnfitMeansFull(h: seq<Queue>)
    ensures |FirstSeen(h)| < MAX_TRACKED_QUEUES ==> Fits(h)
    ensures Fits(h) ==> |FirstSeen(h)| <= MAX_TRACKED_QUEUES
  {
    if h != [] { UnfitMeansFull(h[..|h| - 1]); }
  }

  /** How one more dispatch changes the history's facts. */
  lemma OneMore(h: seq<Queue>, q: Queue)
    ensures FirstSeen(h + [q]) == if q == NO_QUEUE || q in FirstSeen(h) then FirstSeen(h) else FirstSeen(h) + [q]
    ensures Fits(h + [q]) <==> Fits(h) && (q in FirstSeen(h) || |FirstSeen(h)| < MAX_TRACKED_QUEUES)
    ensures forall x :: Dispatches(h + [q], x) == Dispatches(h, x) + if x == q then 1 else 0
  {
    assert (h + [q])[..|h|] == h;
  }

  lemma TickRepresents(s: Table, h: seq<Queue>, q: Queue)
    requires Represents(s, h)
    ensures Represents(Tick(s, q), h + [q])
  {
    hide RepresentsSeen, Tick;
    if q in FirstSeen(h) {
      TickSeenRepresents(s, h, q);
    } else if |FirstSeen(h)| < |s| {
      TickFreeSlot(s, h, q);
    } else {
      TickFullTable(s, h, q);
    }
  }

  /** A new queue, or the NULL one, and an empty slot. */
  lemma TickFreeSlot(s: Table, h: seq<Queue>, q: Queue)
    requires Represents(s, h) && q !in FirstSeen(h) && |FirstSeen(h)| < |s|
    ensures Represents(Tick(s, q), h + [q])
  {
    hide Fits, Dispatches, FirstSeen, RepresentsSeen, Tick;
    OneMore(h, q);
    FirstSeenFacts(h);
    UnfitMeansFull(h);
    DispatchesPositive(h, q);
    TickFirstEmpty(s, h, FirstSeen(h), q);
  }

  lemma TickFirstEmpty(s: Table, h: seq<Queue>, seen: seq<Queue>, q: Queue)
    requires RepresentsSeen(s, h, seen) && |seen| < |s| && q !in seen && NO_QUEUE !in seen
    requires Fits(h) && Fits(h + [q]) && (q == NO_QUEUE || Dispatches(h, q) == 0)
    requires forall x :: Dispatches(h + [q], x) == Dispatches(h, x) + if x == q then 1 else 0
    ensures RepresentsSeen(Tick(s, q), h + [q], if q == NO_QUEUE then seen else seen + [q])
  {
    hide Fits, Dispatches;
    assert forall j | 0 <= j < |seen| :: s[j].queue == seen[j] && seen[j] != q && seen[j] != NO_QUEUE;
    assert s[|seen|].queue == NO_QUEUE && Find(s, NO_QUEUE) == |seen|;
    assert q != NO_QUEUE ==> Find(s, q) == |s|;
    assert Selected(s, q) == |seen|;
    var t := Tick(s, q);
    assert t == s[|seen| := Slot(q, CountAfter(s, q))];
    assert q != NO_QUEUE ==> CountAfter(s, q) == 1;
  }

  /** A new queue, or the NULL one, and no empty slot: it takes slot 0. */
  lemma TickFullTable(s: Table, h: seq<Queue>, q: Queue)
    requires Represents(s, h) && q !in FirstSeen(h) && |FirstSeen(h)| >= |s|
    ensures Represents(Tick(s, q), h + [q])
  {
    hide Fits, Dispatches, FirstSeen;
    OneMore(h, q);
    FirstSeenFacts(h);
    UnfitMeansFull(h);
    DispatchesPositive(h, q);
    var seen := FirstSeen(h);
    assert forall j | 1 <= j < |s| :: s[j].queue == seen[j] && seen[j] in seen && s[j].queue != q;
    assert Selected(s, q) == 0;
  }

  lemma TickSeenRepresents(s: Table, h: seq<Queue>, q: Queue)
    requires Represents(s, h) && q in FirstSeen(h)
    ensures Represents(Tick(s, q), h + [q])
  {
    var seen := FirstSeen(h);
    var k :| 0 <= k < |seen| && seen[k] == q;
    OneMore(h, q);
    FirstSeenFacts(h);
    UnfitMeansFull(h);
    DispatchesPositive(h, q);
    if 1 <= k < |s| { TickOwnSlot(s, h, seen, k); } else { TickSlotZero(s, h, seen, k); }
  }

  lemma TickOwnSlot(s: Table, h: seq<Queue>, seen: seq<Queue>, k: nat)
    requires RepresentsSeen(s, h, seen) && Distinct(seen) && 1 <= k < |s| && k < |seen| && NO_QUEUE !in seen
    requires Fits(h + [seen[k]]) <==> Fits(h)
    requires forall x :: Dispatches(h + [seen[k]], x) == Dispatches(h, x) + if x == seen[k] then 1 else 0
    ensures RepresentsSeen(Tick(s, seen[k]), h + [seen[k]], seen)
  {
    assert forall j | 1 <= j < |s| && j < |seen| && j != k :: s[j].queue == seen[j] && seen[j] != seen[k];
    assert s[k].queue == seen[k] && s[0].queue != seen[k];
    assert Selected(s, seen[k]) == k;
  }

  lemma TickSlotZero(s: Table, h: seq<Queue>, seen: seq<Queue>, k: nat)
    requires RepresentsSeen(s, h, seen) && Distinct(seen) && k < |seen| && (k == 0 || k >= |s|) && NO_QUEUE !in seen
    requires (Fits(h) ==> |seen| <= |s|) && Dispatches(h, seen[k]) > 0
    requires Fits(h + [seen[k]]) <==> Fits(h)
    requires forall x :: Dispatches(h + [seen[k]], x) == Dispatches(h, x) + if x == seen[k] then 1 else 0
    ensures RepresentsSeen(Tick(s, seen[k]), h + [seen[k]], seen)
  {
    assert forall j | 1 <= j < |s| && j < |seen| :: s[j].queue == seen[j] && seen[j] != seen[k];
    assert Selected(s, seen[k]) == 0;
  }

  lemma {:induction false} ReplayRepresents(h: seq<Queue>)
    ensures Represents(Replay(h), h)
  {
    if h != [] {
      ReplayRepresents(h[..|h| - 1]);
      TickRepresents(Replay(h[..|h| - 1]), h[..|h| - 1], h[|h| - 1]);
      assert h == h[..|h| - 1] + [h[|h| - 1]];
    }
  }

  // ---------------------------------------------------------------- theorems

  /** The table holds the queue with exactly this count. */
  ghost predicate Holds(s: Table, q: Queue, n: nat) {
    exists i | 0 <= i < |s| :: s[i] == Slot(q, n)
  }

  /** A tracked queue's next dispatch is counted exactly, whatever the other queues did. */
  lemma TrackedCountIsExact(h: seq<Queue>, q: Queue)
    requires Tracked(h + [q], q)
    ensures CountAfter(Replay(h), q) == Dispatches(h + [q], q)
  {
    if q in FirstSeen(h) { SeenCountIsExact(h, q); } else { NewCountIsOne(h, q); }
  }

  lemma SeenCountIsExact(h: seq<Queue>, q: Queue)
    requires Tracked(h + [q], q) && q in FirstSeen(h)
    ensures CountAfter(Replay(h), q) == Dispatches(h + [q], q)
  {
    hide Replay, Dispatches, FirstSeen;
    OneMore(h, q);
    ReplayRepresents(h);
    FirstSeenFacts(h);
    UnfitMeansFull(h);
    var s, seen := Replay(h), FirstSeen(h);
    var k :| 0 <= k < |seen| && seen[k] == q;
    assert k < |s| && s[k] == Slot(q, Dispatches(h, q));
    assert Find(s, q) <= k;
    assert forall j | 0 <= j < k :: s[j].queue != q;
  }

  lemma NewCountIsOne(h: seq<Queue>, q: Queue)
    requires Tracked(h + [q], q) && q !in FirstSeen(h)
    ensures CountAfter(Replay(h), q) == Dispatches(h + [q], q)
  {
    hide Replay, Dispatches, FirstSeen;
    OneMore(h, q);
    ReplayRepresents(h);
    FirstSeenFacts(h);
    DispatchesPositive(h, q);
    var s, seen := Replay(h), FirstSeen(h);
    assert forall j | 1 <= j < |s| && j < |seen| :: s[j].queue == seen[j] && seen[j] in seen;
    assert Find(s, q) == |s|;
  }

  /** Being tracked is never regained: a queue tracked after more dispatches was tracked before them. */
  lemma TrackedBefore(h: seq<Queue>, x: Queue, q: Queue)
    requires Tracked(h + [x], q)
    ensures Tracked(h, q)
  {
    var h' := h + [x];
    assert h'[..|h'| - 1] == h;
    FirstSeenFacts(h);
    FirstSeenFacts(h');
    var seen, seen' := FirstSeen(h), FirstSeen(h');
    if q in seen {
      var k :| 0 <= k < |seen| && seen[k] == q;
      assert seen'[k] == q;
      if 1 <= k < MAX_TRACKED_QUEUES {
        assert seen[1..if |seen| < MAX_TRACKED_QUEUES then |seen| else MAX_TRACKED_QUEUES][k - 1] == q;
      }
    }
  }

  /** The table implements a map from queues to true counts exactly while the history fits. In
      particular 32 queues followed by one NULL dispatch already lose the first queue's count. */
  lemma MapExactlyWhileItFits(h: seq<Queue>)
    ensures Fits(h) <==> forall q | q in h && q != NO_QUEUE :: Holds(Replay(h), q, Dispatches(h, q))
  {
    ReplayRepresents(h);
    FirstSeenFacts(h);
    UnfitMeansFull(h);
    var s, seen := Replay(h), FirstSeen(h);
    if Fits(h) {
      forall q | q in h && q != NO_QUEUE ensures Holds(s, q, Dispatches(h, q)) {
        var k :| 0 <= k < |seen| && seen[k] == q;
        assert s[k] == Slot(q, Dispatches(h, q));
      }
    } else {
      var q := seen[0];
      assert q in seen;
      assert forall j | 1 <= j < |s| :: s[j].queue == seen[j] && seen[j] != q;
      assert !Holds(s, q, Dispatches(h, q));
    }
  }

  /** The first k queue handles, one dispatch each. */
  function OneEach(k: nat): (h: seq<Queue>)
    ensures |h| == k
  {
    seq(k, i => i + 1)
  }

  lemma {:induction false} OneEachIsSeenInOrder(k: nat)
    ensures FirstSeen(OneEach(k)) == OneEach(k)
  {
    if k > 0 {
      OneEachIsSeenInOrder(k - 1);
      assert OneEach(k)[..k - 1] == OneEach(k - 1);
      assert OneEach(k) == OneEach(k - 1) + [k];
    }
  }

  /** With only 32 distinct queues ever counted, one NULL dispatch already evicts the first of them. */
  lemma NullDispatchEvicts(h: seq<Queue>)
    requires h == OneEach(32) + [NO_QUEUE]
    ensures |FirstSeen(h)| == 32
    ensures !exists n :: Holds(Replay(h), 1, n)
  {
    OneEachIsSeenInOrder(MAX_TRACKED_QUEUES);
    var before := OneEach(MAX_TRACKED_QUEUES);
    assert h[..|h| - 1] == before;
    ReplayRepresents(before);
    var s := Replay(before);
    assert forall i | 1 <= i < |s| :: s[i].queue == i + 1;
    UnfitMeansFull(h);
    ReplayRepresents(h);
    assert !Fits(h);
    assert FirstSeen(h) == before;
    var s' := Replay(h);
    assert forall i | 1 <= i < |s'| :: s'[i].queue == i + 1;
    assert Selected(s, NO_QUEUE) == 0;
  }

  /** However many queues there are, no queue occupies two slots, the queues first seen 2nd to 32nd
      keep exact counts, and slot 0 never over-counts the queue it holds. */
  lemma LossIsConfinedToSlotZero(h: seq<Queue>)
    ensures forall i, j | 0 <= i < j < MAX_TRACKED_QUEUES ::
              Replay(h)[i].queue == Replay(h)[j].queue ==> Replay(h)[i].queue == NO_QUEUE
    ensures forall i | 1 <= i < MAX_TRACKED_QUEUES && i < |FirstSeen(h)| ::
              Replay(h)[i] == Slot(FirstSeen(h)[i], Dispatches(h, FirstSeen(h)[i]))
    ensures Replay(h)[0].queue != NO_QUEUE ==>
              Replay(h)[0].dispatches <= Dispatches(h, Replay(h)[0].queue)
  {
    ReplayRepresents(h);
    FirstSeenFacts(h);
    UnfitMeansFull(h);
    var s, seen := Replay(h), FirstSeen(h);
    assert forall i | 1 <= i < |s| && i < |seen| :: s[i].queue == seen[i];
  }

  /** How often dispatches of the queue were chosen to wait, with window n. */
  function WaitsChosen(h: seq<Queue>, q: Queue, n: nat): nat
    requires n > 0
  {
    if h == [] then 0
    else
      var before := h[..|h| - 1];
      WaitsChosen(before, q, n)
      + if h[|h| - 1] == q && CountAfter(Replay(before), q) % n == 0 then 1 else 0
  }

  /** A tracked queue waits after exactly every n-th of its own dispatches. */
  lemma {:induction false} TrackedWaitPoints(h: seq<Queue>, q: Queue, n: nat)
    requires n > 0 && Tracked(h, q)
    ensures WaitsChosen(h, q, n) == Dispatches(h, q) / n
  {
    if h == [] {
      assert 0 / n == 0;
    } else {
      var before, x := h[..|h| - 1], h[|h| - 1];
      assert h == before + [x];
      TrackedBefore(before, x, q);
      TrackedWaitPoints(before, q, n);
      TrackedWaitChoice(before, x, q, n);
    }
  }

  lemma TrackedWaitChoice(before: seq<Queue>, x: Queue, q: Queue, n: nat)
    requires n > 0 && Tracked(before + [x], q)
    ensures Dispatches(before + [x], q) / n == Dispatches(before, q) / n
              + if x == q && CountAfter(Replay(before), q) % n == 0 then 1 else 0
  {
    OneMore(before, x);
    if x == q {
      TrackedCountIsExact(before, q);
      NextQuotient(Dispatches(before, q), n);
    }
  }

  /** Waits chosen over all non-NULL queues. */
  function AllWaitsChosen(h: seq<Queue>, n: nat): nat
    requires n > 0
  {
    if h == [] then 0
    else
      var before, q := h[..|h| - 1], h[|h| - 1];
      AllWaitsChosen(before, n)
      + if q != NO_QUEUE && CountAfter(Replay(before), q) % n == 0 then 1 else 0
  }

  function SumOfQuotients(queues: seq<Queue>, h: seq<Queue>, n: nat): nat
    requires n > 0
  {
    if queues == [] then 0
    else SumOfQuotients(queues[..|queues| - 1], h, n) + Dispatches(h, queues[|queues| - 1]) / n
  }

  lemma {:induction false} SumAfterDispatch(queues: seq<Queue>, h: seq<Queue>, q: Queue, n: nat)
    requires n > 0 && Distinct(queues)
    ensures SumOfQuotients(queues, h + [q], n) == SumOfQuotients(queues, h, n)
              + if q in queues then Dispatches(h + [q], q) / n - Dispatches(h, q) / n else 0
  {
    if queues != [] {
      var rest, x := queues[..|queues| - 1], queues[|queues| - 1];
      SumAfterDispatch(rest, h, q, n);
      assert queues == rest + [x];
      assert (h + [q])[..|h|] == h;
    }
  }

  /** One more dispatch of a non-NULL queue changes the sum by the wait it is chosen for. */
  lemma SumStep(before: seq<Queue>, q: Queue, n: nat)
    requires n > 0 && Fits(before + [q]) && q != NO_QUEUE
    ensures SumOfQuotients(FirstSeen(before + [q]), before + [q], n)
         == SumOfQuotients(FirstSeen(before), before, n)
            + if CountAfter(Replay(before), q) % n == 0 then 1 else 0
  {
    hide Fits, Dispatches, FirstSeen, CountAfter, Replay, Tracked;
    OneMore(before, q);
    FirstSeenFacts(before);
    var seen := FirstSeen(before);
    SumAfterDispatch(seen, before, q, n);
    FitMeansTracked(before + [q], q);
    TrackedCountIsExact(before, q);
    NextQuotient(Dispatches(before, q), n);
    if q !in seen {
      DispatchesPositive(before, q);
      assert (seen + [q])[..|seen|] == seen;
      assert 0 / n == 0;
    }
  }

  /** While the history fits, waits are chosen exactly the sum over its queues of count / n times. */
  lemma {:induction false} AllWaitPoints(h: seq<Queue>, n: nat)
    requires n > 0 && Fits(h)
    ensures AllWaitsChosen(h, n) == SumOfQuotients(FirstSeen(h), h, n)
  {
    if h != [] {
      hide CountAfter, Replay;
      var before, q := h[..|h| - 1], h[|h| - 1];
      assert h == before + [q];
      AllWaitPoints(before, n);
      if q == NO_QUEUE {
        FirstSeenFacts(before);
        SumAfterDispatch(FirstSeen(before), before, q, n);
      } else {
        SumStep(before, q, n);
      }
    }
  }

  lemma FitMeansTracked(h: seq<Queue>, q: Queue)
    requires Fits(h) && q != NO_QUEUE
    ensures Tracked(h, q)
  {
    UnfitMeansFull(h);
    var seen := FirstSeen(h);
    if q in seen {
      var k :| 0 <= k < |seen| && seen[k] == q;
      if k > 0 { assert seen[1..|seen|][k - 1] == q; }
    }
  }

  // ---------------------------------------------------------------- one queue alone

  lemma {:induction false} OnlyThisQueue(h: seq<Queue>, q: Queue)
    requires q != NO_QUEUE && forall x | x in h :: x == q
    ensures Fits(h) && FirstSeen(h) == (if h == [] then [] else [q]) && Dispatches(h, q) == |h|
  {
    if h != [] {
      var before := h[..|h| - 1];
      assert h == before + [h[|h| - 1]] && h[|h| - 1] in h;
      forall x | x in before ensures x == q { assert x in h; }
      OnlyThisQueue(before, q);
    }
  }

  lemma CountIs(h: seq<Queue>, q: Queue)
    requires q != NO_QUEUE && forall x | x in h :: x == q
    ensures CountAfter(Replay(h), q) == |h| + 1
  {
    OnlyThisQueue(h, q);
    OnlyThisQueue(h + [q], q);
    FitMeansTracked(h + [q], q);
    TrackedCountIsExact(h, q);
  }
}
