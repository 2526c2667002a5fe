/** How commands wake the worker of one label: two atomic flags, any number of
  schedulers and of workers that are on their way out. */
module BrowserWakeup {
  import opened Wrappers

  // ---------------------------------------------------------------------
  // The retry counter of a worker
  // ---------------------------------------------------------------------

  const RETRY_LIMIT: nat := 1

  datatype Action = ReconcileNewestIntent | RetryTimedOutIntent | Stop

  datatype Retries = Retries(revision: Option<nat>, used: nat)

  const NO_RETRIES: Retries := Retries(None, 0)

  /** What the worker's retry counter holds after a timeout. */
  function Counted(s: Retries, revision: nat, newer: bool): (Retries, Action) {
    if newer then (s, ReconcileNewestIntent)
    else
      var used := if s.revision == Some(revision) then s.used else 0;
      if used < RETRY_LIMIT then (Retries(Some(revision), used + 1), RetryTimedOutIntent)
      else (Retries(Some(revision), used), Stop)
  }

  /** How a reconcile ended and whether the dirty flag was up after it. */
  datatype Attempt = Attempt(timedOut: Option<nat>, newer: bool)

  /** Whether the worker makes another attempt, and its counter then. */
  function Continues(s: Retries, a: Attempt): (Retries, bool) {
    match a.timedOut
    case None => (NO_RETRIES, a.newer)
    case Some(revision) =>
      var (t, action) := Counted(s, revision, a.newer);
      (t, action != Stop)
  }

  // ---------------------------------------------------------------------
  // The flags and the threads
  // ---------------------------------------------------------------------

  /** What a worker does next. The first four hold the right to reconcile. */
  datatype Next = ClearDirty | StartReconcile | EndReconcile | ClearRunning | SwapDirty | SwapRunning

  /** `requests` counts the schedule calls that have set the dirty flag, and
      `seen` how many of them came before the newest reconcile that started.
      `entering` counts the calls between their two atomic operations.
      `counters` holds what the retry counter of a worker has counted. */
  datatype Wakeup = Wakeup(
    dirty: bool,
    running: bool,
    entering: nat,
    workers: map<nat, Next>,
    requests: nat,
    seen: nat,
    counters: map<nat, Retries> := map[])

  const IDLE: Wakeup := Wakeup(false, false, 0, map[], 0, 0)

  datatype Event =
    | SetDirty                             // a scheduler: dirty := true
    | Enter(spawned: nat)                  // a scheduler: swap running, spawn a worker if it was clear
    | Clear(w: nat)                        // top of the loop: dirty := false
    | Start(w: nat)                        // reconcile reads the newest intent
    | End(w: nat, timedOut: Option<nat>)   // reconcile returned: swap dirty, loop again or leave
    | Release(w: nat)                      // running := false
    | Recheck(w: nat)                      // swap dirty
    | Reclaim(w: nat)                      // swap running
    | Retire(w: nat)                       // the last three as a single step

  function ActorNext(e: Event): Next
    requires !e.SetDirty? && !e.Enter?
  {
    match e
    case Clear(_) => ClearDirty
    case Start(_) => StartReconcile
    case End(_, _) => EndReconcile
    case Release(_) => ClearRunning
    case Recheck(_) => SwapDirty
    case Reclaim(_) => SwapRunning
    case Retire(_) => ClearRunning
  }

  predicate Enabled(s: Wakeup, e: Event) {
    match e
    case SetDirty => true
    case Enter(spawned) => s.entering > 0 && spawned !in s.workers
    case _ => e.w in s.workers && s.workers[e.w] == ActorNext(e)
  }

  function Goto(s: Wakeup, w: nat, next: Next): Wakeup {
    s.(workers := s.workers[w := next])
  }

  function Exit(s: Wakeup, w: nat): Wakeup {
    s.(workers := s.workers - {w})
  }

  function CounterOf(s: Wakeup, w: nat): Retries {
    if w in s.counters then s.counters[w] else NO_RETRIES
  }

  function Counting(counters: map<nat, Retries>, w: nat, counter: Retries): map<nat, Retries> {
    if counter != NO_RETRIES then counters[w := counter]
    else if w in counters then counters - {w}
    else counters
  }

  function After(s: Wakeup, e: Event): Wakeup
    requires Enabled(s, e)
  {
    match e
    case SetDirty => s.(dirty := true, requests := s.requests + 1, entering := s.entering + 1)
    case Enter(spawned) =>
      var t := s.(entering := s.entering - 1);
      if s.running then t
      else Goto(t.(running := true, counters := Counting(t.counters, spawned, NO_RETRIES)), spawned, ClearDirty)
    case Clear(w) => Goto(s.(dirty := false), w, StartReconcile)
    case Start(w) => Goto(s.(seen := s.requests), w, EndReconcile)
    case End(w, timedOut) =>
      var (counter, goesOn) := Continues(CounterOf(s, w), Attempt(timedOut, s.dirty));
      Goto(s.(dirty := false, counters := Counting(s.counters, w, counter)), w,
           if goesOn then ClearDirty else ClearRunning)
    case Release(w) => Goto(s.(running := false), w, SwapDirty)
    case Recheck(w) =>
      if s.dirty then Goto(s.(dirty := false), w, SwapRunning) else Exit(s, w)
    case Reclaim(w) =>
      if s.running then Exit(s, w) else Goto(s.(running := true), w, ClearDirty)
    case Retire(w) =>
      if s.dirty then Goto(s.(dirty := false), w, ClearDirty) else Exit(s.(running := false), w)
  }

  /** A worker goes on after an attempt exactly if a newer intent is pending or
      the revision that timed out has its one retry left. */
  lemma GoesOnExactly(s: Wakeup, w: nat, timedOut: Option<nat>)
    requires Enabled(s, End(w, timedOut))
    ensures After(s, End(w, timedOut)).workers[w] == ClearDirty <==>
            s.dirty || (timedOut.Some? && (CounterOf(s, w).revision == timedOut ==> CounterOf(s, w).used == 0))
    ensures After(s, End(w, timedOut)).workers[w] in {ClearDirty, ClearRunning} && !After(s, End(w, timedOut)).dirty
    ensures s.dirty && timedOut.Some? ==> CounterOf(After(s, End(w, timedOut)), w) == CounterOf(s, w)
    ensures !s.dirty && timedOut.Some? ==> CounterOf(After(s, End(w, timedOut)), w).revision == timedOut
  {
  }

  // ---------------------------------------------------------------------
  // Who owns reconciliation
  // ---------------------------------------------------------------------

  predicate Owns(s: Wakeup, w: nat) {
    w in s.workers && s.workers[w] != SwapDirty && s.workers[w] != SwapRunning
  }

  /** The flag is up exactly when one worker owns reconciliation. */
  ghost predicate OneOwner(s: Wakeup) {
    && s.seen <= s.requests
    && (s.running <==> exists w :: Owns(s, w))
    && (forall v, w | Owns(s, v) && Owns(s, w) :: v == w)
  }

  lemma EveryStepKeepsOneOwner(s: Wakeup, e: Event)
    requires OneOwner(s) && Enabled(s, e)
    ensures OneOwner(After(s, e))
  {
    var t := After(s, e);
    if e.SetDirty? {
      assert forall w :: Owns(t, w) <==> Owns(s, w);
    } else if e.Enter? {
      assert forall w | w != e.spawned :: Owns(t, w) <==> Owns(s, w);
      assert !s.running ==> Owns(t, e.spawned);
    } else {
      assert forall w | w != e.w :: Owns(t, w) <==> Owns(s, w);
      if s.running && !Owns(s, e.w) {
        var o :| Owns(s, o);
        assert Owns(t, o);
      } else if t.running {
        assert Owns(t, e.w);
      } else {
        assert Owns(s, e.w) ==> forall w | w != e.w :: !Owns(s, w);
      }
    }
  }

  // ---------------------------------------------------------------------
  // Who is due to see a request
  // ---------------------------------------------------------------------

  ghost predicate At(s: Wakeup, next: Next) {
    exists w :: w in s.workers && s.workers[w] == next
  }

  /** Every request has been seen, or a reconcile that will start later is
      certain: some thread must either start one, or read the dirty flag that
      is still up. */
  ghost predicate Due(s: Wakeup) {
    || s.seen == s.requests
    || At(s, ClearDirty) || At(s, StartReconcile)
    || (!s.running && At(s, SwapRunning))
    || (s.dirty && (s.entering > 0 || At(s, EndReconcile) || At(s, ClearRunning) || At(s, SwapDirty)))
  }

  /** A retiring worker takes the dirty flag away from an owner that has
      already read the intents. */
  ghost predicate Steals(s: Wakeup, e: Event) {
    && e.Recheck? && s.dirty && s.running && s.seen < s.requests
    && !At(s, ClearDirty) && !At(s, StartReconcile)
  }

  /** A step keeps every request due exactly when it is not such a steal. */
  lemma OnlyStealsLose(s: Wakeup, e: Event)
    requires OneOwner(s) && Due(s) && Enabled(s, e)
    ensures Due(After(s, e)) <==> !Steals(s, e)
  {
    match e
    case SetDirty => DueAfterScheduler(s, e);
    case Enter(_) => DueAfterScheduler(s, e);
    case _ =>
      if Owns(s, e.w) {
        DueAfterOwner(s, e);
      } else {
        DueAfterLeaver(s, e);
      }
  }

  lemma StaysAt(s: Wakeup, t: Wakeup, w: nat, next: Next)
    requires forall v | v in s.workers && v != w :: v in t.workers && t.workers[v] == s.workers[v]
    requires At(s, next) && (w !in s.workers || s.workers[w] != next)
    ensures At(t, next)
  {
    var v :| v in s.workers && s.workers[v] == next;
    assert v in t.workers && t.workers[v] == next;
  }

  lemma DueAfterScheduler(s: Wakeup, e: Event)
    requires OneOwner(s) && Due(s) && Enabled(s, e) && (e.SetDirty? || e.Enter?)
    ensures Due(After(s, e))
  {
    var t := After(s, e);
    if e.Enter? {
      if !s.running {
        assert t.workers[e.spawned] == ClearDirty;
      } else if s.seen < s.requests && s.dirty {
        var w :| Owns(s, w);
        assert w in t.workers && t.workers[w] == s.workers[w];
      }
    }
  }

  lemma DueAfterOwner(s: Wakeup, e: Event)
    requires OneOwner(s) && Due(s) && Enabled(s, e) && !e.SetDirty? && !e.Enter? && Owns(s, e.w)
    ensures Due(After(s, e))
  {
    var t := After(s, e);
    var w := e.w;
    assert w in t.workers ==> At(t, t.workers[w]);
    if e.End? {
      GoesOnExactly(s, w, e.timedOut);
    }
    if e.End? || e.Release? || e.Retire? {
      assert forall v | v in s.workers && (s.workers[v] == ClearDirty || s.workers[v] == StartReconcile) :: Owns(s, v);
      assert !At(s, ClearDirty) && !At(s, StartReconcile) && s.running;
    }
  }

  lemma DueAfterLeaver(s: Wakeup, e: Event)
    requires OneOwner(s) && Due(s) && Enabled(s, e) && !e.SetDirty? && !e.Enter? && !Owns(s, e.w)
    ensures Due(After(s, e)) <==> !Steals(s, e)
  {
    var t := After(s, e);
    var w := e.w;
    assert w in t.workers ==> At(t, t.workers[w]);
    forall next | At(s, next) && next != s.workers[w]
      ensures At(t, next)
    {
      StaysAt(s, t, w, next);
    }
    if Steals(s, e) {
      assert !At(t, ClearDirty) && !At(t, StartReconcile);
    } else if s.running {
      var o :| Owns(s, o);
      assert At(s, s.workers[o]);
    }
  }

  // ---------------------------------------------------------------------
  // Runs
  // ---------------------------------------------------------------------

  ghost predicate IsRun(states: seq<Wakeup>, events: seq<Event>) {
    && |states| == |events| + 1
    && states[0] == IDLE
    && (forall k | 0 <= k < |events| :: Enabled(states[k], events[k]) && states[k + 1] == After(states[k], events[k]))
  }

  predicate Quiescent(s: Wakeup) {
    s.workers == map[] && s.entering == 0
  }

  /** In the code as it is, `running` stands for exactly one owner at every
      point of every run, and a run without a steal loses no request. */
  lemma {:induction false} RunsWithoutStealsLoseNothing(states: seq<Wakeup>, events: seq<Event>)
    requires IsRun(states, events)
    ensures OneOwner(states[|events|])
    ensures (forall k | 0 <= k < |events| :: !Steals(states[k], events[k])) ==> Due(states[|events|])
    decreases |events|
  {
    if events != [] {
      var n := |events| - 1;
      RunsWithoutStealsLoseNothing(states[..n + 1], events[..n]);
      EveryStepKeepsOneOwner(states[n], events[n]);
      if forall k | 0 <= k < |events| :: !Steals(states[k], events[k]) {
        OnlyStealsLose(states[n], events[n]);
      }
    }
  }

  /** A set dirty flag has somebody left who will act on it: a scheduler between
      its two operations, or a worker that clears or reads it later. */
  ghost predicate Watched(s: Wakeup) {
    s.dirty ==> s.entering > 0 || exists w :: w in s.workers && s.workers[w] != SwapRunning
  }

  lemma EveryStepKeepsWatched(s: Wakeup, e: Event)
    requires OneOwner(s) && Watched(s) && Enabled(s, e)
    ensures Watched(After(s, e))
  {
    var t := After(s, e);
    if t.dirty && !e.SetDirty? {
      if s.running && !(e.Release? && Owns(s, e.w)) {
        var o :| Owns(s, o);
        assert o in t.workers && t.workers[o] != SwapRunning;
      } else if e.Enter? {
        assert t.workers[e.spawned] == ClearDirty;
      } else {
        assert t.workers[e.w] != SwapRunning;
      }
    }
  }

  /** Steals or not: the dirty flag never stays up with nobody left to see it,
      and once all threads have left both flags are down, so the next command
      gets a worker. */
  lemma {:induction false} DirtyIsAlwaysWatched(states: seq<Wakeup>, events: seq<Event>)
    requires IsRun(states, events)
    ensures OneOwner(states[|events|]) && Watched(states[|events|])
    ensures Quiescent(states[|events|]) ==> !states[|events|].dirty && !states[|events|].running
    decreases |events|
  {
    if events != [] {
      var n := |events| - 1;
      DirtyIsAlwaysWatched(states[..n + 1], events[..n]);
      EveryStepKeepsOneOwner(states[n], events[n]);
      EveryStepKeepsWatched(states[n], events[n]);
    }
  }

  /** No worker is ever between the three last operations. */
  ghost predicate LeavesInOneStep(events: seq<Event>) {
    forall k | 0 <= k < |events| :: !events[k].Release?
  }

  /** With the last three operations as one step no request is ever lost: when
      every thread has left, a reconcile started after the last request. */
  lemma AtomicRetirementLosesNothing(states: seq<Wakeup>, events: seq<Event>)
    requires IsRun(states, events) && LeavesInOneStep(events)
    ensures Due(states[|events|])
    ensures Quiescent(states[|events|]) ==> states[|events|].seen == states[|events|].requests
  {
    forall k | 0 <= k < |events|
      ensures !Steals(states[k], events[k])
    {
      NobodyLeaves(states[..k + 1], events[..k]);
    }
    RunsWithoutStealsLoseNothing(states, events);
  }

  lemma NobodyStartsLeaving(s: Wakeup, e: Event)
    requires Enabled(s, e) && !e.Release? && !At(s, SwapDirty) && !At(s, SwapRunning)
    ensures !At(After(s, e), SwapDirty) && !At(After(s, e), SwapRunning)
  {
    var t := After(s, e);
    forall v | v in t.workers
      ensures t.workers[v] != SwapDirty && t.workers[v] != SwapRunning
    {
      assert v in s.workers ==> At(s, s.workers[v]);
    }
  }

  lemma {:induction false} NobodyLeaves(states: seq<Wakeup>, events: seq<Event>)
    requires IsRun(states, events) && LeavesInOneStep(events)
    ensures !At(states[|events|], SwapDirty) && !At(states[|events|], SwapRunning)
    decreases |events|
  {
    if events != [] {
      var n := |events| - 1;
      NobodyLeaves(states[..n + 1], events[..n]);
      NobodyStartsLeaving(states[n], events[n]);
    }
  }

  /** An undisturbed pass is the last one: the worker leaves, both flags are
      down and every request was seen. */
  lemma AloneWorkerLeaves(s: Wakeup, w: nat) returns (t: Wakeup)
    requires s.workers == map[w := ClearDirty] && s.running
    ensures var s1 := After(s, Clear(w));
            var s2 := After(s1, Start(w));
            var s3 := After(s2, End(w, None));
            var s4 := After(s3, Release(w));
            t == After(s4, Recheck(w))
    ensures t.workers == map[] && !t.dirty && !t.running && t.seen == t.requests == s.requests
  {
    t := s;
    t := After(t, Clear(w));
    t := After(t, Start(w));
    t := After(t, End(w, None));
    t := After(t, Release(w));
    t := After(t, Recheck(w));
  }

  // ---------------------------------------------------------------------
  // The lost wakeup
  // ---------------------------------------------------------------------

  lemma Extend(states: seq<Wakeup>, events: seq<Event>, e: Event) returns (more: seq<Wakeup>, longer: seq<Event>)
    requires |states| == |events| + 1 && IsRun(states, events) && Enabled(states[|events|], e)
    ensures |longer| == |events| + 1 && |more| == |longer| + 1 && IsRun(more, longer)
    ensures more[|longer|] == After(states[|events|], e)
  {
    more, longer := states + [After(states[|events|], e)], events + [e];
  }

  /** A first worker serves a request and stalls after clearing `running`. */
  lemma FirstWorkerStalls() returns (states: seq<Wakeup>, events: seq<Event>)
    ensures |states| == |events| + 1 && IsRun(states, events)
    ensures states[|events|] == Wakeup(false, false, 0, map[0 := SwapDirty], 1, 1)
  {
    states, events := [IDLE], [];
    assert IsRun(states, events);
    hide IsRun;
    states, events := Extend(states, events, SetDirty);
    states, events := Extend(states, events, Enter(0));
    states, events := Extend(states, events, Clear(0));
    states, events := Extend(states, events, Start(0));
    states, events := Extend(states, events, End(0, None));
    states, events := Extend(states, events, Release(0));
    assert states[|events|].workers == map[0 := SwapDirty];
  }

  /** A second request gets its own worker, which reads the intents; the third
      request relies on that worker. */
  lemma ThirdRequestRelies() returns (states: seq<Wakeup>, events: seq<Event>)
    ensures |states| == |events| + 1 && IsRun(states, events)
    ensures states[|events|] == Wakeup(true, true, 0, map[0 := SwapDirty, 1 := EndReconcile], 3, 2)
  {
    hide IsRun;
    states, events := FirstWorkerStalls();
    states, events := Extend(states, events, SetDirty);
    states, events := Extend(states, events, Enter(1));
    states, events := Extend(states, events, Clear(1));
    states, events := Extend(states, events, Start(1));
    states, events := Extend(states, events, SetDirty);
    states, events := Extend(states, events, Enter(2));
    assert states[|events|].workers == map[0 := SwapDirty, 1 := EndReconcile];
  }

  /** The first worker takes the flag of the third request and leaves, and so
      does the second: all threads are gone, and no reconcile started after the
      last request. */
  lemma ARequestCanBeLost() returns (states: seq<Wakeup>, events: seq<Event>)
    ensures |states| == |events| + 1 && IsRun(states, events) && Quiescent(states[|events|])
    ensures states[|events|].seen < states[|events|].requests
  {
    hide IsRun;
    states, events := ThirdRequestRelies();
    states, events := Extend(states, events, Recheck(0));
    states, events := Extend(states, events, Reclaim(0));
    states, events := Extend(states, events, End(1, None));
    states, events := Extend(states, events, Release(1));
    states, events := Extend(states, events, Recheck(1));
    assert states[|events|].workers == map[];
  }

  // ---------------------------------------------------------------------
  // Retrying after a timeout
  // ---------------------------------------------------------------------

  class EnvironmentCallbackTimeoutRetryState {
    var revision: Option<nat>
    var retriesUsed: nat

    ghost function View(): Retries
      reads this
    {
      Retries(revision, retriesUsed)
    }

    constructor ()
      ensures View() == NO_RETRIES
    {
      revision, retriesUsed := None, 0;
    }

    method NextAction(timedOutRevision: nat, newerIntentPending: bool) returns (action: Action)
      modifies this
      ensures (View(), action) == Counted(old(View()), timedOutRevision, newerIntentPending)
      ensures action == ReconcileNewestIntent <==> newerIntentPending
      ensures newerIntentPending ==> View() == old(View())
      ensures !newerIntentPending ==> View().revision == Some(timedOutRevision)
      ensures !newerIntentPending && old(revision) != Some(timedOutRevision) ==> action == RetryTimedOutIntent
    {
      if newerIntentPending {
        return ReconcileNewestIntent;
      }
      if revision != Some(timedOutRevision) {
        revision, retriesUsed := Some(timedOutRevision), 0;
      }
      if retriesUsed < RETRY_LIMIT {
        retriesUsed := retriesUsed + 1;
        action := RetryTimedOutIntent;
      } else {
        action := Stop;
      }
    }

    method Reset()
      modifies this
      ensures View() == NO_RETRIES
    {
      revision, retriesUsed := None, 0;
    }
  }

  /** The counter after a worker made all these attempts in a row. */
  function CounterAfter(s: Retries, attempts: seq<Attempt>): Retries {
    if attempts == [] then s
    else Continues(CounterAfter(s, attempts[..|attempts| - 1]), attempts[|attempts| - 1]).0
  }

  /** The worker went on after each of the attempts. */
  predicate WentOn(s: Retries, attempts: seq<Attempt>) {
    attempts == [] ||
    var before := attempts[..|attempts| - 1];
    WentOn(s, before) && Continues(CounterAfter(s, before), attempts[|attempts| - 1]).1
  }

  /** How many attempts timed out with no newer intent pending. */
  function Fruitless(attempts: seq<Attempt>): nat {
    if attempts == [] then 0
    else Fruitless(attempts[..|attempts| - 1])
         + (if attempts[|attempts| - 1].timedOut.Some? && !attempts[|attempts| - 1].newer then 1 else 0)
  }

  /** An unchanged revision that keeps timing out is tried at most twice,
      whatever the counter held before. */
  lemma TriedAtMostTwice(s: Retries, attempts: seq<Attempt>, revision: nat)
    requires forall k | 0 <= k < |attempts| :: attempts[k].timedOut == Some(revision)
    requires attempts != [] && WentOn(s, attempts[..|attempts| - 1])
    ensures Fruitless(attempts) <= 2
  {
    SurvivedAtMostOnce(s, attempts[..|attempts| - 1], revision);
  }

  lemma {:induction false} SurvivedAtMostOnce(s: Retries, attempts: seq<Attempt>, revision: nat)
    requires forall k | 0 <= k < |attempts| :: attempts[k].timedOut == Some(revision)
    requires WentOn(s, attempts)
    ensures Fruitless(attempts) <= 1
    ensures Fruitless(attempts) == 1 ==>
      CounterAfter(s, attempts).revision == Some(revision) && CounterAfter(s, attempts).used >= RETRY_LIMIT
    decreases |attempts|
  {
    if attempts != [] {
      SurvivedAtMostOnce(s, attempts[..|attempts| - 1], revision);
    }
  }

  // ---------------------------------------------------------------------
  // What the counter remembers
  // ---------------------------------------------------------------------

  predicate TimedOutInVain(a: Attempt, revision: nat) {
    a.timedOut == Some(revision) && !a.newer
  }

  /** The revision has timed out with nothing newer pending, and since then no
      attempt ended otherwise and no other revision timed out like that. */
  ghost predicate RetryUsed(attempts: seq<Attempt>, revision: nat) {
    exists k | 0 <= k < |attempts| ::
      && TimedOutInVain(attempts[k], revision)
      && forall j | k < j < |attempts| ::
           attempts[j].timedOut.Some? && (attempts[j].newer || attempts[j].timedOut == Some(revision))
  }

  lemma RetryUsedThen(attempts: seq<Attempt>, a: Attempt, revision: nat)
    ensures RetryUsed(attempts + [a], revision) <==>
            || TimedOutInVain(a, revision)
            || (RetryUsed(attempts, revision) && a.timedOut.Some? && (a.newer || a.timedOut == Some(revision)))
  {
    var all := attempts + [a];
    var n := |attempts|;
    assert all[n] == a && forall k | 0 <= k < n :: all[k] == attempts[k];
    if RetryUsed(attempts, revision) && a.timedOut.Some? && (a.newer || a.timedOut == Some(revision)) {
      var k :| 0 <= k < n && TimedOutInVain(attempts[k], revision)
        && forall j | k < j < n ::
             attempts[j].timedOut.Some? && (attempts[j].newer || attempts[j].timedOut == Some(revision));
      assert TimedOutInVain(all[k], revision);
    }
    if TimedOutInVain(a, revision) {
      assert TimedOutInVain(all[n], revision);
    }
    if RetryUsed(all, revision) && !TimedOutInVain(a, revision) {
      var k :| 0 <= k < |all| && TimedOutInVain(all[k], revision)
        && forall j | k < j < |all| ::
             all[j].timedOut.Some? && (all[j].newer || all[j].timedOut == Some(revision));
      assert k < n && all[n].timedOut.Some?;
      assert TimedOutInVain(attempts[k], revision);
    }
  }

  /** The counter of a worker after any attempts holds exactly the revision
      whose retry is used up. */
  lemma {:induction false} CounterRemembers(attempts: seq<Attempt>, revision: nat)
    ensures CounterAfter(NO_RETRIES, attempts) == Retries(Some(revision), 1) <==> RetryUsed(attempts, revision)
    ensures var c := CounterAfter(NO_RETRIES, attempts); c == NO_RETRIES || (c.revision.Some? && c.used == 1)
    decreases |attempts|
  {
    if attempts != [] {
      var before, a := attempts[..|attempts| - 1], attempts[|attempts| - 1];
      assert before + [a] == attempts;
      CounterRemembers(before, revision);
      RetryUsedThen(before, a, revision);
      hide RetryUsed;
    }
  }

  /** After any attempts, a worker makes another one exactly if a newer intent
      is pending, or the last attempt timed out and its revision has not used
      its retry. */
  lemma AnotherAttemptExactlyIf(attempts: seq<Attempt>, a: Attempt)
    ensures Continues(CounterAfter(NO_RETRIES, attempts), a).1 <==>
            a.newer || (a.timedOut.Some? && !RetryUsed(attempts, a.timedOut.value))
  {
    hide RetryUsed;
    CounterRemembers(attempts, if a.timedOut.Some? then a.timedOut.value else 0);
  }

  /** The attempts a worker has made since it was spawned. */
  ghost function AttemptsOf(states: seq<Wakeup>, events: seq<Event>, w: nat): seq<Attempt>
    requires |states| == |events| + 1
    decreases |events|
  {
    if events == [] then []
    else
      var n := |events| - 1;
      var before := AttemptsOf(states[..n + 1], events[..n], w);
      if events[n] == Enter(w) && !states[n].running then []
      else if events[n].End? && events[n].w == w then before + [Attempt(events[n].timedOut, states[n].dirty)]
      else before
  }

  lemma CounterThen(s: Wakeup, e: Event, w: nat)
    requires Enabled(s, e)
    ensures CounterOf(After(s, e), w) ==
            if e == Enter(w) && !s.running then NO_RETRIES
            else if e.End? && e.w == w then Continues(CounterOf(s, w), Attempt(e.timedOut, s.dirty)).0
            else CounterOf(s, w)
  {
    hide Continues;
  }

  lemma CounterAfterOneMore(attempts: seq<Attempt>, a: Attempt)
    ensures CounterAfter(NO_RETRIES, attempts + [a]) == Continues(CounterAfter(NO_RETRIES, attempts), a).0
  {
    assert (attempts + [a])[..|attempts|] == attempts;
  }

  lemma {:induction false} CounterIsOfItsAttempts(states: seq<Wakeup>, events: seq<Event>, w: nat)
    requires IsRun(states, events)
    ensures CounterOf(states[|events|], w) == CounterAfter(NO_RETRIES, AttemptsOf(states, events, w))
    decreases |events|
  {
    if events != [] {
      var n := |events| - 1;
      CounterIsOfItsAttempts(states[..n + 1], events[..n], w);
      var before := AttemptsOf(states[..n + 1], events[..n], w);
      CounterThen(states[n], events[n], w);
      if events[n].End? {
        CounterAfterOneMore(before, Attempt(events[n].timedOut, states[n].dirty));
      }
      hide CounterOf, Continues, After, Enabled;
    }
  }

  /** In every run: when a pass of a worker returns, the worker makes another
      exactly if a request came since it last cleared the flag, or the pass
      timed out and its revision has not used its retry in this worker. */
  lemma EveryWorkerGoesOnExactlyIf(states: seq<Wakeup>, events: seq<Event>, w: nat, timedOut: Option<nat>)
    requires IsRun(states, events) && Enabled(states[|events|], End(w, timedOut))
    ensures After(states[|events|], End(w, timedOut)).workers[w] ==
            if states[|events|].dirty
               || (timedOut.Some? && !RetryUsed(AttemptsOf(states, events, w), timedOut.value))
            then ClearDirty else ClearRunning
  {
    hide RetryUsed;
    CounterIsOfItsAttempts(states, events, w);
    AnotherAttemptExactlyIf(AttemptsOf(states, events, w), Attempt(timedOut, states[|events|].dirty));
  }
}
