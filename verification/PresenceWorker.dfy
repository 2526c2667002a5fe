/** The reconnecting presence worker: one caller that keeps starting bounded
  operations, next to the threads of all the operations it has abandoned. */
module PresenceWorker {
  import opened BoundedOperations

  /** Durations in nanoseconds; the longest has 64 bits of seconds. */
  datatype Timing = Timing(retryDelay: nat, maxRetryDelay: nat, refreshDelay: nat, maxStranded: nat)

  const MAX_DURATION: nat := 18_446_744_073_709_551_615_999_999_999

  function Min(a: nat, b: nat): nat {
    if a < b then a else b
  }

  /** Doubling saturates at the longest duration. */
  function NextBackoff(current: nat, t: Timing): nat {
    Min(Min(2 * current, MAX_DURATION), t.maxRetryDelay)
  }

  /** The result of an operation that returned: the IPC call succeeded or the
      connection is of no more use. */
  const SUCCESS: nat := 0

  datatype Phase = AtCheck | Connecting(k: nat) | Connected | Publishing(k: nat) | Done

  /** `slept` is how long the worker last slept. */
  datatype World = World(machine: Machine, phase: Phase, backoff: nat, slept: nat)

  function Initial(t: Timing): World {
    World(NO_CALLS, AtCheck, t.retryDelay, 0)
  }

  datatype Step =
    | Check                                // top of the outer loop
    | Publish                              // top of the inner loop
    | Return                               // the pending operation has returned
    | SpawnFails                           // no thread could be started
    | Quit                                 // keep_running says no
    | Inside(event: Event)                 // a step inside an operation

  predicate Pending(w: World) {
    (w.phase.Connecting? || w.phase.Publishing?) && w.phase.k < |w.machine.calls|
  }

  predicate Can(w: World, s: Step, t: Timing) {
    match s
    case Check => w.phase == AtCheck
    case Publish => w.phase == Connected
    case Return => Pending(w) && w.machine.calls[w.phase.k].caller.Returned?
    case SpawnFails => w.phase == Connected || (w.phase == AtCheck && w.machine.stranded < t.maxStranded)
    case Quit => w.phase == AtCheck || w.phase == Connected
    case Inside(e) => !e.StartCall? && Enabled(w.machine, e)
  }

  function BackOff(w: World, t: Timing): World {
    var backoff := NextBackoff(w.backoff, t);
    w.(phase := AtCheck, backoff := backoff, slept := backoff)
  }

  function Next(w: World, s: Step, t: Timing): World
    requires Can(w, s, t)
  {
    match s
    case Check =>
      if w.machine.stranded >= t.maxStranded then w.(slept := w.backoff)
      else w.(machine := After(w.machine, StartCall), phase := Connecting(|w.machine.calls|))
    case Publish => w.(machine := After(w.machine, StartCall), phase := Publishing(|w.machine.calls|))
    case Return =>
      var outcome := w.machine.calls[w.phase.k].caller.outcome;
      if !outcome.Completed? then BackOff(w, t)
      else if outcome.value != SUCCESS then
        w.(phase := AtCheck, slept := if w.phase.Connecting? then t.retryDelay else w.backoff)
      else if w.phase.Connecting? then w.(phase := Connected)
      else w.(phase := Connected, backoff := t.retryDelay, slept := t.refreshDelay)
    case SpawnFails => BackOff(w, t)
    case Quit => w.(phase := Done)
    case Inside(e) => w.(machine := After(w.machine, e))
  }

  // ---------------------------------------------------------------------
  // The bound on abandoned threads
  // ---------------------------------------------------------------------

  /** Slots taken up by calls other than the pending one. */
  ghost function OtherSlots(w: World): int {
    AllSlots(w.machine.calls) - (if Pending(w) then Slots(w.machine.calls[w.phase.k]) else 0)
  }

  ghost predicate Bounded(w: World, t: Timing) {
    && Counted(w.machine)
    && (w.phase.Connecting? || w.phase.Publishing? ==> Pending(w))
    && (forall k | 0 <= k < |w.machine.calls| ::
          w.machine.calls[k].caller.Returned? || (Pending(w) && k == w.phase.k))
    && OtherSlots(w) + (if w.phase == AtCheck || w.phase == Done then 0 else 1) <= t.maxStranded
  }

  lemma BoundedIsEnough(w: World, t: Timing)
    requires Bounded(w, t)
    ensures 0 <= w.machine.stranded <= t.maxStranded
  {
  }

  lemma StartCallKeepsSlots(m: Machine)
    requires Counted(m)
    ensures Counted(After(m, StartCall)) && AllSlots(After(m, StartCall).calls) == AllSlots(m.calls)
  {
    EveryStepKeepsCounted(m, StartCall);
  }

  /** After the caller has returned, only the thread moves. */
  lemma ReturnedStays(c: Call, e: Event)
    requires c.caller.Returned? && !e.StartCall? && CallEnabled(c, e)
    ensures CallAfter(c, e).caller == c.caller && Change(e) <= 0
  {
  }

  lemma InsideKeepsBounded(w: World, e: Event, t: Timing)
    requires Bounded(w, t) && !e.StartCall? && Enabled(w.machine, e)
    ensures Bounded(Next(w, Inside(e), t), t)
  {
    var c := w.machine.calls[e.k];
    var d := CallAfter(c, e);
    StepKeepsGood(c, e);
    EveryStepKeepsCounted(w.machine, e);
    SlotsUpdate(w.machine.calls, e.k, d);
    if c.caller.Returned? {
      ReturnedStays(c, e);
    }
    var v := Next(w, Inside(e), t);
    UpdateKeepsBounded(w, v, e.k, d, t);
  }

  lemma UpdateKeepsBounded(w: World, v: World, k: nat, d: Call, t: Timing)
    requires Bounded(w, t) && Counted(v.machine) && v.phase == w.phase
    requires k < |w.machine.calls| && v.machine.calls == w.machine.calls[k := d]
    requires AllSlots(v.machine.calls) == AllSlots(w.machine.calls) - Slots(w.machine.calls[k]) + Slots(d)
    requires w.machine.calls[k].caller.Returned? ==> d.caller.Returned? && Slots(d) <= Slots(w.machine.calls[k])
    ensures Bounded(v, t)
  {
    hide AllSlots, Slots, Counted;
    assert Pending(v) == Pending(w);
    assert OtherSlots(v) <= OtherSlots(w);
  }

  lemma EveryStepKeepsBounded(w: World, s: Step, t: Timing)
    requires Bounded(w, t) && Can(w, s, t)
    ensures Bounded(Next(w, s, t), t)
  {
    if s.Inside? {
      InsideKeepsBounded(w, s.event, t);
    } else if s == Return {
      ReturnKeepsBounded(w, t);
    } else if s == Publish || (s == Check && w.machine.stranded < t.maxStranded) {
      StartKeepsBounded(w, Next(w, s, t), t);
    } else {
      hide AllSlots, Slots, Counted, Good;
    }
  }

  /** A call is started only with a slot to spare. */
  lemma StartKeepsBounded(w: World, v: World, t: Timing)
    requires Bounded(w, t) && v.machine == After(w.machine, StartCall)
    requires (v.phase.Connecting? || v.phase.Publishing?) && v.phase.k == |w.machine.calls|
    requires w.phase == Connected || (w.phase == AtCheck && w.machine.stranded < t.maxStranded)
    ensures Bounded(v, t)
  {
    StartCallKeepsSlots(w.machine);
    assert Slots(NEW_CALL) == 0;
    hide AllSlots, Slots;
  }

  /** A completed operation has given its slot back; a call that timed out may
      keep the one that was left for it. */
  lemma ReturnKeepsBounded(w: World, t: Timing)
    requires Bounded(w, t) && Can(w, Return, t)
    ensures Bounded(Next(w, Return, t), t)
  {
    var c := w.machine.calls[w.phase.k];
    assert Good(c);
    assert c.caller.outcome.Completed? ==> Slots(c) == 0;
    hide AllSlots, Good;
  }

  // ---------------------------------------------------------------------
  // The backoff
  // ---------------------------------------------------------------------

  function Backoff(t: Timing, failures: nat): nat {
    if failures == 0 then t.retryDelay else NextBackoff(Backoff(t, failures - 1), t)
  }

  function Pow2(n: nat): nat {
    if n == 0 then 1 else 2 * Pow2(n - 1)
  }

  /** After the n-th timeout in a row the delay has doubled n times, up to the
      ceiling. */
  lemma {:induction false} BackoffDoubles(t: Timing, failures: nat)
    requires failures > 0 && t.maxRetryDelay <= MAX_DURATION
    ensures Backoff(t, failures) == Min(t.retryDelay * Pow2(failures), t.maxRetryDelay)
  {
    if failures > 1 {
      BackoffDoubles(t, failures - 1);
      assert t.retryDelay * Pow2(failures) == 2 * (t.retryDelay * Pow2(failures - 1));
    } else {
      assert Backoff(t, 0) == t.retryDelay && Pow2(1) == 2;
    }
  }

  // ---------------------------------------------------------------------
  // Runs
  // ---------------------------------------------------------------------

  ghost predicate WorkerRun(worlds: seq<World>, steps: seq<Step>, t: Timing) {
    && |worlds| == |steps| + 1
    && worlds[0] == Initial(t)
    && (forall k | 0 <= k < |steps| :: Can(worlds[k], steps[k], t) && worlds[k + 1] == Next(worlds[k], steps[k], t))
  }

  /** The step ends an operation in vain: it timed out, or its thread stopped
      or could not be started. */
  ghost predicate InVain(w: World, s: Step) {
    s == SpawnFails
    || (s == Return && Pending(w) && w.machine.calls[w.phase.k].caller.Returned?
        && !w.machine.calls[w.phase.k].caller.outcome.Completed?)
  }

  ghost predicate Publishes(w: World, s: Step) {
    && s == Return && Pending(w) && w.phase.Publishing?
    && w.machine.calls[w.phase.k].caller == Returned(Completed(SUCCESS))
  }

  /** How many operations were in vain since the last successful publish. */
  ghost function Failures(worlds: seq<World>, steps: seq<Step>): nat
    requires |worlds| == |steps| + 1
    decreases |steps|
  {
    if steps == [] then 0
    else
      var n := |steps| - 1;
      if Publishes(worlds[n], steps[n]) then 0
      else Failures(worlds[..n + 1], steps[..n]) + (if InVain(worlds[n], steps[n]) then 1 else 0)
  }

  /** However its operations block, finish or panic, the worker never has more
      than the allowed number of abandoned threads, and its backoff is that of
      the failures since the last publish. */
  lemma {:induction false} StrandedStaysBounded(worlds: seq<World>, steps: seq<Step>, t: Timing)
    requires WorkerRun(worlds, steps, t)
    ensures Bounded(worlds[|steps|], t)
    ensures forall k | 0 <= k <= |steps| :: 0 <= worlds[k].machine.stranded <= t.maxStranded
    ensures worlds[|steps|].backoff == Backoff(t, Failures(worlds, steps))
    decreases |steps|
  {
    hide Bounded, Can, Next, NextBackoff, Backoff, Initial, InVain, Publishes;
    var n := |steps|;
    if n == 0 {
      InitialIsBounded(t);
    } else {
      StrandedStaysBounded(worlds[..n], steps[..n - 1], t);
      EveryStepKeepsBounded(worlds[n - 1], steps[n - 1], t);
      BackoffStep(worlds[n - 1], steps[n - 1], t, Failures(worlds[..n], steps[..n - 1]));
    }
    BoundedIsEnough(worlds[n], t);
  }

  lemma InitialIsBounded(t: Timing)
    ensures Bounded(Initial(t), t) && Initial(t).backoff == Backoff(t, 0)
  {
  }

  lemma BackoffStep(w: World, s: Step, t: Timing, failures: nat)
    requires Can(w, s, t) && w.backoff == Backoff(t, failures)
    ensures Next(w, s, t).backoff ==
            if Publishes(w, s) then Backoff(t, 0)
            else if InVain(w, s) then Backoff(t, failures + 1)
            else Backoff(t, failures)
  {
  }

  // ---------------------------------------------------------------------
  // The worker goes on
  // ---------------------------------------------------------------------

  /** No call ends the worker: it is done exactly if it was told to quit. */
  lemma {:induction false} OnlyQuittingEnds(worlds: seq<World>, steps: seq<Step>, t: Timing)
    requires WorkerRun(worlds, steps, t)
    ensures worlds[|steps|].phase == Done <==> Quit in steps
    decreases |steps|
  {
    var n := |steps|;
    if n > 0 {
      OnlyQuittingEnds(worlds[..n], steps[..n - 1], t);
      assert steps == steps[..n - 1] + [steps[n - 1]];
    }
  }

  /** After an operation in vain it sleeps for the new backoff, after a refused
      connection for the retry delay, after a lost one for the backoff and after
      a publish for the refresh delay. */
  lemma SleepsExactly(w: World, s: Step, t: Timing)
    requires Can(w, s, t) && !s.Inside? && !s.Publish? && !s.Quit?
    ensures var v := Next(w, s, t);
            && (InVain(w, s) ==> v.phase == AtCheck && v.slept == v.backoff)
            && (Publishes(w, s) ==> v.phase == Connected && v.slept == t.refreshDelay)
            && (s == Check ==>
                  if w.machine.stranded < t.maxStranded then v.phase.Connecting? && Pending(v)
                  else v == w.(slept := w.backoff))
            && (s == Return && !InVain(w, s) && !Publishes(w, s) ==>
                  if w.machine.calls[w.phase.k].caller.outcome.value == SUCCESS
                  then v == w.(phase := Connected)
                  else v == w.(phase := AtCheck, slept := if w.phase.Connecting? then t.retryDelay else w.backoff))
  {
  }

  /** The operation that was just started runs and completes in time. */
  function Served(w: World, t: Timing): World
    requires Pending(w) && w.machine.calls[w.phase.k] == NEW_CALL
  {
    var k := w.phase.k;
    var w1 := Next(w, Inside(Complete(k, SUCCESS)), t);
    var w2 := Next(w1, Inside(Decide(k)), t);
    var w3 := Next(w2, Inside(Send(k)), t);
    var w4 := Next(w3, Inside(ReceiveInTime(k)), t);
    Next(w4, Return, t)
  }

  lemma ServedGoesOn(w: World, t: Timing)
    requires Pending(w) && w.machine.calls[w.phase.k] == NEW_CALL
    ensures Served(w, t).phase == Connected && Served(w, t).machine.stranded == w.machine.stranded
    ensures Served(w, t).backoff == if w.phase.Publishing? then t.retryDelay else w.backoff
  {
  }

  /** Whatever happened before: with a slot to spare and an answering peer the
      worker connects and publishes, and its backoff is as at the start. */
  lemma PublishesAgain(w: World, t: Timing) returns (v: World)
    requires w.phase == AtCheck && w.machine.stranded < t.maxStranded
    ensures var connecting := Next(w, Check, t);
            && Pending(connecting) && connecting.machine.calls[connecting.phase.k] == NEW_CALL
            && var connected := Served(connecting, t);
               && Can(connected, Publish, t)
               && var publishing := Next(connected, Publish, t);
                  && Pending(publishing) && publishing.machine.calls[publishing.phase.k] == NEW_CALL
                  && v == Served(publishing, t)
    ensures v.phase == Connected && v.backoff == t.retryDelay && v.machine.stranded == w.machine.stranded
  {
    var connecting := Next(w, Check, t);
    ServedGoesOn(connecting, t);
    var publishing := Next(Served(connecting, t), Publish, t);
    ServedGoesOn(publishing, t);
    v := Served(publishing, t);
  }
}
