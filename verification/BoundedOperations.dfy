/** Running one blocking operation on a disposable thread: the race between
  the caller that gives up and the thread that finishes, over any number of
  calls that share one counter of abandoned threads. */
module BoundedOperations {
  datatype Outcome = Completed(value: nat) | TimedOut | Stopped

  /** The caller. Claimed and Conceding are the claim window: it has counted
      itself and has not yet abandoned the call or taken the count back. */
  datatype Caller = Waiting | Claimed | Conceding | Receiving | Returned(outcome: Outcome)

  datatype Thread = Operating | Deciding(result: nat) | Sending(result: nat) | Releasing | Exited | Panicked

  datatype Flag = Running | Finished | Abandoned

  /** The channel between the two; Hung when its sender is gone unused. */
  datatype Channel = Empty | Sent(value: nat) | Hung

  datatype Call = Call(caller: Caller, thread: Thread, flag: Flag, channel: Channel)

  const NEW_CALL: Call := Call(Waiting, Operating, Running, Empty)

  /** The counter is an `int` so that an underflow would show. */
  datatype Machine = Machine(stranded: int, calls: seq<Call>)

  const NO_CALLS: Machine := Machine(0, [])

  datatype Event =
    | StartCall
    | Complete(k: nat, result: nat)        // the operation returns
    | Panic(k: nat)                        // the operation panics
    | Decide(k: nat)                       // thread: exchange Running for Finished
    | Send(k: nat)
    | Release(k: nat)                      // thread: stranded - 1
    | ReceiveInTime(k: nat)
    | TimeOut(k: nat)                      // caller: stranded + 1
    | Abandon(k: nat)                      // caller: exchange Running for Abandoned
    | Concede(k: nat)                      // caller: stranded - 1
    | ReceiveLate(k: nat)

  predicate Enabled(m: Machine, e: Event) {
    e.StartCall? || (e.k < |m.calls| && CallEnabled(m.calls[e.k], e))
  }

  predicate CallEnabled(c: Call, e: Event)
    requires !e.StartCall?
  {
    match e
    case Complete(_, _) => c.thread == Operating
    case Panic(_) => c.thread == Operating
    case Decide(_) => c.thread.Deciding?
    case Send(_) => c.thread.Sending?
    case Release(_) => c.thread == Releasing
    case ReceiveInTime(_) => c.caller == Waiting && c.channel != Empty
    case TimeOut(_) => c.caller == Waiting
    case Abandon(_) => c.caller == Claimed
    case Concede(_) => c.caller == Conceding
    case ReceiveLate(_) => c.caller == Receiving && c.channel != Empty
  }

  function Received(channel: Channel): Outcome {
    if channel.Sent? then Completed(channel.value) else Stopped
  }

  function CallAfter(c: Call, e: Event): Call
    requires !e.StartCall? && CallEnabled(c, e)
  {
    match e
    case Complete(_, result) => c.(thread := Deciding(result))
    case Panic(_) => c.(thread := Panicked, channel := Hung)
    case Decide(_) =>
      if c.flag == Running then c.(flag := Finished, thread := Sending(c.thread.result))
      else c.(thread := Releasing)
    case Send(_) => c.(thread := Exited, channel := Sent(c.thread.result))
    case Release(_) => c.(thread := Exited, channel := Hung)
    case ReceiveInTime(_) => c.(caller := Returned(Received(c.channel)))
    case TimeOut(_) => c.(caller := Claimed)
    case Abandon(_) =>
      if c.flag == Running then c.(flag := Abandoned, caller := Returned(TimedOut)) else c.(caller := Conceding)
    case Concede(_) => c.(caller := Receiving)
    case ReceiveLate(_) => c.(caller := Returned(Received(c.channel)))
  }

  /** How the step changes the counter. */
  function Change(e: Event): int {
    if e.TimeOut? then 1 else if e.Concede? || e.Release? then -1 else 0
  }

  function After(m: Machine, e: Event): Machine
    requires Enabled(m, e)
  {
    if e.StartCall? then m.(calls := m.calls + [NEW_CALL])
    else Machine(m.stranded + Change(e), m.calls[e.k := CallAfter(m.calls[e.k], e)])
  }

  // ---------------------------------------------------------------------
  // One call
  // ---------------------------------------------------------------------

  /** What the flag says about both sides. */
  ghost predicate Good(c: Call) {
    && (c.caller == Returned(TimedOut) <==> c.flag == Abandoned)
    && (c.caller == Conceding || c.caller == Receiving ==> c.flag == Finished)
    && (c.caller.Returned? && c.caller.outcome.Completed? ==> c.channel == Sent(c.caller.outcome.value))
    && (c.caller == Returned(Stopped) ==> c.thread == Panicked)
    && match c.thread
       case Operating => c.flag != Finished && c.channel == Empty
       case Deciding(_) => c.flag != Finished && c.channel == Empty
       case Sending(_) => c.flag == Finished && c.channel == Empty
       case Releasing => c.flag == Abandoned && c.channel == Empty
       case Exited => (c.flag == Finished && c.channel.Sent?) || (c.flag == Abandoned && c.channel == Hung)
       case Panicked => c.flag != Finished && c.channel == Hung
  }

  /** Whether the call takes up one of the counted slots: its caller is in the
      claim window, or it is abandoned and its thread has not left. */
  function Slots(c: Call): nat {
    if c.caller == Claimed || c.caller == Conceding then 1
    else if c.flag == Abandoned && c.thread != Exited then 1
    else 0
  }

  lemma StepKeepsGood(c: Call, e: Event)
    requires Good(c) && !e.StartCall? && CallEnabled(c, e)
    ensures Good(CallAfter(c, e))
    ensures Slots(CallAfter(c, e)) == Slots(c) + Change(e)
  {
  }

  /** The slot of the call was given back, or was never taken and never
      will be. */
  ghost predicate SlotIsBack(c: Call) {
    Slots(c) == 0 && c.caller != Waiting
  }

  /** A slot that is back stays back: each slot is released once. */
  lemma SlotsAreReleasedOnce(c: Call, e: Event)
    requires Good(c) && !e.StartCall? && CallEnabled(c, e)
    ensures SlotIsBack(c) ==> SlotIsBack(CallAfter(c, e)) && Change(e) == 0
    ensures Change(e) == -1 ==> SlotIsBack(CallAfter(c, e))
  {
  }

  /** Exactly one side wins. The caller reports a timeout only if the thread
      did not finish first, and if it did the caller reports its result: the
      late receive always finds one coming. */
  lemma OneSideWins(c: Call)
    requires Good(c)
    ensures c.caller == Returned(TimedOut) ==> !c.thread.Sending? && !c.channel.Sent?
    ensures c.caller == Receiving ==> c.channel.Sent? || c.thread.Sending?
    ensures c.caller == Returned(Stopped) ==> c.thread == Panicked
  {
  }

  function CallerRank(caller: Caller): nat {
    match caller
    case Waiting => 4
    case Claimed => 3
    case Conceding => 2
    case Receiving => 1
    case Returned(_) => 0
  }

  function ThreadRank(thread: Thread): nat {
    match thread
    case Operating => 3
    case Deciding(_) => 2
    case Sending(_) => 1
    case Releasing => 1
    case Exited => 0
    case Panicked => 0
  }

  predicate Over(c: Call) {
    c.caller.Returned? && (c.thread == Exited || c.thread == Panicked)
  }

  /** A call is over after at most seven steps: every step brings it nearer to
      its end, and before that there is always another one. */
  lemma CallsCannotStall(c: Call)
    requires Good(c)
    ensures !Over(c) <==> exists e: Event :: !e.StartCall? && CallEnabled(c, e)
    ensures forall e: Event | !e.StartCall? && CallEnabled(c, e) ::
              var d := CallAfter(c, e);
              CallerRank(d.caller) + ThreadRank(d.thread) < CallerRank(c.caller) + ThreadRank(c.thread) <= 7
  {
    if !Over(c) {
      var next := match c.thread
        case Operating => Complete(0, 0)
        case Deciding(_) => Decide(0)
        case Sending(_) => Send(0)
        case Releasing => Release(0)
        case Panicked => if c.caller == Waiting then TimeOut(0) else Abandon(0)
        case Exited =>
          if c.caller == Waiting then TimeOut(0)
          else if c.caller == Claimed then Abandon(0)
          else if c.caller == Conceding then Concede(0)
          else ReceiveLate(0);
      assert CallEnabled(c, next);
    }
  }

  // ---------------------------------------------------------------------
  // All calls
  // ---------------------------------------------------------------------

  function AllSlots(calls: seq<Call>): nat {
    if calls == [] then 0 else AllSlots(calls[..|calls| - 1]) + Slots(calls[|calls| - 1])
  }

  lemma {:induction false} SlotsUpdate(calls: seq<Call>, k: nat, c: Call)
    requires k < |calls|
    ensures AllSlots(calls[k := c]) == AllSlots(calls) - Slots(calls[k]) + Slots(c)
  {
    var n := |calls| - 1;
    if k < n {
      assert calls[k := c][..n] == calls[..n][k := c];
      SlotsUpdate(calls[..n], k, c);
    } else {
      assert calls[k := c][..n] == calls[..n];
    }
  }

  /** The counter is the number of abandoned calls whose threads have not left
      plus the number of callers in the claim window. */
  ghost predicate Counted(m: Machine) {
    && m.stranded == AllSlots(m.calls)
    && (forall k | 0 <= k < |m.calls| :: Good(m.calls[k]))
  }

  lemma EveryStepKeepsCounted(m: Machine, e: Event)
    requires Counted(m) && Enabled(m, e)
    ensures Counted(After(m, e))
  {
    if e.StartCall? {
      assert (m.calls + [NEW_CALL])[..|m.calls|] == m.calls;
    } else {
      StepOfCallKeepsCounted(m, e);
    }
  }

  lemma StepOfCallKeepsCounted(m: Machine, e: Event)
    requires Counted(m) && Enabled(m, e) && !e.StartCall?
    ensures Counted(After(m, e))
  {
    hide AllSlots, Slots, Good, CallAfter, CallEnabled, Change;
    StepKeepsGood(m.calls[e.k], e);
    SlotsUpdate(m.calls, e.k, CallAfter(m.calls[e.k], e));
  }

  ghost predicate IsRun(states: seq<Machine>, events: seq<Event>) {
    && |states| == |events| + 1
    && states[0] == NO_CALLS
    && (forall k | 0 <= k < |events| :: Enabled(states[k], events[k]) && states[k + 1] == After(states[k], events[k]))
  }

  /** In every interleaving the counter is exact, so it never underflows. */
  lemma {:induction false} EveryRunCounts(states: seq<Machine>, events: seq<Event>)
    requires IsRun(states, events)
    ensures forall k | 0 <= k <= |events| :: Counted(states[k]) && states[k].stranded >= 0
    decreases |events|
  {
    hide Counted, Enabled, After;
    var n := |events|;
    if n > 0 {
      EveryRunCounts(states[..n], events[..n - 1]);
      EveryStepKeepsCounted(states[n - 1], events[n - 1]);
    }
    CountedStart();
    CountedIsNat(states[n]);
  }

  lemma CountedStart()
    ensures Counted(NO_CALLS)
  {
  }

  lemma CountedIsNat(m: Machine)
    ensures Counted(m) ==> m.stranded >= 0
  {
  }

  /** The result that is on its way to the caller, or has reached it. */
  ghost predicate Carries(c: Call, result: nat) {
    || c.thread == Deciding(result) || c.thread == Sending(result)
    || c.channel == Sent(result) || c.caller == Returned(Completed(result))
  }

  lemma CarriesSince(c: Call, e: Event, result: nat)
    requires Good(c) && !e.StartCall? && CallEnabled(c, e) && Carries(CallAfter(c, e), result)
    ensures Carries(c, result) || (e.Complete? && e.result == result)
  {
  }

  lemma CarriedBefore(m: Machine, e: Event, k: nat, result: nat)
    requires Counted(m) && Enabled(m, e) && k < |After(m, e).calls| && Carries(After(m, e).calls[k], result)
    ensures e == Complete(k, result) || (k < |m.calls| && Carries(m.calls[k], result))
  {
    if !e.StartCall? && e.k == k {
      CarriesSince(m.calls[k], e, result);
    }
    hide CallAfter, AllSlots, Good;
  }

  /** In every run: a caller that returns a result returns what its own
      operation has computed. */
  lemma {:induction false} ReturnsWhatWasComputed(states: seq<Machine>, events: seq<Event>, k: nat, result: nat)
    requires IsRun(states, events) && k < |states[|events|].calls| && Carries(states[|events|].calls[k], result)
    ensures Complete(k, result) in events
    decreases |events|
  {
    var n := |events|;
    EveryRunCounts(states, events);
    hide Counted, Carries, After, Enabled;
    if n > 0 {
      CarriedBefore(states[n - 1], events[n - 1], k, result);
      assert events == events[..n - 1] + [events[n - 1]];
      if events[n - 1] != Complete(k, result) {
        ReturnsWhatWasComputed(states[..n], events[..n - 1], k, result);
      }
    }
  }

  /** When every caller has returned and every thread has left without a
      panic, nothing is counted. */
  lemma {:induction false} AllSlotsComeBack(calls: seq<Call>)
    requires forall k | 0 <= k < |calls| :: calls[k].caller.Returned? && calls[k].thread == Exited
    ensures AllSlots(calls) == 0
  {
    if calls != [] {
      AllSlotsComeBack(calls[..|calls| - 1]);
    }
  }

  // ---------------------------------------------------------------------
  // A panic keeps its slot
  // ---------------------------------------------------------------------

  lemma APanicLosesASlot() returns (states: seq<Machine>, events: seq<Event>)
    ensures |events| == 4 && IsRun(states, events)
    ensures states[4] == Machine(1, [Call(Returned(TimedOut), Panicked, Abandoned, Hung)])
  {
    events := [StartCall, TimeOut(0), Abandon(0), Panic(0)];
    states := [
      NO_CALLS,
      Machine(0, [NEW_CALL]),
      Machine(1, [Call(Claimed, Operating, Running, Empty)]),
      Machine(1, [Call(Returned(TimedOut), Operating, Abandoned, Empty)]),
      Machine(1, [Call(Returned(TimedOut), Panicked, Abandoned, Hung)])];
    assert states[1] == After(states[0], events[0]);
    assert states[2] == After(states[1], events[1]);
    assert states[3] == After(states[2], events[2]);
    assert states[4] == After(states[3], events[3]);
  }

  /** A slot comes back exactly when the thread leaves; an abandoned call
      keeps its slot for good if and only if its operation panics. */
  lemma LostExactlyOnPanic(c: Call)
    requires Good(c) && c.flag == Abandoned
    ensures Slots(c) == 0 <==> c.thread == Exited
    ensures c.thread == Panicked <==>
      Slots(c) == 1 && (forall e: Event :: !e.StartCall? ==> !CallEnabled(c, e))
  {
    if c.thread != Panicked && c.thread != Exited {
      var next := if c.thread == Operating then Complete(0, 0)
                  else if c.thread.Deciding? then Decide(0)
                  else Release(0);
      assert CallEnabled(c, next);
    }
  }
}
