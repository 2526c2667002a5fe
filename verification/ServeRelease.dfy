/** What becomes of a lease: it is named at the path exactly while it is held,
  it is free again after an undisturbed release, and an attempt that waits
  neither disturbs the files nor stops before it holds the lease or gives up. */
module ServeRelease {
  import opened Wrappers
  import opened ServeLease

  // ---------------------------------------------------------------------
  // Over every run: named exactly while held
  // ---------------------------------------------------------------------

  ghost predicate FailedToRelease(states: seq<Machine>, events: seq<Event>, a: nat)
    requires |states| == |events| + 1
  {
    exists k | 0 <= k < |events| ::
      events[k] == Fail(a) && a in states[k].attempts && Holds(states[k].attempts[a].phase)
  }

  predicate Trying(phase: Phase) {
    phase == Linking || phase == Polling || InRecovery(phase)
  }

  predicate CleansUp(phase: Phase) {
    phase == DropCandidate || phase == Abandoning
  }

  ghost predicate FailedToCleanUp(states: seq<Machine>, events: seq<Event>, a: nat)
    requires |states| == |events| + 1
  {
    exists k | 0 <= k < |events| ::
      events[k] == Fail(a) && a in states[k].attempts && CleansUp(states[k].attempts[a].phase)
  }

  /** Where the files of `a` are, `released` and `cleaned` saying whether its
      removals have failed. */
  ghost predicate FilesAreTold(m: Machine, a: nat, kept: bool, littered: bool) {
    if a !in m.attempts then !kept && !littered
    else
      var t := m.attempts[a];
      && (kept ==> t.phase == DropCandidate || t.phase == Done)
      && (littered ==> t.phase == Done)
      && (Names(m, t.record) ==> Holds(t.phase) || kept)
      && (t.record in m.candidates ==> t.phase != Done || littered)
      && (Alive(m, a) ==> (Holds(t.phase) || kept ==> Names(m, t.record)))
      && (Alive(m, a) ==> (t.phase != Done || littered ==> t.record in m.candidates))
  }

  lemma OtherKeepsPath(m: Machine, e: Event, a: nat)
    requires Consistent(m) && Enabled(m, e) && a in m.attempts
    requires (e.Advance? || e.Fail? || e.GiveUp?) && e.attempt != a
    ensures Names(After(m, e), m.attempts[a].record) ==> Names(m, m.attempts[a].record)
    ensures Alive(m, a) && Names(m, m.attempts[a].record) ==> Names(After(m, e), m.attempts[a].record)
  {
    if Alive(m, a) && Names(m, m.attempts[a].record) {
      OnlyTheOwnerReleases(m, e, a);
    }
    hide RecordIsValid, Matches, PidIsAlive, Knows;
  }

  lemma OtherKeepsCandidate(m: Machine, e: Event, a: nat)
    requires Consistent(m) && Enabled(m, e) && a in m.attempts
    requires (e.Advance? || e.Fail? || e.GiveUp?) && e.attempt != a
    ensures m.attempts[a].record in After(m, e).candidates ==> m.attempts[a].record in m.candidates
    ensures Alive(m, a) && m.attempts[a].record in m.candidates ==> m.attempts[a].record in After(m, e).candidates
  {
    assert Knows(m, e.attempt);
    hide RecordIsValid, Matches, PidIsAlive;
  }

  lemma OtherKeepsPhase(m: Machine, e: Event, a: nat)
    requires Enabled(m, e) && a in m.attempts
    requires (e.Advance? || e.Fail? || e.GiveUp?) && e.attempt != a
    ensures a in After(m, e).attempts && After(m, e).attempts[a] == m.attempts[a]
    ensures After(m, e).alive == m.alive
  {
    hide RecordIsValid, Matches, PidIsAlive;
  }

  lemma OtherStepTells(m: Machine, e: Event, a: nat, kept: bool, littered: bool)
    requires Consistent(m) && Enabled(m, e) && FilesAreTold(m, a, kept, littered)
    requires a in m.attempts && (e.Advance? || e.Fail? || e.GiveUp?) && e.attempt != a
    ensures FilesAreTold(After(m, e), a, kept, littered)
  {
    OtherKeepsPath(m, e, a);
    OtherKeepsCandidate(m, e, a);
    OtherKeepsPhase(m, e, a);
    hide Consistent, After, Names, Enabled;
  }

  lemma OwnStepTells(m: Machine, a: nat, kept: bool, littered: bool)
    requires Consistent(m) && Alive(m, a) && m.attempts[a].phase != Done && FilesAreTold(m, a, kept, littered)
    ensures FilesAreTold(Step(m, a), a, kept, littered)
  {
    assert Knows(m, a);
    hide Consistent;
    if Trying(m.attempts[a].phase) {
      TryingStepTells(m, a, kept, littered);
    } else {
      EndingStepTells(m, a, kept, littered);
    }
  }

  lemma TryingStepTells(m: Machine, a: nat, kept: bool, littered: bool)
    requires Alive(m, a) && Knows(m, a) && Trying(m.attempts[a].phase) && FilesAreTold(m, a, kept, littered)
    requires m.attempts[a].record in m.used
    ensures FilesAreTold(Step(m, a), a, kept, littered)
  {
    hide PidIsAlive, RecordIsValid, Matches;
  }

  lemma EndingStepTells(m: Machine, a: nat, kept: bool, littered: bool)
    requires Alive(m, a) && Knows(m, a) && FilesAreTold(m, a, kept, littered)
    requires !Trying(m.attempts[a].phase) && m.attempts[a].phase != Done && RecordIsValid(m.attempts[a].record)
    ensures FilesAreTold(Step(m, a), a, kept, littered)
  {
    hide PidIsAlive;
  }

  lemma OwnFailTells(m: Machine, e: Event, a: nat, kept: bool, littered: bool)
    requires Consistent(m) && Enabled(m, e) && FilesAreTold(m, a, kept, littered)
    requires e == Fail(a) || e == GiveUp(a)
    ensures var phase := m.attempts[a].phase;
            FilesAreTold(After(m, e), a, kept || (e.Fail? && Holds(phase)), littered || (e.Fail? && CleansUp(phase)))
  {
    assert Knows(m, a);
    hide Consistent, Step;
    FailTells(m, e, a, kept, littered);
  }

  lemma FailTells(m: Machine, e: Event, a: nat, kept: bool, littered: bool)
    requires Enabled(m, e) && Alive(m, a) && Knows(m, a) && FilesAreTold(m, a, kept, littered)
    requires e == Fail(a) || e == GiveUp(a)
    ensures var phase := m.attempts[a].phase;
            FilesAreTold(After(m, e), a, kept || (e.Fail? && Holds(phase)), littered || (e.Fail? && CleansUp(phase)))
  {
    hide PidIsAlive, RecordIsValid, Step;
  }

  lemma OutsideStepTells(m: Machine, e: Event, a: nat, kept: bool, littered: bool)
    requires Consistent(m) && Enabled(m, e) && FilesAreTold(m, a, kept, littered)
    requires e.Spawn? || e.Crash? || e.Begin?
    ensures FilesAreTold(After(m, e), a, kept, littered)
  {
    hide PidIsAlive, RecordIsValid, Step;
  }

  lemma EveryStepTells(m: Machine, e: Event, a: nat, kept: bool, littered: bool)
    requires Consistent(m) && Enabled(m, e) && FilesAreTold(m, a, kept, littered)
    ensures FilesAreTold(After(m, e), a,
                         kept || (e == Fail(a) && a in m.attempts && Holds(m.attempts[a].phase)),
                         littered || (e == Fail(a) && a in m.attempts && CleansUp(m.attempts[a].phase)))
  {
    hide Consistent, FilesAreTold, Step;
    if e.Spawn? || e.Crash? || e.Begin? {
      OutsideStepTells(m, e, a, kept, littered);
    } else if e == Advance(a) {
      OwnStepTells(m, a, kept, littered);
    } else if e.attempt == a {
      OwnFailTells(m, e, a, kept, littered);
    } else if a in m.attempts {
      OtherStepTells(m, e, a, kept, littered);
    } else {
      StrangersTell(m, e, a, kept, littered);
    }
  }

  lemma StrangersTell(m: Machine, e: Event, a: nat, kept: bool, littered: bool)
    requires Enabled(m, e) && FilesAreTold(m, a, kept, littered)
    requires a !in m.attempts && (e.Advance? || e.Fail? || e.GiveUp?)
    ensures FilesAreTold(After(m, e), a, kept, littered)
  {
    hide PidIsAlive, RecordIsValid, Matches;
  }

  lemma {:induction false} EveryRunTells(states: seq<Machine>, events: seq<Event>, a: nat)
    requires IsRun(states, events)
    ensures FilesAreTold(states[|events|], a,
                         FailedToRelease(states, events, a), FailedToCleanUp(states, events, a))
    decreases |events|
  {
    var n := |events|;
    EveryRunIsSafe(states, events);
    if n > 0 {
      EveryRunIsSafe(states[..n], events[..n - 1]);
      EveryRunTells(states[..n], events[..n - 1], a);
      FailuresSoFar(states, events, a);
      hide Consistent, Enabled, After, FilesAreTold, FailedToRelease, FailedToCleanUp;
      EveryStepTells(states[n - 1], events[n - 1], a,
                     FailedToRelease(states[..n], events[..n - 1], a),
                     FailedToCleanUp(states[..n], events[..n - 1], a));
    }
  }

  lemma FailuresSoFar(states: seq<Machine>, events: seq<Event>, a: nat)
    requires |states| == |events| + 1 && |events| > 0
    ensures var n := |events|;
            var now := events[n - 1] == Fail(a) && a in states[n - 1].attempts;
            && (FailedToRelease(states, events, a) <==>
                FailedToRelease(states[..n], events[..n - 1], a)
                || (now && Holds(states[n - 1].attempts[a].phase)))
            && (FailedToCleanUp(states, events, a) <==>
                FailedToCleanUp(states[..n], events[..n - 1], a)
                || (now && CleansUp(states[n - 1].attempts[a].phase)))
  {
    var n := |events|;
    assert forall k | 0 <= k < n - 1 :: events[..n - 1][k] == events[k] && states[..n][k] == states[k];
  }

  /** Over every run: a record is at the path only while its attempt holds the
      lease or after it failed to remove it, and always so while its process
      runs. The same for its candidate until the attempt is done. */
  lemma NamedExactlyWhileHeld(states: seq<Machine>, events: seq<Event>, a: nat)
    requires IsRun(states, events) && a in states[|events|].attempts
    ensures var m := states[|events|];
            var t := m.attempts[a];
            && (Names(m, t.record) ==> Holds(t.phase) || FailedToRelease(states, events, a))
            && (t.record in m.candidates ==> t.phase != Done || FailedToCleanUp(states, events, a))
            && (Alive(m, a) && (Holds(t.phase) || FailedToRelease(states, events, a)) ==> Names(m, t.record))
            && (Alive(m, a) && (t.phase != Done || FailedToCleanUp(states, events, a)) ==> t.record in m.candidates)
  {
    hide FailedToRelease, FailedToCleanUp;
    EveryRunTells(states, events, a);
  }

  // ---------------------------------------------------------------------
  // An undisturbed release
  // ---------------------------------------------------------------------

  /** The attempt is over, the path free and its candidate gone; nobody else's
      phase, file or fence changed. */
  ghost predicate Released(m: Machine, a: nat, t: Machine)
    requires a in m.attempts
  {
    && t.path == None
    && t.candidates == m.candidates - {m.attempts[a].record}
    && t.fence == m.fence && t.alive == m.alive
    && t.attempts == m.attempts[a := m.attempts[a].(phase := Done)]
  }

  lemma DropsOwn(m: Machine, a: nat)
    requires Consistent(m) && Alive(m, a) && m.attempts[a].phase == Holding
    ensures Alone(m, a, 2, Goto(m, a, DropRemove))
  {
    assert Knows(m, a);
    assert Matches(m.attempts[a].record, m.attempts[a].record);
    AfterGoto(m, a, DropRead);
    AfterGoto(m, a, DropRemove);
    hide Consistent, Knows, Alone, RecordIsValid, Matches, PidIsAlive, Goto;
    var m1 := Goto(m, a, DropRead);
    var m2 := Goto(m, a, DropRemove);
    OneMore(m1, a, m2, 0, m2);
    OneMore(m, a, m1, 1, m2);
  }

  lemma RemovesOwn(m: Machine, a: nat) returns (t: Machine)
    requires Alive(m, a) && m.attempts[a].phase == DropRemove
    ensures Alone(m, a, 2, t) && Released(m, a, t)
  {
    var m1 := Step(m, a);
    t := Step(m1, a);
    OneMore(m1, a, t, 0, t);
    OneMore(m, a, m1, 1, t);
  }

  /** Four steps after a holder lets go, undisturbed, the path is free. */
  lemma ReleaseFreesThePath(m: Machine, a: nat)
    requires Consistent(m) && Alive(m, a) && m.attempts[a].phase == Holding
    ensures exists t :: Alone(m, a, 4, t) && Released(m, a, t)
  {
    DropsOwn(m, a);
    var dropping := Goto(m, a, DropRemove);
    AfterGoto(m, a, DropRemove);
    hide Consistent, Alone;
    var t := RemovesOwn(dropping, a);
    AloneAppend(m, a, 2, dropping, 2, t);
    assert Released(m, a, t) by { assert t.attempts == m.attempts[a := m.attempts[a].(phase := Done)]; }
  }

  /** The next in line holds the lease right after the release. */
  lemma ReleasedLeaseIsTaken(m: Machine, a: nat, b: nat)
    requires Consistent(m) && Alive(m, a) && m.attempts[a].phase == Holding
    requires Alive(m, b) && m.attempts[b].phase == Linking
    ensures exists t, u :: Alone(m, a, 4, t) && Alone(t, b, 1, u) && HoldsNow(u, b, m.attempts[b].record)
  {
    assert Knows(m, b);
    assert m.attempts[b].record != m.attempts[a].record;
    ReleaseFreesThePath(m, a);
    hide Consistent, Alone;
    var t :| Alone(m, a, 4, t) && Released(m, a, t);
    var u := LinksFreePath(t, b);
  }

  /** A fresh attempt at a free lease holds it at once. */
  lemma FreeLeaseIsTaken(m: Machine, e: Event)
    requires Enabled(m, e) && e.Begin? && m.path == None
    ensures var begun := After(m, e);
            exists t ::
              Alone(begun, e.attempt, 1, t) && HoldsNow(t, e.attempt, begun.attempts[e.attempt].record)
  {
    hide Alone, RecordIsValid;
    var t := LinksFreePath(After(m, e), e.attempt);
  }

  /** Whatever took the place of the lease from outside is left alone. */
  lemma ReplacementIsLeft(m: Machine, a: nat) returns (t: Machine)
    requires Alive(m, a) && m.attempts[a].phase == Holding
    requires m.path.Some? && m.path.value.content.Written? ==>
               var other := m.path.value.content.record;
               other.pid != m.attempts[a].record.pid || other.token != m.attempts[a].record.token
    ensures Alone(m, a, 3, t)
    ensures t.attempts == m.attempts[a := m.attempts[a].(phase := Done)]
    ensures t.path == m.path && t.fence == m.fence && t.candidates == m.candidates - {m.attempts[a].record}
  {
    var m2 := KeepsReplacement(m, a);
    t := CleansUpLast(m2, a);
    hide Alone, Step, Goto, RecordIsValid, PidIsAlive, Matches;
    AloneAppend(m, a, 2, m2, 1, t);
  }

  lemma KeepsReplacement(m: Machine, a: nat) returns (t: Machine)
    requires Alive(m, a) && m.attempts[a].phase == Holding
    requires m.path.Some? && m.path.value.content.Written? ==>
               var other := m.path.value.content.record;
               other.pid != m.attempts[a].record.pid || other.token != m.attempts[a].record.token
    ensures Alone(m, a, 2, t) && t == m.(attempts := m.attempts[a := m.attempts[a].(phase := DropCandidate)])
  {
    var m1 := Step(m, a);
    t := Step(m1, a);
    hide RecordIsValid, PidIsAlive;
    assert t.attempts == m.attempts[a := m.attempts[a].(phase := DropCandidate)];
    OneMore(m1, a, t, 0, t);
    OneMore(m, a, m1, 1, t);
  }

  lemma CleansUpLast(m: Machine, a: nat) returns (t: Machine)
    requires Alive(m, a) && CleansUp(m.attempts[a].phase)
    ensures Alone(m, a, 1, t)
    ensures t == m.(candidates := m.candidates - {m.attempts[a].record},
                    attempts := m.attempts[a := m.attempts[a].(phase := Done)])
  {
    t := Step(m, a);
    OneMore(m, a, t, 0, t);
  }

  /** An attempt whose candidate was removed from outside takes nothing. */
  lemma LostCandidateTakesNothing(m: Machine, a: nat)
    requires Alive(m, a) && m.attempts[a].phase == Linking && m.attempts[a].record !in m.candidates
    ensures exists t ::
              && Alone(m, a, 2, t) && t.attempts == m.attempts[a := m.attempts[a].(phase := Done)]
              && t.path == m.path && t.fence == m.fence && t.candidates == m.candidates
  {
    AfterGoto(m, a, Abandoning);
    var m1 := Goto(m, a, Abandoning);
    hide RecordIsValid, PidIsAlive, Alone;
    var t := CleansUpLast(m1, a);
    OneMore(m, a, m1, 1, t);
    assert t.attempts == m.attempts[a := m.attempts[a].(phase := Done)];
    assert t.candidates == m.candidates;
  }

  /** An attempt that gives up removes its candidate and nothing else. */
  lemma GivingUpLeavesNothing(m: Machine, a: nat)
    requires Alive(m, a) && m.attempts[a].phase == Abandoning
    ensures exists t ::
              && Alone(m, a, 1, t) && t.attempts == m.attempts[a := m.attempts[a].(phase := Done)]
              && t.path == m.path && t.fence == m.fence && t.candidates == m.candidates - {m.attempts[a].record}
  {
    var t := CleansUpLast(m, a);
  }

  // ---------------------------------------------------------------------
  // An attempt that has to wait
  // ---------------------------------------------------------------------

  lemma OwnStepStops(m: Machine, a: nat)
    requires Consistent(m) && Alive(m, a) && Trying(m.attempts[a].phase)
    ensures a in Step(m, a).attempts
    ensures var free := m.attempts[a].phase == Linking && m.path == None;
            var next := Step(m, a).attempts[a].phase;
            && Trying(next) == !free
            && (free ==> HoldsNow(Step(m, a), a, m.attempts[a].record))
  {
    assert Knows(m, a);
    hide Consistent, Knows, RecordIsValid, PidIsAlive, Matches;
  }

  /** Whatever it finds, and whoever changed the files, an attempt links again
      exactly after a poll or a reclaim. */
  lemma LinksAgainExactlyAfter(m: Machine, a: nat)
    requires Alive(m, a) && Trying(m.attempts[a].phase)
    ensures a in Step(m, a).attempts
    ensures Step(m, a).attempts[a].phase == Linking <==>
            m.attempts[a].phase == Polling || m.attempts[a].phase.RemoveCandidate?
  {
    hide PidIsAlive, RecordIsValid, Matches;
  }

  /** An attempt stops trying only by holding the lease, which was free, by
      giving up at the deadline, or by an error while linking. It links again
      only after a poll, where it may give up, or after a reclaim. */
  lemma StopsTryingExactlyBy(m: Machine, e: Event, a: nat)
    requires Consistent(m) && Enabled(m, e) && Alive(m, a) && Trying(m.attempts[a].phase)
    ensures a in After(m, e).attempts
    ensures var phase := m.attempts[a].phase;
            var next := After(m, e).attempts[a].phase;
            if e == Advance(a) && phase == Linking && m.path == None
            then HoldsNow(After(m, e), a, m.attempts[a].record)
            else if e == GiveUp(a) || (e == Fail(a) && phase == Linking) then next == Abandoning
            else Trying(next) && (next == Linking && phase != Linking ==> phase == Polling || phase.RemoveCandidate?)
  {
    if e == Advance(a) {
      OwnStepStops(m, a);
      LinksAgainExactlyAfter(m, a);
    }
    hide Consistent, RecordIsValid, PidIsAlive, Matches, Step;
    if (e.Advance? || e.Fail? || e.GiveUp?) && e.attempt != a {
      OtherKeepsPhase(m, e, a);
    }
  }

  /** The path names a record of version 1, with a possible process id and a
      token of one to 128 letters, digits and dashes, whose owner does not run. */
  predicate IsStale(m: Machine) {
    && m.path.Some? && m.path.value.content.Written?
    && var r := m.path.value.content.record;
    && r.version == 1 && 1 <= r.pid <= 2147483647 && 1 <= |r.token| <= 128
    && (forall c | c in r.token :: c == '-' || '0' <= c <= '9' || 'a' <= c <= 'z' || 'A' <= c <= 'Z')
    && !PidIsAlive(m, r.pid)
  }

  lemma StaleExactly(m: Machine)
    requires m.path.Some? && m.path.value.content.Written?
    ensures var r := m.path.value.content.record;
            IsStale(m) <==> RecordIsValid(r) && !PidIsAlive(m, r.pid)
  {
    hide PidIsAlive;
    var token := m.path.value.content.record.token;
    assert (forall k | 0 <= k < |token| :: TokenChar(token[k])) <==> (forall c | c in token :: TokenChar(c));
  }

  lemma PidsAfterGoto(m: Machine, a: nat, phase: Phase, pid: nat)
    requires a in m.attempts
    ensures PidIsAlive(Goto(m, a, phase), pid) == PidIsAlive(m, pid)
  {
  }

  lemma ReadsFirst(m: Machine, a: nat)
    requires Alive(m, a) && m.attempts[a].phase == Linking && m.attempts[a].record in m.candidates && m.path.Some?
    ensures var c := CheckStale(m.path.value.content, m.path.value.inode);
            Alone(m, a, 3, Goto(m, a, c))
  {
    var c := m.path.value.content;
    AfterGoto(m, a, ReadFirst);
    AfterGoto(m, a, StatFirst(c));
    hide RecordIsValid, PidIsAlive, Alone, Goto;
    var m1 := Goto(m, a, ReadFirst);
    var m2 := Goto(m, a, StatFirst(c));
    var m3 := Goto(m, a, CheckStale(c, m.path.value.inode));
    OneMore(m2, a, m3, 0, m3);
    OneMore(m1, a, m2, 1, m3);
    OneMore(m, a, m1, 2, m3);
  }

  lemma ComesBack(m: Machine, a: nat)
    requires Alive(m, a) && m.attempts[a].phase == Linking
    ensures Alone(Goto(m, a, Polling), a, 1, m)
  {
    AfterGoto(m, a, Polling);
    assert Goto(m, a, Linking) == m by { assert Goto(m, a, Linking).attempts == m.attempts; }
    OneMore(Goto(m, a, Polling), a, m, 0, m);
  }

  /** A lease that is not stale, a live owner's or an unreadable one, is left
      as it is: the attempt comes back to link again. */
  lemma LiveLeaseIsLeft(m: Machine, a: nat)
    requires Alive(m, a) && m.attempts[a].phase == Linking && m.attempts[a].record in m.candidates
    requires m.path.Some? && !IsStale(m)
    ensures Alone(m, a, 5, m)
  {
    var c := m.path.value.content;
    var phase := CheckStale(c, m.path.value.inode);
    AfterGoto(m, a, phase);
    if c.Written? {
      StaleExactly(m);
      PidsAfterGoto(m, a, phase, c.record.pid);
    }
    ReadsFirst(m, a);
    ComesBack(m, a);
    hide IsStale, RecordIsValid, PidIsAlive, Alone, Goto;
    OneMore(Goto(m, a, phase), a, Goto(m, a, Polling), 0, Goto(m, a, Polling));
    AloneAppend(m, a, 3, Goto(m, a, phase), 1, Goto(m, a, Polling));
    AloneAppend(m, a, 4, Goto(m, a, Polling), 1, m);
  }

  /** While another attempt reclaims, a stale lease is left to that one. */
  lemma FenceIsRespected(m: Machine, a: nat)
    requires Alive(m, a) && m.attempts[a].phase == Linking && m.attempts[a].record in m.candidates
    requires IsStale(m) && m.fence.Some?
    ensures Alone(m, a, 6, m)
  {
    var c := m.path.value.content;
    var inode := m.path.value.inode;
    AfterGoto(m, a, CheckStale(c, inode));
    AfterGoto(m, a, BindFence(c.record, inode));
    StaleExactly(m);
    PidsAfterGoto(m, a, CheckStale(c, inode), c.record.pid);
    ReadsFirst(m, a);
    ComesBack(m, a);
    hide IsStale, RecordIsValid, PidIsAlive, Alone, Goto;
    var m3 := Goto(m, a, CheckStale(c, inode));
    var m4 := Goto(m, a, BindFence(c.record, inode));
    var m5 := Goto(m, a, Polling);
    OneMore(m4, a, m5, 0, m5);
    OneMore(m3, a, m4, 1, m5);
    AloneAppend(m, a, 3, m3, 2, m5);
    AloneAppend(m, a, 5, m5, 1, m);
  }

  /** What an undisturbed attempt that links comes to: it holds a lease that is
      free or stale, and otherwise is back where it was with nothing changed. */
  lemma LinkingDecides(m: Machine, a: nat)
    requires Consistent(m) && Alive(m, a) && m.attempts[a].phase == Linking
    ensures m.path == None ==> exists t :: Alone(m, a, 1, t) && HoldsNow(t, a, m.attempts[a].record)
    ensures IsStale(m) && m.fence == None ==>
              exists t :: Alone(m, a, 11, t) && HoldsNow(t, a, m.attempts[a].record)
                          && m.path.value.content.record !in t.candidates
    ensures IsStale(m) && m.fence.Some? ==> Alone(m, a, 6, m)
    ensures m.path.Some? && !IsStale(m) ==> Alone(m, a, 5, m)
  {
    assert Knows(m, a);
    hide Consistent, Knows, Alone, RecordIsValid, PidIsAlive;
    if m.path == None {
      var t := LinksFreePath(m, a);
    } else if !IsStale(m) {
      LiveLeaseIsLeft(m, a);
    } else if m.fence.Some? {
      FenceIsRespected(m, a);
    } else {
      StaleExactly(m);
      hide IsStale;
      StaleLeaseIsTakenOver(m, a, m.path.value.content.record);
    }
  }

  // ---------------------------------------------------------------------
  // The second look, under the fence
  // ---------------------------------------------------------------------

  /** The path still names the same owner in the same file, and the owner still
      does not run. */
  predicate StillStale(m: Machine, stale: Record, inode: nat) {
    && m.path.Some? && m.path.value.inode == inode && m.path.value.content.Written?
    && Matches(stale, m.path.value.content.record) && !PidIsAlive(m, stale.pid)
  }

  lemma LooksAgain(m: Machine, a: nat, stale: Record, inode: nat)
    requires Alive(m, a) && m.attempts[a].phase == BindFence(stale, inode) && m.fence == None && m.path.Some?
    ensures var c := m.path.value.content;
            Alone(m, a, 3, Goto(m, a, CheckMatch(stale, inode, c, m.path.value.inode)).(fence := Some(a)))
  {
    var c := m.path.value.content;
    var f := m.(fence := Some(a));
    AfterGoto(f, a, ReadSecond(stale, inode));
    AfterGoto(f, a, StatSecond(stale, inode, c));
    hide Matches, RecordIsValid, PidIsAlive, Alone;
    var m1 := Goto(f, a, ReadSecond(stale, inode));
    var m2 := Goto(f, a, StatSecond(stale, inode, c));
    var m3 := Goto(f, a, CheckMatch(stale, inode, c, m.path.value.inode));
    OneMore(m2, a, m3, 0, m3);
    OneMore(m1, a, m2, 1, m3);
    OneMore(m, a, m1, 2, m3);
  }

  /** The second look removes the lease exactly if it is still the one that was
      found stale; otherwise the attempt gives the fence back and links again. */
  lemma SecondLookDecides(m: Machine, a: nat, stale: Record, inode: nat)
    requires Alive(m, a) && m.attempts[a].phase == BindFence(stale, inode) && m.fence == None
    ensures StillStale(m, stale, inode) ==>
              Alone(m, a, 5, Goto(m, a, RemoveCandidate(stale)).(fence := Some(a), path := None))
    ensures m.path.Some? && !StillStale(m, stale, inode) ==> Alone(m, a, 5, Goto(m, a, Linking))
    ensures m.path == None ==> Alone(m, a, 3, Goto(m, a, Linking))
  {
    hide Matches, RecordIsValid, PidIsAlive, Alone;
    if m.path == None {
      FindsNothing(m, a, stale, inode);
    } else if StillStale(m, stale, inode) {
      RemovesStale(m, a, stale, inode);
    } else {
      LeavesOther(m, a, stale, inode);
    }
  }

  lemma FindsNothing(m: Machine, a: nat, stale: Record, inode: nat)
    requires Alive(m, a) && m.attempts[a].phase == BindFence(stale, inode) && m.fence == None && m.path == None
    ensures Alone(m, a, 3, Goto(m, a, Linking))
  {
    hide Matches, RecordIsValid, PidIsAlive, Alone;
    var m1 := Goto(m, a, ReadSecond(stale, inode)).(fence := Some(a));
    var m2 := Goto(m, a, Polling);
    var m3 := Goto(m, a, Linking);
    assert m2 == Step(m1, a) by { assert m2.attempts == Step(m1, a).attempts; }
    assert m3 == Step(m2, a) by { assert m3.attempts == Step(m2, a).attempts; }
    OneMore(m2, a, m3, 0, m3);
    OneMore(m1, a, m2, 1, m3);
    OneMore(m, a, m1, 2, m3);
  }

  lemma RemovesMatched(m: Machine, a: nat, stale: Record, inode: nat) returns (t: Machine)
    requires Alive(m, a) && StillStale(m, stale, inode)
    requires m.attempts[a].phase == CheckMatch(stale, inode, m.path.value.content, inode)
    ensures Alone(m, a, 2, t)
    ensures t == m.(path := None, attempts := m.attempts[a := m.attempts[a].(phase := RemoveCandidate(stale))])
  {
    assert m.path.value.content.record.pid == stale.pid;
    hide Matches, RecordIsValid, PidIsAlive, Alone;
    var m1 := Step(m, a);
    t := Step(m1, a);
    OneMore(m1, a, t, 0, t);
    OneMore(m, a, m1, 1, t);
  }

  lemma LeavesUnmatched(m: Machine, a: nat, stale: Record, inode: nat) returns (t: Machine)
    requires Alive(m, a) && m.path.Some? && !StillStale(m, stale, inode) && m.fence == Some(a)
    requires m.attempts[a].phase == CheckMatch(stale, inode, m.path.value.content, m.path.value.inode)
    ensures Alone(m, a, 2, t)
    ensures t == m.(fence := None, attempts := m.attempts[a := m.attempts[a].(phase := Linking)])
  {
    var c := m.path.value.content;
    assert c.Written? && Matches(stale, c.record) ==> c.record.pid == stale.pid;
    hide Matches, RecordIsValid, PidIsAlive, Alone;
    var m1 := Step(m, a);
    t := Step(m1, a);
    OneMore(m1, a, t, 0, t);
    OneMore(m, a, m1, 1, t);
  }

  lemma ThenGoto(m: Machine, a: nat, phase: Phase, next: Phase)
    requires a in m.attempts
    ensures var gone := Goto(m, a, phase).attempts;
            a in gone && gone[a := gone[a].(phase := next)] == Goto(m, a, next).attempts
  {
  }

  lemma RemovesStale(m: Machine, a: nat, stale: Record, inode: nat)
    requires Alive(m, a) && m.attempts[a].phase == BindFence(stale, inode) && m.fence == None
    requires StillStale(m, stale, inode)
    ensures Alone(m, a, 5, Goto(m, a, RemoveCandidate(stale)).(fence := Some(a), path := None))
  {
    LooksAgain(m, a, stale, inode);
    var looked := Goto(m, a, CheckMatch(stale, inode, m.path.value.content, inode)).(fence := Some(a));
    assert PidIsAlive(looked, stale.pid) == PidIsAlive(m, stale.pid);
    hide Matches, RecordIsValid, PidIsAlive, Alone, Step;
    var t := RemovesMatched(looked, a, stale, inode);
    AloneAppend(m, a, 3, looked, 2, t);
    ThenGoto(m, a, looked.attempts[a].phase, RemoveCandidate(stale));
  }

  lemma LeavesOther(m: Machine, a: nat, stale: Record, inode: nat)
    requires Alive(m, a) && m.attempts[a].phase == BindFence(stale, inode) && m.fence == None
    requires m.path.Some? && !StillStale(m, stale, inode)
    ensures Alone(m, a, 5, Goto(m, a, Linking))
  {
    LooksAgain(m, a, stale, inode);
    var looked :=
      Goto(m, a, CheckMatch(stale, inode, m.path.value.content, m.path.value.inode)).(fence := Some(a));
    assert PidIsAlive(looked, stale.pid) == PidIsAlive(m, stale.pid);
    hide Matches, RecordIsValid, PidIsAlive, Alone, Step;
    var t := LeavesUnmatched(looked, a, stale, inode);
    AloneAppend(m, a, 3, looked, 2, t);
    ThenGoto(m, a, looked.attempts[a].phase, Linking);
  }
}
