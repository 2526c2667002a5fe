/** What the outcome of a stop says about the tree, for every course a stop can
  take. */
module ProcessOutcomes {
  import opened Wrappers
  import opened ProcessLog

  // ---------------------------------------------------------------------
  // Stopped means that the supervisor is gone
  // ---------------------------------------------------------------------

  ghost predicate GoneSince(s: Info, log: seq<Event>, from: nat) {
    exists j | from <= j < |log| :: SeenGone(s.pid, log[j])
  }

  /** A record was read and later a scan did not show its supervisor's pid. */
  ghost predicate SupervisorSeenGone(log: seq<Event>, from: nat) {
    exists k | from <= k < |log| && log[k].Read? && log[k].owner.Some? ::
      GoneSince(log[k].owner.value.supervisor, log, k)
  }

  lemma StoppedSupervisorIsGone(s: Info, wait: nat, log: seq<Event>, from: nat)
    requires SupervisorStopped(s, wait, log, from)
    ensures GoneSince(s, log, from)
  {
    hide Polls, NeverGoneTwice, NeverAnother, SawNotGone, SupervisorAsked, Shows;
    assert SeenGone(s.pid, log[|log| - 1]);
  }

  lemma GoneEarlier(s: Info, log: seq<Event>, more: seq<Event>, from: nat, earlier: nat)
    requires GoneSince(s, log, from) && log <= more && earlier <= from
    ensures GoneSince(s, more, earlier)
  {
    var j :| from <= j < |log| && SeenGone(s.pid, log[j]);
    assert SeenGone(s.pid, more[j]);
  }

  lemma AskedTreeIsGone(owner: Owner, root: Info, waits: Waits, log: seq<Event>, from: nat, r: StopResult)
    requires AskingDecides(owner, root, waits, log, from, r) && r.Stopped?
    ensures r == Stopped(false) && GoneSince(owner.supervisor, log, from)
  {
    hide SupervisorStopped, SupervisorStays;
    var asked :| asked <= log && RootIsDone(root, asked, from)
                 && SupervisorDecides(owner.supervisor, waits.kill, log, |asked|, r);
    StoppedSupervisorIsGone(owner.supervisor, waits.kill, log, |asked|);
    GoneEarlier(owner.supervisor, log, log, |asked|, from);
  }

  lemma FinishedTreeIsGone(owner: Owner, root: Info, waits: Waits, log: seq<Event>, from: nat, r: StopResult)
    requires FinishDecides(owner, root, waits, log, from, r) && r.Stopped?
    ensures r == Stopped(true) && GoneSince(owner.supervisor, log, from) && Records(owner, root, log[|log| - 1])
  {
    hide SupervisorStopped, SupervisorStays, SawNoExit, SawExit, SameProcessIdentity;
    var killed :| killed <= log && SawExit(root, killed, from + 2)
                  && EndingDecides(owner, root, waits, log, |killed|, r);
    SawExitIsLonger(root, killed, from + 2);
    var gone :| gone <= log && SupervisorStopped(owner.supervisor, waits.kill, gone, |killed|)
                && RecordingDecides(owner, root, log, |gone|, r);
    StoppedSupervisorIsGone(owner.supervisor, waits.kill, gone, |killed|);
    GoneEarlier(owner.supervisor, gone, log, |killed|, from);
  }

  lemma SawExitIsLonger(i: Info, log: seq<Event>, from: nat)
    requires SawExit(i, log, from)
    ensures |log| > from
  {
  }

  /** The drain emptied the group, and then the root was killed, the supervisor
      stopped and the stop recorded. */
  ghost predicate RecordedAfterDrain(owner: Owner, root: Info, log: seq<Event>, from: nat) {
    && log != [] && Records(owner, root, log[|log| - 1])
    && exists j | from <= j < |log| ::
         SeenEmptyTwice(root, log[..j]) && Shows(root, log[j]) && Sent(root.pid, Kill, log[j + 1])
  }

  lemma DrainedTreeIsGone(owner: Owner, root: Info, waits: Waits, log: seq<Event>, from: nat, r: StopResult)
    requires DrainingDecides(owner, root, waits, log, from, r) && r.Stopped?
    ensures GoneSince(owner.supervisor, log, from)
    ensures r == Stopped(true) ==> RecordedAfterDrain(owner, root, log, from)
  {
    hide Drained, FinishDecides, ReviewDecides, Records, Shows, SeenEmptyTwice;
    var drained, cleanup :| drained <= log && Drained(owner, root, waits, drained, from, cleanup)
      && if cleanup.Stopped? then FinishDecides(owner, root, waits, log, |drained|, r)
         else ReviewDecides(owner, root, waits, log, |drained|, cleanup, r);
    DrainedIsLonger(owner, root, waits, drained, from, cleanup);
    if cleanup.Stopped? {
      FinishedTreeIsGone(owner, root, waits, log, |drained|, r);
      GoneEarlier(owner.supervisor, log, log, |drained|, from);
      KilledFirst(owner, root, waits, log, |drained|, r);
      assert log[..|drained|] == drained;
    } else {
      ReviewedTreeIsGone(owner, root, waits, log, |drained|, cleanup, r);
      GoneEarlier(owner.supervisor, log, log, |drained|, from);
    }
  }

  lemma DrainedIsLonger(owner: Owner, root: Info, waits: Waits, log: seq<Event>, from: nat, r: StopResult)
    requires Drained(owner, root, waits, log, from, r)
    ensures |log| > from
    ensures r.Stopped? ==> SeenEmptyTwice(root, log)
  {
    hide SeenEmpty, Rounds, AllHandled, NeverEmptyTwice, OnlyNamed, KillsLate, Calm;
  }

  lemma KilledFirst(owner: Owner, root: Info, waits: Waits, log: seq<Event>, from: nat, r: StopResult)
    requires FinishDecides(owner, root, waits, log, from, r)
    ensures from + 1 < |log| && Shows(root, log[from]) && Sent(root.pid, Kill, log[from + 1])
  {
  }

  lemma ReviewedTreeIsGone(
    owner: Owner, root: Info, waits: Waits, log: seq<Event>, from: nat, cleanup: StopResult, r: StopResult)
    requires ReviewDecides(owner, root, waits, log, from, cleanup, r) && r.Stopped? && !cleanup.Stopped?
    ensures r == Stopped(false) && GoneSince(owner.supervisor, log, from)
  {
    hide SupervisorStopped, SupervisorStays;
    StoppedSupervisorIsGone(owner.supervisor, waits.kill, log, from + 2);
    GoneEarlier(owner.supervisor, log, log, from + 2, from);
  }

  lemma RootedTreeIsGone(owner: Owner, root: Info, waits: Waits, log: seq<Event>, from: nat, r: StopResult)
    requires RootedDecides(owner, root, waits, log, from, r) && r.Stopped?
    ensures GoneSince(owner.supervisor, log, from)
    ensures r == Stopped(true) ==> exists at | from <= at :: RecordedAfterDrain(owner, root, log, at)
  {
    hide AskingDecides, RootStays, DrainingDecides, RecordedAfterDrain;
    if AskingDecides(owner, root, waits, log, from, r) {
      AskedTreeIsGone(owner, root, waits, log, from, r);
    } else {
      var asked :| asked <= log && RootStays(root, waits, asked, from)
                   && DrainingDecides(owner, root, waits, log, |asked|, r);
      StaysIsLonger(root, waits, asked, from);
      DrainedTreeIsGone(owner, root, waits, log, |asked|, r);
      GoneEarlier(owner.supervisor, log, log, |asked|, from);
    }
  }

  lemma StaysIsLonger(root: Info, waits: Waits, log: seq<Event>, from: nat)
    requires RootStays(root, waits, log, from)
    ensures |log| > from
  {
  }

  // ---------------------------------------------------------------------
  // Over any course of a stop
  // ---------------------------------------------------------------------

  /** The file ended up saying stopped, or a supervisor that was read from it
      was seen gone. */
  ghost predicate GoneOrSaid(log: seq<Event>, from: nat) {
    (log != [] && SaysStopped(log[|log| - 1])) || SupervisorSeenGone(log, from)
  }

  /** A record with a root was read, and that tree was drained and recorded. */
  ghost predicate EscalationRecorded(log: seq<Event>, from: nat) {
    exists k, root, at | from <= k < |log| && log[k].Read? && log[k].owner.Some? && k <= at ::
      log[k].owner.value.backendRoot == Some(root) && RecordedAfterDrain(log[k].owner.value, root, log, at)
  }

  /** What a stop that reports success has seen, whatever course it took. */
  ghost predicate StopIsFounded(log: seq<Event>, from: nat, r: StopResult) {
    GoneOrSaid(log, from) && (r == Stopped(true) ==> EscalationRecorded(log, from))
  }

  lemma FoundedEarlier(log: seq<Event>, from: nat, earlier: nat, r: StopResult)
    requires StopIsFounded(log, from, r) && earlier <= from
    ensures StopIsFounded(log, earlier, r)
  {
    hide GoneSince, RecordedAfterDrain;
  }

  lemma RootedIsFounded(owner: Owner, root: Info, waits: Waits, log: seq<Event>, read: nat, r: StopResult)
    requires read < |log| && log[read].Read? && log[read].owner == Some(owner) && owner.backendRoot == Some(root)
    requires RootedDecides(owner, root, waits, log, read + 2, r) && r.Stopped?
    ensures StopIsFounded(log, read, r)
  {
    RootedTreeIsGone(owner, root, waits, log, read + 2, r);
    GoneEarlier(owner.supervisor, log, log, read + 2, read);
    hide GoneSince, RecordedAfterDrain, RootedDecides;
  }

  lemma ConfirmedIsFounded(waits: Waits, log: seq<Event>, from: nat, r: StopResult)
    requires ConfirmingDecides(waits, log, from, r) && r.Stopped?
    ensures r == Stopped(false) && SupervisorSeenGone(log, from)
  {
    hide NotConfirmed, Polls, NeverGoneTwice, NeverAnother;
    var marks, tried :| tried <= log && |marks| <= 6 && NeverConfirmed(waits, tried, from, marks)
      && |tried| < |log| && |marks| <= 5 && SaysStopped(log[|tried|])
      && r == Stopped(false) && SawGone(log[|tried|].owner.value.supervisor, log, |tried| + 1);
    assert SeenGone(log[|tried|].owner.value.supervisor.pid, log[|log| - 1]);
    assert GoneSince(log[|tried|].owner.value.supervisor, log, |tried|);
    MarksAscend(waits, tried, from, marks);
  }

  lemma MarksAscend(waits: Waits, log: seq<Event>, from: nat, marks: seq<nat>)
    requires NeverConfirmed(waits, log, from, marks)
    ensures |log| >= from
  {
    for n := 1 to |marks|
      invariant marks[n - 1] >= from
    {
      assert NotConfirmed(waits, log[..marks[n]], marks[n - 1]);
    }
  }

  /** A stop that reports success: the file says so, or a supervisor that it
      named was seen gone; and after an escalation the recorded tree's group
      was seen empty twice, then its root killed, and the stop written down. */
  lemma {:induction false} SuccessIsFounded(waits: Waits, log: seq<Event>, from: nat, r: StopResult)
    requires StopDecides(waits, log, from, r) && r.Stopped?
    ensures StopIsFounded(log, from, r)
    decreases |log| - from, 3
  {
    hide StopIsFounded, TryDecides, ConfirmingDecides, Fails;
    var owner := log[from].owner.value;
    if owner.status == StoppedStatus {
      SaidIsFounded(log, from);
    } else if TryDecides(owner, waits, log, from + 1, r) {
      TriedIsFounded(owner, waits, log, from, r);
    } else {
      var failed, failure :| failed <= log && from < |failed| && Fails(TargetsOf(owner).exact, failed, failure)
        && if failure == IdentityMismatch || failure == NoSuchProcess then ConfirmingDecides(waits, log, |failed|, r)
           else failed == log && r == SignalFailed(failure);
      ConfirmedIsFounded(waits, log, |failed|, r);
      SeenIsFounded(log, |failed|);
      FoundedEarlier(log, |failed|, from, r);
    }
  }

  lemma SaidIsFounded(log: seq<Event>, from: nat)
    requires log != [] && SaysStopped(log[|log| - 1])
    ensures StopIsFounded(log, from, Stopped(false))
  {
  }

  lemma SeenIsFounded(log: seq<Event>, from: nat)
    requires SupervisorSeenGone(log, from)
    ensures StopIsFounded(log, from, Stopped(false))
  {
  }

  lemma TriedIsFounded(owner: Owner, waits: Waits, log: seq<Event>, read: nat, r: StopResult)
    requires read < |log| && log[read].Read? && log[read].owner == Some(owner)
    requires TryDecides(owner, waits, log, read + 1, r) && r.Stopped?
    ensures StopIsFounded(log, read, r)
    decreases |log| - read, 2
  {
    hide StopIsFounded, RootedDecides, LauncherAsked, SettlingDecides;
    if owner.backendRoot.Some? {
      RootedIsFounded(owner, owner.backendRoot.value, waits, log, read, r);
    } else {
      var asked :| asked <= log && read + 2 < |asked| && LauncherAsked(owner.supervisor, waits.term, asked, read + 2)
                   && SettlingDecides(owner, waits, log, |asked|, r);
      SettledIsFounded(owner, waits, log, |asked|, r);
      FoundedEarlier(log, |asked|, read, r);
    }
  }

  lemma ReadingIsFounded(owner: Owner, waits: Waits, log: seq<Event>, from: nat, r: StopResult)
    requires ReadingDecides(owner, waits, log, from, r) && r.Stopped?
    ensures StopIsFounded(log, from, r)
    decreases |log| - from, 0
  {
    hide StopIsFounded, StopDecides;
    SuccessIsFounded(waits, log, from + 1, r);
    FoundedEarlier(log, from + 1, from, r);
  }

  lemma SettledIsFounded(owner: Owner, waits: Waits, log: seq<Event>, from: nat, r: StopResult)
    requires SettlingDecides(owner, waits, log, from, r) && r.Stopped?
    ensures StopIsFounded(log, from, r)
    decreases |log| - from, 1
  {
    hide StopIsFounded, ReadingDecides, LaunchPause, Unchanged, Intact;
    if ReadingDecides(owner, waits, log, from, r) {
      ReadingIsFounded(owner, waits, log, from, r);
    } else {
      var slept := log[from + 1].Slept?;
      var at := if slept && ReadingDecides(owner, waits, log, from + 2, r) then from + 2
                else if slept then from + 4 else from + 2;
      ReadingIsLonger(owner, waits, log, at, r);
      ReadingIsFounded(owner, waits, log, at, r);
      FoundedEarlier(log, at, from, r);
    }
  }

  lemma ReadingIsLonger(owner: Owner, waits: Waits, log: seq<Event>, from: nat, r: StopResult)
    requires ReadingDecides(owner, waits, log, from, r)
    ensures from < |log|
  {
  }

  // ---------------------------------------------------------------------
  // Whom a signal reaches
  // ---------------------------------------------------------------------

  /** All that is known of a process but its parent. */
  predicate Same(x: Info, i: Info) {
    x.(parentPid := i.parentPid) == i
  }

  lemma IdenticalIsSame(x: Info, i: Info)
    requires SameProcessIdentity(x, i)
    ensures Same(x, i)
  {
  }

  /** The scan right before a signal shows, under its pid, a process that has
      all the fields of a recorded one, or of one that an earlier scan listed;
      the latter next to the recorded root itself, in its group and session. */
  lemma SignalsReachTheirTargets(acting: set<Targets>, log: seq<Event>, k: nat)
    requires Safe(acting, log) && k < |log| && log[k].Signalled?
    ensures k > 0 && log[k - 1].Scanned?
    ensures exists i, who | i in log[k - 1].table && i.pid == log[k].pid && who in acting ::
              || (exists x | x in who.exact :: Same(x, i))
              || (exists anchor, root, j, m | who.anchor == Some(anchor) && root in log[k - 1].table
                    && 0 <= j < k - 1 && log[j].Scanned? && m in log[j].table ::
                    && Same(anchor, root) && Same(m, i) && i.pid != anchor.pid
                    && i.group == anchor.group && i.session == anchor.session)
  {
    var who :| who in acting && Justified(who, log[..k - 1], log[k - 1].table, log[k].pid);
    var table := log[k - 1].table;
    var i := Find(table, log[k].pid).value;
    if x :| x in who.exact && SameProcessIdentity(x, i) {
      assert Same(x, i);
    } else {
      var anchor := who.anchor.value;
      var root := Find(table, anchor.pid).value;
      var j, m :| 0 <= j < k - 1 && log[j].Scanned? && m in log[j].table && SameProcessIdentity(m, i);
      IdenticalIsSame(anchor, root);
      IdenticalIsSame(m, i);
    }
  }

  /** Conversely: a process is taken for the recorded one exactly if only its
      parent may differ. */
  lemma TakenForTheSameExactly(x: Info, table: seq<Info>)
    ensures Shows(x, Scanned(table, 0)) <==>
            exists k | 0 <= k < |table| :: Same(x, table[k]) && forall j | 0 <= j < k :: table[j].pid != x.pid
  {
    if Shows(x, Scanned(table, 0)) {
      var k :| 0 <= k < |table| && table[k] == Find(table, x.pid).value
               && forall j | 0 <= j < k :: table[j].pid != x.pid;
      assert Same(x, table[k]);
    }
    if exists k | 0 <= k < |table| :: Same(x, table[k]) && forall j | 0 <= j < k :: table[j].pid != x.pid {
      var k :| 0 <= k < |table| && Same(x, table[k]) && forall j | 0 <= j < k :: table[j].pid != x.pid;
      FirstIsFound(table, x.pid, k);
    }
  }

  lemma {:induction false} FirstIsFound(table: seq<Info>, pid: nat, k: nat)
    requires k < |table| && table[k].pid == pid && forall j | 0 <= j < k :: table[j].pid != pid
    ensures Find(table, pid) == Some(table[k])
  {
    if k > 0 {
      FirstIsFound(table[1..], pid, k - 1);
    }
  }
}
