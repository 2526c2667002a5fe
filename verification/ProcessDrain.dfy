/** Draining and stopping an owned process tree against a process table that
  may be different at every scan. */
module ProcessDrain {
  import opened Wrappers
  import opened ProcessLog

  class Host {
    // Everything observed and done so far, and the clock in milliseconds.
    ghost var log: seq<Event>
    var now: nat
    // The records that a stop acts upon.
    ghost var acting: set<Targets>

    constructor ()
      ensures log == [] && acting == {}
    {
      log, now, acting := [], 0, {};
    }

    ghost predicate Valid()
      reads this
    {
      Safe(acting, log)
    }

    /** Any process table at all may be found, or none. */
    method Scan() returns (r: Result<seq<Info>, Failure>)
      requires Valid()
      modifies this`log, this`now
      ensures Valid() && now >= old(now)
      ensures log == old(log) + [if r.Ok? then Scanned(r.value, now) else ScanFailed(r.error)]
    {
      var delay: nat :| true;
      now := now + delay;
      var failed: bool := *;
      if failed {
        var failure: Failure := *;
        r := Err(failure);
      } else {
        var table: seq<Info> := *;
        r := Ok(table);
      }
      ghost var e := if r.Ok? then Scanned(r.value, now) else ScanFailed(r.error);
      SafeQuiet(acting, log, e);
      log := log + [e];
    }

    method Sleep(milliseconds: nat)
      requires Valid()
      modifies this`log, this`now
      ensures Valid() && now >= old(now) + milliseconds
      ensures log == old(log) + [Slept(milliseconds, now)]
    {
      var late: nat :| true;
      now := now + milliseconds + late;
      SafeQuiet(acting, log, Slept(milliseconds, now));
      log := log + [Slept(milliseconds, now)];
    }

    /** A signal is only sent right after a scan that justifies it. */
    method Signal(pid: nat, name: SignalName, ghost who: Targets) returns (r: Result<(), Failure>)
      requires Valid() && who in acting
      requires log != [] && log[|log| - 1].Scanned?
      requires Justified(who, log[..|log| - 1], log[|log| - 1].table, pid)
      modifies this`log
      ensures Valid() && log == old(log) + [Signalled(pid, name, if r.Ok? then None else Some(r.error))]
    {
      var refused: Option<Failure> := *;
      SafeSignal(acting, log, who, Signalled(pid, name, refused));
      log := log + [Signalled(pid, name, refused)];
      r := if refused.Some? then Err(refused.value) else Ok(());
    }

    // -------------------------------------------------------------------
    // Draining
    // -------------------------------------------------------------------

    method ScanMembers(anchor: Info) returns (r: Result<seq<Info>, Failure>)
      requires Valid()
      modifies this`log, this`now
      ensures Valid() && now >= old(now) && old(log) <= log && |log| == |old(log)| + 1
      ensures var e := log[|old(log)|];
              && Thrown(anchor, e) == (if r.Ok? then None else Some(r.error))
              && !e.Signalled? && !e.Slept?
              && (r.Ok? ==> Shows(anchor, e) && e.at <= now)
              && (r.Ok? ==> forall i :: i in r.value <==> i in e.table && InGroup(anchor, i))
    {
      hide Safe, Intact, InGroup;
      var table :- Scan();
      r := OwnedMembers(anchor, table);
    }

    /** Signals one listed member if the newest scan still shows it. */
    method SignalMember(anchor: Info, member: Info, name: SignalName, ghost at: nat, ghost who: Targets)
      returns (r: Result<(), Failure>)
      requires Valid() && who in acting && who.anchor == Some(anchor)
      requires at < |log| && log[at].Scanned? && IsMember(anchor, log[at].table, member)
      modifies this`log, this`now
      ensures Valid() && now >= old(now) && old(log) < log && Spared(anchor.pid, log, |old(log)|)
      ensures OnlyNamed(name, log, |old(log)|) && NoPauses(log, |old(log)|)
      ensures if r.Ok? then Calm(anchor, log, |old(log)|) else Thrown(anchor, log[|log| - 1]) == Some(r.error)
      ensures r.Ok? ==> Handled(member, name, log, |old(log)|)
    {
      hide Safe, SameProcessIdentity, Find, Justified;
      ghost var before := log;
      var latest :- Scan();
      var intact :- ValidatedAnchor(anchor, latest);
      var current := Find(latest, member.pid);
      if current == None || !SameProcessIdentity(member, current.value) {
        assert HandledAt(member, name, log, |log| - 1);
        return Ok(());
      }
      MemberIsJustified(who, anchor, before, at, member, latest);
      assert log[..|log| - 1] == before;
      var sent := Signal(member.pid, name, who);
      assert HandledAt(member, name, log, |before|);
      r := if sent.Err? && sent.error != NoSuchProcess then sent else Ok(());
    }

    method SignalMembers(anchor: Info, name: SignalName, ghost who: Targets) returns (r: Result<nat, Failure>)
      requires Valid() && who in acting && who.anchor == Some(anchor)
      modifies this`log, this`now
      ensures Valid() && now >= old(now) && old(log) < log && Spared(anchor.pid, log, |old(log)|)
      ensures OnlyNamed(name, log, |old(log)|) && NoPauses(log, |old(log)|)
      ensures if r.Ok? then Calm(anchor, log, |old(log)|) else Thrown(anchor, log[|log| - 1]) == Some(r.error)
      ensures r.Ok? ==> AllHandled(anchor, name, log, |old(log)|) && log[|old(log)|].at <= now
    {
      hide Safe, Intact, SameProcessIdentity, Find, Handled, Thrown;
      ghost var at := |log|;
      var members :- ScanMembers(anchor);
      ghost var listed := log[at];
      for n := 0 to |members|
        invariant Valid() && now >= old(now) && old(log) < log && listed.at <= now
        invariant at < |log| && log[at] == listed && Spared(anchor.pid, log, at) && OnlyNamed(name, log, at)
        invariant Calm(anchor, log, at) && NoPauses(log, at)
        invariant forall m | 0 <= m < n :: Handled(members[m], name, log, at)
      {
        ghost var before := log;
        var sent :- SignalMember(anchor, members[n], name, at, who);
        forall m | 0 <= m <= n
          ensures Handled(members[m], name, log, at)
        {
          HandledMore(members[m], name, if m < n then before else log, log, if m < n then at else |before|, at);
        }
      }
      r := Ok(|members|);
    }

    /** One look at the group: whether it was empty, and if not its members are
        signalled. */
    method Look(anchor: Info, name: SignalName, ghost who: Targets) returns (r: Result<bool, Failure>)
      requires Valid() && who in acting && who.anchor == Some(anchor)
      modifies this`log, this`now
      ensures Valid() && now >= old(now) && old(log) < log && Spared(anchor.pid, log, |old(log)|)
      ensures OnlyNamed(name, log, |old(log)|) && NoPauses(log, |old(log)|)
      ensures if r.Ok? then Calm(anchor, log, |old(log)|) else Thrown(anchor, log[|log| - 1]) == Some(r.error)
      ensures r.Ok? ==> Shows(anchor, log[|old(log)|]) && r.value == SeenEmpty(anchor, log[|old(log)|])
      ensures r == Ok(true) ==> |log| == |old(log)| + 1
      ensures r == Ok(false) ==> AllHandled(anchor, name, log, |old(log)| + 1)
    {
      hide Safe, Intact, Thrown, Handled;
      ghost var at := |log|;
      var members :- ScanMembers(anchor);
      if |members| == 0 {
        return Ok(true);
      }
      assert members[0] in members;
      var signalled :- SignalMembers(anchor, name, who);
      r := Ok(false);
    }

    /** Whether the group was seen empty twice in a row before the deadline. */
    method WaitForEmpty(anchor: Info, timeout: nat, name: SignalName, ghost who: Targets)
      returns (r: Result<bool, Failure>)
      requires Valid() && who in acting && who.anchor == Some(anchor)
      modifies this`log, this`now
      ensures Valid() && now >= old(now) && old(log) < log && Spared(anchor.pid, log, |old(log)|)
      ensures OnlyNamed(name, log, |old(log)|)
      ensures if r.Ok? then Calm(anchor, log, |old(log)|) else Thrown(anchor, log[|log| - 1]) == Some(r.error)
      ensures r == Ok(true) ==> SawEmpty(anchor, name, log, |old(log)|)
      ensures r == Ok(false) ==> SawNotEmpty(anchor, name, log, |old(log)|, old(now) + timeout)
    {
      hide Safe, Intact, InGroup, SeenEmpty, Shows, AllHandled, Rounds, NeverEmptyTwice;
      ghost var from := |log|;
      NoRoundsYet(anchor, name, log);
      var deadline := now + timeout;
      var emptyScans := 0;
      while now <= deadline
        invariant Valid() && now >= old(now) && old(log) <= log
        invariant Spared(anchor.pid, log, from) && OnlyNamed(name, log, from) && Calm(anchor, log, from)
        invariant if |log| == from then now == old(now) else log[|log| - 1].Slept? && log[|log| - 1].until == now
        invariant Rounds(anchor, name, log, from) && NeverEmptyTwice(anchor, log, from)
        invariant 0 <= emptyScans <= 1
        invariant emptyScans == 1 <==> LastLookEmpty(anchor, log, from)
        decreases deadline + 1 - now
      {
        ghost var head := log;
        var empty :- Look(anchor, name, who);
        if empty {
          emptyScans := emptyScans + 1;
          if emptyScans >= 2 {
            EmptyAtLast(anchor, name, head, log, from);
            return Ok(true);
          }
        } else {
          emptyScans := 0;
        }
        ghost var looked := log;
        Sleep(20);
        OneRound(anchor, name, head, looked, log, from);
      }
      r := Ok(false);
    }

    /** Signals all members, and then waits for them to go. */
    method SignalAndWait(anchor: Info, name: SignalName, wait: nat, ghost who: Targets)
      returns (r: Result<bool, Failure>)
      requires Valid() && who in acting && who.anchor == Some(anchor)
      modifies this`log, this`now
      ensures Valid() && now >= old(now) && old(log) < log && Spared(anchor.pid, log, |old(log)|)
      ensures OnlyNamed(name, log, |old(log)|)
      ensures if r.Ok? then Calm(anchor, log, |old(log)|) else Thrown(anchor, log[|log| - 1]) == Some(r.error)
      ensures r.Ok? ==> PhaseEnds(anchor, name, wait, log, |old(log)|, r.value)
    {
      hide Safe, Thrown, AllHandled, SawEmpty, SawNotEmpty, PhaseEnds;
      ghost var from := |log|;
      var signalled :- SignalMembers(anchor, name, who);
      ghost var asked, begun := log, now;
      r := WaitForEmpty(anchor, wait, name, who);
      if r.Ok? {
        PhaseIsOver(anchor, name, wait, asked, log, from, begun, r.value);
      }
    }

    /** The two phases, with a failure as the result when one is thrown. */
    method TryDrain(anchor: Info, waits: Waits, ghost who: Targets) returns (r: Result<StopResult, Failure>)
      requires Valid() && who in acting && who.anchor == Some(anchor)
      modifies this`log, this`now
      ensures Valid() && now >= old(now) && old(log) < log && Spared(anchor.pid, log, |old(log)|)
      ensures if r.Ok? then Calm(anchor, log, |old(log)|) else Thrown(anchor, log[|log| - 1]) == Some(r.error)
      ensures r.Ok? ==> DrainDecides(anchor, waits, log, |old(log)|, r.value)
      ensures KillsLate(anchor, waits, log, |old(log)|)
    {
      hide Safe, Thrown, PhaseEnds;
      var empty :- SignalAndWait(anchor, Term, waits.term, who);
      if empty {
        return Ok(Stopped(false));
      }
      ghost var asked := log;
      empty :- SignalAndWait(anchor, Kill, waits.kill, who);
      r := Ok(if empty then Stopped(true) else StillRunning);
    }

    method DrainAnchoredGroup(owner: Owner, anchor: Info, waits: Waits, ghost who: Targets) returns (r: StopResult)
      requires Valid() && who in acting && who.anchor == Some(anchor)
      modifies this`log, this`now
      ensures Valid() && now >= old(now) && old(log) < log && Spared(anchor.pid, log, |old(log)|)
      ensures Drained(owner, anchor, waits, log, |old(log)|, r)
      ensures r.Stopped? ==> SeenEmptyTwice(anchor, log)
      ensures r == Stopped(false) ==> OnlyNamed(Term, log, |old(log)|)
    {
      hide Safe, Thrown, DrainDecides, PhaseEnds;
      var bootId := BootId();
      if bootId.Err? {
        return if bootId.error == IdentityMismatch then Mismatch else SignalFailed(bootId.error);
      }
      if bootId.value != owner.bootId {
        return Mismatch;
      }
      ghost var from := |log|;
      var drained := TryDrain(anchor, waits, who);
      match drained
      case Ok(result) =>
        r := result;
        DrainEndsEmpty(anchor, waits, log, from, r);
      case Err(failure) => r := if failure == IdentityMismatch then Mismatch else SignalFailed(failure);
    }

    method BootId() returns (r: Result<Option<string>, Failure>)
      requires Valid()
      modifies this`log
      ensures Valid() && log == old(log) + [Booted(r)]
    {
      r := *;
      SafeQuiet(acting, log, Booted(r));
      log := log + [Booted(r)];
    }

    // -------------------------------------------------------------------
    // Waiting
    // -------------------------------------------------------------------

    method WaitForSupervisorExit(supervisor: Info, timeout: nat) returns (r: Result<bool, Failure>)
      requires Valid()
      modifies this`log, this`now
      ensures Valid() && now >= old(now) && old(log) < log && NoSignals(log, |old(log)|)
      ensures r == Ok(true) ==> SawGone(supervisor, log, |old(log)|)
      ensures r == Ok(false) ==> SawNotGone(supervisor, log, |old(log)|, old(now) + timeout)
      ensures r.Err? ==> Fails({supervisor}, log, r.error) && !log[|log| - 1].Signalled? && !log[|log| - 1].WriteFailed?
      ensures r.Err? ==> log[|log| - 1].ScanFailed? || ShowsOther(supervisor, log[|log| - 1])
    {
      hide Safe, Find, SameProcessIdentity, Polling, SawGone;
      ghost var from := |log|;
      NoPollsYet(supervisor, log);
      var deadline := now + timeout;
      var emptyScans := 0;
      while now <= deadline
        invariant Valid() && now >= old(now) && old(log) <= log && NoSignals(log, from)
        invariant if |log| == from then now == old(now) else log[|log| - 1].Slept? && log[|log| - 1].until == now
        invariant Polling(supervisor, log, from)
        invariant 0 <= emptyScans <= 1
        invariant emptyScans == 1 <==> |log| >= from + 2 && SeenGone(supervisor.pid, log[|log| - 2])
        decreases deadline + 1 - now
      {
        ghost var head := log;
        var table :- Scan();
        var candidate := Find(table, supervisor.pid);
        if candidate == None {
          emptyScans := emptyScans + 1;
          if emptyScans >= 2 {
            GoneAtLast(supervisor, head, log, from);
            return Ok(true);
          }
        } else {
          emptyScans := 0;
          if !SameProcessIdentity(supervisor, candidate.value) {
            return Err(IdentityMismatch);
          }
        }
        Sleep(20);
        OnePoll(supervisor, head, log, from);
      }
      PollingIsOver(supervisor, log, from, old(now) + timeout);
      r := Ok(false);
    }

    method WaitForExactProcessExit(expected: Info, timeout: nat) returns (r: Result<bool, Failure>)
      requires Valid()
      modifies this`log, this`now
      ensures Valid() && now >= old(now) && old(log) < log && NoSignals(log, |old(log)|)
      ensures r == Ok(true) ==> SawExit(expected, log, |old(log)|)
      ensures r == Ok(false) ==> SawNoExit(expected, log, |old(log)|, old(now) + timeout)
      ensures r.Err? ==> log[|log| - 1] == ScanFailed(r.error)
    {
      hide Safe, Find, SameProcessIdentity;
      ghost var from := |log|;
      var deadline := now + timeout;
      while now <= deadline
        invariant Valid() && now >= old(now) && old(log) <= log && NoSignals(log, from)
        invariant if |log| == from then now == old(now) else log[|log| - 1].Slept? && log[|log| - 1].until == now
        invariant PollsSoFar(log, from) && (|log| - from) % 2 == 0
        invariant forall k | from <= k < |log| && log[k].Scanned? :: Shows(expected, log[k])
        decreases deadline + 1 - now
      {
        var table :- Scan();
        var candidate := Find(table, expected.pid);
        if candidate == None || !SameProcessIdentity(expected, candidate.value) {
          return Ok(true);
        }
        Sleep(20);
      }
      r := Ok(false);
    }

    // -------------------------------------------------------------------
    // Stopping the supervisor
    // -------------------------------------------------------------------

    /** Whether the supervisor is gone; no other process is signalled. */
    method StopSupervisor(owner: Owner, waits: Waits, ghost who: Targets) returns (r: Result<bool, Failure>)
      requires Valid() && who in acting && owner.supervisor in who.exact
      modifies this`log, this`now
      ensures Valid() && now >= old(now) && old(log) < log && OnlySignals(owner.supervisor.pid, log, |old(log)|)
      ensures KillsOnlyStubborn(owner.supervisor, waits.kill, log, |old(log)|)
      ensures r == Ok(true) ==> SupervisorStopped(owner.supervisor, waits.kill, log, |old(log)|)
      ensures r == Ok(false) ==> SupervisorStays(owner.supervisor, waits.kill, log, |old(log)|)
      ensures r.Err? ==> Fails({owner.supervisor}, log, r.error)
    {
      hide Safe, SameProcessIdentity, Justified, SawGone, SawNotGone;
      ghost var from := |log|;
      var table :- Scan();
      var current := Find(table, owner.supervisor.pid);
      if current == None {
        return Ok(true);
      }
      if !SameProcessIdentity(owner.supervisor, current.value) {
        return Ok(false);
      }
      ExactIsJustified(who, log[..|log| - 1], table, owner.supervisor);
      ghost var seen := now;
      var asked :- Signal(owner.supervisor.pid, Term, who);
      var gone :- WaitForSupervisorExit(owner.supervisor, waits.kill);
      if gone {
        return Ok(true);
      }
      LateEnough(owner.supervisor, log, from + 2, seen + waits.kill, log[from].at + waits.kill);
      r := KillSupervisor(owner.supervisor, waits.kill, who, from);
    }

    /** The second half: the supervisor has outlived its wait. */
    method KillSupervisor(supervisor: Info, wait: nat, ghost who: Targets, ghost from: nat)
      returns (r: Result<bool, Failure>)
      requires Valid() && who in acting && supervisor in who.exact
      requires SupervisorAsked(supervisor, log, from) && OnlyNamed(Term, log, from)
      requires from + 2 < |log| && SawNotGone(supervisor, log, from + 2, log[from].at + wait)
      modifies this`log, this`now
      ensures Valid() && now >= old(now) && old(log) < log && OnlySignals(supervisor.pid, log, |old(log)|)
      ensures KillsOnlyStubborn(supervisor, wait, log, from)
      ensures r == Ok(true) ==> SupervisorStopped(supervisor, wait, log, from)
      ensures r == Ok(false) ==> SupervisorStays(supervisor, wait, log, from)
      ensures r.Err? ==> Fails({supervisor}, log, r.error)
    {
      hide Safe, Intact, Justified, SawGone, SawNotGone, Find, KillsStubborn, SupervisorAsked, OnlyNamed;
      ghost var asked := log;
      var again := Scan();
      if again.Err? || !Intact(supervisor, again.value) {
        OnlyNamedMore(asked, log, from);
        return Err(if again.Err? then again.error else IdentityMismatch);
      }
      ExactIsJustified(who, log[..|log| - 1], again.value, supervisor);
      ghost var seen := now;
      var killed := Signal(supervisor.pid, Kill, who);
      StubbornIsKilled(supervisor, wait, asked, log, from);
      if killed.Err? {
        return Err(killed.error);
      }
      ghost var sent := log;
      r := WaitForSupervisorExit(supervisor, wait);
      StubbornIsKilled(supervisor, wait, asked, log, from);
      if r == Ok(false) {
        LateEnough(supervisor, log, |sent|, seen + wait, log[|asked|].at + wait);
      }
    }

    method StopSupervisorToo(owner: Owner, waits: Waits, ghost who: Targets) returns (r: Result<StopResult, Failure>)
      requires Valid() && who in acting && owner.supervisor in who.exact
      modifies this`log, this`now
      ensures Valid() && now >= old(now) && old(log) < log && OnlySignals(owner.supervisor.pid, log, |old(log)|)
      ensures r.Ok? ==> SupervisorDecides(owner.supervisor, waits.kill, log, |old(log)|, r.value)
      ensures r.Err? ==> Fails({owner.supervisor}, log, r.error)
    {
      hide Safe, SupervisorStopped, SupervisorStays, KillsOnlyStubborn, Fails;
      var gone :- StopSupervisor(owner, waits, who);
      r := Ok(if gone then Stopped(false) else Mismatch);
    }

    // -------------------------------------------------------------------
    // Stopping a tree with a recorded root
    // -------------------------------------------------------------------

    /** The file holds whatever others wrote, or nothing readable. */
    method ReadProcessOwner() returns (r: Option<Owner>)
      requires Valid()
      modifies this`log
      ensures Valid() && log == old(log) + [Read(r, now)]
    {
      r := *;
      SafeQuiet(acting, log, Read(r, now));
      log := log + [Read(r, now)];
    }

    method WriteOwner(owner: Owner) returns (r: Result<(), Failure>)
      requires Valid()
      modifies this`log
      ensures Valid()
      ensures log == old(log) + [if r.Ok? then Wrote(owner) else WriteFailed(r.error)]
    {
      var failed: bool, failure: Failure := *, *;
      r := if failed then Err(failure) else Ok(());
      ghost var e := if r.Ok? then Wrote(owner) else WriteFailed(r.error);
      SafeQuiet(acting, log, e);
      log := log + [e];
    }

    /** The first half: ask the recorded root to exit. No outcome means that it
        is still there and its group has to be drained. */
    method AskRoot(owner: Owner, root: Info, waits: Waits, ghost who: Targets)
      returns (r: Result<Option<StopResult>, Failure>)
      requires Valid() && who in acting && who == TargetsOf(owner) && owner.backendRoot == Some(root)
      modifies this`log, this`now
      ensures Valid() && now >= old(now) && old(log) < log
      ensures owner.supervisor.pid != root.pid ==> NoKill(root.pid, log, |old(log)|)
      ensures r == Ok(None) ==> RootStays(root, waits, log, |old(log)|)
      ensures r.Ok? && r.value.Some? ==> AskingDecides(owner, root, waits, log, |old(log)|, r.value.value)
      ensures r.Err? ==> Fails(who.exact, log, r.error)
    {
      hide Safe, Find, SameProcessIdentity, Justified, OnlySignals, SawExit, SawNoExit, AskingDecides;
      ghost var from := |log|;
      var table :- Scan();
      var found := Find(table, root.pid);
      if found == None || !SameProcessIdentity(root, found.value) {
        var completed := ReadProcessOwner();
        if completed.Some? && completed.value.status == StoppedStatus && found == None {
          r := StopAskedTree(owner, root, waits, who, from);
          return;
        }
        UnclearRootDecides(owner, root, waits, log, from);
        return Ok(Some(Mismatch));
      }
      ExactIsJustified(who, log[..|log| - 1], table, root);
      ghost var seen := now;
      var asked :- Signal(root.pid, Term, who);
      ghost var sent := log;
      var exited :- WaitForExactProcessExit(root, waits.term);
      assert sent <= log;
      if !exited {
        LateEnoughToo(root, log, from + 2, seen + waits.term, log[from].at + waits.term);
        return Ok(None);
      }
      r := ReviewExit(owner, root, waits, who, from);
    }

    /** The root has exited after it was asked to; the file has to say so. */
    method ReviewExit(owner: Owner, root: Info, waits: Waits, ghost who: Targets, ghost from: nat)
      returns (r: Result<Option<StopResult>, Failure>)
      requires Valid() && who in acting && who == TargetsOf(owner) && owner.backendRoot == Some(root)
      requires RootAsked(root, log, from) && SawExit(root, log, from + 2) && NoKill(root.pid, log, from)
      modifies this`log, this`now
      ensures Valid() && now >= old(now) && old(log) < log
      ensures owner.supervisor.pid != root.pid ==> NoKill(root.pid, log, from)
      ensures r.Ok? ==> r.value.Some? && AskingDecides(owner, root, waits, log, from, r.value.value)
      ensures r.Err? ==> Fails(who.exact, log, r.error)
    {
      hide Safe, SameProcessIdentity, Intact, SawExit, AskingDecides;
      ghost var gone := log;
      var completed := ReadProcessOwner();
      assert log[..|log| - 1] == gone;
      if completed == None || completed.value.status != StoppedStatus || completed.value.backendRoot == None
         || !SameProcessIdentity(completed.value.backendRoot.value, root) {
        UnclearRootDecides(owner, root, waits, log, from);
        return Ok(Some(Mismatch));
      }
      r := StopAskedTree(owner, root, waits, who, from);
    }

    method StopAskedTree(owner: Owner, root: Info, waits: Waits, ghost who: Targets, ghost from: nat)
      returns (r: Result<Option<StopResult>, Failure>)
      requires Valid() && who in acting && who == TargetsOf(owner) && owner.backendRoot == Some(root)
      requires from + 1 < |log| && NoKill(root.pid, log, from) && RootIsDone(root, log, from)
      modifies this`log, this`now
      ensures Valid() && now >= old(now) && old(log) < log
      ensures owner.supervisor.pid != root.pid ==> NoKill(root.pid, log, from)
      ensures r.Ok? ==> r.value.Some? && AskingDecides(owner, root, waits, log, from, r.value.value)
      ensures r.Err? ==> Fails(who.exact, log, r.error)
    {
      hide Safe, NoKill, RootIsDone, SupervisorDecides, Fails;
      ghost var before := log;
      var result := StopSupervisorToo(owner, waits, who);
      if owner.supervisor.pid != root.pid {
        NoKillAppend(root.pid, owner.supervisor.pid, before, log, from);
      }
      if result.Err? {
        FailsMore({owner.supervisor}, who.exact, log, result.error);
        return Err(result.error);
      }
      r := Ok(Some(result.value));
    }

    method StopRooted(owner: Owner, root: Info, waits: Waits, ghost who: Targets)
      returns (r: Result<StopResult, Failure>)
      requires Valid() && who in acting && who == TargetsOf(owner) && owner.backendRoot == Some(root)
      modifies this`log, this`now
      ensures Valid() && now >= old(now) && old(log) < log
      ensures r.Ok? ==> RootedDecides(owner, root, waits, log, |old(log)|, r.value)
      ensures r.Err? ==> Fails(who.exact, log, r.error)
      ensures owner.supervisor.pid != root.pid ==> RootKilledLast(root, log, |old(log)|)
    {
      hide Safe, SeenEmptyTwice, Spared, NoKill, RootStays, AskingDecides, DrainingDecides, Fails;
      ghost var from := |log|;
      var asked := AskRoot(owner, root, waits, who);
      if asked.Err? || asked.value.Some? {
        NoKillSoFar(root, log, from);
        return if asked.Err? then Err(asked.error) else Ok(asked.value.value);
      }
      ghost var before := log;
      r := DrainRoot(owner, root, waits, who, from);
    }

    /** The second half: the root has outstayed its wait. */
    method DrainRoot(owner: Owner, root: Info, waits: Waits, ghost who: Targets, ghost from: nat)
      returns (r: Result<StopResult, Failure>)
      requires Valid() && who in acting && who == TargetsOf(owner) && owner.backendRoot == Some(root)
      requires from <= |log| && (owner.supervisor.pid != root.pid ==> NoKill(root.pid, log, from))
      modifies this`log, this`now
      ensures Valid() && now >= old(now) && old(log) < log
      ensures r.Ok? ==> DrainingDecides(owner, root, waits, log, |old(log)|, r.value)
      ensures r.Err? ==> Fails(who.exact, log, r.error)
      ensures owner.supervisor.pid != root.pid ==> RootKilledLast(root, log, from)
    {
      hide Safe, SeenEmptyTwice, Spared, NoKill, Fails, Drained, FinishDecides, ReviewDecides;
      ghost var before := log;
      var cleanup := DrainAnchoredGroup(owner, root, waits, who);
      SparedIsNoKill(root, before, log, from);
      ghost var drained := log;
      if cleanup.Stopped? {
        r := FinishRoot(owner, root, waits, who);
        assert log[..|drained|] == drained;
      } else {
        r := ReviewDrain(owner, root, waits, who, cleanup, from);
        NoKillSoFar(root, log, from);
      }
    }

    /** The drain failed; perhaps because the tree ended by itself. */
    method ReviewDrain(owner: Owner, root: Info, waits: Waits, ghost who: Targets, cleanup: StopResult,
                       ghost from: nat)
      returns (r: Result<StopResult, Failure>)
      requires Valid() && who in acting && who == TargetsOf(owner) && !cleanup.Stopped?
      requires from <= |log| && (owner.supervisor.pid != root.pid ==> NoKill(root.pid, log, from))
      modifies this`log, this`now
      ensures Valid() && now >= old(now) && old(log) < log
      ensures r.Ok? ==> ReviewDecides(owner, root, waits, log, |old(log)|, cleanup, r.value)
      ensures r.Err? ==> Fails(who.exact, log, r.error)
      ensures owner.supervisor.pid != root.pid ==> NoKill(root.pid, log, from)
    {
      hide Safe, Find, SupervisorDecides, OnlySignals;
      var completed := ReadProcessOwner();
      var table :- Scan();
      var current := Find(table, root.pid);
      if completed.Some? && completed.value.status == StoppedStatus && current == None {
        ghost var before := log;
        r := StopSupervisorToo(owner, waits, who);
        if owner.supervisor.pid != root.pid {
          NoKillAppend(root.pid, owner.supervisor.pid, before, log, from);
        }
      } else {
        r := Ok(cleanup);
      }
    }

    /** Once the group is empty: kill the root, then stop the supervisor, and
        record the stop. */
    method FinishRoot(owner: Owner, root: Info, waits: Waits, ghost who: Targets)
      returns (r: Result<StopResult, Failure>)
      requires Valid() && who in acting && who == TargetsOf(owner) && owner.backendRoot == Some(root)
      modifies this`log, this`now
      ensures Valid() && now >= old(now) && old(log) < log
      ensures r.Ok? ==> FinishDecides(owner, root, waits, log, |old(log)|, r.value)
      ensures r.Err? ==> Fails(who.exact, log, r.error)
    {
      hide Safe, Find, SameProcessIdentity, Justified, SawExit, SawNoExit, EndingDecides;
      ghost var from := |log|;
      var table :- Scan();
      var intact :- ValidatedAnchor(root, table);
      ExactIsJustified(who, log[..|log| - 1], table, root);
      ghost var seen := now;
      var sent :- Signal(root.pid, Kill, who);
      ghost var signalled := log;
      var exited :- WaitForExactProcessExit(root, waits.kill);
      assert signalled <= log;
      if !exited {
        LateEnoughToo(root, log, from + 2, seen + waits.kill, log[from].at + waits.kill);
        return Ok(StillRunning);
      }
      r := EndTree(owner, root, waits, who);
    }

    method EndTree(owner: Owner, root: Info, waits: Waits, ghost who: Targets) returns (r: Result<StopResult, Failure>)
      requires Valid() && who in acting && who == TargetsOf(owner)
      modifies this`log, this`now
      ensures Valid() && now >= old(now) && old(log) < log
      ensures r.Ok? ==> EndingDecides(owner, root, waits, log, |old(log)|, r.value)
      ensures r.Err? ==> Fails(who.exact, log, r.error)
    {
      hide Safe, SupervisorStopped, SupervisorStays, KillsOnlyStubborn, RecordingDecides;
      ghost var from := |log|;
      var gone :- StopSupervisor(owner, waits, who);
      if !gone {
        return Ok(Mismatch);
      }
      r := RecordStop(owner, root);
    }

    method RecordStop(owner: Owner, root: Info) returns (r: Result<StopResult, Failure>)
      requires Valid()
      modifies this`log
      ensures Valid() && old(log) < log
      ensures r.Ok? ==> RecordingDecides(owner, root, log, |old(log)|, r.value)
      ensures r.Err? ==> log[|log| - 1] == WriteFailed(r.error)
    {
      hide Safe, SameProcessIdentity;
      var terminal := ReadProcessOwner();
      if terminal == None || terminal.value.backendRoot == None
         || !SameProcessIdentity(terminal.value.backendRoot.value, root)
         || !SameProcessIdentity(terminal.value.supervisor, owner.supervisor)
         || terminal.value.backendUrl != owner.backendUrl {
        return Ok(Mismatch);
      }
      var written :- WriteOwner(terminal.value.(status := StoppedStatus));
      r := Ok(Stopped(true));
    }

    // -------------------------------------------------------------------
    // A whole stop
    // -------------------------------------------------------------------

    /** What the file now asks of a stop that has found no root. */
    method ReconcileRootlessState(owner: Owner, waits: Waits, fuel: nat) returns (r: Option<StopResult>)
      requires Valid() && owner.backendRoot == None && owner.status != StoppedStatus
      modifies this
      ensures Valid() && now >= old(now) && old(log) < log && old(acting) <= acting
      ensures r == None ==> |log| == |old(log)| + 1 && Unchanged(owner, log, |old(log)|) && log[|old(log)|].at <= now
      ensures r == Some(OutOfFuel) ==> Appearances(log, |old(log)|) > fuel
      ensures r.Some? && r.value != OutOfFuel ==> ReadingDecides(owner, waits, log, |old(log)|, r.value)
      decreases fuel, 0
    {
      hide Safe, StopDecides;
      var current := ReadProcessOwner();
      if current == None {
        return Some(Unavailable);
      }
      if current.value.backendRoot.Some? {
        ghost var read := log;
        if fuel == 0 {
          return Some(OutOfFuel);
        }
        var result := StopOwnedProcessTree(waits, fuel - 1);
        AppearancesAdd(read, log, |read| - 1);
        return Some(result);
      }
      if current.value.status == StoppedStatus {
        return Some(Mismatch);
      }
      r := if current.value == owner then None else Some(Mismatch);
    }

    /** The launch never got as far as recording a root. */
    method StopRootless(owner: Owner, waits: Waits, fuel: nat, ghost who: Targets)
      returns (r: Result<StopResult, Failure>)
      requires Valid() && who in acting && owner.supervisor in who.exact
      requires owner.backendRoot == None && owner.status != StoppedStatus
      modifies this
      ensures Valid() && now >= old(now) && old(log) < log && old(acting) <= acting
      ensures r == Ok(OutOfFuel) ==> Appearances(log, |old(log)|) > fuel
      ensures r.Ok? && r.value != OutOfFuel ==> RootlessDecides(owner, waits, log, |old(log)|, r.value)
      ensures r.Err? ==> Fails({owner.supervisor}, log, r.error)
      decreases fuel, 4
    {
      hide Safe, Justified, SettlingDecides, LauncherAsked, Appearances, Lacks;
      ghost var from := |log|;
      var asked :- AskLauncher(owner.supervisor, waits.term, who);
      ghost var at := log;
      r := SettleRootless(owner, waits, fuel);
      AppearancesAdd(at, log, from);
    }

    method AskLauncher(supervisor: Info, wait: nat, ghost who: Targets) returns (r: Result<(), Failure>)
      requires Valid() && who in acting && supervisor in who.exact
      modifies this`log, this`now
      ensures Valid() && now >= old(now) && old(log) < log
      ensures r.Ok? ==> LauncherAsked(supervisor, wait, log, |old(log)|)
      ensures r.Err? ==> Fails({supervisor}, log, r.error)
    {
      hide Safe, Justified, SameProcessIdentity, SawGone, SawNotGone;
      ghost var from := |log|;
      var table :- Scan();
      var found := Find(table, supervisor.pid);
      if found.Some? && SameProcessIdentity(supervisor, found.value) {
        ExactIsJustified(who, log[..|log| - 1], table, supervisor);
        ghost var seen := now;
        var asked :- Signal(supervisor.pid, Term, who);
        var gone :- WaitForSupervisorExit(supervisor, wait);
        if !gone {
          LateEnough(supervisor, log, from + 2, seen + wait, log[from].at + wait);
        }
      }
      r := Ok(());
    }

    method SettleRootless(owner: Owner, waits: Waits, fuel: nat) returns (r: Result<StopResult, Failure>)
      requires Valid() && owner.backendRoot == None && owner.status != StoppedStatus
      modifies this
      ensures Valid() && now >= old(now) && old(log) < log && old(acting) <= acting
      ensures r == Ok(OutOfFuel) ==> Appearances(log, |old(log)|) > fuel
      ensures r.Ok? && r.value != OutOfFuel ==> SettlingDecides(owner, waits, log, |old(log)|, r.value)
      ensures r.Err? ==> log[|log| - 1] == ScanFailed(r.error)
      decreases fuel, 3
    {
      hide Safe, ReadingDecides, LastLookDecides, Appearances;
      ghost var from := |log|;
      var afterSignal := ReconcileRootlessState(owner, waits, fuel);
      if afterSignal.Some? {
        return Ok(afterSignal.value);
      }
      if now < owner.launchDeadline {
        Sleep(if owner.launchDeadline - now < waits.term then owner.launchDeadline - now else waits.term);
        ghost var slept := log;
        var afterWait := ReconcileRootlessState(owner, waits, fuel);
        AppearancesAdd(slept, log, from);
        if afterWait.Some? {
          return Ok(afterWait.value);
        }
      }
      ghost var at := log;
      r := LookLast(owner, waits, fuel);
      AppearancesAdd(at, log, from);
    }

    method LookLast(owner: Owner, waits: Waits, fuel: nat) returns (r: Result<StopResult, Failure>)
      requires Valid() && owner.backendRoot == None && owner.status != StoppedStatus
      modifies this
      ensures Valid() && now >= old(now) && old(log) < log && old(acting) <= acting
      ensures r == Ok(OutOfFuel) ==> Appearances(log, |old(log)|) > fuel
      ensures r.Ok? ==> log[|old(log)|].Scanned? && log[|old(log)|].at >= old(now)
      ensures r.Ok? && r.value != OutOfFuel ==> LastLookDecides(owner, waits, log, |old(log)|, r.value)
      ensures r.Err? ==> log[|log| - 1] == ScanFailed(r.error)
      decreases fuel, 2
    {
      hide Safe, ReadingDecides, SameProcessIdentity, Find, Appearances;
      ghost var from := |log|;
      var after :- Scan();
      var still := Find(after, owner.supervisor.pid);
      if still.Some? && SameProcessIdentity(owner.supervisor, still.value) {
        return Ok(StillRunning);
      }
      ghost var at := log;
      var terminal := ReconcileRootlessState(owner, waits, fuel);
      AppearancesAdd(at, log, from);
      r := Ok(terminal.GetOr(Mismatch));
    }

    /** The tree vanished under the stop: accept that if the file says so and
        the supervisor is gone. */
    method ConfirmStopped(waits: Waits) returns (r: StopResult)
      requires Valid()
      modifies this`log, this`now
      ensures Valid() && now >= old(now) && old(log) < log
      ensures ConfirmingDecides(waits, log, |old(log)|, r) && r != OutOfFuel
    {
      hide Safe, SawGone, SawNotGone, ShowsOther, NeverConfirmed;
      ghost var marks: seq<nat> := [|log|];
      NoneConfirmedYet(waits, log);
      for attempt := 0 to 5
        invariant Valid() && now >= old(now) && old(log) <= log
        invariant |marks| == attempt + 1 && NeverConfirmed(waits, log, |old(log)|, marks)
        invariant attempt > 0 ==> old(log) < log
      {
        ghost var head := log;
        var completed := ReadProcessOwner();
        if completed.Some? && completed.value.status == StoppedStatus {
          var gone := WaitForSupervisorExit(completed.value.supervisor, waits.kill);
          if gone.Err? {
            return Mismatch;
          }
          if gone.value {
            return Stopped(false);
          }
        }
        ghost var waited := log;
        Sleep(20);
        assert log[..|log| - 1] == waited;
        NeverConfirmedMore(waits, head, log, |old(log)|, marks);
        marks := marks + [|log|];
      }
      r := Mismatch;
    }

    /** Every signal of every stop directly follows a scan that justifies it,
        and what was observed decides the outcome. */
    method StopOwnedProcessTree(waits: Waits, fuel: nat) returns (r: StopResult)
      requires Valid()
      modifies this
      ensures Valid() && now >= old(now) && old(log) < log && old(acting) <= acting
      ensures if r == OutOfFuel then Appearances(log, |old(log)|) > fuel else StopDecides(waits, log, |old(log)|, r)
      decreases fuel, 6
    {
      hide Safe, TargetsOf, TryDecides, Appearances, Fails, ConfirmingDecides;
      ghost var from := |log|;
      var initial := ReadProcessOwner();
      if initial == None {
        return Unavailable;
      }
      var owner := initial.value;
      if owner.status == StoppedStatus {
        return if owner.backendRoot.Some? then Stopped(false) else Mismatch;
      }
      ghost var who := TargetsOf(owner);
      SafeMore(acting, acting + {who}, log);
      acting := acting + {who};
      ghost var read := log;
      var tried := TryStop(owner, waits, fuel, who);
      AppearancesAdd(read, log, from);
      match tried
      case Ok(result) => r := result;
      case Err(failure) =>
        if failure == IdentityMismatch || failure == NoSuchProcess {
          r := ConfirmStopped(waits);
        } else {
          r := SignalFailed(failure);
        }
    }

    method TryStop(owner: Owner, waits: Waits, fuel: nat, ghost who: Targets) returns (r: Result<StopResult, Failure>)
      requires Valid() && who in acting && who == TargetsOf(owner) && owner.status != StoppedStatus
      modifies this
      ensures Valid() && now >= old(now) && old(log) < log && old(acting) <= acting
      ensures r == Ok(OutOfFuel) ==> Appearances(log, |old(log)|) > fuel
      ensures r.Ok? && r.value != OutOfFuel ==> TryDecides(owner, waits, log, |old(log)|, r.value)
      ensures r.Err? ==> Fails(who.exact, log, r.error)
      decreases fuel, 5
    {
      hide Safe, RootKilledLast, RootedDecides, RootlessDecides, Appearances;
      ghost var from := |log|;
      var bootId :- BootId();
      if bootId != owner.bootId {
        return Ok(Mismatch);
      }
      ghost var at := log;
      if owner.backendRoot == None {
        r := StopRootless(owner, waits, fuel, who);
      } else {
        r := StopRooted(owner, owner.backendRoot.value, waits, who);
        RootedNeedsNoFuel(owner, owner.backendRoot.value, waits, log, |at|);
      }
      AppearancesAdd(at, log, from);
    }
  }

  lemma NoneConfirmedYet(waits: Waits, log: seq<Event>)
    ensures NeverConfirmed(waits, log, |log|, [|log|])
  {
  }

  /** The root, which keeps its group's id from being reused, is killed only
      after its group was seen empty twice. */
  ghost predicate RootKilledLast(root: Info, log: seq<Event>, from: nat) {
    exists j | from <= j <= |log| ::
      NoKill(root.pid, log[..j], from) && (j == |log| || SeenEmptyTwice(root, log[..j]))
  }

  lemma NoKillSoFar(root: Info, log: seq<Event>, from: nat)
    requires from <= |log|
    ensures NoKill(root.pid, log, from) ==> RootKilledLast(root, log, from)
  {
    assert log[..|log|] == log;
  }

  lemma SparedIsNoKill(root: Info, before: seq<Event>, log: seq<Event>, from: nat)
    requires before <= log && Spared(root.pid, log, |before|)
    ensures NoKill(root.pid, before, from) ==> NoKill(root.pid, log, from)
  {
    assert forall k | 0 <= k < |before| :: before[k] == log[k];
  }

  lemma LateEnoughToo(i: Info, log: seq<Event>, from: nat, time: nat, earlier: nat)
    requires SawNoExit(i, log, from, time) && earlier <= time
    ensures SawNoExit(i, log, from, earlier)
  {
  }

  lemma UnclearRootDecides(owner: Owner, root: Info, waits: Waits, log: seq<Event>, from: nat)
    requires RootIsUnclear(root, log, from)
    ensures AskingDecides(owner, root, waits, log, from, Mismatch)
  {
  }

  lemma FailsMore(who: set<Info>, more: set<Info>, log: seq<Event>, failure: Failure)
    requires Fails(who, log, failure) && who <= more
    ensures Fails(more, log, failure)
  {
  }

  lemma NoKillAppend(pid: nat, other: nat, before: seq<Event>, log: seq<Event>, from: nat)
    requires before <= log && NoKill(pid, before, from) && OnlySignals(other, log, |before|) && other != pid
    ensures NoKill(pid, log, from)
  {
    assert forall k | 0 <= k < |before| :: before[k] == log[k];
  }

  lemma OnlyNamedMore(before: seq<Event>, log: seq<Event>, from: nat)
    requires before <= log && OnlyNamed(Term, before, from) && NoSignals(log, |before|)
    ensures OnlyNamed(Term, log, from)
  {
    assert forall k | 0 <= k < |before| :: log[k] == before[k];
  }

  lemma StubbornIsKilled(s: Info, wait: nat, asked: seq<Event>, log: seq<Event>, from: nat)
    requires asked <= log && |asked| + 1 < |log|
    requires SupervisorAsked(s, asked, from) && from + 2 < |asked| && OnlyNamed(Term, asked, from)
    requires SawNotGone(s, asked, from + 2, asked[from].at + wait)
    requires Shows(s, log[|asked|])
    requires log[|asked| + 1].Signalled? && log[|asked| + 1].pid == s.pid && log[|asked| + 1].name == Kill
    ensures KillsStubborn(s, wait, log, from, |asked| + 1) && SupervisorAsked(s, log, from)
    ensures OnlyNamed(Term, log[..|asked| + 1], from)
  {
    hide SawNotGone, Intact;
    assert log[..|asked|] == asked;
    assert log[..|asked| + 1] == asked + [log[|asked|]];
  }

  lemma LateEnough(s: Info, log: seq<Event>, from: nat, time: nat, earlier: nat)
    requires SawNotGone(s, log, from, time) && earlier <= time
    ensures SawNotGone(s, log, from, earlier)
  {
  }

  ghost predicate PollsSoFar(log: seq<Event>, from: nat) {
    forall k | from <= k < |log| :: if (k - from) % 2 == 0 then log[k].Scanned? else Pause(log[k])
  }

  /** Whole turns of scan and pause, never twice in a row without the pid. */
  ghost predicate Polling(s: Info, log: seq<Event>, from: nat) {
    && from <= |log| && (|log| - from) % 2 == 0 && PollsSoFar(log, from)
    && NeverGoneTwice(s.pid, log, from) && NeverAnother(s, log, from)
  }

  lemma NoPollsYet(s: Info, log: seq<Event>)
    ensures Polling(s, log, |log|)
  {
  }

  lemma OnePoll(s: Info, head: seq<Event>, log: seq<Event>, from: nat)
    requires Polling(s, head, from) && head <= log && |log| == |head| + 2
    requires log[|head|].Scanned? && !ShowsOther(s, log[|head|]) && Pause(log[|head| + 1])
    requires |head| >= from + 2 && SeenGone(s.pid, head[|head| - 2]) ==> !SeenGone(s.pid, log[|head|])
    ensures Polling(s, log, from)
  {
    hide Find, SameProcessIdentity;
    assert forall k | 0 <= k < |head| :: log[k] == head[k];
  }

  lemma GoneAtLast(s: Info, head: seq<Event>, log: seq<Event>, from: nat)
    requires Polling(s, head, from) && head <= log && |log| == |head| + 1 && SeenGone(s.pid, log[|head|])
    requires |head| >= from + 2 && SeenGone(s.pid, head[|head| - 2])
    ensures SawGone(s, log, from)
  {
    hide Find, SameProcessIdentity;
    assert log[..|log| - 1] == head;
    assert forall k | 0 <= k < |head| :: log[k] == head[k];
  }

  lemma PollingIsOver(s: Info, log: seq<Event>, from: nat, time: nat)
    requires Polling(s, log, from) && from < |log| && Late(log[|log| - 1], time)
    ensures SawNotGone(s, log, from, time)
  {
  }

  lemma PhaseIsOver(
    anchor: Info, name: SignalName, wait: nat, asked: seq<Event>, log: seq<Event>, from: nat, begun: nat, empty: bool)
    requires AllHandled(anchor, name, asked, from) && asked <= log && OnlyNamed(name, log, from)
    requires asked[from].at <= begun
    requires if empty then SawEmpty(anchor, name, log, |asked|)
             else SawNotEmpty(anchor, name, log, |asked|, begun + wait)
    ensures PhaseEnds(anchor, name, wait, log, from, empty)
  {
    hide AllHandled, SawEmpty, Rounds, NeverEmptyTwice, OnlyNamed;
  }

  lemma DrainEndsEmpty(anchor: Info, waits: Waits, log: seq<Event>, from: nat, r: StopResult)
    requires DrainDecides(anchor, waits, log, from, r)
    ensures r.Stopped? ==> SeenEmptyTwice(anchor, log)
    ensures r == Stopped(false) ==> OnlyNamed(Term, log, from)
    ensures r.Stopped? || r == StillRunning
  {
    hide SeenEmptyTwice, Rounds, AllHandled, NeverEmptyTwice, OnlyNamed;
  }

  ghost predicate NoPauses(log: seq<Event>, from: nat) {
    forall k | from <= k < |log| :: !log[k].Slept?
  }

  /** The look before the last pause found the group empty. */
  ghost predicate LastLookEmpty(anchor: Info, log: seq<Event>, from: nat) {
    |log| >= from + 2 && Looks(log, from, |log| - 2) && SeenEmpty(anchor, log[|log| - 2])
  }

  lemma NoRoundsYet(anchor: Info, name: SignalName, log: seq<Event>)
    ensures Rounds(anchor, name, log, |log|) && NeverEmptyTwice(anchor, log, |log|)
  {
  }

  lemma EmptyAtLast(anchor: Info, name: SignalName, head: seq<Event>, log: seq<Event>, from: nat)
    requires from <= |head| && head <= log && |log| == |head| + 1
    requires Rounds(anchor, name, head, from) && NeverEmptyTwice(anchor, head, from)
    requires |head| > from ==> head[|head| - 1].Slept?
    requires LastLookEmpty(anchor, head, from) && SeenEmpty(anchor, log[|head|])
    ensures SawEmpty(anchor, name, log, from)
  {
    assert log[..|log| - 1] == head;
    assert head[|head| - 1].Slept?;
    hide InGroup, Intact, NeverEmptyTwice, Rounds;
    RoundsMore(anchor, name, head, log, from);
  }

  lemma OneRound(
    anchor: Info, name: SignalName, head: seq<Event>, looked: seq<Event>, log: seq<Event>, from: nat)
    requires from <= |head| && head < looked && looked < log && |log| == |looked| + 1 && Pause(log[|looked|])
    requires Rounds(anchor, name, head, from) && NeverEmptyTwice(anchor, head, from)
    requires |head| > from ==> head[|head| - 1].Slept?
    requires NoPauses(looked, |head|) && Shows(anchor, looked[|head|])
    requires if SeenEmpty(anchor, looked[|head|]) then |looked| == |head| + 1 && !LastLookEmpty(anchor, head, from)
             else AllHandled(anchor, name, looked, |head| + 1)
    ensures Rounds(anchor, name, log, from) && NeverEmptyTwice(anchor, log, from)
    ensures LastLookEmpty(anchor, log, from) <==> SeenEmpty(anchor, looked[|head|])
  {
    hide SeenEmpty, Shows, AllHandled, Rounds, NeverEmptyTwice;
    assert forall k | |head| <= k < |looked| :: log[k] == looked[k];
    if !SeenEmpty(anchor, looked[|head|]) {
      AllHandledMore(anchor, name, looked, log, |head| + 1);
      AtLeastOne(anchor, name, looked, |head| + 1);
    }
    RoundsMore(anchor, name, head, log, from);
    NeverEmptyTwiceMore(anchor, head, log, from);
  }

  lemma AtLeastOne(anchor: Info, name: SignalName, log: seq<Event>, from: nat)
    requires AllHandled(anchor, name, log, from)
    ensures |log| > from
  {
  }
}
