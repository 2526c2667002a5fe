/** The lease that lets one process at a time change the Serve routes: link to
  acquire, reclaim from dead owners under an exclusive port, remove to release.
  Every file operation is one step, and any process may die between two. */
module ServeLease {
  import opened Wrappers

  const LEASE_VERSION: nat := 1
  const MAX_PID: nat := 0x7FFF_FFFF

  datatype Record = Record(version: nat, pid: nat, token: string)

  datatype Content = Malformed | Written(record: Record)

  datatype Entry = Entry(inode: nat, content: Content)

  predicate TokenChar(c: char) {
    '0' <= c <= '9' || 'a' <= c <= 'z' || 'A' <= c <= 'Z' || c == '-'
  }

  predicate RecordIsValid(r: Record) {
    && r.version == LEASE_VERSION
    && 0 < |r.token| <= 128
    && (forall k | 0 <= k < |r.token| :: TokenChar(r.token[k]))
    && 0 < r.pid <= MAX_PID
  }

  predicate Matches(expected: Record, current: Record) {
    RecordIsValid(current) && current.pid == expected.pid && current.token == expected.token
  }

  // ---------------------------------------------------------------------
  // The machine
  // ---------------------------------------------------------------------

  /** What an attempt to take the lease does next. */
  datatype Phase =
    | Linking
    | ReadFirst
    | StatFirst(first: Content)
    | CheckStale(first: Content, inode: nat)
    | BindFence(stale: Record, inode: nat)
    | ReadSecond(stale: Record, inode: nat)
    | StatSecond(stale: Record, inode: nat, second: Content)
    | CheckMatch(stale: Record, inode: nat, second: Content, secondInode: nat)
    | RemovePath(stale: Record)
    | RemoveCandidate(stale: Record)
    | Polling
    | Abandoning
    | Holding
    | DropRead
    | DropRemove
    | DropCandidate
    | Done

  datatype Attempt = Attempt(process: nat, record: Record, phase: Phase)

  /** `alive` maps the running processes to their process ids, which are
      reused; `used` collects every record ever written. */
  datatype Machine = Machine(
    path: Option<Entry>,
    fence: Option<nat>,
    candidates: map<Record, nat>,
    alive: map<nat, nat>,
    attempts: map<nat, Attempt>,
    used: set<Record>)

  datatype Event =
    | Spawn(process: nat, pid: nat)
    | Crash(process: nat)
    | Begin(attempt: nat, process: nat, token: string, inode: nat)
    | Advance(attempt: nat)                // the next step of the code
    | Fail(attempt: nat)                   // the same step, with an I/O error
    | GiveUp(attempt: nat)                 // the deadline has passed

  predicate PidIsAlive(m: Machine, pid: nat) {
    exists p | p in m.alive :: m.alive[p] == pid
  }

  predicate Alive(m: Machine, a: nat) {
    a in m.attempts && m.attempts[a].process in m.alive
  }

  predicate Enabled(m: Machine, e: Event) {
    match e
    case Spawn(process, pid) =>
      && process !in m.alive && 0 < pid <= MAX_PID && !PidIsAlive(m, pid)
      && (forall a | a in m.attempts :: m.attempts[a].process != process)
    case Crash(process) => process in m.alive
    case Begin(attempt, process, token, inode) =>
      && process in m.alive && attempt !in m.attempts
      && RecordIsValid(Record(LEASE_VERSION, m.alive[process], token))
      && Record(LEASE_VERSION, m.alive[process], token) !in m.used
    case Advance(a) => Alive(m, a) && m.attempts[a].phase != Done
    case Fail(a) => Alive(m, a) && CanFail(m.attempts[a].phase)
    case GiveUp(a) => Alive(m, a) && m.attempts[a].phase == Polling
  }

  /** Every file operation can fail; waiting and holding are none. */
  predicate CanFail(phase: Phase) {
    phase != Polling && phase != Holding && phase != Done
  }

  predicate InRecovery(phase: Phase) {
    phase.ReadFirst? || phase.StatFirst? || phase.CheckStale? || phase.BindFence? || Fenced(phase)
  }

  /** The phases between binding the port and leaving the recovery. */
  predicate Fenced(phase: Phase) {
    phase.ReadSecond? || phase.StatSecond? || phase.CheckMatch? || phase.RemovePath? || phase.RemoveCandidate?
  }

  function Goto(m: Machine, a: nat, phase: Phase): Machine
    requires a in m.attempts
  {
    m.(attempts := m.attempts[a := m.attempts[a].(phase := phase)])
  }

  /** Returning from the recovery drops the fence. */
  function Leave(m: Machine, a: nat, phase: Phase): Machine
    requires a in m.attempts
  {
    Goto(m, a, phase).(fence := if m.fence == Some(a) then None else m.fence)
  }

  function Step(m: Machine, a: nat): Machine
    requires Alive(m, a) && m.attempts[a].phase != Done
  {
    var mine := m.attempts[a].record;
    match m.attempts[a].phase
    case Linking =>
      if mine !in m.candidates then Goto(m, a, Abandoning)
      else if m.path.Some? then Goto(m, a, ReadFirst)
      else Goto(m, a, Holding).(path := Some(Entry(m.candidates[mine], Written(mine))))
    case ReadFirst =>
      if m.path == None then Goto(m, a, Polling) else Goto(m, a, StatFirst(m.path.value.content))
    case StatFirst(first) =>
      if m.path == None then Goto(m, a, Polling) else Goto(m, a, CheckStale(first, m.path.value.inode))
    case CheckStale(first, inode) =>
      if first.Written? && RecordIsValid(first.record) && !PidIsAlive(m, first.record.pid)
      then Goto(m, a, BindFence(first.record, inode))
      else Goto(m, a, Polling)
    case BindFence(stale, inode) =>
      if m.fence.Some? then Goto(m, a, Polling)
      else Goto(m, a, ReadSecond(stale, inode)).(fence := Some(a))
    case ReadSecond(stale, inode) =>
      if m.path == None then Leave(m, a, Polling)
      else Goto(m, a, StatSecond(stale, inode, m.path.value.content))
    case StatSecond(stale, inode, second) =>
      if m.path == None then Leave(m, a, Polling)
      else Goto(m, a, CheckMatch(stale, inode, second, m.path.value.inode))
    case CheckMatch(stale, inode, second, secondInode) =>
      if second.Written? && Matches(stale, second.record) && !PidIsAlive(m, second.record.pid) && inode == secondInode
      then Goto(m, a, RemovePath(stale))
      else Leave(m, a, Polling)
    case RemovePath(stale) =>
      if m.path == None then Leave(m, a, Polling)
      else Goto(m, a, RemoveCandidate(stale)).(path := None)
    case RemoveCandidate(stale) => Leave(m, a, Linking).(candidates := m.candidates - {stale})
    case Polling => Goto(m, a, Linking)
    case Abandoning => Goto(m, a, Done).(candidates := m.candidates - {mine})
    case Holding => Goto(m, a, DropRead)
    case DropRead =>
      if m.path.Some? && m.path.value.content.Written? && Matches(mine, m.path.value.content.record)
      then Goto(m, a, DropRemove)
      else Goto(m, a, DropCandidate)
    case DropRemove => Goto(m, a, DropCandidate).(path := None)
    case DropCandidate => Goto(m, a, Done).(candidates := m.candidates - {mine})
  }

  function After(m: Machine, e: Event): Machine
    requires Enabled(m, e)
  {
    match e
    case Spawn(process, pid) => m.(alive := m.alive[process := pid])
    case Crash(process) =>
      m.(alive := m.alive - {process},
         fence := if m.fence.Some? && m.fence.value in m.attempts && m.attempts[m.fence.value].process == process
                  then None else m.fence)
    case Begin(attempt, process, token, inode) =>
      var record := Record(LEASE_VERSION, m.alive[process], token);
      m.(attempts := m.attempts[attempt := Attempt(process, record, Linking)],
         candidates := m.candidates[record := inode],
         used := m.used + {record})
    case Advance(a) => Step(m, a)
    case Fail(a) =>
      var phase := m.attempts[a].phase;
      if phase == Linking then Goto(m, a, Abandoning)
      else if phase == DropRead || phase == DropRemove then Goto(m, a, DropCandidate)
      else if phase == DropCandidate || phase == Abandoning then Goto(m, a, Done)
      else if phase.RemoveCandidate? then Leave(m, a, Linking)
      else Leave(m, a, Polling)
    case GiveUp(a) => Goto(m, a, Abandoning)
  }

  // ---------------------------------------------------------------------
  // The invariant
  // ---------------------------------------------------------------------

  predicate Names(m: Machine, r: Record) {
    m.path.Some? && m.path.value.content == Written(r)
  }

  /** The record was written once, and no running process owns it. */
  ghost predicate Dead(m: Machine, r: Record) {
    && r in m.used
    && (forall a | a in m.attempts :: m.attempts[a].record == r ==> m.attempts[a].process !in m.alive)
  }

  predicate Holds(phase: Phase) {
    phase == Holding || phase == DropRead || phase == DropRemove
  }

  predicate PastStaleCheck(phase: Phase) {
    phase.BindFence? || Fenced(phase)
  }

  /** The second reading found the stale record again. */
  predicate SeenAgain(phase: Phase) {
    || (phase.StatSecond? && phase.second == Written(phase.stale))
    || (phase.CheckMatch? && phase.second == Written(phase.stale))
    || phase.RemovePath?
  }

  /** What a running attempt knows. */
  ghost predicate Knows(m: Machine, a: nat)
    requires a in m.attempts
  {
    var t := m.attempts[a];
    && t.process in m.alive && m.alive[t.process] == t.record.pid
    && (t.phase != Done ==> t.record in m.candidates)
    && (Holds(t.phase) ==> Names(m, t.record))
    && (Fenced(t.phase) <==> m.fence == Some(a))
    && ((t.phase.StatFirst? || t.phase.CheckStale?) && t.phase.first.Written? ==> t.phase.first.record in m.used)
    && (PastStaleCheck(t.phase) ==> RecordIsValid(t.phase.stale) && Dead(m, t.phase.stale))
    && (SeenAgain(t.phase) ==> Names(m, t.phase.stale))
  }

  ghost predicate Consistent(m: Machine) {
    && (forall a | a in m.attempts :: m.attempts[a].record in m.used && RecordIsValid(m.attempts[a].record))
    && (forall a, b | a in m.attempts && b in m.attempts :: m.attempts[a].record == m.attempts[b].record ==> a == b)
    && (m.path.Some? && m.path.value.content.Written? ==> m.path.value.content.record in m.used)
    && (m.fence.Some? ==> Alive(m, m.fence.value) && Fenced(m.attempts[m.fence.value].phase))
    && (forall a | Alive(m, a) :: Knows(m, a))
  }

  /** No process runs; the path and the candidates are whatever the last ones
      left, which may be nothing, junk, or the record of anybody. */
  ghost predicate Start(m: Machine) {
    && m.alive == map[] && m.fence == None && m.attempts == map[]
    && (m.path.Some? && m.path.value.content.Written? ==> m.path.value.content.record in m.used)
  }

  lemma StartIsConsistent(m: Machine)
    requires Start(m)
    ensures Consistent(m)
  {
  }

  // ---------------------------------------------------------------------
  // Every step keeps it
  // ---------------------------------------------------------------------

  lemma EveryStepKeepsConsistent(m: Machine, e: Event)
    requires Consistent(m) && Enabled(m, e)
    ensures Consistent(After(m, e))
  {
    match e
    case Spawn(_, _) => SpawnKeeps(m, e);
    case Crash(_) => CrashKeeps(m, e);
    case Begin(_, _, _, _) => BeginKeeps(m, e);
    case Advance(a) => StepKeeps(m, a);
    case Fail(_) => FailKeeps(m, e);
    case GiveUp(_) => FailKeeps(m, e);
  }

  lemma SpawnKeeps(m: Machine, e: Event)
    requires Consistent(m) && Enabled(m, e) && e.Spawn?
    ensures Consistent(After(m, e))
  {
    hide RecordIsValid;
    assert forall a | Alive(After(m, e), a) :: Alive(m, a);
  }

  lemma CrashKeeps(m: Machine, e: Event)
    requires Consistent(m) && Enabled(m, e) && e.Crash?
    ensures Consistent(After(m, e))
  {
    hide RecordIsValid;
    assert forall a | Alive(After(m, e), a) :: Alive(m, a);
  }

  lemma BeginKeeps(m: Machine, e: Event)
    requires Consistent(m) && Enabled(m, e) && e.Begin?
    ensures Consistent(After(m, e))
  {
    hide RecordIsValid, PidIsAlive, Step;
    var t := After(m, e);
    forall b | Alive(t, b)
      ensures Knows(t, b)
    {
      if b != e.attempt {
        assert Knows(m, b);
      }
    }
    assert forall b | b in m.attempts ::
      t.attempts[b] == m.attempts[b] && t.attempts[b].record != t.attempts[e.attempt].record;
  }

  /** What a step of `a` must leave to the other running attempts. */
  ghost predicate LeavesOthers(m: Machine, t: Machine, a: nat) {
    && (t.fence == m.fence || ((t.fence == None || m.fence == None) && (t.fence == Some(a) || m.fence == Some(a))))
    && (forall b | Alive(m, b) && b != a ::
          var phase := m.attempts[b].phase;
          && (phase != Done ==> m.attempts[b].record in t.candidates)
          && (Holds(phase) ==> Names(t, m.attempts[b].record))
          && (SeenAgain(phase) ==> Names(t, phase.stale)))
  }

  ghost predicate OnlyPhaseOf(m: Machine, t: Machine, a: nat) {
    && a in m.attempts && a in t.attempts
    && t.attempts == m.attempts[a := m.attempts[a].(phase := t.attempts[a].phase)]
    && t.alive == m.alive && t.used == m.used
  }

  lemma MoveKeeps(m: Machine, t: Machine, a: nat)
    requires Consistent(m) && Alive(m, a) && OnlyPhaseOf(m, t, a) && LeavesOthers(m, t, a)
    requires t.path == m.path || t.path == None || Names(t, m.attempts[a].record)
    requires Knows(t, a)
    ensures Consistent(t)
  {
    forall b | Alive(t, b)
      ensures Knows(t, b)
    {
      if b != a {
        assert Alive(m, b) && Knows(m, b);
        OthersKnow(m, t, a, b);
      }
    }
    hide Knows, Names, RecordIsValid;
  }

  lemma OthersKnow(m: Machine, t: Machine, a: nat, b: nat)
    requires Alive(m, a) && Alive(m, b) && a != b && Knows(m, b) && OnlyPhaseOf(m, t, a) && LeavesOthers(m, t, a)
    requires Fenced(m.attempts[a].phase) <==> m.fence == Some(a)
    ensures Knows(t, b)
  {
    assert t.attempts[b] == m.attempts[b];
  }

  /** Steps that touch neither a file nor the fence. */
  lemma GotoKeeps(m: Machine, a: nat, phase: Phase)
    requires Consistent(m) && Alive(m, a) && Knows(Goto(m, a, phase), a)
    ensures Consistent(Goto(m, a, phase))
  {
    var t := Goto(m, a, phase);
    SameFilesLeaveOthers(m, t, a);
    hide Consistent, Knows, LeavesOthers;
    MoveKeeps(m, t, a);
  }

  lemma QuietStepKeeps(m: Machine, a: nat, phase: Phase)
    requires Consistent(m) && Alive(m, a) && !Fenced(m.attempts[a].phase)
    requires Holds(phase) ==> Holds(m.attempts[a].phase)
    requires m.attempts[a].phase != Done && (phase == ReadFirst || !InRecovery(phase))
    ensures Consistent(Goto(m, a, phase))
  {
    assert Knows(m, a);
    GotoKeeps(m, a, phase);
  }

  /** The last step of an attempt. */
  lemma CleanUpKeeps(m: Machine, a: nat)
    requires Consistent(m) && Alive(m, a)
    requires m.attempts[a].phase == Abandoning || m.attempts[a].phase == DropCandidate
    ensures Consistent(Goto(m, a, Done).(candidates := m.candidates - {m.attempts[a].record}))
  {
    var t := Goto(m, a, Done).(candidates := m.candidates - {m.attempts[a].record});
    assert Knows(m, a);
    CleanUpLeavesOthers(m, t, a);
    hide Consistent, LeavesOthers, RecordIsValid;
    MoveKeeps(m, t, a);
  }

  lemma CleanUpLeavesOthers(m: Machine, t: Machine, a: nat)
    requires Consistent(m) && Alive(m, a)
    requires t == Goto(m, a, Done).(candidates := m.candidates - {m.attempts[a].record})
    ensures LeavesOthers(m, t, a)
  {
    forall b | Alive(m, b) && b != a
      ensures Knows(m, b) && m.attempts[b].record != m.attempts[a].record
    {
    }
    hide RecordIsValid;
  }

  lemma LeaveKeeps(m: Machine, a: nat, phase: Phase)
    requires Consistent(m) && Alive(m, a) && m.attempts[a].phase != Done
    requires !InRecovery(phase) && !Holds(phase)
    ensures Consistent(Leave(m, a, phase))
  {
    assert Knows(m, a);
    MoveKeeps(m, Leave(m, a, phase), a);
  }

  lemma FailKeeps(m: Machine, e: Event)
    requires Consistent(m) && Enabled(m, e) && (e.Fail? || e.GiveUp?)
    ensures Consistent(After(m, e))
  {
    var a := e.attempt;
    var phase := m.attempts[a].phase;
    hide Consistent, Alive, Step;
    if InRecovery(phase) {
      LeaveKeeps(m, a, if phase.RemoveCandidate? then Linking else Polling);
    } else {
      FailOutsideKeeps(m, e);
    }
  }

  lemma FailOutsideKeeps(m: Machine, e: Event)
    requires Consistent(m) && Enabled(m, e) && (e.Fail? || e.GiveUp?) && !InRecovery(m.attempts[e.attempt].phase)
    ensures Consistent(After(m, e))
  {
    hide Consistent, Alive, Step;
    QuietStepKeeps(m, e.attempt, After(m, e).attempts[e.attempt].phase);
  }

  lemma StepKeeps(m: Machine, a: nat)
    requires Consistent(m) && Alive(m, a) && m.attempts[a].phase != Done
    ensures Consistent(Step(m, a))
  {
    var phase := m.attempts[a].phase;
    if phase == Linking || phase == Polling || phase == Abandoning {
      AcquireStepKeeps(m, a);
    } else if Fenced(phase) {
      FencedStepKeeps(m, a);
    } else if InRecovery(phase) {
      InspectStepKeeps(m, a);
    } else {
      DropStepKeeps(m, a);
    }
  }

  lemma AcquireStepKeeps(m: Machine, a: nat)
    requires Consistent(m) && Alive(m, a)
    requires m.attempts[a].phase == Linking || m.attempts[a].phase == Polling || m.attempts[a].phase == Abandoning
    ensures Consistent(Step(m, a))
  {
    assert Knows(m, a);
    hide Consistent, Knows;
    if m.attempts[a].phase == Polling {
      QuietStepKeeps(m, a, Linking);
    } else if m.attempts[a].phase == Abandoning {
      CleanUpKeeps(m, a);
    } else if m.path.Some? {
      QuietStepKeeps(m, a, ReadFirst);
    } else {
      LinkKeeps(m, a);
    }
  }

  lemma LinkKeeps(m: Machine, a: nat)
    requires Consistent(m) && Alive(m, a) && m.attempts[a].phase == Linking && m.path == None
    requires m.attempts[a].record in m.candidates
    ensures var mine := m.attempts[a].record;
            Consistent(Goto(m, a, Holding).(path := Some(Entry(m.candidates[mine], Written(mine)))))
  {
    var mine := m.attempts[a].record;
    hide RecordIsValid;
    assert Knows(m, a);
    assert forall b | Alive(m, b) :: Knows(m, b);
    MoveKeeps(m, Goto(m, a, Holding).(path := Some(Entry(m.candidates[mine], Written(mine)))), a);
  }

  lemma InspectStepKeeps(m: Machine, a: nat)
    requires Consistent(m) && Alive(m, a) && InRecovery(m.attempts[a].phase) && !Fenced(m.attempts[a].phase)
    ensures Consistent(Step(m, a))
  {
    var phase := m.attempts[a].phase;
    var t := Step(m, a);
    assert Knows(m, a);
    SameFilesLeaveOthers(m, t, a);
    if phase.CheckStale? && t.attempts[a].phase.BindFence? {
      StaleIsDead(m, phase.first.record);
    }
    hide Consistent, LeavesOthers, RecordIsValid;
    MoveKeeps(m, t, a);
  }

  lemma SameFilesLeaveOthers(m: Machine, t: Machine, a: nat)
    requires Consistent(m) && t.path == m.path && t.candidates == m.candidates
    requires t.fence == m.fence || (m.fence == None && t.fence == Some(a))
    ensures LeavesOthers(m, t, a)
  {
    assert forall b | Alive(m, b) :: Knows(m, b);
  }

  /** A pid that no process has belongs to no running owner. */
  lemma StaleIsDead(m: Machine, r: Record)
    requires Consistent(m) && r in m.used && !PidIsAlive(m, r.pid)
    ensures Dead(m, r)
  {
    forall a | a in m.attempts && m.attempts[a].record == r
      ensures m.attempts[a].process !in m.alive
    {
      assert Alive(m, a) ==> Knows(m, a);
    }
  }

  lemma FencedStepKeeps(m: Machine, a: nat)
    requires Consistent(m) && Alive(m, a) && Fenced(m.attempts[a].phase)
    ensures Consistent(Step(m, a))
  {
    if m.attempts[a].phase.RemovePath? || m.attempts[a].phase.RemoveCandidate? {
      ReclaimStepKeeps(m, a);
    } else {
      RereadStepKeeps(m, a);
    }
  }

  lemma RereadStepKeeps(m: Machine, a: nat)
    requires Consistent(m) && Alive(m, a) && Fenced(m.attempts[a].phase)
    requires !m.attempts[a].phase.RemovePath? && !m.attempts[a].phase.RemoveCandidate?
    ensures Consistent(Step(m, a))
  {
    assert Knows(m, a);
    var t := Step(m, a);
    if t.attempts[a].phase == Polling {
      LeaveKeeps(m, a, Polling);
    } else {
      assert Knows(t, a);
      hide Consistent, Knows;
      GotoKeeps(m, a, t.attempts[a].phase);
    }
  }

  lemma ReclaimStepKeeps(m: Machine, a: nat)
    requires Consistent(m) && Alive(m, a)
    requires m.attempts[a].phase.RemovePath? || m.attempts[a].phase.RemoveCandidate?
    ensures Consistent(Step(m, a))
  {
    hide RecordIsValid, Matches, PidIsAlive;
    assert Knows(m, a);
    MoveKeeps(m, Step(m, a), a);
  }

  lemma DropStepKeeps(m: Machine, a: nat)
    requires Consistent(m) && Alive(m, a)
    requires Holds(m.attempts[a].phase) || m.attempts[a].phase == DropCandidate
    ensures Consistent(Step(m, a))
  {
    hide Consistent, Knows, RecordIsValid, Matches;
    var phase := m.attempts[a].phase;
    if phase == DropRemove {
      RemoveOwnKeeps(m, a);
    } else if phase == DropCandidate {
      CleanUpKeeps(m, a);
    } else {
      QuietStepKeeps(m, a, Step(m, a).attempts[a].phase);
    }
  }

  lemma RemoveOwnKeeps(m: Machine, a: nat)
    requires Consistent(m) && Alive(m, a) && m.attempts[a].phase == DropRemove
    ensures Consistent(Goto(m, a, DropCandidate).(path := None))
  {
    hide RecordIsValid;
    assert Knows(m, a);
    assert forall b | Alive(m, b) :: Knows(m, b);
    MoveKeeps(m, Goto(m, a, DropCandidate).(path := None), a);
  }

  // ---------------------------------------------------------------------
  // What the lease is for
  // ---------------------------------------------------------------------

  lemma AtMostOneHolder(m: Machine, a: nat, b: nat)
    requires Consistent(m) && Alive(m, a) && Alive(m, b)
    requires Holds(m.attempts[a].phase) && Holds(m.attempts[b].phase)
    ensures a == b
  {
    assert Knows(m, a) && Knows(m, b);
  }

  /** While its process runs, only the holder itself takes its lease away. */
  lemma OnlyTheOwnerReleases(m: Machine, e: Event, b: nat)
    requires Consistent(m) && Enabled(m, e)
    requires Alive(m, b) && Names(m, m.attempts[b].record)
    ensures After(m, e).path != m.path ==> e == Advance(b) && m.attempts[b].phase == DropRemove
  {
    if After(m, e).path != m.path {
      assert Knows(m, e.attempt);
    }
  }

  /** Only a reclaimer that holds the fence removes a lease that is not its
      own, and the lease it removes is that of a dead owner. */
  lemma OnlyDeadOwnersAreReclaimed(m: Machine, e: Event, r: Record)
    requires Consistent(m) && Enabled(m, e) && Names(m, r) && !Names(After(m, e), r)
    ensures e.Advance?
    ensures m.attempts[e.attempt].record == r || (Dead(m, r) && m.fence == Some(e.attempt))
  {
    assert e.Advance?;
    assert Knows(m, e.attempt);
  }

  ghost predicate IsRun(states: seq<Machine>, events: seq<Event>) {
    && |states| == |events| + 1
    && Start(states[0])
    && (forall k | 0 <= k < |events| :: Enabled(states[k], events[k]) && states[k + 1] == After(states[k], events[k]))
  }

  ghost predicate Exclusive(m: Machine) {
    forall a, b | Alive(m, a) && Alive(m, b) && Holds(m.attempts[a].phase) && Holds(m.attempts[b].phase) :: a == b
  }

  /** A lease whose owner runs stays unless its owner drops it. */
  ghost predicate RespectsOwners(m: Machine, e: Event)
    requires Enabled(m, e)
  {
    forall b | Alive(m, b) && Names(m, m.attempts[b].record) ::
      Names(After(m, e), m.attempts[b].record) || e == Advance(b)
  }

  lemma ConsistentIsExclusive(m: Machine)
    requires Consistent(m)
    ensures Exclusive(m)
  {
    forall a, b | Alive(m, a) && Alive(m, b) && Holds(m.attempts[a].phase) && Holds(m.attempts[b].phase)
      ensures a == b
    {
      AtMostOneHolder(m, a, b);
    }
  }

  lemma ConsistentRespectsOwners(m: Machine, e: Event)
    requires Consistent(m) && Enabled(m, e)
    ensures RespectsOwners(m, e)
  {
    forall b | Alive(m, b) && Names(m, m.attempts[b].record)
      ensures Names(After(m, e), m.attempts[b].record) || e == Advance(b)
    {
      OnlyTheOwnerReleases(m, e, b);
    }
  }

  /** Over every interleaving of acquirers, reclaimers, releases and crashes. */
  lemma {:induction false} EveryRunIsSafe(states: seq<Machine>, events: seq<Event>)
    requires IsRun(states, events)
    ensures Consistent(states[|events|])
    ensures forall k | 0 <= k <= |events| :: Exclusive(states[k])
    ensures forall k | 0 <= k < |events| :: RespectsOwners(states[k], events[k])
    decreases |events|
  {
    hide Consistent, Enabled, Exclusive, RespectsOwners, Start, After;
    var n := |events|;
    if n == 0 {
      StartIsConsistent(states[0]);
    } else {
      EveryRunIsSafe(states[..n], events[..n - 1]);
      EveryStepKeepsConsistent(states[n - 1], events[n - 1]);
      ConsistentRespectsOwners(states[n - 1], events[n - 1]);
    }
    ConsistentIsExclusive(states[n]);
  }

  // ---------------------------------------------------------------------
  // A stale lease does not block
  // ---------------------------------------------------------------------

  /** `n` steps of one attempt with nobody else moving. */
  ghost predicate Alone(m: Machine, a: nat, n: nat, t: Machine)
    decreases n
  {
    if n == 0 then t == m
    else Alive(m, a) && m.attempts[a].phase != Done && Alone(Step(m, a), a, n - 1, t)
  }

  lemma {:induction false} AloneAppend(m: Machine, a: nat, n: nat, t: Machine, k: nat, u: Machine)
    requires Alone(m, a, n, t) && Alone(t, a, k, u)
    ensures Alone(m, a, n + k, u)
    decreases n
  {
    if n > 0 {
      AloneAppend(Step(m, a), a, n - 1, t, k, u);
    }
  }

  lemma OneMore(m: Machine, a: nat, m1: Machine, n: nat, t: Machine)
    requires Alive(m, a) && m.attempts[a].phase != Done && m1 == Step(m, a)
    requires if n == 0 then t == m1 else Alone(m1, a, n, t)
    ensures Alone(m, a, n + 1, t)
  {
  }

  lemma AfterGoto(m: Machine, a: nat, phase: Phase)
    requires a in m.attempts
    ensures var t := Goto(m, a, phase);
            && t.path == m.path && t.fence == m.fence && t.candidates == m.candidates && t.alive == m.alive
            && a in t.attempts && t.attempts[a] == m.attempts[a].(phase := phase)
            && (forall next :: Goto(t, a, next) == Goto(m, a, next))
  {
    var t := Goto(m, a, phase);
    forall next
      ensures Goto(t, a, next) == Goto(m, a, next)
    {
      assert Goto(t, a, next).attempts == Goto(m, a, next).attempts;
    }
  }

  predicate FacesStaleLease(m: Machine, a: nat, r: Record) {
    && Alive(m, a) && m.attempts[a].record in m.candidates && m.attempts[a].record != r
    && Names(m, r) && RecordIsValid(r) && !PidIsAlive(m, r.pid)
  }

  lemma FindsStale(m: Machine, a: nat, r: Record)
    requires FacesStaleLease(m, a, r) && m.attempts[a].phase == Linking
    ensures Alone(m, a, 4, Goto(m, a, BindFence(r, m.path.value.inode)))
  {
    var inode := m.path.value.inode;
    assert PidIsAlive(Goto(m, a, CheckStale(Written(r), inode)), r.pid) == PidIsAlive(m, r.pid);
    AfterGoto(m, a, ReadFirst);
    AfterGoto(m, a, StatFirst(Written(r)));
    AfterGoto(m, a, CheckStale(Written(r), inode));
    hide RecordIsValid, PidIsAlive, Alone, Goto;
    var m1 := Goto(m, a, ReadFirst);
    var m2 := Goto(m, a, StatFirst(Written(r)));
    var m3 := Goto(m, a, CheckStale(Written(r), inode));
    var m4 := Goto(m, a, BindFence(r, inode));
    OneMore(m3, a, m4, 0, m4);
    OneMore(m2, a, m3, 1, m4);
    OneMore(m1, a, m2, 2, m4);
    OneMore(m, a, m1, 3, m4);
  }

  lemma ChecksAgain(m: Machine, a: nat, r: Record)
    requires FacesStaleLease(m, a, r) && m.fence == None
    requires m.attempts[a].phase == BindFence(r, m.path.value.inode)
    ensures Alone(m, a, 4, Goto(m, a, RemovePath(r)).(fence := Some(a)))
  {
    var inode := m.path.value.inode;
    var f := m.(fence := Some(a));
    assert PidIsAlive(Goto(f, a, CheckMatch(r, inode, Written(r), inode)), r.pid) == PidIsAlive(m, r.pid);
    assert Matches(r, r);
    hide Matches, RecordIsValid, PidIsAlive, Alone;
    var m1 := Goto(f, a, ReadSecond(r, inode));
    var m2 := Goto(f, a, StatSecond(r, inode, Written(r)));
    var m3 := Goto(f, a, CheckMatch(r, inode, Written(r), inode));
    var m4 := Goto(f, a, RemovePath(r));
    OneMore(m3, a, m4, 0, m4);
    OneMore(m2, a, m3, 1, m4);
    OneMore(m1, a, m2, 2, m4);
    OneMore(m, a, m1, 3, m4);
  }

  predicate HoldsNow(m: Machine, a: nat, r: Record) {
    Alive(m, a) && m.attempts[a].phase == Holding && m.attempts[a].record == r && Names(m, r)
  }

  lemma ReclaimsPath(m: Machine, a: nat, r: Record) returns (t: Machine)
    requires FacesStaleLease(m, a, r) && m.attempts[a].phase == RemovePath(r)
    ensures Alone(m, a, 1, t) && Alive(t, a) && t.path == None
    ensures t.attempts[a] == m.attempts[a].(phase := RemoveCandidate(r)) && t.candidates == m.candidates
  {
    t := Step(m, a);
    OneMore(m, a, t, 0, t);
  }

  lemma ReclaimsCandidate(m: Machine, a: nat, r: Record) returns (t: Machine)
    requires Alive(m, a) && m.path == None && m.attempts[a].phase == RemoveCandidate(r)
    requires m.attempts[a].record in m.candidates && m.attempts[a].record != r
    ensures Alone(m, a, 1, t) && Alive(t, a) && t.path == None
    ensures t.attempts[a] == m.attempts[a].(phase := Linking) && t.attempts[a].record in t.candidates
    ensures r !in t.candidates
  {
    t := Step(m, a);
    OneMore(m, a, t, 0, t);
  }

  lemma LinksFreePath(m: Machine, a: nat) returns (t: Machine)
    requires Alive(m, a) && m.path == None && m.attempts[a].phase == Linking
    requires m.attempts[a].record in m.candidates
    ensures Alone(m, a, 1, t) && HoldsNow(t, a, m.attempts[a].record) && t.candidates == m.candidates
  {
    t := Step(m, a);
    OneMore(m, a, t, 0, t);
  }

  lemma TakesOver(m: Machine, a: nat, r: Record) returns (t: Machine)
    requires FacesStaleLease(m, a, r) && m.attempts[a].phase == RemovePath(r)
    ensures Alone(m, a, 3, t) && HoldsNow(t, a, m.attempts[a].record) && r !in t.candidates
  {
    hide Alone, RecordIsValid, PidIsAlive, Step;
    var m1 := ReclaimsPath(m, a, r);
    var m2 := ReclaimsCandidate(m1, a, r);
    t := LinksFreePath(m2, a);
    AloneAppend(m, a, 1, m1, 1, m2);
    AloneAppend(m, a, 2, m2, 1, t);
  }

  /** A dead owner's lease does not block: an attempt that finds it, and is not
      interfered with, holds the lease eleven steps on, and the dead owner's
      candidate is gone. */
  lemma StaleLeaseIsTakenOver(m: Machine, a: nat, r: Record)
    requires Consistent(m) && Alive(m, a) && m.attempts[a].phase == Linking && m.fence == None
    requires Names(m, r) && RecordIsValid(r) && !PidIsAlive(m, r.pid)
    ensures exists t :: Alone(m, a, 11, t) && HoldsNow(t, a, m.attempts[a].record) && r !in t.candidates
  {
    StaleIsDead(m, r);
    assert Knows(m, a);
    var inode := m.path.value.inode;
    assert FacesStaleLease(m, a, r);
    hide Consistent, Alone, FacesStaleLease;
    TakesOverFaced(m, a, r);
  }

  lemma TakesOverFaced(m: Machine, a: nat, r: Record)
    requires FacesStaleLease(m, a, r) && m.attempts[a].phase == Linking && m.fence == None
    ensures exists t :: Alone(m, a, 11, t) && HoldsNow(t, a, m.attempts[a].record) && r !in t.candidates
  {
    var t := Goto(m, a, BindFence(r, m.path.value.inode));
    var u := Goto(t, a, RemovePath(r)).(fence := Some(a));
    AfterGoto(m, a, t.attempts[a].phase);
    AfterGoto(t, a, RemovePath(r));
    StillFaces(m, t, a, r);
    StillFaces(m, u, a, r);
    hide Alone, FacesStaleLease, Goto;
    FindsStale(m, a, r);
    ChecksAgain(t, a, r);
    var v := TakesOver(u, a, r);
    AloneAppend(m, a, 4, t, 4, u);
    AloneAppend(m, a, 8, u, 3, v);
  }

  lemma StillFaces(m: Machine, t: Machine, a: nat, r: Record)
    requires FacesStaleLease(m, a, r)
    requires t.path == m.path && t.candidates == m.candidates && t.alive == m.alive
    requires a in t.attempts && t.attempts[a] == m.attempts[a].(phase := t.attempts[a].phase)
    ensures FacesStaleLease(t, a, r)
  {
  }
}
