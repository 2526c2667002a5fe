/** What a stop of an owned process tree observes and does, in order: process
  tables, signals, pauses and the owner file. */
module ProcessLog {
  import opened Wrappers
  import LinuxStat

  type Info = LinuxStat.ProcessInfo

  datatype Failure = IdentityMismatch | NoSuchProcess | OtherFailure(message: string)

  datatype SignalName = Term | Kill

  datatype Status = Launching | Running | Diagnostic | StoppedStatus

  datatype Owner = Owner(
    status: Status,
    bootId: Option<string>,
    backendUrl: string,
    supervisor: Info,
    backendRoot: Option<Info>,
    launchDeadline: nat)

  /** How long to wait after each kind of signal. */
  datatype Waits = Waits(term: nat, kill: nat)

  datatype StopResult =
    | Stopped(escalated: bool)
    | Mismatch
    | Unavailable
    | SignalFailed(failure: Failure)
    | StillRunning
    | OutOfFuel

  /** `at` and `until` are the clock, in milliseconds, when a scan or a reading
      came back and when a pause was over. */
  datatype Event =
    | Scanned(table: seq<Info>, at: nat)
    | ScanFailed(failure: Failure)
    | Signalled(pid: nat, name: SignalName, refused: Option<Failure>)
    | Slept(milliseconds: nat, until: nat)
    | Booted(bootId: Result<Option<string>, Failure>)
    | Read(owner: Option<Owner>, at: nat)
    | Wrote(written: Owner)
    | WriteFailed(failure: Failure)

  // ---------------------------------------------------------------------
  // Identity
  // ---------------------------------------------------------------------

  predicate SameProcessIdentity(expected: Info, actual: Info) {
    && expected.pid == actual.pid && expected.group == actual.group
    && expected.session == actual.session && expected.token == actual.token
  }

  /** The first entry with the pid. */
  function Find(table: seq<Info>, pid: nat): (found: Option<Info>)
    ensures found.Some? ==> found.value in table && found.value.pid == pid
    ensures found == None <==> forall i | i in table :: i.pid != pid
    ensures found.Some? ==> exists k | 0 <= k < |table| ::
              table[k] == found.value && forall j | 0 <= j < k :: table[j].pid != pid
  {
    if table == [] then None
    else if table[0].pid == pid then Some(table[0])
    else Find(table[1..], pid)
  }

  predicate Intact(anchor: Info, table: seq<Info>) {
    var candidate := Find(table, anchor.pid);
    candidate.Some? && SameProcessIdentity(anchor, candidate.value)
  }

  predicate InGroup(anchor: Info, i: Info) {
    i.pid != anchor.pid && i.group == anchor.group && i.session == anchor.session
  }

  function Members(anchor: Info, table: seq<Info>): (members: seq<Info>)
    ensures forall i :: i in members <==> i in table && InGroup(anchor, i)
  {
    if table == [] then []
    else if InGroup(anchor, table[0]) then [table[0]] + Members(anchor, table[1..])
    else Members(anchor, table[1..])
  }

  function ValidatedAnchor(anchor: Info, table: seq<Info>): (r: Result<Info, Failure>)
    ensures r.Ok? <==> Intact(anchor, table)
    ensures r.Err? ==> r.error == IdentityMismatch
  {
    if Intact(anchor, table) then Ok(Find(table, anchor.pid).value) else Err(IdentityMismatch)
  }

  function OwnedMembers(anchor: Info, table: seq<Info>): (r: Result<seq<Info>, Failure>)
    ensures r.Ok? <==> Intact(anchor, table)
    ensures r.Ok? ==> forall i :: i in r.value <==> i in table && InGroup(anchor, i)
    ensures r.Err? ==> r.error == IdentityMismatch
  {
    if Intact(anchor, table) then Ok(Members(anchor, table)) else Err(IdentityMismatch)
  }

  // ---------------------------------------------------------------------
  // What may be signalled
  // ---------------------------------------------------------------------

  /** Processes that were recorded, and the root whose group was. */
  datatype Targets = Targets(exact: set<Info>, anchor: Option<Info>)

  function TargetsOf(owner: Owner): Targets {
    Targets({owner.supervisor} + (if owner.backendRoot.Some? then {owner.backendRoot.value} else {}), owner.backendRoot)
  }

  /** A member of the anchor's group while the anchor is intact. */
  predicate IsMember(anchor: Info, table: seq<Info>, i: Info) {
    Intact(anchor, table) && i in table && InGroup(anchor, i)
  }

  /** An earlier scan listed the same process as a member. */
  ghost predicate ListedBefore(anchor: Info, before: seq<Event>, i: Info) {
    exists j, m | 0 <= j < |before| && before[j].Scanned? && m in before[j].table ::
      IsMember(anchor, before[j].table, m) && SameProcessIdentity(m, i)
  }

  /** The scan shows under this pid a recorded process, or a process that is,
      and already was when it was listed, a member of the recorded root's group
      and session, and not the root. */
  ghost predicate Justified(who: Targets, before: seq<Event>, table: seq<Info>, pid: nat) {
    var found := Find(table, pid);
    && found.Some?
    && ((exists x | x in who.exact :: SameProcessIdentity(x, found.value))
        || (who.anchor.Some? && IsMember(who.anchor.value, table, found.value)
            && ListedBefore(who.anchor.value, before, found.value)))
  }

  /** Every signal directly follows a scan that justifies it. */
  ghost predicate Safe(acting: set<Targets>, log: seq<Event>) {
    forall k | 0 <= k < |log| && log[k].Signalled? ::
      && k > 0 && log[k - 1].Scanned?
      && exists who | who in acting :: Justified(who, log[..k - 1], log[k - 1].table, log[k].pid)
  }

  lemma SafeQuiet(acting: set<Targets>, log: seq<Event>, e: Event)
    requires Safe(acting, log) && !e.Signalled?
    ensures Safe(acting, log + [e])
  {
    hide Justified;
    var more := log + [e];
    forall k | 0 <= k < |more| && more[k].Signalled?
      ensures k > 0 && more[k - 1].Scanned?
      ensures exists who | who in acting :: Justified(who, more[..k - 1], more[k - 1].table, more[k].pid)
    {
      assert k < |log| && more[k] == log[k] && more[k - 1] == log[k - 1];
      assert more[..k - 1] == log[..k - 1];
    }
  }

  lemma SafeSignal(acting: set<Targets>, log: seq<Event>, who: Targets, e: Event)
    requires Safe(acting, log) && who in acting && e.Signalled?
    requires log != [] && log[|log| - 1].Scanned?
    requires Justified(who, log[..|log| - 1], log[|log| - 1].table, e.pid)
    ensures Safe(acting, log + [e])
  {
    hide Justified;
    var more := log + [e];
    forall k | 0 <= k < |more| && more[k].Signalled?
      ensures k > 0 && more[k - 1].Scanned?
      ensures exists who | who in acting :: Justified(who, more[..k - 1], more[k - 1].table, more[k].pid)
    {
      assert k < |log| ==> log[k].Signalled?;
      assert more[..k - 1] == log[..k - 1];
    }
  }

  lemma SafeMore(acting: set<Targets>, more: set<Targets>, log: seq<Event>)
    requires Safe(acting, log) && acting <= more
    ensures Safe(more, log)
  {
    hide Justified;
  }

  lemma ExactIsJustified(who: Targets, before: seq<Event>, table: seq<Info>, target: Info)
    requires target in who.exact && Intact(target, table)
    ensures Justified(who, before, table, target.pid)
  {
  }

  lemma MemberIsJustified(who: Targets, anchor: Info, before: seq<Event>, at: nat, member: Info, latest: seq<Info>)
    requires who.anchor == Some(anchor) && at < |before| && before[at].Scanned?
    requires IsMember(anchor, before[at].table, member)
    requires Intact(anchor, latest)
    requires Find(latest, member.pid).Some? && SameProcessIdentity(member, Find(latest, member.pid).value)
    ensures Justified(who, before, latest, member.pid)
  {
    var found := Find(latest, member.pid).value;
    assert IsMember(anchor, latest, found);
    assert ListedBefore(anchor, before, found);
  }

  // ---------------------------------------------------------------------
  // What a single event shows
  // ---------------------------------------------------------------------

  predicate Shows(i: Info, e: Event) {
    e.Scanned? && Intact(i, e.table)
  }

  predicate Lacks(i: Info, e: Event) {
    e.Scanned? && !Intact(i, e.table)
  }

  predicate SeenGone(pid: nat, e: Event) {
    e.Scanned? && Find(e.table, pid) == None
  }

  /** The pid is that of another process. */
  predicate ShowsOther(i: Info, e: Event) {
    Lacks(i, e) && !SeenGone(i.pid, e)
  }

  ghost predicate SeenEmpty(anchor: Info, e: Event) {
    && Shows(anchor, e)
    && forall i | i in e.table && i.group == anchor.group && i.session == anchor.session :: i.pid == anchor.pid
  }

  predicate Sent(pid: nat, name: SignalName, e: Event) {
    e == Signalled(pid, name, None)
  }

  predicate Pause(e: Event) {
    e.Slept? && e.milliseconds == 20
  }

  /** A pause that ended after the time. */
  predicate Late(e: Event, time: nat) {
    e.Slept? && e.until > time
  }

  // ---------------------------------------------------------------------
  // Since an event
  // ---------------------------------------------------------------------

  ghost predicate NoSignals(log: seq<Event>, from: nat) {
    forall k | from <= k < |log| :: !log[k].Signalled?
  }

  ghost predicate OnlySignals(pid: nat, log: seq<Event>, from: nat) {
    forall k | from <= k < |log| && log[k].Signalled? :: log[k].pid == pid
  }

  /** Since `from` only this signal was sent. */
  ghost predicate OnlyNamed(name: SignalName, log: seq<Event>, from: nat) {
    forall k | from <= k < |log| && log[k].Signalled? :: log[k].name == name
  }

  /** Since `from` no signal went to the pid. */
  ghost predicate Spared(pid: nat, log: seq<Event>, from: nat) {
    forall k | from <= k < |log| && log[k].Signalled? :: log[k].pid != pid
  }

  ghost predicate NoKill(pid: nat, log: seq<Event>, from: nat) {
    forall k | from <= k < |log| && log[k].Signalled? :: !(log[k].pid == pid && log[k].name == Kill)
  }

  /** Since `from` a scan either no longer showed the process or was directly
      followed by the signal. */
  ghost predicate Handled(i: Info, name: SignalName, log: seq<Event>, from: nat) {
    exists k | from <= k < |log| :: HandledAt(i, name, log, k)
  }

  ghost predicate HandledAt(i: Info, name: SignalName, log: seq<Event>, k: nat)
    requires k < |log|
  {
    && log[k].Scanned?
    && (!Intact(i, log[k].table)
        || (k + 1 < |log| && log[k + 1].Signalled? && log[k + 1].pid == i.pid && log[k + 1].name == name))
  }

  lemma HandledMore(i: Info, name: SignalName, log: seq<Event>, more: seq<Event>, from: nat, earlier: nat)
    requires Handled(i, name, log, from) && log <= more && earlier <= from
    ensures Handled(i, name, more, earlier)
  {
    hide Intact;
    var k :| from <= k < |log| && HandledAt(i, name, log, k);
    assert HandledAt(i, name, more, k);
  }

  /** Every member that the scan at `from` listed was then handled. */
  ghost predicate AllHandled(anchor: Info, name: SignalName, log: seq<Event>, from: nat) {
    && from < |log| && Shows(anchor, log[from])
    && forall i | i in log[from].table && i.group == anchor.group && i.session == anchor.session ::
         i.pid != anchor.pid ==> Handled(i, name, log, from)
  }

  lemma AllHandledMore(anchor: Info, name: SignalName, log: seq<Event>, more: seq<Event>, from: nat)
    requires AllHandled(anchor, name, log, from) && log <= more
    ensures AllHandled(anchor, name, more, from)
  {
    hide Handled, Intact;
    forall i | i in log[from].table && Handled(i, name, log, from)
      ensures Handled(i, name, more, from)
    {
      HandledMore(i, name, log, more, from, from);
    }
  }

  // ---------------------------------------------------------------------
  // Waiting for one process
  // ---------------------------------------------------------------------

  /** Since `from` scan and pause take turns. */
  ghost predicate Polls(log: seq<Event>, from: nat) {
    from < |log| && forall k | from <= k < |log| :: if (k - from) % 2 == 0 then log[k].Scanned? else Pause(log[k])
  }

  /** The last scan is the first one without the process. */
  ghost predicate SawExit(expected: Info, log: seq<Event>, from: nat) {
    && Polls(log, from) && Lacks(expected, log[|log| - 1])
    && forall k | from <= k < |log| - 1 && log[k].Scanned? :: Shows(expected, log[k])
  }

  /** Every scan shows the process, and the waiting went on until after the time. */
  ghost predicate SawNoExit(expected: Info, log: seq<Event>, from: nat, time: nat) {
    && Polls(log, from) && Late(log[|log| - 1], time)
    && forall k | from <= k < |log| && log[k].Scanned? :: Shows(expected, log[k])
  }

  /** Two consecutive scans without the pid. */
  ghost predicate SeenGoneTwice(pid: nat, log: seq<Event>) {
    && |log| >= 3
    && SeenGone(pid, log[|log| - 3]) && log[|log| - 2].Slept? && SeenGone(pid, log[|log| - 1])
  }

  ghost predicate NeverGoneTwice(pid: nat, log: seq<Event>, from: nat) {
    forall k, m | from <= k < |log| && m == k + 2 && m < |log| :: !(SeenGone(pid, log[k]) && SeenGone(pid, log[m]))
  }

  ghost predicate NeverAnother(i: Info, log: seq<Event>, from: nat) {
    forall k | from <= k < |log| :: !ShowsOther(i, log[k])
  }

  /** The last two scans are the first two in a row without the pid. */
  ghost predicate SawGone(i: Info, log: seq<Event>, from: nat) {
    && Polls(log, from) && from + 3 <= |log| && SeenGoneTwice(i.pid, log)
    && NeverGoneTwice(i.pid, log[..|log| - 1], from) && NeverAnother(i, log, from)
  }

  /** No two scans in a row lack the pid, and the waiting went on until after
      the time. */
  ghost predicate SawNotGone(i: Info, log: seq<Event>, from: nat, time: nat) {
    && Polls(log, from) && Late(log[|log| - 1], time)
    && NeverGoneTwice(i.pid, log, from) && NeverAnother(i, log, from)
  }

  // ---------------------------------------------------------------------
  // Waiting for a group
  // ---------------------------------------------------------------------

  /** Two consecutive scans, a pause between, with the anchor intact and nobody
      else in its group. */
  ghost predicate SeenEmptyTwice(anchor: Info, log: seq<Event>) {
    && |log| >= 3
    && SeenEmpty(anchor, log[|log| - 3]) && log[|log| - 2].Slept? && SeenEmpty(anchor, log[|log| - 1])
  }

  /** The first scan after a pause. */
  ghost predicate Looks(log: seq<Event>, from: nat, k: nat) {
    from <= k < |log| && (k == from || log[k - 1].Slept?)
  }

  /** A look is followed by a pause if it finds the group empty, and otherwise
      by another listing whose members are all handled. */
  ghost predicate Round(anchor: Info, name: SignalName, log: seq<Event>, k: nat)
    requires k < |log|
  {
    && Shows(anchor, log[k])
    && (k + 1 < |log| ==>
          if SeenEmpty(anchor, log[k]) then Pause(log[k + 1]) else AllHandled(anchor, name, log, k + 1))
  }

  ghost predicate Rounds(anchor: Info, name: SignalName, log: seq<Event>, from: nat) {
    && (forall k: nat | Looks(log, from, k) :: Round(anchor, name, log, k))
    && (forall k | from <= k < |log| && log[k].Slept? :: Pause(log[k]))
  }

  ghost predicate NeverEmptyTwice(anchor: Info, log: seq<Event>, from: nat) {
    forall k: nat, m: nat | Looks(log, from, k) && Looks(log, from, m) && m == k + 2 ::
      !(SeenEmpty(anchor, log[k]) && SeenEmpty(anchor, log[m]))
  }

  /** The last two looks are the first two in a row at an empty group. */
  ghost predicate SawEmpty(anchor: Info, name: SignalName, log: seq<Event>, from: nat) {
    && Rounds(anchor, name, log, from) && from + 3 <= |log| && Looks(log, from, |log| - 3)
    && SeenEmptyTwice(anchor, log) && NeverEmptyTwice(anchor, log[..|log| - 1], from)
  }

  /** No two looks in a row find the group empty, and the looking went on until
      after the time. */
  ghost predicate SawNotEmpty(anchor: Info, name: SignalName, log: seq<Event>, from: nat, time: nat) {
    && Rounds(anchor, name, log, from) && from < |log| && Late(log[|log| - 1], time)
    && NeverEmptyTwice(anchor, log, from)
  }

  lemma LooksMore(log: seq<Event>, more: seq<Event>, from: nat, k: nat)
    requires from <= |log| < |more| && log <= more
    requires forall k | |log| <= k < |more| - 1 :: !more[k].Slept?
    ensures Looks(more, from, k) ==> k <= |log| && (k < |log| ==> Looks(log, from, k))
  {
  }

  /** One more round on top of rounds that ended with a pause. */
  lemma RoundsMore(anchor: Info, name: SignalName, log: seq<Event>, more: seq<Event>, from: nat)
    requires from <= |log| < |more| && log <= more && Rounds(anchor, name, log, from)
    requires |log| > from ==> log[|log| - 1].Slept?
    requires Round(anchor, name, more, |log|)
    requires forall k | |log| <= k < |more| - 1 :: !more[k].Slept?
    requires more[|more| - 1].Slept? ==> Pause(more[|more| - 1])
    ensures Rounds(anchor, name, more, from)
  {
    hide Shows, SeenEmpty, Pause, AllHandled;
    forall k: nat | Looks(more, from, k)
      ensures Round(anchor, name, more, k)
    {
      LooksMore(log, more, from, k);
      if k < |log| {
        RoundStays(anchor, name, log, more, k);
      }
    }
    forall k | from <= k < |more| && more[k].Slept?
      ensures Pause(more[k])
    {
      assert k < |log| ==> more[k] == log[k];
    }
  }

  lemma RoundStays(anchor: Info, name: SignalName, log: seq<Event>, more: seq<Event>, k: nat)
    requires k < |log| && log <= more && Round(anchor, name, log, k)
    requires log[|log| - 1].Slept?
    ensures Round(anchor, name, more, k)
  {
    assert more[k] == log[k];
    assert k + 1 < |log|;
    hide SeenEmpty, Pause, AllHandled;
    if !SeenEmpty(anchor, log[k]) {
      AllHandledMore(anchor, name, log, more, k + 1);
    }
  }

  lemma NeverEmptyTwiceMore(anchor: Info, log: seq<Event>, more: seq<Event>, from: nat)
    requires from <= |log| < |more| && log <= more && NeverEmptyTwice(anchor, log, from)
    requires forall k | |log| <= k < |more| - 1 :: !more[k].Slept?
    requires SeenEmpty(anchor, more[|log|]) ==>
               !(|log| >= from + 2 && Looks(log, from, |log| - 2) && SeenEmpty(anchor, log[|log| - 2]))
    ensures NeverEmptyTwice(anchor, more, from)
  {
    hide SeenEmpty;
    forall k: nat, m: nat | Looks(more, from, k) && Looks(more, from, m) && m == k + 2
      ensures !(SeenEmpty(anchor, more[k]) && SeenEmpty(anchor, more[m]))
    {
      LooksMore(log, more, from, k);
      LooksMore(log, more, from, m);
    }
  }

  // ---------------------------------------------------------------------
  // Draining a group
  // ---------------------------------------------------------------------

  /** The failure with which a drain stops at this event. */
  function Thrown(anchor: Info, e: Event): Option<Failure> {
    match e
    case ScanFailed(failure) => Some(failure)
    case Scanned(table, _) => if Intact(anchor, table) then None else Some(IdentityMismatch)
    case Signalled(_, _, Some(failure)) => if failure == NoSuchProcess then None else Some(failure)
    case _ => None
  }

  ghost predicate Calm(anchor: Info, log: seq<Event>, from: nat) {
    forall k | from <= k < |log| :: Thrown(anchor, log[k]) == None
  }

  /** All listed members are handled, and then rounds are made until the group
      was seen empty twice or the wait is over, all with one signal. */
  ghost predicate PhaseEnds(anchor: Info, name: SignalName, wait: nat, log: seq<Event>, from: nat, empty: bool) {
    && OnlyNamed(name, log, from)
    && exists asked | asked <= log && AllHandled(anchor, name, asked, from) ::
         if empty then SawEmpty(anchor, name, log, |asked|)
         else SawNotEmpty(anchor, name, log, |asked|, asked[from].at + wait)
  }

  /** The first kill comes after the whole phase of asking has failed. */
  ghost predicate KillsLate(anchor: Info, waits: Waits, log: seq<Event>, from: nat) {
    || OnlyNamed(Term, log, from)
    || exists asked | asked <= log && PhaseEnds(anchor, Term, waits.term, asked, from, false) ::
         OnlyNamed(Kill, log, |asked|)
  }

  ghost predicate DrainDecides(anchor: Info, waits: Waits, log: seq<Event>, from: nat, r: StopResult) {
    || (r == Stopped(false) && PhaseEnds(anchor, Term, waits.term, log, from, true))
    || (exists asked | asked <= log && PhaseEnds(anchor, Term, waits.term, asked, from, false) ::
          || (r == Stopped(true) && PhaseEnds(anchor, Kill, waits.kill, log, |asked|, true))
          || (r == StillRunning && PhaseEnds(anchor, Kill, waits.kill, log, |asked|, false)))
  }

  /** A whole drain: the boot id is compared first, and nothing else happens
      if it differs. */
  ghost predicate Drained(owner: Owner, anchor: Info, waits: Waits, log: seq<Event>, from: nat, r: StopResult) {
    && from < |log| && log[from].Booted? && KillsLate(anchor, waits, log, from + 1)
    && match log[from].bootId
       case Err(failure) =>
         |log| == from + 1 && r == if failure == IdentityMismatch then Mismatch else SignalFailed(failure)
       case Ok(bootId) =>
         if bootId != owner.bootId then |log| == from + 1 && r == Mismatch
         else if Calm(anchor, log, from + 1) then DrainDecides(anchor, waits, log, from + 1, r)
         else
           && Thrown(anchor, log[|log| - 1]).Some?
           && var failure := Thrown(anchor, log[|log| - 1]).value;
              r == if failure == IdentityMismatch then Mismatch else SignalFailed(failure)
  }

  // ---------------------------------------------------------------------
  // Stopping the supervisor
  // ---------------------------------------------------------------------

  /** The last event is why the stop of these processes failed. */
  ghost predicate Fails(who: set<Info>, log: seq<Event>, failure: Failure) {
    && log != []
    && var e := log[|log| - 1];
       || e == ScanFailed(failure) || e == WriteFailed(failure) || e == Booted(Err(failure))
       || (e.Signalled? && e.refused == Some(failure))
       || (failure == IdentityMismatch && exists i | i in who :: Lacks(i, e))
  }

  /** SIGKILL follows a scan with the supervisor still there, after a whole
      wait in which it was not gone. */
  ghost predicate KillsStubborn(s: Info, wait: nat, log: seq<Event>, from: nat, j: nat) {
    && from + 3 < j < |log|
    && Shows(s, log[from]) && SawNotGone(s, log[..j - 1], from + 2, log[from].at + wait)
    && Shows(s, log[j - 1]) && log[j].Signalled? && log[j].pid == s.pid && log[j].name == Kill
  }

  /** SIGKILL is sent once and last, or not at all. */
  ghost predicate KillsOnlyStubborn(s: Info, wait: nat, log: seq<Event>, from: nat) {
    || OnlyNamed(Term, log, from)
    || exists j: nat :: KillsStubborn(s, wait, log, from, j) && OnlyNamed(Term, log[..j], from) && NoSignals(log, j + 1)
  }

  ghost predicate SupervisorAsked(s: Info, log: seq<Event>, from: nat) {
    from + 1 < |log| && Shows(s, log[from]) && Sent(s.pid, Term, log[from + 1])
  }

  /** The supervisor was gone at once, or went after SIGTERM or SIGKILL. */
  ghost predicate SupervisorStopped(s: Info, wait: nat, log: seq<Event>, from: nat) {
    || (|log| == from + 1 && SeenGone(s.pid, log[from]))
    || (SupervisorAsked(s, log, from) && SawGone(s, log, from + 2))
    || (SupervisorAsked(s, log, from)
        && exists j: nat :: KillsStubborn(s, wait, log, from, j) && Sent(s.pid, Kill, log[j]) && SawGone(s, log, j + 1))
  }

  /** Its pid is another process's now, or it outlived both signals. */
  ghost predicate SupervisorStays(s: Info, wait: nat, log: seq<Event>, from: nat) {
    || (|log| == from + 1 && ShowsOther(s, log[from]))
    || (SupervisorAsked(s, log, from)
        && exists j: nat :: KillsStubborn(s, wait, log, from, j) && Sent(s.pid, Kill, log[j])
                       && SawNotGone(s, log, j + 1, log[j - 1].at + wait))
  }

  /** What the end of the supervisor makes of a stop that is otherwise done. */
  ghost predicate SupervisorDecides(s: Info, wait: nat, log: seq<Event>, from: nat, r: StopResult) {
    || (r == Stopped(false) && SupervisorStopped(s, wait, log, from))
    || (r == Mismatch && SupervisorStays(s, wait, log, from))
  }

  // ---------------------------------------------------------------------
  // Asking the root to exit
  // ---------------------------------------------------------------------

  predicate SaysStopped(e: Event) {
    e.Read? && e.owner.Some? && e.owner.value.status == StoppedStatus
  }

  predicate SaysStoppedFor(root: Info, e: Event) {
    SaysStopped(e) && e.owner.value.backendRoot.Some? && SameProcessIdentity(e.owner.value.backendRoot.value, root)
  }

  ghost predicate RootAsked(root: Info, log: seq<Event>, from: nat) {
    from + 1 < |log| && Shows(root, log[from]) && Sent(root.pid, Term, log[from + 1])
  }

  /** The root was asked and is still there after the whole wait. */
  ghost predicate RootStays(root: Info, waits: Waits, log: seq<Event>, from: nat) {
    RootAsked(root, log, from) && SawNoExit(root, log, from + 2, log[from].at + waits.term)
  }

  /** The root is gone and the file has just said that it was stopped. */
  ghost predicate RootIsDone(root: Info, log: seq<Event>, from: nat) {
    || (|log| == from + 2 && SeenGone(root.pid, log[from]) && SaysStopped(log[from + 1]))
    || (RootAsked(root, log, from) && SawExit(root, log[..|log| - 1], from + 2)
        && SaysStoppedFor(root, log[|log| - 1]))
  }

  /** The root is gone, or its pid another process's, and the file does not
      say that it was stopped. */
  ghost predicate RootIsUnclear(root: Info, log: seq<Event>, from: nat) {
    || (|log| == from + 2 && Lacks(root, log[from]) && log[from + 1].Read?
        && !(SeenGone(root.pid, log[from]) && SaysStopped(log[from + 1])))
    || (RootAsked(root, log, from) && SawExit(root, log[..|log| - 1], from + 2)
        && log[|log| - 1].Read? && !SaysStoppedFor(root, log[|log| - 1]))
  }

  ghost predicate AskingDecides(owner: Owner, root: Info, waits: Waits, log: seq<Event>, from: nat, r: StopResult) {
    || (r == Mismatch && RootIsUnclear(root, log, from))
    || (exists asked | asked <= log && RootIsDone(root, asked, from) ::
          SupervisorDecides(owner.supervisor, waits.kill, log, |asked|, r))
  }

  // ---------------------------------------------------------------------
  // A stop with a recorded root
  // ---------------------------------------------------------------------

  /** The event records the stop of this root and its supervisor. */
  ghost predicate Records(owner: Owner, root: Info, e: Event) {
    e.Wrote? && e.written.status == StoppedStatus && Recordable(owner, root, e.written)
  }

  predicate Recordable(owner: Owner, root: Info, terminal: Owner) {
    && terminal.backendRoot.Some? && SameProcessIdentity(terminal.backendRoot.value, root)
    && SameProcessIdentity(terminal.supervisor, owner.supervisor) && terminal.backendUrl == owner.backendUrl
  }

  /** What was read is written back as stopped if it is still the same tree. */
  ghost predicate RecordingDecides(owner: Owner, root: Info, log: seq<Event>, from: nat, r: StopResult) {
    && from < |log| && log[from].Read?
    && if log[from].owner.Some? && Recordable(owner, root, log[from].owner.value)
       then |log| == from + 2 && log[from + 1] == Wrote(log[from].owner.value.(status := StoppedStatus))
            && r == Stopped(true)
       else |log| == from + 1 && r == Mismatch
  }

  /** The group is empty: the root is killed, then the supervisor stopped, then
      the stop recorded. */
  ghost predicate FinishDecides(owner: Owner, root: Info, waits: Waits, log: seq<Event>, from: nat, r: StopResult) {
    && from + 1 < |log| && Shows(root, log[from]) && Sent(root.pid, Kill, log[from + 1])
    && (|| (r == StillRunning && SawNoExit(root, log, from + 2, log[from].at + waits.kill))
        || (exists killed | killed <= log && SawExit(root, killed, from + 2) ::
              EndingDecides(owner, root, waits, log, |killed|, r)))
  }

  ghost predicate EndingDecides(owner: Owner, root: Info, waits: Waits, log: seq<Event>, from: nat, r: StopResult) {
    || (r == Mismatch && SupervisorStays(owner.supervisor, waits.kill, log, from))
    || (exists gone | gone <= log && SupervisorStopped(owner.supervisor, waits.kill, gone, from) ::
          RecordingDecides(owner, root, log, |gone|, r))
  }

  /** The drain failed with `cleanup`: that is the outcome, unless the file says
      stopped and the root is gone. */
  ghost predicate ReviewDecides(
    owner: Owner, root: Info, waits: Waits, log: seq<Event>, from: nat, cleanup: StopResult, r: StopResult)
  {
    && from + 1 < |log| && log[from].Read? && log[from + 1].Scanned?
    && if SaysStopped(log[from]) && SeenGone(root.pid, log[from + 1])
       then SupervisorDecides(owner.supervisor, waits.kill, log, from + 2, r)
       else |log| == from + 2 && r == cleanup
  }

  /** Once the root has outstayed the wait: its group is drained, and the result
      of that decides what follows. */
  ghost predicate DrainingDecides(owner: Owner, root: Info, waits: Waits, log: seq<Event>, from: nat, r: StopResult) {
    exists drained, cleanup | drained <= log && Drained(owner, root, waits, drained, from, cleanup) ::
      if cleanup.Stopped? then FinishDecides(owner, root, waits, log, |drained|, r)
      else ReviewDecides(owner, root, waits, log, |drained|, cleanup, r)
  }

  ghost predicate RootedDecides(owner: Owner, root: Info, waits: Waits, log: seq<Event>, from: nat, r: StopResult) {
    || AskingDecides(owner, root, waits, log, from, r)
    || (exists asked | asked <= log && RootStays(root, waits, asked, from) ::
          DrainingDecides(owner, root, waits, log, |asked|, r))
  }

  // ---------------------------------------------------------------------
  // A stop without a recorded root, and a whole stop
  // ---------------------------------------------------------------------

  /** The supervisor, if it is there, gets SIGTERM and time to exit. */
  ghost predicate LauncherAsked(s: Info, wait: nat, log: seq<Event>, from: nat) {
    && from < |log| && log[from].Scanned?
    && if Shows(s, log[from])
       then SupervisorAsked(s, log, from)
            && (SawGone(s, log, from + 2) || SawNotGone(s, log, from + 2, log[from].at + wait))
       else |log| == from + 1
  }

  /** Reading the file again decides a rootless stop unless it is unchanged. */
  ghost predicate ReadingDecides(owner: Owner, waits: Waits, log: seq<Event>, from: nat, r: StopResult)
    decreases |log| - from, 1
  {
    && from < |log| && log[from].Read?
    && match log[from].owner
       case None => |log| == from + 1 && r == Unavailable
       case Some(current) =>
         if current.backendRoot.Some? then StopDecides(waits, log, from + 1, r)
         else |log| == from + 1 && r == Mismatch && (current.status == StoppedStatus || current != owner)
  }

  predicate Unchanged(owner: Owner, log: seq<Event>, from: nat) {
    && from < |log| && log[from].Read? && log[from].owner == Some(owner)
    && owner.backendRoot == None && owner.status != StoppedStatus
  }

  /** The last look, at the earliest when the launch should have ended or the
      wait is over: a supervisor that is still there is still running. */
  ghost predicate LastLookDecides(owner: Owner, waits: Waits, log: seq<Event>, from: nat, r: StopResult)
    decreases |log| - from, 2
  {
    && from < |log| && log[from].Scanned?
    && if Shows(owner.supervisor, log[from]) then |log| == from + 1 && r == StillRunning
       else
         || ReadingDecides(owner, waits, log, from + 1, r)
         || (|log| == from + 2 && Unchanged(owner, log, from + 1) && r == Mismatch)
  }

  /** A pause until the launch should have ended, but no longer than the wait. */
  predicate LaunchPause(owner: Owner, waits: Waits, read: nat, e: Event) {
    && e.Slept? && e.milliseconds <= waits.term && read + e.milliseconds <= owner.launchDeadline
    && (e.milliseconds == waits.term || e.until >= owner.launchDeadline)
  }

  ghost predicate SettlingDecides(owner: Owner, waits: Waits, log: seq<Event>, from: nat, r: StopResult)
    decreases |log| - from, 3
  {
    || ReadingDecides(owner, waits, log, from, r)
    || (Unchanged(owner, log, from) && from + 1 < |log|
        && if log[from + 1].Slept?
           then
             && LaunchPause(owner, waits, log[from].at, log[from + 1])
             && (|| ReadingDecides(owner, waits, log, from + 2, r)
                 || (Unchanged(owner, log, from + 2) && LastLookDecides(owner, waits, log, from + 3, r)))
           else
             && log[from + 1].Scanned? && log[from + 1].at >= owner.launchDeadline
             && LastLookDecides(owner, waits, log, from + 1, r))
  }

  ghost predicate RootlessDecides(owner: Owner, waits: Waits, log: seq<Event>, from: nat, r: StopResult)
    decreases |log| - from, 4
  {
    exists asked | asked <= log && from < |asked| && LauncherAsked(owner.supervisor, waits.term, asked, from) ::
      SettlingDecides(owner, waits, log, |asked|, r)
  }

  ghost predicate TryDecides(owner: Owner, waits: Waits, log: seq<Event>, from: nat, r: StopResult)
    decreases |log| - from, 5
  {
    && from < |log| && log[from].Booted? && log[from].bootId.Ok?
    && if log[from].bootId.value != owner.bootId then |log| == from + 1 && r == Mismatch
       else if owner.backendRoot.Some? then RootedDecides(owner, owner.backendRoot.value, waits, log, from + 1, r)
       else RootlessDecides(owner, waits, log, from + 1, r)
  }

  /** One attempt to confirm that a vanished tree was stopped did not succeed. */
  ghost predicate NotConfirmed(waits: Waits, log: seq<Event>, from: nat) {
    && from + 1 < |log| && log[from].Read? && Pause(log[|log| - 1])
    && if SaysStopped(log[from])
       then SawNotGone(log[from].owner.value.supervisor, log[..|log| - 1], from + 1, log[from].at + waits.kill)
       else |log| == from + 2
  }

  /** `marks` are the starts of attempts that did not succeed, and the end of
      the last one. */
  ghost predicate NeverConfirmed(waits: Waits, log: seq<Event>, from: nat, marks: seq<nat>) {
    && marks != [] && marks[0] == from && marks[|marks| - 1] == |log|
    && (forall n | 0 <= n < |marks| :: marks[n] <= |log|)
    && (forall n, m | 0 <= n && m == n + 1 && m < |marks| :: NotConfirmed(waits, log[..marks[m]], marks[n]))
  }

  ghost predicate ConfirmingDecides(waits: Waits, log: seq<Event>, from: nat, r: StopResult) {
    exists marks, tried | tried <= log && |marks| <= 6 && NeverConfirmed(waits, tried, from, marks) ::
      || (r == Mismatch && |marks| == 6 && tried == log)
      || (|tried| < |log| && |marks| <= 5 && SaysStopped(log[|tried|])
          && var s := log[|tried|].owner.value.supervisor;
             || (r == Stopped(false) && SawGone(s, log, |tried| + 1))
             || (r == Mismatch && (log[|log| - 1].ScanFailed? || ShowsOther(s, log[|log| - 1]))))
  }

  /** A whole stop, from its first reading of the owner file. */
  ghost predicate StopDecides(waits: Waits, log: seq<Event>, from: nat, r: StopResult)
    decreases |log| - from, 0
  {
    && from < |log| && log[from].Read?
    && match log[from].owner
       case None => |log| == from + 1 && r == Unavailable
       case Some(owner) =>
         if owner.status == StoppedStatus
         then |log| == from + 1 && r == if owner.backendRoot.Some? then Stopped(false) else Mismatch
         else
           || TryDecides(owner, waits, log, from + 1, r)
           || (exists failed, failure |
                 failed <= log && from < |failed| && Fails(TargetsOf(owner).exact, failed, failure) ::
                 if failure == IdentityMismatch || failure == NoSuchProcess
                 then ConfirmingDecides(waits, log, |failed|, r)
                 else failed == log && r == SignalFailed(failure))
  }

  /** How often since `from` the file was read with a recorded root. */
  function Appearances(log: seq<Event>, from: nat): nat {
    if |log| <= from then 0
    else
      var e := log[|log| - 1];
      Appearances(log[..|log| - 1], from)
      + (if e.Read? && e.owner.Some? && e.owner.value.backendRoot.Some? then 1 else 0)
  }

  lemma {:induction false} AppearancesAdd(before: seq<Event>, log: seq<Event>, from: nat)
    requires before <= log && from <= |before|
    ensures Appearances(log, from) == Appearances(before, from) + Appearances(log, |before|)
    decreases |log|
  {
    if |log| > |before| {
      AppearancesAdd(before, log[..|log| - 1], from);
    } else {
      assert log == before;
    }
  }

  lemma RootedNeedsNoFuel(owner: Owner, root: Info, waits: Waits, log: seq<Event>, from: nat)
    ensures !RootedDecides(owner, root, waits, log, from, OutOfFuel)
  {
  }

  lemma NeverConfirmedMore(waits: Waits, head: seq<Event>, log: seq<Event>, from: nat, marks: seq<nat>)
    requires NeverConfirmed(waits, head, from, marks) && head <= log && NotConfirmed(waits, log, |head|)
    ensures NeverConfirmed(waits, log, from, marks + [|log|])
  {
    hide NotConfirmed;
    var more := marks + [|log|];
    assert log[..|log|] == log;
    forall n, m | 0 <= n && m == n + 1 && m < |more|
      ensures NotConfirmed(waits, log[..more[m]], more[n])
    {
      if m < |marks| {
        assert log[..marks[m]] == head[..marks[m]];
      }
    }
  }
}
