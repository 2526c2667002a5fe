/** Which generation a page event of a browser belongs to. */
module NavigationTracker {
  import opened Wrappers

  const MAX_TRACKED_URLS: nat := 64
  const MARKER_TTL: nat := 2000
  const MAX_SEQUENCE: nat := 0xFFFF_FFFF_FFFF_FFFF

  /** What the tracker needs of the URL library: a URL without its fragment,
      and without fragment and query if it can be parsed. */
  datatype Urls = Urls(normalized: string -> string, route: string -> Option<string>)

  datatype Expected = Expected(sequence: nat, url: string)

  datatype UserNavigation = UserNavigation(sequence: nat, target: string, allowQueryChange: bool, started: nat)

  datatype Tracker = Tracker(
    pending: Option<Expected>,
    user: Option<UserNavigation>,
    activeSequence: nat,
    activeUrl: Option<string>,
    activeCompleted: bool,
    known: map<string, nat>)

  const NEW_TRACKER: Tracker := Tracker(None, None, 0, None, false, map[])

  // ---------------------------------------------------------------------
  // What each operation does
  // ---------------------------------------------------------------------

  function Expecting(u: Urls, t: Tracker, sequence: nat, url: string): Tracker {
    t.(pending := Some(Expected(sequence, u.normalized(url))), user := None)
  }

  function NextSequence(active: nat): nat {
    if active >= MAX_SEQUENCE then MAX_SEQUENCE else active + 1
  }

  predicate IsFresh(n: UserNavigation, now: nat) {
    now <= n.started + MARKER_TTL
  }

  function UserNavigating(u: Urls, t: Tracker, target: string, allowQueryChange: bool, now: nat): (Tracker, nat) {
    if t.pending.Some? then (t, 0)
    else if t.user.Some? && IsFresh(t.user.value, now) && t.user.value.target == u.normalized(target)
            && t.user.value.allowQueryChange == allowQueryChange then (t, t.user.value.sequence)
    else
      var n := UserNavigation(NextSequence(t.activeSequence), u.normalized(target), allowQueryChange, now);
      (t.(user := Some(n)), n.sequence)
  }

  /** A full table is emptied but for the active URL. */
  function Remembering(t: Tracker, url: string, sequence: nat): Tracker {
    var kept :=
      if url in t.known || |t.known| < MAX_TRACKED_URLS then t.known
      else if t.activeUrl.Some? then map[t.activeUrl.value := t.activeSequence]
      else map[];
    t.(known := kept[url := sequence])
  }

  function Activating(t: Tracker, sequence: nat, url: string): Tracker {
    Remembering(t.(activeSequence := sequence, activeUrl := Some(url), activeCompleted := false,
                   pending := None, user := None), url, sequence)
  }

  predicate IsTarget(u: Urls, n: UserNavigation, url: string) {
    n.target == u.normalized(url)
    || (n.allowQueryChange && u.route(n.target).Some? && u.route(n.target) == u.route(url))
  }

  function KnownSequence(t: Tracker, url: string): nat {
    if url in t.known then t.known[url] else 0
  }

  /** A page started loading. */
  function Observing(u: Urls, t: Tracker, url: string, now: nat): (Tracker, nat) {
    var normalized := u.normalized(url);
    if t.pending.Some? && t.pending.value.url == normalized then
      (Activating(t, t.pending.value.sequence, normalized), t.pending.value.sequence)
    else if t.user.Some? && IsFresh(t.user.value, now) && IsTarget(u, t.user.value, url) then
      (Activating(t, t.user.value.sequence, normalized), t.user.value.sequence)
    else
      var rest := if t.user.Some? && !IsFresh(t.user.value, now) then t.(user := None) else t;
      if normalized in t.known then (rest, t.known[normalized])
      else if t.pending == None && t.activeSequence != 0 && !t.activeCompleted then
        (Remembering(rest, normalized, t.activeSequence), t.activeSequence)
      else (rest, 0)
  }

  /** A page event: a start, or a finish or title of a page. */
  function Reporting(u: Urls, t: Tracker, url: string, started: bool, finished: bool, now: nat): (Tracker, nat) {
    var (t1, sequence) :=
      if started then Observing(u, t, url, now) else (t, KnownSequence(t, u.normalized(url)));
    (if finished && sequence != 0 && sequence == t1.activeSequence then t1.(activeCompleted := true) else t1, sequence)
  }

  // ---------------------------------------------------------------------
  // The object
  // ---------------------------------------------------------------------

  class BrowserEventTracker {
    const urls: Urls
    var pending: Option<Expected>
    var pendingUser: Option<UserNavigation>
    var activeSequence: nat
    var activeUrl: Option<string>
    var activeCompleted: bool
    var sequenceByUrl: map<string, nat>

    ghost function View(): Tracker
      reads this
    {
      Tracker(pending, pendingUser, activeSequence, activeUrl, activeCompleted, sequenceByUrl)
    }

    constructor (urls: Urls)
      ensures View() == NEW_TRACKER && this.urls == urls
    {
      this.urls := urls;
      pending, pendingUser, activeSequence, activeUrl := None, None, 0, None;
      activeCompleted, sequenceByUrl := false, map[];
    }

    method ExpectNavigation(sequence: nat, url: string)
      modifies this
      ensures View() == Expecting(urls, old(View()), sequence, url)
    {
      pending := Some(Expected(sequence, urls.normalized(url)));
      pendingUser := None;
    }

    method BeginUserNavigation(target: string, allowQueryChange: bool, now: nat) returns (sequence: nat)
      modifies this
      ensures (View(), sequence) == UserNavigating(urls, old(View()), target, allowQueryChange, now)
    {
      if pending.Some? {
        return 0;
      }
      var normalized := urls.normalized(target);
      if pendingUser.Some? {
        var p := pendingUser.value;
        if now <= p.started + MARKER_TTL && p.target == normalized && p.allowQueryChange == allowQueryChange {
          return p.sequence;
        }
      }
      sequence := if activeSequence >= MAX_SEQUENCE then MAX_SEQUENCE else activeSequence + 1;
      pendingUser := Some(UserNavigation(sequence, normalized, allowQueryChange, now));
    }

    method RememberSequence(normalized: string, sequence: nat)
      modifies this
      ensures View() == Remembering(old(View()), normalized, sequence)
    {
      if normalized !in sequenceByUrl && |sequenceByUrl| >= MAX_TRACKED_URLS {
        sequenceByUrl := map[];
        if activeUrl.Some? {
          sequenceByUrl := sequenceByUrl[activeUrl.value := activeSequence];
        }
      }
      sequenceByUrl := sequenceByUrl[normalized := sequence];
    }

    method Activate(sequence: nat, normalized: string) returns (active: nat)
      modifies this
      ensures View() == Activating(old(View()), sequence, normalized) && active == sequence
    {
      activeSequence := sequence;
      activeUrl := Some(normalized);
      activeCompleted := false;
      pending := None;
      pendingUser := None;
      RememberSequence(normalized, sequence);
      active := sequence;
    }

    method ObserveNavigation(url: string, now: nat) returns (sequence: nat)
      modifies this
      ensures (View(), sequence) == Observing(urls, old(View()), url, now)
    {
      var normalized := urls.normalized(url);
      if pending.Some? && pending.value.url == normalized {
        sequence := Activate(pending.value.sequence, normalized);
        return;
      }
      var taken := pendingUser;
      pendingUser := None;
      if taken.Some? {
        if IsFresh(taken.value, now) {
          if IsTarget(urls, taken.value, url) {
            sequence := Activate(taken.value.sequence, normalized);
            return;
          }
          pendingUser := taken;
        }
      }
      if normalized in sequenceByUrl {
        return sequenceByUrl[normalized];
      }
      if pending == None && activeSequence != 0 && !activeCompleted {
        RememberSequence(normalized, activeSequence);
        return activeSequence;
      }
      sequence := 0;
    }

    method SequenceForEvent(url: string, started: bool, finished: bool, now: nat) returns (sequence: nat)
      modifies this
      ensures (View(), sequence) == Reporting(urls, old(View()), url, started, finished, now)
    {
      if started {
        sequence := ObserveNavigation(url, now);
      } else {
        var normalized := urls.normalized(url);
        sequence := if normalized in sequenceByUrl then sequenceByUrl[normalized] else 0;
      }
      if finished && sequence != 0 && sequence == activeSequence {
        activeCompleted := true;
      }
    }
  }

  // ---------------------------------------------------------------------
  // The invariant
  // ---------------------------------------------------------------------

  predicate IssuedOrZero(issued: set<nat>, sequence: nat) {
    sequence == 0 || sequence in issued
  }

  /** The table is small and right about the active page, a navigation of the
      renderer excludes one of the user, and every generation was issued. */
  ghost predicate Good(t: Tracker, issued: set<nat>) {
    && |t.known| <= MAX_TRACKED_URLS
    && (t.activeUrl.Some? ==> t.activeUrl.value in t.known && t.known[t.activeUrl.value] == t.activeSequence)
    && (t.activeUrl == None ==> t.activeSequence == 0)
    && (t.pending.Some? ==> t.user == None && t.pending.value.sequence in issued)
    && (t.user.Some? ==> t.user.value.sequence in issued && t.user.value.sequence == NextSequence(t.activeSequence))
    && IssuedOrZero(issued, t.activeSequence)
    && (forall url | url in t.known :: IssuedOrZero(issued, t.known[url]))
  }

  lemma RememberingKeepsGood(t: Tracker, url: string, sequence: nat, issued: set<nat>)
    requires IssuedOrZero(issued, sequence)
    requires |t.known| <= MAX_TRACKED_URLS && IssuedOrZero(issued, t.activeSequence)
    requires forall k | k in t.known :: IssuedOrZero(issued, t.known[k])
    requires t.activeUrl.Some?
    requires t.activeUrl == Some(url) ==> sequence == t.activeSequence
    requires t.activeUrl != Some(url) ==> t.activeUrl.value in t.known && t.known[t.activeUrl.value] == t.activeSequence
    requires t.pending.Some? ==> t.user == None && t.pending.value.sequence in issued
    requires t.user.Some? ==> t.user.value.sequence in issued && t.user.value.sequence == NextSequence(t.activeSequence)
    ensures Good(Remembering(t, url, sequence), issued)
  {
    UpdateSize(t.known, url, sequence);
    UpdateSize(map[t.activeUrl.value := t.activeSequence], url, sequence);
    SingleSize(t.activeUrl.value, t.activeSequence);
  }

  lemma UpdateSize(m: map<string, nat>, url: string, sequence: nat)
    ensures |m[url := sequence]| == if url in m then |m| else |m| + 1
  {
    assert m[url := sequence].Keys == m.Keys + {url};
    assert |m| == |m.Keys| && |m[url := sequence]| == |m[url := sequence].Keys|;
    if url in m {
      assert m.Keys + {url} == m.Keys;
    }
  }

  lemma SingleSize(url: string, sequence: nat)
    ensures |map[url := sequence]| == 1
  {
    UpdateSize(map[], url, sequence);
    assert map[url := sequence] == map[][url := sequence];
  }

  /** Page events keep it, and report only generations that were issued. */
  lemma ReportingKeepsGood(u: Urls, t: Tracker, url: string, started: bool, finished: bool, now: nat, issued: set<nat>)
    requires Good(t, issued)
    ensures Good(Reporting(u, t, url, started, finished, now).0, issued)
    ensures IssuedOrZero(issued, Reporting(u, t, url, started, finished, now).1)
  {
    if started {
      ObservingKeepsGood(u, t, url, now, issued);
    }
  }

  lemma ObservingKeepsGood(u: Urls, t: Tracker, url: string, now: nat, issued: set<nat>)
    requires Good(t, issued)
    ensures Good(Observing(u, t, url, now).0, issued)
    ensures IssuedOrZero(issued, Observing(u, t, url, now).1)
  {
    var normalized := u.normalized(url);
    if t.pending.Some? && t.pending.value.url == normalized {
      ActivatingKeepsGood(t, t.pending.value.sequence, normalized, issued);
    } else if t.user.Some? && IsFresh(t.user.value, now) && IsTarget(u, t.user.value, url) {
      ActivatingKeepsGood(t, t.user.value.sequence, normalized, issued);
    } else if normalized !in t.known && t.pending == None && t.activeSequence != 0 {
      var rest := if t.user.Some? && !IsFresh(t.user.value, now) then t.(user := None) else t;
      RememberingKeepsGood(rest, normalized, t.activeSequence, issued);
    }
  }

  lemma ActivatingKeepsGood(t: Tracker, sequence: nat, url: string, issued: set<nat>)
    requires Good(t, issued) && sequence in issued
    ensures Good(Activating(t, sequence, url), issued)
    ensures Activating(t, sequence, url).known[url] == sequence
  {
    RememberingKeepsGood(t.(activeSequence := sequence, activeUrl := Some(url), activeCompleted := false,
                            pending := None, user := None), url, sequence, issued);
  }

  // ---------------------------------------------------------------------
  // Who may claim a generation
  // ---------------------------------------------------------------------

  /** Finish and title events change no generation: they only mark the active
      page as complete, and report what the table says. */
  lemma PassiveEventsClaimNothing(u: Urls, t: Tracker, url: string, finished: bool, now: nat)
    ensures var (t1, sequence) := Reporting(u, t, url, false, finished, now);
            && t1 == t.(activeCompleted := t1.activeCompleted)
            && sequence == KnownSequence(t, u.normalized(url))
            && (t1.activeCompleted <==>
                  t.activeCompleted || (finished && sequence != 0 && sequence == t.activeSequence))
  {
  }

  /** While a navigation of the renderer is pending, the old page can neither
      start one of its own nor claim the pending generation: nothing at all
      changes until the expected URL starts, which claims it. */
  lemma PendingIsClaimedOnlyByItsUrl(u: Urls, t: Tracker, url: string, allow: bool, now: nat, issued: set<nat>)
    requires Good(t, issued) && t.pending.Some?
    ensures UserNavigating(u, t, url, allow, now) == (t, 0)
    ensures u.normalized(url) != t.pending.value.url ==>
      Observing(u, t, url, now) == (t, KnownSequence(t, u.normalized(url)))
    ensures u.normalized(url) == t.pending.value.url ==>
      var (t1, sequence) := Observing(u, t, url, now);
      && sequence == t.pending.value.sequence == t1.activeSequence
      && t1.pending == None && t1.activeUrl == Some(u.normalized(url)) && !t1.activeCompleted
  {
  }

  /** A navigation of the user is refused exactly while one of the renderer is
      pending. Otherwise it has a generation other than the active one, which
      is the next higher, until the numbers run out; the marker for it is the
      earlier one exactly if that asked for the same less than two seconds ago. */
  lemma UserGenerationIsOther(u: Urls, t: Tracker, target: string, allow: bool, now: nat, issued: set<nat>)
    requires Good(t, issued) && t.activeSequence <= 0xFFFF_FFFF_FFFF_FFFF
    ensures var (t1, sequence) := UserNavigating(u, t, target, allow, now);
            && (sequence == 0 <==> t.pending.Some?)
            && (sequence != 0 ==>
                  && (sequence != t.activeSequence <==> t.activeSequence != 0xFFFF_FFFF_FFFF_FFFF)
                  && (sequence == t.activeSequence + 1 || t.activeSequence >= 0xFFFF_FFFF_FFFF_FFFF)
                  && t1.user.Some? && t1.user.value.sequence == sequence
                  && t1.user.value.target == u.normalized(target) && t1.user.value.allowQueryChange == allow
                  && (t1 == t <==> (t.user.Some? && t.user.value.target == u.normalized(target)
                                    && t.user.value.allowQueryChange == allow && now <= t.user.value.started + 2000)
                                   || t.user == Some(UserNavigation(sequence, u.normalized(target), allow, now)))
                  && (t1 != t ==> t1.user.value.started == now && t1 == t.(user := t1.user)))
  {
  }

  /** It becomes the active one exactly by a start of its target, or of the
      same route with another query if that is allowed, within two seconds. */
  lemma UserIsClaimedExactlyBy(u: Urls, t: Tracker, url: string, now: nat, issued: set<nat>)
    requires Good(t, issued) && t.user.Some?
    ensures var n := t.user.value;
            var (t1, sequence) := Observing(u, t, url, now);
            if now <= n.started + 2000
               && (n.target == u.normalized(url)
                   || (n.allowQueryChange && u.route(n.target).Some? && u.route(n.target) == u.route(url)))
            then
              && sequence == n.sequence == t1.activeSequence && t1.activeUrl == Some(u.normalized(url))
              && t1.user == None && t1.pending == None && !t1.activeCompleted
              && KnownSequence(t1, u.normalized(url)) == n.sequence
            else
              && t1.activeSequence == t.activeSequence && t1.activeUrl == t.activeUrl
              && t1.user == (if now <= n.started + 2000 then t.user else None)
              && (sequence == KnownSequence(t, u.normalized(url)) || sequence == t.activeSequence)
  {
    if IsFresh(t.user.value, now) && IsTarget(u, t.user.value, url) {
      ActivatingKeepsGood(t, t.user.value.sequence, u.normalized(url), issued);
    }
  }

  /** Without a marker, a page that starts is known, or continues the page that
      is loading, or is nobody's. */
  lemma UnaskedStarts(u: Urls, t: Tracker, url: string, now: nat)
    requires t.pending == None && t.user == None
    ensures var (t1, sequence) := Observing(u, t, url, now);
            && t1 == t.(known := t1.known)
            && (u.normalized(url) in t.known ==> t1 == t && sequence == t.known[u.normalized(url)])
            && (u.normalized(url) !in t.known && (t.activeSequence == 0 || t.activeCompleted) ==>
                  t1 == t && sequence == 0)
  {
  }

  /** A URL is forgotten only when a new one comes into a full table, and then
      only the active one is kept. */
  lemma ForgetsOnlyWhenFull(t: Tracker, url: string, sequence: nat)
    ensures var t1 := Remembering(t, url, sequence);
            && t1 == t.(known := t1.known) && t1.known.Keys >= {url} && t1.known[url] == sequence
            && (url in t.known || |t.known| < 64 ==>
                  forall other | other != url :: KnownSequence(t1, other) == KnownSequence(t, other))
            && (url !in t.known && |t.known| >= 64 ==>
                  forall other | other in t1.known && other != url ::
                    t.activeUrl == Some(other) && t1.known[other] == t.activeSequence)
  {
  }

  /** A redirect of the page that is loading stays in its generation. */
  lemma RedirectsStay(u: Urls, t: Tracker, url: string, now: nat, issued: set<nat>)
    requires Good(t, issued) && t.pending == None && t.user == None
    requires t.activeSequence != 0 && !t.activeCompleted && u.normalized(url) !in t.known
    ensures var (t1, sequence) := Observing(u, t, url, now);
            && sequence == t.activeSequence == t1.activeSequence && t1.activeUrl == t.activeUrl
            && KnownSequence(t1, u.normalized(url)) == sequence
            && KnownSequence(t1, t.activeUrl.value) == sequence
  {
    ObservingKeepsGood(u, t, url, now, issued);
  }

  // ---------------------------------------------------------------------
  // Runs
  // ---------------------------------------------------------------------

  datatype Event =
    | Expect(sequence: nat, url: string)
    | BeginUser(target: string, allowQueryChange: bool, now: nat)
    | Page(url: string, started: bool, finished: bool, now: nat)

  function After(u: Urls, t: Tracker, e: Event): (Tracker, nat) {
    match e
    case Expect(sequence, url) => (Expecting(u, t, sequence, url), 0)
    case BeginUser(target, allow, now) => UserNavigating(u, t, target, allow, now)
    case Page(url, started, finished, now) => Reporting(u, t, url, started, finished, now)
  }

  function RunOf(u: Urls, events: seq<Event>): Tracker {
    if events == [] then NEW_TRACKER else After(u, RunOf(u, events[..|events| - 1]), events[|events| - 1]).0
  }

  /** The generations that the two issuing operations have given out. */
  function Issued(u: Urls, events: seq<Event>): set<nat> {
    if events == [] then {}
    else
      var before := events[..|events| - 1];
      var e := events[|events| - 1];
      Issued(u, before)
      + match e
        case Expect(sequence, _) => {sequence}
        case BeginUser(_, _, _) => {After(u, RunOf(u, before), e).1}
        case Page(_, _, _, _) => {}
  }

  /** In every run the table holds at most 64 URLs and maps the active URL to
      the active generation, and every page event reports zero or a generation
      that was issued before it. */
  lemma {:induction false} EveryRunIsGood(u: Urls, events: seq<Event>)
    ensures Good(RunOf(u, events), Issued(u, events))
    ensures forall k | 0 <= k < |events| && events[k].Page? ::
      IssuedOrZero(Issued(u, events[..k]), After(u, RunOf(u, events[..k]), events[k]).1)
  {
    if events != [] {
      var n := |events| - 1;
      var before := events[..n];
      EveryRunIsGood(u, before);
      StepIsGood(u, before, events[n]);
      assert before + [events[n]] == events;
      hide After, Good;
      forall k | 0 <= k < |events| && events[k].Page?
        ensures IssuedOrZero(Issued(u, events[..k]), After(u, RunOf(u, events[..k]), events[k]).1)
      {
        assert k < n ==> before[..k] == events[..k];
      }
    }
  }

  lemma StepIsGood(u: Urls, before: seq<Event>, e: Event)
    requires Good(RunOf(u, before), Issued(u, before))
    ensures Good(RunOf(u, before + [e]), Issued(u, before + [e]))
    ensures e.Page? ==> IssuedOrZero(Issued(u, before), After(u, RunOf(u, before), e).1)
  {
    var events := before + [e];
    assert events[..|events| - 1] == before && events[|events| - 1] == e;
    var t := RunOf(u, before);
    if e.Page? {
      ReportingKeepsGood(u, t, e.url, e.started, e.finished, e.now, Issued(u, before));
    }
  }

  // ---------------------------------------------------------------------
  // New generations
  // ---------------------------------------------------------------------

  /** The renderer expects each navigation under a generation above the active
      one, and no number is above the last. */
  ghost predicate Ascending(u: Urls, events: seq<Event>) {
    forall k | 0 <= k < |events| && events[k].Expect? ::
      RunOf(u, events[..k]).activeSequence < events[k].sequence <= MAX_SEQUENCE
  }

  /** The active generation is the highest in the table, and what is pending is
      above it. */
  ghost predicate Ahead(t: Tracker) {
    && t.activeSequence <= MAX_SEQUENCE
    && (t.pending.Some? ==> t.activeSequence < t.pending.value.sequence <= MAX_SEQUENCE)
    && (t.user.Some? ==> t.user.value.sequence == NextSequence(t.activeSequence))
    && (forall url | url in t.known :: t.known[url] <= t.activeSequence)
  }

  lemma StepStaysAhead(u: Urls, t: Tracker, e: Event)
    requires Ahead(t) && (e.Expect? ==> t.activeSequence < e.sequence <= MAX_SEQUENCE)
    ensures Ahead(After(u, t, e).0) && After(u, t, e).0.activeSequence >= t.activeSequence
    ensures e.Page? ==> After(u, t, e).1 <= After(u, t, e).0.activeSequence
  {
    if e.Page? && e.started {
      ObservingStaysAhead(u, t, e.url, e.now);
    }
  }

  lemma ObservingStaysAhead(u: Urls, t: Tracker, url: string, now: nat)
    requires Ahead(t)
    ensures var (t1, sequence) := Observing(u, t, url, now);
            Ahead(t1) && sequence <= t1.activeSequence && t.activeSequence <= t1.activeSequence
  {
    hide IsTarget, IsFresh;
    var normalized := u.normalized(url);
    if t.pending.Some? && t.pending.value.url == normalized {
      ActivatingStaysAhead(t, t.pending.value.sequence, normalized);
    } else if t.user.Some? && IsFresh(t.user.value, now) && IsTarget(u, t.user.value, url) {
      ActivatingStaysAhead(t, t.user.value.sequence, normalized);
    }
  }

  lemma ActivatingStaysAhead(t: Tracker, sequence: nat, url: string)
    requires Ahead(t) && t.activeSequence <= sequence <= MAX_SEQUENCE
    ensures Ahead(Activating(t, sequence, url)) && Activating(t, sequence, url).activeSequence == sequence
  {
  }

  ghost predicate NoneReportedAbove(u: Urls, events: seq<Event>, limit: nat) {
    forall k | 0 <= k < |events| && events[k].Page? :: After(u, RunOf(u, events[..k]), events[k]).1 <= limit
  }

  lemma NoneReportedMore(u: Urls, before: seq<Event>, e: Event, limit: nat, higher: nat)
    requires NoneReportedAbove(u, before, limit) && limit <= higher
    requires e.Page? ==> After(u, RunOf(u, before), e).1 <= higher
    ensures NoneReportedAbove(u, before + [e], higher)
  {
    hide After, RunOf;
    var events := before + [e];
    forall k | 0 <= k < |events| && events[k].Page?
      ensures After(u, RunOf(u, events[..k]), events[k]).1 <= higher
    {
      assert events[..k] == before[..k];
      assert k == |before| ==> before[..k] == before;
    }
  }

  lemma {:induction false} RunsStayAhead(u: Urls, events: seq<Event>)
    requires Ascending(u, events)
    ensures Ahead(RunOf(u, events)) && NoneReportedAbove(u, events, RunOf(u, events).activeSequence)
    decreases |events|
  {
    if events != [] {
      var n := |events| - 1;
      var before := events[..n];
      assert before + [events[n]] == events;
      AscendingSoFar(u, events);
      RunsStayAhead(u, before);
      hide After, Ahead, Ascending, NoneReportedAbove;
      StepStaysAhead(u, RunOf(u, before), events[n]);
      NoneReportedMore(u, before, events[n], RunOf(u, before).activeSequence, RunOf(u, events).activeSequence);
    }
  }

  lemma AscendingSoFar(u: Urls, events: seq<Event>)
    requires Ascending(u, events) && events != []
    ensures var n := |events| - 1;
            && Ascending(u, events[..n])
            && (events[n].Expect? ==> RunOf(u, events[..n]).activeSequence < events[n].sequence <= MAX_SEQUENCE)
  {
    hide RunOf;
    var n := |events| - 1;
    assert forall k | 0 <= k < n :: events[..n][..k] == events[..k] && events[..n][k] == events[k];
  }

  /** In every such run, a generation for a navigation of the user is above all
      that any page event has reported before, until the numbers run out. */
  lemma UserGenerationIsNew(u: Urls, events: seq<Event>, target: string, allow: bool, now: nat)
    requires Ascending(u, events) && RunOf(u, events).activeSequence < MAX_SEQUENCE
    ensures var sequence := UserNavigating(u, RunOf(u, events), target, allow, now).1;
            sequence != 0 ==>
              forall k | 0 <= k < |events| && events[k].Page? ::
                After(u, RunOf(u, events[..k]), events[k]).1 < sequence
  {
    RunsStayAhead(u, events);
    hide After, RunOf;
  }
}
