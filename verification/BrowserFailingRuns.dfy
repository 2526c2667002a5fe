/** Concrete runs of the machine that end with a webview that is not as the newest
  intent asks, one for each way in which convergence can fail. */
module BrowserFailingRuns {
  import opened Wrappers
  import opened BrowserLabels
  import opened BrowserIntents
  import opened BrowserPasses
  import opened BrowserRequests
  import opened BrowserConvergence
  import Flags = BrowserWakeup

  const SOME_RECT: Rect := Rect(0.0, 0.0, 800.0, 600.0)
  const EMPTY: World := World(Flags.IDLE, Site(NO_INTENTS, map[]), {}, 0, None, true, true)

  // ---------------------------------------------------------------------
  // Runs on which nothing is lost
  // ---------------------------------------------------------------------

  ghost predicate NothingLost(order: KeyOrder, name: string, worlds: seq<World>, acts: seq<Act>) {
    |worlds| == |acts| + 1 && forall k | 0 <= k < |acts| :: !Loses(order, name, worlds[k], acts[k])
  }

  /** Reached from the start with nothing stolen and nothing missed. */
  ghost predicate Reaches(order: KeyOrder, name: string, w: World) {
    exists worlds, acts ::
      IsHistory(order, name, worlds, acts) && NothingLost(order, name, worlds, acts) && worlds[|acts|] == w
  }

  lemma ReachesEmpty(order: KeyOrder, name: string)
    ensures Reaches(order, name, EMPTY)
  {
    assert IsHistory(order, name, [EMPTY], []) && NothingLost(order, name, [EMPTY], []);
  }

  lemma Then(order: KeyOrder, name: string, w: World, a: Act)
    requires Reaches(order, name, w) && CanAct(name, w, a) && !Loses(order, name, w, a)
    ensures Reaches(order, name, Next(order, name, w, a))
  {
    var worlds, acts :|
      IsHistory(order, name, worlds, acts) && NothingLost(order, name, worlds, acts) && worlds[|acts|] == w;
    var more, longer := worlds + [Next(order, name, w, a)], acts + [a];
    hide CanAct, Next, Loses;
    assert IsHistory(order, name, more, longer) && NothingLost(order, name, more, longer);
  }

  /** A step of the flags alone. */
  lemma Wakes(order: KeyOrder, name: string, w: World, e: Flags.Event, flags: Flags.Wakeup)
    requires Reaches(order, name, w) && Flags.Enabled(w.flags, e) && flags == Flags.After(w.flags, e)
    requires !e.SetDirty? && !e.Start? && (e.End? ==> w.pass == None && e.timedOut == None) && !Flags.Steals(w.flags, e)
    ensures Reaches(order, name, w.(flags := flags))
  {
    hide Reaches;
    Then(order, name, w, Wake(e));
  }

  /** A scheduler spawns a worker, which starts a pass. */
  lemma WorkerStarts(order: KeyOrder, name: string, w: World, v: nat)
    requires Reaches(order, name, w) && w.unscheduled > 0 && w.pass == None
    requires v !in w.flags.workers && w.flags.entering == 0 && !w.flags.running && w.flags.counters == map[]
    ensures Reaches(order, name,
      w.(flags := Flags.Wakeup(false, true, 0, w.flags.workers[v := Flags.EndReconcile],
                               w.flags.requests + 1, w.flags.requests + 1),
         unscheduled := w.unscheduled - 1, pass := Some(Pass(0, Looking)), untouched := true))
  {
    var requests := w.flags.requests + 1;
    var workers: map<nat, Flags.Next> := w.flags.workers;
    hide Reaches;
    var w1 := w.(flags := Flags.Wakeup(true, false, 1, workers, requests, w.flags.seen),
                 unscheduled := w.unscheduled - 1);
    Then(order, name, w, Schedule);
    var w2 := w1.(flags := Flags.Wakeup(true, true, 0, workers[v := Flags.ClearDirty], requests, w.flags.seen));
    Then(order, name, w1, Wake(Flags.Enter(v)));
    assert w2.flags.workers[v := Flags.StartReconcile] == workers[v := Flags.StartReconcile];
    var w3 := w2.(flags := Flags.Wakeup(false, true, 0, workers[v := Flags.StartReconcile], requests, w.flags.seen));
    Then(order, name, w2, Wake(Flags.Clear(v)));
    assert w3.flags.workers[v := Flags.EndReconcile] == workers[v := Flags.EndReconcile];
    Then(order, name, w3, Wake(Flags.Start(v)));
  }

  /** A worker whose pass has returned leaves. */
  lemma WorkerLeaves(order: KeyOrder, name: string, w: World, v: nat)
    requires Reaches(order, name, w) && w.pass == None && !w.flags.dirty
    requires w.flags.workers == map[v := Flags.EndReconcile] && w.flags.counters == map[]
    ensures Reaches(order, name, w.(flags := w.flags.(running := false, workers := map[])))
  {
    hide Reaches;
    assert map[v := Flags.EndReconcile][v := Flags.ClearRunning] == map[v := Flags.ClearRunning];
    var w1 := w.(flags := w.flags.(workers := map[v := Flags.ClearRunning]));
    Then(order, name, w, Wake(Flags.End(v, None)));
    assert map[v := Flags.ClearRunning] - {v} == map[];
    Then(order, name, w1, Wake(Flags.Retire(v)));
  }

  // ---------------------------------------------------------------------
  // Steps of a pass
  // ---------------------------------------------------------------------

  lemma Works(order: KeyOrder, name: string, w: World, site: Site, pass: Pass)
    requires Reaches(order, name, w) && w.pass.Some?
    requires Step(order, name, w.site, w.pass.value) == (site, Going(pass))
    ensures Reaches(order, name, w.(site := site, pass := Some(pass)))
  {
    hide Reaches, Step;
    Then(order, name, w, Work);
  }

  /** A visible label with a navigation, and no barriers. */
  ghost predicate Plain(i: Intents, name: string, e: Effective) {
    && i.barriers == map[] && name in i.labels && e == Combine(i.labels[name], None)
    && e.visibility == Visible && e.navigation.Some? && e.bounds.Some?
  }

  lemma PlainLook(order: KeyOrder, i: Intents, name: string, e: Effective)
    requires Plain(i, name, e)
    ensures Look(order, i, name) == e
  {
    NewestOfIsLatest(order, i, name);
    hide NewestOf;
  }

  /** The first half of a pass that finds no webview. */
  lemma PassCreates(order: KeyOrder, name: string, w: World, e: Effective)
    requires Reaches(order, name, w) && w.pass == Some(Pass(0, Looking)) && Plain(w.site.intents, name, e)
    requires name !in w.site.webviews
    ensures Reaches(order, name,
      w.(site := Site(NavigationMarkedIn(w.site.intents, name, e), SentTo(w.site.webviews, name, Url(e))),
         pass := Some(Pass(0, LookingAgain(e)))))
  {
    PlainLook(order, w.site.intents, name, e);
    hide Reaches, Look, NavigationMarkedIn, SentTo, Combine;
    Works(order, name, w, w.site, Pass(0, Checking(e)));
    Works(order, name, w.(pass := Some(Pass(0, Checking(e)))), w.site, Pass(0, Ensuring(e)));
    var loaded := w.site.(webviews := SentTo(w.site.webviews, name, Url(e)));
    Works(order, name, w.(pass := Some(Pass(0, Ensuring(e)))), loaded, Pass(0, Marking(e)));
    var marked := loaded.(intents := NavigationMarkedIn(w.site.intents, name, e));
    Works(order, name, w.(site := loaded, pass := Some(Pass(0, Marking(e)))), marked, Pass(0, LookingAgain(e)));
  }

  /** The first half of a pass that finds a webview and the mark of the
      navigation's sequence. */
  lemma PassTrustsMark(order: KeyOrder, name: string, w: World, e: Effective)
    requires Reaches(order, name, w) && w.pass == Some(Pass(0, Looking)) && Plain(w.site.intents, name, e)
    requires name in w.site.webviews && e.appliedNavigation == Some(e.navigation.value.sequence)
    ensures Reaches(order, name, w.(pass := Some(Pass(0, LookingAgain(e)))))
  {
    PlainLook(order, w.site.intents, name, e);
    hide Reaches, Look, Combine;
    Works(order, name, w, w.site, Pass(0, Checking(e)));
    Works(order, name, w.(pass := Some(Pass(0, Checking(e)))), w.site, Pass(0, Ensuring(e)));
    Works(order, name, w.(pass := Some(Pass(0, Ensuring(e)))), w.site, Pass(0, LookingAgain(e)));
  }

  /** The second half: the webview is shown, and reloaded if that is asked. */
  lemma PassShows(order: KeyOrder, name: string, w: World, e: Effective, now: Effective)
    requires Reaches(order, name, w) && w.pass == Some(Pass(0, LookingAgain(e)))
    requires Plain(w.site.intents, name, now) && now.revision == e.revision
    ensures Reaches(order, name,
      w.(site := Site(if Reloads(e) then ReloadMarkedIn(w.site.intents, name, e) else w.site.intents,
                      Placed(w.site.webviews, name, e)),
         pass := Some(Pass(0, LastLook(e)))))
  {
    PlainLook(order, w.site.intents, name, now);
    hide Reaches, Look, Combine, Placed, ReloadMarkedIn;
    Works(order, name, w, w.site, Pass(0, Placing(e)));
    var shown := w.site.(webviews := Placed(w.site.webviews, name, e));
    if Reloads(e) {
      Works(order, name, w.(pass := Some(Pass(0, Placing(e)))), shown, Pass(0, Reloading(e)));
      PassReloads(order, name, w.(site := shown, pass := Some(Pass(0, Reloading(e)))), e);
    } else {
      Works(order, name, w.(pass := Some(Pass(0, Placing(e)))), shown, Pass(0, LastLook(e)));
    }
  }

  predicate Reloads(e: Effective) {
    e.reload.Some? && e.appliedReload != e.reload
  }

  lemma PassReloads(order: KeyOrder, name: string, w: World, e: Effective)
    requires Reaches(order, name, w) && w.pass == Some(Pass(0, Reloading(e)))
    ensures Reaches(order, name,
      w.(site := w.site.(intents := ReloadMarkedIn(w.site.intents, name, e)), pass := Some(Pass(0, LastLook(e)))))
  {
    hide Reaches, ReloadMarkedIn;
    Works(order, name, w, w.site, Pass(0, MarkingReload(e)));
    Works(order, name, w.(pass := Some(Pass(0, MarkingReload(e)))),
          w.site.(intents := ReloadMarkedIn(w.site.intents, name, e)), Pass(0, LastLook(e)));
  }

  /** The last look finds the revision of the snapshot. */
  lemma PassSucceeds(order: KeyOrder, name: string, w: World, e: Effective)
    requires Reaches(order, name, w) && w.pass == Some(Pass(0, LastLook(e)))
    requires name in w.site.intents.labels && Look(order, w.site.intents, name).revision == e.revision
    ensures Reaches(order, name, w.(pass := None, succeeded := true))
  {
    hide Reaches, Look;
    Then(order, name, w, Work);
  }

  // ---------------------------------------------------------------------
  // A tab is opened and shown
  // ---------------------------------------------------------------------

  function Opens(name: string, sequence: nat, url: string): Command {
    NavigateTo(name, sequence, url, None, SOME_RECT)
  }

  function OpenedLabel(url: string): LabelIntent {
    Navigated(DEFAULT_INTENT, 1, url, None, SOME_RECT)
  }

  function ShownAs(name: string, url: string): map<string, Webview> {
    map[name := Webview(url, Some(SOME_RECT))]
  }

  /** At rest, with the tab shown at its URL and marked. */
  function TabShown(name: string, url: string, tickets: set<Ticket>): World {
    World(Flags.Wakeup(false, false, 0, map[], 1, 1),
          Site(Intents(map[name := OpenedLabel(url).(appliedNavigation := Some(1))], map[]), ShownAs(name, url)),
          tickets, 0, None, true, true)
  }

  lemma OpeningIsRecorded(order: KeyOrder, name: string, url: string, tickets: set<Ticket>)
    requires Reaches(order, name, EMPTY.(tickets := tickets))
    ensures exists untouched ::
      Reaches(order, name,
              World(Flags.IDLE, Site(Intents(map[name := OpenedLabel(url)], map[]), map[]), tickets, 1, None, true,
                    untouched))
  {
    var w, c := EMPTY.(tickets := tickets), Opens(name, 1, url);
    LabelCommandsMissNothing(order, NO_INTENTS, c, name);
    assert Apply(NO_INTENTS, c) == Intents(map[name := OpenedLabel(url)], map[]);
    hide Reaches, Misses, WantedIn, OpenedLabel;
    Then(order, name, w, Record(c));
    var t := Next(order, name, w, Record(c));
    assert t == World(Flags.IDLE, Site(Intents(map[name := OpenedLabel(url)], map[]), map[]), tickets, 1, None, true,
                      t.untouched);
  }

  /** The same with the worker still there. */
  function TabPlaced(name: string, url: string, tickets: set<Ticket>): World {
    TabShown(name, url, tickets).(flags := Flags.Wakeup(false, true, 0, map[0 := Flags.EndReconcile], 1, 1))
  }

  lemma TabIsPlaced(order: KeyOrder, name: string, url: string, tickets: set<Ticket>)
    requires Reaches(order, name, EMPTY.(tickets := tickets))
    ensures Reaches(order, name, TabPlaced(name, url, tickets))
  {
    OpeningIsRecorded(order, name, url, tickets);
    var i := Intents(map[name := OpenedLabel(url)], map[]);
    var untouched :| Reaches(order, name, World(Flags.IDLE, Site(i, map[]), tickets, 1, None, true, untouched));
    var e := Combine(OpenedLabel(url), None);
    var started := World(Flags.Wakeup(false, true, 0, map[0 := Flags.EndReconcile], 1, 1), Site(i, map[]), tickets, 0,
                         Some(Pass(0, Looking)), true, true);
    var marked := i.(labels := map[name := OpenedLabel(url).(appliedNavigation := Some(1))]);
    assert NavigationMarkedIn(i, name, e) == marked;
    assert SentTo(map[], name, url) == map[name := Webview(url, None)];
    assert Placed(map[name := Webview(url, None)], name, e) == ShownAs(name, url);
    PlainLook(order, marked, name, e.(appliedNavigation := Some(1)));
    hide Reaches, Look, NavigationMarkedIn, SentTo, Placed;
    WorkerStarts(order, name, World(Flags.IDLE, Site(i, map[]), tickets, 1, None, true, untouched), 0);
    PassCreates(order, name, started, e);
    var loaded := started.(site := Site(marked, map[name := Webview(url, None)]),
                           pass := Some(Pass(0, LookingAgain(e))));
    PassShows(order, name, loaded, e, e.(appliedNavigation := Some(1)));
    var last := loaded.(site := Site(marked, ShownAs(name, url)), pass := Some(Pass(0, LastLook(e))));
    PassSucceeds(order, name, last, e);
  }

  lemma TabIsShown(order: KeyOrder, name: string, url: string, tickets: set<Ticket>)
    requires Reaches(order, name, EMPTY.(tickets := tickets))
    ensures Reaches(order, name, TabShown(name, url, tickets))
  {
    TabIsPlaced(order, name, url, tickets);
    hide Reaches;
    WorkerLeaves(order, name, TabPlaced(name, url, tickets), 0);
  }

  // ---------------------------------------------------------------------
  // A command that misses the label
  // ---------------------------------------------------------------------

  /** Hides a pane, told of these labels. */
  function HidesPane(prefix: string, except: Option<string>, sequence: nat, existing: seq<string>): Command {
    Scope(prefix, sequence, Hide, except, existing)
  }

  lemma HiddenIsMissed(order: KeyOrder, name: string, prefix: string, url: string)
    requires StartsWith(name, prefix)
    ensures var i, c := TabShown(name, url, {}).site.intents, HidesPane(prefix, None, 2, []);
            Misses(order, i, c, name) && !AsAsked(order, Apply(i, c), name, ShownAs(name, url))
  {
    var i, c := TabShown(name, url, {}).site.intents, HidesPane(prefix, None, 2, []);
    PlainLook(order, i, name, Combine(i.labels[name], None));
    NewBarrierDecides(order, i, c, name);
    UncollectedKeepsIntent(order, i, c, name);
    hide Look;
  }

  /** A pane is being hidden: its labels are collected while it has none. Then a
      tab opens in it and is shown. Once the hide is recorded all is at rest, the
      newest pass succeeded, and the webview that should be hidden is shown. */
  lemma AScopeCommandCanMiss(order: KeyOrder, name: string, prefix: string, url: string)
    requires StartsWith(name, prefix)
    ensures var w, a := TabShown(name, url, {Ticket(prefix, None, [])}), Record(HidesPane(prefix, None, 2, []));
            && Reaches(order, name, w) && CanAct(name, w, a) && !Confuses(name, w, a)
            && var t := Next(order, name, w, a);
               AtRest(t) && t.succeeded && !AsAsked(order, t.site.intents, name, t.site.webviews)
  {
    ReachesEmpty(order, name);
    HiddenIsMissed(order, name, prefix, url);
    var ticket := Ticket(prefix, None, []);
    hide Reaches, Misses, Apply, WantedIn, AsAsked;
    Then(order, name, EMPTY, Collect(ticket));
    assert EMPTY.tickets + {ticket} == {ticket};
    TabIsShown(order, name, url, {ticket});
  }

  // ---------------------------------------------------------------------
  // A sequence that is used for two URLs
  // ---------------------------------------------------------------------

  /** The tab is sent to another URL under the sequence of the first one. */
  function Resent(name: string, url: string, other: string): Intents {
    Intents(map[name := Navigated(OpenedLabel(url).(appliedNavigation := Some(1)), 1, other, None, SOME_RECT)], map[])
  }

  lemma ResendingIsRecorded(order: KeyOrder, name: string, url: string, other: string)
    requires url != other
    ensures var w, c := TabShown(name, url, {}), Opens(name, 1, other);
            && Apply(w.site.intents, c) == Resent(name, url, other) && Schedules(w.site.intents, c, name)
            && !Misses(order, w.site.intents, c, name) && Confuses(name, w, Record(c))
  {
    var w, c := TabShown(name, url, {}), Opens(name, 1, other);
    LabelCommandsMissNothing(order, w.site.intents, c, name);
    assert Apply(w.site.intents, c).labels == Resent(name, url, other).labels;
    hide Misses;
  }

  /** A second navigation of a shown tab, to another URL but under the same
      sequence, is recorded and scheduled. Its pass finds the mark of that
      sequence, does not navigate, and succeeds: all is at rest, nothing was lost,
      and the webview is still at the first URL. */
  lemma AReusedSequenceIsNotLoaded(order: KeyOrder, name: string, url: string, other: string)
    requires url != other
    ensures var w := World(Flags.Wakeup(false, false, 0, map[], 2, 2),
                           Site(Resent(name, url, other), ShownAs(name, url)), {}, 0, None, true, true);
            && Reaches(order, name, w) && AtRest(w)
            && w.succeeded && !AsAsked(order, w.site.intents, name, w.site.webviews)
  {
    var shown, i := TabShown(name, url, {}), Resent(name, url, other);
    var e := Combine(i.labels[name], None);
    ReachesEmpty(order, name);
    ResendingIsRecorded(order, name, url, other);
    PlainLook(order, i, name, e);
    assert Placed(ShownAs(name, url), name, e) == ShownAs(name, url);
    hide Reaches, Look, Apply, Misses, WantedIn, Schedules, Placed;
    assert EMPTY.(tickets := {}) == EMPTY;
    TabIsShown(order, name, url, {});
    Then(order, name, shown, Record(Opens(name, 1, other)));
    var recorded := Next(order, name, shown, Record(Opens(name, 1, other)));
    WorkerStarts(order, name, recorded, 1);
    var started := World(Flags.Wakeup(false, true, 0, map[1 := Flags.EndReconcile], 2, 2), Site(i, ShownAs(name, url)),
                         {}, 0, Some(Pass(0, Looking)), true, true);
    PassTrustsMark(order, name, started, e);
    PassShows(order, name, started.(pass := Some(Pass(0, LookingAgain(e)))), e, e);
    PassSucceeds(order, name, started.(pass := Some(Pass(0, LastLook(e)))), e);
    WorkerLeaves(order, name, started.(pass := None), 1);
  }

  // ---------------------------------------------------------------------
  // A request that is stolen
  // ---------------------------------------------------------------------

  /** The tab's label after a move and then a hide. */
  function MovedLabel(url: string): LabelIntent {
    Bounded(OpenedLabel(url).(appliedNavigation := Some(1)), 2, SOME_RECT)
  }

  function MovedAndHidden(url: string): LabelIntent {
    BrowserIntents.Shown(MovedLabel(url), 3, Hidden)
  }

  function WithLabel(name: string, l: LabelIntent): Intents {
    Intents(map[name := l], map[])
  }

  lemma MoveAndHideAreRecorded(order: KeyOrder, name: string, url: string)
    ensures var i, c := WithLabel(name, OpenedLabel(url).(appliedNavigation := Some(1))), SetBounds(name, 2, SOME_RECT);
            Apply(i, c) == WithLabel(name, MovedLabel(url)) && Schedules(i, c, name) && !Misses(order, i, c, name)
    ensures var i, c := WithLabel(name, MovedLabel(url)), HideLabel(name, 3);
            && Apply(i, c) == WithLabel(name, MovedAndHidden(url)) && Schedules(i, c, name)
            && !Misses(order, i, c, name)
            && WantedIn(order, Apply(i, c), name) != WantedIn(order, i, name)
  {
    var i, c := WithLabel(name, OpenedLabel(url).(appliedNavigation := Some(1))), SetBounds(name, 2, SOME_RECT);
    LabelCommandsMissNothing(order, i, c, name);
    assert Apply(i, c).labels == WithLabel(name, MovedLabel(url)).labels;
    var j, d := WithLabel(name, MovedLabel(url)), HideLabel(name, 3);
    LabelCommandsMissNothing(order, j, d, name);
    assert Apply(j, d).labels == WithLabel(name, MovedAndHidden(url)).labels;
    LabelCommandAsks(order, j, d, name);
    PlainLook(order, j, name, Combine(MovedLabel(url), None));
    hide Misses, Look;
  }

  /** A first worker stalls after it cleared the running flag. */
  lemma FirstWorkerStalls(order: KeyOrder, name: string, url: string)
    ensures Reaches(order, name,
      TabPlaced(name, url, {}).(flags := Flags.Wakeup(false, false, 0, map[0 := Flags.SwapDirty], 1, 1)))
  {
    ReachesEmpty(order, name);
    assert EMPTY.(tickets := {}) == EMPTY;
    hide Reaches;
    TabIsPlaced(order, name, url, {});
    var w, cleared := TabPlaced(name, url, {}), Flags.Wakeup(false, true, 0, map[0 := Flags.ClearRunning], 1, 1);
    assert w.flags.workers[0 := Flags.ClearRunning] == cleared.workers;
    Wakes(order, name, w, Flags.End(0, None), cleared);
    assert cleared.workers[0 := Flags.SwapDirty] == map[0 := Flags.SwapDirty];
    Wakes(order, name, w.(flags := cleared), Flags.Release(0),
          Flags.Wakeup(false, false, 0, map[0 := Flags.SwapDirty], 1, 1));
  }

  /** A move gets a second worker, whose pass starts. */
  lemma SecondWorkerStarts(order: KeyOrder, name: string, url: string)
    ensures Reaches(order, name,
      World(Flags.Wakeup(false, true, 0, map[0 := Flags.SwapDirty, 1 := Flags.EndReconcile], 2, 2),
            Site(WithLabel(name, MovedLabel(url)), ShownAs(name, url)), {}, 0, Some(Pass(0, Looking)), true, true))
  {
    FirstWorkerStalls(order, name, url);
    MoveAndHideAreRecorded(order, name, url);
    hide Reaches, Apply, Schedules, Misses, WantedIn, MovedLabel, OpenedLabel;
    var w, c := TabPlaced(name, url, {}).(flags := Flags.Wakeup(false, false, 0, map[0 := Flags.SwapDirty], 1, 1)),
                SetBounds(name, 2, SOME_RECT);
    Then(order, name, w, Record(c));
    WorkerStarts(order, name, Next(order, name, w, Record(c)), 1);
    assert map[0 := Flags.SwapDirty][1 := Flags.EndReconcile] == map[0 := Flags.SwapDirty, 1 := Flags.EndReconcile];
  }

  /** That pass has returned, and the hide relies on its worker. */
  function BeforeSteal(name: string, url: string): World {
    World(Flags.Wakeup(true, true, 0, map[0 := Flags.SwapDirty, 1 := Flags.EndReconcile], 3, 2),
          Site(WithLabel(name, MovedAndHidden(url)), ShownAs(name, url)), {}, 0, None, true, false)
  }

  function AfterMove(name: string, url: string): World {
    BeforeSteal(name, url).(
      flags := Flags.Wakeup(false, true, 0, map[0 := Flags.SwapDirty, 1 := Flags.EndReconcile], 2, 2),
      site := Site(WithLabel(name, MovedLabel(url)), ShownAs(name, url)), untouched := true)
  }

  lemma SecondPassReturns(order: KeyOrder, name: string, url: string)
    ensures Reaches(order, name, AfterMove(name, url))
  {
    SecondWorkerStarts(order, name, url);
    var i, e := WithLabel(name, MovedLabel(url)), Combine(MovedLabel(url), None);
    assert Placed(ShownAs(name, url), name, e) == ShownAs(name, url);
    PlainLook(order, i, name, e);
    hide Reaches, Look, Placed;
    var w := AfterMove(name, url).(pass := Some(Pass(0, Looking)));
    PassTrustsMark(order, name, w, e);
    PassShows(order, name, w.(pass := Some(Pass(0, LookingAgain(e)))), e, e);
    PassSucceeds(order, name, w.(pass := Some(Pass(0, LastLook(e)))), e);
  }

  lemma HideReliesOnSecondWorker(order: KeyOrder, name: string, url: string)
    ensures Reaches(order, name, BeforeSteal(name, url))
  {
    SecondPassReturns(order, name, url);
    MoveAndHideAreRecorded(order, name, url);
    hide Reaches, Apply, Schedules, Misses, WantedIn, MovedLabel, MovedAndHidden;
    var w, c := AfterMove(name, url), HideLabel(name, 3);
    Then(order, name, w, Record(c));
    var entering := Flags.Wakeup(true, true, 1, w.flags.workers, 3, 2);
    Then(order, name, Next(order, name, w, Record(c)), Schedule);
    Wakes(order, name, BeforeSteal(name, url).(flags := entering), Flags.Enter(2), BeforeSteal(name, url).flags);
  }

  /** Any acts, from here on. */
  ghost predicate LeadsTo(order: KeyOrder, name: string, w: World, acts: seq<Act>, t: World)
    decreases |acts|
  {
    if acts == [] then t == w
    else CanAct(name, w, acts[0]) && LeadsTo(order, name, Next(order, name, w, acts[0]), acts[1..], t)
  }

  lemma WakesBefore(order: KeyOrder, name: string, w: World, e: Flags.Event, flags: Flags.Wakeup, acts: seq<Act>,
                    t: World)
    returns (more: seq<Act>)
    requires Flags.Enabled(w.flags, e) && flags == Flags.After(w.flags, e)
    requires !e.SetDirty? && !e.Start? && (e.End? ==> e.timedOut == None)
    requires w.pass == None && LeadsTo(order, name, w.(flags := flags), acts, t)
    ensures LeadsTo(order, name, w, more, t)
  {
    more := [Wake(e)] + acts;
    assert more[1..] == acts;
  }

  const SECOND_ALONE: Flags.Wakeup := Flags.Wakeup(false, true, 0, map[1 := Flags.EndReconcile], 3, 2)
  const ALL_GONE: Flags.Wakeup := Flags.Wakeup(false, false, 0, map[], 3, 2)

  /** The first worker takes the flag, finds that another one runs, and leaves. */
  lemma FirstSteals(order: KeyOrder, name: string, w: World, acts: seq<Act>, t: World) returns (more: seq<Act>)
    requires w.pass == None && LeadsTo(order, name, w.(flags := SECOND_ALONE), acts, t)
    requires w.flags == Flags.Wakeup(true, true, 0, map[0 := Flags.SwapDirty, 1 := Flags.EndReconcile], 3, 2)
    ensures LeadsTo(order, name, w, more, t)
  {
    var taken := Flags.Wakeup(false, true, 0, map[0 := Flags.SwapRunning, 1 := Flags.EndReconcile], 3, 2);
    hide LeadsTo;
    assert taken.workers - {0} == SECOND_ALONE.workers;
    more := WakesBefore(order, name, w.(flags := taken), Flags.Reclaim(0), SECOND_ALONE, acts, t);
    assert w.flags.workers[0 := Flags.SwapRunning] == taken.workers;
    more := WakesBefore(order, name, w, Flags.Recheck(0), taken, more, t);
  }

  /** The second one finds no flag and leaves. */
  lemma SecondLeaves(order: KeyOrder, name: string, w: World) returns (acts: seq<Act>)
    requires w.pass == None && w.flags == SECOND_ALONE
    ensures LeadsTo(order, name, w, acts, w.(flags := ALL_GONE))
  {
    var clearing := Flags.Wakeup(false, true, 0, map[1 := Flags.ClearRunning], 3, 2);
    var cleared := Flags.Wakeup(false, false, 0, map[1 := Flags.SwapDirty], 3, 2);
    var t := w.(flags := ALL_GONE);
    assert LeadsTo(order, name, t, [], t);
    hide LeadsTo;
    assert cleared.workers - {1} == ALL_GONE.workers;
    acts := WakesBefore(order, name, w.(flags := cleared), Flags.Recheck(1), ALL_GONE, [], t);
    assert clearing.workers[1 := Flags.SwapDirty] == cleared.workers;
    acts := WakesBefore(order, name, w.(flags := clearing), Flags.Release(1), cleared, acts, t);
    assert w.flags.workers[1 := Flags.ClearRunning] == clearing.workers;
    acts := WakesBefore(order, name, w, Flags.End(1, None), clearing, acts, t);
  }

  /** The hide relies on a worker whose flag is stolen: all is at rest, the newest
      pass succeeded, and the webview that should be hidden is shown. */
  lemma AStolenRequestIsLost(order: KeyOrder, name: string, url: string) returns (acts: seq<Act>, t: World)
    ensures Reaches(order, name, BeforeSteal(name, url)) && LeadsTo(order, name, BeforeSteal(name, url), acts, t)
    ensures AtRest(t) && t.succeeded && !AsAsked(order, t.site.intents, name, t.site.webviews)
  {
    HideReliesOnSecondWorker(order, name, url);
    var w := BeforeSteal(name, url);
    NewestOfIsLatest(order, w.site.intents, name);
    hide Reaches, NewestOf, LeadsTo;
    t := w.(flags := ALL_GONE);
    acts := SecondLeaves(order, name, w.(flags := SECOND_ALONE));
    acts := FirstSteals(order, name, w, acts, t);
  }

  // ---------------------------------------------------------------------
  // A command that slips past a pass
  // ---------------------------------------------------------------------

  /** A tab that was opened and reloaded, with the given marks. */
  function Reopened(name: string, url: string, navigation: Option<nat>, reload: Option<nat>): Intents {
    var l := Reloaded(OpenedLabel(url), 3);
    Intents(map[name := l.(appliedNavigation := navigation, appliedReload := reload)], map[])
  }

  /** The same under a hide of its pane that is older than the reload. */
  function HiddenLate(name: string, url: string, prefix: string): Intents {
    Intents(Reopened(name, url, Some(1), Some(3)).labels, map[prefix := ScopeBarrier(2, Hide, None)])
  }

  /** An older hide of the pane hides the tab by its barrier alone, at the same
      revision: a pass that is running does not notice, but another is asked for. */
  lemma AnOlderHideSlips(order: KeyOrder, name: string, url: string, prefix: string)
    requires StartsWith(name, prefix)
    ensures var i, c := Reopened(name, url, Some(1), Some(3)), HidesPane(prefix, None, 2, [name]);
            && Slips(order, i, c, name) && Schedules(i, c, name) && Apply(i, c) == HiddenLate(name, url, prefix)
            && Look(order, i, name).visibility == Visible && Look(order, i, name).revision == 3
            && Look(order, Apply(i, c), name).visibility == Hidden && Look(order, Apply(i, c), name).revision == 3
  {
    var i, c := Reopened(name, url, Some(1), Some(3)), HidesPane(prefix, None, 2, [name]);
    PlainLook(order, i, name, Combine(i.labels[name], None));
    assert Apply(i, c).labels == i.labels && Apply(i, c).barriers == map[prefix := ScopeBarrier(2, Hide, None)];
    NewestOfIsLatest(order, Apply(i, c), name);
    hide Apply, NewestOf;
    assert Covers(Apply(i, c), prefix, name);
  }

  lemma ReloadingIsRecorded(order: KeyOrder, name: string, url: string)
    ensures var i, c := Intents(map[name := OpenedLabel(url)], map[]), Reload(name, 3);
            && Apply(i, c) == Reopened(name, url, None, None) && Schedules(i, c, name) && !Misses(order, i, c, name)
  {
    var i, c := Intents(map[name := OpenedLabel(url)], map[]), Reload(name, 3);
    LabelCommandsMissNothing(order, i, c, name);
    assert Apply(i, c).labels == Reopened(name, url, None, None).labels;
    hide Misses;
  }

  /** The tab is opened and reloaded, and its pane collects it for a hide. */
  lemma TabIsCollected(order: KeyOrder, name: string, url: string, prefix: string)
    requires StartsWith(name, prefix)
    ensures exists untouched ::
      Reaches(order, name,
              World(Flags.IDLE, Site(Reopened(name, url, None, None), map[]), {Ticket(prefix, None, [name])}, 2,
                    None, true, untouched))
  {
    ReachesEmpty(order, name);
    assert EMPTY.(tickets := {}) == EMPTY;
    OpeningIsRecorded(order, name, url, {});
    ReloadingIsRecorded(order, name, url);
    var i := Intents(map[name := OpenedLabel(url)], map[]);
    var untouched :| Reaches(order, name, World(Flags.IDLE, Site(i, map[]), {}, 1, None, true, untouched));
    hide Reaches, Misses, WantedIn, Apply, Schedules;
    var w, c := World(Flags.IDLE, Site(i, map[]), {}, 1, None, true, untouched), Reload(name, 3);
    Then(order, name, w, Record(c));
    var t, ticket := Next(order, name, w, Record(c)), Ticket(prefix, None, [name]);
    Then(order, name, t, Collect(ticket));
    assert t.tickets + {ticket} == {ticket};
    assert Next(order, name, t, Collect(ticket))
        == World(Flags.IDLE, Site(Reopened(name, url, None, None), map[]), {ticket}, 2, None, true, t.untouched);
  }

  /** A pass over it up to its last look. */
  lemma PassIsAboutToReturn(order: KeyOrder, name: string, url: string, prefix: string)
    requires StartsWith(name, prefix)
    ensures Reaches(order, name, BeforeLastLook(name, url, prefix))
  {
    TabIsCollected(order, name, url, prefix);
    var i, tickets := Reopened(name, url, None, None), {Ticket(prefix, None, [name])};
    var untouched :| Reaches(order, name, World(Flags.IDLE, Site(i, map[]), tickets, 2, None, true, untouched));
    var e := Combine(i.labels[name], None);
    var started := World(Flags.Wakeup(false, true, 0, map[0 := Flags.EndReconcile], 1, 1), Site(i, map[]), tickets, 1,
                         Some(Pass(0, Looking)), true, true);
    var marked := Reopened(name, url, Some(1), None);
    assert NavigationMarkedIn(i, name, e).labels == marked.labels;
    assert ReloadMarkedIn(marked, name, e).labels == Reopened(name, url, Some(1), Some(3)).labels;
    assert SentTo(map[], name, url) == map[name := Webview(url, None)];
    assert Placed(map[name := Webview(url, None)], name, e) == ShownAs(name, url);
    hide Reaches, NavigationMarkedIn, ReloadMarkedIn, SentTo, Placed;
    WorkerStarts(order, name, World(Flags.IDLE, Site(i, map[]), tickets, 2, None, true, untouched), 0);
    PassCreates(order, name, started, e);
    var loaded := started.(site := Site(marked, map[name := Webview(url, None)]),
                           pass := Some(Pass(0, LookingAgain(e))));
    PassShows(order, name, loaded, e, Combine(marked.labels[name], None));
  }

  function BeforeLastLook(name: string, url: string, prefix: string): World {
    World(Flags.Wakeup(false, true, 0, map[0 := Flags.EndReconcile], 1, 1),
          Site(Reopened(name, url, Some(1), Some(3)), ShownAs(name, url)), {Ticket(prefix, None, [name])}, 1,
          Some(Pass(0, LastLook(Combine(Reloaded(OpenedLabel(url), 3), None)))), true, true)
  }

  /** The hide arrives before the last look of a pass: nothing is lost, the pass
      succeeds, and the tab that should be hidden is shown, until the pass that the
      hide has asked for. */
  lemma APassCanMissAnOlderHide(order: KeyOrder, name: string, url: string, prefix: string)
    requires StartsWith(name, prefix)
    ensures var w := BeforeLastLook(name, url, prefix).(
                       site := Site(HiddenLate(name, url, prefix), ShownAs(name, url)), unscheduled := 2, pass := None,
                       untouched := false);
            Reaches(order, name, w) && w.succeeded && !AsAsked(order, w.site.intents, name, w.site.webviews)
  {
    var w, c := BeforeLastLook(name, url, prefix), HidesPane(prefix, None, 2, [name]);
    PassIsAboutToReturn(order, name, url, prefix);
    AnOlderHideSlips(order, name, url, prefix);
    hide Reaches, Apply, Look, Schedules;
    Then(order, name, w, Record(c));
    PassSucceeds(order, name, Next(order, name, w, Record(c)), w.pass.value.phase.e);
  }

  /** A scope command can miss without a race between its sections, too: a newer
      one that exempts the tab lifts that barrier and asks for no pass over it. */
  lemma ALiftedBarrierIsMissed(order: KeyOrder, name: string, url: string, prefix: string)
    requires StartsWith(name, prefix)
    ensures Misses(order, HiddenLate(name, url, prefix), HidesPane(prefix, Some(name), 4, []), name)
  {
    var i, c := HiddenLate(name, url, prefix), HidesPane(prefix, Some(name), 4, []);
    AnOlderHideSlips(order, name, url, prefix);
    NewestOfIsLatest(order, Lifted(i, prefix), name);
    hide Apply, NewestOf, Misses;
    assert Covers(i, prefix, name);
    ScopeMissesExactly(order, i, c, name);
  }
}
