/** A pass of the worker cut into its atomic steps, so that commands can come
  between any two of them: looks and marks under the lock, and native calls. */
module BrowserPasses {
  import opened Wrappers
  import opened BrowserIntents
  import opened BrowserRequests

  const TURNS: nat := 16

  /** What a pass does next. `e` is the snapshot that the turn works on. */
  datatype Phase =
    | Looking
    | Closing(e: Effective)
    | Clearing(e: Effective)
    | Checking(e: Effective)         // is the navigation still current?
    | Ensuring(e: Effective)         // create the webview if there is none
    | Rechecking(e: Effective)
    | Sending(e: Effective)          // send an existing one to the navigation
    | Marking(e: Effective)
    | LookingAgain(e: Effective)
    | Placing(e: Effective)
    | Reloading(e: Effective)
    | MarkingReload(e: Effective)
    | PlacingBare(e: Effective)
    | LastLook(e: Effective)

  datatype Pass = Pass(turn: nat, phase: Phase)

  datatype Outcome = Going(pass: Pass) | Returned(ok: bool)

  /** What passes and commands share. */
  datatype Site = Site(intents: Intents, webviews: map<string, Webview>)

  // ---------------------------------------------------------------------
  // The steps
  // ---------------------------------------------------------------------

  /** The loop gives up after its last turn. */
  function NextTurn(turn: nat): Outcome {
    if turn + 1 < TURNS then Going(Pass(turn + 1, Looking)) else Returned(false)
  }

  /** The branch that a snapshot takes. */
  function Branch(turn: nat, e: Effective): Outcome {
    if e.visibility == Closed then Going(Pass(turn, Closing(e)))
    else if e.navigation == None then Going(Pass(turn, PlacingBare(e)))
    else if e.bounds == None then Returned(false)
    else Going(Pass(turn, Checking(e)))
  }

  predicate IsCurrent(order: KeyOrder, i: Intents, name: string, e: Effective) {
    name in i.labels &&
    var now := Look(order, i, name);
    && now.visibility != Closed && now.navigation.Some? && e.navigation.Some?
    && now.navigation.value.sequence == e.navigation.value.sequence
  }

  predicate SameRevisionNow(order: KeyOrder, i: Intents, name: string, e: Effective) {
    name in i.labels && Look(order, i, name).revision == e.revision
  }

  function Url(e: Effective): string {
    if e.navigation.Some? then e.navigation.value.url else ""
  }

  function WithMarks(i: Intents, name: string, navigation: Option<nat>, reload: Option<nat>): Intents {
    if name in i.labels
    then i.(labels := i.labels[name := i.labels[name].(appliedNavigation := navigation, appliedReload := reload)])
    else i
  }

  /** Marks the snapshot's navigation if the label still has its sequence. */
  function NavigationMarkedIn(i: Intents, name: string, e: Effective): Intents {
    if name in i.labels && i.labels[name].navigation.Some? && e.navigation.Some?
       && i.labels[name].navigation.value.sequence == e.navigation.value.sequence
    then WithMarks(i, name, Some(e.navigation.value.sequence), i.labels[name].appliedReload)
    else i
  }

  function ReloadMarkedIn(i: Intents, name: string, e: Effective): Intents {
    if name in i.labels && i.labels[name].reload == e.reload
    then WithMarks(i, name, i.labels[name].appliedNavigation, e.reload)
    else i
  }

  function SentTo(webviews: map<string, Webview>, name: string, url: string): map<string, Webview> {
    webviews[name := if name in webviews then webviews[name].(url := url) else Webview(url, None)]
  }

  function ShownAt(webviews: map<string, Webview>, name: string, shown: Option<Rect>): map<string, Webview> {
    if name in webviews then webviews[name := webviews[name].(shown := shown)] else webviews
  }

  function Placed(webviews: map<string, Webview>, name: string, e: Effective): map<string, Webview> {
    if e.visibility == Hidden then ShownAt(webviews, name, None)
    else if e.bounds.Some? then ShownAt(webviews, name, Some(e.bounds.value.rect))
    else webviews
  }

  /** The next step, whose native call succeeds if it makes one. */
  function Step(order: KeyOrder, name: string, s: Site, p: Pass): (Site, Outcome) {
    var t := p.turn;
    match p.phase
    case Looking =>
      (s, if name in s.intents.labels then Branch(t, Look(order, s.intents, name)) else Returned(true))
    case Closing(e) => (s.(webviews := s.webviews - {name}), Going(Pass(t, Clearing(e))))
    case Clearing(e) => (s.(intents := WithMarks(s.intents, name, None, None)), Going(Pass(t, LastLook(e))))
    case Checking(e) =>
      (s, if IsCurrent(order, s.intents, name, e) then Going(Pass(t, Ensuring(e))) else NextTurn(t))
    case Ensuring(e) =>
      if name !in s.webviews then (s.(webviews := SentTo(s.webviews, name, Url(e))), Going(Pass(t, Marking(e))))
      else
        (s, Going(Pass(t, if e.navigation.Some? && e.appliedNavigation != Some(e.navigation.value.sequence)
                          then Rechecking(e) else LookingAgain(e))))
    case Rechecking(e) =>
      (s, if IsCurrent(order, s.intents, name, e) then Going(Pass(t, Sending(e))) else NextTurn(t))
    case Sending(e) => (s.(webviews := SentTo(s.webviews, name, Url(e))), Going(Pass(t, Marking(e))))
    case Marking(e) => (s.(intents := NavigationMarkedIn(s.intents, name, e)), Going(Pass(t, LookingAgain(e))))
    case LookingAgain(e) =>
      (s, if SameRevisionNow(order, s.intents, name, e) then Going(Pass(t, Placing(e))) else NextTurn(t))
    case Placing(e) =>
      (s.(webviews := Placed(s.webviews, name, e)),
       Going(Pass(t, if e.reload.Some? && e.appliedReload != e.reload then Reloading(e) else LastLook(e))))
    case Reloading(e) => (s, Going(Pass(t, MarkingReload(e))))
    case MarkingReload(e) => (s.(intents := ReloadMarkedIn(s.intents, name, e)), Going(Pass(t, LastLook(e))))
    case PlacingBare(e) => (s.(webviews := Placed(s.webviews, name, e)), Going(Pass(t, LastLook(e))))
    case LastLook(e) =>
      (s, if SameRevisionNow(order, s.intents, name, e) then Returned(true) else NextTurn(t))
  }

  /** A step whose call fails: the pass returns an error. A webview that could
      not be closed has been hidden. */
  function Failed(name: string, s: Site, p: Pass): Site {
    if p.phase.Closing? then s.(webviews := ShownAt(s.webviews, name, None)) else s
  }

  /** A failed call changes nothing but the sight of a webview that could not
      be closed, which is gone from view all the same. */
  lemma FailuresTouchOnlyTheClosing(name: string, s: Site, p: Pass)
    ensures var t := Failed(name, s, p);
            && t.intents == s.intents && t.webviews - {name} == s.webviews - {name}
            && (name in t.webviews <==> name in s.webviews)
            && (name in s.webviews ==>
                  t.webviews[name] ==
                  if p.phase.Closing? then Webview(s.webviews[name].url, None) else s.webviews[name])
  {
  }

  // ---------------------------------------------------------------------
  // What a pass knows
  // ---------------------------------------------------------------------

  /** A navigation is being checked, loaded or marked. */
  predicate Loading(phase: Phase) {
    phase.Checking? || phase.Ensuring? || phase.Rechecking? || phase.Sending? || phase.Marking?
  }

  /** The webview has been sent to it. */
  predicate Sent(phase: Phase) {
    || phase.Marking? || phase.LookingAgain? || phase.Placing? || phase.Reloading? || phase.MarkingReload?
  }

  /** The label's navigation is the snapshot's if it has the same sequence, and
      so it is if it is marked; it has not fallen behind the snapshot. */
  ghost predicate SameIfSequence(i: Intents, name: string, e: Effective) {
    && name in i.labels
    && var l := i.labels[name];
       && (e.navigation.Some? ==> e.navigation.value.sequence <= l.latest)
       && (l.navigation.Some? && e.navigation.Some? ==>
             && (l.navigation.value.sequence == e.navigation.value.sequence ==>
                   l.navigation.value.url == e.navigation.value.url)
             && (l.appliedNavigation == Some(l.navigation.value.sequence) ==>
                   l.navigation.value.sequence == e.navigation.value.sequence))
  }

  /** Every mark and every navigation in progress is right about its URL. */
  ghost predicate Traces(name: string, s: Site, p: Option<Pass>) {
    && AppliedLoaded(s.intents, name, s.webviews)
    && (p.Some? && Loading(p.value.phase) ==> SameIfSequence(s.intents, name, p.value.phase.e))
    && (p.Some? && p.value.phase.LastLook? && p.value.phase.e.visibility == Closed ==> Unmarked(s.intents, name))
  }

  /** What the phase says about the webview and the snapshot. */
  ghost predicate PhaseKnows(name: string, webviews: map<string, Webview>, phase: Phase) {
    !phase.Looking? ==>
      var e := phase.e;
      && (e.visibility == Visible ==> e.bounds.Some?)
      && (Loading(phase) || Sent(phase) ==> e.visibility != Closed && e.navigation.Some?)
      && (phase.Checking? || phase.Ensuring? ==>
            (name in webviews && e.appliedNavigation == Some(e.navigation.value.sequence) ==>
               webviews[name].url == Url(e)))
      && (Sent(phase) ==> name in webviews && webviews[name].url == Url(e))
      && (phase.Clearing? ==> name !in webviews && e.visibility == Closed)
      && (phase.PlacingBare? ==> e.visibility != Closed && e.navigation == None)
      && (phase.Closing? ==> e.visibility == Closed)
      && (phase.Reloading? || phase.MarkingReload? || phase.LastLook? ==> Asked(webviews, name, e))
  }

  /** How the label's marks stand to the snapshot, while the label still wants
      the snapshot's navigation. */
  ghost predicate MarksKnown(l: LabelIntent, phase: Phase) {
    !phase.Looking? && phase.e.visibility != Closed && phase.e.navigation.Some? ==>
      var e, sequence := phase.e, phase.e.navigation.value.sequence;
      && (phase.Checking? || phase.Ensuring? ==>
            e.appliedNavigation == Some(sequence) ==> l.appliedNavigation == Some(sequence))
      && (Loading(phase) || phase.LookingAgain? || phase.Placing? ==> l.appliedReload == e.appliedReload)
      && (!Loading(phase) ==> l.appliedNavigation == Some(sequence))
      && (phase.LastLook? && e.reload.Some? ==> l.appliedReload == e.reload)
  }

  /** The snapshot asks for what is wanted now. */
  ghost predicate Fresh(order: KeyOrder, i: Intents, name: string, phase: Phase) {
    !phase.Looking? ==>
      && WantedIn(order, i, name) == Some(WantedBy(phase.e))
      && MarksKnown(i.labels[name], phase)
  }

  ghost predicate Sound(name: string, s: Site, p: Option<Pass>) {
    && HasBounds(s.intents, name) && Ordered(s.intents, name) && Traces(name, s, p)
    && (p.Some? ==> PhaseKnows(name, s.webviews, p.value.phase))
  }

  // ---------------------------------------------------------------------
  // What every step keeps
  // ---------------------------------------------------------------------

  function Continues(o: Outcome): Option<Pass> {
    if o.Going? then Some(o.pass) else None
  }

  lemma StepKeepsSound(order: KeyOrder, name: string, s: Site, p: Pass)
    requires Sound(name, s, Some(p))
    ensures var (t, o) := Step(order, name, s, p); Sound(name, t, Continues(o))
  {
    if p.phase.Looking? {
      LookingKeepsSound(order, name, s, p);
    } else if p.phase.Clearing? || p.phase.Marking? || p.phase.MarkingReload? {
      MarkingKeepsSound(order, name, s, p);
    } else {
      OtherStepKeepsSound(order, name, s, p);
    }
    hide Step, Sound;
  }

  lemma LookingKeepsSound(order: KeyOrder, name: string, s: Site, p: Pass)
    requires Sound(name, s, Some(p)) && p.phase.Looking?
    ensures var (t, o) := Step(order, name, s, p); Sound(name, t, Continues(o))
  {
    if name in s.intents.labels {
      LookHasLabel(order, s.intents, name);
    }
    hide Look, Asked;
  }

  lemma MarkingKeepsSound(order: KeyOrder, name: string, s: Site, p: Pass)
    requires Sound(name, s, Some(p)) && (p.phase.Clearing? || p.phase.Marking? || p.phase.MarkingReload?)
    ensures var (t, o) := Step(order, name, s, p); Sound(name, t, Continues(o))
  {
    hide Look;
  }

  lemma OtherStepKeepsSound(order: KeyOrder, name: string, s: Site, p: Pass)
    requires Sound(name, s, Some(p)) && !p.phase.Looking?
    requires !p.phase.Clearing? && !p.phase.Marking? && !p.phase.MarkingReload?
    ensures var (t, o) := Step(order, name, s, p); Sound(name, t, Continues(o))
  {
    hide Look, HasBounds, Ordered, IsCurrent, SameRevisionNow, Branch;
  }

  /** No step of a pass changes what is wanted. */
  lemma StepKeepsWanted(order: KeyOrder, name: string, s: Site, p: Pass)
    ensures WantedIn(order, Step(order, name, s, p).0.intents, name) == WantedIn(order, s.intents, name)
  {
    var t := Step(order, name, s, p).0;
    if t.intents != s.intents {
      OnlyMarksChange(order, name, s, p);
      MarksDoNotShow(order, s.intents, t.intents, name);
    }
    hide Look, Step;
  }

  lemma OnlyMarksChange(order: KeyOrder, name: string, s: Site, p: Pass)
    ensures var t := Step(order, name, s, p).0;
            t.intents == s.intents || OnlyMarksDiffer(s.intents, t.intents, name)
  {
    hide Look, Placed, SentTo, IsCurrent, SameRevisionNow, Branch, NextTurn;
  }

  /** As long as nothing else is wanted, the snapshot stays what is wanted, and a
      pass that succeeds leaves the webview settled. */
  lemma StepKeepsFresh(order: KeyOrder, name: string, s: Site, p: Pass)
    requires Sound(name, s, Some(p)) && Fresh(order, s.intents, name, p.phase)
    ensures var (t, o) := Step(order, name, s, p);
            && (o.Going? ==> Fresh(order, t.intents, name, o.pass.phase))
            && (o == Returned(true) ==> Settled(order, t.intents, name, t.webviews))
  {
    StepKeepsWanted(order, name, s, p);
    if name in s.intents.labels {
      LookHasLabel(order, s.intents, name);
      if p.phase.LastLook? {
        SameWantedSameAsk(s.webviews, name, p.phase.e, Look(order, s.intents, name));
      }
    }
    hide Look, Asked;
  }

  /** So does a command that changes nothing that is wanted. */
  lemma CommandKeepsFresh(order: KeyOrder, name: string, i: Intents, c: Command, phase: Phase)
    requires Fresh(order, i, name, phase) && WantedIn(order, i, name) == WantedIn(order, Apply(i, c), name)
    ensures Fresh(order, Apply(i, c), name, phase)
  {
    if name in i.labels {
      MarksFollowNavigation(i, c, name);
      LookHasLabel(order, Apply(i, c), name);
    }
    hide Look, Apply;
  }

  // ---------------------------------------------------------------------
  // Commands between two steps
  // ---------------------------------------------------------------------

  /** A navigation to another URL under the sequence of the pass's snapshot. */
  predicate ReusesSnapshot(i: Intents, c: Command, name: string, p: Option<Pass>) {
    && c.NavigateTo? && c.name == name && Recorded(i, c)
    && p.Some? && Loading(p.value.phase) && p.value.phase.e.navigation.Some?
    && p.value.phase.e.navigation.value.sequence == c.sequence && p.value.phase.e.navigation.value.url != c.url
  }

  /** The command uses a sequence again for another URL while a mark or a pass
      still goes by it. */
  predicate Repeats(name: string, s: Site, p: Option<Pass>, c: Command) {
    ReusesApplied(s.intents, c, name, s.webviews) || ReusesSnapshot(s.intents, c, name, p)
  }

  /** Only such a command makes a mark or a pass wrong about a URL. */
  lemma TracesStayRightExactly(name: string, s: Site, p: Option<Pass>, c: Command)
    requires Traces(name, s, p) && Ordered(s.intents, name)
    ensures Traces(name, s.(intents := Apply(s.intents, c)), p) <==> !Repeats(name, s, p, c)
  {
    MarkStaysRightExactly(s.intents, c, name, s.webviews);
    if p.Some? && Loading(p.value.phase) {
      SnapshotStaysRightExactly(name, s.intents, p, c);
    }
    if Unmarked(s.intents, name) {
      StaysUnmarked(s.intents, c, name);
    }
    hide Apply, AppliedLoaded, ReusesApplied, SameIfSequence;
  }

  lemma StaysUnmarked(i: Intents, c: Command, name: string)
    requires Unmarked(i, name)
    ensures Unmarked(Apply(i, c), name)
  {
  }

  lemma SnapshotStaysRightExactly(name: string, i: Intents, p: Option<Pass>, c: Command)
    requires p.Some? && Loading(p.value.phase) && SameIfSequence(i, name, p.value.phase.e) && Ordered(i, name)
    ensures SameIfSequence(Apply(i, c), name, p.value.phase.e) <==> !ReusesSnapshot(i, c, name, p)
  {
    MarksFollowNavigation(i, c, name);
    LatestRises(i, c, name);
    if c.NavigateTo? && c.name == name && Recorded(i, c) {
      assert Apply(i, c).labels[name].navigation == Some(Navigation(c.sequence, c.url, c.readOnlyUrl));
    }
    hide Apply;
  }

  lemma LatestRises(i: Intents, c: Command, name: string)
    requires name in i.labels
    ensures name in Apply(i, c).labels && i.labels[name].latest <= Apply(i, c).labels[name].latest
    ensures !c.Scope? && c.name == name && Recorded(i, c) ==> i.labels[name].latest <= c.sequence
  {
  }

  lemma CommandKeepsSound(name: string, s: Site, p: Option<Pass>, c: Command)
    requires Sound(name, s, p) && !Repeats(name, s, p, c)
    ensures Sound(name, s.(intents := Apply(s.intents, c)), p)
  {
    ApplyKeepsBounds(s.intents, c, name);
    ApplyKeepsOrdered(s.intents, c, name);
    TracesStayRightExactly(name, s, p, c);
    hide HasBounds, Ordered, Traces, Repeats, Apply;
  }

  /** A sequence above the label's own is never such a repetition. */
  lemma NewerNeverRepeats(name: string, s: Site, p: Option<Pass>, c: Command)
    requires Sound(name, s, p) && !c.Scope? && name in s.intents.labels && s.intents.labels[name].latest < c.sequence
    ensures !Repeats(name, s, p, c)
  {
    hide Recorded;
  }

  // ---------------------------------------------------------------------
  // What a pass notices
  // ---------------------------------------------------------------------

  /** At these points the pass goes on only if the snapshot's navigation is
      still current: after the snapshot, and before an existing webview is sent. */
  predicate LoadsNext(name: string, s: Site, p: Pass, e: Effective) {
    && e.visibility != Closed && e.navigation.Some?
    && (p.phase.Looking?
        || (p.phase.Ensuring? && name in s.webviews && e.appliedNavigation != Some(e.navigation.value.sequence)))
  }

  /** And at these only if the revision is still the snapshot's: before a
      webview that has been loaded is placed, and at the end of a turn. */
  predicate ShowsOrEndsNext(name: string, s: Site, p: Pass, e: Effective) {
    || p.phase.Marking? || p.phase.Clearing? || p.phase.PlacingBare? || p.phase.MarkingReload?
    || (p.phase.Ensuring? && name in s.webviews
        && (e.navigation.Some? ==> e.appliedNavigation == Some(e.navigation.value.sequence)))
    || (p.phase.Placing? && (e.reload == None || e.appliedReload == e.reload))
  }

  /** Whatever was recorded between two steps: a webview is created or sent only
      if its navigation is still the label's and the label is open, and a loaded
      one placed, or the pass ended, only if the revision is still the same.
      Otherwise the turn ends and nothing has been touched. */
  lemma ChangesAreNoticed(order: KeyOrder, name: string, s: Site, p: Pass, t: Site)
    requires Step(order, name, s, p).1.Going? && !Step(order, name, s, p).1.pass.phase.Looking?
    ensures var q := Step(order, name, s, p).1.pass;
            var e := q.phase.e;
            var superseded := (t, if q.turn + 1 < 16 then Going(Pass(q.turn + 1, Looking)) else Returned(false));
            && q.turn == p.turn
            && (LoadsNext(name, s, p, e) ==>
                  var now := if name in t.intents.labels then Some(Look(order, t.intents, name)) else None;
                  if now.Some? && now.value.visibility != Closed && now.value.navigation.Some?
                     && now.value.navigation.value.sequence == e.navigation.value.sequence
                  then Step(order, name, t, q) != superseded && Step(order, name, t, q).0 == t
                  else Step(order, name, t, q) == superseded || e.bounds == None)
            && (ShowsOrEndsNext(name, s, p, e) ==>
                  if name in t.intents.labels && Look(order, t.intents, name).revision == e.revision
                  then Step(order, name, t, q) != superseded && Step(order, name, t, q).0 == t
                  else Step(order, name, t, q) == superseded)
  {
    hide Look, Placed, SentTo, NavigationMarkedIn, ReloadMarkedIn, WithMarks;
  }

  // ---------------------------------------------------------------------
  // The end of a pass
  // ---------------------------------------------------------------------

  function Rank(phase: Phase): nat {
    match phase
    case Looking => 10
    case Closing(_) => 2
    case Clearing(_) => 1
    case Checking(_) => 9
    case Ensuring(_) => 8
    case Rechecking(_) => 7
    case Sending(_) => 6
    case Marking(_) => 5
    case LookingAgain(_) => 4
    case Placing(_) => 3
    case Reloading(_) => 2
    case MarkingReload(_) => 1
    case PlacingBare(_) => 1
    case LastLook(_) => 0
  }

  /** Every step brings a pass nearer to its end. It gives up only after a
      sixteenth turn, and succeeds only by finding the snapshot's revision, or no
      such label. */
  lemma PassesEnd(order: KeyOrder, name: string, s: Site, p: Pass)
    requires Sound(name, s, Some(p)) && p.turn < 16
    ensures match Step(order, name, s, p).1
            case Going(q) =>
              p.turn <= q.turn < 16 && 11 * (15 - q.turn) + Rank(q.phase) < 11 * (15 - p.turn) + Rank(p.phase)
            case Returned(ok) =>
              && (!ok ==> p.turn == 15)
              && (ok ==>
                    && Step(order, name, s, p).0 == s
                    && if p.phase.Looking? then name !in s.intents.labels
                       else name in s.intents.labels && Look(order, s.intents, name).revision == p.phase.e.revision)
  {
    if name in s.intents.labels {
      LookHasLabel(order, s.intents, name);
    }
    hide Look, Placed, SentTo, NavigationMarkedIn, ReloadMarkedIn, WithMarks, IsCurrent, SameRevisionNow, Asked,
      Ordered;
  }

  /** The pass returns with this outcome and leaves this site, if nothing comes
      between and no call fails. */
  ghost predicate Returns(order: KeyOrder, name: string, s: Site, p: Pass, t: Site, ok: bool)
    decreases 15 - p.turn, Rank(p.phase)
  {
    var (u, o) := Step(order, name, s, p);
    match o
    case Returned(done) => t == u && ok == done
    case Going(q) =>
      (q.turn == p.turn && Rank(q.phase) < Rank(p.phase)) && Returns(order, name, u, q, t, ok)
  }

  /** The snapshot has the label's revision. */
  ghost predicate Unmoved(order: KeyOrder, i: Intents, name: string, phase: Phase) {
    !phase.Looking? ==> name in i.labels && Look(order, i, name).revision == phase.e.revision
  }

  lemma StepKeepsUnmoved(order: KeyOrder, name: string, s: Site, p: Pass)
    requires Sound(name, s, Some(p))
    requires Fresh(order, s.intents, name, p.phase) && Unmoved(order, s.intents, name, p.phase)
    ensures match Step(order, name, s, p)
            case (t, Going(q)) =>
              q.turn == p.turn && Rank(q.phase) < Rank(p.phase) && Unmoved(order, t.intents, name, q.phase)
            case (_, Returned(ok)) => ok
  {
    var t := Step(order, name, s, p).0;
    if name in s.intents.labels {
      LookHasLabel(order, s.intents, name);
      if t.intents != s.intents {
        OnlyMarksChange(order, name, s, p);
        MarksDoNotShow(order, s.intents, t.intents, name);
      }
    }
    hide Look, Placed, SentTo, NavigationMarkedIn, ReloadMarkedIn, WithMarks, Asked, Ordered, Traces;
  }

  /** An undisturbed turn is the last one, and it leaves the webview settled. */
  lemma {:induction false} UndisturbedPassSettles(order: KeyOrder, name: string, s: Site, p: Pass) returns (t: Site)
    requires Sound(name, s, Some(p))
    requires Fresh(order, s.intents, name, p.phase) && Unmoved(order, s.intents, name, p.phase)
    ensures Returns(order, name, s, p, t, true) && Settled(order, t.intents, name, t.webviews)
    decreases Rank(p.phase)
  {
    StepKeepsSound(order, name, s, p);
    StepKeepsFresh(order, name, s, p);
    StepKeepsUnmoved(order, name, s, p);
    hide Sound, Fresh, Unmoved, Step, Settled;
    var (u, o) := Step(order, name, s, p);
    if o.Going? {
      t := UndisturbedPassSettles(order, name, u, o.pass);
    } else {
      t := u;
    }
  }
}
