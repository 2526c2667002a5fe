/** The worker that drives one native webview to the newest intent while
  further commands arrive. */
module BrowserReconcile {
  import opened Wrappers
  import opened BrowserIntents
  import opened BrowserLifecycles
  import opened BrowserRequests

  datatype ReconcileError = TimedOut(revision: nat) | MissingBounds | NoOwner | NativeFailed | NotSettled

  /** One turn of the loop: applied, superseded, or failed. */
  datatype Turn = Applied | Superseded | Failed(error: ReconcileError)

  /** What a pass finds and does, in order; native calls are noted when they are
      made, whether or not they succeed. */
  datatype Act =
    | TookSnapshot(snapshot: Option<Effective>)
    | Reread(found: Option<Effective>)
    | Create(sequence: nat)
    | Send(sequence: nat)
    | PlaceLoaded(revision: nat)
    | PlaceBare
    | ReloadPage
    | CloseView

  /** What has to be found or done right before a native call. */
  predicate Allows(before: Act, a: Act) {
    match a
    case TookSnapshot(_) => true
    case Reread(_) => true
    case Create(sequence) => FindsOpen(before, sequence)
    case Send(sequence) => FindsOpen(before, sequence)
    case PlaceLoaded(revision) => before.Reread? && before.found.Some? && before.found.value.revision == revision
    case PlaceBare =>
      before.TookSnapshot? && before.snapshot.Some?
      && before.snapshot.value.visibility != Closed && before.snapshot.value.navigation == None
    case ReloadPage => before.PlaceLoaded?
    case CloseView => before.TookSnapshot? && before.snapshot.Some? && before.snapshot.value.visibility == Closed
  }

  /** The label is open and has this navigation. */
  predicate FindsOpen(a: Act, sequence: nat) {
    && a.Reread? && a.found.Some? && a.found.value.visibility != Closed
    && a.found.value.navigation.Some? && a.found.value.navigation.value.sequence == sequence
  }

  /** Every native call directly follows the look that allows it: a second one,
      after the snapshot, for what loads or shows a navigation. */
  ghost predicate Checked(acts: seq<Act>) {
    forall k | 0 <= k < |acts| && !acts[k].TookSnapshot? && !acts[k].Reread? :: k > 0 && Allows(acts[k - 1], acts[k])
  }

  lemma CheckedMore(acts: seq<Act>, a: Act)
    requires Checked(acts)
    requires a.TookSnapshot? || a.Reread? || (acts != [] && Allows(acts[|acts| - 1], a))
    ensures Checked(acts + [a])
  {
    hide Allows;
  }

  /** A command and the state in which it was recorded. */
  datatype Arrival = Arrival(intents: Intents, c: Command)

  class Desktop {
    const lifecycle: BrowserLifecycle
    var webviews: map<string, Webview>

    // No command that arrives during the pass changes what it looks at; no
    // native call fails.
    const quiet: bool
    const reliable: bool

    // The label this worker serves.
    const name: string

    // The mark was right when the pass began; the first command that slipped
    // past it.
    ghost var right: bool
    ghost var slip: Option<Arrival>

    // How many commands have changed what a pass looks at, and how many of them
    // had when the turn took its snapshot; the turns of the pass.
    ghost var disturbed: nat
    ghost var since: nat
    ghost var turns: nat

    // What the pass has found and done.
    ghost var acts: seq<Act>

    constructor (lifecycle: BrowserLifecycle, webviews: map<string, Webview>, quiet: bool, reliable: bool, name: string)
      ensures this.lifecycle == lifecycle && this.webviews == webviews
      ensures this.quiet == quiet && this.reliable == reliable && this.name == name
      ensures lifecycle.View() == NO_INTENTS ==> Invariants()
    {
      right, slip, disturbed, since, turns, acts := true, None, 0, 0, 0, [];
      this.lifecycle, this.webviews, this.quiet, this.reliable, this.name := lifecycle, webviews, quiet, reliable, name;
    }

    /** What every recorded command keeps. */
    ghost predicate Invariants()
      reads lifecycle`labels, lifecycle`scopeBarriers
    {
      HasBounds(lifecycle.View(), name) && Ordered(lifecycle.View(), name)
    }

    /** A navigation marked as applied is the one the webview was sent to. */
    ghost predicate MarkIsRight()
      reads this`webviews, lifecycle`labels, lifecycle`scopeBarriers
    {
      AppliedLoaded(lifecycle.View(), name, webviews)
    }

    /** Nothing has happened that the pass cannot notice. */
    ghost predicate Fair()
      reads this`right, this`slip
    {
      right && slip == None
    }

    ghost predicate IsOpen()
      reads lifecycle`labels, lifecycle`scopeBarriers
    {
      name in lifecycle.labels && Look(lifecycle.order, lifecycle.View(), name).visibility != Closed
    }

    ghost predicate SlipIsReal()
      reads this`slip
    {
      slip.Some? ==> Slips(lifecycle.order, slip.value.intents, slip.value.c, name)
    }

    /** A mark that was right stays right, and in a quiet pass over a label that is
        not closed a wrong one stays wrong. */
    ghost predicate Consistent()
      reads this`webviews, this`right, this`slip, this`disturbed, this`since
      reads lifecycle`labels, lifecycle`scopeBarriers
    {
      && since <= disturbed && (quiet ==> disturbed == 0)
      && Invariants() && (Fair() ==> MarkIsRight()) && (quiet ==> slip == None) && SlipIsReal()
      && (quiet && !right && IsOpen() ==> !MarkIsRight())
    }

    /** The same is looked at as at an earlier moment. */
    ghost predicate Undisturbed(i: Intents)
      reads lifecycle`labels, lifecycle`scopeBarriers
    {
      var j := lifecycle.View();
      && (name in j.labels <==> name in i.labels)
      && (name in i.labels ==>
            var e, f := Look(lifecycle.order, i, name), Look(lifecycle.order, j, name);
            f.revision == e.revision && WantedBy(f) == WantedBy(e))
    }

    // -------------------------------------------------------------------
    // Interference
    // -------------------------------------------------------------------

    /** Other threads record commands, in any order. */
    method Interfere()
      requires Consistent()
      modifies this`slip, this`disturbed, lifecycle`labels, lifecycle`scopeBarriers
      ensures Consistent() && (old(slip).Some? ==> slip == old(slip))
      ensures name in old(lifecycle.labels) ==> name in lifecycle.labels
      ensures slip == None ==> Drifts(lifecycle.order, old(lifecycle.View()), lifecycle.View(), name)
      ensures disturbed >= old(disturbed) && (disturbed == old(disturbed) ==> Undisturbed(old(lifecycle.View())))
    {
      ghost var i := lifecycle.View();
      var more: nat :| true;
      NothingDrifts(lifecycle.order, i, name);
      assert Undisturbed(i);
      hide Checked, Slips, HasBounds, Ordered, AppliedLoaded, Drifts;
      while more > 0
        invariant Consistent() && (old(slip).Some? ==> slip == old(slip))
        invariant name in old(lifecycle.labels) ==> name in lifecycle.labels
        invariant slip == None ==> Drifts(lifecycle.order, i, lifecycle.View(), name)
        invariant disturbed >= old(disturbed) && (disturbed == old(disturbed) ==> Undisturbed(i))
      {
        more := more - 1;
        ghost var j := lifecycle.View();
        OneCommand();
        if slip == None {
          DriftsThen(lifecycle.order, i, j, lifecycle.View(), name);
        }
      }
    }

    method OneCommand()
      requires Consistent()
      modifies this`slip, this`disturbed, lifecycle`labels, lifecycle`scopeBarriers
      ensures Consistent() && (old(slip).Some? ==> slip == old(slip))
      ensures name in old(lifecycle.labels) ==> name in lifecycle.labels
      ensures slip == None ==> Drifts(lifecycle.order, old(lifecycle.View()), lifecycle.View(), name)
      ensures disturbed >= old(disturbed) && (disturbed == old(disturbed) ==> Undisturbed(old(lifecycle.View())))
    {
      var i, c: Command := Intents(lifecycle.labels, lifecycle.scopeBarriers), *;
      if quiet && !Calm(lifecycle.order, i, c, name) {
        // No such command in a quiet pass.
        NothingDrifts(lifecycle.order, i, name);
        return;
      }
      ApplyKeepsBounds(i, c, name);
      ApplyKeepsOrdered(i, c, name);
      LabelsStay(i, c, name);
      if !Slips(lifecycle.order, i, c, name) {
        CommandDrifts(lifecycle.order, i, c, name);
        if MarkIsRight() {
          CommandKeepsLoaded(lifecycle.order, i, c, name, webviews);
        }
      }
      if quiet {
        CalmKeepsMarks(lifecycle.order, i, c, name, webviews);
      }
      hide HasBounds, Ordered, AppliedLoaded, Drifts, Apply, Slips, Calm;
      if !Calm(lifecycle.order, i, c, name) {
        disturbed := disturbed + 1;
      }
      if slip == None && Slips(lifecycle.order, i, c, name) {
        slip := Some(Arrival(i, c));
      }
      var j := Apply(i, c);
      lifecycle.labels, lifecycle.scopeBarriers := j.labels, j.barriers;
    }

    // -------------------------------------------------------------------
    // One turn
    // -------------------------------------------------------------------

    /** Nothing but commands and the worker's own marks since a look. */
    ghost predicate Since(i0: Intents)
      reads this`slip, this`disturbed, this`since, lifecycle`labels, lifecycle`scopeBarriers
    {
      && name in i0.labels && name in lifecycle.labels
      && (disturbed == since ==> Undisturbed(i0))
      && (slip == None ==> Moved(lifecycle.order, i0, lifecycle.View(), name))
      && (quiet ==> SameRevision(lifecycle.order, i0, lifecycle.View(), name))
    }

    ghost predicate Marked(i0: Intents)
      requires name in i0.labels
      reads this`slip, this`disturbed, lifecycle`labels, lifecycle`scopeBarriers
    {
      slip == None ==> NavigationMarked(lifecycle.order, i0, lifecycle.View(), name)
    }

    ghost predicate Kept(i0: Intents)
      requires name in i0.labels
      reads this`slip, this`disturbed, lifecycle`labels, lifecycle`scopeBarriers
    {
      slip == None ==> ReloadKept(lifecycle.order, i0, lifecycle.View(), name)
    }

    ghost predicate Reloaded(i0: Intents)
      requires name in i0.labels
      reads this`slip, this`disturbed, lifecycle`labels, lifecycle`scopeBarriers
    {
      slip == None ==> ReloadDone(lifecycle.order, i0, lifecycle.View(), name)
    }

    /** The webview was sent to the snapshot's navigation. */
    ghost predicate AtUrl(e: Effective)
      requires e.navigation.Some?
      reads this`webviews, this`right, this`slip
    {
      name in webviews && (Fair() ==> webviews[name].url == e.navigation.value.url)
    }

    /** The snapshot a turn works on. */
    ghost predicate Snapshot(i0: Intents, e: Effective) {
      && name in i0.labels && e == Look(lifecycle.order, i0, name)
      && HasBounds(i0, name) && Ordered(i0, name)
    }

    /** A wrong mark of a quiet pass was there when the turn began. */
    ghost predicate WrongIsMarked(e: Effective)
      reads this`right
    {
      quiet && !right ==> e.navigation.Some? && e.appliedNavigation == Some(e.navigation.value.sequence)
    }

    method InterfereSince(ghost i0: Intents)
      requires Consistent() && Since(i0)
      modifies this`slip, this`disturbed, lifecycle`labels, lifecycle`scopeBarriers
      ensures (old(slip).Some? ==> slip == old(slip)) && Consistent() && Since(i0)
      ensures old(Kept(i0)) ==> Kept(i0)
      ensures old(Marked(i0)) ==> Marked(i0)
      ensures old(Reloaded(i0)) ==> Reloaded(i0)
    {
      ghost var i := lifecycle.View();
      assert name in i.labels;
      hide Checked, Slips, HasBounds, Ordered, AppliedLoaded, Drifts, Moved, NavigationMarked, ReloadKept,
        ReloadDone, Look;
      Interfere();
      if slip == None {
        MovedThen(lifecycle.order, i0, i, lifecycle.View(), name);
      }
    }

    /** Another look; it finds the snapshot's revision if nothing came between. */
    method ReadAgain(ghost i0: Intents, ghost e: Effective) returns (found: Option<Effective>)
      requires Consistent() && Since(i0) && Snapshot(i0, e) && Checked(acts)
      modifies this`acts
      ensures Checked(acts) && acts == old(acts) + [Reread(found)]
      ensures found == EffectiveIn(lifecycle.order, lifecycle.View(), name)
      ensures found.Some? && (disturbed == since ==> found.value.revision == e.revision)
      ensures disturbed == since ==> WantedBy(found.value) == WantedBy(e)
      ensures disturbed >= since
    {
      found := lifecycle.EffectiveBrowserIntent(name);
      Note(Reread(found));
      hide Checked, Slips, HasBounds, Ordered, AppliedLoaded, Moved;
    }

    /** A second look, which finds the same navigation if nothing came between. */
    method NavigationIsCurrent(ghost i0: Intents, ghost e: Effective, sequence: nat) returns (current: bool)
      requires Consistent() && Since(i0) && Snapshot(i0, e)
      requires e.visibility != Closed && e.navigation.Some? && e.navigation.value.sequence == sequence
      requires Checked(acts)
      modifies this`slip, this`disturbed, this`acts, lifecycle`labels, lifecycle`scopeBarriers
      ensures Checked(acts) && acts != [] && (current <==> FindsOpen(acts[|acts| - 1], sequence))
      ensures (old(slip).Some? ==> slip == old(slip)) && Consistent() && Since(i0)
      ensures !current ==> disturbed > since
      ensures old(Kept(i0)) ==> Kept(i0)
      ensures old(Marked(i0)) ==> Marked(i0)
    {
      hide Checked, Slips, HasBounds, Ordered, AppliedLoaded, NavigationMarked, ReloadKept, Look;
      InterfereSince(i0);
      var effective := ReadAgain(i0, e);
      current := effective.Some? && effective.value.visibility != Closed
                 && effective.value.navigation.Some? && effective.value.navigation.value.sequence == sequence;
    }

    ghost method Note(a: Act)
      requires Checked(acts)
      requires a.TookSnapshot? || a.Reread? || (acts != [] && Allows(acts[|acts| - 1], a))
      modifies this`acts
      ensures Checked(acts) && acts == old(acts) + [a]
    {
      CheckedMore(acts, a);
      acts := acts + [a];
    }

    method NativeCall(ghost a: Act) returns (ok: bool)
      requires Checked(acts) && acts != [] && Allows(acts[|acts| - 1], a)
      modifies this`acts
      ensures Checked(acts) && acts == old(acts) + [a]
      ensures reliable ==> ok
    {
      Note(a);
      ok := *;
      ok := ok || reliable;
    }

    /** Hides the webview, whatever comes of that, and closes it. */
    method CloseWebview() returns (t: Turn)
      requires name in webviews && Checked(acts) && acts != [] && Allows(acts[|acts| - 1], CloseView)
      modifies this`webviews, this`acts
      ensures Checked(acts)
      ensures webviews == if t == Applied then old(webviews) - {name}
                          else old(webviews)[name := old(webviews)[name].(shown := None)]
      ensures t == Applied || (t == Failed(NativeFailed) && !reliable)
    {
      webviews := webviews[name := webviews[name].(shown := None)];
      var ok := NativeCall(CloseView);
      if !ok {
        return Failed(NativeFailed);
      }
      webviews := webviews - {name};
      t := Applied;
    }

    method Cleared(ghost i0: Intents)
      requires Consistent() && Since(i0) && Ordered(i0, name) && name !in webviews && (quiet ==> !IsOpen())
      modifies this`slip, this`disturbed, lifecycle`labels, lifecycle`scopeBarriers
      ensures (old(slip).Some? ==> slip == old(slip)) && Consistent() && Since(i0)
      ensures Unmarked(lifecycle.View(), name)
    {
      InterfereSince(i0);
      ghost var i := lifecycle.View();
      lifecycle.ClearAppliedBrowserState(name);
      MarkingKeepsInvariants(i, lifecycle.View(), name);
      MarksDoNotShow(lifecycle.order, i, lifecycle.View(), name);
      if slip == None {
        MarkingMoves(lifecycle.order, i0, i, lifecycle.View(), name);
      }
      hide Checked, Slips, HasBounds, Ordered, Moved;
    }

    method ApplyClosed(ghost i0: Intents) returns (t: Turn)
      requires Consistent() && Since(i0) && Ordered(i0, name)
      requires Look(lifecycle.order, i0, name).visibility == Closed
      requires Checked(acts) && acts != [] && Allows(acts[|acts| - 1], CloseView)
      modifies this`webviews, this`slip, this`disturbed, this`acts, lifecycle`labels, lifecycle`scopeBarriers
      ensures Checked(acts)
      ensures (old(slip).Some? ==> slip == old(slip)) && Consistent() && Since(i0)
      ensures t == Applied ==> name !in webviews && Unmarked(lifecycle.View(), name)
      ensures t == Applied || (t == Failed(NativeFailed) && !reliable)
      ensures t != Applied ==> name in webviews && webviews[name].shown == None
      ensures webviews - {name} == old(webviews) - {name}
    {
      hide Checked, Slips, HasBounds, Ordered, AppliedLoaded, Moved, SameRevision, Look;
      InterfereSince(i0);
      if quiet {
        SameRevisionSameWanted(lifecycle.order, i0, lifecycle.View(), name);
      }
      if name in webviews {
        ghost var before := webviews;
        t := CloseWebview();
        ShowingKeepsMark(lifecycle.View(), name, before, webviews);
        if t != Applied {
          return;
        }
      }
      Cleared(i0);
      t := Applied;
    }

    /** Creates the webview at the navigation's URL, or sends an existing one
        there unless that navigation was already applied. */
    method LoadNavigation(ghost i0: Intents, e: Effective, navigation: Navigation) returns (t: Turn)
      requires Consistent() && Since(i0) && Snapshot(i0, e)
      requires e.visibility != Closed && e.navigation == Some(navigation)
      requires e.appliedNavigation == Some(navigation.sequence) && name in webviews ==> AtUrl(e)
      requires WrongIsMarked(e)
      requires Kept(i0) && (e.appliedNavigation == Some(navigation.sequence) ==> Marked(i0))
      requires Checked(acts) && acts != [] && FindsOpen(acts[|acts| - 1], navigation.sequence)
      modifies this`webviews, this`slip, this`disturbed, this`acts, lifecycle`labels, lifecycle`scopeBarriers
      ensures Checked(acts)
      ensures (old(slip).Some? ==> slip == old(slip)) && Consistent() && Since(i0) && Kept(i0)
      ensures t == Applied ==> AtUrl(e) && Marked(i0)
      ensures t == Superseded ==> disturbed > since
      ensures t.Failed? ==> !reliable && t.error != MissingBounds && t.error != NotSettled
      ensures webviews - {name} == old(webviews) - {name}
    {
      hide Checked, Slips, HasBounds, Ordered, AppliedLoaded, Moved, NavigationMarked, ReloadKept, Look;
      InterfereSince(i0);
      if quiet {
        SameRevisionSameWanted(lifecycle.order, i0, lifecycle.View(), name);
      }
      if name !in webviews {
        NoWebviewNoWrongMark(lifecycle.View(), name, webviews);
        t := CreateAt(i0, e, navigation);
        return;
      } else if e.appliedNavigation != Some(navigation.sequence) {
        t := SendTo(i0, e, navigation);
        return;
      }
      t := Applied;
    }

    method CreateAt(ghost i0: Intents, e: Effective, navigation: Navigation) returns (t: Turn)
      requires Consistent() && Since(i0) && Snapshot(i0, e) && Kept(i0)
      requires e.visibility != Closed && e.navigation == Some(navigation) && name !in webviews && (quiet ==> right)
      requires Checked(acts) && acts != [] && FindsOpen(acts[|acts| - 1], navigation.sequence)
      modifies this`webviews, this`slip, this`disturbed, this`acts, lifecycle`labels, lifecycle`scopeBarriers
      ensures Checked(acts)
      ensures (old(slip).Some? ==> slip == old(slip)) && Consistent() && Since(i0) && Kept(i0)
      ensures t == Applied ==> AtUrl(e) && Marked(i0)
      ensures t == Applied || (t.Failed? && !reliable && t.error != MissingBounds && t.error != NotSettled)
      ensures webviews - {name} == old(webviews) - {name}
    {
      hide Checked, Look, Desktop.Consistent, Desktop.Since, Desktop.Kept, Desktop.Marked, Desktop.Snapshot;
      var ok := NativeCall(Create(navigation.sequence));
      if !ok {
        var timedOut: bool := *;
        return Failed(if timedOut then TimedOut(e.revision) else NativeFailed);
      }
      Loaded(i0, e, Webview(navigation.url, None));
      t := Applied;
    }

    /** An existing webview is sent to the navigation if that is still current. */
    method SendTo(ghost i0: Intents, e: Effective, navigation: Navigation) returns (t: Turn)
      requires Consistent() && Since(i0) && Snapshot(i0, e) && Kept(i0)
      requires e.visibility != Closed && e.navigation == Some(navigation) && name in webviews && (quiet ==> right)
      requires Checked(acts)
      modifies this`webviews, this`slip, this`disturbed, this`acts, lifecycle`labels, lifecycle`scopeBarriers
      ensures Checked(acts)
      ensures (old(slip).Some? ==> slip == old(slip)) && Consistent() && Since(i0) && Kept(i0)
      ensures t == Applied ==> AtUrl(e) && Marked(i0)
      ensures t == Superseded ==> disturbed > since
      ensures t.Failed? ==> !reliable && t.error != MissingBounds && t.error != NotSettled
      ensures webviews - {name} == old(webviews) - {name}
    {
      hide Checked, Look, Desktop.Consistent, Desktop.Since, Desktop.Kept, Desktop.Marked, Desktop.Snapshot;
      var current := NavigationIsCurrent(i0, e, navigation.sequence);
      if !current {
        return Superseded;
      }
      var ok := NativeCall(Send(navigation.sequence));
      if !ok {
        return Failed(NativeFailed);
      }
      Loaded(i0, e, webviews[name].(url := navigation.url));
      t := Applied;
    }

    /** The webview was sent to the snapshot's navigation, which is marked as
        applied if it still is the label's. */
    method Loaded(ghost i0: Intents, e: Effective, webview: Webview)
      requires Consistent() && Since(i0) && Snapshot(i0, e) && Kept(i0)
      requires e.navigation.Some? && webview.url == e.navigation.value.url && (quiet ==> right)
      modifies this`webviews, this`slip, this`disturbed, lifecycle`labels, lifecycle`scopeBarriers
      ensures (old(slip).Some? ==> slip == old(slip)) && Consistent() && Since(i0) && Kept(i0) && Marked(i0)
      ensures webviews == old(webviews)[name := webview]
    {
      hide Checked, Slips, HasBounds, Ordered, Look, Moved, ReloadKept, NavigationMarked;
      LookHasLabel(lifecycle.order, i0, name);
      webviews := webviews[name := webview];
      if slip == None {
        SentIsLoaded(lifecycle.order, i0, lifecycle.View(), name, webviews);
      }
      InterfereSince(i0);
      MarkLoaded(i0, e);
    }

    method MarkLoaded(ghost i0: Intents, e: Effective)
      requires Consistent() && Since(i0) && Snapshot(i0, e) && Kept(i0)
      requires e.navigation.Some? && name in webviews && webviews[name].url == e.navigation.value.url
      requires quiet ==> right
      modifies lifecycle`labels
      ensures Consistent() && Since(i0) && Kept(i0) && Marked(i0)
    {
      LookHasLabel(lifecycle.order, i0, name);
      RevisionBounds(lifecycle.order, i0, name);
      ghost var i := lifecycle.View();
      lifecycle.MarkNavigationApplied(name, e.navigation.value.sequence);
      MarkingKeepsInvariants(i, lifecycle.View(), name);
      MarksDoNotShow(lifecycle.order, i, lifecycle.View(), name);
      if slip == None {
        MarkingMoves(lifecycle.order, i0, i, lifecycle.View(), name);
        SentIsLoaded(lifecycle.order, i0, lifecycle.View(), name, webviews);
      }
      hide Checked, Slips, HasBounds, Ordered, AppliedLoaded, Look, Moved;
    }

    /** Shows, moves or hides a webview, and takes effect only on success. */
    method Place(shown: Option<Rect>, ghost a: Act) returns (t: Turn)
      requires name in webviews && Checked(acts) && acts != [] && Allows(acts[|acts| - 1], a)
      modifies this`webviews, this`acts
      ensures Checked(acts) && acts == old(acts) + [a]
      ensures t == Applied || (t == Failed(NativeFailed) && !reliable)
      ensures webviews == if t == Applied then old(webviews)[name := old(webviews)[name].(shown := shown)]
                          else old(webviews)
    {
      var ok := NativeCall(a);
      if !ok {
        return Failed(NativeFailed);
      }
      webviews := webviews[name := webviews[name].(shown := shown)];
      t := Applied;
    }

    /** The branch of a label that has a navigation. */
    method ApplyNavigation(ghost i0: Intents, e: Effective) returns (t: Turn)
      requires Consistent() && Since(i0) && Snapshot(i0, e) && Kept(i0)
      requires e.visibility != Closed && e.navigation.Some?
      requires e.appliedNavigation == Some(e.navigation.value.sequence) ==>
        Marked(i0) && (name in webviews ==> AtUrl(e))
      requires WrongIsMarked(e) && Checked(acts)
      modifies this`webviews, this`slip, this`disturbed, this`acts
      modifies lifecycle`labels, lifecycle`scopeBarriers, lifecycle`eventTrackers
      ensures Checked(acts) && (name !in lifecycle.owners ==> t != Applied && webviews == old(webviews))
      ensures (old(slip).Some? ==> slip == old(slip)) && Consistent() && Since(i0)
      ensures t == Applied ==> (Fair() ==> Asked(webviews, name, e)) && Marked(i0) && Reloaded(i0)
      ensures t == Superseded ==> disturbed > since
      ensures t.Failed? ==> t.error != MissingBounds && t.error != NotSettled
      ensures t.Failed? ==> !reliable || name !in lifecycle.owners
      ensures webviews - {name} == old(webviews) - {name}
    {
      hide Checked, Look, Asked, HasBounds, Ordered, Desktop.Consistent, Desktop.Since, Desktop.Kept, Desktop.Marked,
        Desktop.Reloaded, Desktop.WrongIsMarked;
      LookHasBounds(lifecycle.order, i0, name);
      if e.bounds == None {
        return Failed(MissingBounds);
      }
      var current := NavigationIsCurrent(i0, e, e.navigation.value.sequence);
      if !current {
        return Superseded;
      }
      var tracker := lifecycle.EventTrackerForLabel(name);
      if tracker.Err? {
        return Failed(NoOwner);
      }
      t := LoadNavigation(i0, e, e.navigation.value);
      if t == Applied {
        t := Expose(i0, e);
      }
    }

    /** The intent is read again before the webview is shown. */
    method Expose(ghost i0: Intents, e: Effective) returns (t: Turn)
      requires Consistent() && Since(i0) && Snapshot(i0, e) && Kept(i0) && Marked(i0)
      requires e.visibility != Closed && e.navigation.Some? && e.bounds.Some?
      requires AtUrl(e) && Checked(acts)
      modifies this`webviews, this`slip, this`disturbed, this`acts, lifecycle`labels, lifecycle`scopeBarriers
      ensures Checked(acts)
      ensures (old(slip).Some? ==> slip == old(slip)) && Consistent() && Since(i0)
      ensures t == Applied ==> (Fair() ==> Asked(webviews, name, e)) && Marked(i0) && Reloaded(i0)
      ensures t == Superseded ==> disturbed > since
      ensures t.Failed? ==> !reliable && t.error != MissingBounds && t.error != NotSettled
      ensures webviews - {name} == old(webviews) - {name}
    {
      hide Checked, Look, Asked, Desktop.Consistent, Desktop.Since, Desktop.Kept, Desktop.Marked, Desktop.Reloaded,
        Desktop.Snapshot, Desktop.AtUrl;
      var latest := ReadAgain(i0, e);
      if latest == None || latest.value.revision != e.revision {
        return Superseded;
      }
      t := PlaceNavigation(i0, e);
      if t == Applied {
        t := ReloadOnce(i0, e);
      }
    }

    method PlaceNavigation(ghost i0: Intents, e: Effective) returns (t: Turn)
      requires Consistent() && Since(i0) && Snapshot(i0, e) && Kept(i0) && Marked(i0)
      requires e.visibility != Closed && e.navigation.Some? && e.bounds.Some? && AtUrl(e)
      requires Checked(acts) && acts != [] && Allows(acts[|acts| - 1], PlaceLoaded(e.revision))
      modifies this`webviews, this`slip, this`disturbed, this`acts, lifecycle`labels, lifecycle`scopeBarriers
      ensures Checked(acts) && acts == old(acts) + [PlaceLoaded(e.revision)]
      ensures (old(slip).Some? ==> slip == old(slip)) && Consistent() && Since(i0) && Kept(i0) && Marked(i0)
      ensures t == Applied ==> (Fair() ==> Asked(webviews, name, e))
      ensures t == Applied || (t == Failed(NativeFailed) && !reliable)
      ensures webviews - {name} == old(webviews) - {name}
    {
      hide Checked, Slips, HasBounds, Ordered, Moved, NavigationMarked, ReloadKept, ReloadDone, Look, Desktop.Since;
      InterfereSince(i0);
      t := Place(if e.visibility == Visible then Some(e.bounds.value.rect) else None, PlaceLoaded(e.revision));
    }

    method ReloadOnce(ghost i0: Intents, e: Effective) returns (t: Turn)
      requires Consistent() && Since(i0) && Snapshot(i0, e) && Kept(i0) && Marked(i0)
      requires Checked(acts) && acts != [] && acts[|acts| - 1].PlaceLoaded?
      modifies this`slip, this`disturbed, this`acts, lifecycle`labels, lifecycle`scopeBarriers
      ensures (old(slip).Some? ==> slip == old(slip)) && Consistent() && Since(i0)
      ensures t == Applied ==> Marked(i0) && Reloaded(i0)
      ensures t == Applied || (t == Failed(NativeFailed) && !reliable)
      ensures Checked(acts)
    {
      LookHasLabel(lifecycle.order, i0, name);
      hide Checked, Slips, HasBounds, Ordered, Moved, AppliedLoaded, Look;
      if e.reload.Some? && e.appliedReload != e.reload {
        var ok := NativeCall(ReloadPage);
        if !ok {
          return Failed(NativeFailed);
        }
        InterfereSince(i0);
        MarkReloaded(i0, e);
      }
      t := Applied;
    }

    method MarkReloaded(ghost i0: Intents, e: Effective)
      requires Consistent() && Since(i0) && Snapshot(i0, e) && Marked(i0) && e.reload.Some?
      modifies lifecycle`labels
      ensures Consistent() && Since(i0) && Marked(i0) && Reloaded(i0)
    {
      LookHasLabel(lifecycle.order, i0, name);
      ghost var i := lifecycle.View();
      lifecycle.MarkReloadApplied(name, e.reload.value);
      MarkingKeepsInvariants(i, lifecycle.View(), name);
      MarksDoNotShow(lifecycle.order, i, lifecycle.View(), name);
      if slip == None {
        MarkingMoves(lifecycle.order, i0, i, lifecycle.View(), name);
      }
      hide Checked, Slips, HasBounds, Ordered, Look, Moved;
    }

    /** The branch of a label without a navigation. */
    method ApplyBare(ghost i0: Intents, e: Effective) returns (t: Turn)
      requires Consistent() && Since(i0) && Snapshot(i0, e)
      requires e.visibility != Closed && e.navigation == None
      requires Checked(acts) && acts != [] && Allows(acts[|acts| - 1], PlaceBare)
      modifies this`webviews, this`slip, this`disturbed, this`acts, lifecycle`labels, lifecycle`scopeBarriers
      ensures Checked(acts)
      ensures (old(slip).Some? ==> slip == old(slip)) && Consistent() && Since(i0)
      ensures t == Applied ==> Asked(webviews, name, e)
      ensures t == Applied || (t == Failed(NativeFailed) && !reliable)
      ensures webviews - {name} == old(webviews) - {name}
    {
      LookHasLabel(lifecycle.order, i0, name);
      assert e.visibility == Visible ==> e.bounds.Some?;
      hide Checked, Slips, HasBounds, Ordered, AppliedLoaded, Moved, SameRevision, Look, Asked;
      InterfereSince(i0);
      ghost var before := webviews;
      t := PlaceUnloaded(e);
      PlacingKeepsMark(lifecycle.View(), name, before, webviews);
    }

    /** A webview that is there is shown or hidden; none is created. */
    method PlaceUnloaded(e: Effective) returns (t: Turn)
      requires e.visibility != Closed && e.navigation == None && (e.visibility == Visible ==> e.bounds.Some?)
      requires Checked(acts) && acts != [] && Allows(acts[|acts| - 1], PlaceBare)
      modifies this`webviews, this`acts
      ensures Checked(acts)
      ensures t == Applied ==> Asked(webviews, name, e)
      ensures t == Applied || (t == Failed(NativeFailed) && !reliable)
      ensures webviews - {name} == old(webviews) - {name} && (name in webviews <==> name in old(webviews))
      ensures name in webviews ==> webviews[name].url == old(webviews)[name].url
    {
      t := Applied;
      if name in webviews {
        if e.visibility == Hidden {
          t := Place(None, PlaceBare);
        } else if e.bounds.Some? {
          t := Place(Some(e.bounds.value.rect), PlaceBare);
        }
      }
    }

    // -------------------------------------------------------------------
    // A pass
    // -------------------------------------------------------------------

    ghost predicate IsSettled()
      reads this`webviews, lifecycle`labels, lifecycle`scopeBarriers
    {
      Settled(lifecycle.order, lifecycle.View(), name, webviews)
    }

    method ApplySnapshot(ghost i0: Intents, e: Effective) returns (t: Turn)
      requires Consistent() && Snapshot(i0, e) && i0 == lifecycle.View()
      requires Checked(acts) && acts != [] && acts[|acts| - 1] == TookSnapshot(Some(e))
      modifies this`webviews, this`slip, this`disturbed, this`acts
      modifies lifecycle`labels, lifecycle`scopeBarriers, lifecycle`eventTrackers
      ensures Checked(acts)
      ensures (old(slip).Some? ==> slip == old(slip)) && Consistent() && Since(i0)
      ensures t == Applied ==>
        && (Fair() || e.visibility == Closed ==> Asked(webviews, name, e))
        && (e.visibility != Closed && e.navigation.Some? ==> Marked(i0) && Reloaded(i0))
      ensures t == Superseded ==> disturbed > since
      ensures t.Failed? ==> t.error != MissingBounds && t.error != NotSettled
      ensures t.Failed? ==> !reliable || name !in lifecycle.owners
      ensures webviews - {name} == old(webviews) - {name}
    {
      LookHasLabel(lifecycle.order, i0, name);
      NothingMoved(lifecycle.order, i0, name);
      hide Checked, Slips, HasBounds, Ordered, Moved, NavigationMarked, ReloadKept, ReloadDone, Look;
      if e.visibility == Closed {
        t := ApplyClosed(i0);
      } else if e.navigation.Some? {
        t := ApplyNavigation(i0, e);
      } else {
        t := ApplyBare(i0, e);
      }
    }

    /** One turn of the loop; no outcome means another turn. */
    method OneTurn() returns (outcome: Option<Result<(), ReconcileError>>)
      requires Consistent() && Checked(acts)
      modifies this`webviews, this`slip, this`disturbed, this`since, this`turns, this`acts
      modifies lifecycle`labels, lifecycle`scopeBarriers, lifecycle`eventTrackers
      ensures Checked(acts)
      ensures (old(slip).Some? ==> slip == old(slip)) && Consistent()
      ensures outcome.Some? && outcome.value.Ok? && Fair() ==> IsSettled()
      ensures quiet && outcome.Some? && outcome.value.Ok? ==> (IsSettled() <==> right || !IsOpen())
      ensures quiet ==> Undisturbed(old(lifecycle.View()))
      ensures turns == old(turns) + 1 && disturbed >= old(disturbed)
      ensures outcome == None ==> disturbed > old(disturbed)
      ensures outcome.Some? && outcome.value.Err? ==>
        outcome.value.error != MissingBounds && outcome.value.error != NotSettled
        && (!reliable || name !in lifecycle.owners)
      ensures webviews - {name} == old(webviews) - {name}
    {
      hide Checked, Asked, Look, Moved, SameRevision, Desktop.Marked, Desktop.Reloaded, Desktop.Snapshot, Desktop.Fair,
        Desktop.IsSettled, Desktop.IsOpen, Desktop.Invariants, Desktop.MarkIsRight, Desktop.SlipIsReal;
      var snapshot := TakeSnapshot();
      if snapshot == None {
        return Some(Ok(()));
      }
      ghost var i0 := lifecycle.View();
      var t := ApplySnapshot(i0, snapshot.value);
      match t
      case Superseded => outcome := None;
      case Failed(error) => outcome := Some(Err(error));
      case Applied =>
        var settled := Settle(i0, snapshot.value);
        outcome := if settled then Some(Ok(())) else None;
    }

    /** The look that a turn starts with; an unknown label is asked nothing. */
    method TakeSnapshot() returns (snapshot: Option<Effective>)
      requires Consistent() && Checked(acts)
      modifies this`slip, this`disturbed, this`since, this`turns, this`acts, lifecycle`labels, lifecycle`scopeBarriers
      ensures Checked(acts) && acts != [] && acts[|acts| - 1] == TookSnapshot(snapshot)
      ensures (old(slip).Some? ==> slip == old(slip)) && Consistent()
      ensures turns == old(turns) + 1 && disturbed == since >= old(disturbed)
      ensures quiet ==> Undisturbed(old(lifecycle.View()))
      ensures snapshot.Some? ==> Snapshot(lifecycle.View(), snapshot.value)
      ensures snapshot == None ==> IsSettled() && !IsOpen()
    {
      turns := turns + 1;
      Interfere();
      since := disturbed;
      snapshot := lifecycle.EffectiveBrowserIntent(name);
      Note(TookSnapshot(snapshot));
      hide Checked, Slips, HasBounds, Ordered, AppliedLoaded, Asked;
    }

    /** The last look: the same revision means that the same is wanted. */
    method Settle(ghost i0: Intents, e: Effective) returns (settled: bool)
      requires Consistent() && Since(i0) && Snapshot(i0, e)
      requires Fair() || e.visibility == Closed ==> Asked(webviews, name, e)
      requires e.visibility != Closed && e.navigation.Some? ==> Marked(i0) && Reloaded(i0)
      requires Checked(acts)
      modifies this`slip, this`disturbed, this`acts, lifecycle`labels, lifecycle`scopeBarriers
      ensures (old(slip).Some? ==> slip == old(slip)) && Consistent() && Since(i0)
      ensures settled && Fair() ==> IsSettled()
      ensures quiet && settled ==> (IsSettled() <==> right || !IsOpen())
      ensures disturbed == since ==> settled
      ensures Checked(acts)
    {
      InterfereSince(i0);
      var now := ReadAgain(i0, e);
      settled := now.Some? && now.value.revision == e.revision;
      if quiet && !right && IsOpen() {
        WrongIsNotSettled(lifecycle.order, lifecycle.View(), name, webviews);
      } else if settled && slip == None {
        LookHasLabel(lifecycle.order, i0, name);
        LookHasLabel(lifecycle.order, lifecycle.View(), name);
        if right || e.visibility == Closed {
          SameWantedSameAsk(webviews, name, e, now.value);
        }
      }
      hide Checked, Slips, HasBounds, Ordered, AppliedLoaded, Look, Asked;
    }

    /** A pass over one label, whatever commands arrive in whatever order. If the
        mark was right and no command slips past the revisions that the pass
        compares, it returns only from a settled webview. In a quiet pass the
        former is needed, too, unless the label is closed. */
    method ReconcileBrowser() returns (r: Result<(), ReconcileError>)
      requires Invariants()
      modifies this`webviews, this`right, this`slip, this`disturbed, this`since, this`turns, this`acts
      modifies lifecycle`labels, lifecycle`scopeBarriers, lifecycle`eventTrackers, lifecycle`workerLocks
      ensures Invariants() && right == old(MarkIsRight()) && (quiet ==> slip == None) && SlipIsReal()
      ensures r.Ok? && right && slip == None ==> IsSettled()
      ensures quiet && r.Ok? ==> (IsSettled() <==> right || !IsOpen())
      ensures quiet ==> Undisturbed(old(lifecycle.View()))
      ensures r != Err(MissingBounds)
      ensures Checked(acts) && (quiet ==> disturbed == 0)
      ensures turns <= 16 && (r == Err(NotSettled) ==> turns == 16 && disturbed >= 16)
      ensures reliable && name in lifecycle.owners && disturbed < 16 ==> r.Ok?
      ensures name !in lifecycle.owners ==> r == Err(NoOwner) && turns == 0 && acts == []
      ensures webviews - {name} == old(webviews) - {name}
    {
      StartPass();
      hide Checked, Look, Asked, Desktop.Consistent, Desktop.Undisturbed, Desktop.IsSettled, Desktop.IsOpen,
        Desktop.SlipIsReal, Desktop.Fair, Desktop.MarkIsRight, Desktop.Invariants;
      var lock := lifecycle.WorkerLockForLabel(name);
      if lock.Err? {
        return Err(NoOwner);
      }
      r := Turns();
    }

    ghost method StartPass()
      requires Invariants()
      modifies this`right, this`slip, this`disturbed, this`since, this`turns, this`acts
      ensures Consistent() && SlipIsReal() && Checked(acts) && Undisturbed(lifecycle.View())
      ensures right == old(MarkIsRight()) && slip == None && disturbed == turns == 0 && acts == []
    {
      right, slip, disturbed, since, turns, acts := MarkIsRight(), None, 0, 0, 0, [];
      hide Look, HasBounds, Ordered, AppliedLoaded;
    }

    /** The loop of a pass. */
    method Turns() returns (r: Result<(), ReconcileError>)
      requires Consistent() && turns == 0 && disturbed == 0 && Checked(acts)
      modifies this`webviews, this`slip, this`disturbed, this`since, this`turns, this`acts
      modifies lifecycle`labels, lifecycle`scopeBarriers, lifecycle`eventTrackers
      ensures Consistent() && Checked(acts) && Invariants() && SlipIsReal()
      ensures quiet ==> slip == None && disturbed == 0
      ensures r.Ok? && right && slip == None ==> IsSettled()
      ensures quiet && r.Ok? ==> (IsSettled() <==> right || !IsOpen())
      ensures quiet ==> Undisturbed(old(lifecycle.View()))
      ensures r != Err(MissingBounds)
      ensures turns <= 16 && (r == Err(NotSettled) ==> turns == 16 && disturbed >= 16)
      ensures r.Err? ==> r == Err(NotSettled) || !reliable || name !in lifecycle.owners
      ensures webviews - {name} == old(webviews) - {name}
    {
      assert Undisturbed(lifecycle.View());
      hide Checked, Slips, HasBounds, Ordered, AppliedLoaded, Look, Asked, Settled;
      for turn := 0 to 16
        invariant Consistent()
        invariant turns == turn <= disturbed && Checked(acts)
        invariant quiet ==> Undisturbed(old(lifecycle.View()))
        invariant webviews - {name} == old(webviews) - {name}
      {
        var outcome := OneTurn();
        if outcome.Some? {
          return outcome.value;
        }
      }
      r := Err(NotSettled);
    }

    /** A quiet pass after any commands, recorded in any order: the webview ends up
        as the label's intent asks after all of them exactly if they left the mark
        right, or closed the label. */
    method ReconcileAfter(cs: seq<Command>) returns (r: Result<(), ReconcileError>)
      requires Invariants() && quiet
      modifies this`webviews, this`right, this`slip, this`disturbed, this`since, this`turns, this`acts
      modifies lifecycle`labels, lifecycle`scopeBarriers, lifecycle`eventTrackers, lifecycle`workerLocks
      ensures Invariants() && Undisturbed(Run(old(lifecycle.View()), cs))
      ensures r.Ok? ==>
        (IsSettled() <==> AppliedLoaded(Run(old(lifecycle.View()), cs), name, old(webviews)) || !IsOpen())
      ensures reliable && name in lifecycle.owners ==> r.Ok?
      ensures webviews - {name} == old(webviews) - {name}
    {
      AnyOrderKeepsInvariants(lifecycle.View(), cs, name);
      hide Slips, Run, HasBounds, Ordered, AppliedLoaded;
      var j := Run(Intents(lifecycle.labels, lifecycle.scopeBarriers), cs);
      lifecycle.labels, lifecycle.scopeBarriers := j.labels, j.barriers;
      r := ReconcileBrowser();
    }
  }

  lemma LookHasBounds(order: KeyOrder, i: Intents, name: string)
    requires name in i.labels && HasBounds(i, name)
    ensures var e := Look(order, i, name); e.visibility != Closed && e.navigation.Some? ==> e.bounds.Some?
  {
    LookHasLabel(order, i, name);
  }

  lemma NoWebviewNoWrongMark(i: Intents, name: string, webviews: map<string, Webview>)
    requires name !in webviews
    ensures AppliedLoaded(i, name, webviews)
  {
  }

  lemma PlacingKeepsMark(i: Intents, name: string, v: map<string, Webview>, webviews: map<string, Webview>)
    requires (name in webviews <==> name in v) && (name in v ==> webviews[name].url == v[name].url)
    ensures AppliedLoaded(i, name, v) <==> AppliedLoaded(i, name, webviews)
  {
  }

  /** A mark speaks only of the URL. */
  lemma ShowingKeepsMark(i: Intents, name: string, v: map<string, Webview>, webviews: map<string, Webview>)
    requires name in v && (name in webviews ==> webviews[name].url == v[name].url)
    ensures AppliedLoaded(i, name, v) ==> AppliedLoaded(i, name, webviews)
  {
  }

  lemma NothingDrifts(order: KeyOrder, i: Intents, name: string)
    ensures Drifts(order, i, i, name)
  {
  }
}
