/** Everything that acts on one label at once: commands with their two lock
  sections, the wakeup flags, and the worker's passes. Which recorded command
  the worker can miss, and what the webview is once all have come to rest. */
module BrowserConvergence {
  import opened Wrappers
  import opened BrowserLabels
  import opened BrowserIntents
  import opened BrowserPasses
  import opened BrowserRequests
  import Flags = BrowserWakeup

  // ---------------------------------------------------------------------
  // Which commands the worker can miss
  // ---------------------------------------------------------------------

  /** Whether a recorded command asks for a pass over the label: a scope command
      only for the labels that it collected before. */
  predicate Schedules(i: Intents, c: Command, name: string) {
    if c.Scope? then Recorded(i, c) && name in c.existing else c.name == name && Accepted(i, c)
  }

  predicate Misses(order: KeyOrder, i: Intents, c: Command, name: string) {
    WantedIn(order, Apply(i, c), name) != WantedIn(order, i, name) && !Schedules(i, c, name)
  }

  /** Bounds and reloads of a closed label are recorded without a pass, and
      none is needed. */
  lemma LabelCommandsMissNothing(order: KeyOrder, i: Intents, c: Command, name: string)
    requires !c.Scope?
    ensures !Misses(order, i, c, name)
  {
    hide NewestOf;
  }

  function VisibilityIn(order: KeyOrder, i: Intents, name: string): Visibility
    requires name in i.labels
  {
    Look(order, i, name).visibility
  }

  /** The new barrier is above everything that decided the label's visibility. */
  ghost predicate Outranks(i: Intents, c: Command, name: string)
    requires c.Scope? && name in i.labels
  {
    && OnTop(i, c, name)
    && (i.labels[name].visibility.Some? ==> i.labels[name].visibility.value.sequence < c.sequence)
    && 0 < c.sequence
  }

  /** A scope command misses a label that it did not collect in two cases: the
      label is in its scope and takes another visibility from the new barrier,
      or it is exempt and takes another one because the older barrier under the
      same prefix is gone. */
  lemma ScopeMissesExactly(order: KeyOrder, i: Intents, c: Command, name: string)
    requires c.Scope? && name in i.labels && name !in c.existing
    requires DistinctFrom(i, c, name)
    ensures Misses(order, i, c, name) <==>
            && Recorded(i, c)
            && (if InScope(name, c.prefix, c.except)
                then Outranks(i, c, name) && VisibilityOf(c.action) != VisibilityIn(order, i, name)
                else Covers(i, c.prefix, name)
                     && VisibilityIn(order, Lifted(i, c.prefix), name) != VisibilityIn(order, i, name))
  {
    if Recorded(i, c) {
      UncollectedKeepsIntent(order, i, c, name);
      if InScope(name, c.prefix, c.except) {
        NewBarrierDecides(order, i, c, name);
      } else {
        ExemptSeesLifted(order, i, c, name);
      }
    }
    hide Look, WantedIn;
  }

  lemma UncollectedKeepsIntent(order: KeyOrder, i: Intents, c: Command, name: string)
    requires c.Scope? && Recorded(i, c) && name in i.labels && name !in c.existing
    ensures var j := Apply(i, c);
            && name in j.labels && j.labels[name] == i.labels[name] && !Schedules(i, c, name)
            && j.barriers == i.barriers[c.prefix := ScopeBarrier(c.sequence, c.action, c.except)]
            && (Misses(order, i, c, name) <==> VisibilityIn(order, j, name) != VisibilityIn(order, i, name))
  {
    hide NewestOf;
  }

  lemma NewBarrierDecides(order: KeyOrder, i: Intents, c: Command, name: string)
    requires c.Scope? && Recorded(i, c) && name in i.labels && name !in c.existing
    requires DistinctFrom(i, c, name) && InScope(name, c.prefix, c.except)
    ensures var j := Apply(i, c);
            name in j.labels
            && VisibilityIn(order, j, name)
               == if Outranks(i, c, name) then VisibilityOf(c.action) else VisibilityIn(order, i, name)
  {
    UncollectedKeepsIntent(order, i, c, name);
    NewestAfterScope(order, i, c, name);
    NewestOfIsLatest(order, i, name);
    NewestIsOnTop(i, c, name, NewestOf(order(i.barriers), i.barriers, name));
    hide Apply, Misses, NewestOf, IsLatestBarrier, DistinctBarriers;
  }

  // ---------------------------------------------------------------------
  // The machine
  // ---------------------------------------------------------------------

  /** A scope command between its two lock sections. */
  datatype Ticket = Ticket(prefix: string, except: Option<string>, existing: seq<string>)

  /** `unscheduled` counts the commands that were accepted and have not called
      the scheduler yet. `pass` is the pass that is running; `succeeded` is the
      outcome of the newest one that returned, and `untouched` says that nothing
      else has been wanted of the label since the newest one started. */
  datatype World = World(
    flags: Flags.Wakeup,
    site: Site,
    tickets: set<Ticket>,
    unscheduled: nat,
    pass: Option<Pass>,
    succeeded: bool,
    untouched: bool)

  datatype Act =
    | Collect(ticket: Ticket)              // a scope command lists the labels it may apply to
    | Record(c: Command)                   // a command is recorded under the lock
    | Schedule                             // ... and sets the dirty flag
    | Wake(e: Flags.Event)                 // any other operation on the flags
    | Work                                 // the next step of the pass
    | Fault                                // the same step, with an error
    | Elsewhere(webviews: map<string, Webview>)

  ghost predicate Begins(w: World) {
    && w.flags == Flags.IDLE && w.site.intents == NO_INTENTS && w.tickets == {} && w.unscheduled == 0
    && w.pass == None && w.succeeded && w.untouched
  }

  ghost predicate CanAct(name: string, w: World, a: Act) {
    match a
    case Collect(t) =>
      forall n :: n in t.existing
                  <==> n in w.site.webviews.Keys + w.site.intents.labels.Keys && InScope(n, t.prefix, t.except)
    case Record(c) => c.Scope? ==> Ticket(c.prefix, c.except, c.existing) in w.tickets
    case Schedule => w.unscheduled > 0
    case Wake(e) =>
      && Flags.Enabled(w.flags, e) && !e.SetDirty?
      && (e.End? ==> w.pass == None && (e.timedOut.Some? ==> !w.succeeded))
    case Work => w.pass.Some?
    case Fault => w.pass.Some?
    // Other labels' webviews come and go at any time.
    case Elsewhere(webviews) => SameAt(w.site.webviews, webviews, name)
  }

  predicate SameAt(v: map<string, Webview>, webviews: map<string, Webview>, name: string) {
    (name in webviews <==> name in v) && (name in webviews ==> webviews[name] == v[name])
  }

  function Next(order: KeyOrder, name: string, w: World, a: Act): World
    requires CanAct(name, w, a)
  {
    match a
    case Collect(t) => w.(tickets := w.tickets + {t})
    case Record(c) =>
      var i, j := w.site.intents, Apply(w.site.intents, c);
      w.(site := w.site.(intents := j),
         unscheduled := w.unscheduled + if Schedules(i, c, name) then 1 else 0,
         untouched := w.untouched && WantedIn(order, j, name) == WantedIn(order, i, name))
    case Schedule => w.(flags := Flags.After(w.flags, Flags.SetDirty), unscheduled := w.unscheduled - 1)
    case Wake(e) =>
      var t := w.(flags := Flags.After(w.flags, e));
      if e.Start? then t.(pass := Some(Pass(0, Looking)), untouched := true) else t
    case Work =>
      var (site, outcome) := Step(order, name, w.site, w.pass.value);
      var t := w.(site := site, pass := Continues(outcome));
      if outcome.Returned? then t.(succeeded := outcome.ok) else t
    case Fault => w.(site := Failed(name, w.site, w.pass.value), pass := None, succeeded := false)
    case Elsewhere(webviews) => w.(site := w.site.(webviews := webviews))
  }

  ghost predicate IsHistory(order: KeyOrder, name: string, worlds: seq<World>, acts: seq<Act>) {
    && |worlds| == |acts| + 1
    && Begins(worlds[0])
    && (forall k | 0 <= k < |acts| ::
          CanAct(name, worlds[k], acts[k]) && worlds[k + 1] == Next(order, name, worlds[k], acts[k]))
  }

  // ---------------------------------------------------------------------
  // Convergence
  // ---------------------------------------------------------------------

  /** A retiring worker takes the dirty flag of a newer request away, or a
      recorded command changes what is wanted without asking for a pass. */
  ghost predicate Loses(order: KeyOrder, name: string, w: World, a: Act) {
    (a.Wake? && Flags.Steals(w.flags, a.e)) || (a.Record? && Misses(order, w.site.intents, a.c, name))
  }

  /** A navigation uses a sequence again for another URL. */
  predicate Confuses(name: string, w: World, a: Act) {
    a.Record? && Repeats(name, w.site, w.pass, a.c)
  }

  ghost predicate Served(w: World) {
    w.flags.seen == w.flags.requests && w.unscheduled == 0
  }

  ghost predicate Good(order: KeyOrder, name: string, w: World) {
    && Flags.OneOwner(w.flags) && Flags.Due(w.flags)
    && (Served(w) ==> w.untouched)
    && (w.pass.Some? ==> Flags.At(w.flags, Flags.EndReconcile))
    && Sound(name, w.site, w.pass)
    && (w.untouched ==> Following(order, name, w))
  }

  /** The pass works on what is wanted, or has left the webview that way. */
  ghost predicate Following(order: KeyOrder, name: string, w: World) {
    match w.pass
    case Some(p) => Fresh(order, w.site.intents, name, p.phase)
    case None => w.succeeded ==> Settled(order, w.site.intents, name, w.site.webviews)
  }

  lemma ActKeepsGood(order: KeyOrder, name: string, w: World, a: Act)
    requires Good(order, name, w) && CanAct(name, w, a)
    requires !Loses(order, name, w, a) && !Confuses(name, w, a)
    ensures Good(order, name, Next(order, name, w, a))
  {
    match a
    case Collect(_) =>
    case Record(_) => RecordKeepsGood(order, name, w, a);
    case Schedule =>
      Flags.EveryStepKeepsOneOwner(w.flags, Flags.SetDirty);
      Flags.OnlyStealsLose(w.flags, Flags.SetDirty);
      SchedulingKeepsAt(w.flags);
    case Wake(e) => WakeKeepsGood(order, name, w, e);
    case Work => WorkKeepsGood(order, name, w);
    case Fault => FaultKeepsSound(name, w.site, w.pass.value);
    case Elsewhere(webviews) => ElsewhereKeepsGood(order, name, w, webviews);
    hide Settled, Sound, Fresh, Flags.OneOwner, Flags.Due, Flags.At, Flags.Steals, Misses, Repeats;
  }

  lemma RecordKeepsGood(order: KeyOrder, name: string, w: World, a: Act)
    requires Good(order, name, w) && CanAct(name, w, a) && a.Record?
    requires !Loses(order, name, w, a) && !Confuses(name, w, a)
    ensures Good(order, name, Next(order, name, w, a))
  {
    var i, j := w.site.intents, Apply(w.site.intents, a.c);
    CommandKeepsSound(name, w.site, w.pass, a.c);
    if w.untouched && WantedIn(order, i, name) == WantedIn(order, j, name) {
      if w.pass.Some? {
        CommandKeepsFresh(order, name, i, a.c, w.pass.value.phase);
      } else if w.succeeded {
        StaysSettled(order, i, a.c, name, w.site.webviews);
      }
    }
    hide Settled, Fresh, Sound, WantedIn, Flags.OneOwner, Flags.Due, Flags.At, Apply, Repeats, Schedules;
  }

  lemma SchedulingKeepsAt(flags: Flags.Wakeup)
    ensures Flags.At(flags, Flags.EndReconcile) ==> Flags.At(Flags.After(flags, Flags.SetDirty), Flags.EndReconcile)
  {
  }

  lemma WakeKeepsGood(order: KeyOrder, name: string, w: World, e: Flags.Event)
    requires Good(order, name, w) && CanAct(name, w, Wake(e)) && !Flags.Steals(w.flags, e)
    ensures Good(order, name, Next(order, name, w, Wake(e)))
  {
    Flags.EveryStepKeepsOneOwner(w.flags, e);
    Flags.OnlyStealsLose(w.flags, e);
    PassGoesOn(w.flags, e, w.pass.Some?);
    PassBegins(name, w.site, w.pass);
    hide Settled, Sound, Flags.OneOwner, Flags.Due, Flags.At, Flags.Steals;
  }

  /** Only its end takes a worker out of a pass, and only a start into one. */
  lemma PassGoesOn(flags: Flags.Wakeup, e: Flags.Event, open: bool)
    requires Flags.Enabled(flags, e) && (open ==> Flags.At(flags, Flags.EndReconcile) && !e.End?)
    ensures open || e.Start? ==> Flags.At(Flags.After(flags, e), Flags.EndReconcile)
    ensures var t := Flags.After(flags, e);
            && (!e.SetDirty? ==> t.requests == flags.requests)
            && t.seen == if e.Start? then flags.requests else flags.seen
  {
    var t := Flags.After(flags, e);
    if e.Start? {
      assert t.workers[e.w] == Flags.EndReconcile;
    } else if open {
      var v :| v in flags.workers && flags.workers[v] == Flags.EndReconcile;
      assert v in t.workers && t.workers[v] == Flags.EndReconcile;
    }
  }

  lemma PassBegins(name: string, s: Site, p: Option<Pass>)
    requires Sound(name, s, p)
    ensures Sound(name, s, Some(Pass(0, Looking)))
  {
  }

  lemma WorkKeepsGood(order: KeyOrder, name: string, w: World)
    requires Good(order, name, w) && w.pass.Some?
    ensures Good(order, name, Next(order, name, w, Work))
  {
    StepKeepsSound(order, name, w.site, w.pass.value);
    if w.untouched {
      StepKeepsFresh(order, name, w.site, w.pass.value);
    }
    hide Settled, Sound, Fresh, Step, Flags.OneOwner, Flags.Due, Flags.At;
  }

  lemma FaultKeepsSound(name: string, s: Site, p: Pass)
    requires Sound(name, s, Some(p))
    ensures Sound(name, Failed(name, s, p), None)
  {
  }

  lemma ElsewhereKeepsGood(order: KeyOrder, name: string, w: World, webviews: map<string, Webview>)
    requires Good(order, name, w) && CanAct(name, w, Elsewhere(webviews))
    ensures Good(order, name, Next(order, name, w, Elsewhere(webviews)))
  {
    hide Look, HasBounds, Ordered, Flags.OneOwner, Flags.Due, Flags.At;
  }

  lemma {:induction false} HistoryIsGood(order: KeyOrder, name: string, worlds: seq<World>, acts: seq<Act>)
    requires IsHistory(order, name, worlds, acts)
    requires forall k | 0 <= k < |acts| ::
      !Loses(order, name, worlds[k], acts[k]) && !Confuses(name, worlds[k], acts[k])
    ensures Good(order, name, worlds[|acts|])
    decreases |acts|
  {
    if acts != [] {
      var n := |acts| - 1;
      HistoryIsGood(order, name, worlds[..n + 1], acts[..n]);
      ActKeepsGood(order, name, worlds[n], acts[n]);
    }
    hide CanAct, Next, Loses, Confuses;
  }

  /** No thread is between two of its operations, and none is left. */
  ghost predicate AtRest(w: World) {
    Flags.Quiescent(w.flags) && w.unscheduled == 0
  }

  /** Commands, schedulers, workers and the steps of their passes in any
      interleaving, with or without errors: unless a request was stolen, a command
      missed the label or a sequence was used for two URLs, at rest the newest pass
      worked on all that is wanted now, and if it succeeded the webview is settled:
      as the newest intent asks, with its navigation and reload done. */
  lemma ConvergesAtRest(order: KeyOrder, name: string, worlds: seq<World>, acts: seq<Act>)
    requires IsHistory(order, name, worlds, acts) && AtRest(worlds[|acts|])
    requires forall k | 0 <= k < |acts| ::
      !Loses(order, name, worlds[k], acts[k]) && !Confuses(name, worlds[k], acts[k])
    ensures var w := worlds[|acts|];
            && w.untouched && w.pass == None
            && (w.succeeded ==> Settled(order, w.site.intents, name, w.site.webviews))
  {
    HistoryIsGood(order, name, worlds, acts);
  }

  /** With the last operations of a worker as one step nothing is stolen. */
  lemma AtomicRetirementConverges(order: KeyOrder, name: string, worlds: seq<World>, acts: seq<Act>)
    requires IsHistory(order, name, worlds, acts) && AtRest(worlds[|acts|])
    requires forall k | 0 <= k < |acts| :: acts[k].Wake? ==> !acts[k].e.Release?
    requires forall k | 0 <= k < |acts| :: acts[k].Record? ==> !Misses(order, worlds[k].site.intents, acts[k].c, name)
    requires forall k | 0 <= k < |acts| :: !Confuses(name, worlds[k], acts[k])
    ensures var w := worlds[|acts|];
            && w.untouched && w.pass == None
            && (w.succeeded ==> Settled(order, w.site.intents, name, w.site.webviews))
  {
    forall k | 0 <= k < |acts|
      ensures !Loses(order, name, worlds[k], acts[k])
    {
      NobodyLeaves(order, name, worlds[..k + 1], acts[..k]);
    }
    ConvergesAtRest(order, name, worlds, acts);
  }

  lemma {:induction false} NobodyLeaves(order: KeyOrder, name: string, worlds: seq<World>, acts: seq<Act>)
    requires IsHistory(order, name, worlds, acts)
    requires forall k | 0 <= k < |acts| :: acts[k].Wake? ==> !acts[k].e.Release?
    ensures !Flags.At(worlds[|acts|].flags, Flags.SwapDirty) && !Flags.At(worlds[|acts|].flags, Flags.SwapRunning)
    decreases |acts|
  {
    hide Step, Apply, Schedules, WantedIn;
    if acts != [] {
      var n := |acts| - 1;
      NobodyLeaves(order, name, worlds[..n + 1], acts[..n]);
      var flags, a := worlds[n].flags, acts[n];
      if a.Wake? {
        Flags.NobodyStartsLeaving(flags, a.e);
      } else if a.Schedule? {
        Flags.NobodyStartsLeaving(flags, Flags.SetDirty);
      }
    }
  }
}
