/** The shared browser state behind the lifecycle lock, each method one
  section under that lock. */
module BrowserLifecycles {
  import opened Wrappers
  import opened BrowserLabels
  import opened BrowserIntents

  datatype Owner = Owner(window: string, client: string)

  function MapOutside<T>(m: map<string, T>, prefix: string): map<string, T> {
    map n | n in m && !StartsWith(n, prefix) :: m[n]
  }

  function SetOutside(s: set<string>, prefix: string): set<string> {
    set n | n in s && !StartsWith(n, prefix)
  }

  lemma TargetsNext(existing: seq<string>, k: nat, prefix: string, except: Option<string>)
    requires k < |existing|
    ensures Targets(existing[..k + 1], prefix, except)
         == Targets(existing[..k], prefix, except)
            + (if InScope(existing[k], prefix, except) then {existing[k]} else {})
  {
    assert existing[..k + 1] == existing[..k] + [existing[k]];
  }

  /** Applying a scope command to one more label, perhaps again. */
  lemma ScopeNext(labels: map<string, LabelIntent>, targets: set<string>, name: string, sequence: nat,
                  action: ScopeAction)
    ensures var done := ScopedLabels(labels, targets, sequence, action);
            var l := if name in done then done[name] else DEFAULT_INTENT;
            && (sequence < l.latest ==> name in done)
            && ScopedLabels(labels, targets + {name}, sequence, action) == done[name := Scoped(l, sequence, action)]
  {
  }

  class BrowserLifecycle {
    var labels: map<string, LabelIntent>
    var scopeBarriers: map<string, ScopeBarrier>
    // How the barriers are iterated over.
    const order: KeyOrder
    // The labels that have a worker lock, a worker signal, an event tracker.
    var workerLocks: set<string>
    var workerSignals: set<string>
    var eventTrackers: set<string>
    var owners: map<string, Owner>
    var retired: set<string>

    constructor (order: KeyOrder)
      ensures View() == NO_INTENTS && Clean() && retired == {} && this.order == order
    {
      this.order := order;
      labels, scopeBarriers, owners := map[], map[], map[];
      workerLocks, workerSignals, eventTrackers, retired := {}, {}, {}, {};
    }

    ghost function View(): Intents
      reads this`labels, this`scopeBarriers
    {
      Intents(labels, scopeBarriers)
    }

    // -------------------------------------------------------------------
    // Reading
    // -------------------------------------------------------------------

    method LatestScopeBarrier(name: string) returns (found: Option<ScopeBarrier>)
      ensures IsLatestBarrier(View(), name, found)
      ensures found == NewestOf(order(scopeBarriers), scopeBarriers, name)
    {
      found := None;
      var keys := order(scopeBarriers);
      assert ListsKeys(keys, scopeBarriers);
      for k := 0 to |keys|
        invariant found == NewestOf(keys[..k], scopeBarriers, name)
      {
        assert keys[..k + 1][..k] == keys[..k] && keys[k] in keys;
        var barrier := scopeBarriers[keys[k]];
        if InScope(name, keys[k], barrier.except) && (found == None || found.value.sequence <= barrier.sequence) {
          found := Some(barrier);
        }
      }
      assert keys[..|keys|] == keys;
      NewestOfIsLatest(order, View(), name);
    }

    method CommandSequenceIsCurrent(name: string, sequence: nat) returns (current: bool)
      ensures current <==> SequenceIsCurrent(View(), name, sequence)
    {
      var barrier := LatestScopeBarrier(name);
      if barrier.Some? && sequence < barrier.value.sequence {
        return false;
      }
      current := name in labels ==> sequence >= labels[name].latest;
    }

    method EffectiveBrowserIntent(name: string) returns (e: Option<Effective>)
      ensures IsEffective(View(), name, e) && e == EffectiveIn(order, View(), name)
    {
      if name !in labels {
        return None;
      }
      var barrier := LatestScopeBarrier(name);
      e := Some(Combine(labels[name], barrier));
    }

    // -------------------------------------------------------------------
    // Recording
    // -------------------------------------------------------------------

    /** Recording a label that has an owner. */
    twostate lemma OwnedLabelKeepsClean(name: string)
      requires unchanged(`scopeBarriers) && unchanged(`workerLocks) && unchanged(`workerSignals)
      requires unchanged(`eventTrackers) && unchanged(`owners) && unchanged(`retired)
      requires labels.Keys <= old(labels.Keys) + {name}
      ensures old(Clean()) && name in owners ==> Clean()
    {
      if old(Clean()) && name in owners {
        forall n | n in Names()
          ensures UnderLiveWindow(n)
        {
          assert n in old(Names()) && old(UnderLiveWindow(n));
        }
      }
    }

    method RecordNavigationIntent(name: string, sequence: nat, url: string, readOnlyUrl: Option<string>, rect: Rect)
      returns (changed: bool)
      modifies this`labels
      ensures var c := NavigateTo(name, sequence, url, readOnlyUrl, rect);
              View() == Apply(old(View()), c) && changed == Accepted(old(View()), c)
      ensures old(Clean()) && name in owners ==> Clean()
    {
      hide Clean;
      changed := CommandSequenceIsCurrent(name, sequence);
      if !changed {
        return;
      }
      var intent := if name in labels then labels[name] else DEFAULT_INTENT;
      intent := intent.(latest := sequence);
      intent := intent.(navigation := Some(Navigation(sequence, url, readOnlyUrl)));
      intent := intent.(bounds := Some(Bounds(sequence, rect)));
      intent := intent.(visibility := Some(VisibilityIntent(sequence, Visible)));
      labels := labels[name := intent];
      OwnedLabelKeepsClean(name);
    }

    method RecordBoundsIntent(name: string, sequence: nat, rect: Rect) returns (changed: bool)
      modifies this`labels
      ensures var c := SetBounds(name, sequence, rect);
              View() == Apply(old(View()), c) && changed == Accepted(old(View()), c)
      ensures old(Clean()) && name in owners ==> Clean()
    {
      hide Clean;
      changed := CommandSequenceIsCurrent(name, sequence);
      if !changed {
        return;
      }
      var intent := if name in labels then labels[name] else DEFAULT_INTENT;
      intent := intent.(latest := sequence, bounds := Some(Bounds(sequence, rect)));
      changed := !(intent.visibility.Some? && intent.visibility.value.value == Closed);
      if changed {
        intent := intent.(visibility := Some(VisibilityIntent(sequence, Visible)));
      }
      labels := labels[name := intent];
      OwnedLabelKeepsClean(name);
    }

    /** The commands only ever ask for hidden or closed. */
    method RecordVisibilityIntent(name: string, sequence: nat, value: Visibility) returns (changed: bool)
      modifies this`labels
      ensures changed == SequenceIsCurrent(old(View()), name, sequence)
      ensures labels == if changed then old(labels)[name := Shown(IntentOf(old(View()), name), sequence, value)]
                        else old(labels)
      ensures value == Hidden ==> View() == Apply(old(View()), HideLabel(name, sequence))
      ensures value == Closed ==> View() == Apply(old(View()), CloseLabel(name, sequence))
      ensures old(Clean()) && name in owners ==> Clean()
    {
      hide Clean;
      changed := CommandSequenceIsCurrent(name, sequence);
      if !changed {
        return;
      }
      var intent := if name in labels then labels[name] else DEFAULT_INTENT;
      intent := intent.(latest := sequence);
      if !(intent.visibility.Some? && intent.visibility.value.value == Closed) || value == Closed {
        intent := intent.(visibility := Some(VisibilityIntent(sequence, value)));
      }
      if value == Closed {
        intent := intent.(navigation := None, reload := None);
        intent := intent.(appliedNavigation := None, appliedReload := None);
      }
      labels := labels[name := intent];
      OwnedLabelKeepsClean(name);
    }

    method RecordReloadIntent(name: string, sequence: nat) returns (changed: bool)
      modifies this`labels
      ensures var c := Reload(name, sequence);
              View() == Apply(old(View()), c) && changed == Accepted(old(View()), c)
      ensures old(Clean()) && name in owners ==> Clean()
    {
      hide Clean;
      changed := CommandSequenceIsCurrent(name, sequence);
      if !changed {
        return;
      }
      var intent := if name in labels then labels[name] else DEFAULT_INTENT;
      intent := intent.(latest := sequence);
      changed := !(intent.visibility.Some? && intent.visibility.value.value == Closed);
      if changed {
        intent := intent.(reload := Some(sequence));
      }
      labels := labels[name := intent];
      OwnedLabelKeepsClean(name);
    }

    method AdvanceScopeBarrier(prefix: string, sequence: nat, action: ScopeAction, except: Option<string>)
      returns (advanced: bool)
      modifies this`scopeBarriers
      ensures advanced == BarrierAdvances(old(View()), prefix, sequence)
      ensures scopeBarriers == if advanced then old(scopeBarriers)[prefix := ScopeBarrier(sequence, action, except)]
                               else old(scopeBarriers)
    {
      if prefix in scopeBarriers && sequence < scopeBarriers[prefix].sequence {
        return false;
      }
      scopeBarriers := scopeBarriers[prefix := ScopeBarrier(sequence, action, except)];
      advanced := true;
    }

    method RecordScopeIntent(prefix: string, sequence: nat, action: ScopeAction, except: Option<string>,
                             existing: seq<string>)
      returns (changed: bool)
      modifies this`labels, this`scopeBarriers
      ensures var c := Scope(prefix, sequence, action, except, existing);
              View() == Apply(old(View()), c) && changed == Accepted(old(View()), c)
    {
      changed := AdvanceScopeBarrier(prefix, sequence, action, except);
      if !changed {
        return;
      }
      var k := 0;
      while k < |existing|
        invariant 0 <= k <= |existing|
        invariant scopeBarriers == old(scopeBarriers)[prefix := ScopeBarrier(sequence, action, except)]
        invariant labels == ScopedLabels(old(labels), Targets(existing[..k], prefix, except), sequence, action)
      {
        var name := existing[k];
        TargetsNext(existing, k, prefix, except);
        ScopeNext(old(labels), Targets(existing[..k], prefix, except), name, sequence, action);
        k := k + 1;
        if !StartsWith(name, prefix) || except == Some(name) {
          continue;
        }
        var intent := if name in labels then labels[name] else DEFAULT_INTENT;
        if sequence < intent.latest {
          continue;
        }
        intent := intent.(latest := sequence,
                          visibility := Some(VisibilityIntent(sequence, VisibilityOf(action))));
        if action == Close {
          intent := ClearedForClose(intent);
        }
        labels := labels[name := intent];
      }
      assert existing[..k] == existing;
    }

    // -------------------------------------------------------------------
    // What a worker writes back
    // -------------------------------------------------------------------

    method MarkNavigationApplied(name: string, sequence: nat)
      modifies this`labels
      ensures labels.Keys == old(labels.Keys) && (old(Clean()) ==> Clean())
      ensures labels == if name in old(labels) && old(labels)[name].navigation.Some?
                           && old(labels)[name].navigation.value.sequence == sequence
                        then old(labels)[name := old(labels)[name].(appliedNavigation := Some(sequence))]
                        else old(labels)
    {
      if name in labels && labels[name].navigation.Some? && labels[name].navigation.value.sequence == sequence {
        labels := labels[name := labels[name].(appliedNavigation := Some(sequence))];
      }
    }

    method MarkReloadApplied(name: string, sequence: nat)
      modifies this`labels
      ensures labels.Keys == old(labels.Keys) && (old(Clean()) ==> Clean())
      ensures labels == if name in old(labels) && old(labels)[name].reload == Some(sequence)
                        then old(labels)[name := old(labels)[name].(appliedReload := Some(sequence))]
                        else old(labels)
    {
      if name in labels && labels[name].reload == Some(sequence) {
        labels := labels[name := labels[name].(appliedReload := Some(sequence))];
      }
    }

    method ClearAppliedBrowserState(name: string)
      modifies this`labels
      ensures labels.Keys == old(labels.Keys) && (old(Clean()) ==> Clean())
      ensures labels == if name in old(labels)
                        then old(labels)[name := old(labels)[name].(appliedNavigation := None, appliedReload := None)]
                        else old(labels)
    {
      if name in labels {
        labels := labels[name := labels[name].(appliedNavigation := None, appliedReload := None)];
      }
    }

    // -------------------------------------------------------------------
    // Ownership and retirement
    // -------------------------------------------------------------------

    /** Every key of every table that is named after a window. */
    ghost function Names(): set<string>
      reads this
    {
      labels.Keys + scopeBarriers.Keys + workerLocks + workerSignals + eventTrackers + owners.Keys
    }

    /** Every entry lies under the prefix of a main window that is not
        retired, and owners are recorded under their own native label. */
    ghost predicate Clean()
      reads this
    {
      && (forall w | w in retired :: IsMainWindowLabel(w))
      && (forall n | n in Names() :: UnderLiveWindow(n))
      && (forall n | n in owners ::
            IsMainWindowLabel(owners[n].window) && n == NativeLabel(owners[n].window, owners[n].client))
      && (forall n | n in owners :: StartsWith(owners[n].client, BROWSER_LABEL_PREFIX))
    }

    ghost predicate UnderLiveWindow(n: string)
      reads this`retired
    {
      exists w: string :: IsMainWindowLabel(w) && w !in retired && StartsWith(n, OwnerPrefix(w))
    }

    /** Nothing is left, or can come back, under a retired window's prefix:
        `Clean` is kept by every section below. */
    lemma RetiredWindowOwnsNothing(window: string, n: string)
      requires Clean() && window in retired && n in Names()
      ensures !StartsWith(n, OwnerPrefix(window))
    {
      var w: string :| IsMainWindowLabel(w) && w !in retired && StartsWith(n, OwnerPrefix(w));
      if StartsWith(n, OwnerPrefix(window)) {
        OneOwner(n, w, window);
      }
    }

    static lemma OneOwner(n: string, one: string, other: string)
      requires IsMainWindowLabel(one) && IsMainWindowLabel(other)
      requires StartsWith(n, OwnerPrefix(one)) && StartsWith(n, OwnerPrefix(other))
      ensures one == other
    {
      assert n == OwnerPrefix(other) + n[|OwnerPrefix(other)|..];
      OwnerPrefixesAreDisjoint(one, other, n[|OwnerPrefix(other)|..]);
    }

    lemma NativeLabelIsUnderLive(window: string, client: string)
      requires IsMainWindowLabel(window) && window !in retired
      ensures UnderLiveWindow(NativeLabel(window, client))
    {
      assert StartsWith(NativeLabel(window, client), OwnerPrefix(window));
    }

    /** A section that recorded at most one label of a live window. */
    twostate lemma LabelSectionKeepsClean(o: Owner)
      requires old(Clean()) && IsMainWindowLabel(o.window) && o.window !in old(retired)
      requires StartsWith(o.client, BROWSER_LABEL_PREFIX)
      requires retired == old(retired) && scopeBarriers == old(scopeBarriers)
      requires labels.Keys <= old(labels.Keys) + {NativeLabel(o.window, o.client)}
      requires owners == old(owners)[NativeLabel(o.window, o.client) := o]
      requires workerLocks == old(workerLocks) && workerSignals == old(workerSignals)
      requires eventTrackers == old(eventTrackers)
      ensures Clean()
    {
      NativeLabelIsUnderLive(o.window, o.client);
      forall n | n in Names()
        ensures UnderLiveWindow(n)
      {
        assert n in old(Names()) ==> old(UnderLiveWindow(n));
      }
    }

    method RegisterBrowserOwner(native: string, window: string, client: string) returns (r: Result<(), string>)
      modifies this`owners
      ensures r.Ok? <==> window !in retired
                         && (native in old(owners) ==> old(owners)[native] == Owner(window, client))
      ensures owners == if r.Ok? then old(owners)[native := Owner(window, client)] else old(owners)
    {
      if window in retired {
        return Err("browser owner window was retired");
      }
      var owner := Owner(window, client);
      if native in owners && owners[native] != owner {
        return Err("browser webview is already owned by another main window");
      }
      owners := owners[native := owner];
      r := Ok(());
    }

    /** In a clean state a label that a window names is never owned by another
        window, so only retirement can refuse a command. */
    lemma OwnLabelIsFree(window: string, client: string)
      requires Clean() && IsMainWindowLabel(window) && StartsWith(client, BROWSER_LABEL_PREFIX)
      requires NativeLabel(window, client) in owners
      ensures owners[NativeLabel(window, client)] == Owner(window, client)
    {
      var n := NativeLabel(window, client);
      var o := owners[n];
      assert StartsWith(n, OwnerPrefix(o.window)) && StartsWith(n, OwnerPrefix(window));
      OneOwner(n, window, o.window);
      var head := |OwnerPrefix(window)|;
      assert n[head..] == client[|BROWSER_LABEL_PREFIX|..] == o.client[|BROWSER_LABEL_PREFIX|..];
      assert client == BROWSER_LABEL_PREFIX + client[|BROWSER_LABEL_PREFIX|..];
      assert o.client == BROWSER_LABEL_PREFIX + o.client[|BROWSER_LABEL_PREFIX|..];
    }

    /** Destroying a window removes everything of that window and nothing of
        any other, and keeps the window from ever coming back. */
    method RemoveBrowserOwnerResources(window: string) returns (removed: set<string>)
      requires Clean() && IsMainWindowLabel(window)
      modifies this
      ensures Clean()
      ensures removed == set n | n in old(labels.Keys + workerLocks + workerSignals + eventTrackers + owners.Keys)
                                 && StartsWith(n, OwnerPrefix(window))
      ensures retired == old(retired) + {window}
      ensures labels == MapOutside(old(labels), OwnerPrefix(window))
      ensures scopeBarriers == MapOutside(old(scopeBarriers), OwnerPrefix(window))
      ensures owners == MapOutside(old(owners), OwnerPrefix(window))
      ensures workerLocks == SetOutside(old(workerLocks), OwnerPrefix(window))
      ensures workerSignals == SetOutside(old(workerSignals), OwnerPrefix(window))
      ensures eventTrackers == SetOutside(old(eventTrackers), OwnerPrefix(window))
    {
      hide OwnerPrefix, NativeLabel, IsMainWindowLabel, StartsWith;
      var ownerPrefix := OwnerPrefix(window);
      var owned := set n | n in owners && owners[n].window == window;
      OwnedIsUnderPrefix(window, owned);
      removed := owned
               + (set n | n in labels.Keys + workerLocks + workerSignals + eventTrackers && StartsWith(n, ownerPrefix));
      DropEntries(removed, ownerPrefix);
      retired := retired + {window};
      RemovalKeepsClean(window);
    }

    method DropEntries(removed: set<string>, ownerPrefix: string)
      requires removed == set n | n in labels.Keys + workerLocks + workerSignals + eventTrackers + owners.Keys
                                  && StartsWith(n, ownerPrefix)
      modifies this`labels, this`scopeBarriers, this`owners, this`workerLocks, this`workerSignals, this`eventTrackers
      ensures labels == MapOutside(old(labels), ownerPrefix)
      ensures scopeBarriers == MapOutside(old(scopeBarriers), ownerPrefix)
      ensures owners == MapOutside(old(owners), ownerPrefix)
      ensures workerLocks == SetOutside(old(workerLocks), ownerPrefix)
      ensures workerSignals == SetOutside(old(workerSignals), ownerPrefix)
      ensures eventTrackers == SetOutside(old(eventTrackers), ownerPrefix)
    {
      labels := labels - removed;
      workerLocks := workerLocks - removed;
      workerSignals := workerSignals - removed;
      eventTrackers := eventTrackers - removed;
      owners := owners - removed;
      scopeBarriers := MapOutside(scopeBarriers, ownerPrefix);
    }

    twostate lemma RemovalKeepsClean(window: string)
      requires old(Clean()) && IsMainWindowLabel(window)
      requires retired == old(retired) + {window}
      requires forall n | n in Names() :: n in old(Names()) && !StartsWith(n, OwnerPrefix(window))
      requires forall n | n in owners :: n in old(owners) && owners[n] == old(owners)[n]
      ensures Clean()
    {
      forall n | n in Names()
        ensures UnderLiveWindow(n)
      {
        assert old(UnderLiveWindow(n));
      }
    }

    lemma OwnedIsUnderPrefix(window: string, owned: set<string>)
      requires Clean() && IsMainWindowLabel(window)
      requires owned == set n | n in owners && owners[n].window == window
      ensures owned == set n | n in owners && StartsWith(n, OwnerPrefix(window))
    {
      forall n | n in owners
        ensures owners[n].window == window <==> StartsWith(n, OwnerPrefix(window))
      {
        assert StartsWith(n, OwnerPrefix(owners[n].window));
        if StartsWith(n, OwnerPrefix(window)) {
          OneOwner(n, window, owners[n].window);
        }
      }
    }

    /** A worker, still running or not, gets a lock, a signal or a tracker
        only for a label that has an owner. */
    method WorkerLockForLabel(name: string) returns (r: Result<(), string>)
      modifies this`workerLocks
      ensures old(Clean()) ==> Clean()
      ensures r.Ok? <==> name in owners
      ensures workerLocks == if r.Ok? then old(workerLocks) + {name} else old(workerLocks)
    {
      if name !in owners {
        return Err("browser webview has no registered owner");
      }
      assert name in Names();
      workerLocks := workerLocks + {name};
      r := Ok(());
    }

    method WorkerSignalForLabel(name: string) returns (r: Result<(), string>)
      modifies this`workerSignals
      ensures old(Clean()) ==> Clean()
      ensures r.Ok? <==> name in owners
      ensures workerSignals == if r.Ok? then old(workerSignals) + {name} else old(workerSignals)
    {
      if name !in owners {
        return Err("browser webview has no registered owner");
      }
      assert name in Names();
      workerSignals := workerSignals + {name};
      r := Ok(());
    }

    method EventTrackerForLabel(name: string) returns (r: Result<(), string>)
      modifies this`eventTrackers
      ensures old(Clean()) ==> Clean()
      ensures r.Ok? <==> name in owners
      ensures eventTrackers == if r.Ok? then old(eventTrackers) + {name} else old(eventTrackers)
    {
      if name !in owners {
        return Err("browser webview has no registered owner");
      }
      assert name in Names();
      eventTrackers := eventTrackers + {name};
      r := Ok(());
    }
  }
}
