/** The browser commands: which intent each records, under which label, and
  why no command of one window touches another window. */
module BrowserCommands {
  import opened Wrappers
  import opened BrowserLabels
  import opened BrowserIntents
  import opened BrowserLifecycles

  // ---------------------------------------------------------------------
  // Isolation
  // ---------------------------------------------------------------------

  /** The commands a window can issue. */
  ghost predicate IssuedBy(c: Command, window: string) {
    if c.Scope? then exists client: string :: c.prefix == ScopePrefix(window, client)
    else exists client: string :: c.name == NativeLabel(window, client)
  }

  /** A command of one window never changes what a label of another window is
      asked to be, now or ever. */
  lemma CommandStaysInWindow(i: Intents, c: Command, window: string, other: string, name: string, e: Option<Effective>)
    requires IsMainWindowLabel(window) && IsMainWindowLabel(other) && window != other
    requires IssuedBy(c, window) && StartsWith(name, OwnerPrefix(other))
    ensures IsEffective(Apply(i, c), name, e) <==> IsEffective(i, name, e)
  {
    NotOverOther(c, window, other, name);
    var j := Apply(i, c);
    assert name in j.labels <==> name in i.labels;
    assert name in i.labels ==> j.labels[name] == i.labels[name];
    assert forall p | p in j.barriers :: Covers(j, p, name) <==> p in i.barriers && Covers(i, p, name);
    assert forall p | p in i.barriers :: Covers(i, p, name) ==> p in j.barriers && j.barriers[p] == i.barriers[p];
    forall b: Option<ScopeBarrier>
      ensures IsLatestBarrier(j, name, b) <==> IsLatestBarrier(i, name, b)
    {
    }
  }

  lemma NotOverOther(c: Command, window: string, other: string, name: string)
    requires IsMainWindowLabel(window) && IsMainWindowLabel(other) && window != other
    requires IssuedBy(c, window) && StartsWith(name, OwnerPrefix(other))
    ensures !c.Scope? ==> c.name != name
    ensures c.Scope? ==> !StartsWith(name, c.prefix)
  {
    assert name == OwnerPrefix(other) + name[|OwnerPrefix(other)|..];
    if StartsWith(name, OwnerPrefix(window)) {
      OwnerPrefixesAreDisjoint(window, other, name[|OwnerPrefix(other)|..]);
    }
  }

  // ---------------------------------------------------------------------
  // Commands on one label
  // ---------------------------------------------------------------------

  /** The outcome of a command: refused, and then no intent changed, or recorded
      under the window's own label. */
  ghost predicate RecordedAs(before: Intents, after: Intents, refused: bool, c: Command, r: Result<bool, string>) {
    && (r.Err? <==> refused)
    && (r.Err? ==> after == before)
    && (r.Ok? ==> after == Apply(before, c) && r.value == Accepted(before, c))
  }

  /** The section that registers a label for its window. Every command on a
      label makes it first, and again under the lock that records it; the rest
      of a command is modelled below, after the first one. */
  method Revalidate(l: BrowserLifecycle, window: string, client: string) returns (r: Result<(), string>)
    requires l.Clean() && IsMainWindowLabel(window) && StartsWith(client, BROWSER_LABEL_PREFIX)
    modifies l`owners
    ensures l.Clean()
    ensures r.Ok? <==> window !in l.retired
    ensures l.owners == if r.Ok? then old(l.owners)[NativeLabel(window, client) := Owner(window, client)]
                        else old(l.owners)
  {
    var native := NativeLabel(window, client);
    if native in l.owners {
      l.OwnLabelIsFree(window, client);
    }
    r := l.RegisterBrowserOwner(native, window, client);
    if r.Ok? {
      l.LabelSectionKeepsClean(Owner(window, client));
    }
  }

  /** Input that a navigation refuses: a URL that does not parse, or bounds
      that are not finite, which are none here. */
  predicate IsRefused(parses: string -> bool, url: string, readOnlyUrl: Option<string>, rect: Option<Rect>) {
    !parses(url) || (readOnlyUrl.Some? && !parses(readOnlyUrl.value)) || rect == None
  }

  method BrowserNavigate(l: BrowserLifecycle, window: string, raw: string, parses: string -> bool,
                         url: string, readOnlyUrl: Option<string>, rect: Option<Rect>, sequence: nat)
    returns (r: Result<bool, string>)
    requires l.Clean() && IsMainWindowLabel(window)
    modifies l`labels, l`owners
    ensures l.Clean()
    ensures RecordedAs(old(l.View()), l.View(), window in l.retired || IsRefused(parses, url, readOnlyUrl, rect),
                       NavigateTo(NativeLabel(window, SafeBrowserLabel(raw)), sequence, url, readOnlyUrl,
                                  rect.GetOr(NO_RECT)), r)
  {
    var client := SafeBrowserLabel(raw);
    assert StartsWith(client, BROWSER_LABEL_PREFIX);
    hide OwnerPrefix, NativeLabel, IsMainWindowLabel, SafeBrowserLabel, Apply, Accepted, BrowserLifecycle.Clean;
    if !parses(url) || (readOnlyUrl.Some? && !parses(readOnlyUrl.value)) {
      return Err("relative URL without a base");
    }
    if rect == None {
      return Err("browser bounds must be finite");
    }
    var _ :- Revalidate(l, window, client);
    var changed := l.RecordNavigationIntent(NativeLabel(window, client), sequence, url, readOnlyUrl, rect.value);
    r := Ok(changed);
  }

  method BrowserSetBounds(l: BrowserLifecycle, window: string, raw: string, rect: Option<Rect>, sequence: nat)
    returns (r: Result<bool, string>)
    requires l.Clean() && IsMainWindowLabel(window)
    modifies l`labels, l`owners
    ensures l.Clean()
    ensures RecordedAs(old(l.View()), l.View(), window in l.retired || rect == None,
                       SetBounds(NativeLabel(window, SafeBrowserLabel(raw)), sequence, rect.GetOr(NO_RECT)), r)
  {
    var client := SafeBrowserLabel(raw);
    assert StartsWith(client, BROWSER_LABEL_PREFIX);
    hide OwnerPrefix, NativeLabel, IsMainWindowLabel, SafeBrowserLabel, Apply, Accepted, BrowserLifecycle.Clean;
    if rect == None {
      return Err("browser bounds must be finite");
    }
    var _ :- Revalidate(l, window, client);
    var changed := l.RecordBoundsIntent(NativeLabel(window, client), sequence, rect.value);
    r := Ok(changed);
  }

  method BrowserHide(l: BrowserLifecycle, window: string, raw: string, sequence: nat)
    returns (r: Result<bool, string>)
    requires l.Clean() && IsMainWindowLabel(window)
    modifies l`labels, l`owners
    ensures l.Clean()
    ensures RecordedAs(old(l.View()), l.View(), window in l.retired,
                       HideLabel(NativeLabel(window, SafeBrowserLabel(raw)), sequence), r)
  {
    var client := SafeBrowserLabel(raw);
    assert StartsWith(client, BROWSER_LABEL_PREFIX);
    hide OwnerPrefix, NativeLabel, IsMainWindowLabel, SafeBrowserLabel, Apply, Accepted, BrowserLifecycle.Clean;
    var _ :- Revalidate(l, window, client);
    var changed := l.RecordVisibilityIntent(NativeLabel(window, client), sequence, Hidden);
    r := Ok(changed);
  }

  method BrowserClose(l: BrowserLifecycle, window: string, raw: string, sequence: nat)
    returns (r: Result<bool, string>)
    requires l.Clean() && IsMainWindowLabel(window)
    modifies l`labels, l`owners
    ensures l.Clean()
    ensures RecordedAs(old(l.View()), l.View(), window in l.retired,
                       CloseLabel(NativeLabel(window, SafeBrowserLabel(raw)), sequence), r)
  {
    var client := SafeBrowserLabel(raw);
    assert StartsWith(client, BROWSER_LABEL_PREFIX);
    hide OwnerPrefix, NativeLabel, IsMainWindowLabel, SafeBrowserLabel, Apply, Accepted, BrowserLifecycle.Clean;
    var _ :- Revalidate(l, window, client);
    var changed := l.RecordVisibilityIntent(NativeLabel(window, client), sequence, Closed);
    r := Ok(changed);
  }

  method BrowserReload(l: BrowserLifecycle, window: string, raw: string, sequence: nat)
    returns (r: Result<bool, string>)
    requires l.Clean() && IsMainWindowLabel(window)
    modifies l`labels, l`owners
    ensures l.Clean()
    ensures RecordedAs(old(l.View()), l.View(), window in l.retired,
                       Reload(NativeLabel(window, SafeBrowserLabel(raw)), sequence), r)
  {
    var client := SafeBrowserLabel(raw);
    assert StartsWith(client, BROWSER_LABEL_PREFIX);
    hide OwnerPrefix, NativeLabel, IsMainWindowLabel, SafeBrowserLabel, Apply, Accepted, BrowserLifecycle.Clean;
    var _ :- Revalidate(l, window, client);
    var changed := l.RecordReloadIntent(NativeLabel(window, client), sequence);
    r := Ok(changed);
  }

  // ---------------------------------------------------------------------
  // Commands on a whole pane
  // ---------------------------------------------------------------------

  /** First section of a scope command: the known labels and live webviews it
      may apply to. */
  method CollectScopeLabels(l: BrowserLifecycle, window: string, webviews: set<string>, prefix: string,
                            except: Option<string>)
    returns (r: Result<set<string>, string>)
    ensures r.Err? <==> window in l.retired
    ensures r.Ok? ==> r.value == set n | n in webviews + l.labels.Keys && InScope(n, prefix, except)
  {
    if window in l.retired {
      return Err("browser owner window was retired");
    }
    r := Ok(set n | n in webviews + l.labels.Keys && InScope(n, prefix, except));
  }

  /** Second section: checked again, because the window may be gone by now. */
  method RecordScope(l: BrowserLifecycle, window: string, client: string, sequence: nat, action: ScopeAction,
                     except: Option<string>, existing: seq<string>)
    returns (r: Result<bool, string>)
    requires l.Clean() && IsMainWindowLabel(window)
    modifies l`labels, l`scopeBarriers
    ensures l.Clean()
    ensures RecordedAs(old(l.View()), l.View(), window in l.retired,
                       Scope(ScopePrefix(window, client), sequence, action, except, existing), r)
    ensures r.Err? <==> window in l.retired
  {
    if window in l.retired {
      return Err("browser owner window was retired");
    }
    var prefix := ScopePrefix(window, client);
    assert StartsWith(prefix, OwnerPrefix(window));
    assert forall n: string | StartsWith(n, prefix) :: StartsWith(n, OwnerPrefix(window));
    ghost var before := l.View();
    var changed := l.RecordScopeIntent(prefix, sequence, action, except, existing);
    ScopeAddsOwnNames(before, Scope(prefix, sequence, action, except, existing));
    hide OwnerPrefix, ScopePrefix, IsMainWindowLabel, Apply, Accepted;
    forall n | n in l.Names()
      ensures l.UnderLiveWindow(n)
    {
      assert n in old(l.Names()) ==> old(l.UnderLiveWindow(n));
      assert n in old(l.Names()) || StartsWith(n, prefix);
    }
    r := Ok(changed);
  }

  /** Whatever a scope command adds lies under its prefix. */
  lemma ScopeAddsOwnNames(i: Intents, c: Command)
    requires c.Scope?
    ensures var j := Apply(i, c);
            forall n | n in j.labels.Keys + j.barriers.Keys && n !in i.labels.Keys + i.barriers.Keys ::
              StartsWith(n, c.prefix)
  {
  }

  function PanePrefix(window: string, pane: Option<string>): string {
    ScopePrefix(window, match pane
                        case Some(raw) => SafeBrowserLabel(raw) + "-tab-"
                        case None => BROWSER_LABEL_PREFIX)
  }

  /** A pane's scope commands cover exactly the tabs of that pane, and without
      a pane label every webview of the window. */
  lemma PaneCoversItsTabs(window: string, raw: string, client: string)
    requires StartsWith(client, BROWSER_LABEL_PREFIX)
    ensures StartsWith(NativeLabel(window, client), PanePrefix(window, Some(raw))) <==>
            exists tab :: client == SafeBrowserLabel(raw) + ("-tab-" + tab)
    ensures StartsWith(NativeLabel(window, client), PanePrefix(window, None))
    ensures PanePrefix(window, None) == OwnerPrefix(window)
  {
    var pane := SafeBrowserLabel(raw) + "-tab-";
    var head := |BROWSER_LABEL_PREFIX|;
    assert StartsWith(pane, BROWSER_LABEL_PREFIX);
    hide SafeBrowserLabel;
    SamePrefixAfter(OwnerPrefix(window), pane[head..], client[head..]);
    SamePrefixAfter(BROWSER_LABEL_PREFIX, pane[head..], client[head..]);
    assert pane == BROWSER_LABEL_PREFIX + pane[head..] && client == BROWSER_LABEL_PREFIX + client[head..];
    if StartsWith(client, pane) {
      assert client == SafeBrowserLabel(raw) + ("-tab-" + client[|pane|..]);
    }
    if tab :| client == SafeBrowserLabel(raw) + ("-tab-" + tab) {
      assert client == pane + tab;
    }
    assert BROWSER_LABEL_PREFIX[head..] == "";
    assert OwnerPrefix(window) + "" == OwnerPrefix(window);
  }

  lemma SamePrefixAfter(head: string, prefix: string, s: string)
    ensures StartsWith(head + s, head + prefix) <==> StartsWith(s, prefix)
  {
    if StartsWith(s, prefix) {
      assert s == prefix + s[|prefix|..];
      assert head + s == (head + prefix) + s[|prefix|..];
    }
    if StartsWith(head + s, head + prefix) {
      assert forall k | 0 <= k < |prefix| :: s[k] == (head + s)[|head| + k] == (head + prefix)[|head| + k] == prefix[k];
    }
  }

  // ---------------------------------------------------------------------
  // Retirement
  // ---------------------------------------------------------------------

  /** Any number of sections, of any windows and workers, in any order. No
      matter what ran before or after a window was destroyed: once it is retired
      it stays so, and no table has an entry under its prefix. */
  method AnySections(l: BrowserLifecycle, count: nat)
    requires l.Clean()
    modifies l
    ensures l.Clean() && old(l.retired) <= l.retired
    ensures forall w, n | w in l.retired && n in l.Names() :: !StartsWith(n, OwnerPrefix(w))
  {
    hide OwnerPrefix, NativeLabel, StartsWith, IsMainWindowLabel, BrowserLifecycle.Clean;
    for k := 0 to count
      invariant l.Clean() && old(l.retired) <= l.retired
    {
      AnySection(l);
    }
    forall w, n | w in l.retired && n in l.Names()
      ensures !StartsWith(n, OwnerPrefix(w))
    {
      l.RetiredWindowOwnsNothing(w, n);
    }
  }

  method AnySection(l: BrowserLifecycle)
    requires l.Clean()
    modifies l
    ensures l.Clean() && old(l.retired) <= l.retired
  {
    assert IsMainWindowLabel(PRIMARY_MAIN_WINDOW_LABEL);
    var window: string :| IsMainWindowLabel(window);
    var text: string, sequence: nat :| true;
    hide OwnerPrefix, NativeLabel, StartsWith, IsMainWindowLabel, BrowserLifecycle.Clean, ScopePrefix;
    if {
      case true => var _ := l.RemoveBrowserOwnerResources(window);
      case true => AnyCommandSection(l, window, text, sequence);
      case true => AnyScopeSection(l, window, text, sequence);
      case true => AnyWorkerSection(l, text, sequence);
    }
  }

  method AnyCommandSection(l: BrowserLifecycle, window: string, raw: string, sequence: nat)
    requires l.Clean() && IsMainWindowLabel(window)
    modifies l`labels, l`owners
    ensures l.Clean()
  {
    hide OwnerPrefix, NativeLabel, IsMainWindowLabel, BrowserLifecycle.Clean, RecordedAs;
    var url: string, readOnlyUrl: Option<string>, rect: Option<Rect> := *, *, *;
    if {
      case true => Register(l, window, raw);
      case true => var _ := BrowserNavigate(l, window, raw, u => true, url, readOnlyUrl, rect, sequence);
      case true => var _ := BrowserSetBounds(l, window, raw, rect, sequence);
      case true => var _ := BrowserHide(l, window, raw, sequence);
      case true => var _ := BrowserClose(l, window, raw, sequence);
      case true => var _ := BrowserReload(l, window, raw, sequence);
    }
  }

  method Register(l: BrowserLifecycle, window: string, raw: string)
    requires l.Clean() && IsMainWindowLabel(window)
    modifies l`owners
    ensures l.Clean()
  {
    var client := SafeBrowserLabel(raw);
    assert StartsWith(client, BROWSER_LABEL_PREFIX);
    hide OwnerPrefix, NativeLabel, IsMainWindowLabel, BrowserLifecycle.Clean;
    var _ := Revalidate(l, window, client);
  }

  method AnyScopeSection(l: BrowserLifecycle, window: string, client: string, sequence: nat)
    requires l.Clean() && IsMainWindowLabel(window)
    modifies l`labels, l`scopeBarriers
    ensures l.Clean()
  {
    hide OwnerPrefix, ScopePrefix, IsMainWindowLabel, BrowserLifecycle.Clean, RecordedAs;
    var action: ScopeAction, except: Option<string>, existing: seq<string> := *, *, *;
    var _ := RecordScope(l, window, client, sequence, action, except, existing);
  }

  /** What a worker does under the lock, whether or not its window is gone. */
  method AnyWorkerSection(l: BrowserLifecycle, name: string, sequence: nat)
    requires l.Clean()
    modifies l`labels, l`workerLocks, l`workerSignals, l`eventTrackers
    ensures l.Clean()
  {
    hide BrowserLifecycle.Clean;
    if {
      case true => var _ := l.WorkerLockForLabel(name);
      case true => var _ := l.WorkerSignalForLabel(name);
      case true => var _ := l.EventTrackerForLabel(name);
      case true => l.MarkNavigationApplied(name, sequence);
      case true => l.MarkReloadApplied(name, sequence);
      case true => l.ClearAppliedBrowserState(name);
    }
  }
}
