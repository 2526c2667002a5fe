/** What a look at a label asks of its webview, and which commands change that
  in a way that a pass of the worker notices. */
module BrowserRequests {
  import opened Wrappers
  import opened BrowserIntents

  /** A child webview: the URL it was last sent to and where it is shown. */
  datatype Webview = Webview(url: string, shown: Option<Rect>)

  // ---------------------------------------------------------------------
  // What is asked of the webview
  // ---------------------------------------------------------------------

  /** The native side is exactly as the effective intent asks. */
  ghost predicate Asked(webviews: map<string, Webview>, name: string, e: Effective) {
    if e.visibility == Closed then name !in webviews
    else
      && (e.navigation.Some? ==> name in webviews && webviews[name].url == e.navigation.value.url)
      && (name in webviews ==>
            if e.visibility == Visible then e.bounds.Some? && webviews[name].shown == Some(e.bounds.value.rect)
            else webviews[name].shown == None)
  }

  /** The effective intent of a known label, as one look finds it. */
  function Look(order: KeyOrder, i: Intents, name: string): (e: Effective)
    requires name in i.labels
    ensures EffectiveIn(order, i, name) == Some(e) && IsEffective(i, name, Some(e))
  {
    NewestOfIsLatest(order, i, name);
    EffectiveIn(order, i, name).value
  }

  /** The part of a look that a pass acts on. */
  datatype Wanted = Wanted(
    visibility: Visibility,
    navigation: Option<Navigation>,
    bounds: Option<Bounds>,
    reload: Option<nat>)

  function WantedBy(e: Effective): Wanted {
    Wanted(e.visibility, e.navigation, if e.visibility == Visible then e.bounds else None, e.reload)
  }

  lemma SameWantedSameAsk(webviews: map<string, Webview>, name: string, e: Effective, f: Effective)
    requires WantedBy(e) == WantedBy(f) && Asked(webviews, name, e)
    ensures Asked(webviews, name, f)
  {
  }

  function WantedIn(order: KeyOrder, i: Intents, name: string): Option<Wanted> {
    if name in i.labels then Some(WantedBy(Look(order, i, name))) else None
  }

  /** The webview is as the newest intent asks. */
  ghost predicate AsAsked(order: KeyOrder, i: Intents, name: string, webviews: map<string, Webview>) {
    name in i.labels ==> Asked(webviews, name, Look(order, i, name))
  }

  /** The same, and the navigation and the reload that are asked for are marked
      as done and will not be repeated. */
  ghost predicate Settled(order: KeyOrder, i: Intents, name: string, webviews: map<string, Webview>) {
    name in i.labels ==>
      var e := Look(order, i, name);
      && Asked(webviews, name, e)
      && (e.visibility != Closed && e.navigation.Some? ==>
            && e.appliedNavigation == Some(e.navigation.value.sequence)
            && (e.reload.Some? ==> e.appliedReload == e.reload))
  }

  // ---------------------------------------------------------------------
  // Invariants of the recorded intents
  // ---------------------------------------------------------------------

  /** A navigation has bounds, and so does a visible label. */
  ghost predicate HasBounds(i: Intents, name: string) {
    name in i.labels ==>
      var l := i.labels[name];
      && (l.navigation.Some? ==> l.bounds.Some?)
      && (l.visibility.Some? && l.visibility.value.value == Visible ==> l.bounds.Some?)
  }

  /** Every recording keeps it, in any order of sequences. */
  lemma ApplyKeepsBounds(i: Intents, c: Command, name: string)
    requires HasBounds(i, name)
    ensures HasBounds(Apply(i, c), name)
  {
  }

  /** What a label holds is not ahead of the label, and its mark not ahead of
      its navigation. */
  ghost predicate Ordered(i: Intents, name: string) {
    name in i.labels ==>
      var l := i.labels[name];
      && (l.visibility.Some? ==> l.visibility.value.sequence <= l.latest)
      && (l.navigation.Some? ==> l.navigation.value.sequence <= l.latest)
      && (l.appliedNavigation.Some? ==>
            l.navigation.Some? && l.appliedNavigation.value <= l.navigation.value.sequence)
  }

  lemma ApplyKeepsOrdered(i: Intents, c: Command, name: string)
    requires Ordered(i, name)
    ensures Ordered(Apply(i, c), name)
  {
    hide Covers;
  }

  /** A navigation marked as applied is the one the webview was sent to. */
  ghost predicate AppliedLoaded(i: Intents, name: string, webviews: map<string, Webview>) {
    name in webviews && name in i.labels ==>
      var l := i.labels[name];
      l.navigation.Some? && l.appliedNavigation == Some(l.navigation.value.sequence) ==>
        webviews[name].url == l.navigation.value.url
  }

  /** A navigation to another URL under the very sequence that is marked. */
  predicate ReusesApplied(i: Intents, c: Command, name: string, webviews: map<string, Webview>) {
    && c.NavigateTo? && c.name == name && Recorded(i, c)
    && name in webviews && webviews[name].url != c.url
    && IntentOf(i, name).appliedNavigation == Some(c.sequence)
  }

  /** Commands arrive in any order of sequences: a mark turns wrong exactly if
      its sequence is used again for another URL. */
  lemma MarkStaysRightExactly(i: Intents, c: Command, name: string, webviews: map<string, Webview>)
    requires AppliedLoaded(i, name, webviews)
    ensures AppliedLoaded(Apply(i, c), name, webviews) <==> !ReusesApplied(i, c, name, webviews)
  {
  }

  // ---------------------------------------------------------------------
  // Commands that a pass does not notice
  // ---------------------------------------------------------------------

  /** What is wanted changes without a higher revision, or the revision falls. */
  predicate Unnoticed(e: Effective, f: Effective) {
    f.revision < e.revision || (f.revision == e.revision && WantedBy(f) != WantedBy(e))
  }

  /** A command slips past a pass that compares revisions. */
  predicate Slips(order: KeyOrder, i: Intents, c: Command, name: string) {
    name in i.labels && name in Apply(i, c).labels && Unnoticed(Look(order, i, name), Look(order, Apply(i, c), name))
  }

  /** The command leaves alone what a pass looks at. */
  predicate Calm(order: KeyOrder, i: Intents, c: Command, name: string) {
    if name in i.labels then
      name in Apply(i, c).labels &&
      var e, f := Look(order, i, name), Look(order, Apply(i, c), name);
      f.revision == e.revision && WantedBy(f) == WantedBy(e)
    else name !in Apply(i, c).labels
  }

  lemma RevisionBounds(order: KeyOrder, i: Intents, name: string)
    requires name in i.labels
    ensures var e := Look(order, i, name);
            && i.labels[name].latest <= e.revision
            && (forall p | Covers(i, p, name) :: i.barriers[p].sequence <= e.revision)
            && (|| e.revision == i.labels[name].latest
                || exists p :: Covers(i, p, name) && i.barriers[p].sequence == e.revision)
  {
    NewestOfIsLatest(order, i, name);
    hide NewestOf;
  }

  /** What is wanted of a label that was looked at as `e` once a recorded
      command on it is in; bounds and reloads of a closed label do not count. */
  function AskedFor(e: Effective, closed: bool, c: Command): Wanted
    requires !c.Scope?
  {
    var bounds := if e.visibility == Visible then e.bounds else None;
    match c
    case NavigateTo(_, sequence, url, readOnlyUrl, rect) =>
      Wanted(Visible, Some(Navigation(sequence, url, readOnlyUrl)), Some(Bounds(sequence, rect)), e.reload)
    case SetBounds(_, sequence, rect) =>
      if closed then WantedBy(e) else Wanted(Visible, e.navigation, Some(Bounds(sequence, rect)), e.reload)
    case HideLabel(_, _) => if closed then WantedBy(e) else Wanted(Hidden, e.navigation, None, e.reload)
    case CloseLabel(_, _) => Wanted(Closed, None, None, None)
    case Reload(_, sequence) =>
      if closed then WantedBy(e) else Wanted(e.visibility, e.navigation, bounds, Some(sequence))
  }

  lemma LabelCommandAsks(order: KeyOrder, i: Intents, c: Command, name: string)
    requires !c.Scope? && c.name == name && name in i.labels && Recorded(i, c)
    ensures var e, f := Look(order, i, name), Look(order, Apply(i, c), name);
            f.revision == c.sequence && WantedBy(f) == AskedFor(e, IsClosed(i.labels[name]), c)
  {
    RevisionBounds(order, i, name);
    RevisionBounds(order, Apply(i, c), name);
    UpdatedLatest(IntentOf(i, name), c);
    hide NewestOf;
  }

  /** A command on the label slips exactly if it reuses the sequence of the
      revision and asks for something else than is wanted. */
  lemma LabelCommandSlipsExactly(order: KeyOrder, i: Intents, c: Command, name: string)
    requires !c.Scope? && name in i.labels
    ensures name in Apply(i, c).labels
    ensures Slips(order, i, c, name) <==>
            && c.name == name && Recorded(i, c)
            && var e := Look(order, i, name);
               c.sequence == e.revision && AskedFor(e, IsClosed(i.labels[name]), c) != WantedBy(e)
  {
    if c.name == name && Recorded(i, c) {
      RevisionBounds(order, i, name);
      LabelCommandAsks(order, i, c, name);
    }
    hide NewestOf, Updated;
  }

  lemma UpdatedLatest(l: LabelIntent, c: Command)
    requires !c.Scope?
    ensures Updated(l, c).latest == c.sequence
  {
  }

  ghost predicate DistinctBarriers(i: Intents, name: string) {
    forall p, q | Covers(i, p, name) && Covers(i, q, name) && p != q :: i.barriers[p].sequence != i.barriers[q].sequence
  }

  lemma LatestIsUnique(i: Intents, name: string, a: Option<ScopeBarrier>, b: Option<ScopeBarrier>)
    requires DistinctBarriers(i, name) && IsLatestBarrier(i, name, a) && IsLatestBarrier(i, name, b)
    ensures a == b
  {
    if a.Some? && b.Some? {
      var p :| Covers(i, p, name) && i.barriers[p] == a.value;
      var q :| Covers(i, q, name) && i.barriers[q] == b.value;
    }
  }

  /** Only the barriers that cover a label matter to it. */
  lemma SameCoversSameLook(order: KeyOrder, i: Intents, j: Intents, name: string)
    requires name in i.labels && name in j.labels && i.labels[name] == j.labels[name] && DistinctBarriers(i, name)
    requires forall p :: Covers(i, p, name) <==> Covers(j, p, name)
    requires forall p | Covers(i, p, name) && Covers(j, p, name) :: i.barriers[p] == j.barriers[p]
    ensures Look(order, i, name) == Look(order, j, name)
  {
    var b := NewestOf(order(j.barriers), j.barriers, name);
    NewestOfIsLatest(order, i, name);
    NewestOfIsLatest(order, j, name);
    hide NewestOf;
    if b.Some? {
      var p :| Covers(j, p, name) && j.barriers[p] == b.value;
      assert Covers(i, p, name);
    } else {
      assert forall p :: !Covers(j, p, name);
    }
    LatestIsUnique(i, name, b, NewestOf(order(i.barriers), i.barriers, name));
  }

  /** The intents once the barrier under a prefix is gone. */
  function Lifted(i: Intents, prefix: string): Intents {
    i.(barriers := i.barriers - {prefix})
  }

  /** A scope command slips past a label in its scope exactly if it is not newer
      than the revision and changes what is wanted, and past an exempt one exactly
      if the older barrier that it replaces was what made the difference. */
  lemma ScopeCommandIsUnnoticed(order: KeyOrder, i: Intents, c: Command, name: string)
    requires c.Scope? && name in i.labels && DistinctBarriers(i, name)
    ensures name in Apply(i, c).labels
    ensures Slips(order, i, c, name) <==>
            && Recorded(i, c)
            && (if InScope(name, c.prefix, c.except)
                then && c.sequence <= Look(order, i, name).revision
                     && WantedBy(Look(order, Apply(i, c), name)) != WantedBy(Look(order, i, name))
                else && Covers(i, c.prefix, name)
                     && Unnoticed(Look(order, i, name), Look(order, Lifted(i, c.prefix), name)))
  {
    if Recorded(i, c) {
      if InScope(name, c.prefix, c.except) {
        ScopeRaisesRevision(order, i, c, name);
      } else {
        ExemptSeesLifted(order, i, c, name);
      }
    }
    hide Look;
  }

  /** No barrier over the label is newer than the command. */
  ghost predicate OnTop(i: Intents, c: Command, name: string) {
    forall p | Covers(i, p, name) :: i.barriers[p].sequence <= c.sequence
  }

  /** What is wanted of a label in the scope of a recorded scope command: the
      command counts through its barrier, if that is the newest one and newer than
      the label's own visibility, and through the label, if it was collected and
      holds nothing newer. */
  ghost function ScopeAskedFor(e: Effective, i: Intents, c: Command, name: string): Wanted
    requires c.Scope? && name in i.labels
  {
    var l := i.labels[name];
    var scoped := name in c.existing && l.latest <= c.sequence;
    var own := l.visibility.GetOr(VisibilityIntent(0, Hidden)).sequence;
    var visibility :=
      if OnTop(i, c, name) && (scoped || own < c.sequence) then VisibilityOf(c.action) else e.visibility;
    var cleared := scoped && c.action == Close;
    Wanted(visibility, if cleared then None else e.navigation, if visibility == Visible then e.bounds else None,
           if cleared then None else e.reload)
  }

  ghost predicate DistinctFrom(i: Intents, c: Command, name: string)
    requires c.Scope?
  {
    DistinctBarriers(i, name) && forall p | Covers(i, p, name) && p != c.prefix :: i.barriers[p].sequence != c.sequence
  }

  lemma ScopeCommandAsks(order: KeyOrder, i: Intents, c: Command, name: string)
    requires c.Scope? && name in i.labels && Recorded(i, c) && InScope(name, c.prefix, c.except)
    requires Ordered(i, name) && DistinctFrom(i, c, name)
    ensures name in Apply(i, c).labels
    ensures WantedBy(Look(order, Apply(i, c), name)) == ScopeAskedFor(Look(order, i, name), i, c, name)
  {
    var j := Apply(i, c);
    ScopedLabel(i, c, name);
    NewestAfterScope(order, i, c, name);
    var a, b := NewestOf(order(i.barriers), i.barriers, name), NewestOf(order(j.barriers), j.barriers, name);
    NewestOfIsLatest(order, i, name);
    NewestIsOnTop(i, c, name, a);
    hide Apply, NewestOf, Scoped, Recorded, IsLatestBarrier, DistinctFrom, OnTop;
    BarrierAndLabel(i.labels[name], j.labels[name], c, name, a, b, OnTop(i, c, name));
  }

  lemma NewestAfterScope(order: KeyOrder, i: Intents, c: Command, name: string)
    requires c.Scope? && name in i.labels && Recorded(i, c) && InScope(name, c.prefix, c.except)
    requires DistinctFrom(i, c, name)
    ensures var j := Apply(i, c);
            NewestOf(order(j.barriers), j.barriers, name)
            == if OnTop(i, c, name) then Some(ScopeBarrier(c.sequence, c.action, c.except))
               else NewestOf(order(i.barriers), i.barriers, name)
  {
    ScopedLabel(i, c, name);
    var j := Apply(i, c);
    var a, b := NewestOf(order(i.barriers), i.barriers, name), NewestOf(order(j.barriers), j.barriers, name);
    NewestOfIsLatest(order, i, name);
    NewestOfIsLatest(order, j, name);
    hide Apply, NewestOf, Scoped;
    assert Covers(j, c.prefix, name);
    assert forall p | p != c.prefix :: Covers(j, p, name) <==> Covers(i, p, name);
    NewestWithOneMore(i, j, c, name, a, b);
    hide IsLatestBarrier, Covers;
  }

  lemma ScopedLabel(i: Intents, c: Command, name: string)
    requires c.Scope? && name in i.labels && Recorded(i, c) && InScope(name, c.prefix, c.except)
    ensures var l, j := i.labels[name], Apply(i, c);
            && name in j.labels
            && j.labels[name] == (if name in c.existing then Scoped(l, c.sequence, c.action) else l)
            && j.barriers == i.barriers[c.prefix := ScopeBarrier(c.sequence, c.action, c.except)]
  {
    hide Scoped;
  }

  lemma NewestIsOnTop(i: Intents, c: Command, name: string, a: Option<ScopeBarrier>)
    requires c.Scope? && IsLatestBarrier(i, name, a)
    ensures if OnTop(i, c, name) then a.Some? ==> a.value.sequence <= c.sequence
            else a.Some? && a.value.sequence > c.sequence
  {
    hide InScope;
  }

  /** The same for a label and the newest barrier over it, before and after. */
  lemma BarrierAndLabel(l: LabelIntent, m: LabelIntent, c: Command, name: string,
                        a: Option<ScopeBarrier>, b: Option<ScopeBarrier>, onTop: bool)
    requires c.Scope? && m == if name in c.existing then Scoped(l, c.sequence, c.action) else l
    requires l.visibility.Some? ==> l.visibility.value.sequence <= l.latest
    requires b == if onTop then Some(ScopeBarrier(c.sequence, c.action, c.except)) else a
    requires a.Some? && onTop ==> a.value.sequence <= c.sequence
    requires !onTop ==> a.Some? && a.value.sequence > c.sequence
    ensures var own := l.visibility.GetOr(VisibilityIntent(0, Hidden)).sequence;
            var scoped := name in c.existing && l.latest <= c.sequence;
            Combine(m, b).visibility
            == if onTop && (scoped || own < c.sequence) then VisibilityOf(c.action) else Combine(l, a).visibility
  {
  }

  lemma NewestWithOneMore(i: Intents, j: Intents, c: Command, name: string,
                          a: Option<ScopeBarrier>, b: Option<ScopeBarrier>)
    requires c.Scope? && DistinctBarriers(i, name) && BarrierAdvances(i, c.prefix, c.sequence)
    requires forall p | Covers(i, p, name) && p != c.prefix :: i.barriers[p].sequence != c.sequence
    requires Covers(j, c.prefix, name) && j.barriers[c.prefix] == ScopeBarrier(c.sequence, c.action, c.except)
    requires forall p | p != c.prefix :: Covers(j, p, name) <==> Covers(i, p, name)
    requires forall p | p != c.prefix && Covers(i, p, name) && Covers(j, p, name) :: j.barriers[p] == i.barriers[p]
    requires IsLatestBarrier(i, name, a) && IsLatestBarrier(j, name, b)
    ensures b == if forall p | Covers(i, p, name) :: i.barriers[p].sequence <= c.sequence
                 then Some(ScopeBarrier(c.sequence, c.action, c.except)) else a
  {
    hide InScope;
    assert b.Some?;
    var p :| Covers(j, p, name) && j.barriers[p] == b.value;
    if exists q :: Covers(i, q, name) && i.barriers[q].sequence > c.sequence {
      var q :| Covers(i, q, name) && i.barriers[q].sequence > c.sequence;
      assert Covers(j, q, name) && a.Some?;
      var r :| Covers(i, r, name) && i.barriers[r] == a.value;
      assert Covers(j, r, name);
      assert r == p;
    } else {
      assert p == c.prefix;
    }
  }

  /** A scope command slips past a label in its scope exactly if it is not newer
      than the revision and asks for something else than is wanted. */
  lemma ScopeCommandSlipsExactly(order: KeyOrder, i: Intents, c: Command, name: string)
    requires c.Scope? && name in i.labels && Ordered(i, name) && DistinctFrom(i, c, name)
    ensures Slips(order, i, c, name) <==>
            && Recorded(i, c)
            && var e := Look(order, i, name);
               if InScope(name, c.prefix, c.except)
               then c.sequence <= e.revision && ScopeAskedFor(e, i, c, name) != WantedBy(e)
               else Covers(i, c.prefix, name) && Unnoticed(e, Look(order, Lifted(i, c.prefix), name))
  {
    ScopeCommandIsUnnoticed(order, i, c, name);
    if Recorded(i, c) && InScope(name, c.prefix, c.except) {
      ScopeCommandAsks(order, i, c, name);
    }
    hide Look, Slips, Unnoticed, ScopeAskedFor, Apply;
  }

  /** A command newer than the revision slips exactly if it exempts the label and
      lifts a barrier that made the difference. */
  lemma NewerSlipsExactlyByLifting(order: KeyOrder, i: Intents, c: Command, name: string)
    requires name in i.labels && DistinctBarriers(i, name) && Look(order, i, name).revision < c.sequence
    ensures Slips(order, i, c, name) <==>
            && c.Scope? && Recorded(i, c) && !InScope(name, c.prefix, c.except) && Covers(i, c.prefix, name)
            && Unnoticed(Look(order, i, name), Look(order, Lifted(i, c.prefix), name))
  {
    if c.Scope? {
      ScopeCommandIsUnnoticed(order, i, c, name);
    } else {
      LabelCommandSlipsExactly(order, i, c, name);
    }
    hide Slips, Look, Unnoticed;
  }

  lemma ScopeRaisesRevision(order: KeyOrder, i: Intents, c: Command, name: string)
    requires c.Scope? && name in i.labels && Recorded(i, c) && InScope(name, c.prefix, c.except)
    ensures name in Apply(i, c).labels
    ensures var e, f := Look(order, i, name), Look(order, Apply(i, c), name);
            f.revision == if e.revision < c.sequence then c.sequence else e.revision
  {
    var j := Apply(i, c);
    RevisionBounds(order, i, name);
    RevisionBounds(order, j, name);
    assert Covers(j, c.prefix, name);
    assert forall p | p != c.prefix :: Covers(j, p, name) <==> Covers(i, p, name);
    hide Look;
  }

  lemma ExemptSeesLifted(order: KeyOrder, i: Intents, c: Command, name: string)
    requires c.Scope? && name in i.labels && Recorded(i, c) && !InScope(name, c.prefix, c.except)
    requires DistinctBarriers(i, name)
    ensures var j := Apply(i, c);
            && name in j.labels
            && Look(order, j, name) == Look(order, Lifted(i, c.prefix), name)
            && (!Covers(i, c.prefix, name) ==> Look(order, j, name) == Look(order, i, name))
  {
    var j, k := Apply(i, c), Lifted(i, c.prefix);
    forall p
      ensures Covers(j, p, name) <==> Covers(k, p, name)
      ensures Covers(k, p, name) <==> p != c.prefix && Covers(i, p, name)
    {
    }
    SameCoversSameLook(order, k, j, name);
    if !Covers(i, c.prefix, name) {
      SameCoversSameLook(order, i, j, name);
    }
  }

  // ---------------------------------------------------------------------
  // What commands do to a label between two looks
  // ---------------------------------------------------------------------

  /** Commands that do not slip: the revision does not fall, what is wanted
      changes only with it, and a navigation that stays keeps its marks. */
  ghost predicate Drifts(order: KeyOrder, i: Intents, j: Intents, name: string) {
    name in i.labels ==>
      name in j.labels &&
      var l, m, e, f := i.labels[name], j.labels[name], Look(order, i, name), Look(order, j, name);
      && !Unnoticed(e, f)
      && (m.navigation == l.navigation || m.navigation == None || m.navigation.value.sequence > e.revision)
      && (m.appliedNavigation == l.appliedNavigation || m.appliedNavigation == None)
      && (m.navigation.Some? && m.navigation == l.navigation ==>
            m.appliedNavigation == l.appliedNavigation && m.appliedReload == l.appliedReload)
  }

  lemma CommandDrifts(order: KeyOrder, i: Intents, c: Command, name: string)
    requires Ordered(i, name) && !Slips(order, i, c, name)
    ensures Drifts(order, i, Apply(i, c), name)
  {
    if name in i.labels {
      RevisionBounds(order, i, name);
      MarksFollowNavigation(i, c, name);
      if c.NavigateTo? && c.name == name && Recorded(i, c) {
        LabelCommandSlipsExactly(order, i, c, name);
      }
      LookHasLabel(order, i, name);
      LookHasLabel(order, Apply(i, c), name);
    }
    hide Look, Apply;
  }

  lemma LookHasLabel(order: KeyOrder, i: Intents, name: string)
    requires name in i.labels
    ensures var e, l := Look(order, i, name), i.labels[name];
            && e.navigation == l.navigation && e.bounds == l.bounds && e.reload == l.reload
            && e.appliedNavigation == l.appliedNavigation && e.appliedReload == l.appliedReload
            && (e.visibility == Visible ==> l.visibility.Some? && l.visibility.value.value == Visible)
  {
  }

  /** A command replaces a label's navigation by its own, or leaves the
      navigation with its marks, or clears all of it. */
  lemma MarksFollowNavigation(i: Intents, c: Command, name: string)
    requires name in i.labels
    ensures name in Apply(i, c).labels
    ensures var l, m := i.labels[name], Apply(i, c).labels[name];
            && (|| m.navigation == l.navigation || m.navigation == None
                || (c.NavigateTo? && c.name == name && Recorded(i, c)
                    && m.navigation == Some(Navigation(c.sequence, c.url, c.readOnlyUrl))))
            && (m.appliedNavigation == l.appliedNavigation || m.appliedNavigation == None)
            && (m.navigation.Some? ==> m.appliedNavigation == l.appliedNavigation && m.appliedReload == l.appliedReload)
  {
  }

  /** A command that changes nothing that is wanted leaves a settled webview so. */
  lemma StaysSettled(order: KeyOrder, i: Intents, c: Command, name: string, webviews: map<string, Webview>)
    requires WantedIn(order, i, name) == WantedIn(order, Apply(i, c), name) && Settled(order, i, name, webviews)
    ensures Settled(order, Apply(i, c), name, webviews)
  {
    if name in i.labels {
      MarksFollowNavigation(i, c, name);
      LookHasLabel(order, i, name);
      LookHasLabel(order, Apply(i, c), name);
      SameWantedSameAsk(webviews, name, Look(order, i, name), Look(order, Apply(i, c), name));
    }
    hide Look, Apply, Asked;
  }

  lemma DriftsThen(order: KeyOrder, i: Intents, j: Intents, k: Intents, name: string)
    requires Ordered(i, name) && Drifts(order, i, j, name) && Drifts(order, j, k, name)
    ensures Drifts(order, i, k, name)
  {
    if name in i.labels {
      RevisionBounds(order, i, name);
    }
    hide Look;
  }

  /** A webview that was sent to a marked navigation stays so. */
  lemma CommandKeepsLoaded(order: KeyOrder, i: Intents, c: Command, name: string, webviews: map<string, Webview>)
    requires AppliedLoaded(i, name, webviews) && Ordered(i, name) && !Slips(order, i, c, name)
    ensures AppliedLoaded(Apply(i, c), name, webviews)
  {
    MarkStaysRightExactly(i, c, name, webviews);
    if ReusesApplied(i, c, name, webviews) {
      RevisionBounds(order, i, name);
      LabelCommandSlipsExactly(order, i, c, name);
      LookHasLabel(order, i, name);
      LookHasLabel(order, Apply(i, c), name);
    }
    hide Look;
  }

  /** The same as `Drifts` for a label that the worker itself may have marked. */
  ghost predicate Moved(order: KeyOrder, i: Intents, j: Intents, name: string)
    requires name in i.labels
  {
    name in j.labels &&
    var l, m, e, f := i.labels[name], j.labels[name], Look(order, i, name), Look(order, j, name);
    && !Unnoticed(e, f)
    && (m.navigation == l.navigation || m.navigation == None || m.navigation.value.sequence > e.revision)
    && (m.appliedNavigation.Some? ==> m.appliedNavigation.value <= e.revision)
  }

  ghost predicate SameRevision(order: KeyOrder, i: Intents, j: Intents, name: string)
    requires name in i.labels
  {
    name in j.labels && Look(order, j, name).revision == Look(order, i, name).revision
  }

  /** The look's navigation is marked, while the revision stays. */
  ghost predicate NavigationMarked(order: KeyOrder, i: Intents, j: Intents, name: string)
    requires name in i.labels
  {
    SameRevision(order, i, j, name) && i.labels[name].navigation.Some? ==>
      j.labels[name].appliedNavigation == Some(i.labels[name].navigation.value.sequence)
  }

  /** A reload that was marked stays marked, while the revision stays. */
  ghost predicate ReloadKept(order: KeyOrder, i: Intents, j: Intents, name: string)
    requires name in i.labels
  {
    SameRevision(order, i, j, name) && i.labels[name].navigation.Some? ==>
      || j.labels[name].appliedReload == i.labels[name].appliedReload
      || j.labels[name].appliedReload == i.labels[name].reload
  }

  /** The reload that the look asks for is marked, while the revision stays. */
  ghost predicate ReloadDone(order: KeyOrder, i: Intents, j: Intents, name: string)
    requires name in i.labels
  {
    SameRevision(order, i, j, name) && i.labels[name].navigation.Some? && i.labels[name].reload.Some? ==>
      j.labels[name].appliedReload == i.labels[name].reload
  }

  lemma SameRevisionSameWanted(order: KeyOrder, i: Intents, j: Intents, name: string)
    requires name in i.labels && Moved(order, i, j, name) && SameRevision(order, i, j, name)
    ensures WantedBy(Look(order, j, name)) == WantedBy(Look(order, i, name))
  {
    hide Look;
  }

  lemma NothingMoved(order: KeyOrder, i: Intents, name: string)
    requires name in i.labels && Ordered(i, name)
    ensures Moved(order, i, i, name) && ReloadKept(order, i, i, name)
    ensures var l := i.labels[name];
            l.navigation.Some? && l.appliedNavigation == Some(l.navigation.value.sequence) ==>
              NavigationMarked(order, i, i, name)
  {
    RevisionBounds(order, i, name);
    hide Look;
  }

  lemma MovedThen(order: KeyOrder, i0: Intents, i: Intents, j: Intents, name: string)
    requires name in i0.labels && Moved(order, i0, i, name) && Drifts(order, i, j, name)
    ensures Moved(order, i0, j, name)
    ensures SameRevision(order, i0, j, name) ==> SameRevision(order, i0, i, name)
    ensures NavigationMarked(order, i0, i, name) ==> NavigationMarked(order, i0, j, name)
    ensures ReloadKept(order, i0, i, name) ==> ReloadKept(order, i0, j, name)
    ensures ReloadDone(order, i0, i, name) ==> ReloadDone(order, i0, j, name)
  {
    LookHasLabel(order, i0, name);
    LookHasLabel(order, i, name);
    LookHasLabel(order, j, name);
    hide Look;
  }

  lemma LabelsStay(i: Intents, c: Command, name: string)
    ensures name in i.labels ==> name in Apply(i, c).labels
  {
  }

  /** A command that leaves alone what a pass looks at leaves the mark as right or
      as wrong as it was. */
  lemma CalmKeepsMarks(order: KeyOrder, i: Intents, c: Command, name: string, webviews: map<string, Webview>)
    requires Calm(order, i, c, name)
    ensures AppliedLoaded(Apply(i, c), name, webviews) <==> AppliedLoaded(i, name, webviews)
  {
    if name in i.labels {
      MarksFollowNavigation(i, c, name);
      LookHasLabel(order, i, name);
      LookHasLabel(order, Apply(i, c), name);
    }
    hide Look, Apply;
  }

  /** A webview at another URL than the marked one is not settled. */
  lemma WrongIsNotSettled(order: KeyOrder, i: Intents, name: string, webviews: map<string, Webview>)
    requires name in i.labels && !AppliedLoaded(i, name, webviews) && Look(order, i, name).visibility != Closed
    ensures !Settled(order, i, name, webviews)
  {
    LookHasLabel(order, i, name);
    hide Look;
  }

  ghost predicate OnlyMarksDiffer(i: Intents, j: Intents, name: string) {
    && name in i.labels && name in j.labels && j.barriers == i.barriers
    && var l, m := i.labels[name], j.labels[name];
       m == l.(appliedNavigation := m.appliedNavigation, appliedReload := m.appliedReload)
  }

  /** Nothing is marked for the label. */
  predicate Unmarked(i: Intents, name: string) {
    name in i.labels ==> i.labels[name].appliedNavigation == None && i.labels[name].appliedReload == None
  }

  /** Marks show neither in the revision nor in what is wanted. */
  lemma MarksDoNotShow(order: KeyOrder, i: Intents, j: Intents, name: string)
    requires OnlyMarksDiffer(i, j, name)
    ensures Look(order, j, name).revision == Look(order, i, name).revision
    ensures WantedBy(Look(order, j, name)) == WantedBy(Look(order, i, name))
  {
    hide NewestOf;
  }

  /** The worker marks what it did, or clears its marks. */
  lemma MarkingMoves(order: KeyOrder, i0: Intents, i: Intents, j: Intents, name: string)
    requires name in i0.labels && Ordered(i0, name) && Moved(order, i0, i, name)
    requires OnlyMarksDiffer(i, j, name) && HasBounds(i, name) && Ordered(i, name)
    requires var l, m := i.labels[name], j.labels[name];
             || m.appliedNavigation == None || m.appliedNavigation == l.appliedNavigation
             || (m.appliedNavigation == Some(l.navigation.GetOr(Navigation(0, "", None)).sequence)
                 && l.navigation.Some? && l.navigation == i0.labels[name].navigation)
    ensures Moved(order, i0, j, name) && HasBounds(j, name) && Ordered(j, name)
    ensures SameRevision(order, i0, j, name) <==> SameRevision(order, i0, i, name)
    ensures SameRevision(order, i0, j, name) ==>
      j.labels[name].navigation == i0.labels[name].navigation && j.labels[name].reload == i0.labels[name].reload
  {
    RevisionBounds(order, i0, name);
    MarksDoNotShow(order, i, j, name);
    LookHasLabel(order, i0, name);
    LookHasLabel(order, i, name);
    hide Look;
  }

  /** The same without the look. */
  lemma MarkingKeepsInvariants(i: Intents, j: Intents, name: string)
    requires OnlyMarksDiffer(i, j, name) && HasBounds(i, name) && Ordered(i, name)
    requires var l, m := i.labels[name], j.labels[name];
             || m.appliedNavigation == None || m.appliedNavigation == l.appliedNavigation
             || (l.navigation.Some? && m.appliedNavigation == Some(l.navigation.value.sequence))
    ensures HasBounds(j, name) && Ordered(j, name)
  {
  }

  /** A webview that was sent to the look's navigation is right for whatever is
      marked now. */
  lemma SentIsLoaded(order: KeyOrder, i0: Intents, i: Intents, name: string, webviews: map<string, Webview>)
    requires name in i0.labels && Moved(order, i0, i, name) && name in webviews
    requires i0.labels[name].navigation.Some? && webviews[name].url == i0.labels[name].navigation.value.url
    ensures AppliedLoaded(i, name, webviews)
  {
    hide Look;
  }

  // ---------------------------------------------------------------------
  // Commands in any order
  // ---------------------------------------------------------------------

  /** Any commands, older or newer than what is recorded and in any order. */
  lemma {:induction false} AnyOrderKeepsInvariants(i: Intents, cs: seq<Command>, name: string)
    requires HasBounds(i, name) && Ordered(i, name)
    ensures HasBounds(Run(i, cs), name) && Ordered(Run(i, cs), name)
  {
    if cs != [] {
      var before, c := cs[..|cs| - 1], cs[|cs| - 1];
      AnyOrderKeepsInvariants(i, before, name);
      ApplyKeepsBounds(Run(i, before), c, name);
      ApplyKeepsOrdered(Run(i, before), c, name);
    }
    hide Apply, HasBounds, Ordered;
  }

  /** None of the commands uses the sequence that is marked as applied. */
  predicate LeavesMark(i: Intents, cs: seq<Command>, name: string) {
    forall k | 0 <= k < |cs| :: IntentOf(i, name).appliedNavigation != Some(cs[k].sequence)
  }

  /** Then a right mark stays right. */
  lemma {:induction false} AnyOrderKeepsMark(i: Intents, cs: seq<Command>, name: string, webviews: map<string, Webview>)
    requires AppliedLoaded(i, name, webviews) && LeavesMark(i, cs, name)
    ensures AppliedLoaded(Run(i, cs), name, webviews)
    ensures var mark := IntentOf(Run(i, cs), name).appliedNavigation;
            mark == IntentOf(i, name).appliedNavigation || mark == None
  {
    if cs != [] {
      var before, c := cs[..|cs| - 1], cs[|cs| - 1];
      AnyOrderKeepsMark(i, before, name, webviews);
      MarkStaysRightExactly(Run(i, before), c, name, webviews);
      MarkStaysOrGoes(Run(i, before), c, name);
    }
    hide Apply, AppliedLoaded, IntentOf;
  }

  lemma MarkStaysOrGoes(i: Intents, c: Command, name: string)
    ensures var mark := IntentOf(Apply(i, c), name).appliedNavigation;
            mark == IntentOf(i, name).appliedNavigation || mark == None
  {
  }
}
