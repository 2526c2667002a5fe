/** Commands arrive in any order: what the newest one for a label decides. */
module BrowserOrder {
  import opened Wrappers
  import opened BrowserLabels
  import opened BrowserIntents

  // ---------------------------------------------------------------------
  // Commands and labels
  // ---------------------------------------------------------------------

  predicate Touches(c: Command, name: string) {
    if c.Scope? then InScope(name, c.prefix, c.except) else c.name == name
  }

  /** Whether the command writes the label itself and not only a barrier. */
  predicate Reaches(c: Command, name: string) {
    c.Scope? ==> name in c.existing
  }

  predicate SamePrefix(c: Command, d: Command) {
    c.Scope? && d.Scope? && c.prefix == d.prefix
  }

  /** Commands that decide a label's visibility whatever came before; a label
      hide decides it up to a close that came before it. */
  predicate Decisive(c: Command) {
    c.NavigateTo? || c.HideLabel? || c.CloseLabel? || c.Scope?
  }

  function Decided(c: Command): Visibility {
    match c
    case HideLabel(_, _) => Hidden
    case CloseLabel(_, _) => Closed
    case Scope(_, _, action, _, _) => VisibilityOf(action)
    case _ => Visible
  }

  /** The k-th command is newer than all others that touch the label; those of
      other labels may be newer. */
  ghost predicate NewestFor(cs: seq<Command>, k: nat, name: string) {
    && k < |cs| && Touches(cs[k], name)
    && (forall j | 0 <= j < |cs| && j != k && Touches(cs[j], name) :: cs[j].sequence < cs[k].sequence)
  }

  /** A scope command is overtaken by one on its own prefix, which may exempt
      the label: a newer one that came before it keeps it from being recorded,
      and one not older that comes after it replaces its barrier, which matters
      if the barrier was all that it left for the label. */
  predicate Overtakes(cs: seq<Command>, k: nat, j: nat, name: string)
    requires k < |cs| && j < |cs|
  {
    SamePrefix(cs[k], cs[j]) &&
    if j < k then cs[j].sequence > cs[k].sequence
    else j > k && name !in cs[k].existing && cs[j].sequence >= cs[k].sequence
  }

  predicate Overtaken(cs: seq<Command>, k: nat, name: string)
    requires k < |cs|
  {
    exists j | 0 <= j < |cs| :: Overtakes(cs, k, j, name)
  }

  // ---------------------------------------------------------------------
  // Before and after the newest command arrives
  // ---------------------------------------------------------------------

  /** Everything that the state says of the label is older. */
  ghost predicate Below(i: Intents, name: string, sequence: nat) {
    && (forall p | Covers(i, p, name) :: i.barriers[p].sequence < sequence)
    && (name in i.labels ==>
          && i.labels[name].latest < sequence
          && (i.labels[name].visibility.Some? ==> i.labels[name].visibility.value.sequence < sequence))
  }

  /** The label as the command leaves it. */
  function Arrival(l: LabelIntent, c: Command): LabelIntent {
    if c.Scope? then Scoped(l, c.sequence, c.action) else Updated(l, c)
  }

  lemma ArrivalIsLatest(l: LabelIntent, c: Command)
    requires l.latest <= c.sequence
    ensures Arrival(l, c).latest == c.sequence
  {
  }

  predicate BarrierStands(i: Intents, c: Command) {
    c.Scope? && c.prefix in i.barriers && i.barriers[c.prefix] == ScopeBarrier(c.sequence, c.action, c.except)
  }

  /** The command was recorded over the label `l` and still stands: the label
      is exactly as the command left it, or, if it did not reach the label, its
      barrier is. */
  ghost predicate Held(i: Intents, name: string, c: Command, l: LabelIntent) {
    && (forall p | Covers(i, p, name) ::
          i.barriers[p].sequence < c.sequence || (c.Scope? && p == c.prefix && BarrierStands(i, c)))
    && (if Reaches(c, name) then name in i.labels && i.labels[name] == Arrival(l, c)
        else
          && BarrierStands(i, c)
          && (name in i.labels ==>
                && i.labels[name].latest < c.sequence
                && (i.labels[name].visibility.Some? ==> i.labels[name].visibility.value.sequence < c.sequence)))
  }

  /** A recorded newest command holds. */
  lemma NewestWins(i: Intents, name: string, c: Command)
    requires Below(i, name, c.sequence) && Touches(c, name) && Recorded(i, c)
    ensures Held(Apply(i, c), name, c, IntentOf(i, name))
  {
    var j := Apply(i, c);
    forall p | Covers(j, p, name)
      ensures j.barriers[p].sequence < c.sequence || (c.Scope? && p == c.prefix && BarrierStands(j, c))
    {
      assert !(c.Scope? && p == c.prefix) ==> Covers(i, p, name);
    }
  }

  /** It is recorded exactly if no newer barrier is on its own prefix; a
      command on a label always is. */
  lemma NewestIsRecorded(i: Intents, name: string, c: Command)
    requires Below(i, name, c.sequence) && Touches(c, name)
    ensures Recorded(i, c) <==> (c.Scope? && c.prefix in i.barriers ==> i.barriers[c.prefix].sequence <= c.sequence)
  {
  }

  lemma StaysBelow(i: Intents, name: string, d: Command, sequence: nat)
    requires Below(i, name, sequence) && (Touches(d, name) ==> d.sequence < sequence)
    ensures Below(Apply(i, d), name, sequence)
  {
    var j := Apply(i, d);
    assert forall p | Covers(j, p, name) :: Covers(i, p, name) || (d.Scope? && p == d.prefix && Touches(d, name));
  }

  /** Once a command holds, nothing older and nothing of another label matters,
      unless it replaces the barrier that is all there is. */
  lemma OlderChangesNothing(i: Intents, name: string, c: Command, l: LabelIntent, d: Command)
    requires Held(i, name, c, l) && Touches(c, name) && Arrival(l, c).latest == c.sequence
    requires Touches(d, name) ==> d.sequence < c.sequence
    requires !Reaches(c, name) && SamePrefix(c, d) ==> d.sequence < c.sequence
    ensures Held(Apply(i, d), name, c, l)
  {
    var j := Apply(i, d);
    if Recorded(i, d) {
      if d.Scope? {
        OlderScopeChangesNothing(i, name, c, l, d);
      } else if d.name == name {
        assert !Reaches(c, name) ==> Covers(i, c.prefix, name);
      } else {
        assert forall p :: Covers(j, p, name) <==> Covers(i, p, name);
      }
    }
  }

  lemma OlderScopeChangesNothing(i: Intents, name: string, c: Command, l: LabelIntent, d: Command)
    requires Held(i, name, c, l) && Touches(c, name) && Arrival(l, c).latest == c.sequence
    requires d.Scope? && Recorded(i, d) && (Touches(d, name) ==> d.sequence < c.sequence)
    requires !Reaches(c, name) && SamePrefix(c, d) ==> d.sequence < c.sequence
    ensures Held(Apply(i, d), name, c, l)
  {
    var j := Apply(i, d);
    assert !Reaches(c, name) ==> d.prefix != c.prefix;
    forall p | Covers(j, p, name)
      ensures j.barriers[p].sequence < c.sequence || (c.Scope? && p == c.prefix && BarrierStands(j, c))
    {
      if p != d.prefix {
        assert Covers(i, p, name);
      }
    }
  }

  /** A barrier that is replaced by one which exempts the label is gone. */
  lemma BarrierIsLost(i: Intents, name: string, c: Command, l: LabelIntent, d: Command)
    requires Held(i, name, c, l) && Touches(c, name) && !Reaches(c, name)
    requires SamePrefix(c, d) && d.sequence >= c.sequence && !Touches(d, name)
    ensures Below(Apply(i, d), name, c.sequence)
  {
    var j := Apply(i, d);
    assert Recorded(i, d);
    forall p | Covers(j, p, name)
      ensures j.barriers[p].sequence < c.sequence
    {
      assert p != d.prefix;
      assert Covers(i, p, name);
    }
  }

  // ---------------------------------------------------------------------
  // Runs
  // ---------------------------------------------------------------------

  lemma {:induction false} RunStaysBelow(cs: seq<Command>, name: string, sequence: nat)
    requires forall j | 0 <= j < |cs| && Touches(cs[j], name) :: cs[j].sequence < sequence
    ensures Below(Run(NO_INTENTS, cs), name, sequence)
  {
    if cs != [] {
      RunStaysBelow(cs[..|cs| - 1], name, sequence);
      StaysBelow(Run(NO_INTENTS, cs[..|cs| - 1]), name, cs[|cs| - 1], sequence);
    }
  }

  /** The barrier of a prefix carries the newest sequence of the scope commands
      on that prefix. */
  lemma {:induction false} PrefixBarrier(cs: seq<Command>, prefix: string)
    ensures var i := Run(NO_INTENTS, cs);
            && (forall j | 0 <= j < |cs| && cs[j].Scope? && cs[j].prefix == prefix ::
                  prefix in i.barriers && cs[j].sequence <= i.barriers[prefix].sequence)
            && (prefix in i.barriers ==>
                  exists j | 0 <= j < |cs| :: cs[j].Scope? && cs[j].prefix == prefix
                                              && cs[j].sequence == i.barriers[prefix].sequence)
  {
    if cs != [] {
      var init, last := cs[..|cs| - 1], cs[|cs| - 1];
      PrefixBarrier(init, prefix);
      var i, j := Run(NO_INTENTS, init), Run(NO_INTENTS, cs);
      if last.Scope? && last.prefix == prefix && Recorded(i, last) {
        assert j.barriers[prefix].sequence == cs[|cs| - 1].sequence;
      } else {
        assert prefix in j.barriers ==> prefix in i.barriers && j.barriers[prefix] == i.barriers[prefix];
        if prefix in i.barriers {
          var k :| 0 <= k < |init| && init[k].Scope? && init[k].prefix == prefix
                   && init[k].sequence == i.barriers[prefix].sequence;
          assert cs[k] == init[k];
        }
      }
    }
  }

  /** The label when the k-th command arrives. */
  function Found(cs: seq<Command>, k: nat, name: string): LabelIntent
    requires k < |cs|
  {
    IntentOf(Run(NO_INTENTS, cs[..k]), name)
  }

  /** At the end the newest command for a label holds, or, exactly if it was
      overtaken, nothing is left of it. */
  lemma {:induction false} RunToNewest(cs: seq<Command>, k: nat, name: string)
    requires NewestFor(cs, k, name)
    ensures Found(cs, k, name).latest <= cs[k].sequence
    ensures if Overtaken(cs, k, name) then Below(Run(NO_INTENTS, cs), name, cs[k].sequence)
            else Held(Run(NO_INTENTS, cs), name, cs[k], Found(cs, k, name))
    decreases |cs|
  {
    var init, last := cs[..|cs| - 1], cs[|cs| - 1];
    if k == |cs| - 1 {
      Arrives(cs, name);
    } else {
      assert NewestFor(init, k, name) && init[..k] == cs[..k];
      RunToNewest(init, k, name);
      OvertakenSoFar(cs, k, name);
      OneMore(init, k, name, last);
      assert cs == init + [last];
    }
  }

  lemma Arrives(cs: seq<Command>, name: string)
    requires cs != [] && NewestFor(cs, |cs| - 1, name)
    ensures Found(cs, |cs| - 1, name).latest <= cs[|cs| - 1].sequence
    ensures if Overtaken(cs, |cs| - 1, name) then Below(Run(NO_INTENTS, cs), name, cs[|cs| - 1].sequence)
            else Held(Run(NO_INTENTS, cs), name, cs[|cs| - 1], Found(cs, |cs| - 1, name))
  {
    var k := |cs| - 1;
    var init, c := cs[..k], cs[k];
    var i := Run(NO_INTENTS, init);
    RunStaysBelow(init, name, c.sequence);
    NewestIsRecorded(i, name, c);
    if c.Scope? {
      PrefixBarrier(init, c.prefix);
      assert Recorded(i, c) <==> !Overtaken(cs, k, name) by {
        assert forall j | 0 <= j < k ::
          Overtakes(cs, k, j, name) <==> SamePrefix(c, init[j]) && init[j].sequence > c.sequence;
      }
    }
    if Recorded(i, c) {
      NewestWins(i, name, c);
    }
    hide Held, Below, Apply, Recorded;
  }

  lemma OvertakenSoFar(cs: seq<Command>, k: nat, name: string)
    requires k < |cs| - 1
    ensures Overtaken(cs, k, name) <==>
            Overtaken(cs[..|cs| - 1], k, name) || Overtakes(cs, k, |cs| - 1, name)
  {
    var init := cs[..|cs| - 1];
    assert forall j | 0 <= j < |init| :: Overtakes(init, k, j, name) <==> Overtakes(cs, k, j, name);
  }

  lemma OneMore(init: seq<Command>, k: nat, name: string, d: Command)
    requires NewestFor(init, k, name) && NewestFor(init + [d], k, name)
    requires Found(init, k, name).latest <= init[k].sequence
    requires if Overtaken(init, k, name) then Below(Run(NO_INTENTS, init), name, init[k].sequence)
             else Held(Run(NO_INTENTS, init), name, init[k], Found(init, k, name))
    ensures var cs := init + [d];
            if Overtaken(init, k, name) || Overtakes(cs, k, |init|, name)
            then Below(Run(NO_INTENTS, cs), name, init[k].sequence)
            else Held(Run(NO_INTENTS, cs), name, init[k], Found(init, k, name))
  {
    var cs := init + [d];
    var i, l, c := Run(NO_INTENTS, init), Found(init, k, name), init[k];
    assert cs[..|init|] == init && cs[|init|] == d && cs[k] == c;
    ArrivalIsLatest(l, c);
    assert Touches(d, name) ==> d.sequence < c.sequence;
    hide Held, Below, Apply, Found, Arrival;
    if Overtaken(init, k, name) {
      StaysBelow(i, name, d, c.sequence);
    } else if Overtakes(cs, k, |init|, name) {
      BarrierIsLost(i, name, c, l, d);
    } else {
      OlderChangesNothing(i, name, c, l, d);
    }
  }

  // ---------------------------------------------------------------------
  // What the newest command decides
  // ---------------------------------------------------------------------

  predicate Agrees(c: Command, v: Visibility) {
    v == Decided(c) || (c.HideLabel? && v == Closed)
  }

  /** Whatever the order of arrival, and whatever happens to other labels: the
      label's revision is that of its newest command exactly if that command
      was not overtaken on its own prefix. Then a navigation, a close, or a
      scope command fixes the effective visibility; a navigation also fixes the
      URL and the bounds, and a close that knew the label leaves no navigation.
      A label hide leaves the label hidden or closed. */
  lemma NewestCommandDecides(cs: seq<Command>, k: nat, name: string, e: Effective)
    requires NewestFor(cs, k, name) && IsEffective(Run(NO_INTENTS, cs), name, Some(e))
    ensures e.revision == cs[k].sequence <==> !Overtaken(cs, k, name)
    ensures Overtaken(cs, k, name) ==> e.revision < cs[k].sequence
    ensures !Overtaken(cs, k, name) && Decisive(cs[k]) ==> Agrees(cs[k], e.visibility)
    ensures cs[k].NavigateTo? ==>
      && e.navigation == Some(Navigation(cs[k].sequence, cs[k].url, cs[k].readOnlyUrl))
      && e.bounds == Some(Bounds(cs[k].sequence, cs[k].rect))
    ensures !Overtaken(cs, k, name)
            && (cs[k].CloseLabel? || (cs[k].Scope? && cs[k].action == Close && name in cs[k].existing)) ==>
      e.navigation == None
  {
    RunToNewest(cs, k, name);
    var i := Run(NO_INTENTS, cs);
    hide Run, Held, Below, Found;
    if Overtaken(cs, k, name) {
      BelowIsOlder(i, name, cs[k].sequence, e);
    } else {
      HeldDecides(i, name, cs[k], Found(cs, k, name), e);
    }
  }

  lemma BelowIsOlder(i: Intents, name: string, sequence: nat, e: Effective)
    requires Below(i, name, sequence) && IsEffective(i, name, Some(e))
    ensures e.revision < sequence
  {
    var b :| IsLatestBarrier(i, name, b) && Some(e) == Some(Combine(i.labels[name], b));
    if b.Some? {
      var p :| p in i.barriers && Covers(i, p, name) && i.barriers[p] == b.value;
    }
  }

  lemma HeldDecides(i: Intents, name: string, c: Command, l: LabelIntent, e: Effective)
    requires Held(i, name, c, l) && Touches(c, name) && l.latest <= c.sequence && IsEffective(i, name, Some(e))
    ensures e.revision == c.sequence
    ensures Decisive(c) ==> Agrees(c, e.visibility)
    ensures c.NavigateTo? ==>
      && e.navigation == Some(Navigation(c.sequence, c.url, c.readOnlyUrl))
      && e.bounds == Some(Bounds(c.sequence, c.rect))
    ensures c.CloseLabel? || (c.Scope? && c.action == Close && name in c.existing) ==> e.navigation == None
  {
    var b :| IsLatestBarrier(i, name, b) && Some(e) == Some(Combine(i.labels[name], b));
    if b.Some? {
      var p :| p in i.barriers && Covers(i, p, name) && i.barriers[p] == b.value;
    }
    assert c.Scope? && !Reaches(c, name) ==> Covers(i, c.prefix, name);
    HeldVisibility(i, name, c, l, b, e);
  }

  lemma HeldVisibility(i: Intents, name: string, c: Command, l: LabelIntent, b: Option<ScopeBarrier>, e: Effective)
    requires Held(i, name, c, l) && Touches(c, name) && l.latest <= c.sequence && name in i.labels
    requires IsLatestBarrier(i, name, b) && e == Combine(i.labels[name], b)
    ensures Decisive(c) ==> Agrees(c, e.visibility)
  {
    if b.Some? {
      var p :| p in i.barriers && Covers(i, p, name) && i.barriers[p] == b.value;
    }
    assert c.Scope? && !Reaches(c, name) ==> Covers(i, c.prefix, name);
  }

  /** No scope command on the prefix of the k-th one is as new. */
  ghost predicate NewestOnPrefix(cs: seq<Command>, k: nat)
    requires k < |cs|
  {
    forall j | 0 <= j < |cs| && j != k && SamePrefix(cs[k], cs[j]) :: cs[j].sequence < cs[k].sequence
  }

  /** Two arrivals of the same commands agree on the label whenever its newest
      command is decisive and is also the newest on its own prefix. */
  lemma OrderDoesNotMatter(a: seq<Command>, b: seq<Command>, k: nat, name: string, ea: Effective, eb: Effective)
    requires multiset(a) == multiset(b)
    requires NewestFor(a, k, name) && Decisive(a[k]) && NewestOnPrefix(a, k)
    requires IsEffective(Run(NO_INTENTS, a), name, Some(ea))
    requires IsEffective(Run(NO_INTENTS, b), name, Some(eb))
    ensures ea.revision == eb.revision
    ensures !a[k].HideLabel? ==> ea.visibility == eb.visibility
    ensures a[k].NavigateTo? ==> ea.navigation == eb.navigation && ea.bounds == eb.bounds
  {
    NewestCommandDecides(a, k, name, ea);
    assert a[k] in multiset(a) && a[k] in b;
    var m :| 0 <= m < |b| && b[m] == a[k];
    forall j | 0 <= j < |b| && j != m && (Touches(b[j], name) || SamePrefix(b[m], b[j]))
      ensures b[j].sequence < b[m].sequence
    {
      var i := OneOfTheOthers(a, b, k, m, j);
    }
    NewestCommandDecides(b, m, name, eb);
    hide Run, IsEffective, Touches;
    assert !Overtaken(a, k, name) && !Overtaken(b, m, name);
  }

  lemma OneOfTheOthers(a: seq<Command>, b: seq<Command>, k: nat, m: nat, j: nat) returns (i: nat)
    requires multiset(a) == multiset(b) && k < |a| && m < |b| && j < |b| && j != m && b[m] == a[k]
    ensures i < |a| && i != k && a[i] == b[j]
  {
    var restA, restB := a[..k] + a[k + 1..], b[..m] + b[m + 1..];
    WithoutOne(a, k);
    WithoutOne(b, m);
    assert b[j] == restB[if j < m then j else j - 1];
    assert b[j] in multiset(restB) && b[j] in multiset(restA);
    var r :| 0 <= r < |restA| && restA[r] == b[j];
    i := if r < k then r else r + 1;
    assert restA[r] == a[i];
  }

  lemma WithoutOne(cs: seq<Command>, k: nat)
    requires k < |cs|
    ensures multiset(cs[..k] + cs[k + 1..]) == multiset(cs) - multiset{cs[k]}
  {
    assert cs == cs[..k] + [cs[k]] + cs[k + 1..];
  }

  // ---------------------------------------------------------------------
  // Label hides
  // ---------------------------------------------------------------------

  function OnlyVisibility(latest: nat, sequence: nat, value: Visibility): LabelIntent {
    DEFAULT_INTENT.(latest := latest, visibility := Some(VisibilityIntent(sequence, value)))
  }

  /** A label hide that comes after the close leaves the label closed; the
      close that arrives after the hide is dropped. */
  lemma HideDependsOnOrder(name: string)
    ensures var close, later := CloseLabel(name, 5), HideLabel(name, 6);
            && IsEffective(Run(NO_INTENTS, [close, later]), name, Some(Combine(OnlyVisibility(6, 5, Closed), None)))
            && IsEffective(Run(NO_INTENTS, [later, close]), name, Some(Combine(OnlyVisibility(6, 6, Hidden), None)))
  {
    var close, later := CloseLabel(name, 5), HideLabel(name, 6);
    TwoCommands(close, later);
    TwoCommands(later, close);
    assert IsLatestBarrier(Run(NO_INTENTS, [close, later]), name, None);
    assert IsLatestBarrier(Run(NO_INTENTS, [later, close]), name, None);
  }

  lemma TwoCommands(c: Command, d: Command)
    ensures Run(NO_INTENTS, [c, d]) == Apply(Apply(NO_INTENTS, c), d)
  {
    assert [c, d][..1] == [c] && [c][..0] == [];
    assert Run(NO_INTENTS, [c]) == Apply(Run(NO_INTENTS, []), c);
  }

  /** When the newest command for a label is a label hide, then at the end of
      the run the label is hidden unless it was closed when the hide arrived.
      In that case a barrier newer than that close decides, if there is one,
      whether it came before or after the hide; without one it is closed. */
  lemma HideDecidesUnlessClosed(cs: seq<Command>, k: nat, name: string, b: Option<ScopeBarrier>, e: Effective)
    requires NewestFor(cs, k, name) && cs[k].HideLabel?
    requires var i := Run(NO_INTENTS, cs);
             name in i.labels && IsLatestBarrier(i, name, b) && e == Combine(i.labels[name], b)
    ensures var l := Found(cs, k, name);
            e.visibility == Hidden <==>
              || !IsClosed(l)
              || (b.Some? && b.value.sequence > l.visibility.value.sequence && b.value.action == Hide)
    ensures e.visibility != Hidden ==> e.visibility == Closed
  {
    RunToNewest(cs, k, name);
    var i, l := Run(NO_INTENTS, cs), Found(cs, k, name);
    hide Run, Found;
    assert Held(i, name, cs[k], l);
    if b.Some? {
      var p :| p in i.barriers && Covers(i, p, name) && i.barriers[p] == b.value;
    }
  }

  // ---------------------------------------------------------------------
  // Leaving Closed
  // ---------------------------------------------------------------------

  /** The newest barrier over the label on any other prefix. */
  ghost predicate IsNewestOther(i: Intents, prefix: string, name: string, r: Option<ScopeBarrier>) {
    match r
    case None => forall p | p in i.barriers && p != prefix :: !Covers(i, p, name)
    case Some(b) =>
      && (exists p | p in i.barriers && p != prefix :: Covers(i, p, name) && i.barriers[p] == b)
      && (forall p | p in i.barriers && p != prefix ::
            Covers(i, p, name) ==> i.barriers[p].sequence <= b.sequence)
  }

  /** Which recorded scope commands reopen an effectively closed label. One
      that covers the label does by its own action, unless a barrier on another
      prefix is newer than it, or the label's own visibility is newer and the
      command does not write the label. One that exempts the label lifts the
      older barrier on its prefix and leaves the rest to decide. */
  predicate ScopeReopens(l: LabelIntent, name: string, c: Command, r: Option<ScopeBarrier>)
    requires c.Scope?
  {
    var own := l.visibility.GetOr(VisibilityIntent(0, Hidden));
    if InScope(name, c.prefix, c.except) then
      if r.Some? && r.value.sequence > c.sequence && r.value.sequence > own.sequence then r.value.action == Hide
      else if c.sequence > own.sequence || (name in c.existing && c.sequence >= l.latest) then c.action == Hide
      else own.value != Closed
    else
      if r.Some? && r.value.sequence > own.sequence then r.value.action == Hide else own.value != Closed
  }

  /** What a caller can check before the command: its sequence against the
      label and the barriers. */
  predicate Reopens(i: Intents, name: string, c: Command, r: Option<ScopeBarrier>)
    requires name in i.labels
  {
    && Recorded(i, c)
    && match c
       case NavigateTo(n, _, _, _, _) => n == name
       case SetBounds(n, _, _) => n == name && !IsClosed(i.labels[name])
       case HideLabel(n, _) => n == name && !IsClosed(i.labels[name])
       case Scope(_, _, _, _, _) => ScopeReopens(i.labels[name], name, c, r)
       case _ => false
  }

  /** No two commands have the same sequence. */
  ghost predicate Distinct(cs: seq<Command>) {
    forall j, k | 0 <= j < k < |cs| :: cs[j].sequence != cs[k].sequence
  }

  /** After any commands with distinct sequences, the next one makes an
      effectively closed label effectively visible or hidden exactly if it is
      one of these. */
  lemma ClosedIsReopenedExactlyBy(cs: seq<Command>, c: Command, name: string, r: Option<ScopeBarrier>,
                                  e: Effective, f: Effective)
    requires Distinct(cs + [c])
    requires var i := Run(NO_INTENTS, cs);
             && IsEffective(i, name, Some(e)) && e.visibility == Closed
             && IsEffective(Apply(i, c), name, Some(f))
             && (c.Scope? ==> IsNewestOther(i, c.prefix, name, r))
    ensures f.visibility != Closed <==> Reopens(Run(NO_INTENTS, cs), name, c, r)
  {
    var i := Run(NO_INTENTS, cs);
    BarriersAreDistinct(cs, c);
    RunIsOrderly(cs, name);
    var b :| IsLatestBarrier(i, name, b) && Some(e) == Some(Combine(i.labels[name], b));
    var d :| IsLatestBarrier(Apply(i, c), name, d) && Some(f) == Some(Combine(Apply(i, c).labels[name], d));
    hide Run, Distinct, Combine, Reopens;
    ClosedStep(i, c, name, r, b, d);
  }

  /** The same for the newest barriers over the label before and after. */
  lemma ClosedStep(i: Intents, c: Command, name: string, r: Option<ScopeBarrier>, b: Option<ScopeBarrier>,
                   d: Option<ScopeBarrier>)
    requires DistinctBarriers(i) && NewSequence(i, c.sequence) && Orderly(i, name)
    requires name in i.labels && IsLatestBarrier(i, name, b) && Combine(i.labels[name], b).visibility == Closed
    requires name in Apply(i, c).labels && IsLatestBarrier(Apply(i, c), name, d)
    requires c.Scope? ==> IsNewestOther(i, c.prefix, name, r)
    ensures Combine(Apply(i, c).labels[name], d).visibility != Closed <==> Reopens(i, name, c, r)
  {
    if !Recorded(i, c) {
      SameBarrier(i, Apply(i, c), name, b, d);
    } else if c.Scope? {
      ScopeAgainstClosed(i, name, c, r, d);
    } else {
      SameBarrier(i, Apply(i, c), name, b, d);
      LabelAgainstClosed(i, name, c, b);
    }
    hide Combine, ScopeReopens, IsLatestBarrier, IsNewestOther, DistinctBarriers, NewSequence, SequenceIsCurrent,
         ScopedLabels, Updated, Orderly;
  }

  ghost predicate DistinctBarriers(i: Intents) {
    forall p, q | p in i.barriers && q in i.barriers && p != q :: i.barriers[p].sequence != i.barriers[q].sequence
  }

  ghost predicate NewSequence(i: Intents, sequence: nat) {
    forall p | p in i.barriers :: i.barriers[p].sequence != sequence
  }

  lemma BarriersAreDistinct(cs: seq<Command>, c: Command)
    requires Distinct(cs + [c])
    ensures DistinctBarriers(Run(NO_INTENTS, cs)) && NewSequence(Run(NO_INTENTS, cs), c.sequence)
  {
    var i := Run(NO_INTENTS, cs);
    var all := cs + [c];
    hide Run;
    forall p | p in i.barriers
      ensures exists j | 0 <= j < |cs| :: cs[j].Scope? && cs[j].prefix == p && cs[j].sequence == i.barriers[p].sequence
      ensures i.barriers[p].sequence != c.sequence
    {
      PrefixBarrier(cs, p);
      var j :| 0 <= j < |cs| && cs[j].Scope? && cs[j].prefix == p && cs[j].sequence == i.barriers[p].sequence;
      assert all[j] == cs[j] && all[|cs|] == c;
    }
    forall p, q | p in i.barriers && q in i.barriers && p != q
      ensures i.barriers[p].sequence != i.barriers[q].sequence
    {
      var j :| 0 <= j < |cs| && cs[j].Scope? && cs[j].prefix == p && cs[j].sequence == i.barriers[p].sequence;
      var k :| 0 <= k < |cs| && cs[k].Scope? && cs[k].prefix == q && cs[k].sequence == i.barriers[q].sequence;
      assert all[j] == cs[j] && all[k] == cs[k];
    }
  }

  /** A label's visibility is never newer than its newest sequence. */
  predicate Orderly(i: Intents, name: string) {
    name in i.labels && i.labels[name].visibility.Some? ==>
      i.labels[name].visibility.value.sequence <= i.labels[name].latest
  }

  lemma {:induction false} RunIsOrderly(cs: seq<Command>, name: string)
    ensures Orderly(Run(NO_INTENTS, cs), name)
  {
    if cs != [] {
      RunIsOrderly(cs[..|cs| - 1], name);
      ApplyIsOrderly(Run(NO_INTENTS, cs[..|cs| - 1]), name, cs[|cs| - 1]);
    }
  }

  lemma ApplyIsOrderly(i: Intents, name: string, c: Command)
    requires Orderly(i, name)
    ensures Orderly(Apply(i, c), name)
  {
  }

  lemma SameBarrier(i: Intents, j: Intents, name: string, b: Option<ScopeBarrier>, d: Option<ScopeBarrier>)
    requires i.barriers == j.barriers && DistinctBarriers(i)
    requires IsLatestBarrier(i, name, b) && IsLatestBarrier(j, name, d)
    ensures b == d
  {
    assert forall p :: Covers(i, p, name) <==> Covers(j, p, name);
    if b.Some? {
      var p :| p in i.barriers && Covers(i, p, name) && i.barriers[p] == b.value;
      assert Covers(j, p, name);
    }
    if d.Some? {
      var q :| q in j.barriers && Covers(j, q, name) && j.barriers[q] == d.value;
      assert Covers(i, q, name);
    }
  }

  lemma LabelAgainstClosed(i: Intents, name: string, c: Command, b: Option<ScopeBarrier>)
    requires name in i.labels && IsLatestBarrier(i, name, b) && Combine(i.labels[name], b).visibility == Closed
    requires !c.Scope? && Recorded(i, c)
    ensures Combine(Apply(i, c).labels[name], b).visibility != Closed <==> Reopens(i, name, c, None)
  {
    if b.Some? {
      var p :| p in i.barriers && Covers(i, p, name) && i.barriers[p] == b.value;
    }
  }

  lemma ScopeAgainstClosed(i: Intents, name: string, c: Command, r: Option<ScopeBarrier>, d: Option<ScopeBarrier>)
    requires name in i.labels && c.Scope? && Recorded(i, c) && Orderly(i, name)
    requires DistinctBarriers(i) && NewSequence(i, c.sequence) && IsNewestOther(i, c.prefix, name, r)
    requires IsLatestBarrier(Apply(i, c), name, d)
    ensures Combine(Apply(i, c).labels[name], d).visibility != Closed <==> ScopeReopens(i.labels[name], name, c, r)
  {
    NewestAfterScope(i, name, c, r, d);
    hide IsLatestBarrier, IsNewestOther, DistinctBarriers, NewSequence, Recorded, Covers;
    var targets := Targets(c.existing, c.prefix, c.except);
    assert name in targets <==> name in c.existing && InScope(name, c.prefix, c.except);
  }

  /** After a recorded scope command the newest barrier over the label is that
      of the command, if it covers the label and no other prefix has a newer
      one, and otherwise the newest one of the others. */
  lemma NewestAfterScope(i: Intents, name: string, c: Command, r: Option<ScopeBarrier>, d: Option<ScopeBarrier>)
    requires c.Scope? && Recorded(i, c)
    requires DistinctBarriers(i) && NewSequence(i, c.sequence) && IsNewestOther(i, c.prefix, name, r)
    requires IsLatestBarrier(Apply(i, c), name, d)
    ensures d == if InScope(name, c.prefix, c.except) && (r == None || r.value.sequence < c.sequence)
                 then Some(ScopeBarrier(c.sequence, c.action, c.except)) else r
    ensures r.Some? ==> r.value.sequence != c.sequence
  {
    var j := Apply(i, c);
    assert forall p | p != c.prefix :: Covers(i, p, name) <==> Covers(j, p, name);
    assert Covers(j, c.prefix, name) <==> InScope(name, c.prefix, c.except);
    if r.Some? {
      var p :| p in i.barriers && p != c.prefix && Covers(i, p, name) && i.barriers[p] == r.value;
      assert Covers(j, p, name) && j.barriers[p] == r.value;
    }
    if d.Some? {
      var q :| q in j.barriers && Covers(j, q, name) && j.barriers[q] == d.value;
      assert q != c.prefix ==> Covers(i, q, name);
    }
  }

  /** Closed is not absorbing: a later scope hide makes a closed label hidden. */
  lemma ScopeHideReopens(name: string, prefix: string)
    requires StartsWith(name, prefix)
    ensures var cs := [CloseLabel(name, 5), Scope(prefix, 6, Hide, None, [name])];
            IntentOf(Run(NO_INTENTS, cs), name).visibility == Some(VisibilityIntent(6, Hidden))
  {
    TwoCommands(CloseLabel(name, 5), Scope(prefix, 6, Hide, None, [name]));
    assert name in Targets([name], prefix, None);
  }

  /** The stored close is overwritten exactly by a navigation that is recorded
      and by a recorded scope hide that writes the label. */
  lemma StoredCloseIsOverwrittenExactlyBy(i: Intents, name: string, c: Command)
    requires name in i.labels && IsClosed(i.labels[name])
    ensures IsClosed(IntentOf(Apply(i, c), name)) <==>
            !(Recorded(i, c) && match c
                                case NavigateTo(n, _, _, _, _) => n == name
                                case Scope(prefix, sequence, action, except, existing) =>
                                  action == Hide && name in Targets(existing, prefix, except)
                                  && sequence >= i.labels[name].latest
                                case _ => false)
  {
    var j := Apply(i, c);
    if Recorded(i, c) && c.Scope? {
      assert name in j.labels;
    }
  }

  // ---------------------------------------------------------------------
  // Navigations that survive
  // ---------------------------------------------------------------------

  /** A bounds command that overtakes its navigation suppresses it: the label
      is asked to be visible without anything to show. */
  lemma BoundsCanSuppressNavigation(name: string, url: string, rect: Rect)
    ensures var nav, bounds := NavigateTo(name, 5, url, None, rect), SetBounds(name, 6, rect);
            && IntentOf(Run(NO_INTENTS, [nav, bounds]), name).navigation.Some?
            && IntentOf(Run(NO_INTENTS, [bounds, nav]), name).navigation == None
            && IntentOf(Run(NO_INTENTS, [bounds, nav]), name).visibility == Some(VisibilityIntent(6, Visible))
  {
    var nav, bounds := NavigateTo(name, 5, url, None, rect), SetBounds(name, 6, rect);
    TwoCommands(nav, bounds);
    TwoCommands(bounds, nav);
  }

  /** A recorded navigation, close, or scope close that writes the label. */
  predicate ReplacesNavigation(i: Intents, name: string, c: Command) {
    && Recorded(i, c)
    && match c
       case NavigateTo(n, _, _, _, _) => n == name
       case CloseLabel(n, _) => n == name
       case Scope(prefix, sequence, action, except, existing) =>
         action == Close && name in Targets(existing, prefix, except) && sequence >= IntentOf(i, name).latest
       case _ => false
  }

  function NavigationIn(cs: seq<Command>, name: string): Option<Navigation> {
    IntentOf(Run(NO_INTENTS, cs), name).navigation
  }

  lemma NavigationStep(i: Intents, name: string, c: Command)
    ensures IntentOf(Apply(i, c), name).navigation
         == if !ReplacesNavigation(i, name, c) then IntentOf(i, name).navigation
            else if c.NavigateTo? then Some(Navigation(c.sequence, c.url, c.readOnlyUrl))
            else None
  {
  }

  /** Whatever is stored was stored by a navigation of the run. */
  lemma {:induction false} NavigationHasACommand(cs: seq<Command>, name: string)
    ensures NavigationIn(cs, name).Some? ==>
            exists j | 0 <= j < |cs| :: cs[j].NavigateTo? && cs[j].name == name
                                        && cs[j].sequence == NavigationIn(cs, name).value.sequence
  {
    if cs != [] {
      var init, last := cs[..|cs| - 1], cs[|cs| - 1];
      NavigationHasACommand(init, name);
      NavigationStep(Run(NO_INTENTS, init), name, last);
      if NavigationIn(cs, name).Some? {
        if ReplacesNavigation(Run(NO_INTENTS, init), name, last) {
          assert cs[|cs| - 1].NavigateTo?;
        } else {
          var j :| 0 <= j < |init| && init[j].NavigateTo? && init[j].name == name
                   && init[j].sequence == NavigationIn(init, name).value.sequence;
          assert cs[j] == init[j];
        }
      }
    }
  }

  /** The k-th command is a navigation of the label, the only one with its
      sequence. */
  ghost predicate IsNavigation(cs: seq<Command>, k: nat, name: string) {
    && k < |cs| && cs[k].NavigateTo? && cs[k].name == name
    && (forall j | 0 <= j < |cs| && j != k && cs[j].NavigateTo? && cs[j].name == name ::
          cs[j].sequence != cs[k].sequence)
  }

  /** Its sequence was current when it arrived, and no recorded navigation or
      close came after it. */
  ghost predicate Survives(cs: seq<Command>, k: nat, name: string)
    requires k < |cs|
  {
    && SequenceIsCurrent(Run(NO_INTENTS, cs[..k]), name, cs[k].sequence)
    && (forall j | k < j < |cs| :: !ReplacesNavigation(Run(NO_INTENTS, cs[..j]), name, cs[j]))
  }

  /** At the end of every run the label's navigation is that of a given command
      exactly if the command survived. */
  lemma {:induction false} NavigationSurvivesExactlyIf(cs: seq<Command>, k: nat, name: string)
    requires IsNavigation(cs, k, name)
    ensures NavigationIn(cs, name) == Some(Navigation(cs[k].sequence, cs[k].url, cs[k].readOnlyUrl))
            <==> Survives(cs, k, name)
    decreases |cs|
  {
    var n := |cs| - 1;
    var init, last := cs[..n], cs[n];
    NavigationStep(Run(NO_INTENTS, init), name, last);
    assert Run(NO_INTENTS, cs) == Apply(Run(NO_INTENTS, init), last);
    if k == n {
      NavigationHasACommand(init, name);
      assert forall j | 0 <= j < n :: cs[j] == init[j];
    } else {
      assert forall j | 0 <= j < n :: cs[j] == init[j];
      assert IsNavigation(init, k, name);
      NavigationSurvivesExactlyIf(init, k, name);
      SurvivesOneMore(cs, k, name);
    }
  }

  lemma SurvivesOneMore(cs: seq<Command>, k: nat, name: string)
    requires k < |cs| - 1
    ensures var n := |cs| - 1;
            Survives(cs, k, name) <==>
              Survives(cs[..n], k, name) && !ReplacesNavigation(Run(NO_INTENTS, cs[..n]), name, cs[n])
  {
    var n := |cs| - 1;
    hide Run, ReplacesNavigation, SequenceIsCurrent;
    PrefixesAgree(cs, n, n);
    PrefixesAgree(cs, n, k);
    forall j | k < j < n
      ensures cs[..n][..j] == cs[..j] && cs[..n][j] == cs[j]
    {
      PrefixesAgree(cs, n, j);
    }
  }

  lemma PrefixesAgree(cs: seq<Command>, n: nat, j: nat)
    requires j <= n < |cs|
    ensures cs[..n][..j] == cs[..j] && (j < n ==> cs[..n][j] == cs[j])
  {
  }

  /** A scope command is dropped because a newer one on the same prefix was
      recorded, even for a label that the newer one exempts. */
  lemma ExemptingScopeDropsOlder(name: string, prefix: string, rect: Rect)
    requires StartsWith(name, prefix)
    ensures var keep := Scope(prefix, 8, Hide, Some(name), [name]);
            var close := Scope(prefix, 7, Close, None, [name]);
            && IntentOf(Run(NO_INTENTS, [close, keep]), name).visibility == Some(VisibilityIntent(7, Closed))
            && name !in Run(NO_INTENTS, [keep, close]).labels
            && Overtaken([keep, close], 1, name) && !Overtaken([close, keep], 0, name)
  {
    var keep, close := Scope(prefix, 8, Hide, Some(name), [name]), Scope(prefix, 7, Close, None, [name]);
    TwoCommands(close, keep);
    TwoCommands(keep, close);
    assert name in Targets([name], prefix, None);
    assert name !in Targets([name], prefix, Some(name));
    assert Overtakes([keep, close], 1, 0, name);
  }
}
